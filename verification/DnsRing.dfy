/** The DNS cache's capacity: its ring length is not the bound its comment says. */
module DnsRing {
  import opened Options
  import opened EvictionRing

  type Address = nat

  /** The bound is reached, for every ring length: re-inserting one address until it
      fills the ring orphans N - 1 others, and N new addresses then find nothing to
      evict but that one. */
  lemma BoundIsReached(n: nat) returns (addrs: seq<Address>)
    requires n > 0
    ensures |Run(Fresh<Address>(n), addrs).cached| == 2 * n - 1
  {
    var others := Others(n, n - 1);
    var same := Same(n, others, n);
    addrs := NewOnes(n, same, n);
    RangeSize(Run(Fresh<Address>(n), addrs).cached, 1, 2 * n);
  }

  /** The addresses from lo up to hi, hi excluded. */
  ghost predicate IsRange(s: set<Address>, lo: nat, hi: nat) {
    forall x :: x in s <==> lo <= x < hi
  }

  lemma {:induction false} RangeSize(s: set<Address>, lo: nat, hi: nat)
    requires IsRange(s, lo, hi) && lo <= hi
    ensures |s| == hi - lo
    decreases hi - lo
  {
    if lo == hi {
      assert s == {};
    } else {
      RangeSize(s - {lo}, lo + 1, hi);
    }
  }

  lemma FitsIn(r: Ring<Address>, a: Address)
    requires r.Valid() && |r.cached + {a}| <= |r.window|
    ensures Inserted(r, a).cached == r.cached + {a}
  {
  }

  lemma EvictsOldest(r: Ring<Address>, a: Address)
    requires r.Valid() && |r.cached + {a}| > |r.window| && r.window[0].Some?
    ensures Inserted(r, a).cached == r.cached + {a} - {r.window[0].value}
  {
  }

  lemma WindowMoves(r: Ring<Address>, a: Address)
    requires r.Valid()
    ensures |Inserted(r, a).window| == |r.window|
    ensures forall i :: 0 <= i < |r.window| - 1 ==> Inserted(r, a).window[i] == r.window[i + 1]
    ensures Inserted(r, a).window[|r.window| - 1] == Some(a)
  {
  }

  /** Addresses 1 to k, once each. */
  lemma {:induction false} Others(n: nat, k: nat) returns (addrs: seq<Address>)
    requires k < n
    ensures IsRange(Run(Fresh<Address>(n), addrs).cached, 1, k + 1)
  {
    if k == 0 {
      addrs := [];
    } else {
      var before := Others(n, k - 1);
      addrs := before + [k];
      RunMore(n, before, k);
      var r := Run(Fresh<Address>(n), before);
      RangeSize(r.cached + {k}, 1, k + 1);
      FitsIn(r, k);
    }
  }

  /** Address 0 has been inserted k times after the others. */
  ghost predicate Repeated(r: Ring<Address>, n: nat, k: nat) {
    && 0 < n == |r.window| && k <= n && IsRange(r.cached, if k == 0 then 1 else 0, n)
    && forall i :: n - k <= i < n ==> r.window[i] == Some(0)
  }

  lemma RepeatOnce(r: Ring<Address>, n: nat, k: nat, next: nat)
    requires Repeated(r, n, k) && next == k + 1 <= n
    ensures Repeated(Inserted(r, 0), n, next)
  {
    RangeSize(r.cached + {0}, 0, n);
    FitsIn(r, 0);
    WindowMoves(r, 0);
  }

  /** Address 0, k times: it takes over the newest k slots. */
  lemma {:induction false} Same(n: nat, others: seq<Address>, k: nat) returns (addrs: seq<Address>)
    requires 0 < n && k <= n && IsRange(Run(Fresh<Address>(n), others).cached, 1, n)
    ensures Repeated(Run(Fresh<Address>(n), addrs), n, k)
  {
    if k == 0 {
      addrs := others;
    } else {
      var before := Same(n, others, k - 1);
      addrs := before + [0];
      RunMore(n, before, 0);
      RepeatOnce(Run(Fresh<Address>(n), before), n, k - 1, k);
    }
  }

  /** k new addresses have been inserted after that; address 0 is still in the
      oldest slots, but no longer cached. */
  ghost predicate Renewed(r: Ring<Address>, n: nat, k: nat) {
    && 0 < n == |r.window| && k <= n && IsRange(r.cached, if k == 0 then 0 else 1, n + k)
    && forall i :: 0 <= i < n - k ==> r.window[i] == Some(0)
  }

  lemma RenewOnce(r: Ring<Address>, n: nat, k: nat, next: nat)
    requires Renewed(r, n, k) && next == k + 1 <= n
    ensures Renewed(Inserted(r, n + k), n, next)
  {
    RangeSize(r.cached + {n + k}, if k == 0 then 0 else 1, n + next);
    EvictsOldest(r, n + k);
    WindowMoves(r, n + k);
  }

  /** k new addresses: each finds address 0 in the oldest slot. */
  lemma {:induction false} NewOnes(n: nat, same: seq<Address>, k: nat) returns (addrs: seq<Address>)
    requires 0 < n && k <= n && Repeated(Run(Fresh<Address>(n), same), n, n)
    ensures Renewed(Run(Fresh<Address>(n), addrs), n, k)
  {
    if k == 0 {
      addrs := same;
    } else {
      var m := k - 1;
      var before := NewOnes(n, same, m);
      addrs := before + [n + m];
      RunMore(n, before, n + m);
      RenewOnce(Run(Fresh<Address>(n), before), n, m, k);
    }
  }
}
