/** CIDR prefixes: containment by the leading bits, when two prefixes share an
    address, and longest-prefix lookup over a sorted list. */
module Prefixes {
  import opened Options
  import opened Traffic

  /** An address; NoAddr is the zero address, which belongs to no family. */
  datatype Addr = V4(n: nat) | V6(n: nat) | NoAddr {
    function Width(): nat {
      match this case V4(_) => 32 case V6(_) => 128 case NoAddr => 0
    }

    function Value(): nat {
      if NoAddr? then 0 else n
    }

    predicate SameFamily(a: Addr) {
      (V4? && a.V4?) || (V6? && a.V6?)
    }
  }

  datatype Prefix = Prefix(addr: Addr, bits: int) {
    predicate IsValid() {
      !addr.NoAddr? && 0 <= bits <= addr.Width()
    }

    /** The leading `bits` bits of the address agree with the prefix's own address,
        whose remaining bits need not be zero. */
    predicate Contains(a: Addr) {
      IsValid() && addr.SameFamily(a) &&
      a.Value() / Pow2(addr.Width() - bits) == addr.Value() / Pow2(addr.Width() - bits)
    }
  }

  function Pow2(k: nat): (p: nat)
    ensures p > 0
  {
    if k == 0 then 1 else 2 * Pow2(k - 1)
  }

  // ----- when prefixes overlap -----

  lemma {:induction false} Pow2Adds(j: nat, k: nat)
    ensures Pow2(j + k) == Pow2(j) * Pow2(k)
  {
    if j > 0 {
      Pow2Adds(j - 1, k);
      Times2(Pow2(j - 1), Pow2(k));
    }
  }

  lemma Times2(a: nat, b: nat)
    ensures 2 * a * b == 2 * (a * b)
  {
  }

  lemma DivUnique(x: nat, d: nat, q: nat, r: nat)
    requires r < d && x == q * d + r
    ensures x / d == q
  {
    var q2, r2 := x / d, x % d;
    assert x == q2 * d + r2;
    if q2 < q { Spread(d, q2, q); }
    if q < q2 { Spread(d, q, q2); }
  }

  lemma Spread(d: nat, low: nat, high: nat)
    requires low < high
    ensures high * d >= low * d + d
  {
    assert high * d == low * d + (high - low) * d;
    assert (high - low) * d >= d by { AtLeastOnce(high - low, d); }
  }

  lemma AtLeastOnce(n: nat, d: nat)
    requires n >= 1
    ensures n * d >= d
  {
  }

  /** Dividing in two steps. */
  lemma DivTwice(x: nat, m: nat, k: nat)
    requires m > 0 && k > 0
    ensures m * k > 0 && x / (m * k) == (x / m) / k
  {
    var q, r := x / m, x % m;
    var q2, r2 := q / k, q % k;
    assert x == q * m + r && q == q2 * k + r2;
    var rest := r2 * m + r;
    assert x == q2 * (m * k) + rest by {
      assert q * m == (q2 * k + r2) * m == q2 * k * m + r2 * m;
      assert q2 * k * m == q2 * (m * k);
    }
    assert rest < m * k by {
      Spread(m, r2, k);
      assert k * m == m * k;
    }
    DivUnique(x, m * k, q2, rest);
  }

  /** Agreeing on more leading bits means agreeing on fewer. */
  lemma AgreeOnFewer(x: nat, y: nat, shift: nat, more: nat)
    requires shift <= more && x / Pow2(shift) == y / Pow2(shift)
    ensures x / Pow2(more) == y / Pow2(more)
  {
    var d := more - shift;
    Pow2Adds(shift, d);
    DivTwice(x, Pow2(shift), Pow2(d));
    DivTwice(y, Pow2(shift), Pow2(d));
  }

  lemma WholeBlocks(n: nat, size: nat, q: nat)
    requires size > 0
    ensures n / size == q <==> q * size <= n < q * size + size
  {
    assert n == n / size * size + n % size;
    if n / size < q {
      Spread(size, n / size, q);
    } else if n / size > q {
      Spread(size, q, n / size);
    }
  }

  lemma SameBlock(x: nat, y: nat, size: nat)
    requires size > 0
    ensures x / size == y / size <==> y - y % size <= x < y - y % size + size
  {
    assert y == y / size * size + y % size;
    WholeBlocks(x, size, y / size);
  }

  /** The addresses a prefix contains: those of its family in the one block of
      2^(width - bits) values that its own address lies in. */
  lemma ContainsItsBlock(p: Prefix, a: Addr)
    ensures p.Contains(a) <==>
            && !p.addr.NoAddr? && 0 <= p.bits <= p.addr.Width()
            && p.addr.V4? == a.V4? && p.addr.V6? == a.V6?
            && var size := Pow2(p.addr.Width() - p.bits);
               var start := p.addr.Value() - p.addr.Value() % size;
               start <= a.Value() < start + size
  {
    if p.IsValid() { SameBlock(a.Value(), p.addr.Value(), Pow2(p.addr.Width() - p.bits)); }
  }

  predicate Overlap(p: Prefix, q: Prefix) {
    p.Contains(q.addr) || q.Contains(p.addr)
  }

  ghost predicate ShareAddress(p: Prefix, q: Prefix) {
    exists a: Addr :: p.Contains(a) && q.Contains(a)
  }

  /** The two-containment test holds exactly when the prefixes share an address. */
  lemma OverlapIffShared(p: Prefix, q: Prefix)
    requires p.IsValid() && q.IsValid()
    ensures Overlap(p, q) <==> ShareAddress(p, q)
  {
    if p.Contains(q.addr) { assert q.Contains(q.addr); }
    if q.Contains(p.addr) { assert p.Contains(p.addr); }
    if a: Addr :| p.Contains(a) && q.Contains(a) {
      var sp, sq := p.addr.Width() - p.bits, q.addr.Width() - q.bits;
      if sq <= sp {
        AgreeOnFewer(a.Value(), q.addr.Value(), sq, sp);
      } else {
        AgreeOnFewer(a.Value(), p.addr.Value(), sp, sq);
      }
    }
  }

  // ----- longest-prefix lookup -----

  datatype Entry = Entry(prefix: Prefix, kind: TrafficType)

  /** A new entry goes after every entry at least as long: stable insertion. */
  function Insert(s: seq<Entry>, e: Entry): seq<Entry> {
    if s == [] || s[|s| - 1].prefix.bits >= e.prefix.bits then s + [e]
    else Insert(s[..|s| - 1], e) + [s[|s| - 1]]
  }

  function SortedByLength(s: seq<Entry>): seq<Entry> {
    if s == [] then [] else Insert(SortedByLength(s[..|s| - 1]), s[|s| - 1])
  }

  /** The first entry that contains the address. */
  function FirstMatch(s: seq<Entry>, a: Addr): Option<Entry> {
    if s == [] then None else if s[0].prefix.Contains(a) then Some(s[0]) else FirstMatch(s[1..], a)
  }

  /** The longest entry that contains the address, the earliest added of those. */
  function Longest(s: seq<Entry>, a: Addr): Option<Entry> {
    if s == [] then None
    else
      var best, e := Longest(s[..|s| - 1], a), s[|s| - 1];
      if e.prefix.Contains(a) && (best.None? || e.prefix.bits > best.value.prefix.bits) then Some(e) else best
  }

  predicate Descending(s: seq<Entry>) {
    forall i, j :: 0 <= i < j < |s| ==> s[i].prefix.bits >= s[j].prefix.bits
  }

  lemma {:induction false} FirstMatchAppends(s: seq<Entry>, t: seq<Entry>, a: Addr)
    ensures FirstMatch(s + t, a) == if FirstMatch(s, a).Some? then FirstMatch(s, a) else FirstMatch(t, a)
  {
    if s == [] {
      assert s + t == t;
    } else {
      FirstMatchAppends(s[1..], t, a);
      assert (s + t)[1..] == s[1..] + t && (s + t)[0] == s[0];
    }
  }

  lemma {:induction false} FirstMatchIn(s: seq<Entry>, a: Addr)
    ensures FirstMatch(s, a).Some? ==> FirstMatch(s, a).value in s && FirstMatch(s, a).value.prefix.Contains(a)
    ensures FirstMatch(s, a).None? ==> forall e :: e in s ==> !e.prefix.Contains(a)
  {
    if s != [] { FirstMatchIn(s[1..], a); }
  }

  lemma {:induction false} InsertMembers(s: seq<Entry>, e: Entry)
    ensures multiset(Insert(s, e)) == multiset(s) + multiset{e}
  {
    if !(s == [] || s[|s| - 1].prefix.bits >= e.prefix.bits) {
      InsertMembers(s[..|s| - 1], e);
      assert s == s[..|s| - 1] + [s[|s| - 1]];
    }
  }

  predicate NoneShorter(s: seq<Entry>, bits: int) {
    forall i :: 0 <= i < |s| ==> s[i].prefix.bits >= bits
  }

  lemma {:induction false} InsertNoneShorter(s: seq<Entry>, e: Entry, bits: int)
    requires NoneShorter(s, bits) && e.prefix.bits >= bits
    ensures NoneShorter(Insert(s, e), bits)
  {
    if !(s == [] || s[|s| - 1].prefix.bits >= e.prefix.bits) { InsertNoneShorter(s[..|s| - 1], e, bits); }
  }

  lemma {:induction false} InsertDescends(s: seq<Entry>, e: Entry)
    requires Descending(s)
    ensures Descending(Insert(s, e))
  {
    if !(s == [] || s[|s| - 1].prefix.bits >= e.prefix.bits) {
      var init, last := s[..|s| - 1], s[|s| - 1];
      InsertDescends(init, e);
      InsertNoneShorter(init, e, last.prefix.bits);
    }
  }

  lemma {:induction false} InsertMatch(s: seq<Entry>, e: Entry, a: Addr)
    requires Descending(s)
    ensures var m := FirstMatch(s, a);
            FirstMatch(Insert(s, e), a) ==
            if e.prefix.Contains(a) && (m.None? || e.prefix.bits > m.value.prefix.bits) then Some(e) else m
  {
    if s == [] || s[|s| - 1].prefix.bits >= e.prefix.bits {
      FirstMatchAppends(s, [e], a);
      FirstMatchIn(s, a);
    } else {
      var init, last := s[..|s| - 1], s[|s| - 1];
      InsertMatch(init, e, a);
      FirstMatchAppends(Insert(init, e), [last], a);
      FirstMatchAppends(init, [last], a);
      assert s == init + [last];
    }
  }

  /** On the sorted list the first match is the longest one, ties going to the
      entry added first. */
  lemma {:induction false} SortedFindsLongest(s: seq<Entry>, a: Addr)
    ensures Descending(SortedByLength(s)) && multiset(SortedByLength(s)) == multiset(s)
    ensures FirstMatch(SortedByLength(s), a) == Longest(s, a)
  {
    if s != [] {
      var init, last := s[..|s| - 1], s[|s| - 1];
      SortedFindsLongest(init, a);
      InsertDescends(SortedByLength(init), last);
      InsertMembers(SortedByLength(init), last);
      InsertMatch(SortedByLength(init), last, a);
      assert s == init + [last];
    }
  }

  /** What Longest means, without running it: the match at i beats every other
      match, and strictly beats the earlier ones. */
  ghost predicate Wins(s: seq<Entry>, a: Addr, i: int) {
    && 0 <= i < |s| && s[i].prefix.Contains(a)
    && forall j :: 0 <= j < |s| && s[j].prefix.Contains(a) ==>
         s[j].prefix.bits <= s[i].prefix.bits && (j < i ==> s[j].prefix.bits < s[i].prefix.bits)
  }

  lemma {:induction false} LongestWins(s: seq<Entry>, a: Addr)
    ensures Longest(s, a).None? <==> forall e :: e in s ==> !e.prefix.Contains(a)
    ensures Longest(s, a).Some? ==> exists i :: Wins(s, a, i) && s[i] == Longest(s, a).value
  {
    if s != [] {
      var n := |s| - 1;
      var init, last := s[..n], s[n];
      LongestWins(init, a);
      assert s == init + [last];
      if Longest(s, a).Some? {
        if Longest(s, a) == Longest(init, a) {
          var i :| Wins(init, a, i) && init[i] == Longest(init, a).value;
          assert Wins(s, a, i);
        } else {
          if Longest(init, a).Some? {
            var i :| Wins(init, a, i) && init[i] == Longest(init, a).value;
          }
          assert Wins(s, a, n);
        }
      }
    }
  }
}
