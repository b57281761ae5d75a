/** A table of keys evicted through a ring of slots: how large the table can really
    get, and when it is the FIFO it is meant to be. */
module EvictionRing {
  import opened Options

  // ----- the ring as a value -----

  /** The keys present, and the ring read from its oldest slot to its newest. */
  datatype Ring<T(==)> = Ring(cached: set<T>, window: seq<Option<T>>) {
    predicate Valid() {
      window != []
    }
  }

  function Fresh<T(==,!new)>(n: nat): Ring<T> {
    Ring({}, seq(n, _ => None))
  }

  /** Adds a key; over capacity, drops the key in the oldest slot, present or
      not, even when it is the one just added. */
  function Inserted<T(==,!new)>(r: Ring<T>, a: T): Ring<T>
    requires r.Valid()
  {
    var more := r.cached + {a};
    Ring(if |more| > |r.window| && r.window[0].Some? then more - {r.window[0].value} else more,
         r.window[1..] + [Some(a)])
  }

  function Run<T(==,!new)>(r: Ring<T>, addrs: seq<T>): Ring<T>
    requires r.Valid()
    ensures Run(r, addrs).Valid() && |Run(r, addrs).window| == |r.window|
  {
    if addrs == [] then r else Inserted(Run(r, addrs[..|addrs| - 1]), addrs[|addrs| - 1])
  }

  lemma RunMore<T(!new)>(n: nat, addrs: seq<T>, a: T)
    requires n > 0
    ensures Run(Fresh<T>(n), addrs + [a]) == Inserted(Run(Fresh<T>(n), addrs), a)
  {
    assert (addrs + [a])[..|addrs|] == addrs;
  }

  // ----- the general bound -----

  function Slots<T(==,!new)>(w: seq<Option<T>>): set<T> {
    set i | 0 <= i < |w| && w[i].Some? :: w[i].value
  }

  /** Keys no slot will ever evict. */
  function Orphans<T(==,!new)>(r: Ring<T>): set<T> {
    r.cached - Slots(r.window)
  }

  lemma {:induction false} SlotsFit<T(!new)>(w: seq<Option<T>>)
    ensures |Slots(w)| <= |w|
  {
    if w != [] {
      var n := |w| - 1;
      SlotsFit(w[..n]);
      if w[n].Some? {
        assert Slots(w) == Slots(w[..n]) + {w[n].value};
      } else {
        assert Slots(w) == Slots(w[..n]);
      }
    } else {
      assert Slots(w) == {};
    }
  }

  lemma Subset<T(!new)>(s: set<T>, t: set<T>)
    requires s <= t
    ensures |s| <= |t|
  {
    assert t == s + (t - s);
  }

  lemma SlotsAfter<T(!new)>(r: Ring<T>, a: T)
    requires r.Valid()
    ensures Slots(Inserted(r, a).window) <= Slots(r.window) + {a}
    ensures Slots(r.window) <= Slots(Inserted(r, a).window) + if r.window[0].Some? then {r.window[0].value} else {}
    ensures a in Slots(Inserted(r, a).window)
  {
    var w, v := r.window, Inserted(r, a).window;
    forall x | x in Slots(v) ensures x in Slots(w) + {a} {
      var i :| 0 <= i < |v| && v[i] == Some(x);
      if i < |v| - 1 { assert w[i + 1] == Some(x); }
    }
    forall x | x in Slots(w) ensures x in Slots(v) || w[0] == Some(x) {
      var i :| 0 <= i < |w| && w[i] == Some(x);
      if i > 0 { assert v[i - 1] == Some(x); }
    }
    assert v[|v| - 1] == Some(a);
  }

  lemma OrphansStayFew<T(!new)>(r: Ring<T>, a: T)
    requires r.Valid() && |Orphans(r)| < |r.window|
    ensures |Orphans(Inserted(r, a))| < |r.window|
  {
    var t, more := Inserted(r, a), r.cached + {a};
    SlotsAfter(r, a);
    if |more| > |r.window| {
      Subset(Orphans(t), Orphans(r));
    } else {
      assert Orphans(t) <= more - {a};
      Subset(Orphans(t), more - {a});
    }
  }

  /** Whatever is inserted, fewer than N keys are outside the ring, so
      the table never exceeds 2N - 1 entries. */
  lemma {:induction false} CacheBound<T(!new)>(n: nat, addrs: seq<T>)
    requires n > 0
    ensures var r := Run(Fresh<T>(n), addrs);
            |Orphans(r)| < n && |r.cached| <= 2 * n - 1
  {
    var r := Run(Fresh<T>(n), addrs);
    if addrs == [] {
      assert Orphans(r) == {};
    } else {
      CacheBound(n, addrs[..|addrs| - 1]);
      OrphansStayFew(Run(Fresh<T>(n), addrs[..|addrs| - 1]), addrs[|addrs| - 1]);
    }
    SlotsFit(r.window);
    Subset(r.cached, Orphans(r) + Slots(r.window));
  }

  /** An insert cannot outgrow the ring: the key is present, there is room, or the
      oldest slot still names a key present, the inserted one included. */
  predicate HasVictim<T(==,!new)>(r: Ring<T>, a: T)
    requires r.Valid()
  {
    a in r.cached || |r.cached| < |r.window| || (r.window[0].Some? && r.window[0].value in r.cached + {a})
  }

  lemma WithinCapacityStep<T(!new)>(r: Ring<T>, a: T)
    requires r.Valid() && |r.cached| <= |r.window|
    ensures |Inserted(r, a).cached| <= |r.window| <==> HasVictim(r, a)
  {
    if a in r.cached { assert r.cached + {a} == r.cached; }
  }

  /** After every insert so far the table has fitted the ring length. */
  predicate AlwaysFits<T(==,!new)>(n: nat, addrs: seq<T>)
    requires n > 0
  {
    |Run(Fresh<T>(n), addrs).cached| <= n && (addrs == [] || AlwaysFits(n, addrs[..|addrs| - 1]))
  }

  predicate AlwaysHasVictim<T(==,!new)>(n: nat, addrs: seq<T>)
    requires n > 0
  {
    addrs == [] || (AlwaysHasVictim(n, addrs[..|addrs| - 1])
                    && HasVictim(Run(Fresh<T>(n), addrs[..|addrs| - 1]), addrs[|addrs| - 1]))
  }

  /** Over a run the ring length is the capacity throughout exactly when every single
      insert finds room or a victim. */
  lemma {:induction false} WithinCapacityIff<T(!new)>(n: nat, addrs: seq<T>)
    requires n > 0
    ensures AlwaysFits(n, addrs) <==> AlwaysHasVictim(n, addrs)
  {
    if addrs != [] {
      var init, last := addrs[..|addrs| - 1], addrs[|addrs| - 1];
      WithinCapacityIff(n, init);
      if AlwaysFits(n, init) { WithinCapacityStep(Run(Fresh<T>(n), init), last); }
    }
  }

  // ----- the FIFO -----

  /** No key was present at the moment it was inserted. */
  predicate AllNew<T(==,!new)>(n: nat, addrs: seq<T>)
    requires n > 0
  {
    addrs == [] || (AllNew(n, addrs[..|addrs| - 1]) && addrs[|addrs| - 1] !in Run(Fresh<T>(n), addrs[..|addrs| - 1]).cached)
  }

  /** The newest n of the inserted keys, older slots first; unused slots are empty. */
  function Newest<T(==,!new)>(n: nat, addrs: seq<T>): seq<Option<T>> {
    seq(n, i requires 0 <= i < n => if |addrs| + i < n then None else Some(addrs[|addrs| + i - n]))
  }

  predicate Distinct<T(==,!new)>(w: seq<Option<T>>) {
    forall i, j :: 0 <= i < j < |w| && w[i].Some? ==> w[i] != w[j]
  }

  lemma NewestMore<T(!new)>(n: nat, addrs: seq<T>, a: T)
    requires n > 0
    ensures Newest(n, addrs + [a]) == Newest(n, addrs)[1..] + [Some(a)]
  {
  }

  /** Distinct slots name as many keys as there are slots exactly when none is empty. */
  lemma {:induction false} SlotsCount<T(!new)>(w: seq<Option<T>>)
    requires Distinct(w)
    ensures |Slots(w)| <= |w| && (|Slots(w)| == |w| <==> forall i :: 0 <= i < |w| ==> w[i].Some?)
  {
    if w != [] {
      var n := |w| - 1;
      SlotsCount(w[..n]);
      if w[n].Some? {
        assert Slots(w) == Slots(w[..n]) + {w[n].value};
      } else {
        assert Slots(w) == Slots(w[..n]);
      }
    } else {
      assert Slots(w) == {};
    }
  }

  /** When every inserted key is new, the table is exactly a FIFO: it holds the
      newest N inserted keys and nothing else. */
  lemma {:induction false} FifoWhenAllNew<T(!new)>(n: nat, addrs: seq<T>)
    requires n > 0 && AllNew(n, addrs)
    ensures var r := Run(Fresh<T>(n), addrs);
            && r.window == Newest(n, addrs) && InStep(r) && |r.cached| <= n
  {
    var r := Run(Fresh<T>(n), addrs);
    if addrs == [] {
      assert Slots(Newest<T>(n, [])) == {};
    } else {
      var init, a := addrs[..|addrs| - 1], addrs[|addrs| - 1];
      FifoWhenAllNew(n, init);
      assert addrs == init + [a];
      NewestMore(n, init, a);
      RunMore(n, init, a);
      FifoStep(Run(Fresh<T>(n), init), a);
    }
    SlotsFit(r.window);
  }

  lemma StaysDistinct<T(!new)>(r: Ring<T>, a: T)
    requires r.Valid() && Distinct(r.window) && a !in Slots(r.window)
    ensures Distinct(Inserted(r, a).window)
  {
    var w, v := r.window, Inserted(r, a).window;
    forall i, j | 0 <= i < j < |v| && v[i].Some? ensures v[i] != v[j] {
      assert v[i] == w[i + 1] && v[i].value in Slots(w);
      if j < |v| - 1 { assert v[j] == w[j + 1]; }
    }
  }

  /** The key in the oldest slot, if that slot is used. */
  function Oldest<T(==,!new)>(w: seq<Option<T>>): set<T>
    requires w != []
  {
    if w[0].Some? then {w[0].value} else {}
  }

  lemma OldestIsSlot<T(!new)>(w: seq<Option<T>>)
    requires w != []
    ensures Oldest(w) <= Slots(w)
  {
  }

  lemma SlotsNow<T(!new)>(r: Ring<T>, a: T)
    requires r.Valid() && Distinct(r.window) && a !in Slots(r.window)
    ensures Slots(Inserted(r, a).window) == Slots(r.window) + {a} - Oldest(r.window)
  {
    var w, v := r.window, Inserted(r, a).window;
    SlotsAfter(r, a);
    forall x | x in Slots(v) ensures x !in Oldest(w) {
      var i :| 0 <= i < |v| && v[i] == Some(x);
      if i < |v| - 1 { assert v[i] == w[i + 1]; }
    }
  }

  /** Empty slots come before used ones: the ring fills once and stays full. */
  predicate FilledFromRight<T(==,!new)>(w: seq<Option<T>>) {
    forall i, j :: 0 <= i < j < |w| && w[i].Some? ==> w[j].Some?
  }

  /** The ring in step with the table: its slots are the table's keys, each once. */
  predicate InStep<T(==,!new)>(r: Ring<T>) {
    r.Valid() && r.cached == Slots(r.window) && Distinct(r.window) && FilledFromRight(r.window)
  }

  lemma StaysFilled<T(!new)>(r: Ring<T>, a: T)
    requires r.Valid() && FilledFromRight(r.window)
    ensures FilledFromRight(Inserted(r, a).window)
  {
    var w, v := r.window, Inserted(r, a).window;
    forall i, j | 0 <= i < j < |v| && v[i].Some? ensures v[j].Some? {
      if j < |v| - 1 { assert v[i] == w[i + 1] && v[j] == w[j + 1]; }
    }
  }

  lemma FullIffOldestUsed<T(!new)>(r: Ring<T>)
    requires InStep(r)
    ensures |r.cached| <= |r.window|
    ensures |r.cached| == |r.window| <==> r.window[0].Some?
  {
    SlotsCount(r.window);
  }

  lemma CachedNow<T(!new)>(r: Ring<T>, a: T)
    requires InStep(r) && a !in r.cached
    ensures Inserted(r, a).cached == r.cached + {a} - Oldest(r.window)
  {
    FullIffOldestUsed(r);
    assert |r.cached + {a}| == |r.cached| + 1;
  }

  /** Inserting a key that is not in the table keeps the ring in step: there is room,
      or exactly the oldest key leaves. */
  lemma FifoStep<T(!new)>(r: Ring<T>, a: T)
    requires InStep(r) && a !in r.cached
    ensures InStep(Inserted(r, a))
    ensures Inserted(r, a).cached == r.cached + {a} - Oldest(r.window)
  {
    CachedNow(r, a);
    SlotsNow(r, a);
    StaysDistinct(r, a);
    StaysFilled(r, a);
  }

  // ----- a ring kept in an array with a write position -----

  lemma NextSlot(p: nat, n: nat)
    requires p < n
    ensures (p + 1) % n == if p + 1 == n then 0 else p + 1
  {
  }

  /** The slots after p, then those before it, once slot p has been rewritten. */
  lemma Wraps<T>(before: seq<Option<T>>, p: nat, now: seq<Option<T>>, next: nat, x: Option<T>)
    requires p < |before| && now == before[p := x]
    requires next == if p + 1 == |before| then 0 else p + 1
    ensures now[next..] + now[..next] == (before[p..] + before[..p])[1..] + [x]
  {
  }
}
