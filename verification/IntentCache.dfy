/** The two-generation cache from a connection to the destination its client dialed. */
module IntentCache {
  import opened Options

  datatype Key = Key(srcIP: nat, dstIP: nat, srcPort: nat, dstPort: nat, pid: nat, protocol: nat, direction: nat)

  datatype Dst = Dst(ip: nat, port: nat)

  const DEFAULT_MAX := 262144

  // ----- the generations as a value -----

  datatype Gens = Gens(max: nat, cur: map<Key, Dst>, prev: map<Key, Dst>)

  function Fresh(max: nat): Gens {
    Gens(max, map[], map[])
  }

  /** A full current generation becomes the previous one. */
  function Rotated(g: Gens): Gens {
    if |g.cur| >= g.max then Gens(g.max, map[], g.cur) else g
  }

  function WithPut(g: Gens, k: Key, d: Dst): Gens {
    var r := Rotated(g);
    Gens(g.max, r.cur[k := d], r.prev - {k})
  }

  function WithDelete(g: Gens, k: Key): Gens {
    Gens(g.max, g.cur - {k}, g.prev - {k})
  }

  function Found(g: Gens, k: Key): Option<Dst> {
    if k in g.cur then Some(g.cur[k]) else if k in g.prev then Some(g.prev[k]) else None
  }

  predicate Bounded(g: Gens) {
    g.max > 0 && |g.cur| <= g.max && |g.prev| <= g.max && g.cur.Keys !! g.prev.Keys
  }

  class Cache {
    const max: nat
    var cur: map<Key, Dst>
    var prev: map<Key, Dst>

    constructor (max: int)
      ensures State() == Fresh(if max <= 0 then DEFAULT_MAX else max)
    {
      this.max := if max <= 0 then DEFAULT_MAX else max;
      cur, prev := map[], map[];
    }

    function State(): Gens
      reads this
    {
      Gens(max, cur, prev)
    }

    method Put(k: Key, d: Dst)
      modifies this
      ensures State() == WithPut(old(State()), k, d)
    {
      if |cur| >= max {
        prev := cur;
        cur := map[];
      }
      cur := cur[k := d];
      prev := prev - {k};
    }

    method Get(k: Key) returns (d: Option<Dst>)
      ensures d == Found(State(), k)
    {
      if k in cur {
        return Some(cur[k]);
      }
      d := if k in prev then Some(prev[k]) else None;
    }

    method Delete(k: Key)
      modifies this
      ensures State() == WithDelete(old(State()), k)
    {
      cur := cur - {k};
      prev := prev - {k};
    }

    /** The size of both generations: the number of keys that Get finds. */
    method Len() returns (n: nat)
      requires Bounded(State())
      ensures n == |cur.Keys + prev.Keys| && n <= 2 * max
    {
      n := |cur| + |prev|;
    }
  }

  // ----- runs -----

  datatype Op = Put(key: Key, dst: Dst) | Delete(key: Key)

  function Done(g: Gens, op: Op): Gens {
    match op case Put(k, d) => WithPut(g, k, d) case Delete(k) => WithDelete(g, k)
  }

  function Run(g: Gens, ops: seq<Op>): Gens {
    if ops == [] then g else Done(Run(g, ops[..|ops| - 1]), ops[|ops| - 1])
  }

  lemma PutKeepsBounds(g: Gens, k: Key, d: Dst)
    requires Bounded(g)
    ensures Bounded(WithPut(g, k, d))
  {
    var r, h := Rotated(g), WithPut(g, k, d);
    RotationKeepsBounds(g);
    PutSizes(r.cur, r.prev, k, d);
  }

  lemma PutSizes(cur: map<Key, Dst>, prev: map<Key, Dst>, k: Key, d: Dst)
    requires cur.Keys !! prev.Keys
    ensures |cur[k := d]| <= |cur| + 1 && |prev - {k}| <= |prev| && cur[k := d].Keys !! (prev - {k}).Keys
  {
    assert cur[k := d].Keys == cur.Keys + {k};
    assert (prev - {k}).Keys == prev.Keys - {k};
  }

  lemma RotationKeepsBounds(g: Gens)
    requires Bounded(g)
    ensures Bounded(Rotated(g)) && |Rotated(g).cur| < g.max
  {
    var none: map<Key, Dst> := map[];
    assert none.Keys == {} && |none| == 0;
  }

  lemma DeleteKeepsBounds(g: Gens, k: Key)
    requires Bounded(g)
    ensures Bounded(WithDelete(g, k))
    ensures |WithDelete(g, k).cur| <= |g.cur|
  {
    assert (g.cur - {k}).Keys == g.cur.Keys - {k};
    assert (g.prev - {k}).Keys == g.prev.Keys - {k};
  }

  /** The generations stay disjoint and hold at most 2 * max entries. */
  lemma {:induction false} RunsStayBounded(g: Gens, ops: seq<Op>)
    requires Bounded(g)
    ensures Bounded(Run(g, ops)) && Run(g, ops).max == g.max
    ensures |Run(g, ops).cur| + |Run(g, ops).prev| <= 2 * g.max
  {
    if ops != [] {
      RunsStayBounded(g, ops[..|ops| - 1]);
      match ops[|ops| - 1] {
        case Put(k, d) => PutKeepsBounds(Run(g, ops[..|ops| - 1]), k, d);
        case Delete(k) => DeleteKeepsBounds(Run(g, ops[..|ops| - 1]), k);
      }
    }
  }

  /** The latest Put of a key that no Delete followed. */
  function Latest(ops: seq<Op>, k: Key): Option<Dst> {
    if ops == [] then None
    else
      var op := ops[|ops| - 1];
      if op.key != k then Latest(ops[..|ops| - 1], k)
      else if op.Put? then Some(op.dst) else None
  }

  /** Whatever the cache answers is the latest Put not yet deleted; it may have
      forgotten, it is never stale. */
  lemma {:induction false} NeverStale(max: nat, ops: seq<Op>, k: Key)
    ensures var g := Run(Fresh(max), ops);
            && Found(g, k) in {None, Latest(ops, k)}
            && (k in g.cur ==> Some(g.cur[k]) == Latest(ops, k))
            && (k in g.prev ==> Some(g.prev[k]) == Latest(ops, k))
  {
    if ops != [] { NeverStale(max, ops[..|ops| - 1], k); }
  }

  // ----- how long an entry lives -----

  predicate Present(g: Gens, k: Key) {
    k in g.cur || k in g.prev
  }

  /** How many Puts of other keys the entry outlives for certain. */
  function Life(g: Gens, k: Key): int {
    if k in g.cur then 2 * g.max - |g.cur| else g.max - |g.cur|
  }

  function Puts(ops: seq<Op>): nat {
    if ops == [] then 0 else Puts(ops[..|ops| - 1]) + if ops[|ops| - 1].Put? then 1 else 0
  }

  lemma PutTakesOneLife(g: Gens, k: Key, other: Key, d: Dst)
    requires Bounded(g) && Present(g, k) && Life(g, k) >= 1
    ensures var h := WithPut(g, other, d); Present(h, k) && Life(h, k) >= Life(g, k) - 1
  {
    var r := Rotated(g);
    assert r.cur[other := d].Keys == r.cur.Keys + {other};
  }

  lemma {:induction false} LivesDown(g: Gens, k: Key, ops: seq<Op>)
    requires Bounded(g) && Present(g, k) && Puts(ops) <= Life(g, k)
    requires forall i :: 0 <= i < |ops| ==> ops[i] != Delete(k)
    ensures Present(Run(g, ops), k) && Life(Run(g, ops), k) >= Life(g, k) - Puts(ops)
  {
    if ops != [] {
      var init, op := ops[..|ops| - 1], ops[|ops| - 1];
      assert Puts(ops) == Puts(init) + if op.Put? then 1 else 0;
      LivesDown(g, k, init);
      RunsStayBounded(g, init);
      match op {
        case Put(other, d) => PutTakesOneLife(Run(g, init), k, other, d);
        case Delete(other) => DeleteKeepsBounds(Run(g, init), other);
      }
    }
  }

  /** An entry just put is still found after any run with at most max further Puts
      and no Delete of its key. */
  lemma PutSurvives(g: Gens, k: Key, d: Dst, ops: seq<Op>)
    requires Bounded(g) && Puts(ops) <= g.max
    requires forall i :: 0 <= i < |ops| ==> ops[i] != Delete(k)
    ensures Found(Run(WithPut(g, k, d), ops), k).Some?
  {
    PutKeepsBounds(g, k, d);
    LivesDown(WithPut(g, k, d), k, ops);
  }

  // ----- one more Put can be too many -----

  function Nth(i: nat): Key {
    Key(i, 0, 0, 0, 0, 0, 0)
  }

  /** Run as a function value, so that the solver does not unfold it. */
  ghost function Outcome(g: Gens): seq<Op> -> Gens {
    ops => Run(g, ops)
  }

  lemma OutcomeMore(g: Gens, ops: seq<Op>, op: Op)
    ensures Outcome(g)(ops + [op]) == Done(Outcome(g)(ops), op)
    ensures Puts(ops + [op]) == Puts(ops) + if op.Put? then 1 else 0
  {
    assert (ops + [op])[..|ops|] == ops;
  }

  lemma NewKeyAdds(cur: map<Key, Dst>, k: Key, d: Dst)
    requires k !in cur
    ensures |cur[k := d]| == |cur| + 1
  {
    assert cur[k := d].Keys == cur.Keys + {k};
  }

  /** From `g` the current generation grew to size n, by keys numbered from `from` up to `upTo`,
      without a rotation. */
  ghost predicate Grown(g: Gens, from: nat, upTo: nat, n: nat, h: Gens) {
    && h.max == g.max && |h.cur| == n
    && (forall k :: k in h.cur ==> k in g.cur || from <= k.srcIP < upTo)
    && forall k :: k in h.prev ==> k in g.prev
  }

  lemma GrowsByOne(g: Gens, h: Gens, from: nat, next: nat, after: nat, m: nat, n: nat)
    requires Grown(g, from, next, m, h) && n == m + 1 <= g.max && after == next + 1 && from <= next
    requires forall k :: k in g.cur ==> k.srcIP < next
    ensures Grown(g, from, after, n, WithPut(h, Nth(next), Dst(0, 0)))
  {
    NewKeyAdds(h.cur, Nth(next), Dst(0, 0));
  }

  predicate AllFrom(ops: seq<Op>, from: nat) {
    forall i :: 0 <= i < |ops| ==> ops[i].key.srcIP >= from
  }

  /** Puts of new keys, numbered from `from`, until the current generation has n entries. */
  lemma {:induction false} FillsUp(g: Gens, from: nat, size: nat, n: nat) returns (ops: seq<Op>)
    requires size == |g.cur| <= n <= g.max
    requires forall k :: k in g.cur ==> k.srcIP < from
    ensures Grown(g, from, from + n - size, n, Outcome(g)(ops)) && Puts(ops) == n - size && AllFrom(ops, from)
    decreases n
  {
    if n == size {
      ops := [];
      assert Outcome(g)([]) == Run(g, []) == g;
    } else {
      var m := n - 1;
      var next := from + m - size;
      var init := FillsUp(g, from, size, m);
      ops := init + [Put(Nth(next), Dst(0, 0))];
      OutcomeMore(g, init, Put(Nth(next), Dst(0, 0)));
      GrowsByOne(g, Outcome(g)(init), from, next, from + n - size, m, n);
    }
  }

  lemma {:induction false} OutcomeAppends(g: Gens, ops: seq<Op>, more: seq<Op>)
    ensures Outcome(g)(ops + more) == Outcome(Outcome(g)(ops))(more) && Puts(ops + more) == Puts(ops) + Puts(more)
  {
    if more == [] {
      assert ops + more == ops;
      assert Run(Outcome(g)(ops), []) == Outcome(g)(ops);
    } else {
      var init, last := more[..|more| - 1], more[|more| - 1];
      OutcomeAppends(g, ops, init);
      OutcomeMore(g, ops + init, last);
      OutcomeMore(Outcome(g)(ops), init, last);
      assert ops + more == (ops + init) + [last] && more == init + [last];
    }
  }

  /** A Put into a full current generation starts a new one with that entry alone. */
  lemma RotatesOn(full: Gens, k: Key, d: Dst)
    requires |full.cur| == full.max > 0
    ensures WithPut(full, k, d).cur == map[k := d] && WithPut(full, k, d).max == full.max
    ensures forall o :: o in WithPut(full, k, d).prev ==> o in full.cur
  {
  }

  lemma PutAlone(g: Gens, op: Op) returns (ops: seq<Op>)
    requires op.Put?
    ensures ops == [op] && Outcome(g)(ops) == Done(g, op) && Puts(ops) == 1
  {
    ops := [] + [op];
    OutcomeMore(g, [], op);
    assert Outcome(g)([]) == Run(g, []) == g;
  }

  /** Between two rotations the current generation holds new keys only, so the second
      rotation forgets what the first one kept. */
  lemma SecondRotation(full: Gens, from: nat, upTo: nat, second: Gens, k: Key)
    requires |full.cur| == full.max > 0 && k.srcIP < from < upTo
    requires Grown(WithPut(full, Nth(from), Dst(0, 0)), from + 1, upTo, full.max, second)
    ensures Found(WithPut(second, Nth(upTo), Dst(0, 0)), k).None?
  {
    RotatesOn(full, Nth(from), Dst(0, 0));
    assert k !in second.cur;
    RotatesOn(second, Nth(upTo), Dst(0, 0));
  }

  /** max + 1 Puts of new keys push out every entry of a full current generation. */
  lemma RotatesAway(full: Gens, from: nat, k: Key) returns (ops: seq<Op>)
    requires |full.cur| == full.max > 0 && k.srcIP < from
    ensures Found(Outcome(full)(ops), k).None? && Puts(ops) == full.max + 1 && AllFrom(ops, from)
  {
    var upTo := from + full.max;
    var first := PutAlone(full, Put(Nth(from), Dst(0, 0)));
    RotatesOn(full, Nth(from), Dst(0, 0));
    var fill := FillsUp(Outcome(full)(first), from + 1, 1, full.max);
    var last := PutAlone(Outcome(Outcome(full)(first))(fill), Put(Nth(upTo), Dst(0, 0)));
    SecondRotation(full, from, upTo, Outcome(Outcome(full)(first))(fill), k);
    JoinThree(full, first, fill, last, from);
    ops := first + fill + last;
  }

  lemma JoinThree(g: Gens, a: seq<Op>, b: seq<Op>, c: seq<Op>, from: nat)
    requires AllFrom(a, from) && AllFrom(b, from) && AllFrom(c, from)
    ensures AllFrom(a + b + c, from) && Puts(a + b + c) == Puts(a) + Puts(b) + Puts(c)
    ensures Outcome(g)(a + b + c) == Outcome(Outcome(Outcome(g)(a))(b))(c)
  {
    OutcomeAppends(g, a, b);
    OutcomeAppends(g, a + b, c);
  }

  /** The bound is exact: for every max there is a cache and a Put whose entry is
      gone after max + 1 further Puts of other keys. */
  lemma OneMoreMayDrop(max: nat) returns (g: Gens, k: Key, ops: seq<Op>)
    requires max > 0
    ensures Bounded(g) && g.max == max && Puts(ops) == max + 1
    ensures forall i :: 0 <= i < |ops| ==> ops[i].key != k
    ensures Found(Run(WithPut(g, k, Dst(0, 0)), ops), k).None?
  {
    var last := max - 1;
    k := Nth(last);
    var fill := FillsUp(Fresh(max), 0, 0, last);
    g := Outcome(Fresh(max))(fill);
    assert g == Run(Fresh(max), fill);
    RunsStayBounded(Fresh(max), fill);
    GrowsByOne(Fresh(max), g, 0, last, max, last, max);
    ops := RotatesAway(WithPut(g, k, Dst(0, 0)), max, k);
  }
}
