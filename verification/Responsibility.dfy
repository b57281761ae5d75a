/** Transitive attribution: the responsibility iteration of one origin, round by
    round, and what its values add up to over several origins. */
module Responsibility {
  import opened Sums
  import opened Rollup

  // ----- the iteration -----

  /** A root receives no bytes. */
  ghost predicate Root(g: Graph, v: NodeID) {
    g.TotalBytes(g.In(v)) == 0.0
  }

  ghost function Roots(g: Graph): set<NodeID> {
    set v | v in g.nodes && Root(g, v)
  }

  /** The share of its destination's inbound bytes that an edge carries. */
  ghost function Share(g: Graph, k: EdgeKey): real {
    if Root(g, k.dst) then 0.0 else g.Bytes(k) / g.TotalBytes(g.In(k.dst))
  }

  /** What edge k passes on when node u holds x(u). */
  ghost function Passed(g: Graph, x: NodeID -> real, k: EdgeKey): real {
    Share(g, k) * x(k.src)
  }

  ghost function Terms(g: Graph, x: NodeID -> real): EdgeKey -> real {
    k => Passed(g, x, k)
  }

  /** What flows into v when node u holds x(u). */
  ghost function Inflow(g: Graph, v: NodeID, x: NodeID -> real): real {
    Sum(g.In(v), Terms(g, x))
  }

  /** Responsibility of `origin` for node v after some rounds: the origin is
      pinned at 1, every other root stays at 0. */
  ghost function Resp(g: Graph, origin: NodeID, rounds: nat, v: NodeID): real {
    if v == origin then 1.0
    else if rounds == 0 || v !in g.nodes || Root(g, v) then 0.0
    else Inflow(g, v, u => Resp(g, origin, rounds - 1, u))
  }

  // ----- the inflow operator -----

  lemma SharesAreNonNegative(g: Graph)
    ensures forall k :: Share(g, k) >= 0.0
  {
    forall k ensures Share(g, k) >= 0.0 {
      InBytesNonNegative(g, k.dst);
    }
  }

  lemma InBytesNonNegative(g: Graph, v: NodeID)
    ensures g.TotalBytes(g.In(v)) >= 0.0
  {
    Monotone(g.In(v), k => 0.0, k => g.Bytes(k));
    Zero(g.In(v), (k: EdgeKey) => 0.0);
  }

  lemma SharesSumToOne(g: Graph, v: NodeID)
    requires !Root(g, v)
    ensures Sum(g.In(v), k => Share(g, k)) == 1.0
  {
    var ib := g.TotalBytes(g.In(v));
    var none := (k: EdgeKey) => 0.0;
    forall k | k in g.In(v) ensures Share(g, k) == (1.0 / ib) * g.Bytes(k) + none(k) {
      assert g.Bytes(k) / ib == (1.0 / ib) * g.Bytes(k);
    }
    Linear(g.In(v), 1.0 / ib, k => g.Bytes(k), none, k => Share(g, k));
    Zero(g.In(v), none);
    assert (1.0 / ib) * ib == 1.0;
  }

  lemma InflowMonotone(g: Graph, v: NodeID, x: NodeID -> real, y: NodeID -> real)
    requires g.EdgesJoinNodes()
    requires forall u :: u in g.nodes ==> x(u) <= y(u)
    ensures Inflow(g, v, x) <= Inflow(g, v, y)
  {
    SharesAreNonNegative(g);
    forall k | k in g.In(v) ensures Passed(g, x, k) <= Passed(g, y, k) {
      assert k.src in g.nodes;
      ScaleUp(Share(g, k), x(k.src), y(k.src));
    }
    Monotone(g.In(v), Terms(g, x), Terms(g, y));
  }

  lemma TermsAdd(g: Graph, k: EdgeKey, x: NodeID -> real, y: NodeID -> real, z: NodeID -> real)
    requires z(k.src) == x(k.src) + y(k.src)
    ensures Passed(g, z, k) == Passed(g, x, k) + Passed(g, y, k)
  {
  }

  lemma InflowAdds(g: Graph, v: NodeID, x: NodeID -> real, y: NodeID -> real, z: NodeID -> real)
    requires g.EdgesJoinNodes()
    requires forall u :: u in g.nodes ==> z(u) == x(u) + y(u)
    ensures Inflow(g, v, z) == Inflow(g, v, x) + Inflow(g, v, y)
  {
    forall k | k in g.In(v) ensures Terms(g, z)(k) == 1.0 * Terms(g, x)(k) + Terms(g, y)(k) {
      assert k.src in g.nodes;
      TermsAdd(g, k, x, y, z);
    }
    Linear(g.In(v), 1.0, Terms(g, x), Terms(g, y), Terms(g, z));
  }

  /** A non-root passes on a weighted average of its sources. */
  lemma InflowOfConstant(g: Graph, v: NodeID, c: real, x: NodeID -> real)
    requires g.EdgesJoinNodes() && !Root(g, v)
    requires forall u :: u in g.nodes ==> x(u) == c
    ensures Inflow(g, v, x) == c
  {
    var share, none := (k: EdgeKey) => Share(g, k), (k: EdgeKey) => 0.0;
    forall k | k in g.In(v) ensures Passed(g, x, k) == c * share(k) + none(k) {
      assert k.src in g.nodes;
    }
    Linear(g.In(v), c, share, none, Terms(g, x));
    Zero(g.In(v), none);
    SharesSumToOne(g, v);
    Congruence(g.In(v), share, k => Share(g, k));
  }

  lemma InflowSource(g: Graph, v: NodeID, x: NodeID -> real) returns (u: NodeID)
    requires g.EdgesJoinNodes()
    requires Inflow(g, v, x) != 0.0
    ensures u in g.nodes && EdgeKey(u, v) in g.edges && x(u) != 0.0
  {
    var k := SomeNonZero(g.In(v), Terms(g, x));
    assert Passed(g, x, k) != 0.0;
    u := k.src;
  }

  /** Per edge, what each origin sends over it. */
  ghost function TermsByEdge(g: Graph, x: NodeID -> NodeID -> real): EdgeKey -> NodeID -> real {
    k => o => Passed(g, x(o), k)
  }

  ghost function TermsByOrigin(g: Graph, x: NodeID -> NodeID -> real): NodeID -> EdgeKey -> real {
    o => Terms(g, x(o))
  }

  lemma PassedByAll(g: Graph, origins: set<NodeID>, x: NodeID -> NodeID -> real, total: NodeID -> real, k: EdgeKey)
    requires total(k.src) == Sum(origins, o => x(o)(k.src))
    ensures Passed(g, total, k) == Sum(origins, TermsByEdge(g, x)(k))
  {
    forall o | o in origins ensures TermsByEdge(g, x)(k)(o) == Share(g, k) * x(o)(k.src) {
      assert TermsByEdge(g, x)(k)(o) == Passed(g, x(o), k);
    }
    Scaled(origins, Share(g, k), o => x(o)(k.src), TermsByEdge(g, x)(k));
  }

  /** Adding over origins commutes with flowing into a node: `x(o)` is what each
      node holds for origin o, `total` what it holds for all of them. */
  lemma SumOfInflows(g: Graph, origins: set<NodeID>, v: NodeID, x: NodeID -> NodeID -> real,
                     row: NodeID -> real, total: NodeID -> real)
    requires forall o :: o in origins ==> row(o) == Inflow(g, v, x(o))
    requires forall u :: total(u) == Sum(origins, o => x(o)(u))
    ensures Sum(origins, row) == Inflow(g, v, total)
  {
    forall k | k in g.In(v) ensures Terms(g, total)(k) == Sum(origins, TermsByEdge(g, x)(k)) {
      PassedByAll(g, origins, x, total, k);
    }
    Exchange(origins, g.In(v), TermsByOrigin(g, x), TermsByEdge(g, x), row, Terms(g, total));
  }

  // ----- one origin: bounds, growth, convergence -----

  /** The responsibilities of one origin after some rounds, as a function of the node. */
  ghost function Held(g: Graph, origin: NodeID, rounds: nat): NodeID -> real {
    u => Resp(g, origin, rounds, u)
  }

  lemma {:induction false} RespInUnitInterval(g: Graph, origin: NodeID, rounds: nat, v: NodeID)
    requires g.EdgesJoinNodes()
    ensures 0.0 <= Resp(g, origin, rounds, v) <= 1.0
  {
    if v != origin && rounds > 0 && v in g.nodes && !Root(g, v) {
      var x := Held(g, origin, rounds - 1);
      forall u ensures 0.0 <= x(u) <= 1.0 { RespInUnitInterval(g, origin, rounds - 1, u); }
      InflowMonotone(g, v, u => 0.0, x);
      InflowMonotone(g, v, x, u => 1.0);
      InflowOfConstant(g, v, 0.0, u => 0.0);
      InflowOfConstant(g, v, 1.0, u => 1.0);
    }
  }

  lemma {:induction false} RespGrows(g: Graph, origin: NodeID, rounds: nat, v: NodeID)
    requires g.EdgesJoinNodes()
    ensures Resp(g, origin, rounds, v) <= Resp(g, origin, rounds + 1, v)
  {
    RespInUnitInterval(g, origin, rounds + 1, v);
    if v != origin && rounds > 0 && v in g.nodes && !Root(g, v) {
      forall u ensures Resp(g, origin, rounds - 1, u) <= Resp(g, origin, rounds, u) { RespGrows(g, origin, rounds - 1, u); }
      InflowMonotone(g, v, Held(g, origin, rounds - 1), Held(g, origin, rounds));
    }
  }

  lemma {:induction false} RespGrowsTo(g: Graph, origin: NodeID, rounds: nat, more: nat, v: NodeID)
    requires g.EdgesJoinNodes() && rounds <= more
    ensures Resp(g, origin, rounds, v) <= Resp(g, origin, more, v)
    decreases more
  {
    if rounds < more {
      RespGrowsTo(g, origin, rounds, more - 1, v);
      RespGrows(g, origin, more - 1, v);
    }
  }

  /** A solution of the recurrence the iteration aims at. */
  ghost predicate FixedPoint(g: Graph, origin: NodeID, x: NodeID -> real) {
    forall v :: FixedAt(g, origin, x, v)
  }

  ghost predicate FixedAt(g: Graph, origin: NodeID, x: NodeID -> real, v: NodeID) {
    x(v) == if v == origin then 1.0 else if v !in g.nodes || Root(g, v) then 0.0 else Inflow(g, v, x)
  }

  /** Every iterate lies below every non-negative solution. */
  lemma {:induction false} RespBelowFixedPoint(g: Graph, origin: NodeID, x: NodeID -> real, rounds: nat, v: NodeID)
    requires g.EdgesJoinNodes() && FixedPoint(g, origin, x)
    requires forall u :: x(u) >= 0.0
    ensures Resp(g, origin, rounds, v) <= x(v)
  {
    assert FixedAt(g, origin, x, v);
    if v != origin && rounds > 0 && v in g.nodes && !Root(g, v) {
      forall u ensures Resp(g, origin, rounds - 1, u) <= x(u) { RespBelowFixedPoint(g, origin, x, rounds - 1, u); }
      InflowMonotone(g, v, Held(g, origin, rounds - 1), x);
    }
  }

  /** What round `rounds + 1` adds at v. */
  ghost function Delta(g: Graph, origin: NodeID, rounds: nat, v: NodeID): real {
    Resp(g, origin, rounds + 1, v) - Resp(g, origin, rounds, v)
  }

  /** Deltas propagate by the same inflow. */
  lemma DeltaFlows(g: Graph, origin: NodeID, rounds: nat, v: NodeID)
    requires g.EdgesJoinNodes()
    ensures Delta(g, origin, rounds + 1, v) ==
            if v == origin || v !in g.nodes || Root(g, v) then 0.0
            else Inflow(g, v, u => Delta(g, origin, rounds, u))
  {
    InflowAdds(g, v, Held(g, origin, rounds), u => Delta(g, origin, rounds, u), Held(g, origin, rounds + 1));
  }

  /** No node moves by more than `step` from this round to the next. */
  ghost predicate MovesAtMost(g: Graph, origin: NodeID, rounds: nat, step: real) {
    forall v :: v in g.nodes ==> Delta(g, origin, rounds, v) <= step
  }

  /** The largest change never grows from one round to the next. */
  lemma DeltasShrink(g: Graph, origin: NodeID, rounds: nat, next: nat, step: real)
    requires g.EdgesJoinNodes() && step >= 0.0 && next == rounds + 1
    requires MovesAtMost(g, origin, rounds, step)
    ensures MovesAtMost(g, origin, next, step)
  {
    forall v | v in g.nodes ensures Delta(g, origin, next, v) <= step {
      DeltaFlows(g, origin, rounds, v);
      if !Root(g, v) {
        InflowMonotone(g, v, u => Delta(g, origin, rounds, u), u => step);
        InflowOfConstant(g, v, step, u => step);
      }
    }
  }

  // ----- walks -----

  ghost predicate Walk(g: Graph, p: seq<NodeID>) {
    && p != []
    && (forall i :: 0 <= i < |p| ==> p[i] in g.nodes)
    && forall i :: 0 <= i < |p| - 1 ==> EdgeKey(p[i], p[i + 1]) in g.edges
  }

  /** A cycle: a walk of at least one edge that returns to its start. */
  ghost predicate Cycle(g: Graph, p: seq<NodeID>) {
    Walk(g, p) && |p| >= 2 && p[0] == p[|p| - 1]
  }

  ghost predicate Acyclic(g: Graph) {
    forall p :: !Cycle(g, p)
  }

  /** No walk has more than `longest` edges. */
  ghost predicate WalksWithin(g: Graph, longest: nat) {
    forall p :: Walk(g, p) ==> |p| <= longest + 1
  }

  lemma {:induction false} Pigeonhole<T>(p: seq<T>, s: set<T>) returns (i: nat, j: nat)
    requires forall k :: 0 <= k < |p| ==> p[k] in s
    requires |p| > |s|
    ensures i < j < |p| && p[i] == p[j]
  {
    var n := |p| - 1;
    if k :| 0 <= k < n && p[k] == p[n] {
      i, j := k, n;
    } else {
      i, j := Pigeonhole(p[..n], s - {p[n]});
    }
  }

  /** Without a cycle no walk visits a node twice, so the node count bounds the walks. */
  lemma AcyclicBoundsWalks(g: Graph)
    requires Acyclic(g)
    ensures forall n: nat :: n + 1 >= |g.nodes| ==> WalksWithin(g, n)
  {
    forall p | Walk(g, p) ensures |p| <= |g.nodes| {
      if |p| > |g.nodes| {
        var i, j := Pigeonhole(p, g.nodes.Keys);
        assert Cycle(g, p[i..j + 1]);
      }
    }
  }

  /** A change in a round needs a walk with as many edges. */
  lemma {:induction false} DeltaNeedsWalk(g: Graph, origin: NodeID, rounds: nat, v: NodeID) returns (p: seq<NodeID>)
    requires g.EdgesJoinNodes() && v in g.nodes
    requires Delta(g, origin, rounds, v) != 0.0
    ensures Walk(g, p) && |p| == rounds + 2 && p[rounds + 1] == v
  {
    if rounds == 0 {
      var u := InflowSource(g, v, u => Resp(g, origin, 0, u));
      p := [u, v];
    } else {
      DeltaFlows(g, origin, rounds - 1, v);
      var u := InflowSource(g, v, u => Delta(g, origin, rounds - 1, u));
      var q := DeltaNeedsWalk(g, origin, rounds - 1, u);
      p := q + [v];
    }
  }

  /** Once there were as many rounds as the longest walk has edges, the values are final. */
  lemma {:induction false} RespFinal(g: Graph, origin: NodeID, rounds: nat, more: nat, v: NodeID)
    requires g.EdgesJoinNodes() && WalksWithin(g, rounds) && rounds <= more && v in g.nodes
    ensures Resp(g, origin, more, v) == Resp(g, origin, rounds, v)
    decreases more
  {
    if rounds < more {
      RespFinal(g, origin, rounds, more - 1, v);
      if Delta(g, origin, more - 1, v) != 0.0 {
        var p := DeltaNeedsWalk(g, origin, more - 1, v);
      }
    }
  }

  lemma {:induction false} DifferenceNeedsWalk(g: Graph, origin: NodeID, x: NodeID -> real, y: NodeID -> real,
                                               n: nat, v: NodeID)
    returns (p: seq<NodeID>)
    requires g.EdgesJoinNodes() && FixedPoint(g, origin, x) && FixedPoint(g, origin, y)
    requires v in g.nodes && x(v) != y(v)
    ensures Walk(g, p) && |p| == n + 1 && p[n] == v
  {
    if n == 0 {
      p := [v];
    } else {
      assert FixedAt(g, origin, x, v) && FixedAt(g, origin, y, v);
      InflowAdds(g, v, y, u => x(u) - y(u), x);
      var u := InflowSource(g, v, u => x(u) - y(u));
      var q := DifferenceNeedsWalk(g, origin, x, y, n - 1, u);
      p := q + [v];
    }
  }

  /** On an acyclic graph the recurrence has one solution, and the iteration reaches it. */
  lemma UniqueFixedPoint(g: Graph, origin: NodeID, rounds: nat, x: NodeID -> real, v: NodeID)
    requires g.EdgesJoinNodes() && WalksWithin(g, rounds) && origin in g.nodes
    requires FixedPoint(g, origin, x)
    ensures x(v) == Resp(g, origin, rounds, v)
  {
    var y := Held(g, origin, rounds);
    HeldIsFixedPoint(g, origin, rounds);
    if x(v) != y(v) {
      assert FixedAt(g, origin, x, v) && FixedAt(g, origin, y, v);
      var p := DifferenceNeedsWalk(g, origin, x, y, rounds + 1, v);
    }
  }

  lemma HeldIsFixedPoint(g: Graph, origin: NodeID, rounds: nat)
    requires g.EdgesJoinNodes() && WalksWithin(g, rounds) && origin in g.nodes
    ensures FixedPoint(g, origin, Held(g, origin, rounds))
  {
    var y := Held(g, origin, rounds);
    assert Walk(g, [origin]);
    forall v ensures FixedAt(g, origin, y, v) {
      if v in g.nodes { RespFinal(g, origin, rounds, rounds + 1, v); }
    }
  }

  /** One round settles the iteration when no node moved by epsilon or more. */
  ghost predicate Settled(g: Graph, origin: NodeID, rounds: nat, epsilon: real) {
    forall v :: v in g.nodes ==> Delta(g, origin, rounds, v) < epsilon
  }

  lemma {:induction false} MovesStaySmall(g: Graph, origin: NodeID, rounds: nat, step: real, later: nat)
    requires g.EdgesJoinNodes() && step >= 0.0 && MovesAtMost(g, origin, rounds, step) && rounds <= later
    ensures MovesAtMost(g, origin, later, step)
    decreases later
  {
    if rounds < later {
      MovesStaySmall(g, origin, rounds, step, later - 1);
      DeltasShrink(g, origin, later - 1, later, step);
    }
  }

  lemma {:induction false} SettledTail(g: Graph, origin: NodeID, rounds: nat, step: real, n: nat, last: nat, v: NodeID)
    requires g.EdgesJoinNodes() && step >= 0.0 && v in g.nodes
    requires MovesAtMost(g, origin, rounds, step) && last == rounds + n
    ensures Resp(g, origin, last, v) <= Resp(g, origin, rounds, v) + Times(n, step)
    decreases n
  {
    if n > 0 {
      var before := last - 1;
      SettledTail(g, origin, rounds, step, n - 1, before, v);
      MovesStaySmall(g, origin, rounds, step, before);
      assert Delta(g, origin, before, v) <= step;
    }
  }

  /** Leaving the loop at an epsilon round loses at most `longest * epsilon` of the
      exact value, where no walk has more than `longest` edges. */
  lemma EpsilonExitIsClose(g: Graph, origin: NodeID, rounds: nat, epsilon: real, longest: nat, v: NodeID)
    requires g.EdgesJoinNodes() && WalksWithin(g, longest) && epsilon >= 0.0 && v in g.nodes
    requires rounds > 0 && Settled(g, origin, rounds - 1, epsilon)
    ensures Resp(g, origin, rounds, v) <= Resp(g, origin, longest, v)
            <= Resp(g, origin, rounds, v) + Times(longest, epsilon)
  {
    var last := rounds + longest;
    RespFinal(g, origin, longest, last, v);
    RespGrowsTo(g, origin, rounds, last, v);
    SettledLoss(g, origin, rounds, epsilon, longest, last, v);
  }

  lemma SettledLoss(g: Graph, origin: NodeID, rounds: nat, epsilon: real, n: nat, last: nat, v: NodeID)
    requires g.EdgesJoinNodes() && epsilon >= 0.0 && v in g.nodes
    requires rounds > 0 && Settled(g, origin, rounds - 1, epsilon) && last == rounds + n
    ensures Resp(g, origin, last, v) <= Resp(g, origin, rounds, v) + Times(n, epsilon)
  {
    MovesStaySmall(g, origin, rounds - 1, epsilon, rounds);
    SettledTail(g, origin, rounds, epsilon, n, last, v);
  }

  /** The loop of one origin left after `rounds` rounds: at the first round that
      settled, or at the cap. */
  ghost predicate LoopLeft(g: Graph, origin: NodeID, rounds: nat, cap: nat, epsilon: real) {
    && 1 <= rounds <= cap
    && (forall r: nat :: r < rounds - 1 ==> !Settled(g, origin, r, epsilon))
    && (rounds < cap ==> Settled(g, origin, rounds - 1, epsilon))
  }

  lemma NothingMovesAfterLongest(g: Graph, origin: NodeID, longest: nat, epsilon: real)
    requires g.EdgesJoinNodes() && WalksWithin(g, longest) && epsilon > 0.0
    ensures Settled(g, origin, longest, epsilon)
  {
    forall v | v in g.nodes ensures Delta(g, origin, longest, v) < epsilon {
      RespFinal(g, origin, longest, longest + 1, v);
    }
  }

  /** The loop leaves at the latest one round after as many as the longest walk has
      edges, the round in which nothing moves any more. */
  lemma LoopLeavesAfterLongest(g: Graph, origin: NodeID, rounds: nat, cap: nat, epsilon: real, longest: nat)
    requires g.EdgesJoinNodes() && WalksWithin(g, longest) && epsilon > 0.0
    requires LoopLeft(g, origin, rounds, cap, epsilon)
    ensures rounds <= longest + 1
  {
    NothingMovesAfterLongest(g, origin, longest, epsilon);
  }

  // ----- the recurrence in bytes -----

  /** What each edge carries of its source's holding. */
  ghost function HeldBytes(g: Graph, x: NodeID -> real): EdgeKey -> real {
    k => Part(g.Bytes(k), x(k.src))
  }

  ghost function Part(bytes: real, share: real): real {
    bytes * share
  }

  lemma ShareOfBytes(bytes: real, total: real, x: real)
    requires total != 0.0
    ensures Part(bytes, x) == total * (bytes / total * x)
  {
    assert total * (bytes / total) == bytes;
  }

  lemma EdgeHeldBytes(g: Graph, x: NodeID -> real, v: NodeID, k: EdgeKey, total: real)
    requires k in g.In(v) && !Root(g, v) && total == g.TotalBytes(g.In(v))
    ensures HeldBytes(g, x)(k) == total * Terms(g, x)(k)
  {
    ShareOfBytes(g.Bytes(k), total, x(k.src));
    assert Terms(g, x)(k) == g.Bytes(k) / total * x(k.src);
  }

  lemma InflowInBytes(g: Graph, x: NodeID -> real, v: NodeID, total: real)
    requires !Root(g, v) && total == g.TotalBytes(g.In(v))
    ensures total * Inflow(g, v, x) == Sum(g.In(v), HeldBytes(g, x))
  {
    forall k | k in g.In(v) ensures HeldBytes(g, x)(k) == total * Terms(g, x)(k) { EdgeHeldBytes(g, x, v, k, total); }
    Scaled(g.In(v), total, Terms(g, x), HeldBytes(g, x));
  }

  /** What a node holds of its inbound bytes after a round is what its sources held, edge
      by edge, before it. */
  lemma HeldBytesFlow(g: Graph, origin: NodeID, rounds: nat, v: NodeID, total: real)
    requires v in g.nodes && v != origin && !Root(g, v) && total == g.TotalBytes(g.In(v))
    ensures total * Resp(g, origin, rounds + 1, v) == Sum(g.In(v), HeldBytes(g, Held(g, origin, rounds)))
  {
    InflowInBytes(g, Held(g, origin, rounds), v, total);
    assert Resp(g, origin, rounds + 1, v) == Inflow(g, v, Held(g, origin, rounds));
  }
}
