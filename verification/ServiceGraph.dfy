/** The in-memory service graph: nodes and edges are shared mutable records,
    reachable through two maps and two families of adjacency lists. */
module ServiceGraph {
  import opened Sums
  import opened Rollup
  import opened Responsibility
  import opened Charging
  import opened Records
  import opened CycleSearch

  function Registered(ns: map<NodeID, NodeTotals>, id: NodeID): map<NodeID, NodeTotals> {
    if id in ns then ns else ns[id := EMPTY_NODE]
  }

  /** Registering the two end nodes before counting does not change the outcome. */
  lemma EmptyNodesAddNothing(ns: map<NodeID, NodeTotals>, r: EdgeRow)
    ensures var n2 := Registered(Registered(ns, r.key.src), r.key.dst);
            var n3 := n2[r.key.src := Sent(n2[r.key.src], r)];
            n3[r.key.dst := Received(n3[r.key.dst], r)] == RowAtNodes(ns, r)
  {
  }

  lemma EmptyEdgeAddsNothing(es: map<EdgeKey, EdgeTotals>, r: EdgeRow)
    ensures var e1 := if r.key in es then es else es[r.key := EMPTY_EDGE];
            e1[r.key := Carried(e1[r.key], r)] == RowOnEdges(es, r)
  {
  }

  lemma OutListsListEdges(outs: map<NodeID, seq<Edge>>, edges: map<EdgeKey, Edge>, g: Graph)
    requires OutListed(outs, edges) && forall k :: k in g.edges <==> k in edges
    ensures ListsEdges(g, outs)
  {
    forall k | k in g.edges ensures exists e :: e in EdgesAt(outs, k.src) && e.key == k {
      assert Lists(EdgesAt(outs, k.src), edges, OutKeys(edges, k.src)) && k in OutKeys(edges, k.src);
    }
    forall n, e | e in EdgesAt(outs, n) ensures e.key in g.edges && e.key.src == n {
      assert Lists(EdgesAt(outs, n), edges, OutKeys(edges, n));
    }
  }

  /** A missing entry stands for zero. */
  function Lookup(m: map<NodeID, real>, v: NodeID): real {
    if v in m then m[v] else 0.0
  }

  /** The map holds the responsibilities of `origin` after some rounds. */
  ghost predicate Holds(m: map<NodeID, real>, x: NodeID -> real) {
    forall v :: Lookup(m, v) == x(v)
  }

  function BytesAt(m: map<NodeID, nat>, v: NodeID): nat {
    if v in m then m[v] else 0
  }

  /** The map holds every node's inbound bytes. */
  ghost predicate HoldsInBytes(m: map<NodeID, nat>, g: Graph) {
    forall v :: BytesAt(m, v) as real == g.TotalBytes(g.In(v))
  }

  function Abs(x: real): real {
    if x < 0.0 then -x else x
  }

  /** `top` is the largest change of the round, over these nodes. */
  ghost predicate LargestDelta(g: Graph, origin: NodeID, rounds: nat, vs: set<NodeID>, top: real) {
    && top >= 0.0
    && (forall v :: v in vs ==> Delta(g, origin, rounds, v) <= top)
    && (top == 0.0 || exists v :: v in vs && Delta(g, origin, rounds, v) == top)
  }

  lemma LargestDeltaWith(g: Graph, origin: NodeID, rounds: nat, vs: set<NodeID>, top: real, v: NodeID, more: real)
    requires LargestDelta(g, origin, rounds, vs, top)
    requires var d := Delta(g, origin, rounds, v); more == if d > top then d else top
    ensures LargestDelta(g, origin, rounds, vs + {v}, more)
  {
    if more != top { assert Delta(g, origin, rounds, v) == more; }
  }

  /** Node v has been given its next responsibility; the other nodes are as before. */
  ghost predicate Given(next: map<NodeID, real>, x: NodeID -> real, origin: NodeID, vs: set<NodeID>) {
    forall v :: Lookup(next, v) == if v in vs then x(v) else if v == origin then 1.0 else 0.0
  }

  /** How far a round has come: the nodes seen so far have their entries in
      `next`, and `top` is the largest change among them. */
  ghost predicate SeenInRound(g: Graph, origin: NodeID, before: nat, seen: set<NodeID>, next: map<NodeID,
                              real>, top: real) {
    && Given(next, Held(g, origin, before + 1), origin, seen)
    && LargestDelta(g, origin, before, seen, top)
  }

  /** SeenInRound as a function value, so that the loop does not unfold it. */
  ghost function InRound(g: Graph, origin: NodeID, before: nat): (set<NodeID>, map<NodeID, real>, real) -> bool {
    (seen, next, top) => SeenInRound(g, origin, before, seen, next, top)
  }

  lemma OneLess<T>(all: set<T>, todo: set<T>, x: T)
    requires x in todo && todo <= all
    ensures all - todo + {x} == all - (todo - {x})
  {
  }

  lemma GiveNode(next: map<NodeID, real>, x: NodeID -> real, origin: NodeID, vs: set<NodeID>, v: NodeID)
    requires Given(next, x, origin, vs) && x(origin) == 1.0 && v !in vs
    ensures v == origin ==> Given(next, x, origin, vs + {v})
    ensures v != origin ==> Given(if x(v) != 0.0 then next[v := x(v)] else next, x, origin, vs + {v})
  {
  }

  lemma GivenAll(next: map<NodeID, real>, g: Graph, origin: NodeID, rounds: nat)
    requires Given(next, Held(g, origin, rounds), origin, g.nodes.Keys) && origin in g.nodes
    ensures Holds(next, Held(g, origin, rounds))
  {
    var x := Held(g, origin, rounds);
    forall v ensures Lookup(next, v) == x(v) {
      assert x(v) == Resp(g, origin, rounds, v);
    }
  }

  lemma RoundStarts(g: Graph, origin: NodeID, before: nat, none: set<NodeID>)
    requires none == {}
    ensures InRound(g, origin, before)(none, map[origin := 1.0], 0.0)
  {
    assert SeenInRound(g, origin, before, {}, map[origin := 1.0], 0.0);
  }

  lemma RoundEnds(g: Graph, origin: NodeID, before: nat, next: map<NodeID, real>, top: real)
    requires InRound(g, origin, before)(g.nodes.Keys, next, top) && origin in g.nodes
    ensures Holds(next, Held(g, origin, before + 1)) && LargestDelta(g, origin, before, g.nodes.Keys, top)
  {
    assert SeenInRound(g, origin, before, g.nodes.Keys, next, top);
    GivenAll(next, g, origin, before + 1);
  }

  lemma PassedValue(g: Graph, x: NodeID -> real, k: EdgeKey, bytes: nat, ib: nat)
    requires k in g.edges && g.edges[k].bytes == bytes && ib > 0
    requires g.TotalBytes(g.In(k.dst)) == ib as real
    ensures Terms(g, x)(k) == if bytes == 0 then 0.0 else (bytes as real / ib as real) * x(k.src)
  {
    assert Terms(g, x)(k) == Passed(g, x, k);
    assert g.Bytes(k) == bytes as real;
  }

  lemma HoldsAtStart(g: Graph, origin: NodeID)
    ensures Holds(map[origin := 1.0], Held(g, origin, 0))
  {
    forall v ensures Lookup(map[origin := 1.0], v) == Held(g, origin, 0)(v) {
      assert Held(g, origin, 0)(v) == Resp(g, origin, 0, v);
    }
  }

  /** None of the first `rounds` rounds settled. */
  ghost predicate NoneSettled(g: Graph, origin: NodeID, epsilon: real, rounds: nat) {
    forall r: nat :: r < rounds ==> !Settled(g, origin, r, epsilon)
  }

  /** NoneSettled as a function value, so that the loop does not unfold it. */
  ghost function Restless(g: Graph, origin: NodeID, epsilon: real): nat -> bool {
    (rounds: nat) => NoneSettled(g, origin, epsilon, rounds)
  }

  lemma RestlessAtStart(g: Graph, origin: NodeID, epsilon: real)
    ensures Restless(g, origin, epsilon)(0)
  {
    assert NoneSettled(g, origin, epsilon, 0);
  }

  /** A round with a large change goes on; one without leaves the loop. */
  lemma RoundDecides(g: Graph, origin: NodeID, epsilon: real, before: nat, after: nat, top: real, cap: nat)
    requires Restless(g, origin, epsilon)(before) && after == before + 1 <= cap && epsilon > 0.0
    requires LargestDelta(g, origin, before, g.nodes.Keys, top)
    ensures top >= epsilon ==> Restless(g, origin, epsilon)(after)
    ensures top < epsilon || after == cap ==> LoopLeft(g, origin, after, cap, epsilon)
  {
    assert NoneSettled(g, origin, epsilon, before);
    SettledByLargest(g, origin, before, top, epsilon);
    if top >= epsilon { assert NoneSettled(g, origin, epsilon, after); }
  }

  lemma SettledByLargest(g: Graph, origin: NodeID, before: nat, top: real, epsilon: real)
    requires LargestDelta(g, origin, before, g.nodes.Keys, top) && epsilon > 0.0
    ensures top < epsilon <==> Settled(g, origin, before, epsilon)
  {
  }

  // ----- charging one origin -----

  /** The result for one origin, before rounding; the total is direct plus induced. */
  datatype Attribution = Attribution(origin: NodeID, direct: real, induced: real, cycles: bool)

  const DEFAULT_ITERATIONS := 100
  const DEFAULT_EPSILON := 0.000000001

  /** What edge k is charged when it leaves the origin. */
  ghost function DirectCharge(g: Graph, origin: NodeID, x: NodeID -> real): EdgeKey -> real {
    (k: EdgeKey) => if k.src == origin then ChargeFor(g.CrossZones(), x, k) else 0.0
  }

  /** The edges seen so far have been charged. */
  ghost predicate ChargedEdges(g: Graph, origin: NodeID, x: NodeID -> real, seen: set<EdgeKey>, direct: real,
                               induced: real) {
    && direct == Sum(seen, DirectCharge(g, origin, x))
    && direct + induced == Sum(seen, Charge(g.CrossZones(), x))
  }

  /** ChargedEdges as a function value, so that the loop does not unfold it. */
  ghost function Charged(g: Graph, origin: NodeID, x: NodeID -> real): (set<EdgeKey>, real, real) -> bool {
    (seen, direct, induced) => ChargedEdges(g, origin, x, seen, direct, induced)
  }

  lemma ChargeStarts(g: Graph, origin: NodeID, x: NodeID -> real, none: set<EdgeKey>)
    requires none == {}
    ensures Charged(g, origin, x)(none, 0.0, 0.0)
  {
    Empty(DirectCharge(g, origin, x));
    Empty(Charge(g.CrossZones(), x));
    assert ChargedEdges(g, origin, x, {}, 0.0, 0.0);
  }

  lemma ChargeOne(g: Graph, origin: NodeID, x: NodeID -> real, seen: set<EdgeKey>, direct: real, induced: real,
                  k: EdgeKey, attr: real)
    requires Charged(g, origin, x)(seen, direct, induced) && k !in seen
    requires attr == ChargeFor(g.CrossZones(), x, k)
    ensures Charged(g, origin, x)(seen + {k}, direct + (if k.src == origin then attr else 0.0),
                                  induced + (if k.src == origin then 0.0 else attr))
  {
    assert ChargedEdges(g, origin, x, seen, direct, induced);
    Pick(seen + {k}, k, DirectCharge(g, origin, x));
    Pick(seen + {k}, k, Charge(g.CrossZones(), x));
    assert seen + {k} - {k} == seen;
    assert ChargedEdges(g, origin, x, seen + {k}, direct + (if k.src == origin then attr else 0.0),
                        induced + (if k.src == origin then 0.0 else attr));
  }

  lemma ChargeEnds(g: Graph, origin: NodeID, x: NodeID -> real, direct: real, induced: real)
    requires Charged(g, origin, x)(g.edges.Keys, direct, induced) && x(origin) == 1.0
    ensures direct == g.TotalCrossZone(g.Out(origin))
    ensures direct + induced == Attributed(g, g.CrossZones(), x)
  {
    assert ChargedEdges(g, origin, x, g.edges.Keys, direct, induced);
    Restrict(g.edges.Keys, g.Out(origin), DirectCharge(g, origin, x));
    forall k | k in g.Out(origin) ensures DirectCharge(g, origin, x)(k) == g.CrossZones()(k) {
      assert ChargeFor(g.CrossZones(), x, k) == g.CrossZones()(k);
    }
    Congruence(g.Out(origin), DirectCharge(g, origin, x), g.CrossZones());
  }

  /** With the defaults, a graph whose walks have at most 100 edges is attributed to within
      a billionth of each node per edge of a walk. */
  lemma DefaultsAreClose(g: Graph, origin: NodeID, rounds: nat, longest: nat, part: real, v: NodeID)
    requires part == longest as real / 1000000000.0
    requires g.EdgesJoinNodes() && WalksWithin(g, longest) && longest <= 100 && v in g.nodes
    requires LoopLeft(g, origin, rounds, DEFAULT_ITERATIONS, DEFAULT_EPSILON)
    ensures Resp(g, origin, rounds, v) <= Resp(g, origin, longest, v)
            <= Resp(g, origin, rounds, v) + part
  {
    if rounds >= longest {
      RespFinal(g, origin, longest, rounds, v);
    } else {
      EpsilonExitIsClose(g, origin, rounds, DEFAULT_EPSILON, longest, v);
      TimesIsProduct(longest, DEFAULT_EPSILON);
    }
  }

  /** And so is every dollar: the charge misses the exact one by at most that part of each
      edge's zone-crossing cost. */
  lemma DefaultDollarsAreClose(g: Graph, origin: NodeID, rounds: nat, longest: nat, part: real)
    requires part == longest as real / 1000000000.0
    requires g.EdgesJoinNodes() && WalksWithin(g, longest) && longest <= 100
    requires LoopLeft(g, origin, rounds, DEFAULT_ITERATIONS, DEFAULT_EPSILON)
    requires forall k :: k in g.edges ==> g.CrossZones()(k) >= 0.0
    ensures var held, exact := Held(g, origin, rounds), Held(g, origin, longest);
            Attributed(g, g.CrossZones(), held) <= Attributed(g, g.CrossZones(), exact)
            <= Sum(g.edges.Keys, PartOf(g.CrossZones(), part)) + Attributed(g, g.CrossZones(), held)
  {
    forall v | v in g.nodes
      ensures Held(g, origin, rounds)(v) <= Held(g, origin, longest)(v) <= Held(g, origin, rounds)(v) + part
    {
      DefaultsAreClose(g, origin, rounds, longest, part, v);
    }
    ChargesBetween(g, g.CrossZones(), Held(g, origin, rounds), Held(g, origin, longest), part);
  }

  /** Shares that differ by at most a part are charged alike up to that part of the cost. */
  lemma ChargesBetween(g: Graph, cost: EdgeKey -> real, low: NodeID -> real, high: NodeID -> real, part: real)
    requires g.EdgesJoinNodes() && forall k :: k in g.edges ==> cost(k) >= 0.0
    requires forall v :: v in g.nodes ==> low(v) <= high(v) <= low(v) + part
    ensures Attributed(g, cost, low) <= Attributed(g, cost, high)
            <= Sum(g.edges.Keys, PartOf(cost, part)) + Attributed(g, cost, low)
  {
    forall k | k in g.edges.Keys ensures Charge(cost, low)(k) <= Charge(cost, high)(k) <= Most(cost, low, part)(k) {
      ChargeBetween(cost, low, high, part, k);
    }
    Monotone(g.edges.Keys, Charge(cost, low), Charge(cost, high));
    Monotone(g.edges.Keys, Charge(cost, high), Most(cost, low, part));
    SumOfMost(g.edges.Keys, cost, low, part);
  }

  lemma SumOfMost(s: set<EdgeKey>, cost: EdgeKey -> real, held: NodeID -> real, part: real)
    ensures Sum(s, Most(cost, held, part)) == Sum(s, PartOf(cost, part)) + Sum(s, Charge(cost, held))
  {
    Linear(s, 1.0, PartOf(cost, part), Charge(cost, held), Most(cost, held, part));
  }

  ghost function Most(cost: EdgeKey -> real, held: NodeID -> real, part: real): EdgeKey -> real {
    k => PartOf(cost, part)(k) + ChargeFor(cost, held, k)
  }

  lemma ChargeBetween(cost: EdgeKey -> real, low: NodeID -> real, high: NodeID -> real, part: real, k: EdgeKey)
    requires cost(k) >= 0.0 && low(k.src) <= high(k.src) <= low(k.src) + part
    ensures Charge(cost, low)(k) <= Charge(cost, high)(k) <= Most(cost, low, part)(k)
  {
    ProductBetween(cost(k), low(k.src), high(k.src), part);
    assert PartOf(cost, part)(k) == cost(k) * part;
    assert Charge(cost, low)(k) == ChargeFor(cost, low, k) == cost(k) * low(k.src);
    assert Charge(cost, high)(k) == ChargeFor(cost, high, k) == cost(k) * high(k.src);
  }

  lemma ProductBetween(c: real, low: real, high: real, part: real)
    requires c >= 0.0 && low <= high <= low + part
    ensures c * low <= c * high <= c * part + c * low
  {
    ScaleUp(c, low, high);
    ScaleUp(c, high, low + part);
  }

  // ----- ranking nodes -----

  /** A node with zone-crossing cost on its edges, before rounding. */
  datatype Chokepoint = Chokepoint(node: NodeID, through: real, inDegree: nat, outDegree: nat, score: real)

  /** Cost weighted by fan-in plus fan-out. */
  function Score(through: real, degree: nat): real {
    through * degree as real
  }

  ghost predicate Describes(c: Chokepoint, g: Graph) {
    && c.node in g.nodes
    && c.through == CrossZoneThrough(g, c.node) != 0.0
    && c.inDegree == |g.In(c.node)| && c.outDegree == |g.Out(c.node)|
    && c.score == Score(c.through, c.inDegree + c.outDegree)
  }

  /** A point's score is its zone-crossing cost once per edge at its node: the same cost
      ranks higher the more services meet there. */
  lemma ScoreCountsEdges(c: Chokepoint, g: Graph)
    requires Describes(c, g)
    ensures c.score == Sum(g.In(c.node), (k: EdgeKey) => CrossZoneThrough(g, c.node)) +
                       Sum(g.Out(c.node), (k: EdgeKey) => CrossZoneThrough(g, c.node))
  {
    ConstantSum(g.In(c.node), c.through, (k: EdgeKey) => CrossZoneThrough(g, c.node));
    ConstantSum(g.Out(c.node), c.through, (k: EdgeKey) => CrossZoneThrough(g, c.node));
  }

  lemma {:induction false} ConstantSum(s: set<EdgeKey>, x: real, f: EdgeKey -> real)
    requires forall k :: k in s ==> f(k) == x
    ensures Sum(s, f) == x * |s| as real
  {
    if s == {} {
      Empty(f);
    } else {
      var k :| k in s;
      Pick(s, k, f);
      ConstantSum(s - {k}, x, f);
    }
  }

  ghost function SumThrough(points: seq<Chokepoint>): real {
    if points == [] then 0.0 else SumThrough(points[..|points| - 1]) + points[|points| - 1].through
  }

  ghost predicate PointsOf(g: Graph, points: seq<Chokepoint>, seen: set<NodeID>) {
    && (forall i :: 0 <= i < |points| ==> points[i].node in seen && Describes(points[i], g))
    && (forall i, j :: 0 <= i < j < |points| ==> points[i].node != points[j].node)
  }

  lemma PointsGrow(g: Graph, points: seq<Chokepoint>, seen: set<NodeID>, c: Chokepoint)
    requires PointsOf(g, points, seen) && c.node !in seen && Describes(c, g)
    ensures PointsOf(g, points + [c], seen + {c.node})
  {
  }

  /** Every node of the set with cost `f` has a point. */
  ghost predicate Finds(points: seq<Chokepoint>, seen: set<NodeID>, f: NodeID -> real) {
    forall v :: v in seen && f(v) != 0.0 ==> exists i :: 0 <= i < |points| && points[i].node == v
  }

  lemma SumThroughStep(points: seq<Chokepoint>, c: Chokepoint)
    ensures SumThrough(points + [c]) == SumThrough(points) + c.through
  {
    assert (points + [c])[..|points|] == points;
  }

  /** The points describe exactly the nodes seen so far that carry zone-crossing cost, each once. */
  ghost predicate RankedNodes(g: Graph, points: seq<Chokepoint>, seen: set<NodeID>) {
    && PointsOf(g, points, seen)
    && Finds(points, seen, v => CrossZoneThrough(g, v))
    && SumThrough(points) == Sum(seen, v => CrossZoneThrough(g, v))
  }

  /** RankedNodes as a function value, so that the loop does not unfold it. */
  ghost function Ranked(g: Graph): (seq<Chokepoint>, set<NodeID>) -> bool {
    (points, seen) => RankedNodes(g, points, seen)
  }

  lemma RankStarts(g: Graph, none: set<NodeID>)
    requires none == {}
    ensures Ranked(g)([], none)
  {
    Empty((v: NodeID) => CrossZoneThrough(g, v));
    assert RankedNodes(g, [], {});
  }

  lemma RankAdd(g: Graph, points: seq<Chokepoint>, seen: set<NodeID>, c: Chokepoint)
    requires Ranked(g)(points, seen) && c.node !in seen && Describes(c, g)
    ensures Ranked(g)(points + [c], seen + {c.node})
  {
    assert RankedNodes(g, points, seen);
    RankSum(g, seen, c.node, v => CrossZoneThrough(g, v));
    SumThroughStep(points, c);
    RankFinds(points, c, seen, v => CrossZoneThrough(g, v));
    PointsGrow(g, points, seen, c);
    assert RankedNodes(g, points + [c], seen + {c.node});
  }

  lemma RankFinds(points: seq<Chokepoint>, c: Chokepoint, seen: set<NodeID>, f: NodeID -> real)
    requires Finds(points, seen, f)
    ensures Finds(points + [c], seen + {c.node}, f)
  {
    var more := points + [c];
    forall v | v in seen + {c.node} && f(v) != 0.0 ensures exists i :: 0 <= i < |more| && more[i].node == v {
      if v == c.node {
        assert more[|points|].node == v;
      } else {
        var i :| 0 <= i < |points| && points[i].node == v;
        assert more[i].node == v;
      }
    }
  }

  lemma RankSkip(g: Graph, points: seq<Chokepoint>, seen: set<NodeID>, v: NodeID)
    requires Ranked(g)(points, seen) && v !in seen && CrossZoneThrough(g, v) == 0.0
    ensures Ranked(g)(points, seen + {v})
  {
    assert RankedNodes(g, points, seen);
    RankSum(g, seen, v, u => CrossZoneThrough(g, u));
    assert RankedNodes(g, points, seen + {v});
  }

  lemma RankEnds(g: Graph, points: seq<Chokepoint>)
    requires Ranked(g)(points, g.nodes.Keys) && g.EdgesJoinNodes()
    ensures RankedNodes(g, points, g.nodes.Keys)
    ensures SumThrough(points) == 2.0 * g.TotalCrossZone(g.edges.Keys)
  {
    assert RankedNodes(g, points, g.nodes.Keys);
    ChokepointsCountEdgesTwice(g);
  }

  lemma RankSum(g: Graph, seen: set<NodeID>, v: NodeID, f: NodeID -> real)
    requires v !in seen
    ensures Sum(seen + {v}, f) == Sum(seen, f) + f(v)
  {
    Pick(seen + {v}, v, f);
    assert seen + {v} - {v} == seen;
  }

  class ServiceGraph {
    var nodes: map<NodeID, Node>
    var edges: map<EdgeKey, Edge>
    var outs: map<NodeID, seq<Edge>>
    var ins: map<NodeID, seq<Edge>>
    /** The totals of the nodes and edges as values; Valid ties them to the records. */
    ghost var nodeTotals: map<NodeID, NodeTotals>
    ghost var edgeTotals: map<EdgeKey, EdgeTotals>

    ghost predicate ValidNodes()
      reads `nodes, `nodeTotals, nodes.Values
    {
      && (forall id :: id in nodeTotals <==> id in nodes)
      && (forall id :: id in nodes ==> nodes[id].id == id && nodes[id].Totals() == nodeTotals[id])
    }

    ghost predicate ValidEdges()
      reads `edges, `edgeTotals, edges.Values
    {
      && (forall k :: k in edgeTotals <==> k in edges)
      && (forall k :: k in edges ==> edges[k].key == k && edges[k].Totals() == edgeTotals[k])
    }

    ghost predicate ValidLists()
      reads this
    {
      && OutListed(outs, edges)
      && InListed(ins, edges)
      && forall k :: k in edges ==> k.src in nodes && k.dst in nodes
    }

    ghost predicate Valid()
      reads this, nodes.Values, edges.Values
    {
      ValidNodes() && ValidEdges() && ValidLists()
    }

    /** The graph as a value. */
    ghost function View(): Graph
      reads this
    {
      Graph(nodeTotals, edgeTotals)
    }

    constructor ()
      ensures Valid() && fresh(nodes.Values) && fresh(edges.Values) && View() == EMPTY_GRAPH
    {
      nodes, edges, outs, ins := map[], map[], map[], map[];
      nodeTotals, edgeTotals := map[], map[];
    }

    /** The nodes' side of the state is as before. */
    twostate predicate NodesKept()
      reads this
    {
      nodes == old(nodes) && nodeTotals == old(nodeTotals)
    }

    /** No node record is replaced, and those added are new. */
    twostate predicate NodesGrow()
      reads this
    {
      && (forall id :: id in old(nodes) ==> id in nodes && nodes[id] == old(nodes)[id])
      && forall id :: id in nodes && id !in old(nodes) ==> fresh(nodes[id])
    }

    twostate predicate EdgesGrow()
      reads this
    {
      && (forall k :: k in old(edges) ==> k in edges && edges[k] == old(edges)[k])
      && forall k :: k in edges && k !in old(edges) ==> fresh(edges[k])
    }

    twostate predicate EdgesKept()
      reads this
    {
      edges == old(edges) && edgeTotals == old(edgeTotals) && outs == old(outs) && ins == old(ins)
    }

    /** The node for an id, created empty on first sight. */
    method GetNode(id: NodeID) returns (n: Node)
      requires ValidNodes()
      modifies `nodes, `nodeTotals
      ensures ValidNodes() && NodesGrow()
      ensures id in nodes && nodes[id] == n
      ensures nodeTotals == Registered(old(nodeTotals), id)
    {
      if id in nodes {
        n := nodes[id];
      } else {
        n := new Node(id);
        nodes := nodes[id := n];
        nodeTotals := nodeTotals[id := EMPTY_NODE];
      }
    }

    /** A new empty edge, listed at both its ends. */
    method AddEdge(k: EdgeKey) returns (e: Edge)
      requires ValidEdges() && ValidLists() && k.src in nodes && k.dst in nodes && k !in edges
      modifies `edges, `outs, `ins, `edgeTotals
      ensures ValidEdges() && ValidLists() && edges == old(edges)[k := e] && fresh(e)
      ensures edgeTotals == old(edgeTotals)[k := EMPTY_EDGE]
    {
      e := new Edge(k);
      OutListedKeeps(outs, edges, e);
      InListedKeeps(ins, edges, e);
      edges := edges[k := e];
      outs := outs[k.src := EdgesAt(outs, k.src) + [e]];
      ins := ins[k.dst := EdgesAt(ins, k.dst) + [e]];
      edgeTotals := edgeTotals[k := EMPTY_EDGE];
    }

    /** The edge for a key, created on first sight. */
    method GetEdge(k: EdgeKey) returns (e: Edge)
      requires ValidNodes() && ValidEdges() && ValidLists() && k.src in nodes && k.dst in nodes
      modifies `edges, `outs, `ins, `edgeTotals
      ensures ValidNodes() && ValidEdges() && ValidLists() && NodesKept() && EdgesGrow()
      ensures k in edges && edges[k] == e && e.key == k && (fresh(e) || (k in old(edges) && old(edges)[k] == e))
      ensures edgeTotals == if k in old(edges) then old(edgeTotals) else old(edgeTotals)[k := EMPTY_EDGE]
    {
      if k in edges {
        e := edges[k];
      } else {
        e := AddEdge(k);
      }
    }

    method SendFrom(n: Node, r: EdgeRow)
      requires ValidNodes() && ValidEdges() && n.id in nodes && nodes[n.id] == n
      modifies n, `nodeTotals
      ensures ValidNodes() && ValidEdges() && EdgesKept() && nodes == old(nodes)
      ensures nodeTotals == old(nodeTotals)[n.id := Sent(old(nodeTotals)[n.id], r)]
    {
      n.Send(r);
      nodeTotals := nodeTotals[n.id := n.Totals()];
    }

    method ReceiveAt(n: Node, r: EdgeRow)
      requires ValidNodes() && ValidEdges() && n.id in nodes && nodes[n.id] == n
      modifies n, `nodeTotals
      ensures ValidNodes() && ValidEdges() && EdgesKept() && nodes == old(nodes)
      ensures nodeTotals == old(nodeTotals)[n.id := Received(old(nodeTotals)[n.id], r)]
    {
      n.Receive(r);
      nodeTotals := nodeTotals[n.id := n.Totals()];
    }

    method CarryOn(e: Edge, r: EdgeRow)
      requires ValidNodes() && ValidEdges() && e.key in edges && edges[e.key] == e
      modifies e, `edgeTotals
      ensures ValidNodes() && ValidEdges() && NodesKept() && edges == old(edges) && outs == old(outs) && ins == old(ins)
      ensures edgeTotals == old(edgeTotals)[e.key := Carried(old(edgeTotals)[e.key], r)]
    {
      e.Carry(r);
      edgeTotals := edgeTotals[e.key := e.Totals()];
    }

    ghost predicate IsNode(n: Node, id: NodeID)
      reads this
    {
      id in nodes && nodes[id] == n && n.id == id
    }

    /** Both end nodes of an edge, each new or already there. */
    method GetEnds(k: EdgeKey) returns (src: Node, dst: Node)
      requires ValidNodes()
      modifies `nodes, `nodeTotals
      ensures ValidNodes() && NodesGrow() && old(nodes.Keys) <= nodes.Keys
      ensures IsNode(src, k.src) && (fresh(src) || src in old(nodes).Values)
      ensures IsNode(dst, k.dst) && (fresh(dst) || dst in old(nodes).Values)
      ensures nodeTotals == Registered(Registered(old(nodeTotals), k.src), k.dst)
    {
      src := GetNode(k.src);
      dst := GetNode(k.dst);
    }

    /** The row counted at both its end nodes, which may be the same one. */
    method CountAtEnds(src: Node, dst: Node, r: EdgeRow)
      requires ValidNodes() && ValidEdges() && IsNode(src, r.key.src) && IsNode(dst, r.key.dst)
      modifies src, dst, `nodeTotals
      ensures ValidNodes() && ValidEdges() && EdgesKept() && nodes == old(nodes)
      ensures var sent := old(nodeTotals)[r.key.src := Sent(old(nodeTotals)[r.key.src], r)];
              nodeTotals == sent[r.key.dst := Received(sent[r.key.dst], r)]
    {
      SendFrom(src, r);
      ReceiveAt(dst, r);
    }

    method CountOnNodes(r: EdgeRow)
      requires ValidNodes() && ValidEdges()
      modifies `nodes, `nodeTotals, nodes.Values
      ensures ValidNodes() && ValidEdges() && EdgesKept() && NodesGrow()
      ensures old(nodes.Keys) <= nodes.Keys && r.key.src in nodes && r.key.dst in nodes
      ensures nodeTotals == RowAtNodes(old(nodeTotals), r)
    {
      EmptyNodesAddNothing(nodeTotals, r);
      var src, dst := GetEnds(r.key);
      CountAtEnds(src, dst, r);
    }

    /** The row counted on its edge. */
    method CountOnEdge(r: EdgeRow)
      requires ValidNodes() && ValidEdges() && ValidLists() && r.key.src in nodes && r.key.dst in nodes
      modifies `edges, `outs, `ins, `edgeTotals, edges.Values
      ensures ValidNodes() && ValidEdges() && ValidLists() && NodesKept() && EdgesGrow()
      ensures edgeTotals == RowOnEdges(old(edgeTotals), r)
    {
      EmptyEdgeAddsNothing(edgeTotals, r);
      var e := GetEdge(r.key);
      CarryOn(e, r);
    }

    /** Accumulates one observation: both end nodes, the edge, and its per-type slice. */
    method AddEdgeRow(r: EdgeRow)
      requires Valid()
      modifies this, nodes.Values, edges.Values
      ensures Valid() && NodesGrow() && EdgesGrow()
      ensures View() == AddRow(old(View()), r)
    {
      CountOnNodes(r);
      assert ValidLists() && edges == old(edges) && edgeTotals == old(edgeTotals);
      CountOnEdge(r);
      assert nodeTotals == RowAtNodes(old(nodeTotals), r);
    }

    /** Whether the dependency graph has a cycle. */
    method HasCycle() returns (found: bool)
      requires Valid()
      ensures found <==> !Acyclic(View())
    {
      OutListsListEdges(outs, edges, View());
      var search := new CycleSearch(outs, View());
      found := search.Search(nodes.Keys);
    }

    lemma SumInto(v: NodeID, f: EdgeKey -> real)
      requires Valid()
      ensures SumList(EdgesAt(ins, v), f) == Sum(View().In(v), f)
      ensures |EdgesAt(ins, v)| == |View().In(v)|
    {
      assert View().In(v) == InKeys(edges, v);
      assert Lists(EdgesAt(ins, v), edges, InKeys(edges, v));
      ListedSum(EdgesAt(ins, v), edges, InKeys(edges, v), f);
    }

    lemma SumFrom(v: NodeID, f: EdgeKey -> real)
      requires Valid()
      ensures SumList(EdgesAt(outs, v), f) == Sum(View().Out(v), f)
      ensures |EdgesAt(outs, v)| == |View().Out(v)|
    {
      assert View().Out(v) == OutKeys(edges, v);
      assert Lists(EdgesAt(outs, v), edges, OutKeys(edges, v));
      ListedSum(EdgesAt(outs, v), edges, OutKeys(edges, v), f);
    }

    /** The listed record is the edge of the graph. */
    lemma EdgeInto(v: NodeID, e: Edge)
      requires Valid() && e in EdgesAt(ins, v)
      ensures e.key.dst == v && e.key in View().edges && View().edges[e.key] == e.Totals()
    {
      assert Lists(EdgesAt(ins, v), edges, InKeys(edges, v));
    }

    lemma EdgeFrom(v: NodeID, e: Edge)
      requires Valid() && e in EdgesAt(outs, v)
      ensures e.key.src == v && e.key in View().edges && View().edges[e.key] == e.Totals()
    {
      assert Lists(EdgesAt(outs, v), edges, OutKeys(edges, v));
    }

    /** What one inbound edge passes on; an idle edge passes nothing. */
    method PassOn(e: Edge, ib: nat, resp: map<NodeID, real>, ghost g: Graph, ghost x: NodeID -> real) returns (p: real)
      requires e.key in g.edges && g.edges[e.key] == e.Totals()
      requires ib > 0 && g.TotalBytes(g.In(e.key.dst)) == ib as real && Holds(resp, x)
      ensures p == Terms(g, x)(e.key)
    {
      PassedValue(g, x, e.key, e.bytes, ib);
      if e.bytes == 0 {
        p := 0.0;
      } else {
        p := (e.bytes as real / ib as real) * Lookup(resp, e.key.src);
      }
    }

    /** What flows into node v when the nodes hold `resp`. */
    method FlowInto(v: NodeID, ib: nat, resp: map<NodeID, real>, ghost x: NodeID -> real) returns (r: real)
      requires Valid() && ib > 0 && View().TotalBytes(View().In(v)) == ib as real && Holds(resp, x)
      ensures r == Inflow(View(), v, x)
    {
      var l := EdgesAt(ins, v);
      ghost var g, f := View(), Terms(View(), x);
      r := 0.0;
      for i := 0 to |l|
        invariant r == SumList(l[..i], f)
      {
        EdgeInto(v, l[i]);
        var p := PassOn(l[i], ib, resp, g, x);
        SumListStep(l, i, f);
        r := r + p;
      }
      assert l[..|l|] == l;
      SumInto(v, f);
    }

    method BytesInto(v: NodeID) returns (sum: nat)
      requires Valid()
      ensures sum as real == View().TotalBytes(View().In(v))
    {
      var l := EdgesAt(ins, v);
      ghost var g := View();
      ghost var f := (k: EdgeKey) => g.Bytes(k);
      sum := 0;
      for i := 0 to |l|
        invariant sum as real == SumList(l[..i], f)
      {
        EdgeInto(v, l[i]);
        assert f(l[i].key) == g.Bytes(l[i].key) == l[i].bytes as real;
        SumListStep(l, i, f);
        sum := sum + l[i].bytes;
      }
      assert l[..|l|] == l;
      SumInto(v, f);
    }

    /** Inbound byte totals: the denominators of the responsibility shares. */
    method InBytes() returns (m: map<NodeID, nat>)
      requires Valid()
      ensures HoldsInBytes(m, View())
    {
      m := map[];
      var todo := ins.Keys;
      ghost var g := View();
      while todo != {}
        invariant todo <= ins.Keys
        invariant forall v :: v in m <==> v in ins && v !in todo
        invariant forall v :: v in m ==> m[v] as real == g.TotalBytes(g.In(v))
      {
        var v :| v in todo;
        var sum := BytesInto(v);
        m := m[v := sum];
        todo := todo - {v};
      }
      forall v ensures BytesAt(m, v) as real == g.TotalBytes(g.In(v)) {
        if v !in ins { SumInto(v, k => g.Bytes(k)); }
      }
    }

    /** The next responsibility of a node other than the origin, and its change. */
    method Respond(v: NodeID, origin: NodeID, inBytes: map<NodeID, nat>, resp: map<NodeID, real>, ghost before: nat)
      returns (r: real, d: real)
      requires Valid() && v in nodes && v != origin && HoldsInBytes(inBytes, View()) && View().EdgesJoinNodes()
      requires Holds(resp, Held(View(), origin, before))
      ensures r == Resp(View(), origin, before + 1, v) && d == Delta(View(), origin, before, v)
    {
      ghost var g, x := View(), Held(View(), origin, before);
      var ib := BytesAt(inBytes, v);
      if ib == 0 {
        assert Root(g, v);
        return 0.0, 0.0;
      }
      r := FlowInto(v, ib, resp, x);
      assert r == Resp(g, origin, before + 1, v);
      RespGrows(g, origin, before, v);
      assert Lookup(resp, v) == x(v);
      d := Abs(r - Lookup(resp, v));
    }

    /** The round's work for one node: its entry in `next0`, and the largest change so far. */
    method Update(v: NodeID, origin: NodeID, inBytes: map<NodeID, nat>, resp: map<NodeID, real>, ghost before: nat,
                  next0: map<NodeID, real>, maxDelta0: real, ghost seen: set<NodeID>)
      returns (next: map<NodeID, real>, maxDelta: real)
      requires Valid() && v in nodes && v !in seen && HoldsInBytes(inBytes, View()) && View().EdgesJoinNodes()
      requires Holds(resp, Held(View(), origin, before))
      requires InRound(View(), origin, before)(seen, next0, maxDelta0)
      ensures InRound(View(), origin, before)(seen + {v}, next, maxDelta)
    {
      assert SeenInRound(View(), origin, before, seen, next0, maxDelta0);
      ghost var x, d0 := Held(View(), origin, before + 1), Delta(View(), origin, before, v);
      GiveNode(next0, x, origin, seen, v);
      LargestDeltaWith(View(), origin, before, seen, maxDelta0, v, if d0 > maxDelta0 then d0 else maxDelta0);
      next, maxDelta := next0, maxDelta0;
      if v != origin {
        var r, d := Respond(v, origin, inBytes, resp, before);
        if r != 0.0 {
          next := next[v := r];
        }
        if d > maxDelta {
          maxDelta := d;
        }
      }
      assert SeenInRound(View(), origin, before, seen + {v}, next, maxDelta);
    }

    /** One round: the next responsibilities, and the largest change. */
    method Round(origin: NodeID, inBytes: map<NodeID, nat>, resp: map<NodeID, real>, ghost before: nat)
      returns (next: map<NodeID, real>, maxDelta: real)
      requires Valid() && origin in nodes && HoldsInBytes(inBytes, View()) && View().EdgesJoinNodes()
      requires Holds(resp, Held(View(), origin, before))
      ensures Holds(next, Held(View(), origin, before + 1))
      ensures LargestDelta(View(), origin, before, View().nodes.Keys, maxDelta)
    {
      next, maxDelta := map[origin := 1.0], 0.0;
      RoundStarts(View(), origin, before, nodes.Keys - nodes.Keys);
      var todo := nodes.Keys;
      while todo != {}
        invariant todo <= nodes.Keys
        invariant InRound(View(), origin, before)(nodes.Keys - todo, next, maxDelta)
      {
        var v :| v in todo;
        OneLess(nodes.Keys, todo, v);
        next, maxDelta := Update(v, origin, inBytes, resp, before, next, maxDelta, nodes.Keys - todo);
        todo := todo - {v};
      }
      assert nodes.Keys - {} == View().nodes.Keys;
      RoundEnds(View(), origin, before, next, maxDelta);
    }

    lemma JoinsNodes()
      requires Valid()
      ensures View().EdgesJoinNodes()
    {
    }

    /** The responsibility iteration: rounds until one settles, at most `cap`. */
    method Iterate(origin: NodeID, cap: nat, epsilon: real) returns (resp: map<NodeID, real>, ghost rounds: nat)
      requires Valid() && origin in nodes && cap > 0 && epsilon > 0.0
      ensures LoopLeft(View(), origin, rounds, cap, epsilon)
      ensures Holds(resp, Held(View(), origin, rounds))
    {
      JoinsNodes();
      var inBytes := InBytes();
      resp, rounds := map[origin := 1.0], 0;
      HoldsAtStart(View(), origin);
      RestlessAtStart(View(), origin, epsilon);
      for i := 0 to cap
        invariant rounds == i
        invariant Holds(resp, Held(View(), origin, i))
        invariant Restless(View(), origin, epsilon)(i)
        invariant i == cap ==> LoopLeft(View(), origin, rounds, cap, epsilon)
      {
        var maxDelta;
        resp, maxDelta := Round(origin, inBytes, resp, i);
        rounds := i + 1;
        RoundDecides(View(), origin, epsilon, i, rounds, maxDelta, cap);
        if maxDelta < epsilon { return; }
      }
    }

    /** One edge's charge; nothing when the edge crosses no zone or nobody holds its source. */
    method EdgeCharge(e: Edge, resp: map<NodeID, real>, ghost x: NodeID -> real) returns (attr: real)
      requires Valid() && e.key in edges && edges[e.key] == e && Holds(resp, x)
      ensures attr == ChargeFor(View().CrossZones(), x, e.key)
    {
      var cz := e.CrossZoneCost();
      assert View().CrossZones()(e.key) == View().CrossZone(e.key) == cz;
      var r := Lookup(resp, e.key.src);
      assert r == x(e.key.src);
      if cz == 0.0 || r == 0.0 {
        attr := 0.0;
      } else {
        attr := r * cz;
      }
    }

    /** Charges one more edge. */
    method ChargeNext(k: EdgeKey, origin: NodeID, resp: map<NodeID, real>, ghost x: NodeID -> real,
                      direct0: real, induced0: real, ghost seen: set<EdgeKey>) returns (direct: real, induced: real)
      requires Valid() && k in edges && k !in seen && Holds(resp, x)
      requires Charged(View(), origin, x)(seen, direct0, induced0)
      ensures Charged(View(), origin, x)(seen + {k}, direct, induced)
    {
      var attr := EdgeCharge(edges[k], resp, x);
      ChargeOne(View(), origin, x, seen, direct0, induced0, k, attr);
      direct, induced := direct0, induced0;
      if attr != 0.0 {
        if k.src == origin {
          direct := direct + attr;
        } else {
          induced := induced + attr;
        }
      }
    }

    /** Charges every edge by the responsibility of its source. */
    method ChargeEdges(origin: NodeID, resp: map<NodeID, real>, ghost x: NodeID -> real)
      returns (direct: real, induced: real)
      requires Valid() && Holds(resp, x) && x(origin) == 1.0
      ensures direct == View().TotalCrossZone(View().Out(origin))
      ensures direct + induced == Attributed(View(), View().CrossZones(), x)
    {
      direct, induced := 0.0, 0.0;
      var todo := edges.Keys;
      ChargeStarts(View(), origin, x, edges.Keys - todo);
      while todo != {}
        invariant todo <= edges.Keys
        invariant Charged(View(), origin, x)(edges.Keys - todo, direct, induced)
      {
        var k :| k in todo;
        OneLess(edges.Keys, todo, k);
        direct, induced := ChargeNext(k, origin, resp, x, direct, induced, edges.Keys - todo);
        todo := todo - {k};
      }
      assert edges.Keys - {} == View().edges.Keys;
      ChargeEnds(View(), origin, x, direct, induced);
    }

    /** The zone-crossing cost one origin is responsible for. `rounds` is the round
        at which its loop left. */
    method AttributeFrom(origin: NodeID, maxIterations: int, epsilon: real) returns (a: Attribution, ghost rounds: nat)
      requires Valid()
      ensures a.origin == origin
      ensures origin !in nodes ==> a == Attribution(origin, 0.0, 0.0, false)
      ensures origin in nodes ==>
                && LoopLeft(View(), origin, rounds, if maxIterations <= 0 then DEFAULT_ITERATIONS else maxIterations,
                            if epsilon <= 0.0 then DEFAULT_EPSILON else epsilon)
                && a.direct == View().TotalCrossZone(View().Out(origin))
                && a.direct + a.induced == Attributed(View(), View().CrossZones(), Held(View(), origin, rounds))
                && (a.cycles <==> !Acyclic(View()))
    {
      rounds := 0;
      if origin !in nodes {
        return Attribution(origin, 0.0, 0.0, false), 0;
      }
      var cap := if maxIterations <= 0 then DEFAULT_ITERATIONS else maxIterations;
      var eps := if epsilon <= 0.0 then DEFAULT_EPSILON else epsilon;
      var cycles := HasCycle();
      var resp;
      resp, rounds := Iterate(origin, cap, eps);
      assert Held(View(), origin, rounds)(origin) == Resp(View(), origin, rounds, origin);
      var direct, induced := ChargeEdges(origin, resp, Held(View(), origin, rounds));
      a := Attribution(origin, direct, induced, cycles);
    }

    /** Zone-crossing cost on the edges at one node, inbound first. */
    method Through(v: NodeID) returns (cz: real)
      requires Valid()
      ensures cz == CrossZoneThrough(View(), v)
    {
      forall e | e in EdgesAt(ins, v) ensures e.key in View().edges && View().edges[e.key] == e.Totals() {
        EdgeInto(v, e);
      }
      forall e | e in EdgesAt(outs, v) ensures e.key in View().edges && View().edges[e.key] == e.Totals() {
        EdgeFrom(v, e);
      }
      var inbound := CrossZoneAlong(EdgesAt(ins, v));
      var outbound := CrossZoneAlong(EdgesAt(outs, v));
      SumInto(v, View().CrossZones());
      SumFrom(v, View().CrossZones());
      cz := inbound + outbound;
    }

    method CrossZoneAlong(l: seq<Edge>) returns (cz: real)
      requires forall e :: e in l ==> e.key in View().edges && View().edges[e.key] == e.Totals()
      ensures cz == SumList(l, View().CrossZones())
    {
      ghost var g := View();
      cz := 0.0;
      for i := 0 to |l|
        invariant cz == SumList(l[..i], g.CrossZones())
      {
        var c := l[i].CrossZoneCost();
        assert g.CrossZones()(l[i].key) == g.CrossZone(l[i].key) == c;
        SumListStep(l, i, g.CrossZones());
        cz := cz + c;
      }
      assert l[..|l|] == l;
    }

    /** Every node with zone-crossing cost, before sorting: each described once,
        and together counting the graph's zone-crossing cost twice. */
    method Chokepoints() returns (points: seq<Chokepoint>)
      requires Valid()
      ensures RankedNodes(View(), points, View().nodes.Keys)
      ensures SumThrough(points) == 2.0 * View().TotalCrossZone(View().edges.Keys)
    {
      points := [];
      var todo := nodes.Keys;
      RankStarts(View(), nodes.Keys - todo);
      while todo != {}
        invariant todo <= nodes.Keys
        invariant Ranked(View())(points, nodes.Keys - todo)
      {
        var v :| v in todo;
        OneLess(nodes.Keys, todo, v);
        var c := Describe(v);
        if c.through == 0.0 {
          RankSkip(View(), points, nodes.Keys - todo, v);
        } else {
          RankAdd(View(), points, nodes.Keys - todo, c);
          points := points + [c];
        }
        todo := todo - {v};
      }
      assert nodes.Keys - {} == View().nodes.Keys;
      RankEnds(View(), points);
    }

    method Degrees(v: NodeID) returns (inDegree: nat, outDegree: nat)
      requires Valid()
      ensures inDegree == |View().In(v)| && outDegree == |View().Out(v)|
    {
      SumInto(v, View().CrossZones());
      SumFrom(v, View().CrossZones());
      inDegree, outDegree := |EdgesAt(ins, v)|, |EdgesAt(outs, v)|;
    }

    method Describe(v: NodeID) returns (c: Chokepoint)
      requires Valid() && v in nodes
      ensures c.node == v && c.through == CrossZoneThrough(View(), v)
      ensures c.through != 0.0 ==> Describes(c, View())
    {
      var cz := Through(v);
      var inDegree, outDegree := Degrees(v);
      c := Chokepoint(v, cz, inDegree, outDegree, Score(cz, inDegree + outDegree));
    }
  }

  /** A snapshot built row by row is the rollup of its rows. */
  method BuildGraph(rows: seq<EdgeRow>) returns (g: ServiceGraph)
    ensures fresh(g) && g.Valid() && g.View() == Build(rows)
  {
    g := new ServiceGraph();
    for i := 0 to |rows|
      invariant fresh(g) && g.Valid() && g.View() == Build(rows[..i])
      invariant forall id :: id in g.nodes ==> fresh(g.nodes[id])
      invariant forall k :: k in g.edges ==> fresh(g.edges[k])
    {
      RowByRow(rows, i);
      g.AddEdgeRow(rows[i]);
    }
    assert rows[..|rows|] == rows;
  }

  lemma RowByRow(rows: seq<EdgeRow>, i: nat)
    requires i < |rows|
    ensures Build(rows[..i + 1]) == AddRow(Build(rows[..i]), rows[i])
  {
    assert rows[..i + 1][..i] == rows[..i];
  }
}
