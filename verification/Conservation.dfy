/** What the attributions of several origins add up to: conservation of
    zone-crossing dollars over the roots, and why it fails over all origins. */
module Conservation {
  import opened Sums
  import opened Rollup
  import opened Responsibility
  import opened Charging

  /** The responsibilities of each origin at the round where its loop stopped. */
  ghost function AtStop(g: Graph, rounds: NodeID -> nat): NodeID -> NodeID -> real {
    o => Held(g, o, rounds(o))
  }

  lemma StopValue(g: Graph, rounds: NodeID -> nat, o: NodeID, v: NodeID)
    ensures AtStop(g, rounds)(o)(v) == Resp(g, o, rounds(o), v)
  {
    assert AtStop(g, rounds)(o) == Held(g, o, rounds(o));
  }

  lemma CoveredIsSum(g: Graph, origins: set<NodeID>, rounds: NodeID -> nat, v: NodeID, f: NodeID -> real)
    requires forall o :: o in origins ==> f(o) == Resp(g, o, rounds(o), v)
    ensures Covered(origins, AtStop(g, rounds), v) == Sum(origins, f)
  {
    forall o | o in origins ensures AtStop(g, rounds)(o)(v) == f(o) {
      StopValue(g, rounds, o, v);
    }
    Congruence(origins, o => AtStop(g, rounds)(o)(v), f);
  }

  // ----- all roots stopping at the same round -----

  ghost function CoveredAt(g: Graph, rounds: nat, v: NodeID): real {
    Sum(Roots(g), o => Resp(g, o, rounds, v))
  }

  lemma CoveredAtRoot(g: Graph, rounds: nat, v: NodeID)
    requires v in Roots(g)
    ensures CoveredAt(g, rounds, v) == 1.0
  {
    Single(Roots(g), v, o => Resp(g, o, rounds, v));
  }

  lemma CoveredFlows(g: Graph, rounds: nat, v: NodeID)
    requires v in g.nodes && !Root(g, v)
    ensures CoveredAt(g, rounds + 1, v) == Inflow(g, v, u => CoveredAt(g, rounds, u))
  {
    var x := (o: NodeID) => Held(g, o, rounds);
    var total := (u: NodeID) => CoveredAt(g, rounds, u);
    forall u ensures total(u) == Sum(Roots(g), o => x(o)(u)) {
      Congruence(Roots(g), o => Resp(g, o, rounds, u), o => x(o)(u));
    }
    SumOfInflows(g, Roots(g), v, x, o => Resp(g, o, rounds + 1, v), total);
  }

  lemma {:induction false} CoveredAtMostOne(g: Graph, rounds: nat, v: NodeID)
    requires g.EdgesJoinNodes()
    ensures CoveredAt(g, rounds, v) <= 1.0
  {
    if v in Roots(g) {
      CoveredAtRoot(g, rounds, v);
    } else if rounds == 0 || v !in g.nodes {
      Zero(Roots(g), o => Resp(g, o, rounds, v));
    } else {
      var before := rounds - 1;
      CoveredFlows(g, before, v);
      forall u ensures CoveredAt(g, before, u) <= 1.0 { CoveredAtMostOne(g, before, u); }
      InflowMonotone(g, v, u => CoveredAt(g, before, u), u => 1.0);
      InflowOfConstant(g, v, 1.0, u => 1.0);
    }
  }

  ghost function Missing(g: Graph, rounds: nat, v: NodeID): real {
    1.0 - CoveredAt(g, rounds, v)
  }

  lemma MissingFlows(g: Graph, rounds: nat, v: NodeID)
    requires g.EdgesJoinNodes() && v in g.nodes && !Root(g, v)
    ensures Missing(g, rounds + 1, v) == Inflow(g, v, u => Missing(g, rounds, u))
  {
    CoveredFlows(g, rounds, v);
    InflowAdds(g, v, u => CoveredAt(g, rounds, u), u => Missing(g, rounds, u), u => 1.0);
    InflowOfConstant(g, v, 1.0, u => 1.0);
  }

  /** Responsibility still missing from the roots needs a walk with more edges than rounds. */
  lemma {:induction false} MissingNeedsWalk(g: Graph, rounds: nat, v: NodeID) returns (p: seq<NodeID>)
    requires g.EdgesJoinNodes() && v in g.nodes
    requires Missing(g, rounds, v) != 0.0
    ensures Walk(g, p) && |p| == rounds + 2 && p[rounds + 1] == v
  {
    if v in Roots(g) { CoveredAtRoot(g, rounds, v); }
    if rounds == 0 {
      var k := SomeNonZero(g.In(v), k => g.Bytes(k));
      p := [k.src, v];
    } else {
      MissingFlows(g, rounds - 1, v);
      var u := InflowSource(g, v, u => Missing(g, rounds - 1, u));
      var q := MissingNeedsWalk(g, rounds - 1, u);
      p := q + [v];
    }
  }

  // ----- every origin stopping where it likes -----

  lemma {:induction false} MaxRounds(origins: set<NodeID>, rounds: NodeID -> nat) returns (m: nat)
    ensures forall o :: o in origins ==> rounds(o) <= m
  {
    if origins == {} {
      m := 0;
    } else {
      var o :| o in origins;
      m := MaxRounds(origins - {o}, rounds);
      m := if m < rounds(o) then rounds(o) else m;
    }
  }

  /** On any graph, cyclic or not, and wherever each origin's loop stopped, the
      roots together never claim more than the whole of a node. */
  lemma RootsNeverOverclaim(g: Graph, rounds: NodeID -> nat, v: NodeID)
    requires g.EdgesJoinNodes()
    ensures 0.0 <= Covered(Roots(g), AtStop(g, rounds), v) <= 1.0
  {
    var m := MaxRounds(Roots(g), rounds);
    var f := (o: NodeID) => Resp(g, o, rounds(o), v);
    forall o | o in Roots(g) ensures 0.0 <= f(o) <= Resp(g, o, m, v) {
      RespGrowsTo(g, o, rounds(o), m, v);
      RespInUnitInterval(g, o, rounds(o), v);
    }
    CoveredIsSum(g, Roots(g), rounds, v, f);
    Monotone(Roots(g), f, o => Resp(g, o, m, v));
    Monotone(Roots(g), o => 0.0, f);
    Zero(Roots(g), (o: NodeID) => 0.0);
    CoveredAtMostOne(g, m, v);
  }

  /** When every origin runs for at least as many rounds as the longest walk has
      edges, the roots together claim exactly the whole of every node. */
  lemma RootsCoverExactly(g: Graph, rounds: NodeID -> nat, longest: nat, v: NodeID)
    requires g.EdgesJoinNodes() && WalksWithin(g, longest) && v in g.nodes
    requires forall o :: o in Roots(g) ==> rounds(o) >= longest
    ensures Covered(Roots(g), AtStop(g, rounds), v) == 1.0
  {
    var f := (o: NodeID) => Resp(g, o, longest, v);
    forall o | o in Roots(g) ensures f(o) == Resp(g, o, rounds(o), v) {
      RespFinal(g, o, longest, rounds(o), v);
    }
    CoveredIsSum(g, Roots(g), rounds, v, f);
    LongestCovers(g, longest, v);
    Congruence(Roots(g), f, o => Resp(g, o, longest, v));
  }

  lemma LongestCovers(g: Graph, longest: nat, v: NodeID)
    requires g.EdgesJoinNodes() && WalksWithin(g, longest) && v in g.nodes
    ensures CoveredAt(g, longest, v) == 1.0
  {
    if Missing(g, longest, v) != 0.0 {
      var p := MissingNeedsWalk(g, longest, v);
    }
  }

  /** Each loop ran long enough, or left at an epsilon round. */
  ghost predicate StopsProperly(g: Graph, rounds: NodeID -> nat, longest: nat, epsilon: real) {
    forall o :: o in Roots(g) ==> StopsAt(g, o, rounds(o), longest, epsilon)
  }

  ghost predicate StopsAt(g: Graph, o: NodeID, rounds: nat, longest: nat, epsilon: real) {
    rounds >= longest || (rounds > 0 && Settled(g, o, rounds - 1, epsilon))
  }

  /** The share of a node that epsilon exits may leave unclaimed: one epsilon per
      root and per edge of the longest walk. */
  ghost function Slack(g: Graph, longest: nat, epsilon: real): real {
    Times(|Roots(g)|, Times(longest, epsilon))
  }

  /** The share of every node that is claimed nevertheless. */
  ghost function Floor(g: Graph, longest: nat, epsilon: real): real {
    1.0 - Slack(g, longest, epsilon)
  }

  lemma RootsCoverNearly(g: Graph, rounds: NodeID -> nat, longest: nat, epsilon: real, v: NodeID)
    requires g.EdgesJoinNodes() && WalksWithin(g, longest) && v in g.nodes && epsilon >= 0.0
    requires StopsProperly(g, rounds, longest, epsilon)
    ensures Floor(g, longest, epsilon) <= Covered(Roots(g), AtStop(g, rounds), v) <= 1.0
  {
    var final, held := (o: NodeID) => Resp(g, o, longest, v), (o: NodeID) => Resp(g, o, rounds(o), v);
    forall o | o in Roots(g) ensures final(o) <= Times(longest, epsilon) + held(o) {
      RootNearly(g, o, rounds(o), longest, epsilon, v);
    }
    WithinSlack(Roots(g), Times(longest, epsilon), final, held);
    LongestCovers(g, longest, v);
    Congruence(Roots(g), final, o => Resp(g, o, longest, v));
    CoveredIsSum(g, Roots(g), rounds, v, held);
    RootsNeverOverclaim(g, rounds, v);
  }

  lemma RootNearly(g: Graph, o: NodeID, rounds: nat, longest: nat, epsilon: real, v: NodeID)
    requires g.EdgesJoinNodes() && WalksWithin(g, longest) && v in g.nodes && epsilon >= 0.0
    requires StopsAt(g, o, rounds, longest, epsilon)
    ensures Resp(g, o, longest, v) <= Times(longest, epsilon) + Resp(g, o, rounds, v)
  {
    if rounds >= longest {
      RespGrowsTo(g, o, longest, rounds, v);
      TimesNonNegative(longest, epsilon);
    } else {
      EpsilonExitIsClose(g, o, rounds, epsilon, longest, v);
    }
  }

  // ----- dollars -----

  /** On any graph, cyclic or not, and wherever the loops stopped, the roots are
      never charged more than the bill. */
  lemma RootsNeverOvercharged(g: Graph, cost: EdgeKey -> real, rounds: NodeID -> nat)
    requires g.EdgesJoinNodes()
    requires forall k :: k in g.edges ==> cost(k) >= 0.0
    ensures AttributedToAll(g, cost, Roots(g), AtStop(g, rounds)) <= Sum(g.edges.Keys, cost)
  {
    forall k | k in g.edges ensures Covered(Roots(g), AtStop(g, rounds), k.src) <= 1.0 {
      RootsNeverOverclaim(g, rounds, k.src);
    }
    ChargedAtMost(g, cost, Roots(g), AtStop(g, rounds));
  }

  /** No single edge is ever charged more than its own cost either. */
  lemma EdgeNeverOvercharged(g: Graph, cost: EdgeKey -> real, rounds: NodeID -> nat, k: EdgeKey)
    requires g.EdgesJoinNodes() && cost(k) >= 0.0
    ensures Sum(Roots(g), ChargesByEdge(cost, AtStop(g, rounds))(k)) <= cost(k)
  {
    RootsNeverOverclaim(g, rounds, k.src);
    EdgeChargedAtMost(cost, Roots(g), AtStop(g, rounds), k);
  }

  /** When every origin runs for at least as many rounds as the longest walk has
      edges, each edge is charged exactly its cost. */
  lemma EdgeFullyCharged(g: Graph, cost: EdgeKey -> real, rounds: NodeID -> nat, longest: nat, k: EdgeKey)
    requires g.EdgesJoinNodes() && WalksWithin(g, longest) && k in g.edges
    requires forall o :: o in Roots(g) ==> rounds(o) >= longest
    ensures Sum(Roots(g), ChargesByEdge(cost, AtStop(g, rounds))(k)) == cost(k)
  {
    RootsCoverExactly(g, rounds, longest, k.src);
    EdgeConserved(cost, Roots(g), AtStop(g, rounds), k);
  }

  /** With as many rounds, the roots are charged exactly the bill. */
  lemma DollarsConserved(g: Graph, cost: EdgeKey -> real, rounds: NodeID -> nat, longest: nat)
    requires g.EdgesJoinNodes() && WalksWithin(g, longest)
    requires forall o :: o in Roots(g) ==> rounds(o) >= longest
    ensures AttributedToAll(g, cost, Roots(g), AtStop(g, rounds)) == Sum(g.edges.Keys, cost)
  {
    forall k | k in g.edges ensures Covered(Roots(g), AtStop(g, rounds), k.src) == 1.0 {
      RootsCoverExactly(g, rounds, longest, k.src);
    }
    ChargedExactly(g, cost, Roots(g), AtStop(g, rounds));
  }

  /** On an acyclic graph one round less than there are nodes is always enough. */
  lemma AcyclicDollarsConserved(g: Graph, cost: EdgeKey -> real, rounds: NodeID -> nat)
    requires g.EdgesJoinNodes() && Acyclic(g)
    requires forall o :: o in Roots(g) ==> rounds(o) + 1 >= |g.nodes|
    ensures AttributedToAll(g, cost, Roots(g), AtStop(g, rounds)) == Sum(g.edges.Keys, cost)
  {
    AcyclicBoundsWalks(g);
    DollarsConserved(g, cost, rounds, if |g.nodes| == 0 then 0 else |g.nodes| - 1);
  }

  /** However early epsilon ends each loop, the charged sum misses the bill by at most
      the slack; no walk has more than `longest` edges. */
  lemma DollarsNearlyConserved(g: Graph, cost: EdgeKey -> real, rounds: NodeID -> nat, longest: nat, epsilon: real)
    requires g.EdgesJoinNodes() && WalksWithin(g, longest) && epsilon >= 0.0
    requires forall k :: k in g.edges ==> cost(k) >= 0.0
    requires StopsProperly(g, rounds, longest, epsilon)
    ensures Sum(g.edges.Keys, PartOf(cost, Floor(g, longest, epsilon)))
            <= AttributedToAll(g, cost, Roots(g), AtStop(g, rounds))
            <= Sum(g.edges.Keys, cost)
  {
    var low := Floor(g, longest, epsilon);
    forall k | k in g.edges ensures low <= Covered(Roots(g), AtStop(g, rounds), k.src) {
      RootsCoverNearly(g, rounds, longest, epsilon, k.src);
    }
    ChargedAtLeast(g, cost, Roots(g), AtStop(g, rounds), low);
    RootsNeverOvercharged(g, cost, rounds);
  }

  /** The zone-crossing bill as the attribution loops really charge it to the roots,
      with a cap of at least the longest walk: never more than the bill, and short of
      it by at most one epsilon per root and walk edge of each edge's cost (SumOfPart:
      the lower sum is the floor times the bill). */
  lemma RootBillsAddUp(g: Graph, rounds: NodeID -> nat, longest: nat, cap: nat, epsilon: real)
    requires g.EdgesJoinNodes() && WalksWithin(g, longest) && epsilon >= 0.0 && cap >= longest
    requires forall k :: k in g.edges ==> g.CrossZones()(k) >= 0.0
    requires forall o :: o in Roots(g) ==> LoopLeft(g, o, rounds(o), cap, epsilon)
    ensures Sum(g.edges.Keys, PartOf(g.CrossZones(), Floor(g, longest, epsilon)))
            <= AttributedToAll(g, g.CrossZones(), Roots(g), AtStop(g, rounds))
            <= g.TotalCrossZone(g.edges.Keys)
  {
    forall o | o in Roots(g) ensures StopsAt(g, o, rounds(o), longest, epsilon) {}
    DollarsNearlyConserved(g, g.CrossZones(), rounds, longest, epsilon);
  }

  ghost predicate NoRefunds(edges: map<EdgeKey, EdgeTotals>) {
    forall k, t :: k in edges ==> StatOf(edges[k].byType, t).cost >= 0.0
  }

  /** Rows that cost nothing less than zero leave no slice of an edge below zero. */
  lemma {:induction false} BuildHasNoRefunds(rows: seq<EdgeRow>)
    requires forall i :: 0 <= i < |rows| ==> rows[i].cost >= 0.0
    ensures NoRefunds(Build(rows).edges)
  {
    if rows != [] {
      var init, r := rows[..|rows| - 1], rows[|rows| - 1];
      BuildHasNoRefunds(init);
      var e := EdgeOf(Build(init).edges, r.key);
      forall t ensures StatOf(Carried(e, r).byType, t).cost >= 0.0 {
        assert StatOf(e.byType, t).cost >= 0.0;
      }
    }
  }

  /** The same from the rows on, whatever they are: the graph built from them is charged
      to its roots up to the slack and never beyond the bill. */
  lemma RootBillsOfRowsAddUp(rows: seq<EdgeRow>, rounds: NodeID -> nat, longest: nat, cap: nat, epsilon: real)
    requires forall i :: 0 <= i < |rows| ==> rows[i].cost >= 0.0
    requires WalksWithin(Build(rows), longest) && epsilon >= 0.0 && cap >= longest
    requires forall o :: o in Roots(Build(rows)) ==> LoopLeft(Build(rows), o, rounds(o), cap, epsilon)
    ensures var g := Build(rows);
            Sum(g.edges.Keys, PartOf(g.CrossZones(), Floor(g, longest, epsilon)))
            <= AttributedToAll(g, g.CrossZones(), Roots(g), AtStop(g, rounds))
            <= g.TotalCrossZone(g.edges.Keys)
  {
    var g := Build(rows);
    BuildBalances(rows);
    BuildHasNoRefunds(rows);
    forall k | k in g.edges ensures g.CrossZones()(k) >= 0.0 {
      assert StatOf(g.edges[k].byType, "cross_az").cost >= 0.0 && StatOf(g.edges[k].byType, "cross_region").cost >= 0.0;
    }
    RootBillsAddUp(g, rounds, longest, cap, epsilon);
  }

  // ----- summing over every origin instead of the roots -----

  /** Bytes arrive at v from some other node. */
  ghost predicate FedByOther(g: Graph, v: NodeID) {
    exists k :: k in g.In(v) && k.src != v && g.Bytes(k) > 0.0
  }

  lemma UnfedPassesNothing(g: Graph, x: NodeID -> real, k: EdgeKey)
    requires !FedByOther(g, k.dst) && k in g.edges
    requires x(k.dst) == 0.0
    ensures Passed(g, x, k) == 0.0
  {
    if k.src == k.dst {
      assert x(k.src) == 0.0;
    } else {
      assert g.Bytes(k) <= 0.0;
      assert Share(g, k) == 0.0;
    }
  }

  lemma {:induction false} UnfedTakesNothing(g: Graph, origin: NodeID, rounds: nat, v: NodeID)
    requires !FedByOther(g, v) && origin != v
    ensures Resp(g, origin, rounds, v) == 0.0
  {
    if rounds > 0 && v in g.nodes && !Root(g, v) {
      UnfedTakesNothing(g, origin, rounds - 1, v);
      var x := Held(g, origin, rounds - 1);
      forall k | k in g.In(v) ensures Terms(g, x)(k) == 0.0 {
        UnfedPassesNothing(g, x, k);
      }
      Zero(g.In(v), Terms(g, x));
    }
  }

  lemma FeederShare(g: Graph, k: EdgeKey)
    requires k in g.edges && g.Bytes(k) > 0.0
    ensures Share(g, k) > 0.0 && !Root(g, k.dst)
  {
    var bytes := (e: EdgeKey) => g.Bytes(e);
    Pick(g.In(k.dst), k, bytes);
    Monotone(g.In(k.dst) - {k}, e => 0.0, bytes);
    Zero(g.In(k.dst) - {k}, (e: EdgeKey) => 0.0);
  }

  lemma FeederTakesSome(g: Graph, k: EdgeKey, rounds: nat)
    requires g.EdgesJoinNodes() && k in g.edges && k.src != k.dst && g.Bytes(k) > 0.0 && rounds > 0
    ensures Resp(g, k.src, rounds, k.dst) > 0.0
  {
    var v, x := k.dst, Held(g, k.src, 0);
    FeederShare(g, k);
    forall e | e in g.In(v) ensures Terms(g, x)(e) >= 0.0 {
      SharesAreNonNegative(g);
      assert Passed(g, x, e) >= 0.0;
    }
    assert Passed(g, x, k) > 0.0;
    Pick(g.In(v), k, Terms(g, x));
    Monotone(g.In(v) - {k}, e => 0.0, Terms(g, x));
    Zero(g.In(v) - {k}, (e: EdgeKey) => 0.0);
    RespGrowsTo(g, k.src, 1, rounds, v);
  }

  /** Summed over every possible origin, a node is claimed exactly once if and only
      if no other node sends it bytes; each loop runs at least one round. */
  lemma AllOriginsCoverExactlyUnfed(g: Graph, rounds: NodeID -> nat, v: NodeID)
    requires g.EdgesJoinNodes() && v in g.nodes
    requires forall o :: rounds(o) > 0
    ensures Covered(g.nodes.Keys, AtStop(g, rounds), v) == 1.0 <==> !FedByOther(g, v)
    ensures Covered(g.nodes.Keys, AtStop(g, rounds), v) >= 1.0
  {
    var f := (o: NodeID) => Resp(g, o, rounds(o), v);
    var others := g.nodes.Keys - {v};
    CoveredIsSum(g, g.nodes.Keys, rounds, v, f);
    Pick(g.nodes.Keys, v, f);
    forall o ensures f(o) >= 0.0 { RespInUnitInterval(g, o, rounds(o), v); }
    Monotone(others, o => 0.0, f);
    Zero(others, (o: NodeID) => 0.0);
    if FedByOther(g, v) {
      var k :| k in g.In(v) && k.src != v && g.Bytes(k) > 0.0;
      FeederTakesSome(g, k, rounds(k.src));
      Pick(others, k.src, f);
      Monotone(others - {k.src}, o => 0.0, f);
      Zero(others - {k.src}, (o: NodeID) => 0.0);
    } else {
      forall o | o in others ensures f(o) == 0.0 { UnfedTakesNothing(g, o, rounds(o), v); }
      Zero(others, f);
    }
  }

  /** The claim that the attributions of one edge over every possible origin add up
      to its cost holds exactly for edges whose source no other node feeds (or that
      cost nothing). */
  lemma AllOriginsConserveExactlyUnfed(g: Graph, cost: EdgeKey -> real, rounds: NodeID -> nat, k: EdgeKey)
    requires g.EdgesJoinNodes() && k in g.edges
    requires forall o :: rounds(o) > 0
    ensures Sum(g.nodes.Keys, ChargesByEdge(cost, AtStop(g, rounds))(k)) == cost(k)
            <==> cost(k) == 0.0 || !FedByOther(g, k.src)
  {
    EdgeConserved(cost, g.nodes.Keys, AtStop(g, rounds), k);
    AllOriginsCoverExactlyUnfed(g, rounds, k.src);
  }

  /** Three services in a chain, each sending its successor the given bytes; only the
      last edge crosses zones. */
  function Chain(a: NodeID, b: NodeID, c: NodeID, bytes: nat, cost: real): seq<EdgeRow> {
    [EdgeRow(EdgeKey(a, b), "", "", "same_zone", bytes, 1, 0.0), EdgeRow(EdgeKey(b, c), "", "", "cross_az", bytes, 1, cost)]
  }

  lemma ChainGraph(a: NodeID, b: NodeID, c: NodeID, bytes: nat, cost: real)
    requires a != b && a != c && b != c
    ensures var g := Build(Chain(a, b, c, bytes, cost));
            && g.nodes.Keys == {a, b, c} && g.edges.Keys == {EdgeKey(a, b), EdgeKey(b, c)}
            && g.edges[EdgeKey(a, b)].bytes == bytes && g.CrossZones()(EdgeKey(b, c)) == cost
  {
    var rows := Chain(a, b, c, bytes, cost);
    assert rows[..1] == [rows[0]] && rows[..1][..0] == [];
    assert Build(rows[..1]) == AddRow(EMPTY_GRAPH, rows[0]);
    assert Build(rows) == AddRow(AddRow(EMPTY_GRAPH, rows[0]), rows[1]);
  }

  /** The input that refutes the claim about every origin: the middle edge's dollars are
      charged in full to the first service and again to the second. */
  lemma ChainIsChargedTwice(a: NodeID, b: NodeID, c: NodeID, bytes: nat, cost: real, rounds: NodeID -> nat)
    requires a != b && a != c && b != c && bytes > 0 && cost > 0.0
    requires forall o :: rounds(o) > 0
    ensures var g, k := Build(Chain(a, b, c, bytes, cost)), EdgeKey(b, c);
            var charges := ChargesByEdge(g.CrossZones(), AtStop(g, rounds))(k);
            charges(a) == cost && charges(b) == cost && charges(c) == 0.0 && Sum(g.nodes.Keys, charges) == 2.0 * cost
  {
    ChainGraph(a, b, c, bytes, cost);
    ChainCharges(Build(Chain(a, b, c, bytes, cost)), a, b, c, cost, rounds);
  }

  lemma ChainCharges(g: Graph, a: NodeID, b: NodeID, c: NodeID, cost: real, rounds: NodeID -> nat)
    requires a != b && a != c && b != c && (forall o :: rounds(o) > 0)
    requires g.edges.Keys == {EdgeKey(a, b), EdgeKey(b, c)} && g.nodes.Keys == {a, b, c}
    requires g.Bytes(EdgeKey(a, b)) > 0.0 && g.CrossZones()(EdgeKey(b, c)) == cost
    ensures var charges := ChargesByEdge(g.CrossZones(), AtStop(g, rounds))(EdgeKey(b, c));
            charges(a) == cost && charges(b) == cost && charges(c) == 0.0 && Sum(g.nodes.Keys, charges) == 2.0 * cost
  {
    ChainHolds(g, a, b, c, rounds);
    TwoInFull(g.CrossZones(), AtStop(g, rounds), a, b, c, EdgeKey(b, c));
  }

  lemma TwoInFull(cost: EdgeKey -> real, x: NodeID -> NodeID -> real, a: NodeID, b: NodeID, c: NodeID, k: EdgeKey)
    requires a != b && a != c && b != c
    requires x(a)(k.src) == 1.0 && x(b)(k.src) == 1.0 && x(c)(k.src) == 0.0
    ensures var charges := ChargesByEdge(cost, x)(k);
            charges(a) == cost(k) && charges(b) == cost(k) && charges(c) == 0.0 && Sum({a, b, c}, charges) == 2.0 * cost(k)
  {
    ChargeIs(cost, x, a, k);
    ChargeIs(cost, x, b, k);
    ChargeIs(cost, x, c, k);
    SumOfThree(a, b, c, ChargesByEdge(cost, x)(k));
  }

  lemma ChargeIs(cost: EdgeKey -> real, x: NodeID -> NodeID -> real, o: NodeID, k: EdgeKey)
    ensures ChargesByEdge(cost, x)(k)(o) == cost(k) * x(o)(k.src)
  {
    assert ChargesByEdge(cost, x)(k)(o) == ChargeFor(cost, x(o), k);
  }

  lemma SumOfThree(a: NodeID, b: NodeID, c: NodeID, f: NodeID -> real)
    requires a != b && a != c && b != c
    ensures Sum({a, b, c}, f) == f(a) + f(b) + f(c)
  {
    Pick({a, b, c}, a, f);
    assert {a, b, c} - {a} == {b, c};
    Pick({b, c}, b, f);
    assert {b, c} - {b} == {c};
    Single({c}, c, f);
  }

  /** Of the chain's middle service both the first and itself hold the whole. */
  lemma ChainHolds(g: Graph, a: NodeID, b: NodeID, c: NodeID, rounds: NodeID -> nat)
    requires a != b && a != c && b != c && (forall o :: rounds(o) > 0)
    requires g.edges.Keys == {EdgeKey(a, b), EdgeKey(b, c)} && g.nodes.Keys == {a, b, c}
    requires g.Bytes(EdgeKey(a, b)) > 0.0
    ensures AtStop(g, rounds)(a)(b) == 1.0 && AtStop(g, rounds)(b)(b) == 1.0 && AtStop(g, rounds)(c)(b) == 0.0
  {
    var only := EdgeKey(a, b);
    assert g.In(b) == {only} && g.In(a) == {};
    FeederShare(g, only);
    forall o ensures AtStop(g, rounds)(o)(b) == Resp(g, o, rounds(o), b) { StopValue(g, rounds, o, b); }
    Single(g.In(b), only, k => Share(g, k));
    SharesSumToOne(g, b);
    Empty((k: EdgeKey) => g.Bytes(k));
    forall o, n: nat ensures Inflow(g, b, Held(g, o, n)) == Resp(g, o, n, a) {
      Single(g.In(b), only, Terms(g, Held(g, o, n)));
    }
    assert Held(g, a, rounds(a) - 1)(a) == 1.0 && Held(g, c, rounds(c) - 1)(a) == 0.0;
  }
}
