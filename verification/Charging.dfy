/** Charging edges: when origin o holds responsibility x(o)(v) for node v, an edge
    costing `cost(k)` charges it that share of its source. */
module Charging {
  import opened Sums
  import opened Rollup

  /** What the origins together hold of node v. */
  ghost function Covered(origins: set<NodeID>, x: NodeID -> NodeID -> real, v: NodeID): real {
    Sum(origins, o => x(o)(v))
  }

  ghost function ChargeFor(cost: EdgeKey -> real, held: NodeID -> real, k: EdgeKey): real {
    cost(k) * held(k.src)
  }

  /** What an origin holding `held` is charged over all edges of the graph. */
  ghost function Attributed(g: Graph, cost: EdgeKey -> real, held: NodeID -> real): real {
    Sum(g.edges.Keys, Charge(cost, held))
  }

  ghost function Charge(cost: EdgeKey -> real, held: NodeID -> real): EdgeKey -> real {
    k => ChargeFor(cost, held, k)
  }

  /** What all origins together are charged over all edges. */
  ghost function AttributedToAll(g: Graph, cost: EdgeKey -> real, origins: set<NodeID>,
                                 x: NodeID -> NodeID -> real): real {
    Sum(origins, o => Attributed(g, cost, x(o)))
  }

  /** What all origins together are charged for edge k. */
  ghost function JointCharge(cost: EdgeKey -> real, origins: set<NodeID>, x: NodeID -> NodeID -> real,
                             k: EdgeKey): real {
    cost(k) * Covered(origins, x, k.src)
  }

  ghost function ChargesByOrigin(cost: EdgeKey -> real, x: NodeID -> NodeID -> real): NodeID -> EdgeKey -> real {
    o => Charge(cost, x(o))
  }

  /** Edge by edge, what each origin is charged. */
  ghost function ChargesByEdge(cost: EdgeKey -> real, x: NodeID -> NodeID -> real): EdgeKey -> NodeID -> real {
    k => o => ChargeFor(cost, x(o), k)
  }

  lemma JointChargeIsSum(cost: EdgeKey -> real, origins: set<NodeID>, x: NodeID -> NodeID -> real, k: EdgeKey)
    ensures JointCharge(cost, origins, x, k) == Sum(origins, ChargesByEdge(cost, x)(k))
  {
    var f, h := (o: NodeID) => x(o)(k.src), ChargesByEdge(cost, x)(k);
    forall o | o in origins ensures h(o) == cost(k) * f(o) {
      assert h(o) == ChargeFor(cost, x(o), k);
    }
    Scaled(origins, cost(k), f, h);
  }

  /** The attributions added up charge each edge by the coverage of its source. */
  lemma AttributedByEdge(g: Graph, cost: EdgeKey -> real, origins: set<NodeID>, x: NodeID -> NodeID -> real)
    ensures AttributedToAll(g, cost, origins, x) == Sum(g.edges.Keys, k => JointCharge(cost, origins, x, k))
  {
    forall k ensures JointCharge(cost, origins, x, k) == Sum(origins, ChargesByEdge(cost, x)(k)) {
      JointChargeIsSum(cost, origins, x, k);
    }
    forall o ensures Attributed(g, cost, x(o)) == Sum(g.edges.Keys, ChargesByOrigin(cost, x)(o)) {}
    Exchange(origins, g.edges.Keys, ChargesByOrigin(cost, x), ChargesByEdge(cost, x),
             o => Attributed(g, cost, x(o)), k => JointCharge(cost, origins, x, k));
  }

  /** A fixed part of every edge's cost. */
  ghost function PartOf(cost: EdgeKey -> real, part: real): EdgeKey -> real {
    k => cost(k) * part
  }

  lemma SumOfPart(s: set<EdgeKey>, cost: EdgeKey -> real, part: real)
    ensures Sum(s, PartOf(cost, part)) == part * Sum(s, cost)
  {
    Scaled(s, part, cost, PartOf(cost, part));
  }

  lemma ChargedAtLeast(g: Graph, cost: EdgeKey -> real, origins: set<NodeID>, x: NodeID -> NodeID -> real, low: real)
    requires forall k :: k in g.edges ==> cost(k) >= 0.0 && low <= Covered(origins, x, k.src)
    ensures Sum(g.edges.Keys, PartOf(cost, low)) <= AttributedToAll(g, cost, origins, x)
  {
    AttributedByEdge(g, cost, origins, x);
    forall k | k in g.edges.Keys ensures PartOf(cost, low)(k) <= JointCharge(cost, origins, x, k) {
      ScaleUp(cost(k), low, Covered(origins, x, k.src));
    }
    Monotone(g.edges.Keys, PartOf(cost, low), k => JointCharge(cost, origins, x, k));
  }

  lemma ChargedAtMost(g: Graph, cost: EdgeKey -> real, origins: set<NodeID>, x: NodeID -> NodeID -> real)
    requires forall k :: k in g.edges ==> cost(k) >= 0.0 && Covered(origins, x, k.src) <= 1.0
    ensures AttributedToAll(g, cost, origins, x) <= Sum(g.edges.Keys, cost)
  {
    AttributedByEdge(g, cost, origins, x);
    forall k | k in g.edges.Keys ensures JointCharge(cost, origins, x, k) <= cost(k) {
      ScaleUp(cost(k), Covered(origins, x, k.src), 1.0);
    }
    Monotone(g.edges.Keys, k => JointCharge(cost, origins, x, k), cost);
  }

  lemma EdgeChargedAtMost(cost: EdgeKey -> real, origins: set<NodeID>, x: NodeID -> NodeID -> real, k: EdgeKey)
    requires cost(k) >= 0.0 && Covered(origins, x, k.src) <= 1.0
    ensures Sum(origins, ChargesByEdge(cost, x)(k)) <= cost(k)
  {
    var c, covered := cost(k), Covered(origins, x, k.src);
    JointChargeIsSum(cost, origins, x, k);
    assert JointCharge(cost, origins, x, k) == c * covered;
    ScaleUp(c, covered, 1.0);
  }

  lemma ChargedExactly(g: Graph, cost: EdgeKey -> real, origins: set<NodeID>, x: NodeID -> NodeID -> real)
    requires forall k :: k in g.edges ==> Covered(origins, x, k.src) == 1.0
    ensures AttributedToAll(g, cost, origins, x) == Sum(g.edges.Keys, cost)
  {
    AttributedByEdge(g, cost, origins, x);
    Congruence(g.edges.Keys, k => JointCharge(cost, origins, x, k), cost);
  }

  /** One edge's charges add up to its cost exactly when its source is covered once. */
  lemma EdgeConserved(cost: EdgeKey -> real, origins: set<NodeID>, x: NodeID -> NodeID -> real, k: EdgeKey)
    ensures Sum(origins, ChargesByEdge(cost, x)(k)) == cost(k) <==> cost(k) == 0.0 || Covered(origins, x, k.src) == 1.0
  {
    var c, covered := cost(k), Covered(origins, x, k.src);
    JointChargeIsSum(cost, origins, x, k);
    assert JointCharge(cost, origins, x, k) == c * covered;
    OneTimes(c, covered);
  }

  lemma OneTimes(c: real, x: real)
    ensures c * x == c <==> c == 0.0 || x == 1.0
  {
    if c != 0.0 && c * x == c {
      assert c * (x - 1.0) == 0.0;
    }
  }
}
