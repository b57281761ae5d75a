/** The service-dependency graph as a value: what a sequence of rollup rows
    adds up to. The class in ServiceGraph.dfy keeps the same information in
    mutable nodes, edges and adjacency lists. */
module Rollup {
  import opened Sums

  datatype NodeKind = KindService | KindExternal

  datatype NodeID = NodeID(cluster: string, namespace: string, name: string, kind: NodeKind)

  datatype EdgeKey = EdgeKey(src: NodeID, dst: NodeID)

  datatype EdgeStat = EdgeStat(bytes: nat, cost: real)

  datatype EdgeRow = EdgeRow(key: EdgeKey, srcZone: string, dstZone: string, trafficType: string,
                             bytes: nat, connections: nat, cost: real)

  datatype EdgeTotals = EdgeTotals(bytes: nat, connections: nat, cost: real, byType: map<string, EdgeStat>) {
    /** The traffic types that carry a zone-crossing charge: cross_az and cross_region. */
    function CrossZoneCost(): real {
      StatOf(byType, "cross_az").cost + StatOf(byType, "cross_region").cost
    }
  }

  datatype NodeTotals = NodeTotals(zones: map<string, nat>, bytesIn: nat, bytesOut: nat, costIn: real, costOut: real)

  datatype Graph = Graph(nodes: map<NodeID, NodeTotals>, edges: map<EdgeKey, EdgeTotals>) {
    ghost predicate EdgesJoinNodes() {
      forall k :: k in edges ==> k.src in nodes && k.dst in nodes
    }

    ghost function Out(v: NodeID): set<EdgeKey> {
      set k | k in edges && k.src == v
    }

    ghost function In(v: NodeID): set<EdgeKey> {
      set k | k in edges && k.dst == v
    }

    ghost function Bytes(k: EdgeKey): real {
      if k in edges then edges[k].bytes as real else 0.0
    }

    ghost function Cost(k: EdgeKey): real {
      if k in edges then edges[k].cost else 0.0
    }

    ghost function CrossZone(k: EdgeKey): real {
      if k in edges then edges[k].CrossZoneCost() else 0.0
    }

    /** Bytes, dollars and zone-crossing dollars on a set of edges. */
    ghost function TotalBytes(s: set<EdgeKey>): real {
      Sum(s, k => Bytes(k))
    }

    ghost function TotalCost(s: set<EdgeKey>): real {
      Sum(s, k => Cost(k))
    }

    ghost function TotalCrossZone(s: set<EdgeKey>): real {
      Sum(s, CrossZones())
    }

    ghost function CrossZones(): EdgeKey -> real {
      k => CrossZone(k)
    }
  }

  const EMPTY_EDGE := EdgeTotals(0, 0, 0.0, map[])
  const EMPTY_NODE := NodeTotals(map[], 0, 0, 0.0, 0.0)
  const EMPTY_GRAPH := Graph(map[], map[])

  function StatOf(byType: map<string, EdgeStat>, t: string): EdgeStat {
    if t in byType then byType[t] else EdgeStat(0, 0.0)
  }

  function NodeOf(nodes: map<NodeID, NodeTotals>, id: NodeID): NodeTotals {
    if id in nodes then nodes[id] else EMPTY_NODE
  }

  function EdgeOf(edges: map<EdgeKey, EdgeTotals>, k: EdgeKey): EdgeTotals {
    if k in edges then edges[k] else EMPTY_EDGE
  }

  function AddZone(zones: map<string, nat>, zone: string, bytes: nat): map<string, nat> {
    if zone == "" then zones else zones[zone := (if zone in zones then zones[zone] else 0) + bytes]
  }

  function Sent(n: NodeTotals, r: EdgeRow): NodeTotals {
    n.(zones := AddZone(n.zones, r.srcZone, r.bytes), bytesOut := n.bytesOut + r.bytes, costOut := n.costOut + r.cost)
  }

  function Received(n: NodeTotals, r: EdgeRow): NodeTotals {
    n.(zones := AddZone(n.zones, r.dstZone, r.bytes), bytesIn := n.bytesIn + r.bytes, costIn := n.costIn + r.cost)
  }

  function Carried(e: EdgeTotals, r: EdgeRow): EdgeTotals {
    EdgeTotals(e.bytes + r.bytes, e.connections + r.connections, e.cost + r.cost,
               if r.trafficType == "" then e.byType
               else var s := StatOf(e.byType, r.trafficType);
                    e.byType[r.trafficType := EdgeStat(s.bytes + r.bytes, s.cost + r.cost)])
  }

  function RowAtNodes(nodes: map<NodeID, NodeTotals>, r: EdgeRow): map<NodeID, NodeTotals> {
    var sent := nodes[r.key.src := Sent(NodeOf(nodes, r.key.src), r)];
    sent[r.key.dst := Received(NodeOf(sent, r.key.dst), r)]
  }

  function RowOnEdges(edges: map<EdgeKey, EdgeTotals>, r: EdgeRow): map<EdgeKey, EdgeTotals> {
    edges[r.key := Carried(EdgeOf(edges, r.key), r)]
  }

  /** One observation folded into the graph. */
  function AddRow(g: Graph, r: EdgeRow): Graph {
    Graph(RowAtNodes(g.nodes, r), RowOnEdges(g.edges, r))
  }

  function Build(rows: seq<EdgeRow>): Graph {
    if rows == [] then EMPTY_GRAPH else AddRow(Build(rows[..|rows| - 1]), rows[|rows| - 1])
  }

  // ----- every byte and dollar is counted once at each end -----

  /** The node totals are the sums over incident edges. */
  ghost predicate NodesBalance(g: Graph) {
    && g.EdgesJoinNodes()
    && forall v :: v in g.nodes ==>
      NodeBalances(g, v, g.nodes[v])
  }

  ghost predicate NodeBalances(g: Graph, v: NodeID, n: NodeTotals) {
    && n.bytesOut as real == g.TotalBytes(g.Out(v)) && n.costOut == g.TotalCost(g.Out(v))
    && n.bytesIn as real == g.TotalBytes(g.In(v)) && n.costIn == g.TotalCost(g.In(v))
  }

  /** Over the edges at one end of node v, a row moves the byte and dollar sums
      exactly when v is that end of the row's edge. */
  lemma AddRowAtEnd(g: Graph, r: EdgeRow, s: set<EdgeKey>, hits: bool)
    requires s <= g.edges.Keys
    requires r.key in s ==> hits
    requires hits && r.key in g.edges ==> r.key in s
    ensures var h, t := AddRow(g, r), if hits then s + {r.key} else s;
            && h.TotalBytes(t) == g.TotalBytes(s) + (if hits then r.bytes as real else 0.0)
            && h.TotalCost(t) == g.TotalCost(s) + (if hits then r.cost else 0.0)
  {
    var h := AddRow(g, r);
    if hits {
      SumAdjust(s, r.key, k => g.Bytes(k), k => h.Bytes(k));
      SumAdjust(s, r.key, k => g.Cost(k), k => h.Cost(k));
    } else {
      Congruence(s, k => g.Bytes(k), k => h.Bytes(k));
      Congruence(s, k => g.Cost(k), k => h.Cost(k));
    }
  }

  lemma AddRowBalancesNode(g: Graph, r: EdgeRow, v: NodeID)
    requires NodeBalances(g, v, NodeOf(g.nodes, v))
    ensures NodeBalances(AddRow(g, r), v, At(NodeOf(g.nodes, v), r, v))
  {
    var h := AddRow(g, r);
    assert h.Out(v) == if r.key.src == v then g.Out(v) + {r.key} else g.Out(v);
    assert h.In(v) == if r.key.dst == v then g.In(v) + {r.key} else g.In(v);
    AddRowAtEnd(g, r, g.Out(v), r.key.src == v);
    AddRowAtEnd(g, r, g.In(v), r.key.dst == v);
  }

  lemma AddRowBalances(g: Graph, r: EdgeRow)
    requires NodesBalance(g)
    ensures NodesBalance(AddRow(g, r))
  {
    var h := AddRow(g, r);
    forall v | v in h.nodes ensures NodeBalances(h, v, h.nodes[v]) {
      AddRowAtNode(g, r, v);
      if v !in g.nodes { assert g.Out(v) == {} && g.In(v) == {}; }
      AddRowBalancesNode(g, r, v);
    }
  }

  /** What one row does to the totals of node v. */
  function At(n: NodeTotals, r: EdgeRow, v: NodeID): NodeTotals {
    var n1 := if r.key.src == v then Sent(n, r) else n;
    if r.key.dst == v then Received(n1, r) else n1
  }

  lemma AddRowAtNode(g: Graph, r: EdgeRow, v: NodeID)
    ensures NodeOf(AddRow(g, r).nodes, v) == At(NodeOf(g.nodes, v), r, v)
  {
  }

  lemma {:induction false} BuildBalances(rows: seq<EdgeRow>)
    ensures NodesBalance(Build(rows))
  {
    if rows != [] {
      BuildBalances(rows[..|rows| - 1]);
      AddRowBalances(Build(rows[..|rows| - 1]), rows[|rows| - 1]);
    }
  }

  function RowBytes(rows: seq<EdgeRow>): nat {
    if rows == [] then 0 else RowBytes(rows[..|rows| - 1]) + rows[|rows| - 1].bytes
  }

  function RowCost(rows: seq<EdgeRow>): real {
    if rows == [] then 0.0 else RowCost(rows[..|rows| - 1]) + rows[|rows| - 1].cost
  }

  /** Dollars of the rows whose traffic type crosses a zone. */
  function RowCrossZone(rows: seq<EdgeRow>): real {
    if rows == [] then 0.0
    else RowCrossZone(rows[..|rows| - 1]) +
         CrossZonePart(rows[|rows| - 1])
  }

  function CrossZonePart(r: EdgeRow): real {
    if r.trafficType in {"cross_az", "cross_region"} then r.cost else 0.0
  }

  lemma CarriedCrossZone(e: EdgeTotals, r: EdgeRow)
    ensures Carried(e, r).CrossZoneCost() == e.CrossZoneCost() + CrossZonePart(r)
  {
  }

  lemma AddRowCarries(g: Graph, r: EdgeRow)
    ensures var h := AddRow(g, r);
            && h.TotalBytes(h.edges.Keys) == g.TotalBytes(g.edges.Keys) + r.bytes as real
            && h.TotalCost(h.edges.Keys) == g.TotalCost(g.edges.Keys) + r.cost
  {
    AddRowAtEnd(g, r, g.edges.Keys, true);
    assert AddRow(g, r).edges.Keys == g.edges.Keys + {r.key};
  }

  lemma AddRowCarriesCrossZone(g: Graph, r: EdgeRow)
    ensures var h := AddRow(g, r);
            h.TotalCrossZone(h.edges.Keys) == g.TotalCrossZone(g.edges.Keys) + CrossZonePart(r)
  {
    var h := AddRow(g, r);
    assert h.edges.Keys == g.edges.Keys + {r.key};
    forall k | k in g.edges.Keys && k != r.key ensures g.CrossZones()(k) == h.CrossZones()(k) {
      assert g.CrossZone(k) == h.CrossZone(k);
    }
    SumAdjust(g.edges.Keys, r.key, g.CrossZones(), h.CrossZones());
    CarriedCrossZone(EdgeOf(g.edges, r.key), r);
    assert g.CrossZone(r.key) == EdgeOf(g.edges, r.key).CrossZoneCost();
    assert h.CrossZone(r.key) == Carried(EdgeOf(g.edges, r.key), r).CrossZoneCost();
  }

  /** What the rows carried is what the edges carry: bytes, dollars and zone-crossing dollars. */
  lemma {:induction false} EdgesCarryRows(rows: seq<EdgeRow>)
    ensures var g := Build(rows);
            && g.TotalBytes(g.edges.Keys) == RowBytes(rows) as real
            && g.TotalCost(g.edges.Keys) == RowCost(rows)
            && g.TotalCrossZone(g.edges.Keys) == RowCrossZone(rows)
  {
    if rows == [] {
      Empty((k: EdgeKey) => EMPTY_GRAPH.Bytes(k));
      Empty((k: EdgeKey) => EMPTY_GRAPH.Cost(k));
      Empty(EMPTY_GRAPH.CrossZones());
    } else {
      var init, last := rows[..|rows| - 1], rows[|rows| - 1];
      EdgesCarryRows(init);
      AddRowCarries(Build(init), last);
      AddRowCarriesCrossZone(Build(init), last);
    }
  }

  /** Summing an edge quantity node by node, over the edges with that node at
      one end, gives its sum over all edges. */
  lemma {:induction false} SumByEnd(vs: set<NodeID>, es: set<EdgeKey>, end: EdgeKey -> NodeID, f: EdgeKey -> real,
                                    part: NodeID -> real)
    requires forall k :: k in es ==> end(k) in vs
    requires forall v :: v in vs ==> part(v) == Sum((set k | k in es && end(k) == v), f)
    ensures Sum(vs, part) == Sum(es, f)
  {
    if vs == {} {
      assert es == {};
      Empty(f);
      Empty(part);
    } else {
      var v :| v in vs;
      var mine := set k | k in es && end(k) == v;
      var rest := es - mine;
      forall w | w in vs - {v} ensures part(w) == Sum((set k | k in rest && end(k) == w), f) {
        assert (set k | k in es && end(k) == w) == (set k | k in rest && end(k) == w);
      }
      SumByEnd(vs - {v}, rest, end, f, part);
      Pick(vs, v, part);
      Split(mine, rest, f);
      assert mine + rest == es;
    }
  }

  lemma SumByNode(g: Graph, f: EdgeKey -> real, outPart: NodeID -> real, inPart: NodeID -> real)
    requires g.EdgesJoinNodes()
    requires forall v :: v in g.nodes ==> outPart(v) == Sum(g.Out(v), f) && inPart(v) == Sum(g.In(v), f)
    ensures Sum(g.nodes.Keys, outPart) == Sum(g.edges.Keys, f)
    ensures Sum(g.nodes.Keys, inPart) == Sum(g.edges.Keys, f)
  {
    var src := (k: EdgeKey) => k.src;
    var dst := (k: EdgeKey) => k.dst;
    forall v | v in g.nodes
      ensures outPart(v) == Sum((set k | k in g.edges.Keys && src(k) == v), f)
      ensures inPart(v) == Sum((set k | k in g.edges.Keys && dst(k) == v), f)
    {
      assert (set k | k in g.edges.Keys && src(k) == v) == g.Out(v);
      assert (set k | k in g.edges.Keys && dst(k) == v) == g.In(v);
    }
    SumByEnd(g.nodes.Keys, g.edges.Keys, src, f, outPart);
    SumByEnd(g.nodes.Keys, g.edges.Keys, dst, f, inPart);
  }

  /** Total bytes out = total bytes in = bytes of the rows; the same for dollars. */
  lemma TrafficIsConserved(rows: seq<EdgeRow>)
    ensures var g := Build(rows);
            && Sum(g.nodes.Keys, v => NodeOf(g.nodes, v).bytesOut as real) == RowBytes(rows) as real
            && Sum(g.nodes.Keys, v => NodeOf(g.nodes, v).bytesIn as real) == RowBytes(rows) as real
            && Sum(g.nodes.Keys, v => NodeOf(g.nodes, v).costOut) == RowCost(rows)
            && Sum(g.nodes.Keys, v => NodeOf(g.nodes, v).costIn) == RowCost(rows)
  {
    var g := Build(rows);
    BuildBalances(rows);
    EdgesCarryRows(rows);
    SumByNode(g, k => g.Bytes(k), v => NodeOf(g.nodes, v).bytesOut as real, v => NodeOf(g.nodes, v).bytesIn as real);
    SumByNode(g, k => g.Cost(k), v => NodeOf(g.nodes, v).costOut, v => NodeOf(g.nodes, v).costIn);
  }

  // ----- every node and edge is made of its own rows -----

  function BytesWhere(rows: seq<EdgeRow>, mine: EdgeRow -> bool): nat {
    if rows == [] then 0
    else BytesWhere(rows[..|rows| - 1], mine) + if mine(rows[|rows| - 1]) then rows[|rows| - 1].bytes else 0
  }

  function ConnectionsWhere(rows: seq<EdgeRow>, mine: EdgeRow -> bool): nat {
    if rows == [] then 0
    else ConnectionsWhere(rows[..|rows| - 1], mine) + if mine(rows[|rows| - 1]) then rows[|rows| - 1].connections else 0
  }

  function CostWhere(rows: seq<EdgeRow>, mine: EdgeRow -> bool): real {
    if rows == [] then 0.0
    else CostWhere(rows[..|rows| - 1], mine) + if mine(rows[|rows| - 1]) then rows[|rows| - 1].cost else 0.0
  }

  /** An edge holds the bytes, connections and dollars of exactly the rows that name its
      ends, in all and by named traffic type. */
  lemma {:induction false} EdgesAreTheirRows(rows: seq<EdgeRow>, k: EdgeKey, t: string)
    requires t != ""
    ensures var e := EdgeOf(Build(rows).edges, k);
            var onEdge, ofType := (r: EdgeRow) => r.key == k, (r: EdgeRow) => r.key == k && r.trafficType == t;
            && e.bytes == BytesWhere(rows, onEdge) && e.connections == ConnectionsWhere(rows, onEdge)
            && e.cost == CostWhere(rows, onEdge)
            && StatOf(e.byType, t) == EdgeStat(BytesWhere(rows, ofType), CostWhere(rows, ofType))
  {
    if rows != [] {
      var init, r := rows[..|rows| - 1], rows[|rows| - 1];
      EdgesAreTheirRows(init, k, t);
      assert EdgeOf(Build(rows).edges, k) == RowOn(EdgeOf(Build(init).edges, k), r, k);
      RowOnEdge(EdgeOf(Build(init).edges, k), r, k, t);
    }
  }

  function RowOn(e: EdgeTotals, r: EdgeRow, k: EdgeKey): EdgeTotals {
    if r.key == k then Carried(e, r) else e
  }

  lemma RowOnEdge(e: EdgeTotals, r: EdgeRow, k: EdgeKey, t: string)
    requires t != ""
    ensures var f := RowOn(e, r, k);
            && f.bytes == e.bytes + (if r.key == k then r.bytes else 0)
            && f.connections == e.connections + (if r.key == k then r.connections else 0)
            && f.cost == e.cost + (if r.key == k then r.cost else 0.0)
            && StatOf(f.byType, t).bytes == StatOf(e.byType, t).bytes + (if r.key == k && r.trafficType == t then r.bytes else 0)
            && StatOf(f.byType, t).cost == StatOf(e.byType, t).cost + (if r.key == k && r.trafficType == t then r.cost else 0.0)
  {
  }

  /** An edge is there exactly when some row names its ends, and carries named types only. */
  lemma {:induction false} EdgesComeFromRows(rows: seq<EdgeRow>, k: EdgeKey)
    ensures k in Build(rows).edges <==> exists i :: 0 <= i < |rows| && rows[i].key == k
    ensures "" !in EdgeOf(Build(rows).edges, k).byType
  {
    if rows != [] {
      var n := |rows| - 1;
      EdgesComeFromRows(rows[..n], k);
      if i :| 0 <= i < |rows| && rows[i].key == k {
        if i < n { assert rows[..n][i].key == k; }
      }
    }
  }

  function ZoneBytes(n: NodeTotals, z: string): nat {
    if z in n.zones then n.zones[z] else 0
  }

  /** A node holds the bytes and dollars of the rows that leave it and of those that
      reach it, and per named zone the bytes its end was seen with in that zone. */
  lemma {:induction false} NodesAreTheirRows(rows: seq<EdgeRow>, v: NodeID, z: string)
    requires z != ""
    ensures var n := NodeOf(Build(rows).nodes, v);
            var out, into := (r: EdgeRow) => r.key.src == v, (r: EdgeRow) => r.key.dst == v;
            && n.bytesOut == BytesWhere(rows, out) && n.costOut == CostWhere(rows, out)
            && n.bytesIn == BytesWhere(rows, into) && n.costIn == CostWhere(rows, into)
            && ZoneBytes(n, z) == BytesWhere(rows, (r: EdgeRow) => r.key.src == v && r.srcZone == z) +
                                  BytesWhere(rows, (r: EdgeRow) => r.key.dst == v && r.dstZone == z)
            && "" !in n.zones
  {
    if rows != [] {
      NodesAreTheirRows(rows[..|rows| - 1], v, z);
      RowAtNode(NodeOf(Build(rows[..|rows| - 1]).nodes, v), rows[|rows| - 1], v, z);
    }
  }

  lemma RowAtNode(n: NodeTotals, r: EdgeRow, v: NodeID, z: string)
    requires z != ""
    ensures var s := if r.key.src == v then Sent(n, r) else n;
            var t := if r.key.dst == v then Received(s, r) else s;
            ZoneBytes(t, z) == ZoneBytes(n, z) + (if r.key.src == v && r.srcZone == z then r.bytes else 0) +
                               (if r.key.dst == v && r.dstZone == z then r.bytes else 0)
  {
  }

  // ----- the order of the rows does not matter -----

  lemma ZonesCommute(z: map<string, nat>, a: string, m: nat, b: string, n: nat)
    ensures AddZone(AddZone(z, a, m), b, n) == AddZone(AddZone(z, b, n), a, m)
  {
  }

  lemma CarriedCommutes(e: EdgeTotals, a: EdgeRow, b: EdgeRow)
    ensures Carried(Carried(e, a), b) == Carried(Carried(e, b), a)
  {
    var x, y := Carried(Carried(e, a), b).byType, Carried(Carried(e, b), a).byType;
    assert x.Keys == y.Keys;
    forall t | t in x ensures x[t] == y[t] {}
  }

  lemma SentCommutes(n: NodeTotals, a: EdgeRow, b: EdgeRow)
    ensures Sent(Sent(n, a), b) == Sent(Sent(n, b), a)
    ensures Sent(Received(n, a), b) == Received(Sent(n, b), a)
    ensures Received(Received(n, a), b) == Received(Received(n, b), a)
  {
    ZonesCommute(n.zones, a.srcZone, a.bytes, b.srcZone, b.bytes);
    ZonesCommute(n.zones, a.dstZone, a.bytes, b.srcZone, b.bytes);
    ZonesCommute(n.zones, a.dstZone, a.bytes, b.dstZone, b.bytes);
  }

  lemma AtCommutes(n: NodeTotals, a: EdgeRow, b: EdgeRow, v: NodeID)
    ensures At(At(n, a, v), b, v) == At(At(n, b, v), a, v)
  {
    var sa := if a.key.src == v then Sent(n, a) else n;
    var sb := if b.key.src == v then Sent(n, b) else n;
    SentCommutes(n, a, b);
    SentCommutes(n, b, a);
    SentCommutes(sa, a, b);
    SentCommutes(sb, b, a);
    SentCommutes(if b.key.src == v then Sent(sa, b) else sa, a, b);
  }

  lemma EdgesCommute(es: map<EdgeKey, EdgeTotals>, a: EdgeRow, b: EdgeRow)
    ensures RowOnEdges(RowOnEdges(es, a), b) == RowOnEdges(RowOnEdges(es, b), a)
  {
    CarriedCommutes(EdgeOf(es, a.key), a, b);
  }

  /** `after` is `before` with one row folded into its two nodes. */
  ghost predicate NodesAfter(before: map<NodeID, NodeTotals>, r: EdgeRow, after: map<NodeID, NodeTotals>) {
    && after.Keys == before.Keys + {r.key.src, r.key.dst}
    && forall v :: NodeOf(after, v) == At(NodeOf(before, v), r, v)
  }

  lemma AddRowNodes(g: Graph, r: EdgeRow)
    ensures NodesAfter(g.nodes, r, AddRow(g, r).nodes)
  {
    forall v ensures NodeOf(AddRow(g, r).nodes, v) == At(NodeOf(g.nodes, v), r, v) {
      AddRowAtNode(g, r, v);
    }
  }

  lemma NodesCommute(n: map<NodeID, NodeTotals>, a: EdgeRow, b: EdgeRow,
                     na: map<NodeID, NodeTotals>, nab: map<NodeID, NodeTotals>,
                     nb: map<NodeID, NodeTotals>, nba: map<NodeID, NodeTotals>)
    requires NodesAfter(n, a, na) && NodesAfter(na, b, nab)
    requires NodesAfter(n, b, nb) && NodesAfter(nb, a, nba)
    ensures nab == nba
  {
    forall v | v in nab ensures nab[v] == nba[v] {
      AtCommutes(NodeOf(n, v), a, b, v);
      assert NodeOf(nab, v) == At(NodeOf(na, v), b, v);
      assert NodeOf(nba, v) == At(NodeOf(nb, v), a, v);
    }
  }

  /** Two rows may be folded in either order. */
  lemma AddRowCommutes(g: Graph, a: EdgeRow, b: EdgeRow)
    ensures AddRow(AddRow(g, a), b) == AddRow(AddRow(g, b), a)
  {
    EdgesCommute(g.edges, a, b);
    var ga, gb := AddRow(g, a), AddRow(g, b);
    AddRowNodes(g, a);
    AddRowNodes(ga, b);
    AddRowNodes(g, b);
    AddRowNodes(gb, a);
    NodesCommute(g.nodes, a, b, ga.nodes, AddRow(ga, b).nodes, gb.nodes, AddRow(gb, a).nodes);
  }

  lemma BuildAppend(rows: seq<EdgeRow>, r: EdgeRow)
    ensures Build(rows + [r]) == AddRow(Build(rows), r)
  {
    assert (rows + [r])[..|rows|] == rows;
  }

  /** Any row may be taken as the last one. */
  lemma {:induction false} MoveToEnd(rows: seq<EdgeRow>, i: nat)
    requires i < |rows|
    ensures Build(rows) == AddRow(Build(rows[..i] + rows[i + 1..]), rows[i])
  {
    var n := |rows| - 1;
    var init, last := rows[..n], rows[n];
    assert Build(rows) == AddRow(Build(init), last);
    if i == n {
      assert rows[..i] + rows[i + 1..] == init;
    } else {
      var rest := init[..i] + init[i + 1..];
      assert rows[..i] + rows[i + 1..] == rest + [last];
      BuildAppend(rest, last);
      MoveToEnd(init, i);
      AddRowCommutes(Build(rest), rows[i], last);
    }
  }

  lemma RemovalsAgree(rows: seq<EdgeRow>, other: seq<EdgeRow>, i: nat)
    requires rows != [] && multiset(rows) == multiset(other)
    requires i < |other| && other[i] == rows[|rows| - 1]
    ensures multiset(rows[..|rows| - 1]) == multiset(other[..i] + other[i + 1..])
  {
    assert rows == rows[..|rows| - 1] + [rows[|rows| - 1]];
    assert other == other[..i] + ([other[i]] + other[i + 1..]);
    var x, y := multiset(rows[..|rows| - 1]), multiset(other[..i] + other[i + 1..]);
    assert multiset(rows) == x + multiset{other[i]};
    assert multiset(other) == y + multiset{other[i]};
    assert x == multiset(rows) - multiset{other[i]} && y == multiset(other) - multiset{other[i]};
  }

  /** The graph is determined by the multiset of rows. */
  lemma {:induction false} RowOrderIsIrrelevant(rows: seq<EdgeRow>, other: seq<EdgeRow>)
    requires multiset(rows) == multiset(other)
    ensures Build(rows) == Build(other)
    decreases |rows|
  {
    if rows == [] {
      assert |multiset(other)| == |other|;
    } else {
      var last := rows[|rows| - 1];
      assert last in multiset(rows);
      var i :| 0 <= i < |other| && other[i] == last;
      MoveToEnd(other, i);
      RemovalsAgree(rows, other, i);
      RowOrderIsIrrelevant(rows[..|rows| - 1], other[..i] + other[i + 1..]);
    }
  }

  // ----- chokepoints -----

  /** Zone-crossing dollars on the edges at one node: in-edges plus out-edges. */
  ghost function CrossZoneThrough(g: Graph, v: NodeID): real {
    g.TotalCrossZone(g.In(v)) + g.TotalCrossZone(g.Out(v))
  }

  /** Each edge shows up once at its source and once at its destination, so the
      chokepoint view counts every zone-crossing dollar exactly twice. */
  lemma ChokepointsCountEdgesTwice(g: Graph)
    requires g.EdgesJoinNodes()
    ensures Sum(g.nodes.Keys, v => CrossZoneThrough(g, v)) == 2.0 * g.TotalCrossZone(g.edges.Keys)
  {
    var outPart := (v: NodeID) => g.TotalCrossZone(g.Out(v));
    var inPart := (v: NodeID) => g.TotalCrossZone(g.In(v));
    SumByNode(g, g.CrossZones(), outPart, inPart);
    ThroughIsInPlusOut(g, inPart, outPart);
  }

  lemma ThroughIsInPlusOut(g: Graph, inPart: NodeID -> real, outPart: NodeID -> real)
    requires forall v :: inPart(v) == g.TotalCrossZone(g.In(v)) && outPart(v) == g.TotalCrossZone(g.Out(v))
    ensures Sum(g.nodes.Keys, v => CrossZoneThrough(g, v)) == Sum(g.nodes.Keys, inPart) + Sum(g.nodes.Keys, outPart)
  {
    forall v | v in g.nodes ensures CrossZoneThrough(g, v) == 1.0 * inPart(v) + outPart(v) {
    }
    Linear(g.nodes.Keys, 1.0, inPart, outPart, v => CrossZoneThrough(g, v));
  }
}
