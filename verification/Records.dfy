/** The mutable records of the service graph and the adjacency lists over them. */
module Records {
  import opened Sums
  import opened Rollup

  class Node {
    const id: NodeID
    var zones: map<string, nat>
    var bytesIn: nat
    var bytesOut: nat
    var costIn: real
    var costOut: real

    constructor (id: NodeID)
      ensures this.id == id && Totals() == EMPTY_NODE
    {
      this.id := id;
      zones, bytesIn, bytesOut, costIn, costOut := map[], 0, 0, 0.0, 0.0;
    }

    ghost function Totals(): NodeTotals
      reads this
    {
      NodeTotals(zones, bytesIn, bytesOut, costIn, costOut)
    }

    method Send(r: EdgeRow)
      modifies this
      ensures Totals() == Sent(old(Totals()), r)
    {
      bytesOut := bytesOut + r.bytes;
      costOut := costOut + r.cost;
      if r.srcZone != "" {
        zones := zones[r.srcZone := (if r.srcZone in zones then zones[r.srcZone] else 0) + r.bytes];
      }
    }

    method Receive(r: EdgeRow)
      modifies this
      ensures Totals() == Received(old(Totals()), r)
    {
      bytesIn := bytesIn + r.bytes;
      costIn := costIn + r.cost;
      if r.dstZone != "" {
        zones := zones[r.dstZone := (if r.dstZone in zones then zones[r.dstZone] else 0) + r.bytes];
      }
    }
  }

  class Edge {
    const key: EdgeKey
    var bytes: nat
    var connections: nat
    var cost: real
    var byType: map<string, EdgeStat>

    constructor (key: EdgeKey)
      ensures this.key == key && Totals() == EMPTY_EDGE
    {
      this.key := key;
      bytes, connections, cost, byType := 0, 0, 0.0, map[];
    }

    ghost function Totals(): EdgeTotals
      reads this
    {
      EdgeTotals(bytes, connections, cost, byType)
    }

    method Carry(r: EdgeRow)
      modifies this
      ensures Totals() == Carried(old(Totals()), r)
    {
      bytes := bytes + r.bytes;
      connections := connections + r.connections;
      cost := cost + r.cost;
      if r.trafficType != "" {
        var s := StatOf(byType, r.trafficType);
        byType := byType[r.trafficType := EdgeStat(s.bytes + r.bytes, s.cost + r.cost)];
      }
    }

    /** Walks the per-type slices in any order and adds up the charged ones. */
    method CrossZoneCost() returns (c: real)
      ensures c == Totals().CrossZoneCost()
    {
      c := 0.0;
      var todo := byType.Keys;
      while todo != {}
        invariant todo <= byType.Keys
        invariant c == (if "cross_az" in todo then 0.0 else StatOf(byType, "cross_az").cost)
                     + (if "cross_region" in todo then 0.0 else StatOf(byType, "cross_region").cost)
      {
        var t :| t in todo;
        if t in {"cross_az", "cross_region"} {
          c := c + byType[t].cost;
        }
        todo := todo - {t};
      }
    }
  }

  function EdgesAt(lists: map<NodeID, seq<Edge>>, id: NodeID): seq<Edge> {
    if id in lists then lists[id] else []
  }

  /** The list holds exactly the edges with these keys, each once. */
  ghost predicate Lists(l: seq<Edge>, edges: map<EdgeKey, Edge>, keys: set<EdgeKey>) {
    && (forall i :: 0 <= i < |l| ==> l[i].key in keys && l[i].key in edges && edges[l[i].key] == l[i])
    && (forall i, j :: 0 <= i < j < |l| ==> l[i].key != l[j].key)
    && (forall k :: k in keys ==> exists i :: 0 <= i < |l| && l[i].key == k)
  }

  ghost function OutKeys(edges: map<EdgeKey, Edge>, id: NodeID): set<EdgeKey> {
    set k | k in edges && k.src == id
  }

  ghost function InKeys(edges: map<EdgeKey, Edge>, id: NodeID): set<EdgeKey> {
    set k | k in edges && k.dst == id
  }

  /** The out-list of every node holds exactly the edges leaving it, each once. */
  ghost predicate OutListed(outs: map<NodeID, seq<Edge>>, edges: map<EdgeKey, Edge>) {
    forall id :: Lists(EdgesAt(outs, id), edges, OutKeys(edges, id))
  }

  ghost predicate InListed(ins: map<NodeID, seq<Edge>>, edges: map<EdgeKey, Edge>) {
    forall id :: Lists(EdgesAt(ins, id), edges, InKeys(edges, id))
  }

  lemma ListsGrow(l: seq<Edge>, edges: map<EdgeKey, Edge>, keys: set<EdgeKey>, e: Edge)
    requires Lists(l, edges, keys) && e.key !in edges
    ensures Lists(l + [e], edges[e.key := e], keys + {e.key})
  {
    var m := l + [e];
    forall k | k in keys + {e.key} ensures exists i :: 0 <= i < |m| && m[i].key == k {
      if k == e.key {
        assert m[|l|].key == k;
      } else {
        var i :| 0 <= i < |l| && l[i].key == k;
        assert m[i].key == k;
      }
    }
  }

  lemma OutListedKeeps(outs: map<NodeID, seq<Edge>>, edges: map<EdgeKey, Edge>, e: Edge)
    requires OutListed(outs, edges) && e.key !in edges
    ensures OutListed(outs[e.key.src := EdgesAt(outs, e.key.src) + [e]], edges[e.key := e])
  {
    var outs', edges' := outs[e.key.src := EdgesAt(outs, e.key.src) + [e]], edges[e.key := e];
    forall id ensures Lists(EdgesAt(outs', id), edges', OutKeys(edges', id)) {
      assert Lists(EdgesAt(outs, id), edges, OutKeys(edges, id));
      if id == e.key.src {
        assert OutKeys(edges', id) == OutKeys(edges, id) + {e.key};
        ListsGrow(EdgesAt(outs, id), edges, OutKeys(edges, id), e);
      } else {
        assert OutKeys(edges', id) == OutKeys(edges, id);
      }
    }
  }

  lemma InListedKeeps(ins: map<NodeID, seq<Edge>>, edges: map<EdgeKey, Edge>, e: Edge)
    requires InListed(ins, edges) && e.key !in edges
    ensures InListed(ins[e.key.dst := EdgesAt(ins, e.key.dst) + [e]], edges[e.key := e])
  {
    var ins', edges' := ins[e.key.dst := EdgesAt(ins, e.key.dst) + [e]], edges[e.key := e];
    forall id ensures Lists(EdgesAt(ins', id), edges', InKeys(edges', id)) {
      assert Lists(EdgesAt(ins, id), edges, InKeys(edges, id));
      if id == e.key.dst {
        assert InKeys(edges', id) == InKeys(edges, id) + {e.key};
        ListsGrow(EdgesAt(ins, id), edges, InKeys(edges, id), e);
      } else {
        assert InKeys(edges', id) == InKeys(edges, id);
      }
    }
  }

  // ----- adding up along a list -----

  ghost function SumList(l: seq<Edge>, f: EdgeKey -> real): real {
    if l == [] then 0.0 else SumList(l[..|l| - 1], f) + f(l[|l| - 1].key)
  }

  lemma SumListStep(l: seq<Edge>, i: nat, f: EdgeKey -> real)
    requires i < |l|
    ensures SumList(l[..i + 1], f) == SumList(l[..i], f) + f(l[i].key)
  {
    assert l[..i + 1][..i] == l[..i];
  }

  ghost function KeysOf(l: seq<Edge>): set<EdgeKey> {
    set e | e in l :: e.key
  }

  lemma {:induction false} SumListIsSum(l: seq<Edge>, f: EdgeKey -> real)
    requires forall i, j :: 0 <= i < j < |l| ==> l[i].key != l[j].key
    ensures SumList(l, f) == Sum(KeysOf(l), f) && |l| == |KeysOf(l)|
  {
    if l == [] {
      Empty(f);
    } else {
      var n := |l| - 1;
      var init, last := l[..n], l[n];
      SumListIsSum(init, f);
      assert l == init + [last];
      assert KeysOf(l) == KeysOf(init) + {last.key};
      assert last.key !in KeysOf(init);
      assert KeysOf(l) - {last.key} == KeysOf(init);
      Pick(KeysOf(l), last.key, f);
    }
  }

  /** Adding along an adjacency list is adding over the edges it stands for. */
  lemma ListedSum(l: seq<Edge>, edges: map<EdgeKey, Edge>, keys: set<EdgeKey>, f: EdgeKey -> real)
    requires Lists(l, edges, keys)
    ensures SumList(l, f) == Sum(keys, f) && |l| == |keys|
  {
    assert KeysOf(l) == keys;
    SumListIsSum(l, f);
  }
}
