/** Three-colour depth-first search over the out-lists: it answers true exactly
    when the graph has a cycle, self-loops included. */
module CycleSearch {
  import opened Rollup
  import opened Responsibility
  import opened Records

  /** White nodes are the ones without a colour. */
  datatype Color = Gray | Black

  /** The out-list of every node names the ends of the edges leaving it. */
  ghost predicate ListsEdges(g: Graph, outs: map<NodeID, seq<Edge>>) {
    && (forall k :: k in g.edges ==> exists e :: e in EdgesAt(outs, k.src) && e.key == k)
    && forall n, e :: e in EdgesAt(outs, n) ==> e.key in g.edges && e.key.src == n
  }

  /** Every finished node finished after all its successors. */
  ghost predicate Finished(g: Graph, done: seq<NodeID>) {
    forall i :: 0 <= i < |done| ==> SuccessorsIn(g, done[i], done[..i])
  }

  ghost predicate SuccessorsIn(g: Graph, n: NodeID, done: seq<NodeID>) {
    forall k :: k in g.edges && k.src == n ==> k.dst in done
  }

  lemma FinishOne(g: Graph, done: seq<NodeID>, n: NodeID)
    requires Finished(g, done) && SuccessorsIn(g, n, done)
    ensures Finished(g, done + [n])
  {
    var more := done + [n];
    forall i | 0 <= i < |more| ensures SuccessorsIn(g, more[i], more[..i]) {
      assert more[..i] == done[..i];
      if i < |done| { assert SuccessorsIn(g, done[i], done[..i]); } else { assert done[..i] == done; }
    }
  }

  /** Along a walk the finishing position only falls. */
  lemma {:induction false} WalkDescends(g: Graph, done: seq<NodeID>, p: seq<NodeID>, i: nat) returns (j: nat)
    requires Finished(g, done) && Walk(g, p)
    requires i < |done| && p[0] == done[i]
    ensures j <= i && p[|p| - 1] == done[j] && (|p| >= 2 ==> j < i)
  {
    if |p| == 1 {
      j := i;
    } else {
      assert SuccessorsIn(g, done[i], done[..i]) && EdgeKey(p[0], p[1]) in g.edges;
      var m :| 0 <= m < i && done[..i][m] == p[1];
      j := WalkDescends(g, done, p[1..], m);
    }
  }

  lemma FinishedIsAcyclic(g: Graph, done: seq<NodeID>)
    requires Finished(g, done)
    requires forall v :: v in g.nodes ==> v in done
    requires forall i, j :: 0 <= i < j < |done| ==> done[i] != done[j]
    ensures Acyclic(g)
  {
    forall p ensures !Cycle(g, p) {
      if Cycle(g, p) {
        var i :| 0 <= i < |done| && done[i] == p[0];
        var j := WalkDescends(g, done, p, i);
      }
    }
  }

  /** An edge from the end of a walk back into it closes a cycle. */
  lemma ClosesCycle(g: Graph, path: seq<NodeID>, v: NodeID)
    requires Walk(g, path) && v in path && EdgeKey(path[|path| - 1], v) in g.edges
    ensures !Acyclic(g)
  {
    var i :| 0 <= i < |path| && path[i] == v;
    assert Cycle(g, path[i..] + [v]);
  }

  /** `path` is the chain of calls in progress: the grey nodes, each reached from
      the one before it by an edge; `done` holds the black nodes as they finished. */
  ghost predicate Consistent(g: Graph, color: map<NodeID, Color>, done: seq<NodeID>, path: seq<NodeID>) {
    && (path == [] || Walk(g, path))
    && (forall v :: v in path <==> v in color && color[v] == Gray)
    && (forall v :: v in done <==> v in color && color[v] == Black)
    && (forall v :: v in color ==> v in g.nodes)
    && (forall i, j :: 0 <= i < j < |done| ==> done[i] != done[j])
    && (forall i, j :: 0 <= i < j < |path| ==> path[i] != path[j])
    && Finished(g, done)
  }

  /** Consistent as a function value, so that the methods do not unfold it. */
  ghost function Invariant(g: Graph): (map<NodeID, Color>, seq<NodeID>, seq<NodeID>) -> bool {
    (color, done, path) => Consistent(g, color, done, path)
  }

  lemma Enter(g: Graph, color: map<NodeID, Color>, done: seq<NodeID>, path: seq<NodeID>, n: NodeID)
    requires Invariant(g)(color, done, path) && n in g.nodes && n !in color
    requires path == [] || EdgeKey(path[|path| - 1], n) in g.edges
    ensures Invariant(g)(color[n := Gray], done, path + [n])
  {
    assert Consistent(g, color, done, path);
    assert Consistent(g, color[n := Gray], done, path + [n]);
  }

  lemma Leave(g: Graph, color: map<NodeID, Color>, done: seq<NodeID>, path: seq<NodeID>, n: NodeID)
    requires Invariant(g)(color, done, path + [n]) && SuccessorsIn(g, n, done)
    ensures Invariant(g)(color[n := Black], done + [n], path)
  {
    assert Consistent(g, color, done, path + [n]);
    var here := path + [n];
    assert here[|path|] == n && n in here && n !in done;
    assert forall v :: v in here <==> v in path || v == n;
    forall i | 0 <= i < |path| ensures path[i] == here[i] && path[i] != n {}
    FinishOne(g, done, n);
    if path != [] { assert Walk(g, path); }
    assert Consistent(g, color[n := Black], done + [n], path);
  }

  /** All these edges end at finished nodes. */
  ghost predicate EndsIn(l: seq<Edge>, done: seq<NodeID>) {
    forall e :: e in l ==> e.key.dst in done
  }

  lemma EndsGrow(l: seq<Edge>, e: Edge, done: seq<NodeID>, more: seq<NodeID>)
    requires EndsIn(l, done) && done <= more && e.key.dst in more
    ensures EndsIn(l + [e], more)
  {
    forall d | d in l ensures d.key.dst in more {
      var i :| 0 <= i < |done| && done[i] == d.key.dst;
      assert more[i] == d.key.dst;
    }
  }

  lemma ListFollowed(g: Graph, outs: map<NodeID, seq<Edge>>, n: NodeID, done: seq<NodeID>)
    requires ListsEdges(g, outs) && EndsIn(EdgesAt(outs, n), done)
    ensures SuccessorsIn(g, n, done)
  {
  }

  class CycleSearch {
    const outs: map<NodeID, seq<Edge>>
    var color: map<NodeID, Color>
    ghost const g: Graph
    /** The black nodes in the order they finished. */
    ghost var done: seq<NodeID>

    constructor (outs: map<NodeID, seq<Edge>>, ghost g: Graph)
      requires ListsEdges(g, outs) && g.EdgesJoinNodes()
      ensures this.g == g && this.outs == outs && color == map[] && Valid([])
    {
      this.outs, this.g, this.color, this.done := outs, g, map[], [];
      assert Consistent(g, map[], [], []);
    }

    ghost predicate Valid(path: seq<NodeID>)
      reads this
    {
      ListsEdges(g, outs) && g.EdgesJoinNodes() && Invariant(g)(color, done, path)
    }

    ghost function White(): set<NodeID>
      reads this
    {
      g.nodes.Keys - color.Keys
    }

    /** Nodes are coloured and finished for good. */
    twostate predicate Onward()
      reads this
    {
      White() <= old(White()) && old(done) <= done
    }

    /** Visits a white node reached from the end of `path`. */
    method Visit(n: NodeID, ghost path: seq<NodeID>) returns (found: bool)
      requires Valid(path) && n in g.nodes && n !in color
      requires path == [] || EdgeKey(path[|path| - 1], n) in g.edges
      modifies this
      ensures found ==> !Acyclic(g)
      ensures !found ==> Valid(path) && n in done && Onward()
      decreases White(), 1
    {
      Enter(g, color, done, path, n);
      color := color[n := Gray];
      assert n in old(White()) && n !in White();
      found := Follow(n, path + [n]);
      if !found {
        Leave(g, color, done, path, n);
        color := color[n := Black];
        done := done + [n];
      }
    }

    /** Looks along one edge, from the end of `path` to v. */
    method Look(v: NodeID, ghost path: seq<NodeID>) returns (found: bool)
      requires Valid(path) && path != [] && EdgeKey(path[|path| - 1], v) in g.edges
      modifies this
      ensures found ==> !Acyclic(g)
      ensures !found ==> Valid(path) && v in done && Onward()
      decreases White(), 2
    {
      assert Consistent(g, color, done, path);
      if v !in color {
        found := Visit(v, path);
      } else {
        found := color[v] == Gray;
        if found { ClosesCycle(g, path, v); }
      }
    }

    /** Follows every edge out of the grey node n, the end of `path`. */
    method Follow(n: NodeID, ghost path: seq<NodeID>) returns (found: bool)
      requires Valid(path) && path != [] && path[|path| - 1] == n
      modifies this
      ensures found ==> !Acyclic(g)
      ensures !found ==> Valid(path) && SuccessorsIn(g, n, done) && Onward()
      decreases White(), 3
    {
      var l := EdgesAt(outs, n);
      found := false;
      for i := 0 to |l|
        invariant Valid(path) && Onward() && EndsIn(l[..i], done)
      {
        assert l[i] in EdgesAt(outs, n);
        ghost var before := done;
        found := Look(l[i].key.dst, path);
        if found { return; }
        EndsGrow(l[..i], l[i], before, done);
        assert l[..i + 1] == l[..i] + [l[i]];
      }
      assert l[..|l|] == l;
      ListFollowed(g, outs, n, done);
    }

    /** Starts from every node that is still white, in any order. */
    method Search(nodes: set<NodeID>) returns (found: bool)
      requires Valid([]) && nodes == g.nodes.Keys
      modifies this
      ensures found <==> !Acyclic(g)
    {
      var todo := nodes;
      while todo != {}
        invariant Valid([])
        invariant forall v :: v in nodes ==> v in todo || v in done
      {
        var v :| v in todo;
        assert Consistent(g, color, done, []);
        if v !in color {
          found := Visit(v, []);
          if found { return; }
        }
        todo := todo - {v};
      }
      assert Consistent(g, color, done, []);
      FinishedIsAcyclic(g, done);
      found := false;
    }
  }
}
