/** The traffic classifier: the prefix tree, the topology sets it is rebuilt from,
    and the decision order. */
module Classifier {
  import opened Options
  import opened Traffic
  import opened Prefixes

  /** s with e before position j. */
  function Placed(s: seq<Entry>, e: Entry, j: nat): seq<Entry>
    requires j <= |s|
  {
    s[..j] + [e] + s[j..]
  }

  /** Swapping e with its left neighbour places it one position earlier. */
  lemma PlaceLeft(s: seq<Entry>, e: Entry, j: nat, rest: seq<Entry>)
    requires 0 < j <= |s|
    ensures var here, m := Placed(s, e, j) + rest, j - 1;
            && here[j] == e && here[m] == s[m]
            && here[j := s[m]][m := e] == Placed(s, e, m) + rest
            && (s[m].prefix.bits < e.prefix.bits ==> Insert(s[..j], e) + s[j..] == Insert(s[..m], e) + s[m..])
  {
    var m := j - 1;
    assert s[..j][..m] == s[..m] && s[m..] == [s[m]] + s[j..];
  }

  lemma {:induction false} SortedLength(s: seq<Entry>)
    ensures |SortedByLength(s)| == |s|
  {
    if s != [] {
      SortedLength(s[..|s| - 1]);
      InsertLength(SortedByLength(s[..|s| - 1]), s[|s| - 1]);
    }
  }

  lemma {:induction false} InsertLength(s: seq<Entry>, e: Entry)
    ensures |Insert(s, e)| == |s| + 1
  {
    if !(s == [] || s[|s| - 1].prefix.bits >= e.prefix.bits) { InsertLength(s[..|s| - 1], e); }
  }

  class PrefixTree {
    var entries: array<Entry>

    constructor ()
      ensures fresh(entries) && entries[..] == []
    {
      entries := new Entry[0];
    }

    /** Appends; the list moves to a new array. */
    method Add(prefix: Prefix, kind: TrafficType)
      modifies this
      ensures fresh(entries) && entries[..] == old(entries[..]) + [Entry(prefix, kind)]
    {
      var n := entries.Length;
      var before := entries;
      var grown := new Entry[n + 1](i requires 0 <= i <= n reads before =>
                                      if i < before.Length then before[i] else Entry(prefix, kind));
      entries := grown;
    }

    /** Insertion sort in place, longest prefix first. */
    method Build()
      modifies entries
      ensures entries[..] == SortedByLength(old(entries[..]))
    {
      ghost var was := entries[..];
      for i := 0 to entries.Length
        invariant entries[..] == SortedByLength(was[..i]) + was[i..]
      {
        assert was[..i + 1][..i] == was[..i];
        SortedLength(was[..i]);
        assert entries[..i] == SortedByLength(was[..i]) && entries[i..] == was[i..];
        assert entries[i] == entries[i..][0] && entries[i + 1..] == entries[i..][1..];
        SinkInto(i);
        assert was[i..][1..] == was[i + 1..];
      }
      assert was[..entries.Length] == was && was[entries.Length..] == [];
    }

    /** Moves entry i left past the shorter ones. */
    method SinkInto(i: nat)
      requires i < entries.Length
      modifies entries
      ensures entries[..] == Insert(old(entries[..i]), old(entries[i])) + old(entries[i + 1..])
    {
      ghost var s, e, rest := entries[..i], entries[i], entries[i + 1..];
      var j := i;
      assert s[..i] == s && s[i..] == [] && s + [] == s;
      while j > 0 && entries[j].prefix.bits > entries[j - 1].prefix.bits
        invariant 0 <= j <= i
        invariant entries[..] == Placed(s, e, j) + rest
        invariant Insert(s, e) == Insert(s[..j], e) + s[j..]
      {
        PlaceLeft(s, e, j, rest);
        ghost var here := entries[..];
        assert entries[j] == here[j] && entries[j - 1] == here[j - 1];
        entries[j], entries[j - 1] := entries[j - 1], entries[j];
        assert entries[..] == here[j := here[j - 1]][j - 1 := here[j]];
        j := j - 1;
      }
      assert entries[j] == entries[..][j] && (j > 0 ==> entries[j - 1] == entries[..][j - 1]);
    }

    /** The type of the first entry that contains the address. */
    method Lookup(a: Addr) returns (found: Option<TrafficType>)
      ensures found == KindOf(FirstMatch(entries[..], a))
    {
      var i := 0;
      while i < entries.Length
        invariant 0 <= i <= entries.Length
        invariant FirstMatch(entries[i..], a) == FirstMatch(entries[..], a)
      {
        if entries[i].prefix.Contains(a) {
          return Some(entries[i].kind);
        }
        assert entries[i..][1..] == entries[i + 1..];
        i := i + 1;
      }
      found := None;
    }
  }

  function KindOf(e: Option<Entry>): Option<TrafficType> {
    if e.Some? then Some(e.value.kind) else None
  }

  // ----- the decisions -----

  /** What the classifier has been told: the three topology sets in their own order,
      the cluster's own ranges, the NAT gateways, and the default route. */
  datatype Known = Known(peering: seq<Prefix>, transit: seq<Prefix>, endpoint: seq<Prefix>,
                         clusters: seq<Prefix>, nats: set<Addr>, viaNat: bool)

  datatype FlowInfo = FlowInfo(srcIP: nat, dstIP: nat, intraNode: bool, isSidecar: bool)

  datatype Result = Result(kind: TrafficType, srcZone: string, dstZone: string)

  function Tag(ps: seq<Prefix>, kind: TrafficType): seq<Entry> {
    if ps == [] then [] else Tag(ps[..|ps| - 1], kind) + [Entry(ps[|ps| - 1], kind)]
  }

  function Tagged(k: Known): seq<Entry> {
    Tag(k.peering, VPCPeering) + Tag(k.transit, TransitGateway) + Tag(k.endpoint, VPCEndpoint)
  }

  function PrefixKind(k: Known, a: Addr): Option<TrafficType> {
    KindOf(Longest(Tagged(k), a))
  }

  const LOOPBACK := Prefix(V4(0x7F000000), 8)
  const LINK_LOCAL := Prefix(V4(0xA9FE0000), 16)
  const PRIVATE_10 := Prefix(V4(0x0A000000), 8)
  const PRIVATE_172 := Prefix(V4(0xAC100000), 12)
  const PRIVATE_192 := Prefix(V4(0xC0A80000), 16)

  predicate IsPrivate(a: Addr) {
    PRIVATE_10.Contains(a) || PRIVATE_172.Contains(a) || PRIVATE_192.Contains(a) || LOOPBACK.Contains(a) || LINK_LOCAL.Contains(a)
  }

  predicate InSome(ps: seq<Prefix>, a: Addr) {
    exists i :: 0 <= i < |ps| && ps[i].Contains(a)
  }

  /** The region part of a zone name: up to the last dash, unless the name ends in a
      digit and one letter, which is then dropped. */
  function RegionFromZone(zone: string): string {
    if EndsInZoneLetter(zone) then zone[..|zone| - 1] else BeforeDash(zone, |zone|)
  }

  predicate EndsInZoneLetter(zone: string) {
    |zone| > 1 && 'a' <= zone[|zone| - 1] <= 'z' && '0' <= zone[|zone| - 2] <= '9'
  }

  /** The part of the name before the last dash among its first n characters. */
  function BeforeDash(zone: string, n: nat): string
    requires n <= |zone|
  {
    if n == 0 then zone
    else if zone[n - 1] != '-' then BeforeDash(zone, n - 1)
    else if n > 1 then zone[..n - 1]
    else zone
  }

  function Internal(zone: Addr -> string, f: FlowInfo): Result {
    var src, dst := zone(V4(f.srcIP)), zone(V4(f.dstIP));
    var kind := if src == "" || dst == "" then Unknown
                else if src == dst then SameZone
                else if RegionFromZone(src) == RegionFromZone(dst) then CrossAZ
                else CrossRegion;
    Result(kind, src, dst)
  }

  function Decided(k: Known, zone: Addr -> string, f: FlowInfo): Result {
    var dst := V4(f.dstIP);
    if f.isSidecar then Result(ServiceMeshInternal, "", "")
    else if f.intraNode || LOOPBACK.Contains(dst) then Result(IntraNode, "", "")
    else if InSome(k.clusters, dst) then Internal(zone, f)
    else if IsPrivate(dst) then
      if dst in k.nats then Result(NATGatewayEgress, "", "")
      else if PrefixKind(k, dst).Some? then Result(PrefixKind(k, dst).value, "", "")
      else Internal(zone, f)
    else if PrefixKind(k, dst).Some? then Result(PrefixKind(k, dst).value, "", "")
    else Result(if k.viaNat then NATGatewayEgress else InternetEgress, "", "")
  }

  /** Invalid prefixes are dropped when a set is taken over. */
  function ValidOnes(ps: seq<Prefix>): seq<Prefix> {
    if ps == [] then []
    else
      var init, last := ValidOnes(ps[..|ps| - 1]), ps[|ps| - 1];
      if last.IsValid() then init + [last] else init
  }

  /** The cluster set also drops duplicates. */
  function Distinct(ps: seq<Prefix>): seq<Prefix> {
    if ps == [] then []
    else
      var init, last := Distinct(ps[..|ps| - 1]), ps[|ps| - 1];
      if last.IsValid() && last !in init then init + [last] else init
  }

  class Classifier {
    var peering: seq<Prefix>
    var transit: seq<Prefix>
    var endpoint: seq<Prefix>
    var clusters: seq<Prefix>
    var nats: set<Addr>
    var viaNat: bool
    var tree: PrefixTree

    ghost function View(): Known
      reads this
    {
      Known(peering, transit, endpoint, clusters, nats, viaNat)
    }

    /** The tree holds exactly the latest topology sets, sorted. */
    ghost predicate Valid()
      reads this, tree, tree.entries
    {
      tree.entries[..] == SortedByLength(Tagged(View()))
    }

    constructor ()
      ensures Valid() && View() == Known([], [], [], [], {}, false) && fresh(tree) && fresh(tree.entries)
    {
      peering, transit, endpoint, clusters, nats, viaNat := [], [], [], [], {}, false;
      tree := new PrefixTree();
      new;
      assert Tagged(View()) == [];
    }

    static method AddAll(t: PrefixTree, ps: seq<Prefix>, kind: TrafficType)
      modifies t
      ensures t.entries[..] == old(t.entries[..]) + Tag(ps, kind)
      ensures fresh(t.entries) || t.entries == old(t.entries)
    {
      for i := 0 to |ps|
        invariant t.entries[..] == old(t.entries[..]) + Tag(ps[..i], kind)
        invariant fresh(t.entries) || t.entries == old(t.entries)
      {
        assert ps[..i + 1][..i] == ps[..i];
        t.Add(ps[i], kind);
      }
      assert ps[..|ps|] == ps;
    }

    method Rebuild()
      modifies `tree
      ensures Valid() && fresh(tree) && fresh(tree.entries)
    {
      var t := new PrefixTree();
      AddAll(t, peering, VPCPeering);
      AddAll(t, transit, TransitGateway);
      AddAll(t, endpoint, VPCEndpoint);
      assert t.entries[..] == Tagged(View());
      t.Build();
      tree := t;
    }

    static method CloneValid(ps: seq<Prefix>) returns (valid: seq<Prefix>)
      ensures valid == ValidOnes(ps)
    {
      valid := [];
      for i := 0 to |ps|
        invariant valid == ValidOnes(ps[..i])
      {
        assert ps[..i + 1][..i] == ps[..i];
        if ps[i].IsValid() {
          valid := valid + [ps[i]];
        }
      }
      assert ps[..|ps|] == ps;
    }

    method SetVPCPeeringCIDRs(ps: seq<Prefix>)
      modifies this
      ensures Valid() && fresh(tree) && fresh(tree.entries) && View() == old(View()).(peering := ValidOnes(ps))
    {
      peering := CloneValid(ps);
      Rebuild();
    }

    method SetTransitGatewayCIDRs(ps: seq<Prefix>)
      modifies this
      ensures Valid() && fresh(tree) && fresh(tree.entries) && View() == old(View()).(transit := ValidOnes(ps))
    {
      transit := CloneValid(ps);
      Rebuild();
    }

    method SetVPCEndpointCIDRs(ps: seq<Prefix>)
      modifies this
      ensures Valid() && fresh(tree) && fresh(tree.entries) && View() == old(View()).(endpoint := ValidOnes(ps))
    {
      endpoint := CloneValid(ps);
      Rebuild();
    }

    method SetClusterCIDRs(ps: seq<Prefix>)
      requires Valid()
      modifies `clusters
      ensures Valid() && View() == old(View()).(clusters := Distinct(ps))
    {
      var out := [];
      for i := 0 to |ps|
        invariant out == Distinct(ps[..i])
      {
        assert ps[..i + 1][..i] == ps[..i];
        if ps[i].IsValid() && ps[i] !in out {
          out := out + [ps[i]];
        }
      }
      assert ps[..|ps|] == ps;
      clusters := out;
    }

    method SetNATGatewayIPs(ips: set<Addr>)
      requires Valid()
      modifies `nats
      ensures Valid() && View() == old(View()).(nats := ips)
    {
      nats := ips;
    }

    method SetDefaultRouteNAT(via: bool)
      requires Valid()
      modifies `viaNat
      ensures Valid() && View() == old(View()).(viaNat := via)
    {
      viaNat := via;
    }

    method LookupPrefix(a: Addr) returns (found: Option<TrafficType>)
      requires Valid()
      ensures found == PrefixKind(View(), a)
    {
      found := tree.Lookup(a);
      SortedFindsLongest(Tagged(View()), a);
    }

    method IsClusterInternal(a: Addr) returns (inside: bool)
      ensures inside == InSome(clusters, a)
    {
      for i := 0 to |clusters|
        invariant forall j :: 0 <= j < i ==> !clusters[j].Contains(a)
      {
        if clusters[i].Contains(a) { return true; }
      }
      inside := false;
    }

    method Classify(f: FlowInfo, zone: Addr -> string) returns (r: Result)
      requires Valid()
      ensures r == Decided(View(), zone, f)
    {
      var dst := V4(f.dstIP);
      if f.isSidecar {
        return Result(ServiceMeshInternal, "", "");
      }
      if f.intraNode || LOOPBACK.Contains(dst) {
        return Result(IntraNode, "", "");
      }
      var internal := IsClusterInternal(dst);
      if internal {
        return Internal(zone, f);
      }
      var found := LookupPrefix(dst);
      if IsPrivate(dst) {
        if dst in nats {
          return Result(NATGatewayEgress, "", "");
        }
        if found.Some? {
          return Result(found.value, "", "");
        }
        return Internal(zone, f);
      }
      if found.Some? {
        return Result(found.value, "", "");
      }
      r := Result(if viaNat then NATGatewayEgress else InternetEgress, "", "");
    }
  }
}
