/** Topology refresh: the guard that keeps local addresses out of the peering set,
    and what a run of refreshes means for classification. */
module Topology {
  import opened Options
  import opened Traffic
  import opened Prefixes
  import opened Classifier

  // ----- which category a lookup answers -----

  /** The longest of these prefixes that contains the address, or -1. */
  function BestLength(ps: seq<Prefix>, a: Addr): (best: int)
    ensures best >= -1
  {
    if ps == [] then -1
    else
      var best, last := BestLength(ps[..|ps| - 1], a), ps[|ps| - 1];
      if last.Contains(a) && last.bits > best then last.bits else best
  }

  lemma {:induction false} BestLengthIsMax(ps: seq<Prefix>, a: Addr)
    ensures forall p :: p in ps && p.Contains(a) ==> p.bits <= BestLength(ps, a)
    ensures BestLength(ps, a) >= 0 ==> exists p :: p in ps && p.Contains(a) && p.bits == BestLength(ps, a)
  {
    if ps != [] {
      BestLengthIsMax(ps[..|ps| - 1], a);
      assert ps == ps[..|ps| - 1] + [ps[|ps| - 1]];
      assert ps[|ps| - 1].Contains(a) ==> ps[|ps| - 1] in ps;
    }
  }

  lemma {:induction false} LongestAppends(s: seq<Entry>, t: seq<Entry>, a: Addr)
    ensures var x, y := Longest(s, a), Longest(t, a);
            Longest(s + t, a) == if y.Some? && (x.None? || y.value.prefix.bits > x.value.prefix.bits) then y else x
  {
    if t == [] {
      assert s + t == s;
    } else {
      LongestAppends(s, t[..|t| - 1], a);
      assert (s + t)[..|s + t| - 1] == s + t[..|t| - 1];
    }
  }

  lemma {:induction false} LongestOfTag(ps: seq<Prefix>, kind: TrafficType, a: Addr)
    ensures var m := Longest(Tag(ps, kind), a);
            if BestLength(ps, a) < 0 then m.None?
            else m.Some? && m.value.kind == kind && m.value.prefix.bits == BestLength(ps, a)
  {
    if ps != [] {
      LongestOfTag(ps[..|ps| - 1], kind, a);
      var tagged := Tag(ps, kind);
      assert tagged[..|tagged| - 1] == Tag(ps[..|ps| - 1], kind);
    }
  }

  /** The category whose longest match is longest; ties go to peering, then transit
      gateway, then endpoint. */
  function Preferred(peering: int, transit: int, endpoint: int): Option<TrafficType> {
    if peering >= 0 && peering >= transit && peering >= endpoint then Some(VPCPeering)
    else if transit >= 0 && transit >= endpoint then Some(TransitGateway)
    else if endpoint >= 0 then Some(VPCEndpoint)
    else None
  }

  lemma LookupPrefersLongest(k: Known, a: Addr)
    ensures PrefixKind(k, a) == Preferred(BestLength(k.peering, a), BestLength(k.transit, a), BestLength(k.endpoint, a))
  {
    var p, t, e := Tag(k.peering, VPCPeering), Tag(k.transit, TransitGateway), Tag(k.endpoint, VPCEndpoint);
    LongestOfTag(k.peering, VPCPeering, a);
    LongestOfTag(k.transit, TransitGateway, a);
    LongestOfTag(k.endpoint, VPCEndpoint, a);
    LongestAppends(p, t, a);
    LongestAppends(p + t, e, a);
  }

  // ----- runs of Set calls -----

  datatype SetCall = SetPeering(ps: seq<Prefix>) | SetTransit(ps: seq<Prefix>) | SetEndpoint(ps: seq<Prefix>)

  /** What the setters do to the topology sets; their contracts say the same. */
  function Called(k: Known, c: SetCall): Known {
    match c
    case SetPeering(ps) => k.(peering := ValidOnes(ps))
    case SetTransit(ps) => k.(transit := ValidOnes(ps))
    case SetEndpoint(ps) => k.(endpoint := ValidOnes(ps))
  }

  function AfterCalls(k: Known, calls: seq<SetCall>): Known {
    if calls == [] then k else Called(AfterCalls(k, calls[..|calls| - 1]), calls[|calls| - 1])
  }

  /** The argument of the latest call of a category, or what was there before. */
  function Latest(calls: seq<SetCall>, mine: SetCall -> bool, before: seq<Prefix>): seq<Prefix> {
    if calls == [] then before
    else if mine(calls[|calls| - 1]) then calls[|calls| - 1].ps
    else Latest(calls[..|calls| - 1], mine, before)
  }

  lemma {:induction false} ValidOnesMatchAlike(ps: seq<Prefix>, a: Addr)
    ensures BestLength(ValidOnes(ps), a) == BestLength(ps, a)
  {
    if ps != [] {
      ValidOnesMatchAlike(ps[..|ps| - 1], a);
      var valid := ValidOnes(ps);
      assert ps[|ps| - 1].IsValid() ==> valid[..|valid| - 1] == ValidOnes(ps[..|ps| - 1]);
    }
  }

  lemma {:induction false} CallsKeepLatest(k: Known, calls: seq<SetCall>, a: Addr)
    ensures var n := AfterCalls(k, calls);
            && BestLength(n.peering, a) == BestLength(Latest(calls, (c: SetCall) => c.SetPeering?, k.peering), a)
            && BestLength(n.transit, a) == BestLength(Latest(calls, (c: SetCall) => c.SetTransit?, k.transit), a)
            && BestLength(n.endpoint, a) == BestLength(Latest(calls, (c: SetCall) => c.SetEndpoint?, k.endpoint), a)
  {
    if calls != [] {
      CallsKeepLatest(k, calls[..|calls| - 1], a);
      ValidOnesMatchAlike(calls[|calls| - 1].ps, a);
    }
  }

  /** After any run of Set calls the lookup depends only on the latest set of each
      category: earlier sets leave no trace. */
  lemma OnlyLatestSetsCount(k: Known, calls: seq<SetCall>, a: Addr)
    ensures PrefixKind(AfterCalls(k, calls), a) ==
            Preferred(BestLength(Latest(calls, (c: SetCall) => c.SetPeering?, k.peering), a),
                      BestLength(Latest(calls, (c: SetCall) => c.SetTransit?, k.transit), a),
                      BestLength(Latest(calls, (c: SetCall) => c.SetEndpoint?, k.endpoint), a))
  {
    CallsKeepLatest(k, calls, a);
    LookupPrefersLongest(AfterCalls(k, calls), a);
  }

  // ----- the peering guard -----

  predicate OverlapsSome(p: Prefix, others: seq<Prefix>) {
    exists i :: 0 <= i < |others| && Overlap(p, others[i])
  }

  /** The first of the others that overlaps the prefix. */
  method OverlapsAny(p: Prefix, others: seq<Prefix>) returns (first: Option<Prefix>)
    ensures first.Some? <==> OverlapsSome(p, others)
    ensures first.Some? ==> first.value in others && Overlap(p, first.value)
  {
    for i := 0 to |others|
      invariant forall j :: 0 <= j < i ==> !Overlap(p, others[j])
    {
      if p.Contains(others[i].addr) || others[i].Contains(p.addr) {
        return Some(others[i]);
      }
    }
    first := None;
  }

  /** The peer ranges that do not overlap the local network, in order. */
  function Foreign(ps: seq<Prefix>, local: seq<Prefix>): seq<Prefix> {
    if ps == [] then []
    else
      var init, last := Foreign(ps[..|ps| - 1], local), ps[|ps| - 1];
      if OverlapsSome(last, local) then init else init + [last]
  }

  function AllForeign(peerings: seq<seq<Prefix>>, local: seq<Prefix>): seq<Prefix> {
    if peerings == [] then []
    else AllForeign(peerings[..|peerings| - 1], local) + Foreign(peerings[|peerings| - 1], local)
  }

  /** The refresh's nested loop: every peering's ranges, without the overlapping ones. */
  method KeepForeign(peerings: seq<seq<Prefix>>, local: seq<Prefix>) returns (cidrs: seq<Prefix>)
    ensures cidrs == AllForeign(peerings, local)
  {
    cidrs := [];
    for i := 0 to |peerings|
      invariant cidrs == AllForeign(peerings[..i], local)
    {
      assert peerings[..i + 1][..i] == peerings[..i];
      var ps := peerings[i];
      ghost var before := cidrs;
      for j := 0 to |ps|
        invariant cidrs == before + Foreign(ps[..j], local)
      {
        assert ps[..j + 1][..j] == ps[..j];
        var overlap := OverlapsAny(ps[j], local);
        if overlap.None? {
          cidrs := cidrs + [ps[j]];
        }
      }
      assert ps[..|ps|] == ps;
    }
    assert peerings[..|peerings|] == peerings;
  }

  /** A refresh; it changes nothing when the provider fails, and guards with an empty
      list when the local ranges are not known. */
  method RefreshVPCPeerings(c: Classifier, peerings: Option<seq<seq<Prefix>>>, known: Option<seq<Prefix>>)
    requires c.Valid()
    modifies c
    ensures c.Valid()
    ensures peerings.None? ==> c.View() == old(c.View())
    ensures peerings.Some? ==>
              c.View() == old(c.View()).(peering := ValidOnes(AllForeign(peerings.value, KnownOr(known))))
    ensures peerings.Some? && known.Some? ==>
              forall p, l, a: Addr :: p in c.View().peering && l in known.value && l.Contains(a) ==> !p.Contains(a)
    ensures peerings.Some? && known.None? ==>
              forall i, p :: 0 <= i < |peerings.value| && p in peerings.value[i] && p.IsValid() ==> p in c.View().peering
  {
    if peerings.Some? {
      var cidrs := KeepForeign(peerings.value, KnownOr(known));
      c.SetVPCPeeringCIDRs(cidrs);
      RefreshIsGuarded(peerings.value, KnownOr(known));
    }
  }

  /** The installed ranges share no address with a local one, and only the local ranges
      take any out. */
  lemma RefreshIsGuarded(peerings: seq<seq<Prefix>>, local: seq<Prefix>)
    ensures forall p, l, a: Addr ::
              p in ValidOnes(AllForeign(peerings, local)) && l in local && l.Contains(a) ==> !p.Contains(a)
    ensures local == [] ==> forall i, p :: 0 <= i < |peerings| && p in peerings[i] && p.IsValid() ==>
                                             p in ValidOnes(AllForeign(peerings, local))
  {
    forall p ensures p in ValidOnes(AllForeign(peerings, local)) <==>
                     (exists i :: 0 <= i < |peerings| && p in peerings[i]) && p.IsValid() && !OverlapsSome(p, local)
    {
      ValidOnesAre(AllForeign(peerings, local), p);
      AllForeignOnly(peerings, local, p);
    }
    forall p: Prefix, l: Prefix, a: Addr | p.IsValid() && !OverlapsSome(p, local) && l in local && l.Contains(a)
      ensures !p.Contains(a)
    {
      var j :| 0 <= j < |local| && local[j] == l;
      assert !Overlap(p, local[j]);
      OverlapIffShared(p, l);
    }
  }

  function KnownOr(known: Option<seq<Prefix>>): seq<Prefix> {
    if known.Some? then known.value else []
  }

  lemma {:induction false} ForeignOnly(ps: seq<Prefix>, local: seq<Prefix>)
    ensures forall p :: p in Foreign(ps, local) <==> p in ps && !OverlapsSome(p, local)
  {
    if ps != [] {
      ForeignOnly(ps[..|ps| - 1], local);
      assert ps == ps[..|ps| - 1] + [ps[|ps| - 1]];
    }
  }

  lemma {:induction false} AllForeignOnly(peerings: seq<seq<Prefix>>, local: seq<Prefix>, p: Prefix)
    ensures p in AllForeign(peerings, local) <==> (exists i :: 0 <= i < |peerings| && p in peerings[i]) && !OverlapsSome(p, local)
  {
    if peerings != [] {
      var n := |peerings| - 1;
      AllForeignOnly(peerings[..n], local, p);
      ForeignOnly(peerings[n], local);
      if i :| 0 <= i < |peerings| && p in peerings[i] {
        if i < n { assert peerings[..n][i] == peerings[i]; }
      }
    }
  }

  lemma {:induction false} ValidOnesAre(ps: seq<Prefix>, p: Prefix)
    ensures p in ValidOnes(ps) <==> p in ps && p.IsValid()
  {
    if ps != [] {
      ValidOnesAre(ps[..|ps| - 1], p);
      assert ps == ps[..|ps| - 1] + [ps[|ps| - 1]];
    }
  }

  /** After a refresh that knew a local range, no address inside it is classified as
      VPC peering. */
  lemma LocalIsNeverPeering(k: Known, peerings: seq<seq<Prefix>>, local: seq<Prefix>, l: Prefix, f: FlowInfo,
                            zone: Addr -> string)
    requires k.peering == ValidOnes(AllForeign(peerings, local))
    requires l in local && l.Contains(V4(f.dstIP))
    ensures Decided(k, zone, f).kind != VPCPeering
  {
    var a := V4(f.dstIP);
    LookupPrefersLongest(k, a);
    BestLengthIsMax(k.peering, a);
    if p :| p in k.peering && p.Contains(a) {
      ValidOnesAre(AllForeign(peerings, local), p);
      AllForeignOnly(peerings, local, p);
      OverlapIffShared(p, l);
      assert OverlapsSome(p, local);
      assert false;
    }
  }

  /** And the guard drops nothing else: an address in a peer range that shares no
      address with any local range keeps its peering classification, unless a longer
      transit or endpoint prefix or an earlier decision claims it. */
  lemma ForeignPeerStaysPeering(k: Known, peerings: seq<seq<Prefix>>, local: seq<Prefix>, i: nat, p: Prefix,
                                f: FlowInfo, zone: Addr -> string)
    requires k.peering == ValidOnes(AllForeign(peerings, local))
    requires i < |peerings| && p in peerings[i] && p.Contains(V4(f.dstIP))
    requires forall l :: l in local ==> l.IsValid() && !ShareAddress(p, l)
    requires BestLength(k.transit, V4(f.dstIP)) <= p.bits && BestLength(k.endpoint, V4(f.dstIP)) <= p.bits
    requires !f.isSidecar && !f.intraNode && !LOOPBACK.Contains(V4(f.dstIP))
    requires !InSome(k.clusters, V4(f.dstIP)) && V4(f.dstIP) !in k.nats
    ensures Decided(k, zone, f).kind == VPCPeering
  {
    var a := V4(f.dstIP);
    forall j | 0 <= j < |local| ensures !Overlap(p, local[j]) { OverlapIffShared(p, local[j]); }
    AllForeignOnly(peerings, local, p);
    ValidOnesAre(AllForeign(peerings, local), p);
    LookupPrefersLongest(k, a);
    BestLengthIsMax(k.peering, a);
  }

  // ----- the decision order -----

  /** The flow reaches the topology rules: no hint, loopback or cluster range claims it. */
  predicate Unclaimed(k: Known, f: FlowInfo) {
    !f.isSidecar && !f.intraNode && !LOOPBACK.Contains(V4(f.dstIP)) && !InSome(k.clusters, V4(f.dstIP))
  }

  /** Exactly which flows are billed as peering, through a NAT gateway and as internet
      egress: the longest category decides unless the destination is a private NAT
      address, and what nothing matches leaves by the default route. */
  lemma BilledAsExactlyWhen(k: Known, f: FlowInfo, zone: Addr -> string)
    ensures var a := V4(f.dstIP);
            var p, t, e := BestLength(k.peering, a), BestLength(k.transit, a), BestLength(k.endpoint, a);
            var atNat := IsPrivate(a) && a in k.nats;
            var kind := Decided(k, zone, f).kind;
            && (kind == VPCPeering <==> Unclaimed(k, f) && !atNat && p >= 0 && p >= t && p >= e)
            && (kind == TransitGateway <==> Unclaimed(k, f) && !atNat && t >= 0 && t > p && t >= e)
            && (kind == VPCEndpoint <==> Unclaimed(k, f) && !atNat && e >= 0 && e > p && e > t)
            && (kind == NATGatewayEgress <==>
                  Unclaimed(k, f) && (atNat || (!IsPrivate(a) && k.viaNat && p < 0 && t < 0 && e < 0)))
            && (kind == InternetEgress <==> Unclaimed(k, f) && !IsPrivate(a) && !k.viaNat && p < 0 && t < 0 && e < 0)
  {
    LookupPrefersLongest(k, V4(f.dstIP));
  }

  /** Two zones of one region compare as one region, in all three naming schemes: a
      letter after a digit, or a suffix after a dash. */
  lemma ZonesOfOneRegion(region: string, letter: char, suffix: string)
    requires region != []
    ensures '0' <= region[|region| - 1] <= '9' && 'a' <= letter <= 'z' ==> RegionFromZone(region + [letter]) == region
    ensures '-' !in suffix && !EndsInZoneLetter(region + "-" + suffix) ==> RegionFromZone(region + "-" + suffix) == region
  {
    if '0' <= region[|region| - 1] <= '9' && 'a' <= letter <= 'z' {
      var zone := region + [letter];
      assert zone[|zone| - 2] == region[|region| - 1] && zone[..|zone| - 1] == region;
    }
    if '-' !in suffix { DashSearch(region, suffix, |suffix|); }
  }

  lemma {:induction false} DashSearch(region: string, suffix: string, n: nat)
    requires region != [] && '-' !in suffix && n <= |suffix|
    ensures BeforeDash(region + "-" + suffix, |region| + 1 + n) == region
  {
    var zone := region + "-" + suffix;
    if n == 0 {
      assert zone[|region|] == '-' && zone[..|region|] == region;
    } else {
      assert zone[|region| + n] == suffix[n - 1];
      DashSearch(region, suffix, n - 1);
    }
  }

  /** The zone is named after the region: a letter after a digit, or a suffix after a dash. */
  ghost predicate ZoneOf(zone: string, region: string) {
    region != [] &&
    ((exists letter :: 'a' <= letter <= 'z' && '0' <= region[|region| - 1] <= '9' && zone == region + [letter]) ||
     (exists suffix :: '-' !in suffix && !EndsInZoneLetter(zone) && zone == region + "-" + suffix))
  }

  lemma ZoneNamesRegion(zone: string, region: string)
    requires ZoneOf(zone, region)
    ensures RegionFromZone(zone) == region && zone != ""
  {
    if letter: char :| 'a' <= letter <= 'z' && '0' <= region[|region| - 1] <= '9' && zone == region + [letter] {
      ZonesOfOneRegion(region, letter, "-");
    } else {
      var suffix :| '-' !in suffix && !EndsInZoneLetter(zone) && zone == region + "-" + suffix;
      ZonesOfOneRegion(region, 'a', suffix);
    }
  }

  // ----- traffic that stays inside -----

  /** Nothing but the zones of its two ends decides about the flow: a cluster destination,
      or a private one that is no NAT gateway and in no known range. */
  predicate StaysInside(k: Known, f: FlowInfo) {
    var a := V4(f.dstIP);
    && !f.isSidecar && !f.intraNode && !LOOPBACK.Contains(a)
    && (InSome(k.clusters, a) ||
        (IsPrivate(a) && a !in k.nats && BestLength(k.peering, a) < 0 && BestLength(k.transit, a) < 0
         && BestLength(k.endpoint, a) < 0))
  }

  /** Exactly which flows are free or billed by the zones of their ends. */
  lemma InsideAsExactlyWhen(k: Known, f: FlowInfo, zone: Addr -> string)
    ensures var src, dst := zone(V4(f.srcIP)), zone(V4(f.dstIP));
            var r, inside := Decided(k, zone, f), StaysInside(k, f);
            && (r.kind == ServiceMeshInternal <==> f.isSidecar)
            && (r.kind == IntraNode <==> !f.isSidecar && (f.intraNode || LOOPBACK.Contains(V4(f.dstIP))))
            && (r.kind == Unknown <==> inside && (src == "" || dst == ""))
            && (r.kind == SameZone <==> inside && src != "" && src == dst)
            && (r.kind == CrossAZ <==> inside && src != "" && dst != "" && src != dst && RegionFromZone(src) == RegionFromZone(dst))
            && (r.kind == CrossRegion <==> inside && src != "" && dst != "" && RegionFromZone(src) != RegionFromZone(dst))
            && (if inside then r.srcZone == src && r.dstZone == dst else r.srcZone == "" == r.dstZone)
            && r.kind != CloudServicePublic
  {
    LookupPrefersLongest(k, V4(f.dstIP));
  }

  /** In terms of regions: between named zones, one zone is free, two zones of one region
      are cross-AZ traffic, and two regions are cross-region traffic. */
  lemma ZonesDecide(k: Known, f: FlowInfo, zone: Addr -> string, from: string, to: string)
    requires StaysInside(k, f) && ZoneOf(zone(V4(f.srcIP)), from) && ZoneOf(zone(V4(f.dstIP)), to)
    ensures Decided(k, zone, f).kind ==
            if zone(V4(f.srcIP)) == zone(V4(f.dstIP)) then SameZone else if from == to then CrossAZ else CrossRegion
  {
    InsideAsExactlyWhen(k, f, zone);
    ZoneNamesRegion(zone(V4(f.srcIP)), from);
    ZoneNamesRegion(zone(V4(f.dstIP)), to);
  }

  /** Two availability zones of us-east-1, and one of eu-west-1. */
  lemma NamedZones()
    ensures ZoneOf("us-east-1a", "us-east-1") && ZoneOf("us-east-1b", "us-east-1") && ZoneOf("eu-west-1a", "eu-west-1")
    ensures ZoneOf("us-central1-a", "us-central1") && ZoneOf("eastus-1", "eastus")
  {
    assert "us-east-1" + ['a'] == "us-east-1a" && "us-east-1" + ['b'] == "us-east-1b" && "eu-west-1" + ['a'] == "eu-west-1a";
    assert "us-central1" + "-" + "a" == "us-central1-a" && "eastus" + "-" + "1" == "eastus-1";
  }

  // ----- the cluster's own ranges -----

  /** The set taken over covers exactly the addresses of the valid ranges given, without
      repeating one. */
  lemma {:induction false} ClustersCoverAlike(ps: seq<Prefix>, a: Addr)
    ensures InSome(Distinct(ps), a) <==> InSome(ps, a)
    ensures forall p :: p in Distinct(ps) <==> p in ps && p.IsValid()
    ensures forall i, j :: 0 <= i < j < |Distinct(ps)| ==> Distinct(ps)[i] != Distinct(ps)[j]
  {
    if ps != [] {
      ClustersCoverAlike(ps[..|ps| - 1], a);
      assert ps == ps[..|ps| - 1] + [ps[|ps| - 1]];
    }
    CoveredByMember(ps, a);
    CoveredByMember(Distinct(ps), a);
  }

  lemma CoveredByMember(ps: seq<Prefix>, a: Addr)
    ensures InSome(ps, a) <==> exists p :: p in ps && p.Contains(a)
  {
    if InSome(ps, a) {
      var i :| 0 <= i < |ps| && ps[i].Contains(a);
      assert ps[i] in ps;
    }
    if p :| p in ps && p.Contains(a) {
      var i :| 0 <= i < |ps| && ps[i] == p;
      assert ps[i].Contains(a);
    }
  }

  lemma {:induction false} UncutIff(zone: string, n: nat)
    requires n <= |zone|
    ensures BeforeDash(zone, n) == zone <==> forall i :: 0 < i < n ==> zone[i] != '-'
  {
    if n > 0 { UncutIff(zone, n - 1); }
  }

  /** A name is returned as it is exactly when it ends in no zone letter and has no dash
      after its first character. */
  lemma ReturnedAsItIsIff(zone: string)
    ensures RegionFromZone(zone) == zone <==> !EndsInZoneLetter(zone) && forall i :: 0 < i < |zone| ==> zone[i] != '-'
  {
    UncutIff(zone, |zone|);
  }

  /** Two bare region names that are cut to the same one, so that traffic between the
      regions compares as traffic within one. */
  lemma BareRegionsAreCut()
    ensures RegionFromZone("us-east-1") == "us-east" == RegionFromZone("us-east-2")
  {
    ZonesOfOneRegion("us-east", 'a', "1");
    ZonesOfOneRegion("us-east", 'a', "2");
    assert "us-east" + "-" + "1" == "us-east-1" && "us-east" + "-" + "2" == "us-east-2";
  }

  // ----- what counts as private -----

  /** Exactly the RFC 1918 ranges, loopback and link-local. */
  lemma PrivateExactly(n: nat)
    ensures IsPrivate(V4(n)) <==>
            || 0x0A000000 <= n < 0x0B000000 || 0xAC100000 <= n < 0xAC200000 || 0xC0A80000 <= n < 0xC0A90000
            || 0x7F000000 <= n < 0x80000000 || 0xA9FE0000 <= n < 0xA9FF0000
  {
    BlockSizes();
    CoversRange(PRIVATE_10, 10, 0x1000000, n);
    CoversRange(PRIVATE_172, 0xAC1, 0x100000, n);
    CoversRange(PRIVATE_192, 0xC0A8, 0x10000, n);
    CoversRange(LOOPBACK, 127, 0x1000000, n);
    CoversRange(LINK_LOCAL, 0xA9FE, 0x10000, n);
  }

  /** A prefix whose address is q whole blocks covers the block that follows them. */
  lemma CoversRange(p: Prefix, q: nat, size: nat, n: nat)
    requires p.IsValid() && p.addr.V4? && size == Pow2(32 - p.bits) && p.addr.n == q * size
    ensures p.Contains(V4(n)) <==> q * size <= n < q * size + size
  {
    WholeBlocks(q * size, size, q);
    WholeBlocks(n, size, q);
  }

  lemma BlockSizes()
    ensures Pow2(16) == 0x10000 && Pow2(20) == 0x100000 && Pow2(24) == 0x1000000
  {
    assert Pow2(4) == 16;
    Pow2Adds(4, 4);
    Pow2Adds(8, 8);
    Pow2Adds(4, 16);
    Pow2Adds(8, 16);
  }

  /** RFC 6598 space is not: an address in it that no rule claims is billed as leaving
      the network. */
  lemma SharedSpaceIsPublic(k: Known, f: FlowInfo, zone: Addr -> string)
    requires 0x64400000 <= f.dstIP < 0x64800000 && Unclaimed(k, f)
    requires BestLength(k.peering, V4(f.dstIP)) < 0 && BestLength(k.transit, V4(f.dstIP)) < 0
    requires BestLength(k.endpoint, V4(f.dstIP)) < 0
    ensures !IsPrivate(V4(f.dstIP))
    ensures Decided(k, zone, f).kind == if k.viaNat then NATGatewayEgress else InternetEgress
  {
    PrivateExactly(f.dstIP);
    BilledAsExactlyWhen(k, f, zone);
  }
}
