/** The index from pod address to services, kept slice by slice: each endpoint slice
    adds and removes exactly its own contributions. */
module EndpointIndex {
  import opened Options
  import opened Sums

  type Address = string

  datatype ServiceEndpoint = ServiceEndpoint(name: string, namespace: string, port: int)

  type Services = map<Address, seq<ServiceEndpoint>>

  /** One entry a slice has put into the index. */
  datatype Contribution = Contribution(addr: Address, ep: ServiceEndpoint)

  /** A slice as the API server sends it; an unmanaged slice has no service label. */
  datatype Slice = Slice(namespace: string, name: string, service: string, endpoints: seq<seq<Address>>,
                         ports: seq<Option<int>>)

  function KeyOf(namespace: string, name: string): string {
    namespace + "/" + name
  }

  // ----- what a slice contributes -----

  function ForPorts(s: Slice, addr: Address, ports: seq<Option<int>>): seq<Contribution> {
    if ports == [] then []
    else
      var init, last := ForPorts(s, addr, ports[..|ports| - 1]), ports[|ports| - 1];
      if last.Some? then init + [Contribution(addr, ServiceEndpoint(s.service, s.namespace, last.value))] else init
  }

  function ForAddresses(s: Slice, addrs: seq<Address>): seq<Contribution> {
    if addrs == [] then []
    else ForAddresses(s, addrs[..|addrs| - 1]) + ForPorts(s, addrs[|addrs| - 1], s.ports)
  }

  function ForEndpoints(s: Slice, endpoints: seq<seq<Address>>): seq<Contribution> {
    if endpoints == [] then []
    else ForEndpoints(s, endpoints[..|endpoints| - 1]) + ForAddresses(s, endpoints[|endpoints| - 1])
  }

  /** One entry per address and port with a number; none without a service label. */
  function Contributed(s: Slice): seq<Contribution> {
    if s.service == "" then [] else ForEndpoints(s, s.endpoints)
  }

  lemma NextAddress(s: Slice, addrs: seq<Address>, j: nat, before: seq<Contribution>)
    requires j < |addrs|
    ensures before + ForAddresses(s, addrs[..j + 1]) == before + ForAddresses(s, addrs[..j]) + ForPorts(s, addrs[j], s.ports)
  {
    assert addrs[..j + 1][..j] == addrs[..j];
  }

  /** The entry is for the slice's own service and one of its numbered ports. */
  predicate ServesPort(s: Slice, ep: ServiceEndpoint) {
    ep.name == s.service && ep.namespace == s.namespace && Some(ep.port) in s.ports
  }

  lemma {:induction false} InForPorts(s: Slice, addr: Address, ports: seq<Option<int>>, c: Contribution)
    ensures c in ForPorts(s, addr, ports) <==>
            c.addr == addr && c.ep.name == s.service && c.ep.namespace == s.namespace && Some(c.ep.port) in ports
  {
    if ports != [] {
      InForPorts(s, addr, ports[..|ports| - 1], c);
      assert ports == ports[..|ports| - 1] + [ports[|ports| - 1]];
    }
  }

  lemma {:induction false} InForAddresses(s: Slice, addrs: seq<Address>, c: Contribution)
    ensures c in ForAddresses(s, addrs) <==> c.addr in addrs && ServesPort(s, c.ep)
  {
    if addrs != [] {
      InForAddresses(s, addrs[..|addrs| - 1], c);
      InForPorts(s, addrs[|addrs| - 1], s.ports, c);
      assert addrs == addrs[..|addrs| - 1] + [addrs[|addrs| - 1]];
    }
  }

  predicate ListsAddress(endpoints: seq<seq<Address>>, addr: Address) {
    exists i :: 0 <= i < |endpoints| && addr in endpoints[i]
  }

  lemma {:induction false} InForEndpoints(s: Slice, endpoints: seq<seq<Address>>, c: Contribution)
    ensures c in ForEndpoints(s, endpoints) <==> ListsAddress(endpoints, c.addr) && ServesPort(s, c.ep)
  {
    if endpoints != [] {
      var n := |endpoints| - 1;
      InForEndpoints(s, endpoints[..n], c);
      InForAddresses(s, endpoints[n], c);
      if i :| 0 <= i < |endpoints| && c.addr in endpoints[i] {
        if i < n { assert endpoints[..n][i] == endpoints[i]; }
      }
    }
  }

  /** A labelled slice contributes exactly its addresses with its service and its
      numbered ports; an unlabelled one nothing. */
  lemma ContributedExactly(s: Slice, c: Contribution)
    ensures c in Contributed(s) <==> s.service != "" && ListsAddress(s.endpoints, c.addr) && ServesPort(s, c.ep)
  {
    InForEndpoints(s, s.endpoints, c);
  }

  // ----- the index as a value -----

  datatype Index = Index(services: Services, slices: map<string, seq<Contribution>>)

  function ListAt(services: Services, addr: Address): seq<ServiceEndpoint> {
    if addr in services then services[addr] else []
  }

  function SliceAt(slices: map<string, seq<Contribution>>, key: string): seq<Contribution> {
    if key in slices then slices[key] else []
  }

  function AddOne(services: Services, c: Contribution): Services {
    services[c.addr := ListAt(services, c.addr) + [c.ep]]
  }

  function AddAll(services: Services, cs: seq<Contribution>): Services {
    if cs == [] then services else AddOne(AddAll(services, cs[..|cs| - 1]), cs[|cs| - 1])
  }

  /** The list without its first entry equal to ep. */
  function Without(l: seq<ServiceEndpoint>, ep: ServiceEndpoint): seq<ServiceEndpoint> {
    if l == [] then [] else if l[0] == ep then l[1..] else [l[0]] + Without(l[1..], ep)
  }

  /** Removes one matching entry; an emptied list leaves the map. */
  function RemoveOne(services: Services, c: Contribution): Services {
    var l := ListAt(services, c.addr);
    if c.ep !in l then services
    else if |l| == 1 then services - {c.addr}
    else services[c.addr := Without(l, c.ep)]
  }

  function RemoveAll(services: Services, cs: seq<Contribution>): Services {
    if cs == [] then services else RemoveOne(RemoveAll(services, cs[..|cs| - 1]), cs[|cs| - 1])
  }

  function Removed(ix: Index, key: string): Index {
    Index(RemoveAll(ix.services, SliceAt(ix.slices, key)), ix.slices - {key})
  }

  function Updated(ix: Index, s: Slice): Index {
    var key, cs := KeyOf(s.namespace, s.name), Contributed(s);
    var r := Removed(ix, key);
    Index(AddAll(r.services, cs), if cs == [] then r.slices else r.slices[key := cs])
  }

  // ----- the lists are the sum of the slices -----

  /** How often slice `key` contributes c. */
  ghost function Share(slices: map<string, seq<Contribution>>, c: Contribution): string -> real {
    key => multiset(SliceAt(slices, key))[c] as real
  }

  ghost function Wanted(slices: map<string, seq<Contribution>>, c: Contribution): real {
    Sum(slices.Keys, Share(slices, c))
  }

  function Count(services: Services, c: Contribution): nat {
    multiset(ListAt(services, c.addr))[c.ep]
  }

  /** No list is empty: an address without services is absent. */
  predicate NoneEmpty(services: Services) {
    forall a :: a in services ==> services[a] != []
  }

  /** Every list is, as a multiset, the sum of what the live slices contribute there. */
  ghost predicate Balanced(ix: Index) {
    NoneEmpty(ix.services) && forall c :: Count(ix.services, c) as real == Wanted(ix.slices, c)
  }

  lemma AddOneCounts(services: Services, d: Contribution, c: Contribution)
    ensures Count(AddOne(services, d), c) == Count(services, c) + if c == d then 1 else 0
  {
  }

  lemma {:induction false} AddAllCounts(services: Services, cs: seq<Contribution>, c: Contribution)
    ensures Count(AddAll(services, cs), c) == Count(services, c) + multiset(cs)[c]
  {
    if cs != [] {
      var init, last := cs[..|cs| - 1], cs[|cs| - 1];
      AddAllCounts(services, init, c);
      AddOneCounts(AddAll(services, init), last, c);
      assert cs == init + [last];
      assert multiset(cs) == multiset(init) + multiset{last};
    }
  }

  lemma {:induction false} AddAllNoneEmpty(services: Services, cs: seq<Contribution>)
    requires NoneEmpty(services)
    ensures NoneEmpty(AddAll(services, cs))
  {
    if cs != [] { AddAllNoneEmpty(services, cs[..|cs| - 1]); }
  }

  lemma {:induction false} WithoutCounts(l: seq<ServiceEndpoint>, ep: ServiceEndpoint)
    requires ep in l
    ensures multiset(Without(l, ep)) == multiset(l) - multiset{ep} && |Without(l, ep)| == |l| - 1
  {
    assert l == [l[0]] + l[1..];
    if l[0] != ep { WithoutCounts(l[1..], ep); }
  }

  lemma RemoveOneCounts(services: Services, d: Contribution, c: Contribution)
    requires NoneEmpty(services)
    ensures NoneEmpty(RemoveOne(services, d))
    ensures Count(services, d) > 0 ==> Count(RemoveOne(services, d), c) == Count(services, c) - if c == d then 1 else 0
  {
    var l := ListAt(services, d.addr);
    if d.ep in l {
      WithoutCounts(l, d.ep);
      if |l| == 1 { assert l == [d.ep]; }
    }
  }

  /** Entries that are there, each as often as listed, can all be removed. */
  lemma {:induction false} RemoveAllCounts(services: Services, cs: seq<Contribution>, c: Contribution)
    requires NoneEmpty(services) && forall d :: multiset(cs)[d] <= Count(services, d)
    ensures NoneEmpty(RemoveAll(services, cs))
    ensures Count(RemoveAll(services, cs), c) == Count(services, c) - multiset(cs)[c]
  {
    if cs != [] {
      var init, last := cs[..|cs| - 1], cs[|cs| - 1];
      assert cs == init + [last];
      assert multiset(cs) == multiset(init) + multiset{last};
      RemoveAllCounts(services, init, c);
      RemoveAllCounts(services, init, last);
      RemoveOneCounts(RemoveAll(services, init), last, c);
    }
  }

  lemma ShareAtMostWanted(slices: map<string, seq<Contribution>>, key: string, c: Contribution)
    ensures multiset(SliceAt(slices, key))[c] as real <= Wanted(slices, c)
    ensures Wanted(slices - {key}, c) == Wanted(slices, c) - multiset(SliceAt(slices, key))[c] as real
  {
    var rest := slices - {key};
    assert rest.Keys == slices.Keys - {key};
    Congruence(rest.Keys, Share(rest, c), Share(slices, c));
    Monotone(rest.Keys, (k: string) => 0.0, Share(slices, c));
    Zero(rest.Keys, (k: string) => 0.0);
    if key in slices {
      Pick(slices.Keys, key, Share(slices, c));
    } else {
      assert rest.Keys == slices.Keys;
    }
  }

  lemma RemovedBalances(ix: Index, key: string)
    requires Balanced(ix)
    ensures Balanced(Removed(ix, key))
  {
    var cs := SliceAt(ix.slices, key);
    forall d ensures multiset(cs)[d] <= Count(ix.services, d) { ShareAtMostWanted(ix.slices, key, d); }
    RemoveAllCounts(ix.services, cs, Contribution("", ServiceEndpoint("", "", 0)));
    forall c ensures Count(Removed(ix, key).services, c) as real == Wanted(Removed(ix, key).slices, c) {
      RemoveAllCounts(ix.services, cs, c);
      ShareAtMostWanted(ix.slices, key, c);
    }
  }

  lemma UpdatedBalances(ix: Index, s: Slice)
    requires Balanced(ix)
    ensures Balanced(Updated(ix, s))
  {
    var key, cs := KeyOf(s.namespace, s.name), Contributed(s);
    RemovedBalances(ix, key);
    var r, u := Removed(ix, key), Updated(ix, s);
    AddAllNoneEmpty(r.services, cs);
    forall c ensures Count(u.services, c) as real == Wanted(u.slices, c) {
      AddAllCounts(r.services, cs, c);
      if cs != [] {
        assert u.slices.Keys == r.slices.Keys + {key};
        SumAdjust(r.slices.Keys, key, Share(r.slices, c), Share(u.slices, c));
      }
    }
  }

  // ----- runs -----

  datatype Event = Upsert(slice: Slice) | Delete(namespace: string, name: string)

  function Handled(ix: Index, e: Event): Index {
    match e
    case Upsert(s) => Updated(ix, s)
    case Delete(namespace, name) => Removed(ix, KeyOf(namespace, name))
  }

  function Run(events: seq<Event>): Index {
    if events == [] then Index(map[], map[]) else Handled(Run(events[..|events| - 1]), events[|events| - 1])
  }

  /** What the latest event of a slice says it contributes now. */
  function Live(events: seq<Event>, key: string): seq<Contribution> {
    if events == [] then []
    else
      match events[|events| - 1]
      case Upsert(s) => if KeyOf(s.namespace, s.name) == key then Contributed(s) else Live(events[..|events| - 1], key)
      case Delete(namespace, name) => if KeyOf(namespace, name) == key then [] else Live(events[..|events| - 1], key)
  }

  /** After any sequence of adds, updates, relabels and deletes, each list is the sum
      of what the latest versions of the live slices contribute. */
  lemma {:induction false} ListsAreTheSlicesSum(events: seq<Event>)
    ensures Balanced(Run(events))
    ensures forall key :: SliceAt(Run(events).slices, key) == Live(events, key)
    ensures forall key :: key in Run(events).slices <==> Live(events, key) != []
  {
    if events == [] {
      forall c ensures Wanted(map[], c) == 0.0 { EmptyWants(map[], c); }
    } else {
      var init, last := events[..|events| - 1], events[|events| - 1];
      ListsAreTheSlicesSum(init);
      match last {
        case Upsert(s) => UpdatedBalances(Run(init), s);
        case Delete(namespace, name) => RemovedBalances(Run(init), KeyOf(namespace, name));
      }
    }
  }

  lemma EmptyWants(slices: map<string, seq<Contribution>>, c: Contribution)
    requires slices == map[]
    ensures Wanted(slices, c) == 0.0
  {
    Empty(Share(slices, c));
    assert slices.Keys == {};
  }

  /** A sibling's update leaves a slice's own entries alone: every address keeps at
      least what each other live slice contributes there. */
  lemma SiblingsSurvive(events: seq<Event>, key: string, c: Contribution)
    ensures Count(Run(events).services, c) >= multiset(Live(events, key))[c]
  {
    ListsAreTheSlicesSum(events);
    var ix := Run(events);
    assert SliceAt(ix.slices, key) == Live(events, key);
    ShareAtMostWanted(ix.slices, key, c);
  }

  /** A service is found at an address exactly when the latest version of some live
      slice contributes it there. */
  lemma FoundExactlyWhenContributed(events: seq<Event>, c: Contribution)
    ensures c.ep in ListAt(Run(events).services, c.addr) <==> exists key :: c in Live(events, key)
  {
    ListsAreTheSlicesSum(events);
    var ix := Run(events);
    assert Count(ix.services, c) as real == Wanted(ix.slices, c);
    if key :| c in Live(events, key) {
      SiblingsSurvive(events, key, c);
      assert multiset(Live(events, key))[c] > 0;
    }
    if Count(ix.services, c) > 0 {
      var key := SomeNonZero(ix.slices.Keys, Share(ix.slices, c));
      assert SliceAt(ix.slices, key) == Live(events, key);
      assert multiset(SliceAt(ix.slices, key))[c] > 0;
    }
  }

  // ----- by namespace and name -----

  predicate NoSlash(s: string) {
    '/' !in s
  }

  lemma LongerHoldsSlash(ns1: string, name1: string, ns2: string, name2: string)
    requires |ns1| < |ns2| && KeyOf(ns1, name1) == KeyOf(ns2, name2)
    ensures ns2[|ns1|] == '/'
  {
    assert KeyOf(ns1, name1)[|ns1|] == '/' && KeyOf(ns2, name2)[|ns1|] == ns2[|ns1|];
  }

  /** Namespaces hold no slash, so different slices have different keys. */
  lemma KeysDiffer(ns1: string, name1: string, ns2: string, name2: string)
    requires NoSlash(ns1) && NoSlash(ns2) && KeyOf(ns1, name1) == KeyOf(ns2, name2)
    ensures ns1 == ns2 && name1 == name2
  {
    var k1, k2 := KeyOf(ns1, name1), KeyOf(ns2, name2);
    if |ns1| < |ns2| { LongerHoldsSlash(ns1, name1, ns2, name2); }
    if |ns2| < |ns1| { LongerHoldsSlash(ns2, name2, ns1, name1); }
    assert ns1 == k1[..|ns1|] == k2[..|ns1|] == ns2;
    assert name1 == k1[|ns1| + 1..] == k2[|ns1| + 1..] == name2;
  }

  function Namespace(e: Event): string {
    match e case Upsert(s) => s.namespace case Delete(ns, _) => ns
  }

  function Name(e: Event): string {
    match e case Upsert(s) => s.name case Delete(_, name) => name
  }

  /** The latest version of the slice of that namespace and name, unless it is deleted. */
  function LatestVersion(events: seq<Event>, namespace: string, name: string): Option<Slice> {
    if events == [] then None
    else
      var e := events[|events| - 1];
      if Namespace(e) == namespace && Name(e) == name then (if e.Upsert? then Some(e.slice) else None)
      else LatestVersion(events[..|events| - 1], namespace, name)
  }

  function Contributes(s: Option<Slice>): seq<Contribution> {
    if s.Some? then Contributed(s.value) else []
  }

  predicate Proper(events: seq<Event>) {
    forall i :: 0 <= i < |events| ==> NoSlash(Namespace(events[i]))
  }

  lemma {:induction false} LiveIsLatest(events: seq<Event>, namespace: string, name: string)
    requires Proper(events) && NoSlash(namespace)
    ensures Live(events, KeyOf(namespace, name)) == Contributes(LatestVersion(events, namespace, name))
  {
    if events != [] {
      var init, e := events[..|events| - 1], events[|events| - 1];
      LiveIsLatest(init, namespace, name);
      if KeyOf(Namespace(e), Name(e)) == KeyOf(namespace, name) {
        KeysDiffer(Namespace(e), Name(e), namespace, name);
      }
    }
  }

  lemma {:induction false} LiveIsNamed(events: seq<Event>, key: string)
    requires Proper(events) && Live(events, key) != []
    ensures exists namespace, name :: NoSlash(namespace) && key == KeyOf(namespace, name)
  {
    var init, e := events[..|events| - 1], events[|events| - 1];
    if KeyOf(Namespace(e), Name(e)) == key {
      assert NoSlash(Namespace(e));
    } else {
      LiveIsNamed(init, key);
    }
  }

  /** An event of a slice with another namespace or name, add, update, relabel or delete,
      leaves every entry of this slice's latest version in its list. */
  lemma OtherSlicesKeepTheirEntries(events: seq<Event>, e: Event, namespace: string, name: string, c: Contribution)
    requires Proper(events + [e]) && NoSlash(namespace)
    requires Namespace(e) != namespace || Name(e) != name
    ensures Count(Run(events + [e]).services, c) >= multiset(Contributes(LatestVersion(events, namespace, name)))[c]
  {
    var more := events + [e];
    assert more[|more| - 1] == e && more[..|more| - 1] == events;
    LiveIsLatest(more, namespace, name);
    SiblingsSurvive(more, KeyOf(namespace, name), c);
  }

  /** A service is found at an address exactly when the latest version of some slice, known
      by its namespace and name, contributes it there. */
  lemma FoundExactlyWhenLatest(events: seq<Event>, c: Contribution)
    requires Proper(events)
    ensures c.ep in ListAt(Run(events).services, c.addr) <==>
            exists namespace, name :: NoSlash(namespace) && c in Contributes(LatestVersion(events, namespace, name))
  {
    FoundExactlyWhenContributed(events, c);
    if key :| c in Live(events, key) {
      LiveIsNamed(events, key);
      var namespace, name :| NoSlash(namespace) && key == KeyOf(namespace, name);
      LiveIsLatest(events, namespace, name);
    }
    if namespace, name :| NoSlash(namespace) && c in Contributes(LatestVersion(events, namespace, name)) {
      LiveIsLatest(events, namespace, name);
      assert c in Live(events, KeyOf(namespace, name));
    }
  }

  // ----- the informer -----

  /** The lists are arrays that lock-free readers hold on to: every handler below may
      assign only the informer's own fields, so no array is written once published. */
  class Informer {
    var podIPToServices: map<Address, array<ServiceEndpoint>>
    var endpointsBySlice: map<string, seq<Contribution>>
    /** The contents of the lists; Valid ties them to the arrays. */
    ghost var lists: Services

    ghost predicate Valid()
      reads this, podIPToServices.Values
    {
      && (forall a :: a in lists <==> a in podIPToServices)
      && (forall a :: a in podIPToServices ==> podIPToServices[a][..] == lists[a])
    }

    ghost function View(): Index
      reads this
    {
      Index(lists, endpointsBySlice)
    }

    constructor ()
      ensures Valid() && View() == Index(map[], map[])
    {
      podIPToServices, endpointsBySlice, lists := map[], map[], map[];
    }

    /** What a reader gets; it may keep the array after the lock is released. */
    method LookupService(addr: Address) returns (found: Option<array<ServiceEndpoint>>)
      requires Valid()
      ensures found.Some? <==> addr in lists
      ensures found.Some? ==> found.value[..] == lists[addr]
    {
      found := if addr in podIPToServices then Some(podIPToServices[addr]) else None;
    }

    /** Publishes a fresh list one entry longer. */
    method AddEndpoint(c: Contribution)
      requires Valid()
      modifies `podIPToServices, `lists
      ensures Valid() && lists == AddOne(old(lists), c)
    {
      var next;
      if c.addr in podIPToServices {
        var before := podIPToServices[c.addr];
        var n := before.Length;
        next := new ServiceEndpoint[n + 1](i requires 0 <= i <= n reads before =>
                                             if i < before.Length then before[i] else c.ep);
        assert next[..] == before[..] + [c.ep];
      } else {
        next := new ServiceEndpoint[1](i => c.ep);
        assert next[..] == [] + [c.ep];
      }
      assert next[..] == ListAt(lists, c.addr) + [c.ep];
      podIPToServices := podIPToServices[c.addr := next];
      lists := lists[c.addr := next[..]];
    }

    /** Publishes a fresh list without one matching entry, or drops the address. */
    method RemoveEndpoint(c: Contribution)
      requires Valid()
      modifies `podIPToServices, `lists
      ensures Valid() && lists == RemoveOne(old(lists), c)
    {
      if c.addr !in podIPToServices {
        return;
      }
      var seps := podIPToServices[c.addr];
      var i := 0;
      while i < seps.Length && seps[i] != c.ep
        invariant 0 <= i <= seps.Length
        invariant c.ep !in seps[..i]
      {
        i := i + 1;
      }
      if i == seps.Length {
        assert seps[..i] == seps[..];
        return;
      }
      assert seps[..][i] == c.ep;
      if seps.Length == 1 {
        podIPToServices := podIPToServices - {c.addr};
        lists := lists - {c.addr};
      } else {
        var next := new ServiceEndpoint[seps.Length - 1](j requires 0 <= j < seps.Length - 1 reads seps =>
                                                           if j < i then seps[j] else seps[j + 1]);
        WithoutAt(seps[..], c.ep, i);
        assert next[..] == seps[..][..i] + seps[..][i + 1..];
        podIPToServices := podIPToServices[c.addr := next];
        lists := lists[c.addr := next[..]];
      }
    }

    method RemoveSliceLocked(key: string)
      requires Valid()
      modifies this
      ensures Valid() && View() == Removed(old(View()), key)
    {
      if key !in endpointsBySlice {
        assert endpointsBySlice - {key} == endpointsBySlice;
        return;
      }
      var entries := endpointsBySlice[key];
      endpointsBySlice := endpointsBySlice - {key};
      for i := 0 to |entries|
        invariant Valid() && lists == RemoveAll(old(lists), entries[..i])
        invariant endpointsBySlice == old(endpointsBySlice) - {key}
      {
        assert entries[..i + 1][..i] == entries[..i];
        RemoveEndpoint(entries[i]);
      }
      assert entries[..|entries|] == entries;
    }

    method OnEndpointSlice(s: Slice)
      requires Valid()
      modifies this
      ensures Valid() && View() == Updated(old(View()), s)
    {
      var key := KeyOf(s.namespace, s.name);
      RemoveSliceLocked(key);
      if s.service == "" {
        return;
      }
      var added := AddSlice(s);
      if |added| > 0 {
        endpointsBySlice := endpointsBySlice[key := added];
      }
    }

    /** Adds an entry for every endpoint, address and numbered port. */
    method AddSlice(s: Slice) returns (added: seq<Contribution>)
      requires Valid() && s.service != ""
      modifies `podIPToServices, `lists
      ensures Valid() && added == Contributed(s) && lists == AddAll(old(lists), added)
    {
      added := [];
      for i := 0 to |s.endpoints|
        invariant Valid() && added == ForEndpoints(s, s.endpoints[..i]) && lists == AddAll(old(lists), added)
      {
        assert s.endpoints[..i + 1][..i] == s.endpoints[..i];
        var addrs, before := s.endpoints[i], added;
        added := AddAddresses(s, addrs, before, old(lists));
      }
      assert s.endpoints[..|s.endpoints|] == s.endpoints;
    }

    method AddAddresses(s: Slice, addrs: seq<Address>, added0: seq<Contribution>, ghost start: Services)
      returns (added: seq<Contribution>)
      requires Valid() && lists == AddAll(start, added0)
      modifies `podIPToServices, `lists
      ensures Valid() && added == added0 + ForAddresses(s, addrs) && lists == AddAll(start, added)
    {
      added := added0;
      for j := 0 to |addrs|
        invariant Valid() && added == added0 + ForAddresses(s, addrs[..j]) && lists == AddAll(start, added)
      {
        NextAddress(s, addrs, j, added0);
        added := AddPorts(s, addrs[j], added, start);
      }
      assert addrs[..|addrs|] == addrs;
    }

    method AddPorts(s: Slice, addr: Address, added0: seq<Contribution>, ghost start: Services)
      returns (added: seq<Contribution>)
      requires Valid() && lists == AddAll(start, added0)
      modifies `podIPToServices, `lists
      ensures Valid() && added == added0 + ForPorts(s, addr, s.ports) && lists == AddAll(start, added)
    {
      added := added0;
      for m := 0 to |s.ports|
        invariant Valid() && added == added0 + ForPorts(s, addr, s.ports[..m]) && lists == AddAll(start, added)
      {
        assert s.ports[..m + 1][..m] == s.ports[..m];
        if s.ports[m].Some? {
          var c := Contribution(addr, ServiceEndpoint(s.service, s.namespace, s.ports[m].value));
          AddEndpoint(c);
          assert (added + [c])[..|added|] == added;
          added := added + [c];
        }
      }
      assert s.ports[..|s.ports|] == s.ports;
    }

    /** Cleans up a deleted slice; a tombstone without a slice is ignored. */
    method OnEndpointSliceDelete(s: Option<Slice>)
      requires Valid()
      modifies this
      ensures Valid()
      ensures View() == if s.Some? then Removed(old(View()), KeyOf(s.value.namespace, s.value.name)) else old(View())
    {
      if s.Some? {
        RemoveSliceLocked(KeyOf(s.value.namespace, s.value.name));
      }
    }
  }

  lemma {:induction false} WithoutAt(l: seq<ServiceEndpoint>, ep: ServiceEndpoint, i: nat)
    requires i < |l| && l[i] == ep && ep !in l[..i]
    ensures Without(l, ep) == l[..i] + l[i + 1..]
  {
    if i > 0 {
      assert l[..i][0] == l[0];
      forall x | x in l[1..][..i - 1] ensures x in l[..i] {
        var j :| 0 <= j < i - 1 && l[1..][..i - 1][j] == x;
        assert l[..i][j + 1] == x;
      }
      WithoutAt(l[1..], ep, i - 1);
    }
  }

  /** A list handed to a reader reads the same after any run of later events. */
  method ReaderKeepsItsList(inf: Informer, addr: Address, later: seq<Event>)
    returns (held: Option<array<ServiceEndpoint>>)
    requires inf.Valid()
    modifies inf
    ensures held.Some? <==> addr in old(inf.lists)
    ensures held.Some? ==> held.value[..] == old(inf.lists[addr])
  {
    held := inf.LookupService(addr);
    for i := 0 to |later|
      invariant inf.Valid()
      invariant held.Some? ==> held.value[..] == old(inf.lists[addr])
    {
      match later[i] {
        case Upsert(s) => inf.OnEndpointSlice(s);
        case Delete(namespace, name) => inf.RemoveSliceLocked(KeyOf(namespace, name));
      }
    }
  }
}
