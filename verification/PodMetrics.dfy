/** The exporter's accounting of a poll: per-type counters, per-pod counters with
    ring eviction, and the sidecar bytes that are skipped. */
module PodMetrics {
  import opened Options
  import opened Sums
  import opened EvictionRing

  const NUM_TRAFFIC_TYPES := 12
  const MAX_POD_METRICS := 1000

  datatype PodKey = PodKey(namespace: string, pod: string)

  datatype Flow = Flow(kind: int, tx: nat, rx: nat, cost: real, namespace: string, pod: string, isSidecar: bool)

  datatype Bytes = Bytes(tx: nat, rx: nat) {
    function Plus(f: Flow): Bytes {
      Bytes(tx + f.tx, rx + f.rx)
    }
  }

  const ZERO := Bytes(0, 0)

  /** Cost is added only when positive. */
  function Charge(f: Flow): real {
    if f.cost > 0.0 then f.cost else 0.0
  }

  /** Flows of an unknown type count as type 0. */
  function TypeOf(f: Flow): nat {
    if 0 <= f.kind < NUM_TRAFFIC_TYPES then f.kind else 0
  }

  predicate Attributed(f: Flow) {
    f.namespace != "" && f.pod != ""
  }

  /** The exporter's state; `lostBytes`, `lostCost` and the unattributed totals are
      bookkeeping the program does not have. */
  datatype State = State(
    tx: seq<nat>, rx: seq<nat>, costs: seq<real>, skipped: nat,
    pods: map<PodKey, Bytes>, podCost: map<PodKey, real>, window: seq<Option<PodKey>>,
    evicted: Bytes, evictedCost: real, unattributed: Bytes, unattributedCost: real)

  function Start(slots: nat): State {
    State(seq(NUM_TRAFFIC_TYPES, _ => 0), seq(NUM_TRAFFIC_TYPES, _ => 0), seq(NUM_TRAFFIC_TYPES, _ => 0.0),
          0, map[], map[], seq(slots, _ => None),
          ZERO, 0.0, ZERO, 0.0)
  }

  predicate Shaped(s: State) {
    |s.tx| == |s.rx| == |s.costs| == NUM_TRAFFIC_TYPES && s.window != []
  }

  // ----- one flow -----

  function CountType(s: State, f: Flow): State
    requires Shaped(s)
  {
    var i := TypeOf(f);
    s.(tx := s.tx[i := s.tx[i] + f.tx], rx := s.rx[i := s.rx[i] + f.rx], costs := s.costs[i := s.costs[i] + Charge(f)])
  }

  function CostOf(podCost: map<PodKey, real>, k: PodKey): real {
    if k in podCost then podCost[k] else 0.0
  }

  /** Makes room for a new pod: at capacity the pod in the oldest slot goes. */
  function EvictFor(s: State): State
    requires Shaped(s)
  {
    if |s.pods| >= |s.window| && s.window[0].Some? then
      var k := s.window[0].value;
      s.(pods := s.pods - {k}, podCost := s.podCost - {k},
         evicted := if k in s.pods then Bytes(s.evicted.tx + s.pods[k].tx, s.evicted.rx + s.pods[k].rx) else s.evicted,
         evictedCost := s.evictedCost + CostOf(s.podCost, k))
    else s
  }

  /** A pod seen for the first time, or again after its eviction, takes a slot. */
  function Admit(s: State, k: PodKey): State
    requires Shaped(s)
  {
    if k in s.pods then s else TakeSlot(EvictFor(s), k)
  }

  function TakeSlot(s: State, k: PodKey): State
    requires Shaped(s)
  {
    s.(pods := s.pods[k := ZERO], window := s.window[1..] + [Some(k)])
  }

  function CountPod(s: State, k: PodKey, f: Flow): State
    requires k in s.pods
  {
    s.(pods := s.pods[k := s.pods[k].Plus(f)],
       podCost := if f.cost > 0.0 then s.podCost[k := CostOf(s.podCost, k) + f.cost] else s.podCost)
  }

  function CountUnattributed(s: State, f: Flow): State {
    s.(unattributed := s.unattributed.Plus(f), unattributedCost := s.unattributedCost + Charge(f))
  }

  function Counted(s: State, f: Flow): State
    requires Shaped(s)
  {
    if f.isSidecar then s.(skipped := s.skipped + f.tx + f.rx)
    else
      var t := CountType(s, f);
      if Attributed(f) then CountPod(Admit(t, PodKey(f.namespace, f.pod)), PodKey(f.namespace, f.pod), f)
      else CountUnattributed(t, f)
  }

  function Polled(s: State, flows: seq<Flow>): State
    requires Shaped(s)
    ensures Shaped(Polled(s, flows))
  {
    if flows == [] then s else Counted(Polled(s, flows[..|flows| - 1]), flows[|flows| - 1])
  }

  // ----- the pod table is the ring -----

  function RingOf(s: State): Ring<PodKey> {
    Ring(s.pods.Keys, s.window)
  }

  /** The pod table's keys are the used ring slots, each once, and only they have costs. */
  predicate TableIsRing(s: State) {
    InStep(RingOf(s)) && s.podCost.Keys <= s.pods.Keys
  }

  lemma EvictKeys(s: State)
    requires Shaped(s) && TableIsRing(s)
    ensures EvictFor(s).pods.Keys == s.pods.Keys - Oldest(s.window)
    ensures EvictFor(s).podCost.Keys <= EvictFor(s).pods.Keys && EvictFor(s).window == s.window
  {
    FullIffOldestUsed(RingOf(s));
    assert |s.pods| == |s.pods.Keys|;
  }

  lemma AdmitKeys(s: State, k: PodKey)
    requires Shaped(s) && TableIsRing(s) && k !in s.pods
    ensures Admit(s, k).pods.Keys == s.pods.Keys + {k} - Oldest(s.window)
    ensures Admit(s, k).podCost.Keys <= Admit(s, k).pods.Keys
  {
    EvictKeys(s);
    OldestIsSlot(s.window);
    TakeSlotKeys(EvictFor(s), k);
  }

  lemma TakeSlotKeys(s: State, k: PodKey)
    requires Shaped(s) && s.podCost.Keys <= s.pods.Keys
    ensures TakeSlot(s, k).pods.Keys == s.pods.Keys + {k} && TakeSlot(s, k).podCost.Keys <= s.pods.Keys
  {
    assert s.pods[k := ZERO].Keys == s.pods.Keys + {k};
  }

  lemma AdmitInserts(s: State, k: PodKey)
    requires Shaped(s) && TableIsRing(s) && k !in s.pods
    ensures RingOf(Admit(s, k)) == Inserted(RingOf(s), k)
    ensures TableIsRing(Admit(s, k))
  {
    AdmitKeys(s, k);
    EvictKeys(s);
    FifoStep(RingOf(s), k);
    assert Admit(s, k).window == s.window[1..] + [Some(k)];
    assert RingOf(Admit(s, k)).cached == Inserted(RingOf(s), k).cached;
  }

  lemma CountPodKeepsRing(s: State, k: PodKey, f: Flow)
    requires k in s.pods && TableIsRing(s)
    ensures TableIsRing(CountPod(s, k, f)) && CountPod(s, k, f).pods.Keys == s.pods.Keys
  {
    assert CountPod(s, k, f).pods.Keys == s.pods.Keys + {k};
    assert RingOf(CountPod(s, k, f)) == RingOf(s);
  }

  lemma CountTypeKeepsRing(s: State, f: Flow)
    requires Shaped(s)
    ensures TableIsRing(CountType(s, f)) == TableIsRing(s) && CountType(s, f).window == s.window
  {
    assert RingOf(CountType(s, f)) == RingOf(s);
  }

  lemma CountedKeepsRing(s: State, f: Flow)
    requires Shaped(s) && TableIsRing(s)
    ensures TableIsRing(Counted(s, f)) && |Counted(s, f).window| == |s.window|
  {
    assert RingOf(s.(skipped := s.skipped + f.tx + f.rx)) == RingOf(s);
    if !f.isSidecar {
      var t, k := CountType(s, f), PodKey(f.namespace, f.pod);
      CountTypeKeepsRing(s, f);
      if Attributed(f) {
        if k !in t.pods { AdmitInserts(t, k); }
        CountPodKeepsRing(Admit(t, k), k, f);
      } else {
        assert RingOf(CountUnattributed(t, f)) == RingOf(t);
      }
    }
  }

  // ----- conservation -----

  datatype Measure = Tx | Rx | Cost

  ghost function OfBytes(m: Measure, b: Bytes): real {
    match m case Tx => b.tx as real case Rx => b.rx as real case Cost => 0.0
  }

  ghost function OfFlow(m: Measure, f: Flow): real {
    match m case Tx => f.tx as real case Rx => f.rx as real case Cost => Charge(f)
  }

  ghost function OfPod(m: Measure, s: State): PodKey -> real {
    k => (if k in s.pods then OfBytes(m, s.pods[k]) else 0.0) + if m.Cost? then CostOf(s.podCost, k) else 0.0
  }

  ghost function OfType(m: Measure, s: State, i: nat): real
    requires Shaped(s) && i < NUM_TRAFFIC_TYPES
  {
    match m case Tx => s.tx[i] as real case Rx => s.rx[i] as real case Cost => s.costs[i]
  }

  ghost function OfTypes(m: Measure, s: State, n: nat): real
    requires Shaped(s) && n <= NUM_TRAFFIC_TYPES
  {
    if n == 0 then 0.0 else OfTypes(m, s, n - 1) + OfType(m, s, n - 1)
  }

  /** Live pods, evicted pods and unattributed flows. */
  ghost function InPods(m: Measure, s: State): real {
    Sum(s.pods.Keys, OfPod(m, s)) + OfBytes(m, s.evicted) + OfBytes(m, s.unattributed) +
    if m.Cost? then s.evictedCost + s.unattributedCost else 0.0
  }

  ghost function InTypes(m: Measure, s: State): real
    requires Shaped(s)
  {
    OfTypes(m, s, NUM_TRAFFIC_TYPES)
  }

  ghost predicate Conserved(s: State)
    requires Shaped(s)
  {
    forall m :: InPods(m, s) == InTypes(m, s)
  }

  lemma {:induction false} TypesUpTo(m: Measure, s: State, f: Flow, n: nat)
    requires Shaped(s) && n <= NUM_TRAFFIC_TYPES
    ensures var t := CountType(s, f);
            OfTypes(m, t, n) == OfTypes(m, s, n) + if TypeOf(f) < n then OfFlow(m, f) else 0.0
  {
    if n > 0 { TypesUpTo(m, s, f, n - 1); }
  }

  lemma {:induction false} SameTypes(m: Measure, s: State, t: State, n: nat)
    requires Shaped(s) && Shaped(t) && t.tx == s.tx && t.rx == s.rx && t.costs == s.costs && n <= NUM_TRAFFIC_TYPES
    ensures OfTypes(m, t, n) == OfTypes(m, s, n)
  {
    if n > 0 { SameTypes(m, s, t, n - 1); }
  }

  lemma TypesGrow(m: Measure, s: State, f: Flow)
    requires Shaped(s)
    ensures InTypes(m, CountType(s, f)) == InTypes(m, s) + OfFlow(m, f)
  {
    TypesUpTo(m, s, f, NUM_TRAFFIC_TYPES);
  }

  lemma EvictMoves(m: Measure, s: State)
    requires Shaped(s) && TableIsRing(s)
    ensures InPods(m, EvictFor(s)) == InPods(m, s)
  {
    if |s.pods| >= |s.window| && s.window[0].Some? {
      var k, t := s.window[0].value, EvictFor(s);
      assert k in Slots(s.window);
      Pick(s.pods.Keys, k, OfPod(m, s));
      assert t.pods.Keys == s.pods.Keys - {k};
      Congruence(t.pods.Keys, OfPod(m, t), OfPod(m, s));
    }
  }

  lemma AdmitMoves(m: Measure, s: State, k: PodKey)
    requires Shaped(s) && TableIsRing(s)
    ensures InPods(m, Admit(s, k)) == InPods(m, s)
  {
    if k !in s.pods {
      EvictMoves(m, s);
      EvictKeys(s);
      TakeSlotMoves(m, EvictFor(s), k);
    }
  }

  /** A new pod starts at nothing. */
  lemma TakeSlotMoves(m: Measure, s: State, k: PodKey)
    requires Shaped(s) && k !in s.pods && k !in s.podCost
    ensures InPods(m, TakeSlot(s, k)) == InPods(m, s)
  {
    var t := TakeSlot(s, k);
    assert t.pods.Keys == s.pods.Keys + {k};
    SumAdjust(s.pods.Keys, k, OfPod(m, s), OfPod(m, t));
  }

  lemma CountPodMoves(m: Measure, s: State, k: PodKey, f: Flow)
    requires k in s.pods
    ensures InPods(m, CountPod(s, k, f)) == InPods(m, s) + OfFlow(m, f)
  {
    var t := CountPod(s, k, f);
    assert t.pods.Keys == s.pods.Keys + {k};
    SumAdjust(s.pods.Keys, k, OfPod(m, s), OfPod(m, t));
  }

  lemma SamePods(m: Measure, s: State, t: State)
    requires t.pods == s.pods && t.podCost == s.podCost
    ensures Sum(t.pods.Keys, OfPod(m, t)) == Sum(s.pods.Keys, OfPod(m, s))
  {
    Congruence(s.pods.Keys, OfPod(m, s), OfPod(m, t));
  }

  lemma CountedTypes(m: Measure, s: State, f: Flow)
    requires Shaped(s)
    ensures InTypes(m, Counted(s, f)) == InTypes(m, s) + if f.isSidecar then 0.0 else OfFlow(m, f)
  {
    if f.isSidecar {
      SameTypes(m, s, Counted(s, f), NUM_TRAFFIC_TYPES);
    } else {
      TypesGrow(m, s, f);
      SameTypes(m, CountType(s, f), Counted(s, f), NUM_TRAFFIC_TYPES);
    }
  }

  lemma CountedPods(m: Measure, s: State, f: Flow)
    requires Shaped(s) && TableIsRing(s)
    ensures InPods(m, Counted(s, f)) == InPods(m, s) + if f.isSidecar then 0.0 else OfFlow(m, f)
  {
    if f.isSidecar {
      SamePods(m, s, Counted(s, f));
    } else {
      var t, k := CountType(s, f), PodKey(f.namespace, f.pod);
      SamePods(m, s, t);
      CountTypeKeepsRing(s, f);
      if Attributed(f) {
        AdmitMoves(m, t, k);
        CountPodMoves(m, Admit(t, k), k, f);
      } else {
        SamePods(m, t, CountUnattributed(t, f));
      }
    }
  }

  /** The bytes or dollars of the flows that are not sidecar-internal. */
  ghost function Billed(m: Measure, flows: seq<Flow>): real {
    if flows == [] then 0.0
    else
      var f := flows[|flows| - 1];
      Billed(m, flows[..|flows| - 1]) + if f.isSidecar then 0.0 else OfFlow(m, f)
  }

  function SidecarBytes(flows: seq<Flow>): nat {
    if flows == [] then 0
    else
      var f := flows[|flows| - 1];
      SidecarBytes(flows[..|flows| - 1]) + if f.isSidecar then f.tx + f.rx else 0
  }

  ghost predicate Sound(s: State) {
    Shaped(s) && TableIsRing(s) && Conserved(s)
  }

  lemma StartSound(slots: nat)
    requires slots > 0
    ensures Sound(Start(slots))
  {
    var s := Start(slots);
    assert Slots(s.window) == {};
    assert s.pods.Keys == {};
    forall m ensures InPods(m, s) == InTypes(m, s) {
      Empty(OfPod(m, s));
      NothingByType(m, s, NUM_TRAFFIC_TYPES);
    }
  }

  lemma {:induction false} NothingByType(m: Measure, s: State, n: nat)
    requires Shaped(s) && n <= NUM_TRAFFIC_TYPES
    requires forall i :: 0 <= i < NUM_TRAFFIC_TYPES ==> s.tx[i] == 0 && s.rx[i] == 0 && s.costs[i] == 0.0
    ensures OfTypes(m, s, n) == 0.0
  {
    if n > 0 { NothingByType(m, s, n - 1); }
  }

  /** Over any run of polls: the pod table is the used ring slots, at most as many as
      the ring has; the per-type totals are the billed input; live, evicted and
      unattributed add up to them exactly; and the skipped sidecar bytes are the rest. */
  lemma {:induction false} PollsAreAccountedFor(slots: nat, flows: seq<Flow>)
    requires slots > 0
    ensures var s := Polled(Start(slots), flows);
            && Sound(s) && |s.window| == slots && |s.pods| <= slots
            && (forall m :: InTypes(m, s) == Billed(m, flows))
            && s.skipped == SidecarBytes(flows)
  {
    var s := Polled(Start(slots), flows);
    if flows == [] {
      StartSound(slots);
      forall m ensures InTypes(m, s) == 0.0 { NothingByType(m, s, NUM_TRAFFIC_TYPES); }
    } else {
      var init, f := flows[..|flows| - 1], flows[|flows| - 1];
      PollsAreAccountedFor(slots, init);
      var before := Polled(Start(slots), init);
      CountedKeepsRing(before, f);
      forall m ensures InPods(m, s) == InTypes(m, s) && InTypes(m, s) == Billed(m, flows) {
        CountedTypes(m, before, f);
        CountedPods(m, before, f);
        assert InPods(m, before) == InTypes(m, before);
      }
    }
    FullIffOldestUsed(RingOf(s));
    assert |s.pods| == |s.pods.Keys|;
  }

  /** The pod that leaves for a new one is the one in the oldest slot; with room, none leaves. */
  lemma OldestPodLeaves(s: State, f: Flow)
    requires Sound(s) && !f.isSidecar && Attributed(f)
    ensures var k := PodKey(f.namespace, f.pod);
            Counted(s, f).pods.Keys == if k in s.pods then s.pods.Keys else s.pods.Keys + {k} - Oldest(s.window)
  {
    var t, k := CountType(s, f), PodKey(f.namespace, f.pod);
    CountTypeKeepsRing(s, f);
    if k !in t.pods { AdmitInserts(t, k); AdmitKeys(t, k); }
    CountPodKeepsRing(Admit(t, k), k, f);
  }

  /** The pods that took a slot in a run of polls, in the order they were seen: each
      when it was not in the table. */
  function Admitted(slots: nat, flows: seq<Flow>): seq<PodKey>
    requires slots > 0
  {
    if flows == [] then []
    else
      var init, f := flows[..|flows| - 1], flows[|flows| - 1];
      var k := PodKey(f.namespace, f.pod);
      Admitted(slots, init) + if !f.isSidecar && Attributed(f) && k !in Polled(Start(slots), init).pods then [k] else []
  }

  lemma CountedOnRing(s: State, f: Flow)
    requires Sound(s)
    ensures var k := PodKey(f.namespace, f.pod);
            RingOf(Counted(s, f)) ==
            if !f.isSidecar && Attributed(f) && k !in s.pods then Inserted(RingOf(s), k) else RingOf(s)
  {
    var t, k := CountType(s, f), PodKey(f.namespace, f.pod);
    assert RingOf(t) == RingOf(s);
    CountTypeKeepsRing(s, f);
    if !f.isSidecar && Attributed(f) {
      if k !in t.pods { AdmitInserts(t, k); }
      CountPodKeepsRing(Admit(t, k), k, f);
    }
  }

  /** First seen, first out: over any run of polls the pod table and its ring are those
      of a FIFO of the admitted pods, so the table holds exactly the newest of them. */
  lemma {:induction false} PodsLeaveInOrder(slots: nat, flows: seq<Flow>)
    requires slots > 0
    ensures var s, admitted := Polled(Start(slots), flows), Admitted(slots, flows);
            && AllNew(slots, admitted) && RingOf(s) == Run(Fresh(slots), admitted)
            && s.window == Newest(slots, admitted) && s.pods.Keys == Slots(Newest(slots, admitted))
  {
    var admitted := Admitted(slots, flows);
    if flows == [] {
      StartSound(slots);
      assert RingOf(Start(slots)) == Fresh(slots);
    } else {
      var init, f := flows[..|flows| - 1], flows[|flows| - 1];
      PodsLeaveInOrder(slots, init);
      PollsAreAccountedFor(slots, init);
      CountedOnRing(Polled(Start(slots), init), f);
      var before := Admitted(slots, init);
      if admitted != before {
        assert admitted[..|before|] == before;
        RunMore(slots, before, PodKey(f.namespace, f.pod));
      }
    }
    FifoWhenAllNew(slots, admitted);
    PollsAreAccountedFor(slots, flows);
  }

  // ----- which counter a flow moves -----

  /** Flows of type i, and with type 0 also those of no known type. */
  predicate CountsAs(f: Flow, i: nat) {
    !f.isSidecar && (f.kind == i || (i == 0 && (f.kind < 0 || f.kind >= NUM_TRAFFIC_TYPES)))
  }

  ghost function KindTotal(m: Measure, flows: seq<Flow>, i: nat): real {
    if flows == [] then 0.0
    else
      var f := flows[|flows| - 1];
      KindTotal(m, flows[..|flows| - 1], i) + if CountsAs(f, i) then OfFlow(m, f) else 0.0
  }

  /** Each type's counters are the sums over the flows of that type. */
  lemma {:induction false} TypesCountTheirFlows(m: Measure, slots: nat, flows: seq<Flow>, i: nat)
    requires slots > 0 && i < NUM_TRAFFIC_TYPES
    ensures OfType(m, Polled(Start(slots), flows), i) == KindTotal(m, flows, i)
  {
    if flows != [] {
      TypesCountTheirFlows(m, slots, flows[..|flows| - 1], i);
      CountedAsType(m, Polled(Start(slots), flows[..|flows| - 1]), flows[|flows| - 1], i);
    }
  }

  lemma CountedAsType(m: Measure, s: State, f: Flow, i: nat)
    requires Shaped(s) && i < NUM_TRAFFIC_TYPES
    ensures OfType(m, Counted(s, f), i) == OfType(m, s, i) + if CountsAs(f, i) then OfFlow(m, f) else 0.0
  {
    if !f.isSidecar { assert SameCounters(CountType(s, f), Counted(s, f)); }
  }

  predicate SameCounters(s: State, t: State) {
    t.tx == s.tx && t.rx == s.rx && t.costs == s.costs
  }

  /** A flow that names this pod, namespace and all. */
  predicate OfThisPod(f: Flow, k: PodKey) {
    !f.isSidecar && k.namespace != "" && k.pod != "" && f.namespace == k.namespace && f.pod == k.pod
  }

  ghost function PodTotal(m: Measure, flows: seq<Flow>, k: PodKey): real {
    if flows == [] then 0.0
    else
      var f := flows[|flows| - 1];
      PodTotal(m, flows[..|flows| - 1], k) + if OfThisPod(f, k) then OfFlow(m, f) else 0.0
  }

  /** The bytes or dollars of the flows that name no pod. */
  ghost function NamelessTotal(m: Measure, flows: seq<Flow>): real {
    if flows == [] then 0.0
    else
      var f := flows[|flows| - 1];
      NamelessTotal(m, flows[..|flows| - 1]) + if !f.isSidecar && (f.namespace == "" || f.pod == "") then OfFlow(m, f) else 0.0
  }

  ghost function Nameless(m: Measure, s: State): real {
    OfBytes(m, s.unattributed) + if m.Cost? then s.unattributedCost else 0.0
  }

  /** The pod's counters hold what its flows brought since it last entered the table. */
  ghost predicate CountedSince(m: Measure, s: State, flows: seq<Flow>, k: PodKey, since: nat) {
    since < |flows| && OfThisPod(flows[since], k) && OfPod(m, s)(k) == PodTotal(m, flows[since..], k)
  }

  lemma NothingInTable(m: Measure, s: State, k: PodKey)
    requires TableIsRing(s) && k !in s.pods
    ensures OfPod(m, s)(k) == 0.0
  {
  }

  /** What one flow does to the counters of a pod that is in the table afterwards. */
  lemma CountedForPod(m: Measure, s: State, f: Flow, k: PodKey)
    requires Sound(s) && k in Counted(s, f).pods
    ensures OfPod(m, Counted(s, f))(k) == OfPod(m, s)(k) + if OfThisPod(f, k) then OfFlow(m, f) else 0.0
    ensures k in s.pods || OfThisPod(f, k)
  {
    if !f.isSidecar && Attributed(f) {
      var t, mine := CountType(s, f), PodKey(f.namespace, f.pod);
      CountTypeKeepsRing(s, f);
      AdmitKeepsCounters(m, t, mine, k);
      CountPodCounts(m, Admit(t, mine), mine, f, k);
    }
  }

  /** A pod let in starts at nothing, and those that stay keep what they have. */
  lemma AdmitKeepsCounters(m: Measure, s: State, mine: PodKey, k: PodKey)
    requires Shaped(s) && TableIsRing(s)
    ensures mine in Admit(s, mine).pods
    ensures k in Admit(s, mine).pods ==> OfPod(m, Admit(s, mine))(k) == OfPod(m, s)(k) && (k in s.pods || k == mine)
  {
    if mine !in s.pods {
      EvictKeys(s);
      AdmitKeys(s, mine);
      NothingInTable(m, s, mine);
    }
  }

  lemma CountPodCounts(m: Measure, s: State, mine: PodKey, f: Flow, k: PodKey)
    requires mine in s.pods
    ensures OfPod(m, CountPod(s, mine, f))(k) == OfPod(m, s)(k) + if k == mine then OfFlow(m, f) else 0.0
    ensures CountPod(s, mine, f).pods.Keys == s.pods.Keys
  {
    assert CountPod(s, mine, f).pods.Keys == s.pods.Keys + {mine};
  }

  /** Over any run of polls a pod in the table counts exactly its own flows since it last
      entered: some flow of its own let it in, and every one from there on is counted. */
  lemma {:induction false} PodsCountTheirFlows(m: Measure, slots: nat, flows: seq<Flow>, k: PodKey) returns (since: nat)
    requires slots > 0 && k in Polled(Start(slots), flows).pods
    ensures CountedSince(m, Polled(Start(slots), flows), flows, k, since)
    ensures k !in Polled(Start(slots), flows[..since]).pods
  {
    var n := |flows| - 1;
    var init, f := flows[..n], flows[n];
    var before := Polled(Start(slots), init);
    PollsAreAccountedFor(slots, init);
    CountedForPod(m, before, f, k);
    if k in before.pods {
      since := PodsCountTheirFlows(m, slots, init, k);
      StillCountedSince(m, before, Counted(before, f), flows, k, since);
      assert flows[..since] == init[..since];
    } else {
      since := n;
      NothingInTable(m, before, k);
      CountedFromNow(m, Counted(before, f), flows, k);
    }
  }

  lemma StillCountedSince(m: Measure, s: State, t: State, flows: seq<Flow>, k: PodKey, since: nat)
    requires flows != [] && CountedSince(m, s, flows[..|flows| - 1], k, since)
    requires var f := flows[|flows| - 1]; OfPod(m, t)(k) == OfPod(m, s)(k) + if OfThisPod(f, k) then OfFlow(m, f) else 0.0
    ensures CountedSince(m, t, flows, k, since)
  {
    var n := |flows| - 1;
    assert flows[since..][..n - since] == flows[..n][since..];
  }

  lemma CountedFromNow(m: Measure, t: State, flows: seq<Flow>, k: PodKey)
    requires flows != [] && OfThisPod(flows[|flows| - 1], k) && OfPod(m, t)(k) == OfFlow(m, flows[|flows| - 1])
    ensures CountedSince(m, t, flows, k, |flows| - 1)
  {
    assert flows[|flows| - 1..] == [flows[|flows| - 1]];
    assert PodTotal(m, [], k) == 0.0;
  }

  lemma {:induction false} NamelessAreCounted(m: Measure, slots: nat, flows: seq<Flow>)
    requires slots > 0
    ensures Nameless(m, Polled(Start(slots), flows)) == NamelessTotal(m, flows)
  {
    if flows != [] { NamelessAreCounted(m, slots, flows[..|flows| - 1]); }
  }

  // ----- the exporter -----

  class Exporter {
    const txByType: array<nat>
    const rxByType: array<nat>
    const costByType: array<real>
    var sidecarSkippedBytes: nat
    var podMetrics: map<PodKey, Bytes>
    var podCost: map<PodKey, real>
    /** Unused slots hold no key. */
    const podRing: array<Option<PodKey>>
    var podRingPos: nat
    ghost var evicted: Bytes
    ghost var evictedCost: real
    ghost var unattributed: Bytes
    ghost var unattributedCost: real

    ghost predicate Valid()
      reads this
    {
      && podRingPos < podRing.Length
      && txByType.Length == rxByType.Length == costByType.Length == NUM_TRAFFIC_TYPES
      && txByType != rxByType
    }

    ghost function View(): State
      requires Valid()
      reads this, txByType, rxByType, costByType, podRing
    {
      State(txByType[..], rxByType[..], costByType[..], sidecarSkippedBytes, podMetrics, podCost,
            podRing[podRingPos..] + podRing[..podRingPos], evicted, evictedCost, unattributed, unattributedCost)
    }

    constructor ()
      ensures Valid() && View() == Start(MAX_POD_METRICS)
      ensures fresh(txByType) && fresh(rxByType) && fresh(costByType) && fresh(podRing)
    {
      txByType := new nat[NUM_TRAFFIC_TYPES](i => 0);
      rxByType := new nat[NUM_TRAFFIC_TYPES](i => 0);
      costByType := new real[NUM_TRAFFIC_TYPES](i => 0.0);
      podRing := new Option<PodKey>[MAX_POD_METRICS](i => None);
      sidecarSkippedBytes, podMetrics, podCost, podRingPos := 0, map[], map[], 0;
      evicted, evictedCost, unattributed, unattributedCost := ZERO, 0.0, ZERO, 0.0;
    }

    /** One poll: every flow counted in turn. */
    method UpdateFromPoll(flows: seq<Flow>)
      requires Valid()
      modifies this, txByType, rxByType, costByType, podRing
      ensures Valid() && View() == Polled(old(View()), flows)
    {
      for i := 0 to |flows|
        invariant Valid() && View() == Polled(old(View()), flows[..i])
      {
        assert flows[..i + 1][..i] == flows[..i];
        CountFlow(flows[i]);
      }
      assert flows[..|flows|] == flows;
    }

    method CountFlow(f: Flow)
      requires Valid()
      modifies this, txByType, rxByType, costByType, podRing
      ensures Valid() && View() == Counted(old(View()), f)
    {
      if f.isSidecar {
        sidecarSkippedBytes := sidecarSkippedBytes + f.tx + f.rx;
        return;
      }
      AddToType(f);
      if f.namespace != "" && f.pod != "" {
        var pk := PodKey(f.namespace, f.pod);
        if pk !in podMetrics {
          AdmitPod(pk);
        }
        AddToPod(pk, f);
      } else {
        unattributed, unattributedCost := unattributed.Plus(f), unattributedCost + Charge(f);
      }
    }

    method AddToType(f: Flow)
      requires Valid()
      modifies txByType, rxByType, costByType
      ensures View() == CountType(old(View()), f)
    {
      var idx := f.kind;
      if idx < 0 || idx >= NUM_TRAFFIC_TYPES {
        idx := 0;
      }
      txByType[idx] := txByType[idx] + f.tx;
      rxByType[idx] := rxByType[idx] + f.rx;
      if f.cost > 0.0 {
        costByType[idx] := costByType[idx] + f.cost;
      }
    }

    method AddToPod(pk: PodKey, f: Flow)
      requires Valid() && pk in podMetrics
      modifies `podMetrics, `podCost
      ensures Valid() && View() == CountPod(old(View()), pk, f)
    {
      podMetrics := podMetrics[pk := podMetrics[pk].Plus(f)];
      if f.cost > 0.0 {
        podCost := podCost[pk := (if pk in podCost then podCost[pk] else 0.0) + f.cost];
      }
    }

    /** A new pod: at capacity the oldest slot's pod is dropped; the slot is rewritten. */
    method AdmitPod(pk: PodKey)
      requires Valid() && pk !in podMetrics
      modifies this, podRing
      ensures Valid() && View() == Admit(old(View()), pk)
    {
      ghost var before, p := podRing[..], podRingPos;
      assert (podRing[podRingPos..] + podRing[..podRingPos])[0] == podRing[podRingPos];
      if |podMetrics| >= podRing.Length {
        var oldest := podRing[podRingPos];
        if oldest.Some? {
          if oldest.value in podMetrics {
            evicted := Bytes(evicted.tx + podMetrics[oldest.value].tx, evicted.rx + podMetrics[oldest.value].rx);
          }
          evictedCost := evictedCost + CostOf(podCost, oldest.value);
          podMetrics := podMetrics - {oldest.value};
          podCost := podCost - {oldest.value};
        }
      }
      podMetrics := podMetrics[pk := ZERO];
      podRing[podRingPos] := Some(pk);
      podRingPos := (podRingPos + 1) % podRing.Length;
      NextSlot(p, podRing.Length);
      Wraps(before, p, podRing[..], podRingPos, Some(pk));
    }
  }
}
