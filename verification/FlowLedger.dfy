/** Byte accounting from the kernel hooks to the poller, as a state machine: hooks
    run on several CPUs and interleave with the poller in any order. The ledgers
    (metered, forgone, lost, ended) are bookkeeping the program does not have.

    Atomicity: finding an entry and adding to it is one step; missing it and
    inserting a new one are two, so two CPUs can race for the insert. */
module FlowLedger {
  import opened Options
  import opened Counting
  import opened Sums

  type Cpu = nat
  type Cookie = nat

  const TCP := 6
  const UDP := 17
  const MAX_FLOWS := 131072

  datatype FlowKey = FlowKey(srcIP: nat, dstIP: nat, srcPort: nat, dstPort: nat, pid: nat, protocol: nat,
                             direction: nat)

  datatype Bytes = Bytes(tx: nat, rx: nat) {
    function Plus(b: Bytes): Bytes {
      Bytes(tx + b.tx, rx + b.rx)
    }
  }

  const ZERO := Bytes(0, 0)

  /** Bytes of one flow key, from one generation of a connection: a connection
      entry's tally, a metered delta, or a close event. */
  datatype Entry = Entry(key: FlowKey, gen: nat, bytes: Bytes)

  datatype Snapshot = Snapshot(key: FlowKey, bytes: Bytes)

  /** What the poller is doing: waiting for a tick, or draining the keys it listed. */
  datatype Phase = Idle | Draining(keys: seq<FlowKey>)

  /** How far runShutdown has come. Flushed: the final flush has listed its keys. */
  datatype Stage = Running | Stopping | Flushed | PollerStopped | PublisherClosed | LoaderClosed

  datatype State = State(
    conns: map<Cookie, Entry>, flows: map<FlowKey, seq<Bytes>>, pending: seq<Option<Entry>>, drops: nat,
    events: seq<Entry>, generations: nat,
    phase: Phase, stage: Stage, batch: seq<Snapshot>, handed: seq<Snapshot>,
    metered: seq<Entry>, forgone: seq<Entry>, lost: seq<Entry>, ended: seq<Entry>)

  datatype Step =
    | Establish(cpu: Cpu, cookie: Cookie, key: FlowKey)
    | ConnectUdp(cookie: Cookie, key: FlowKey)
    | Send(cpu: Cpu, cookie: Cookie, n: nat)
    | Receive(cpu: Cpu, cookie: Cookie, n: nat)
    | ReceiveUdp(cpu: Cpu, cookie: Cookie, n: nat)
    | Insert(cpu: Cpu, room: bool)
    | Close(cookie: Cookie, ringFull: bool)
    | HalfClose(cookie: Cookie)
    | Release(cookie: Cookie, protocol: nat)
    | Evict(cookie: Cookie)
    | ListKeys(keys: seq<FlowKey>, final: bool)
    | DrainKey
    | HandOver
    | StopPoller
    | ClosePublisher
    | CloseLoader

  function Init(cpus: nat): State {
    State(map[], map[], seq(cpus, _ => None), 0, [], 0, Idle, Running, [], [], [], [], [], [])
  }

  // ----- the hooks -----

  predicate Free(s: State, cpu: Cpu) {
    cpu < |s.pending| && s.pending[cpu].None?
  }

  function Credit(slots: seq<Bytes>, cpu: Cpu, b: Bytes): seq<Bytes>
    requires cpu < |slots|
  {
    slots[cpu := slots[cpu].Plus(b)]
  }

  /** A new entry: this CPU's slot holds b, the others are zero. */
  function NewSlots(cpus: nat, cpu: Cpu, b: Bytes): seq<Bytes> {
    if cpu < cpus then seq(cpus, _ => ZERO)[cpu := b] else []
  }

  /** Drops whatever tally the cookie had. */
  function EndTally(s: State, cookie: Cookie): State {
    if cookie in s.conns then s.(conns := s.conns - {cookie}, ended := s.ended + [s.conns[cookie]]) else s
  }

  /** A new connection entry, a new generation. */
  function Open(s: State, cookie: Cookie, key: FlowKey): State
    requires cookie !in s.conns
  {
    s.(conns := s.conns[cookie := Entry(key, s.generations, ZERO)], generations := s.generations + 1)
  }

  /** Adds to the flow entry when it is there; otherwise the insert is still to come. */
  function UpdateAggregate(s: State, cpu: Cpu, d: Entry): State
    requires Free(s, cpu)
  {
    if d.key in s.flows && cpu < |s.flows[d.key]|
    then s.(flows := s.flows[d.key := Credit(s.flows[d.key], cpu, d.bytes)])
    else s.(pending := s.pending[cpu := Some(d)])
  }

  function Tally(s: State, cookie: Cookie, b: Bytes): State
    requires cookie in s.conns
  {
    s.(conns := s.conns[cookie := s.conns[cookie].(bytes := s.conns[cookie].bytes.Plus(b))])
  }

  /** The send hooks and the TCP receive hook. */
  function Meter(s: State, cpu: Cpu, cookie: Cookie, b: Bytes): State
    requires Free(s, cpu) && cookie in s.conns
  {
    var d := s.conns[cookie].(bytes := b);
    UpdateAggregate(Tally(s, cookie, b), cpu, d).(metered := s.metered + [d])
  }

  /** The UDP receive hook adds to a flow entry only when it is already there. */
  function MeterIfPresent(s: State, cpu: Cpu, cookie: Cookie, b: Bytes): State
    requires Free(s, cpu) && cookie in s.conns
  {
    var d := s.conns[cookie].(bytes := b);
    if d.key in s.flows then Meter(s, cpu, cookie, b)
    else Tally(s, cookie, b).(forgone := s.forgone + [d])
  }

  /** The second half of a miss: insert unless the key has appeared meanwhile or
      there is no room. */
  function InsertPending(s: State, cpu: Cpu, room: bool): State
    requires cpu < |s.pending| && s.pending[cpu].Some?
  {
    var d := s.pending[cpu].value;
    var t := s.(pending := s.pending[cpu := None]);
    if d.key !in s.flows && room
    then t.(flows := t.flows[d.key := NewSlots(|s.pending|, cpu, d.bytes)])
    else t.(drops := s.drops + 1, lost := s.lost + [d])
  }

  function SumSlots(slots: seq<Bytes>): Bytes {
    if slots == [] then ZERO else SumSlots(slots[..|slots| - 1]).Plus(slots[|slots| - 1])
  }

  /** Reading and removing one listed key; a key that is gone is skipped. */
  function DrainFirst(s: State): State
    requires s.phase.Draining? && s.phase.keys != []
  {
    var key := s.phase.keys[0];
    var t := s.(phase := Draining(s.phase.keys[1..]));
    if key in s.flows
    then t.(flows := s.flows - {key}, batch := s.batch + [Snapshot(key, SumSlots(s.flows[key]))])
    else t
  }

  predicate Enabled(s: State, step: Step) {
    match step
    case Establish(cpu, cookie, key) => Free(s, cpu) && key.protocol == TCP
    case ConnectUdp(cookie, key) => key.protocol == UDP
    case Send(cpu, cookie, n) => Free(s, cpu) && cookie in s.conns && n > 0
    case Receive(cpu, cookie, n) => Free(s, cpu) && cookie in s.conns && n > 0
    case ReceiveUdp(cpu, cookie, n) =>
      Free(s, cpu) && cookie in s.conns && n > 0 && s.conns[cookie].key.protocol == UDP
    case Insert(cpu, room) => cpu < |s.pending| && s.pending[cpu].Some? && (room ==> |s.flows| < MAX_FLOWS)
    case Close(cookie, ringFull) => true
    case HalfClose(cookie) => true
    case Release(cookie, protocol) => cookie in s.conns ==> s.conns[cookie].key.protocol == protocol
    case Evict(cookie) => true
    case ListKeys(keys, final) => s.phase.Idle? && (s.stage == Stopping || (s.stage == Running && !final))
    case DrainKey => s.phase.Draining? && s.phase.keys != []
    case HandOver => s.phase.Draining? && s.phase.keys == []
    case StopPoller => s.stage == Running
    case ClosePublisher => s.stage == PollerStopped
    case CloseLoader => s.stage == PublisherClosed
  }

  function Apply(s: State, step: Step): State
    requires Enabled(s, step)
  {
    match step
    case Establish(cpu, cookie, key) =>
      var t := Open(EndTally(s, cookie), cookie, key);
      if key in s.flows then t else UpdateAggregate(t, cpu, t.conns[cookie])
    case ConnectUdp(cookie, key) => if cookie in s.conns then s else Open(s, cookie, key)
    case Send(cpu, cookie, n) => Meter(s, cpu, cookie, Bytes(n, 0))
    case Receive(cpu, cookie, n) => Meter(s, cpu, cookie, Bytes(0, n))
    case ReceiveUdp(cpu, cookie, n) => MeterIfPresent(s, cpu, cookie, Bytes(0, n))
    case Insert(cpu, room) => InsertPending(s, cpu, room)
    case Close(cookie, ringFull) =>
      if cookie in s.conns && !ringFull then EndTally(s, cookie).(events := s.events + [s.conns[cookie]])
      else EndTally(s, cookie)
    case HalfClose(cookie) => s
    case Release(cookie, protocol) => if protocol == TCP then s else EndTally(s, cookie)
    case Evict(cookie) => EndTally(s, cookie)
    case ListKeys(keys, final) => s.(phase := Draining(keys), stage := if final then Flushed else s.stage)
    case DrainKey => DrainFirst(s)
    case HandOver =>
      s.(phase := Idle, handed := s.handed + s.batch, batch := [],
         stage := if s.stage == Flushed then PollerStopped else s.stage)
    case StopPoller => s.(stage := Stopping)
    case ClosePublisher => s.(stage := PublisherClosed)
    case CloseLoader => s.(stage := LoaderClosed)
  }

  // ----- what the ledgers say -----

  datatype Dir = Tx | Rx

  ghost function Amount(b: Bytes, dir: Dir): nat {
    if dir == Tx then b.tx else b.rx
  }

  ghost function OfSlot(dir: Dir): Bytes -> nat {
    (b: Bytes) => Amount(b, dir)
  }

  ghost function OfKey(k: FlowKey, dir: Dir): Entry -> nat {
    (e: Entry) => if e.key == k then Amount(e.bytes, dir) else 0
  }

  ghost function OfGen(g: nat, dir: Dir): Entry -> nat {
    (e: Entry) => if e.gen == g then Amount(e.bytes, dir) else 0
  }

  ghost function OfSnapshot(k: FlowKey, dir: Dir): Snapshot -> nat {
    (p: Snapshot) => if p.key == k then Amount(p.bytes, dir) else 0
  }

  ghost function OfPending(k: FlowKey, dir: Dir): Option<Entry> -> nat {
    (p: Option<Entry>) => if p.Some? && p.value.key == k then Amount(p.value.bytes, dir) else 0
  }

  /** Bytes waiting in the per-CPU slots of a flow entry. */
  ghost function Resident(s: State, k: FlowKey, dir: Dir): nat {
    if k in s.flows then Add(s.flows[k], OfSlot(dir)) else 0
  }

  ghost predicate FlowBalanced(s: State, k: FlowKey, dir: Dir) {
    Add(s.metered, OfKey(k, dir)) ==
    Add(s.handed, OfSnapshot(k, dir)) + Add(s.batch, OfSnapshot(k, dir)) + Resident(s, k, dir) +
    Add(s.pending, OfPending(k, dir)) + Add(s.lost, OfKey(k, dir))
  }

  /** Every metered byte is delivered, in the batch, in a slot, about to be inserted, or lost. */
  ghost predicate FlowsBalanced(s: State) {
    forall k, dir :: FlowBalanced(s, k, dir)
  }

  predicate Shaped(s: State) {
    && (forall k :: k in s.flows ==> |s.flows[k]| == |s.pending|)
    && |s.flows| <= MAX_FLOWS
    && s.drops == |s.lost|
  }

  lemma SumSlotsAdds(slots: seq<Bytes>, dir: Dir)
    ensures Amount(SumSlots(slots), dir) == Add(slots, OfSlot(dir))
  {
  }

  lemma NewSlotsAdd(cpus: nat, cpu: Cpu, b: Bytes, dir: Dir)
    requires cpu < cpus
    ensures |NewSlots(cpus, cpu, b)| == cpus
    ensures Add(NewSlots(cpus, cpu, b), OfSlot(dir)) == Amount(b, dir)
  {
    var zeros := seq(cpus, _ => ZERO);
    AddNone(zeros, OfSlot(dir));
    AddPut(zeros, cpu, b, OfSlot(dir));
  }

  lemma UpdateAggregateAdds(s: State, cpu: Cpu, d: Entry, k: FlowKey, dir: Dir)
    requires Free(s, cpu) && Shaped(s)
    ensures var t := UpdateAggregate(s, cpu, d);
            Resident(t, k, dir) + Add(t.pending, OfPending(k, dir)) ==
            Resident(s, k, dir) + Add(s.pending, OfPending(k, dir)) + OfKey(k, dir)(d)
  {
    if d.key in s.flows {
      if d.key == k {
        AddPut(s.flows[k], cpu, s.flows[k][cpu].Plus(d.bytes), OfSlot(dir));
      }
    } else {
      AddPut(s.pending, cpu, Some(d), OfPending(k, dir));
    }
  }

  lemma MeterBalances(s: State, cpu: Cpu, cookie: Cookie, b: Bytes, k: FlowKey, dir: Dir)
    requires Free(s, cpu) && cookie in s.conns && Shaped(s) && FlowBalanced(s, k, dir)
    ensures FlowBalanced(Meter(s, cpu, cookie, b), k, dir)
  {
    var d := s.conns[cookie].(bytes := b);
    UpdateAggregateAdds(Tally(s, cookie, b), cpu, d, k, dir);
    AddMore(s.metered, d, OfKey(k, dir));
  }

  /** The bytes of one pending insert, moved out of its CPU's slot. */
  lemma TakePending(pending: seq<Option<Entry>>, cpu: Cpu, k: FlowKey, dir: Dir)
    requires cpu < |pending| && pending[cpu].Some?
    ensures Add(pending[cpu := None], OfPending(k, dir)) + OfKey(k, dir)(pending[cpu].value) == Add(pending, OfPending(k, dir))
  {
    AddPut(pending, cpu, None, OfPending(k, dir));
  }

  lemma InsertBalances(s: State, cpu: Cpu, room: bool, k: FlowKey, dir: Dir)
    requires cpu < |s.pending| && s.pending[cpu].Some? && FlowBalanced(s, k, dir)
    ensures FlowBalanced(InsertPending(s, cpu, room), k, dir)
  {
    var d, t := s.pending[cpu].value, InsertPending(s, cpu, room);
    TakePending(s.pending, cpu, k, dir);
    if d.key !in s.flows && room {
      NewSlotsAdd(|s.pending|, cpu, d.bytes, dir);
      assert Resident(t, k, dir) == Resident(s, k, dir) + OfKey(k, dir)(d);
    } else {
      AddMore(s.lost, d, OfKey(k, dir));
      assert Resident(t, k, dir) == Resident(s, k, dir);
    }
  }

  lemma DrainBalances(s: State, k: FlowKey, dir: Dir)
    requires s.phase.Draining? && s.phase.keys != [] && FlowBalanced(s, k, dir)
    ensures FlowBalanced(DrainFirst(s), k, dir)
  {
    var key := s.phase.keys[0];
    if key in s.flows {
      AddMore(s.batch, Snapshot(key, SumSlots(s.flows[key])), OfSnapshot(k, dir));
      SumSlotsAdds(s.flows[key], dir);
    }
  }

  lemma EstablishBalances(s: State, cpu: Cpu, cookie: Cookie, key: FlowKey, k: FlowKey, dir: Dir)
    requires Enabled(s, Establish(cpu, cookie, key)) && Shaped(s) && FlowBalanced(s, k, dir)
    ensures FlowBalanced(Apply(s, Establish(cpu, cookie, key)), k, dir)
  {
    var t := Open(EndTally(s, cookie), cookie, key);
    assert t.flows == s.flows && t.pending == s.pending && FlowBalanced(t, k, dir);
    UpdateAggregateAdds(t, cpu, t.conns[cookie], k, dir);
  }

  lemma FlowsStayBalanced(s: State, step: Step)
    requires Enabled(s, step) && Shaped(s) && FlowsBalanced(s)
    ensures FlowsBalanced(Apply(s, step))
  {
    var t := Apply(s, step);
    forall k, dir ensures FlowBalanced(t, k, dir) {
      assert FlowBalanced(s, k, dir);
      match step {
        case Establish(cpu, cookie, key) => EstablishBalances(s, cpu, cookie, key, k, dir);
        case Send(cpu, cookie, n) => MeterBalances(s, cpu, cookie, Bytes(n, 0), k, dir);
        case Receive(cpu, cookie, n) => MeterBalances(s, cpu, cookie, Bytes(0, n), k, dir);
        case ReceiveUdp(cpu, cookie, n) => MeterBalances(s, cpu, cookie, Bytes(0, n), k, dir);
        case Insert(cpu, room) => InsertBalances(s, cpu, room, k, dir);
        case DrainKey => DrainBalances(s, k, dir);
        case HandOver => AddAll(s.handed, s.batch, OfSnapshot(k, dir));
        case _ =>
      }
    }
  }

  lemma InsertShaped(s: State, cpu: Cpu, room: bool)
    requires Enabled(s, Insert(cpu, room)) && Shaped(s)
    ensures Shaped(InsertPending(s, cpu, room))
  {
    var d := s.pending[cpu].value;
    if d.key !in s.flows && room {
      var t := InsertPending(s, cpu, room);
      assert t.flows.Keys == s.flows.Keys + {d.key};
    }
  }

  lemma DrainShaped(s: State)
    requires Enabled(s, DrainKey) && Shaped(s)
    ensures Shaped(DrainFirst(s))
  {
    var key := s.phase.keys[0];
    if key in s.flows {
      assert DrainFirst(s).flows.Keys == s.flows.Keys - {key};
    }
  }

  lemma UpdateShaped(s: State, cpu: Cpu, d: Entry)
    requires Free(s, cpu) && Shaped(s)
    ensures Shaped(UpdateAggregate(s, cpu, d))
  {
    if d.key in s.flows {
      assert UpdateAggregate(s, cpu, d).flows.Keys == s.flows.Keys;
    }
  }

  lemma MeterShaped(s: State, cpu: Cpu, cookie: Cookie, b: Bytes)
    requires Free(s, cpu) && cookie in s.conns && Shaped(s)
    ensures Shaped(Meter(s, cpu, cookie, b)) && Shaped(MeterIfPresent(s, cpu, cookie, b))
  {
    UpdateShaped(Tally(s, cookie, b), cpu, s.conns[cookie].(bytes := b));
  }

  lemma StaysShaped(s: State, step: Step)
    requires Enabled(s, step) && Shaped(s)
    ensures Shaped(Apply(s, step))
  {
    match step {
      case Establish(cpu, cookie, key) =>
        var t := Open(EndTally(s, cookie), cookie, key);
        UpdateShaped(t, cpu, t.conns[cookie]);
      case Send(cpu, cookie, n) => MeterShaped(s, cpu, cookie, Bytes(n, 0));
      case Receive(cpu, cookie, n) => MeterShaped(s, cpu, cookie, Bytes(0, n));
      case ReceiveUdp(cpu, cookie, n) => MeterShaped(s, cpu, cookie, Bytes(0, n));
      case Insert(cpu, room) => InsertShaped(s, cpu, room);
      case DrainKey => DrainShaped(s);
      case _ =>
    }
  }

  // ----- the connection table agrees with the flow table -----

  ghost function LiveWeight(conns: map<Cookie, Entry>, k: FlowKey, dir: Dir): Cookie -> real {
    c => if c in conns then OfKey(k, dir)(conns[c]) as real else 0.0
  }

  /** The tallies of the live connections of a flow key. */
  ghost function Live(conns: map<Cookie, Entry>, k: FlowKey, dir: Dir): real {
    Sum(conns.Keys, LiveWeight(conns, k, dir))
  }

  /** Live tallies and ended ones are the metered bytes, plus the UDP receive bytes
      that found no flow entry. */
  ghost predicate ConnBalanced(s: State, k: FlowKey, dir: Dir) {
    Live(s.conns, k, dir) + Add(s.ended, OfKey(k, dir)) as real ==
    Add(s.metered, OfKey(k, dir)) as real + Add(s.forgone, OfKey(k, dir)) as real
  }

  ghost predicate ConnsBalanced(s: State) {
    forall k, dir :: ConnBalanced(s, k, dir)
  }

  lemma LivePut(conns: map<Cookie, Entry>, cookie: Cookie, e: Entry, k: FlowKey, dir: Dir)
    ensures Live(conns[cookie := e], k, dir) ==
            Live(conns, k, dir) + OfKey(k, dir)(e) as real - LiveWeight(conns, k, dir)(cookie)
  {
    var more := conns[cookie := e];
    assert more.Keys == conns.Keys + {cookie};
    SumAdjust(conns.Keys, cookie, LiveWeight(conns, k, dir), LiveWeight(more, k, dir));
  }

  lemma LiveDrop(conns: map<Cookie, Entry>, cookie: Cookie, k: FlowKey, dir: Dir)
    requires cookie in conns
    ensures Live(conns - {cookie}, k, dir) == Live(conns, k, dir) - OfKey(k, dir)(conns[cookie]) as real
  {
    var fewer := conns - {cookie};
    assert fewer.Keys == conns.Keys - {cookie};
    Pick(conns.Keys, cookie, LiveWeight(conns, k, dir));
    Congruence(fewer.Keys, LiveWeight(fewer, k, dir), LiveWeight(conns, k, dir));
  }

  lemma EndBalances(s: State, cookie: Cookie, k: FlowKey, dir: Dir)
    requires ConnBalanced(s, k, dir)
    ensures ConnBalanced(EndTally(s, cookie), k, dir)
  {
    if cookie in s.conns {
      LiveDrop(s.conns, cookie, k, dir);
      AddMore(s.ended, s.conns[cookie], OfKey(k, dir));
    }
  }

  lemma OpenBalances(s: State, cookie: Cookie, key: FlowKey, k: FlowKey, dir: Dir)
    requires ConnBalanced(s, k, dir) && cookie !in s.conns
    ensures ConnBalanced(Open(s, cookie, key), k, dir)
  {
    LivePut(s.conns, cookie, Entry(key, s.generations, ZERO), k, dir);
  }

  lemma TallyAdds(s: State, cookie: Cookie, b: Bytes, k: FlowKey, dir: Dir)
    requires cookie in s.conns
    ensures Live(Tally(s, cookie, b).conns, k, dir) ==
            Live(s.conns, k, dir) + OfKey(k, dir)(s.conns[cookie].(bytes := b)) as real
  {
    LivePut(s.conns, cookie, s.conns[cookie].(bytes := s.conns[cookie].bytes.Plus(b)), k, dir);
  }

  lemma MeterBalancesConns(s: State, cpu: Cpu, cookie: Cookie, b: Bytes, k: FlowKey, dir: Dir)
    requires Free(s, cpu) && cookie in s.conns && ConnBalanced(s, k, dir)
    ensures ConnBalanced(Meter(s, cpu, cookie, b), k, dir)
    ensures ConnBalanced(MeterIfPresent(s, cpu, cookie, b), k, dir)
  {
    TallyAdds(s, cookie, b, k, dir);
    AddMore(s.metered, s.conns[cookie].(bytes := b), OfKey(k, dir));
    AddMore(s.forgone, s.conns[cookie].(bytes := b), OfKey(k, dir));
  }

  lemma ConnsStayBalanced(s: State, step: Step)
    requires Enabled(s, step) && ConnsBalanced(s)
    ensures ConnsBalanced(Apply(s, step))
  {
    var t := Apply(s, step);
    forall k, dir ensures ConnBalanced(t, k, dir) {
      assert ConnBalanced(s, k, dir);
      match step {
        case Establish(cpu, cookie, key) =>
          EndBalances(s, cookie, k, dir);
          OpenBalances(EndTally(s, cookie), cookie, key, k, dir);
        case ConnectUdp(cookie, key) => if cookie !in s.conns { OpenBalances(s, cookie, key, k, dir); }
        case Send(cpu, cookie, n) => MeterBalancesConns(s, cpu, cookie, Bytes(n, 0), k, dir);
        case Receive(cpu, cookie, n) => MeterBalancesConns(s, cpu, cookie, Bytes(0, n), k, dir);
        case ReceiveUdp(cpu, cookie, n) => MeterBalancesConns(s, cpu, cookie, Bytes(0, n), k, dir);
        case Close(cookie, ringFull) => EndBalances(s, cookie, k, dir);
        case Release(cookie, protocol) => EndBalances(s, cookie, k, dir);
        case Evict(cookie) => EndBalances(s, cookie, k, dir);
        case _ =>
      }
    }
  }

  // ----- generations and close events -----

  /** The part of the state that says which generation each byte belongs to. */
  datatype Table = Table(conns: map<Cookie, Entry>, events: seq<Entry>, generations: nat,
                         metered: seq<Entry>, forgone: seq<Entry>)

  function TableOf(s: State): Table {
    Table(s.conns, s.events, s.generations, s.metered, s.forgone)
  }

  ghost function Recorded(t: Table, g: nat, dir: Dir): nat {
    Add(t.metered, OfGen(g, dir)) + Add(t.forgone, OfGen(g, dir))
  }

  /** The entry's tally is exactly what was recorded for its generation, all of it
      under the entry's flow key. */
  ghost predicate Exact(t: Table, e: Entry) {
    && e.gen < t.generations
    && (forall dir :: Amount(e.bytes, dir) == Recorded(t, e.gen, dir))
    && (forall d :: d in t.metered && d.gen == e.gen ==> d.key == e.key)
    && (forall d :: d in t.forgone && d.gen == e.gen ==> d.key == e.key)
  }

  /** No two entries, live or closed, share a generation. */
  ghost predicate Apart(t: Table) {
    && (forall c, d :: c in t.conns && d in t.conns && c != d ==> t.conns[c].gen != t.conns[d].gen)
    && (forall i, j :: 0 <= i < j < |t.events| ==> t.events[i].gen != t.events[j].gen)
    && (forall c, i :: c in t.conns && 0 <= i < |t.events| ==> t.conns[c].gen != t.events[i].gen)
  }

  ghost predicate AllExact(t: Table) {
    && (forall c :: c in t.conns ==> Exact(t, t.conns[c]))
    && (forall i :: 0 <= i < |t.events| ==> Exact(t, t.events[i]))
  }

  /** Generations to come have recorded nothing; only UDP receives are forgone. */
  ghost predicate LogsKept(t: Table) {
    && (forall d :: d in t.metered ==> d.gen < t.generations)
    && (forall d :: d in t.forgone ==> d.gen < t.generations && d.key.protocol == UDP && d.bytes.tx == 0)
  }

  ghost predicate GenerationsKept(t: Table) {
    Apart(t) && AllExact(t) && LogsKept(t)
  }

  function Log(t: Table, cookie: Cookie, b: Bytes, found: bool): Table
    requires cookie in t.conns
  {
    var e := t.conns[cookie];
    var d := e.(bytes := b);
    Table(t.conns[cookie := e.(bytes := e.bytes.Plus(b))], t.events, t.generations,
          if found then t.metered + [d] else t.metered, if found then t.forgone else t.forgone + [d])
  }

  lemma LogAdds(t: Table, cookie: Cookie, b: Bytes, found: bool, g: nat, dir: Dir)
    requires cookie in t.conns
    ensures Recorded(Log(t, cookie, b, found), g, dir) ==
            Recorded(t, g, dir) + if g == t.conns[cookie].gen then Amount(b, dir) else 0
  {
    var d := t.conns[cookie].(bytes := b);
    AddMore(t.metered, d, OfGen(g, dir));
    AddMore(t.forgone, d, OfGen(g, dir));
  }

  lemma LogKeepsExact(t: Table, cookie: Cookie, b: Bytes, found: bool, e: Entry)
    requires cookie in t.conns && Exact(t, e) && e.gen != t.conns[cookie].gen
    ensures Exact(Log(t, cookie, b, found), e)
  {
    forall dir ensures Amount(e.bytes, dir) == Recorded(Log(t, cookie, b, found), e.gen, dir) {
      LogAdds(t, cookie, b, found, e.gen, dir);
    }
  }

  lemma LogIsExact(t: Table, cookie: Cookie, b: Bytes, found: bool)
    requires cookie in t.conns && Exact(t, t.conns[cookie])
    ensures var u := Log(t, cookie, b, found); Exact(u, u.conns[cookie])
  {
    var u := Log(t, cookie, b, found);
    var e := u.conns[cookie];
    forall dir ensures Amount(e.bytes, dir) == Recorded(u, e.gen, dir) {
      LogAdds(t, cookie, b, found, e.gen, dir);
    }
  }

  lemma LogKeeps(t: Table, cookie: Cookie, b: Bytes, found: bool)
    requires cookie in t.conns && GenerationsKept(t)
    requires !found ==> t.conns[cookie].key.protocol == UDP && b.tx == 0
    ensures GenerationsKept(Log(t, cookie, b, found))
  {
    var u := Log(t, cookie, b, found);
    forall c | c in u.conns ensures Exact(u, u.conns[c]) {
      if c == cookie { LogIsExact(t, cookie, b, found); } else { LogKeepsExact(t, cookie, b, found, t.conns[c]); }
    }
    forall i | 0 <= i < |u.events| ensures Exact(u, u.events[i]) {
      LogKeepsExact(t, cookie, b, found, t.events[i]);
    }
  }

  function OpenIn(t: Table, cookie: Cookie, key: FlowKey): Table {
    t.(conns := t.conns[cookie := Entry(key, t.generations, ZERO)], generations := t.generations + 1)
  }

  lemma NothingRecorded(t: Table, dir: Dir)
    requires LogsKept(t)
    ensures Recorded(t, t.generations, dir) == 0
  {
    AddNone(t.metered, OfGen(t.generations, dir));
    AddNone(t.forgone, OfGen(t.generations, dir));
  }

  lemma StaysExact(t: Table, u: Table, e: Entry)
    requires Exact(t, e) && u.metered == t.metered && u.forgone == t.forgone && u.generations >= t.generations
    ensures Exact(u, e)
  {
    forall dir ensures Amount(e.bytes, dir) == Recorded(u, e.gen, dir) {
      assert Amount(e.bytes, dir) == Recorded(t, e.gen, dir);
    }
  }

  lemma OpenKeeps(t: Table, cookie: Cookie, key: FlowKey)
    requires GenerationsKept(t) && cookie !in t.conns
    ensures GenerationsKept(OpenIn(t, cookie, key))
  {
    var u := OpenIn(t, cookie, key);
    forall c | c in u.conns ensures Exact(u, u.conns[c]) {
      if c == cookie {
        forall dir ensures Amount(ZERO, dir) == Recorded(u, t.generations, dir) { NothingRecorded(t, dir); }
      } else {
        StaysExact(t, u, t.conns[c]);
      }
    }
    forall i | 0 <= i < |u.events| ensures Exact(u, u.events[i]) { StaysExact(t, u, t.events[i]); }
  }

  function EndIn(t: Table, cookie: Cookie, event: bool): Table {
    t.(conns := t.conns - {cookie}, events := if event && cookie in t.conns then t.events + [t.conns[cookie]] else t.events)
  }

  lemma EndKeeps(t: Table, cookie: Cookie, event: bool)
    requires GenerationsKept(t)
    ensures GenerationsKept(EndIn(t, cookie, event))
  {
    var u := EndIn(t, cookie, event);
    forall c | c in u.conns ensures Exact(u, u.conns[c]) { StaysExact(t, u, t.conns[c]); }
    forall i | 0 <= i < |u.events| ensures Exact(u, u.events[i]) { StaysExact(t, u, u.events[i]); }
  }

  /** What a step does to the table; `found` says that the flow entry was there. */
  function TableAfter(t: Table, step: Step, found: bool): Table {
    match step
    case Establish(cpu, cookie, key) => OpenIn(EndIn(t, cookie, false), cookie, key)
    case ConnectUdp(cookie, key) => if cookie in t.conns then t else OpenIn(t, cookie, key)
    case Send(cpu, cookie, n) => if cookie in t.conns then Log(t, cookie, Bytes(n, 0), true) else t
    case Receive(cpu, cookie, n) => if cookie in t.conns then Log(t, cookie, Bytes(0, n), true) else t
    case ReceiveUdp(cpu, cookie, n) => if cookie in t.conns then Log(t, cookie, Bytes(0, n), found) else t
    case Close(cookie, ringFull) => EndIn(t, cookie, !ringFull)
    case Release(cookie, protocol) => if protocol == TCP then t else EndIn(t, cookie, false)
    case Evict(cookie) => EndIn(t, cookie, false)
    case _ => t
  }

  predicate FoundFlow(s: State, step: Step) {
    step.ReceiveUdp? && step.cookie in s.conns && s.conns[step.cookie].key in s.flows
  }

  lemma EndTallyTable(s: State, cookie: Cookie)
    ensures TableOf(EndTally(s, cookie)) == EndIn(TableOf(s), cookie, false)
  {
    if cookie !in s.conns { assert s.conns - {cookie} == s.conns; }
  }

  lemma MeterOnTable(s: State, cpu: Cpu, cookie: Cookie, b: Bytes)
    requires Free(s, cpu) && cookie in s.conns
    ensures TableOf(Meter(s, cpu, cookie, b)) == Log(TableOf(s), cookie, b, true)
    ensures TableOf(MeterIfPresent(s, cpu, cookie, b)) == Log(TableOf(s), cookie, b, s.conns[cookie].key in s.flows)
  {
  }

  lemma StepOnTable(s: State, step: Step)
    requires Enabled(s, step)
    ensures TableOf(Apply(s, step)) == TableAfter(TableOf(s), step, FoundFlow(s, step))
  {
    match step {
      case Establish(cpu, cookie, key) => EndTallyTable(s, cookie);
      case Send(cpu, cookie, n) => MeterOnTable(s, cpu, cookie, Bytes(n, 0));
      case Receive(cpu, cookie, n) => MeterOnTable(s, cpu, cookie, Bytes(0, n));
      case ReceiveUdp(cpu, cookie, n) => MeterOnTable(s, cpu, cookie, Bytes(0, n));
      case Close(cookie, ringFull) => EndTallyTable(s, cookie);
      case Release(cookie, protocol) => EndTallyTable(s, cookie);
      case Evict(cookie) => EndTallyTable(s, cookie);
      case _ =>
    }
  }

  lemma TableStaysKept(t: Table, step: Step, found: bool)
    requires GenerationsKept(t)
    requires step.ReceiveUdp? && step.cookie in t.conns ==> t.conns[step.cookie].key.protocol == UDP
    ensures GenerationsKept(TableAfter(t, step, found))
  {
    match step {
      case Establish(cpu, cookie, key) =>
        EndKeeps(t, cookie, false);
        OpenKeeps(EndIn(t, cookie, false), cookie, key);
      case ConnectUdp(cookie, key) => if cookie !in t.conns { OpenKeeps(t, cookie, key); }
      case Send(cpu, cookie, n) => if cookie in t.conns { LogKeeps(t, cookie, Bytes(n, 0), true); }
      case Receive(cpu, cookie, n) => if cookie in t.conns { LogKeeps(t, cookie, Bytes(0, n), true); }
      case ReceiveUdp(cpu, cookie, n) => if cookie in t.conns { LogKeeps(t, cookie, Bytes(0, n), found); }
      case Close(cookie, ringFull) => EndKeeps(t, cookie, !ringFull);
      case Release(cookie, protocol) => EndKeeps(t, cookie, false);
      case Evict(cookie) => EndKeeps(t, cookie, false);
      case _ =>
    }
  }

  // ----- shutdown -----

  /** Once the final flush is over nothing is waiting in the poller; while it runs,
      the poller is draining. */
  predicate Orderly(s: State) {
    && (s.phase.Idle? ==> s.batch == [])
    && (s.stage == Flushed ==> s.phase.Draining?)
    && (s.stage in {PollerStopped, PublisherClosed, LoaderClosed} ==> s.phase.Idle?)
  }

  lemma StaysOrderly(s: State, step: Step)
    requires Enabled(s, step) && Orderly(s)
    ensures Orderly(Apply(s, step))
  {
  }

  // ----- every run -----

  ghost predicate Sound(s: State) {
    Shaped(s) && FlowsBalanced(s) && ConnsBalanced(s) && GenerationsKept(TableOf(s)) && Orderly(s)
  }

  lemma InitSound(cpus: nat)
    ensures Sound(Init(cpus))
  {
    var s := Init(cpus);
    forall k, dir ensures FlowBalanced(s, k, dir) && ConnBalanced(s, k, dir) {
      AddNone(s.pending, OfPending(k, dir));
      Empty(LiveWeight(map[], k, dir));
      assert s.conns.Keys == {};
    }
  }

  lemma StaysSound(s: State, step: Step)
    requires Enabled(s, step) && Sound(s)
    ensures Sound(Apply(s, step))
  {
    StaysShaped(s, step);
    FlowsStayBalanced(s, step);
    ConnsStayBalanced(s, step);
    StepOnTable(s, step);
    TableStaysKept(TableOf(s), step, FoundFlow(s, step));
    StaysOrderly(s, step);
  }

  /** The steps can be taken from s in this order. */
  predicate Possible(s: State, steps: seq<Step>)
    decreases |steps|
  {
    steps == [] || (Enabled(s, steps[0]) && Possible(Apply(s, steps[0]), steps[1..]))
  }

  function After(s: State, steps: seq<Step>): State
    requires Possible(s, steps)
    decreases |steps|
  {
    if steps == [] then s else After(Apply(s, steps[0]), steps[1..])
  }

  lemma {:induction false} RunStaysSound(s: State, steps: seq<Step>)
    requires Sound(s) && Possible(s, steps)
    ensures Sound(After(s, steps))
    decreases |steps|
  {
    if steps != [] {
      StaysSound(s, steps[0]);
      RunStaysSound(Apply(s, steps[0]), steps[1..]);
    }
  }

  /** The state some run from the start leads to. */
  ghost predicate Reachable(s: State) {
    exists cpus, steps :: Possible(Init(cpus), steps) && s == After(Init(cpus), steps)
  }

  lemma ReachableIsSound(s: State)
    requires Reachable(s)
    ensures Sound(s)
  {
    var cpus, steps :| Possible(Init(cpus), steps) && s == After(Init(cpus), steps);
    InitSound(cpus);
    RunStaysSound(Init(cpus), steps);
  }

  /** Whatever the interleaving: every metered byte of a flow is delivered, in the
      poller's batch, in a per-CPU slot, in an insert under way, or lost; and the
      drop counter counts the lost deltas. */
  lemma BytesAreAccountedFor(s: State, k: FlowKey, dir: Dir)
    requires Reachable(s)
    ensures Add(s.metered, OfKey(k, dir)) ==
            Add(s.handed, OfSnapshot(k, dir)) + Add(s.batch, OfSnapshot(k, dir)) + Resident(s, k, dir) +
            Add(s.pending, OfPending(k, dir)) + Add(s.lost, OfKey(k, dir))
    ensures |s.lost| == s.drops
  {
    ReachableIsSound(s);
    assert FlowBalanced(s, k, dir);
  }

  /** The connection ledger of a flow equals its flow ledger: always for sent bytes,
      and for received bytes unless the flow is UDP. */
  lemma LedgersAgree(s: State, k: FlowKey, dir: Dir)
    requires Reachable(s)
    ensures var conns := Live(s.conns, k, dir) + Add(s.ended, OfKey(k, dir)) as real;
            var flows := Add(s.handed, OfSnapshot(k, dir)) + Add(s.batch, OfSnapshot(k, dir)) + Resident(s, k, dir) +
                         Add(s.pending, OfPending(k, dir)) + Add(s.lost, OfKey(k, dir));
            && conns >= flows as real
            && (dir == Tx || k.protocol != UDP ==> conns == flows as real)
  {
    ReachableIsSound(s);
    assert FlowBalanced(s, k, dir) && ConnBalanced(s, k, dir);
    if dir == Tx || k.protocol != UDP {
      AddNone(s.forgone, OfKey(k, dir));
    }
  }

  /** Each generation of a connection closes at most once, and a TCP close event
      carries exactly the bytes metered since its establish. */
  lemma CloseEventsAreExact(s: State, i: nat, dir: Dir)
    requires Reachable(s) && i < |s.events|
    ensures forall j :: 0 <= j < |s.events| && s.events[j].gen == s.events[i].gen ==> j == i
    ensures s.events[i].key.protocol != UDP ==>
              Amount(s.events[i].bytes, dir) == Add(s.metered, OfGen(s.events[i].gen, dir))
  {
    ReachableIsSound(s);
    var t, e := TableOf(s), s.events[i];
    assert Exact(t, e) && Amount(e.bytes, dir) == Recorded(t, e.gen, dir);
    if e.key.protocol != UDP {
      AddNone(s.forgone, OfGen(e.gen, dir));
    }
  }

  /** Only a close, an eviction or a new establish of its cookie ends a tally. */
  predicate Ends(step: Step, cookie: Cookie) {
    (step.Close? || step.Evict? || step.Establish?) && step.cookie == cookie
  }

  /** The entry is still there, of the same generation, with a tally no smaller. */
  predicate Continues(e: Entry, conns: map<Cookie, Entry>, cookie: Cookie) {
    && cookie in conns && conns[cookie].key == e.key && conns[cookie].gen == e.gen
    && conns[cookie].bytes.tx >= e.bytes.tx && conns[cookie].bytes.rx >= e.bytes.rx
  }

  lemma TcpEntrySurvivesStep(s: State, step: Step, cookie: Cookie)
    requires Enabled(s, step) && cookie in s.conns && s.conns[cookie].key.protocol == TCP && !Ends(step, cookie)
    ensures Continues(s.conns[cookie], Apply(s, step).conns, cookie)
  {
    match step {
      case Release(c, protocol) => assert c != cookie || protocol == TCP;
      case _ =>
    }
  }

  /** A TCP entry outlives any run of half-closes, socket releases, traffic, polls and
      other sockets' events: bytes sent after a half-close still count. */
  lemma {:induction false} TcpEntrySurvives(s: State, steps: seq<Step>, cookie: Cookie)
    requires Possible(s, steps) && cookie in s.conns && s.conns[cookie].key.protocol == TCP
    requires forall i :: 0 <= i < |steps| ==> !Ends(steps[i], cookie)
    ensures Continues(s.conns[cookie], After(s, steps).conns, cookie)
    decreases |steps|
  {
    if steps != [] {
      TcpEntrySurvivesStep(s, steps[0], cookie);
      TcpEntrySurvives(Apply(s, steps[0]), steps[1..], cookie);
    }
  }

  lemma {:induction false} OneMoreStep(s: State, steps: seq<Step>, step: Step)
    requires Possible(s, steps) && Enabled(After(s, steps), step)
    ensures Possible(s, steps + [step]) && After(s, steps + [step]) == Apply(After(s, steps), step)
    decreases |steps|
  {
    var more := steps + [step];
    if steps == [] {
      assert more[1..] == [] && more[0] == step;
    } else {
      OneMoreStep(Apply(s, steps[0]), steps[1..], step);
      assert more[1..] == steps[1..] + [step] && more[0] == steps[0];
    }
  }

  lemma {:induction false} LastStep(s: State, steps: seq<Step>)
    requires Possible(s, steps) && steps != []
    ensures var init, last := steps[..|steps| - 1], steps[|steps| - 1];
            && Possible(s, init) && Enabled(After(s, init), last) && After(s, steps) == Apply(After(s, init), last)
    decreases |steps|
  {
    if |steps| > 1 {
      LastStep(Apply(s, steps[0]), steps[1..]);
      assert steps[1..][..|steps| - 2] == steps[..|steps| - 1][1..];
    }
  }

  lemma {:induction false} SplitRun(s: State, steps: seq<Step>, i: nat)
    requires Possible(s, steps) && i <= |steps|
    ensures Possible(s, steps[..i]) && Possible(After(s, steps[..i]), steps[i..])
    ensures After(After(s, steps[..i]), steps[i..]) == After(s, steps)
    decreases i
  {
    if i == 0 {
      assert steps[..0] == [] && steps[0..] == steps;
    } else {
      SplitRun(Apply(s, steps[0]), steps[1..], i - 1);
      assert steps[1..][..i - 1] == steps[..i][1..] && steps[1..][i - 1..] == steps[i..];
    }
  }

  lemma StaysReachable(s: State, step: Step)
    requires Reachable(s) && Enabled(s, step)
    ensures Reachable(Apply(s, step))
  {
    var cpus, steps :| Possible(Init(cpus), steps) && s == After(Init(cpus), steps);
    OneMoreStep(Init(cpus), steps, step);
  }

  /** The race the drop counter is for: two CPUs miss the same flow entry, the first
      insert wins, and the second CPU's bytes are lost and counted. */
  lemma InsertRaceLosesDelta(key: FlowKey)
    requires key.protocol == TCP
    ensures exists s :: Reachable(s) && s.lost == [Entry(key, 0, Bytes(5, 0))] && s.drops == 1
  {
    var s0 := Init(2);
    assert Possible(s0, []) && After(s0, []) == s0;
    var s1 := Apply(s0, Establish(0, 9, key));
    StaysReachable(s0, Establish(0, 9, key));
    var s2 := Apply(s1, Send(1, 9, 5));
    StaysReachable(s1, Send(1, 9, 5));
    var s3 := Apply(s2, Insert(0, true));
    StaysReachable(s2, Insert(0, true));
    StaysReachable(s3, Insert(1, true));
    assert Apply(s3, Insert(1, true)).lost == [Entry(key, 0, Bytes(5, 0))];
  }
}
