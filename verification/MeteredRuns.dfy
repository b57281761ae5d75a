/** What the hooks were called with against what the ledgers say: the bytes of a run,
    and what single steps leave behind. */
module MeteredRuns {
  import opened Options
  import opened Counting
  import opened Sums
  import opened FlowLedger

  // ----- what each step meters -----

  /** Bytes a step carries for flow k that belong in its flow entry. */
  ghost function Offered(s: State, step: Step, k: FlowKey, dir: Dir): nat {
    match step
    case Send(cpu, cookie, n) => if dir == Tx && cookie in s.conns && s.conns[cookie].key == k then n else 0
    case Receive(cpu, cookie, n) => if dir == Rx && cookie in s.conns && s.conns[cookie].key == k then n else 0
    case ReceiveUdp(cpu, cookie, n) =>
      if dir == Rx && cookie in s.conns && s.conns[cookie].key == k && k in s.flows then n else 0
    case _ => 0
  }

  /** Bytes a UDP receive carries for flow k while k has no flow entry. */
  ghost function Unplaced(s: State, step: Step, k: FlowKey, dir: Dir): nat {
    if step.ReceiveUdp? && dir == Rx && step.cookie in s.conns && s.conns[step.cookie].key == k && k !in s.flows
    then step.n else 0
  }

  ghost function AllOffered(s: State, steps: seq<Step>, k: FlowKey, dir: Dir): nat
    requires Possible(s, steps)
    decreases |steps|
  {
    if steps == [] then 0 else Offered(s, steps[0], k, dir) + AllOffered(Apply(s, steps[0]), steps[1..], k, dir)
  }

  ghost function AllUnplaced(s: State, steps: seq<Step>, k: FlowKey, dir: Dir): nat
    requires Possible(s, steps)
    decreases |steps|
  {
    if steps == [] then 0 else Unplaced(s, steps[0], k, dir) + AllUnplaced(Apply(s, steps[0]), steps[1..], k, dir)
  }

  lemma MeterRecords(s: State, cpu: Cpu, cookie: Cookie, b: Bytes, k: FlowKey, dir: Dir)
    requires Free(s, cpu) && cookie in s.conns
    ensures var t := Meter(s, cpu, cookie, b);
            && Add(t.metered, OfKey(k, dir)) == Add(s.metered, OfKey(k, dir)) + OfKey(k, dir)(s.conns[cookie].(bytes := b))
            && t.forgone == s.forgone
  {
    AddMore(s.metered, s.conns[cookie].(bytes := b), OfKey(k, dir));
  }

  lemma MeterIfPresentRecords(s: State, cpu: Cpu, cookie: Cookie, n: nat, k: FlowKey, dir: Dir)
    requires Free(s, cpu) && cookie in s.conns
    ensures var t := MeterIfPresent(s, cpu, cookie, Bytes(0, n));
            var bytes := if dir == Rx && s.conns[cookie].key == k then n else 0;
            && Add(t.metered, OfKey(k, dir)) == Add(s.metered, OfKey(k, dir)) + (if k in s.flows then bytes else 0)
            && Add(t.forgone, OfKey(k, dir)) == Add(s.forgone, OfKey(k, dir)) + (if k in s.flows then 0 else bytes)
  {
    MeterRecords(s, cpu, cookie, Bytes(0, n), k, dir);
    AddMore(s.forgone, s.conns[cookie].(bytes := Bytes(0, n)), OfKey(k, dir));
  }

  lemma StepMeters(s: State, step: Step, k: FlowKey, dir: Dir)
    requires Enabled(s, step)
    ensures var t := Apply(s, step);
            && Add(t.metered, OfKey(k, dir)) == Add(s.metered, OfKey(k, dir)) + Offered(s, step, k, dir)
            && Add(t.forgone, OfKey(k, dir)) == Add(s.forgone, OfKey(k, dir)) + Unplaced(s, step, k, dir)
  {
    match step {
      case Send(cpu, cookie, n) => MeterRecords(s, cpu, cookie, Bytes(n, 0), k, dir);
      case Receive(cpu, cookie, n) => MeterRecords(s, cpu, cookie, Bytes(0, n), k, dir);
      case ReceiveUdp(cpu, cookie, n) =>
        MeterIfPresentRecords(s, cpu, cookie, n, k, dir);
      case _ => OthersMeterNothing(s, step);
    }
  }

  lemma OthersMeterNothing(s: State, step: Step)
    requires Enabled(s, step) && !step.Send? && !step.Receive? && !step.ReceiveUdp?
    ensures Apply(s, step).metered == s.metered && Apply(s, step).forgone == s.forgone
  {
  }

  lemma {:induction false} RunMeters(s: State, steps: seq<Step>, k: FlowKey, dir: Dir)
    requires Possible(s, steps)
    ensures var t := After(s, steps);
            && Add(t.metered, OfKey(k, dir)) == Add(s.metered, OfKey(k, dir)) + AllOffered(s, steps, k, dir)
            && Add(t.forgone, OfKey(k, dir)) == Add(s.forgone, OfKey(k, dir)) + AllUnplaced(s, steps, k, dir)
    decreases |steps|
  {
    if steps != [] {
      StepMeters(s, steps[0], k, dir);
      RunMeters(Apply(s, steps[0]), steps[1..], k, dir);
    }
  }

  /** No byte a hook was called with goes missing: over any run the bytes of the sends and
      receives of a flow's connections are delivered, batched, resident, about to be
      inserted or lost, and the connection tallies hold them and the unplaced UDP
      receives. */
  lemma OfferedBytesAreAccountedFor(cpus: nat, steps: seq<Step>, k: FlowKey, dir: Dir)
    requires Possible(Init(cpus), steps)
    ensures var s, offered := After(Init(cpus), steps), AllOffered(Init(cpus), steps, k, dir);
            && offered == Add(s.handed, OfSnapshot(k, dir)) + Add(s.batch, OfSnapshot(k, dir)) + Resident(s, k, dir) +
                          Add(s.pending, OfPending(k, dir)) + Add(s.lost, OfKey(k, dir))
            && Live(s.conns, k, dir) + Add(s.ended, OfKey(k, dir)) as real ==
               offered as real + AllUnplaced(Init(cpus), steps, k, dir) as real
  {
    var s := After(Init(cpus), steps);
    RunMeters(Init(cpus), steps, k, dir);
    ReachableIsSound(s);
    assert FlowBalanced(s, k, dir) && ConnBalanced(s, k, dir);
  }

  // ----- what each step leaves behind -----

  /** A flow entry that is there takes the bytes at once; an insert loses its bytes only
      when another CPU was faster or there is no room. */
  lemma LostOnlyWhenLate(s: State, cpu: Cpu, cookie: Cookie, n: nat, room: bool)
    requires Shaped(s)
    ensures Enabled(s, Send(cpu, cookie, n)) && s.conns[cookie].key in s.flows ==>
              var t, k := Apply(s, Send(cpu, cookie, n)), s.conns[cookie].key;
              Resident(t, k, Tx) == Resident(s, k, Tx) + n && t.pending == s.pending
    ensures Enabled(s, Insert(cpu, room)) ==>
              var t, k := Apply(s, Insert(cpu, room)), s.pending[cpu].value.key;
              (t.drops > s.drops <==> k in s.flows || !room) && (t.drops == s.drops ==> k in t.flows)
  {
    if Enabled(s, Send(cpu, cookie, n)) && s.conns[cookie].key in s.flows {
      var k := s.conns[cookie].key;
      AddPut(s.flows[k], cpu, s.flows[k][cpu].Plus(Bytes(n, 0)), OfSlot(Tx));
    }
  }

  /** An established connection has a flow entry, or the insert of an empty one is the
      next thing its CPU does. */
  lemma EstablishSeeds(s: State, cpu: Cpu, cookie: Cookie, key: FlowKey)
    requires Enabled(s, Establish(cpu, cookie, key))
    ensures var t := Apply(s, Establish(cpu, cookie, key));
            && cookie in t.conns && t.conns[cookie].key == key && t.conns[cookie].bytes == Bytes(0, 0)
            && (key in t.flows || (t.pending[cpu].Some? && t.pending[cpu].value.key == key
                                   && t.pending[cpu].value.bytes == Bytes(0, 0)))
  {
  }

  /** A close of a TCP connection, the ring having room, adds one event that carries all
      bytes metered since its establish; no close leaves the entry behind. */
  lemma CloseReportsAll(s: State, cookie: Cookie, ringFull: bool, dir: Dir)
    requires Reachable(s) && cookie in s.conns && s.conns[cookie].key.protocol == TCP
    ensures var t, e := Apply(s, Close(cookie, ringFull)), s.conns[cookie];
            && cookie !in t.conns
            && (!ringFull ==> |t.events| == |s.events| + 1 && t.events[|s.events|].key == e.key
                              && Amount(t.events[|s.events|].bytes, dir) == Add(s.metered, OfGen(e.gen, dir)))
            && (ringFull ==> t.events == s.events)
  {
    LiveTallyIsMetered(s, cookie, dir);
  }

  /** A live TCP tally is what was metered since the establish. */
  lemma LiveTallyIsMetered(s: State, cookie: Cookie, dir: Dir)
    requires Reachable(s) && cookie in s.conns && s.conns[cookie].key.protocol == TCP
    ensures Amount(s.conns[cookie].bytes, dir) == Add(s.metered, OfGen(s.conns[cookie].gen, dir))
  {
    ReachableIsSound(s);
    var t, e := TableOf(s), s.conns[cookie];
    assert Exact(t, e) && Amount(e.bytes, dir) == Recorded(t, e.gen, dir);
    AddNone(s.forgone, OfGen(e.gen, dir));
  }

  /** A UDP socket's entry goes when the socket does, so dead sockets take no room. */
  lemma UdpEntryGoesAtRelease(s: State, cookie: Cookie)
    requires Reachable(s) && cookie in s.conns && s.conns[cookie].key.protocol == UDP
    ensures Enabled(s, Release(cookie, UDP)) && Apply(s, Release(cookie, UDP)).conns == s.conns - {cookie}
  {
  }
}
