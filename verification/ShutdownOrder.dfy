/** Shutdown: the final flush delivers what it listed, and the publisher and the loader
    close only after it. */
module ShutdownOrder {
  import opened Counting
  import opened FlowLedger

  // ----- what the final flush delivers -----

  /** Only a drain takes bytes out of a flow entry. */
  lemma ResidentStays(s: State, step: Step, k: FlowKey, dir: Dir)
    requires Enabled(s, step) && Shaped(s) && !step.DrainKey?
    ensures Resident(Apply(s, step), k, dir) >= Resident(s, k, dir)
  {
    match step {
      case Establish(cpu, cookie, key) =>
        var t := Open(EndTally(s, cookie), cookie, key);
        UpdateKeepsResident(t, cpu, t.conns[cookie], k, dir);
      case Send(cpu, cookie, n) => MeterKeepsResident(s, cpu, cookie, Bytes(n, 0), k, dir);
      case Receive(cpu, cookie, n) => MeterKeepsResident(s, cpu, cookie, Bytes(0, n), k, dir);
      case ReceiveUdp(cpu, cookie, n) => MeterKeepsResident(s, cpu, cookie, Bytes(0, n), k, dir);
      case _ =>
    }
  }

  lemma UpdateKeepsResident(s: State, cpu: Cpu, d: Entry, k: FlowKey, dir: Dir)
    requires Free(s, cpu) && Shaped(s)
    ensures Resident(UpdateAggregate(s, cpu, d), k, dir) >= Resident(s, k, dir)
  {
    if d.key in s.flows && d.key == k {
      AddPut(s.flows[k], cpu, s.flows[k][cpu].Plus(d.bytes), OfSlot(dir));
    }
  }

  lemma MeterKeepsResident(s: State, cpu: Cpu, cookie: Cookie, b: Bytes, k: FlowKey, dir: Dir)
    requires Free(s, cpu) && cookie in s.conns && Shaped(s)
    ensures Resident(Meter(s, cpu, cookie, b), k, dir) >= Resident(s, k, dir)
    ensures Resident(MeterIfPresent(s, cpu, cookie, b), k, dir) >= Resident(s, k, dir)
  {
    UpdateKeepsResident(Tally(s, cookie, b), cpu, s.conns[cookie].(bytes := b), k, dir);
  }

  /** Handed over, in the batch, or in the entry of a key the final flush has still to drain. */
  ghost function InFlush(s: State, k: FlowKey, dir: Dir): nat {
    Add(s.handed, OfSnapshot(k, dir)) + Add(s.batch, OfSnapshot(k, dir)) +
    if s.phase.Draining? && k in s.phase.keys then Resident(s, k, dir) else 0
  }

  predicate Flushing(s: State) {
    s.stage in {Flushed, PollerStopped, PublisherClosed, LoaderClosed}
  }

  lemma DrainKeepsFlush(s: State, k: FlowKey, dir: Dir)
    requires Enabled(s, DrainKey)
    ensures InFlush(DrainFirst(s), k, dir) >= InFlush(s, k, dir)
  {
    var key := s.phase.keys[0];
    assert s.phase.keys == [key] + s.phase.keys[1..];
    if key in s.flows {
      AddMore(s.batch, Snapshot(key, SumSlots(s.flows[key])), OfSnapshot(k, dir));
      SumSlotsAdds(s.flows[key], dir);
    }
  }

  predicate OfPoller(step: Step) {
    step.ListKeys? || step.DrainKey? || step.HandOver?
  }

  /** Nothing but the poller's own steps touches its side. */
  lemma OthersLeavePoller(s: State, step: Step)
    requires Enabled(s, step) && !OfPoller(step)
    ensures SamePoller(s, Apply(s, step))
  {
    match step {
      case Establish(cpu, cookie, key) =>
        var t := Open(EndTally(s, cookie), cookie, key);
        assert SamePoller(s, t) && SamePoller(t, UpdateAggregate(t, cpu, t.conns[cookie]));
      case Send(cpu, cookie, n) => MeterLeavesPoller(s, cpu, cookie, Bytes(n, 0));
      case Receive(cpu, cookie, n) => MeterLeavesPoller(s, cpu, cookie, Bytes(0, n));
      case ReceiveUdp(cpu, cookie, n) => MeterLeavesPoller(s, cpu, cookie, Bytes(0, n));
      case _ =>
    }
  }

  predicate SamePoller(s: State, t: State) {
    t.phase == s.phase && t.batch == s.batch && t.handed == s.handed
  }

  lemma MeterLeavesPoller(s: State, cpu: Cpu, cookie: Cookie, b: Bytes)
    requires Free(s, cpu) && cookie in s.conns
    ensures SamePoller(s, Meter(s, cpu, cookie, b)) && SamePoller(s, MeterIfPresent(s, cpu, cookie, b))
  {
  }

  lemma StaysFlushing(s: State, step: Step)
    requires Enabled(s, step) && Orderly(s) && Flushing(s)
    ensures Flushing(Apply(s, step)) && !step.ListKeys?
  {
  }

  lemma FlushKeepsBytes(s: State, step: Step, k: FlowKey, dir: Dir)
    requires Enabled(s, step) && Shaped(s) && Orderly(s) && Flushing(s)
    ensures Flushing(Apply(s, step)) && InFlush(Apply(s, step), k, dir) >= InFlush(s, k, dir)
  {
    if step.DrainKey? {
      StaysFlushing(s, step);
      DrainKeepsFlush(s, k, dir);
    } else if step.HandOver? {
      AddAll(s.handed, s.batch, OfSnapshot(k, dir));
    } else {
      StaysFlushing(s, step);
      OthersLeavePoller(s, step);
      ResidentStays(s, step, k, dir);
    }
  }

  lemma {:induction false} FlushRun(s: State, steps: seq<Step>, k: FlowKey, dir: Dir)
    requires Sound(s) && Flushing(s) && Possible(s, steps)
    ensures Flushing(After(s, steps)) && InFlush(After(s, steps), k, dir) >= InFlush(s, k, dir)
    decreases |steps|
  {
    if steps != [] {
      FlushKeepsBytes(s, steps[0], k, dir);
      StaysSound(s, steps[0]);
      FlushRun(Apply(s, steps[0]), steps[1..], k, dir);
    }
  }

  /** The final flush delivers: from where it lists its keys, in every run that gets as
      far as a stopped poller, and so before the publisher closes, every byte that was
      in the entry of a listed key has been handed over. */
  lemma FinalFlushDelivers(s: State, keys: seq<FlowKey>, steps: seq<Step>, k: FlowKey, dir: Dir)
    requires Reachable(s) && Enabled(s, ListKeys(keys, true)) && k in keys
    requires Possible(Apply(s, ListKeys(keys, true)), steps)
    ensures var t := After(Apply(s, ListKeys(keys, true)), steps);
            t.stage in {PollerStopped, PublisherClosed, LoaderClosed} ==>
              Add(t.handed, OfSnapshot(k, dir)) >= Add(s.handed, OfSnapshot(k, dir)) + Resident(s, k, dir)
  {
    var listed := Apply(s, ListKeys(keys, true));
    ReachableIsSound(s);
    StaysSound(s, ListKeys(keys, true));
    FlushRun(listed, steps, k, dir);
    RunStaysSound(listed, steps);
    assert Resident(listed, k, dir) == Resident(s, k, dir);
  }

  /** With the publisher closed nothing waits in the poller and nothing will be handed over. */
  lemma FinalFlushComesFirst(s: State)
    requires Reachable(s) && s.stage in {PollerStopped, PublisherClosed, LoaderClosed}
    ensures s.batch == [] && !Enabled(s, HandOver) && !Enabled(s, DrainKey)
    ensures forall keys, final :: !Enabled(s, ListKeys(keys, final))
  {
    ReachableIsSound(s);
  }

  // ----- no close without a flush -----

  predicate IsFinalListing(step: Step) {
    step.ListKeys? && step.final
  }

  /** The steps hold a final listing, and a hand-over after it. */
  ghost predicate Flushes(steps: seq<Step>, list: nat, hand: nat) {
    list < hand < |steps| && IsFinalListing(steps[list]) && steps[hand].HandOver?
  }

  ghost predicate ListsFinally(steps: seq<Step>) {
    exists l :: 0 <= l < |steps| && IsFinalListing(steps[l])
  }

  ghost predicate FlushedIn(steps: seq<Step>) {
    exists l, h :: Flushes(steps, l, h)
  }

  ghost predicate ClosesIn(steps: seq<Step>) {
    exists c :: 0 <= c < |steps| && steps[c].ClosePublisher? && FlushedIn(steps[..c])
  }

  lemma MoreSteps(steps: seq<Step>, step: Step)
    ensures ListsFinally(steps) ==> ListsFinally(steps + [step])
    ensures FlushedIn(steps) ==> FlushedIn(steps + [step])
    ensures ClosesIn(steps) ==> ClosesIn(steps + [step])
  {
    var more := steps + [step];
    if ListsFinally(steps) {
      var l :| 0 <= l < |steps| && IsFinalListing(steps[l]);
      assert IsFinalListing(more[l]);
    }
    if FlushedIn(steps) {
      var l, h :| Flushes(steps, l, h);
      assert Flushes(more, l, h);
    }
    if ClosesIn(steps) {
      var c :| 0 <= c < |steps| && steps[c].ClosePublisher? && FlushedIn(steps[..c]);
      assert more[c].ClosePublisher? && more[..c] == steps[..c];
    }
  }

  /** What the stage says about the steps taken. */
  ghost predicate StageEarned(stage: Stage, steps: seq<Step>) {
    && (stage == Flushed ==> ListsFinally(steps))
    && (stage in {PollerStopped, PublisherClosed, LoaderClosed} ==> FlushedIn(steps))
    && (stage in {PublisherClosed, LoaderClosed} ==> ClosesIn(steps))
  }

  lemma StepEarnsStage(s: State, steps: seq<Step>, step: Step)
    requires Enabled(s, step) && StageEarned(s.stage, steps)
    ensures StageEarned(Apply(s, step).stage, steps + [step])
  {
    var more := steps + [step];
    MoreSteps(steps, step);
    assert more[|steps|] == step && more[..|steps|] == steps;
    if step.HandOver? && s.stage == Flushed {
      var l :| 0 <= l < |steps| && IsFinalListing(steps[l]);
      assert Flushes(more, l, |steps|);
    }
    StageMoves(s, step);
  }

  /** Only four steps change the stage. */
  lemma StageMoves(s: State, step: Step)
    requires Enabled(s, step)
    ensures var t := Apply(s, step).stage;
            || t == s.stage
            || (t == Stopping && step.StopPoller?)
            || (t == Flushed && IsFinalListing(step))
            || (t == PollerStopped && step.HandOver? && s.stage == Flushed)
            || (t == PublisherClosed && step.ClosePublisher? && s.stage == PollerStopped)
            || (t == LoaderClosed && step.CloseLoader? && s.stage == PublisherClosed)
  {
  }

  lemma RunEarnsMore(s: State, init: seq<Step>, last: Step, t: State, steps: seq<Step>)
    requires Enabled(s, last) && t == Apply(s, last) && StageEarned(s.stage, init)
    requires steps != [] && init == steps[..|steps| - 1] && last == steps[|steps| - 1]
    ensures StageEarned(t.stage, steps)
  {
    StepEarnsStage(s, init, last);
    assert steps == init + [last];
  }

  lemma {:induction false} RunEarnsStage(cpus: nat, steps: seq<Step>)
    requires Possible(Init(cpus), steps)
    ensures StageEarned(After(Init(cpus), steps).stage, steps)
  {
    if steps != [] {
      var init, last := steps[..|steps| - 1], steps[|steps| - 1];
      LastStep(Init(cpus), steps);
      RunEarnsStage(cpus, init);
      RunEarnsMore(After(Init(cpus), init), init, last, After(Init(cpus), steps), steps);
    }
  }

  /** The publisher never closes before the final flush has been handed over: before any
      ClosePublisher of any run come a final listing and a hand-over, and by then every
      byte resident under a listed key at the listing has been handed over. */
  lemma PublisherClosesAfterFlush(cpus: nat, steps: seq<Step>, c: nat) returns (list: nat, hand: nat)
    requires Possible(Init(cpus), steps) && c < |steps| && steps[c].ClosePublisher?
    ensures Flushes(steps[..c], list, hand)
    ensures Possible(Init(cpus), steps[..list]) && Possible(Init(cpus), steps[..c])
    ensures var listed, closed := After(Init(cpus), steps[..list]), After(Init(cpus), steps[..c]);
            forall k, dir :: k in steps[list].keys ==> Delivered(listed, closed, k, dir)
  {
    var before := steps[..c];
    SplitRun(Init(cpus), steps, c);
    assert steps[c..][0] == steps[c];
    RunEarnsStage(cpus, before);
    var l: nat, h: nat :| Flushes(before, l, h);
    list, hand := l, h;
    SplitRun(Init(cpus), before, l);
    assert before[..l] == steps[..l];
    forall k, dir | k in steps[l].keys ensures Delivered(After(Init(cpus), steps[..l]), After(Init(cpus), before), k, dir) {
      DeliveredBetween(cpus, before, l, k, dir);
    }
  }

  ghost predicate Delivered(listed: State, closed: State, k: FlowKey, dir: Dir) {
    Add(closed.handed, OfSnapshot(k, dir)) >= Add(listed.handed, OfSnapshot(k, dir)) + Resident(listed, k, dir)
  }

  lemma DeliveredBetween(cpus: nat, steps: seq<Step>, l: nat, k: FlowKey, dir: Dir)
    requires Possible(Init(cpus), steps) && l < |steps| && IsFinalListing(steps[l]) && k in steps[l].keys
    requires Possible(Init(cpus), steps[..l])
    requires After(Init(cpus), steps).stage in {PollerStopped, PublisherClosed, LoaderClosed}
    ensures Delivered(After(Init(cpus), steps[..l]), After(Init(cpus), steps), k, dir)
  {
    SplitRun(Init(cpus), steps, l);
    assert steps[l..][0] == steps[l];
    FinalFlushDelivers(After(Init(cpus), steps[..l]), steps[l].keys, steps[l..][1..], k, dir);
  }

  /** A closed publisher or loader got there by such a close, the loader last. */
  lemma ClosedOnlyAfterFlush(cpus: nat, steps: seq<Step>)
    requires Possible(Init(cpus), steps) && After(Init(cpus), steps).stage in {PublisherClosed, LoaderClosed}
    ensures exists c :: 0 <= c < |steps| && steps[c].ClosePublisher? && FlushedIn(steps[..c])
    ensures CloseLoader in steps <==> After(Init(cpus), steps).stage == LoaderClosed
  {
    RunEarnsStage(cpus, steps);
    LoaderLast(cpus, steps);
  }

  lemma {:induction false} LoaderLast(cpus: nat, steps: seq<Step>)
    requires Possible(Init(cpus), steps)
    ensures CloseLoader in steps <==> After(Init(cpus), steps).stage == LoaderClosed
  {
    if steps != [] {
      var init, last := steps[..|steps| - 1], steps[|steps| - 1];
      LastStep(Init(cpus), steps);
      LoaderLast(cpus, init);
      StageMoves(After(Init(cpus), init), last);
      LoaderIsLast(After(Init(cpus), init), last);
      assert steps == init + [last];
    }
  }

  lemma LoaderIsLast(s: State, step: Step)
    requires Enabled(s, step)
    ensures s.stage == LoaderClosed || step.CloseLoader? <==> Apply(s, step).stage == LoaderClosed
  {
  }
}
