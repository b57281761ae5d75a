/** One poll of the flow table: keys are listed first, then each is read and removed
    atomically; the list may be stale, incomplete or repeat itself. */
module Poller {
  import opened Counting
  import opened FlowLedger

  /** The kernel's flow table as the poller sees it. */
  class FlowMap {
    var entries: map<FlowKey, seq<Bytes>>

    method LookupAndDelete(key: FlowKey) returns (found: bool, slots: seq<Bytes>)
      modifies this
      ensures found == (key in old(entries))
      ensures slots == if found then old(entries)[key] else []
      ensures entries == old(entries) - {key}
    {
      found := key in entries;
      slots := if found then entries[key] else [];
      entries := entries - {key};
    }
  }

  /** The table and the snapshots after draining the keys in order. */
  function Drained(entries: map<FlowKey, seq<Bytes>>, keys: seq<FlowKey>): (map<FlowKey, seq<Bytes>>, seq<Snapshot>) {
    if keys == [] then (entries, [])
    else
      var (rest, flows) := Drained(entries, keys[..|keys| - 1]);
      var key := keys[|keys| - 1];
      (rest - {key}, if key in rest then flows + [Snapshot(key, SumSlots(rest[key]))] else flows)
  }

  /** Adds the per-CPU values of one entry. */
  method SumPerCpu(key: FlowKey, slots: seq<Bytes>) returns (snap: Snapshot)
    ensures snap == Snapshot(key, SumSlots(slots))
  {
    var sum := ZERO;
    for i := 0 to |slots|
      invariant sum == SumSlots(slots[..i])
    {
      assert slots[..i + 1][..i] == slots[..i];
      sum := sum.Plus(slots[i]);
    }
    assert slots[..|slots|] == slots;
    snap := Snapshot(key, sum);
  }

  method PollIterate(table: FlowMap, keys: seq<FlowKey>) returns (flows: seq<Snapshot>)
    modifies table
    ensures (table.entries, flows) == Drained(old(table.entries), keys)
  {
    flows := [];
    for i := 0 to |keys|
      invariant (table.entries, flows) == Drained(old(table.entries), keys[..i])
    {
      assert keys[..i + 1][..i] == keys[..i];
      var found, slots := table.LookupAndDelete(keys[i]);
      if found {
        var snap := SumPerCpu(keys[i], slots);
        flows := flows + [snap];
      }
    }
    assert keys[..|keys|] == keys;
  }

  ghost function Waiting(entries: map<FlowKey, seq<Bytes>>, k: FlowKey, dir: Dir): nat {
    if k in entries then Add(entries[k], OfSlot(dir)) else 0
  }

  /** Whatever the key list, a poll moves bytes from the table to the snapshots and
      loses none; a listed key is gone from the table and appears at most once. */
  lemma {:induction false} PollConserves(entries: map<FlowKey, seq<Bytes>>, keys: seq<FlowKey>, k: FlowKey, dir: Dir)
    ensures var (rest, flows) := Drained(entries, keys);
            && Waiting(entries, k, dir) == Waiting(rest, k, dir) + Add(flows, OfSnapshot(k, dir))
            && (k in rest <==> k in entries && k !in keys)
            && forall i, j :: 0 <= i < j < |flows| ==> flows[i].key != flows[j].key
    ensures forall i :: 0 <= i < |Drained(entries, keys).1| ==> Drained(entries, keys).1[i].key in keys
  {
    if keys != [] {
      var init, key := keys[..|keys| - 1], keys[|keys| - 1];
      PollConserves(entries, init, k, dir);
      PollConserves(entries, init, key, dir);
      var (rest, flows) := Drained(entries, init);
      assert keys == init + [key];
      if key in rest {
        AddMore(flows, Snapshot(key, SumSlots(rest[key])), OfSnapshot(k, dir));
        SumSlotsAdds(rest[key], dir);
      }
    }
  }

  /** The machine after its first n listed keys have been polled without interruption. */
  function Polled(s: State, n: nat): State
    requires s.phase.Draining? && n <= |s.phase.keys|
  {
    var (rest, flows) := Drained(s.flows, s.phase.keys[..n]);
    s.(phase := Draining(s.phase.keys[n..]), flows := rest, batch := s.batch + flows)
  }

  lemma PolledOneMore(s: State, n: nat, m: nat)
    requires s.phase.Draining? && m == n + 1 <= |s.phase.keys|
    ensures DrainFirst(Polled(s, n)) == Polled(s, m)
  {
    assert s.phase.keys[..m][..n] == s.phase.keys[..n] && s.phase.keys[n..][1..] == s.phase.keys[m..];
    var (rest, flows) := Drained(s.flows, s.phase.keys[..n]);
    var key := s.phase.keys[n];
    if key in rest {
      assert s.batch + flows + [Snapshot(key, SumSlots(rest[key]))] == s.batch + (flows + [Snapshot(key, SumSlots(rest[key]))]);
    } else {
      assert rest - {key} == rest;
    }
  }

  /** The machine's drain steps, taken without interruption, do exactly such a poll. */
  lemma {:induction false} DrainStepsPoll(s: State, n: nat, drains: seq<Step>)
    requires s.phase.Draining? && n <= |s.phase.keys| && drains == seq(n, _ => DrainKey)
    ensures Possible(s, drains) && After(s, drains) == Polled(s, n)
  {
    if n == 0 {
      assert s.phase.keys[0..] == s.phase.keys && s.batch + [] == s.batch;
    } else {
      var m := n - 1;
      DrainStepsPoll(s, m, drains[..m]);
      assert drains == drains[..m] + [DrainKey];
      OneMoreStep(s, drains[..m], DrainKey);
      PolledOneMore(s, m, n);
    }
  }
}
