/** Concurrent pricing on one meter: callers reserve a stretch under the lock and
    price it later, in any interleaving; the meter may be reset in between. */
module MeterRuns {
  import opened Tiers
  import opened Billing

  /** A stretch of one key's meter handed to one call, in one billing period. */
  datatype Reservation = Reservation(epoch: nat, key: MeterKey, lo: real, hi: real)

  /** `log` holds the reservations in the order of the lock, `priced` the ones whose
      caller has computed its price. */
  datatype State = State(meter: Meter, epoch: nat, log: seq<Reservation>, priced: set<nat>)

  datatype Step =
    | Reserve(key: MeterKey, gb: real, now: Time)
    | Settle(i: nat)
    | Reset(now: Time)

  predicate Enabled(s: State, step: Step) {
    match step
    case Reserve(key, gb, now) => gb >= 0.0
    case Settle(i) => i < |s.log| && i !in s.priced
    case Reset(now) => true
  }

  function Apply(s: State, step: Step): State {
    match step
    case Reserve(key, gb, now) =>
      var prev := UsedOf(Current(s.meter, now), key);
      var epoch := if PeriodOver(s.meter.period, now) then s.epoch + 1 else s.epoch;
      State(Reserved(s.meter, key, gb, now), epoch, s.log + [Reservation(epoch, key, prev, prev + gb)], s.priced)
    case Settle(i) => s.(priced := s.priced + {i})
    case Reset(now) => s.(meter := Meter(map[], now.month), epoch := s.epoch + 1)
  }

  predicate Possible(s: State, steps: seq<Step>)
    decreases |steps|
  {
    steps == [] || (Enabled(s, steps[0]) && Possible(Apply(s, steps[0]), steps[1..]))
  }

  function After(s: State, steps: seq<Step>): State
    decreases |steps|
  {
    if steps == [] then s else After(Apply(s, steps[0]), steps[1..])
  }

  ghost predicate Reachable(s: State) {
    exists period, steps :: Possible(State(Meter(map[], period), 0, [], {}), steps)
                            && s == After(State(Meter(map[], period), 0, [], {}), steps)
  }

  /** A call of the engine in single-meter mode is such a step: it moves the meter as a
      Reserve does, and its price is that of the stretch the step logs. */
  lemma PricedReserves(s: State, key: MeterKey, tiers: seq<Tier>, gb: real, now: Time)
    requires |tiers| > 1 && gb >= 0.0
    ensures var (m, cost) := Priced(true, s.meter, key, tiers, gb, now);
            var t := Apply(s, Reserve(key, gb, now));
            && Enabled(s, Reserve(key, gb, now)) && t.meter == m
            && t.log[|s.log|].key == key && cost == Cost(tiers, t.log[|s.log|].lo, t.log[|s.log|].hi)
  {
  }

  // ----- the reservations tile the meter -----

  predicate Mine(r: Reservation, epoch: nat, key: MeterKey) {
    r.epoch == epoch && r.key == key
  }

  /** Gigabytes reserved of a key in a period. */
  function Total(log: seq<Reservation>, epoch: nat, key: MeterKey): real {
    if log == [] then 0.0
    else
      var r := log[|log| - 1];
      Total(log[..|log| - 1], epoch, key) + if Mine(r, epoch, key) then r.hi - r.lo else 0.0
  }

  /** Each reservation starts where the ones before it in its period ended. */
  ghost predicate Tiled(log: seq<Reservation>, epoch: nat) {
    forall i :: 0 <= i < |log| ==> StartsRight(log, i, epoch)
  }

  ghost predicate StartsRight(log: seq<Reservation>, i: nat, epoch: nat)
    requires i < |log|
  {
    log[i].epoch <= epoch && log[i].lo <= log[i].hi && log[i].lo == Total(log[..i], log[i].epoch, log[i].key)
  }

  ghost predicate Metered(s: State) {
    && Tiled(s.log, s.epoch)
    && (forall key :: UsedOf(s.meter, key) == Total(s.log, s.epoch, key))
    && (forall i :: i in s.priced ==> i < |s.log|)
  }

  lemma {:induction false} NothingYet(log: seq<Reservation>, epoch: nat, later: nat, key: MeterKey)
    requires Tiled(log, epoch) && later > epoch
    ensures Total(log, later, key) == 0.0
  {
    if log != [] {
      var init := log[..|log| - 1];
      forall i | 0 <= i < |init| ensures StartsRight(init, i, epoch) {
        assert StartsRight(log, i, epoch) && init[..i] == log[..i];
      }
      NothingYet(init, epoch, later, key);
      assert StartsRight(log, |log| - 1, epoch);
    }
  }

  lemma TiledMore(log: seq<Reservation>, epoch: nat, r: Reservation)
    requires Tiled(log, epoch) && r.epoch >= epoch && r.lo <= r.hi && r.lo == Total(log, r.epoch, r.key)
    ensures Tiled(log + [r], r.epoch)
  {
    var more := log + [r];
    forall i | 0 <= i < |more| ensures StartsRight(more, i, r.epoch) {
      assert more[..i] == log[..i];
      if i < |log| { assert StartsRight(log, i, epoch); } else { assert log[..i] == log; }
    }
  }

  lemma TotalMore(log: seq<Reservation>, r: Reservation, epoch: nat, key: MeterKey)
    ensures Total(log + [r], epoch, key) == Total(log, epoch, key) + if Mine(r, epoch, key) then r.hi - r.lo else 0.0
  {
    assert (log + [r])[..|log|] == log;
  }

  lemma StaysMetered(s: State, step: Step)
    requires Metered(s) && Enabled(s, step)
    ensures Metered(Apply(s, step))
  {
    var t := Apply(s, step);
    match step {
      case Reserve(key, gb, now) =>
        var r := t.log[|s.log|];
        forall k ensures UsedOf(Current(s.meter, now), k) == Total(s.log, t.epoch, k) {
          if t.epoch > s.epoch { NothingYet(s.log, s.epoch, t.epoch, k); }
        }
        TiledMore(s.log, s.epoch, r);
        forall k ensures UsedOf(t.meter, k) == Total(t.log, t.epoch, k) { TotalMore(s.log, r, t.epoch, k); }
      case Settle(i) =>
      case Reset(now) =>
        forall k ensures Total(s.log, t.epoch, k) == 0.0 { NothingYet(s.log, s.epoch, t.epoch, k); }
        forall i | 0 <= i < |s.log| ensures StartsRight(s.log, i, t.epoch) { assert StartsRight(s.log, i, s.epoch); }
    }
  }

  lemma {:induction false} RunStaysMetered(s: State, steps: seq<Step>)
    requires Metered(s) && Possible(s, steps)
    ensures Metered(After(s, steps))
    decreases |steps|
  {
    if steps != [] {
      StaysMetered(s, steps[0]);
      RunStaysMetered(Apply(s, steps[0]), steps[1..]);
    }
  }

  lemma ReachableIsMetered(s: State)
    requires Reachable(s)
    ensures Metered(s)
  {
    var period, steps :| Possible(State(Meter(map[], period), 0, [], {}), steps)
                         && s == After(State(Meter(map[], period), 0, [], {}), steps);
    RunStaysMetered(State(Meter(map[], period), 0, [], {}), steps);
  }

  lemma TiledInit(log: seq<Reservation>, epoch: nat)
    requires Tiled(log, epoch) && log != []
    ensures Tiled(log[..|log| - 1], epoch)
  {
    var init := log[..|log| - 1];
    forall i | 0 <= i < |init| ensures StartsRight(init, i, epoch) {
      assert StartsRight(log, i, epoch) && init[..i] == log[..i];
    }
  }

  /** A reservation ends at or below the total of any longer log. */
  lemma {:induction false} EndsBelow(log: seq<Reservation>, epoch: nat, i: nat)
    requires Tiled(log, epoch) && i < |log|
    ensures 0.0 <= log[i].lo && log[i].hi <= Total(log, log[i].epoch, log[i].key)
  {
    var n := |log| - 1;
    assert StartsRight(log, n, epoch);
    TiledInit(log, epoch);
    TotalNonNegative(log[..n], epoch, log[i].epoch, log[i].key);
    if i < n { EndsBelow(log[..n], epoch, i); }
  }

  lemma {:induction false} TotalNonNegative(log: seq<Reservation>, bound: nat, epoch: nat, key: MeterKey)
    requires Tiled(log, bound)
    ensures Total(log, epoch, key) >= 0.0
  {
    if log != [] {
      assert StartsRight(log, |log| - 1, bound);
      TiledInit(log, bound);
      TotalNonNegative(log[..|log| - 1], bound, epoch, key);
    }
  }

  /** No gigabyte is reserved twice: of two reservations of one key in one period,
      the later one starts at or past the end of the earlier one. */
  lemma NoOverlap(s: State, i: nat, j: nat)
    requires Reachable(s) && i < j < |s.log| && Mine(s.log[i], s.log[j].epoch, s.log[j].key)
    ensures s.log[i].hi <= s.log[j].lo
  {
    ReachableIsMetered(s);
    assert StartsRight(s.log, j, s.epoch);
    var before := s.log[..j];
    forall m | 0 <= m < |before| ensures StartsRight(before, m, s.epoch) {
      assert StartsRight(s.log, m, s.epoch) && before[..m] == s.log[..m];
    }
    EndsBelow(before, s.epoch, i);
  }

  lemma {:induction false} Covers(log: seq<Reservation>, bound: nat, epoch: nat, key: MeterKey, x: real)
    returns (i: nat)
    requires Tiled(log, bound) && 0.0 <= x < Total(log, epoch, key)
    ensures i < |log| && Mine(log[i], epoch, key) && log[i].lo <= x < log[i].hi
  {
    var n := |log| - 1;
    assert StartsRight(log, n, bound);
    TiledInit(log, bound);
    if x < Total(log[..n], epoch, key) { i := Covers(log[..n], bound, epoch, key, x); } else { i := n; }
  }

  /** No gigabyte is skipped: every point of a key's meter below the period's total
      lies in some reservation. */
  lemma NoGap(s: State, epoch: nat, key: MeterKey, x: real)
    requires Reachable(s) && 0.0 <= x < Total(s.log, epoch, key)
    ensures exists i :: 0 <= i < |s.log| && Mine(s.log[i], epoch, key) && s.log[i].lo <= x < s.log[i].hi
  {
    ReachableIsMetered(s);
    var i := Covers(s.log, s.epoch, epoch, key, x);
  }

  // ----- what is charged -----

  /** The prices of a key's reservations in a period that are (or are not) settled. */
  function Charged(log: seq<Reservation>, priced: set<nat>, settled: bool, tiers: seq<Tier>, epoch: nat,
                   key: MeterKey): real {
    if log == [] then 0.0
    else
      var n := |log| - 1;
      Charged(log[..n], priced, settled, tiers, epoch, key) +
      if Mine(log[n], epoch, key) && (n in priced) == settled then Cost(tiers, log[n].lo, log[n].hi) else 0.0
  }

  lemma {:induction false} ChargesAddUp(log: seq<Reservation>, bound: nat, priced: set<nat>, tiers: seq<Tier>,
                                        epoch: nat, key: MeterKey)
    requires Tiled(log, bound) && Strict(tiers)
    ensures Charged(log, priced, true, tiers, epoch, key) + Charged(log, priced, false, tiers, epoch, key)
            == Integral(tiers, Total(log, epoch, key))
  {
    if log == [] {
      assert Integral(tiers, 0.0) == 0.0;
    } else {
      var n := |log| - 1;
      assert StartsRight(log, n, bound);
      TiledInit(log, bound);
      ChargesAddUp(log[..n], bound, priced, tiers, epoch, key);
      TotalNonNegative(log[..n], bound, epoch, key);
      if Mine(log[n], epoch, key) { CostIsIntegral(tiers, log[n].lo, log[n].hi); }
    }
  }

  /** Whatever the interleaving and however the bytes were batched: what has been
      charged in a period, plus what is reserved and not yet priced, is the tiered
      price of the period's total. */
  lemma PeriodIsChargedOnce(s: State, tiers: seq<Tier>, epoch: nat, key: MeterKey)
    requires Reachable(s) && Strict(tiers)
    ensures Charged(s.log, s.priced, true, tiers, epoch, key) + Charged(s.log, s.priced, false, tiers, epoch, key)
            == Integral(tiers, Total(s.log, epoch, key))
    ensures epoch == s.epoch ==> Total(s.log, epoch, key) == UsedOf(s.meter, key)
  {
    ReachableIsMetered(s);
    ChargesAddUp(s.log, s.epoch, s.priced, tiers, epoch, key);
  }

  /** With a free first tier, a period whose calls have all been priced pays for
      exactly the gigabytes past the allowance: it is granted once. */
  lemma FreeTierGrantedOnce(s: State, allowance: real, paid: seq<Tier>, epoch: nat, key: MeterKey)
    requires Reachable(s) && Strict([Tier(UpTo(allowance), 0.0)] + paid)
    requires forall i :: 0 <= i < |s.log| && Mine(s.log[i], epoch, key) ==> i in s.priced
    ensures Charged(s.log, s.priced, true, [Tier(UpTo(allowance), 0.0)] + paid, epoch, key)
            == Above(paid, allowance, Total(s.log, epoch, key))
  {
    var tiers := [Tier(UpTo(allowance), 0.0)] + paid;
    PeriodIsChargedOnce(s, tiers, epoch, key);
    NothingUnsettled(s.log, s.priced, tiers, epoch, key);
    ReachableIsMetered(s);
    TotalNonNegative(s.log, s.epoch, epoch, key);
    assert tiers[1..] == paid;
  }

  lemma {:induction false} NothingUnsettled(log: seq<Reservation>, priced: set<nat>, tiers: seq<Tier>,
                                            epoch: nat, key: MeterKey)
    requires forall i :: 0 <= i < |log| && Mine(log[i], epoch, key) ==> i in priced
    ensures Charged(log, priced, false, tiers, epoch, key) == 0.0
  {
    if log != [] { NothingUnsettled(log[..|log| - 1], priced, tiers, epoch, key); }
  }
}
