/** The cost engine: rate cards, the cumulative meter of the billing period, and
    what one flow costs. */
module Billing {
  import opened Options
  import opened Tiers
  import opened Traffic

  datatype Direction = MeterTxRx | MeterTx | MeterRx | MeterNone

  datatype RateCard = RateCard(provider: string, region: string, rates: map<TrafficType, seq<Tier>>,
                               natPerGB: real, transitPerGB: real, directions: map<TrafficType, Direction>)

  datatype Flow = Flow(kind: TrafficType, tx: nat, rx: nat)

  /** A moment, by its month and how far into the month it is. */
  datatype Time = Time(month: int, sinceStart: nat)

  datatype MeterKey = MeterKey(provider: string, region: string, kind: TrafficType)

  /** Gigabytes used per key since the start of the month `period`. */
  datatype Meter = Meter(used: map<MeterKey, real>, period: int)

  const GIBIBYTE := 1073741824.0

  function Gigabytes(bytes: nat): real {
    bytes as real / GIBIBYTE
  }

  /** The bytes of a flow that are billable where it is observed. */
  function MeteredBytes(card: RateCard, kind: TrafficType, tx: nat, rx: nat): nat {
    match if kind in card.directions then card.directions[kind] else MeterTxRx
    case MeterTx => tx
    case MeterRx => rx
    case MeterNone => 0
    case MeterTxRx => tx + rx
  }

  // ----- the meter -----

  /** Strictly later than the start of the month after the period's. */
  predicate PeriodOver(period: int, now: Time) {
    now.month > period + 1 || (now.month == period + 1 && now.sinceStart > 0)
  }

  function Current(m: Meter, now: Time): Meter {
    if PeriodOver(m.period, now) then Meter(map[], now.month) else m
  }

  function UsedOf(m: Meter, key: MeterKey): real {
    if key in m.used then m.used[key] else 0.0
  }

  /** Takes the next gb of a key's meter, in a fresh meter when the period is over. */
  function Reserved(m: Meter, key: MeterKey, gb: real, now: Time): Meter {
    var c := Current(m, now);
    c.(used := c.used[key := UsedOf(c, key) + gb])
  }

  /** The price of gb of one traffic type, and the meter afterwards. */
  function Priced(single: bool, m: Meter, key: MeterKey, tiers: seq<Tier>, gb: real, now: Time): (Meter, real) {
    if tiers == [] then (m, 0.0)
    else if |tiers| == 1 then (m, Price(gb, tiers[0].perGB))
    else if !single then (m, Price(gb, MarginalRate(tiers)))
    else
      var prev := UsedOf(Current(m, now), key);
      (Reserved(m, key, gb, now), Cost(tiers, prev, prev + gb))
  }

  function KeyOf(card: RateCard, kind: TrafficType): MeterKey {
    MeterKey(card.provider, card.region, kind)
  }

  function PricedFlow(single: bool, m: Meter, card: RateCard, f: Flow, now: Time): (Meter, real) {
    var gb := Gigabytes(MeteredBytes(card, f.kind, f.tx, f.rx));
    match f.kind
    case NATGatewayEgress =>
      if InternetEgress in card.rates then
        var (n, egress) := Priced(single, m, KeyOf(card, InternetEgress), card.rates[InternetEgress], Gigabytes(f.tx), now);
        (n, Price(gb, card.natPerGB) + egress)
      else (m, Price(gb, card.natPerGB))
    case TransitGateway => (m, Price(gb, card.transitPerGB))
    case _ => if f.kind in card.rates then Priced(single, m, KeyOf(card, f.kind), card.rates[f.kind], gb, now) else (m, 0.0)
  }

  /** A batch of flows, each priced at its own reading of the clock. */
  function PricedAll(single: bool, m: Meter, card: RateCard, flows: seq<(Flow, Time)>): (Meter, seq<real>) {
    if flows == [] then (m, [])
    else
      var (n, costs) := PricedAll(single, m, card, flows[..|flows| - 1]);
      var (f, now) := flows[|flows| - 1];
      var (p, cost) := PricedFlow(single, n, card, f, now);
      (p, costs + [cost])
  }

  class Engine {
    const singleMeter: bool
    var used: map<MeterKey, real>
    var period: int

    constructor (singleMeter: bool, now: Time)
      ensures this.singleMeter == singleMeter && State() == Meter(map[], now.month)
    {
      this.singleMeter, used, period := singleMeter, map[], now.month;
    }

    ghost function State(): Meter
      reads this
    {
      Meter(used, period)
    }

    /** The locked section: where this call's gigabytes start on the meter. */
    method Reserve(key: MeterKey, gb: real, now: Time) returns (prev: real)
      modifies this
      ensures prev == UsedOf(Current(old(State()), now), key)
      ensures State() == Reserved(old(State()), key, gb, now)
    {
      if PeriodOver(period, now) {
        used := map[];
        period := now.month;
      }
      prev := if key in used then used[key] else 0.0;
      used := used[key := prev + gb];
    }

    /** The price itself is computed outside the lock. */
    method PriceTiered(key: MeterKey, tiers: seq<Tier>, gb: real, now: Time) returns (cost: real)
      modifies this
      ensures (State(), cost) == Priced(singleMeter, old(State()), key, tiers, gb, now)
    {
      if |tiers| == 0 {
        return 0.0;
      }
      if |tiers| == 1 {
        return Price(gb, tiers[0].perGB);
      }
      if !singleMeter {
        return Price(gb, MarginalRate(tiers));
      }
      var prev := Reserve(key, gb, now);
      cost := TieredCost(tiers, prev, prev + gb);
    }

    method CalculateFlow(card: RateCard, f: Flow, now: Time) returns (cost: real)
      modifies this
      ensures (State(), cost) == PricedFlow(singleMeter, old(State()), card, f, now)
    {
      var gb := Gigabytes(MeteredBytes(card, f.kind, f.tx, f.rx));
      match f.kind {
        case NATGatewayEgress =>
          cost := Price(gb, card.natPerGB);
          if InternetEgress in card.rates {
            var egress := PriceTiered(KeyOf(card, InternetEgress), card.rates[InternetEgress], Gigabytes(f.tx), now);
            cost := cost + egress;
          }
        case TransitGateway =>
          cost := Price(gb, card.transitPerGB);
        case _ =>
          if f.kind !in card.rates {
            return 0.0;
          }
          cost := PriceTiered(KeyOf(card, f.kind), card.rates[f.kind], gb, now);
      }
    }

    /** Without a rate card every flow costs nothing. */
    method Calculate(card: Option<RateCard>, flows: seq<(Flow, Time)>) returns (costs: seq<real>)
      modifies this
      ensures card.None? ==> State() == old(State()) && costs == seq(|flows|, _ => 0.0)
      ensures card.Some? ==> (State(), costs) == PricedAll(singleMeter, old(State()), card.value, flows)
    {
      if card.None? {
        return seq(|flows|, _ => 0.0);
      }
      costs := [];
      for i := 0 to |flows|
        invariant (State(), costs) == PricedAll(singleMeter, old(State()), card.value, flows[..i])
      {
        assert flows[..i + 1][..i] == flows[..i];
        var cost := CalculateFlow(card.value, flows[i].0, flows[i].1);
        costs := costs + [cost];
      }
      assert flows[..|flows|] == flows;
    }

    method ResetBillingPeriod(now: Time)
      modifies this
      ensures State() == Meter(map[], now.month)
    {
      used, period := map[], now.month;
    }
  }

  /** The transmit leg of a flow through a NAT gateway continues the internet-egress
      meter: with an internet flow before it in the same period, the two stretches
      cost what one stretch of their sum costs. */
  lemma NatSharesEgressMeter(m: Meter, card: RateCard, internet: Flow, natted: Flow, now: Time, later: Time)
    requires InternetEgress in card.rates && |card.rates[InternetEgress]| > 1 && Strict(card.rates[InternetEgress])
    requires internet.kind == InternetEgress && natted.kind == NATGatewayEgress
    requires !PeriodOver(m.period, now) && !PeriodOver(m.period, later) && UsedOf(m, KeyOf(card, InternetEgress)) >= 0.0
    ensures var (n, cost) := PricedFlow(true, m, card, internet, now);
            var (p, natCost) := PricedFlow(true, n, card, natted, later);
            var processing := Price(Gigabytes(MeteredBytes(card, natted.kind, natted.tx, natted.rx)), card.natPerGB);
            var prev := UsedOf(m, KeyOf(card, InternetEgress));
            var total := Gigabytes(MeteredBytes(card, internet.kind, internet.tx, internet.rx)) + Gigabytes(natted.tx);
            && cost + natCost == processing + Cost(card.rates[InternetEgress], prev, prev + total)
            && UsedOf(p, KeyOf(card, InternetEgress)) == prev + total
  {
    var prev := UsedOf(m, KeyOf(card, InternetEgress));
    var first := Gigabytes(MeteredBytes(card, internet.kind, internet.tx, internet.rx));
    GigabytesNonNegative(MeteredBytes(card, internet.kind, internet.tx, internet.rx));
    GigabytesNonNegative(natted.tx);
    CostIsAdditive(card.rates[InternetEgress], prev, prev + first, prev + (first + Gigabytes(natted.tx)));
  }

  // ----- the billing period -----

  /** Months and moments in order. */
  predicate Before(a: Time, b: Time) {
    a.month < b.month || (a.month == b.month && a.sinceStart < b.sinceStart)
  }

  /** A period is over strictly after the first moment of the next month, and stays over. */
  lemma PeriodEndsAfterNextMonthStarts(period: int, now: Time, later: Time)
    ensures PeriodOver(period, now) <==> Before(Time(period + 1, 0), now)
    ensures PeriodOver(period, now) && Before(now, later) ==> PeriodOver(period, later)
  {
  }

  /** A month is reset once: the meter in use at some moment is not over at that moment,
      nor later in that month unless the moment is the month's very first; it is the one
      there was unless that one's period was over, and then an empty one. */
  lemma MonthIsResetOnce(m: Meter, now: Time, later: Time)
    requires later.month == now.month && !Before(later, now)
    ensures !PeriodOver(Current(m, now).period, now)
    ensures now != Time(m.period + 1, 0) ==> Current(Current(m, now), later) == Current(m, now)
    ensures !PeriodOver(m.period, now) ==> Current(m, now) == m
    ensures PeriodOver(m.period, now) ==>
              Current(m, now).period == now.month && forall key :: UsedOf(Current(m, now), key) == 0.0
  {
  }

  // ----- what is billable where -----

  /** A transfer of n bytes is seen as n sent at one end and n received at the other; each
      direction bills it at the ends it names, and bytes add up. */
  lemma DirectionsBill(card: RateCard, kind: TrafficType, n: nat, tx: nat, rx: nat)
    ensures kind !in card.directions ==> MeteredBytes(card, kind, n, 0) == n == MeteredBytes(card, kind, 0, n)
    ensures kind in card.directions ==>
              && (MeteredBytes(card, kind, n, 0) == if card.directions[kind] in {MeterTx, MeterTxRx} then n else 0)
              && (MeteredBytes(card, kind, 0, n) == if card.directions[kind] in {MeterRx, MeterTxRx} then n else 0)
    ensures MeteredBytes(card, kind, tx, rx) == MeteredBytes(card, kind, tx, 0) + MeteredBytes(card, kind, 0, rx)
  {
  }

  // ----- what a flow costs by default -----

  /** Without the single meter a flow of a tiered kind costs what its gigabytes cost in
      the first paid tier, wherever in it, and no meter moves. */
  lemma DefaultPriceIsFirstPaidTier(m: Meter, card: RateCard, f: Flow, now: Time, i: nat, prev: real)
    requires f.kind in card.rates && |card.rates[f.kind]| > 1 && f.kind !in {NATGatewayEgress, TransitGateway}
    requires Strict(card.rates[f.kind]) && FirstPaid(card.rates[f.kind], i) && StartOf(card.rates[f.kind], i) <= prev
    requires var gb := Gigabytes(MeteredBytes(card, f.kind, f.tx, f.rx));
             card.rates[f.kind][i].upTo.UpTo? ==> prev + gb <= card.rates[f.kind][i].upTo.gb
    ensures var gb := Gigabytes(MeteredBytes(card, f.kind, f.tx, f.rx));
            PricedFlow(false, m, card, f, now) == (m, Cost(card.rates[f.kind], prev, prev + gb))
  {
    var gb := Gigabytes(MeteredBytes(card, f.kind, f.tx, f.rx));
    GigabytesNonNegative(MeteredBytes(card, f.kind, f.tx, f.rx));
    MarginalRateIsFirstPaid(card.rates[f.kind], i, prev, prev + gb);
  }

  /** Gateways and flat rates: a gibibyte costs the listed price, in either mode, and no
      meter moves; a kind without a rate costs nothing. */
  lemma FlatPrices(single: bool, m: Meter, card: RateCard, f: Flow, now: Time)
    requires MeteredBytes(card, f.kind, f.tx, f.rx) == 1024 * 1024 * 1024
    ensures f.kind == NATGatewayEgress && InternetEgress !in card.rates ==>
              PricedFlow(single, m, card, f, now) == (m, card.natPerGB)
    ensures f.kind == TransitGateway ==> PricedFlow(single, m, card, f, now) == (m, card.transitPerGB)
    ensures f.kind !in {NATGatewayEgress, TransitGateway} && f.kind !in card.rates ==>
              PricedFlow(single, m, card, f, now) == (m, 0.0)
    ensures f.kind !in {NATGatewayEgress, TransitGateway} && f.kind in card.rates && |card.rates[f.kind]| == 1 ==>
              PricedFlow(single, m, card, f, now) == (m, card.rates[f.kind][0].perGB)
  {
  }

  /** Flows leave the meters of other kinds, providers and regions alone. */
  lemma MetersAreApart(single: bool, m: Meter, card: RateCard, f: Flow, now: Time, key: MeterKey)
    requires !PeriodOver(m.period, now)
    requires key.provider != card.provider || key.region != card.region ||
             key.kind != if f.kind == NATGatewayEgress then InternetEgress else f.kind
    ensures UsedOf(PricedFlow(single, m, card, f, now).0, key) == UsedOf(m, key)
  {
  }

  /** A batch prices each flow on the meter the flows before it left. */
  lemma {:induction false} EachInTurn(single: bool, m: Meter, card: RateCard, flows: seq<(Flow, Time)>, i: nat)
    requires i < |flows|
    ensures |PricedAll(single, m, card, flows).1| == |flows|
    ensures PricedAll(single, m, card, flows).1[i] ==
            PricedFlow(single, PricedAll(single, m, card, flows[..i]).0, card, flows[i].0, flows[i].1).1
  {
    var n := |flows| - 1;
    if i < n {
      EachInTurn(single, m, card, flows[..n], i);
      assert flows[..n][..i] == flows[..i];
    } else {
      PricesEach(single, m, card, flows[..n]);
    }
  }

  lemma {:induction false} PricesEach(single: bool, m: Meter, card: RateCard, flows: seq<(Flow, Time)>)
    ensures |PricedAll(single, m, card, flows).1| == |flows|
  {
    if flows != [] { PricesEach(single, m, card, flows[..|flows| - 1]); }
  }

  // ----- a batch on the shared meter -----

  predicate OnEgressMeter(f: Flow) {
    f.kind == InternetEgress || f.kind == NATGatewayEgress
  }

  /** The gigabytes a flow takes from the internet-egress meter. */
  function EgressGB(card: RateCard, f: Flow): real {
    if f.kind == InternetEgress then Gigabytes(MeteredBytes(card, f.kind, f.tx, f.rx))
    else if f.kind == NATGatewayEgress then Gigabytes(f.tx)
    else 0.0
  }

  /** What the NAT gateway charges for passing a flow on. */
  function NatFee(card: RateCard, f: Flow): real {
    if f.kind == NATGatewayEgress then Price(Gigabytes(MeteredBytes(card, f.kind, f.tx, f.rx)), card.natPerGB) else 0.0
  }

  function EgressTotal(card: RateCard, flows: seq<(Flow, Time)>): real {
    if flows == [] then 0.0 else EgressTotal(card, flows[..|flows| - 1]) + EgressGB(card, flows[|flows| - 1].0)
  }

  function NatFees(card: RateCard, flows: seq<(Flow, Time)>): real {
    if flows == [] then 0.0 else NatFees(card, flows[..|flows| - 1]) + NatFee(card, flows[|flows| - 1].0)
  }

  /** The costs of a batch's internet and NAT flows. */
  function EgressCosts(flows: seq<(Flow, Time)>, costs: seq<real>): real
    requires |costs| == |flows|
  {
    if flows == [] then 0.0
    else
      var n := |flows| - 1;
      EgressCosts(flows[..n], costs[..n]) + if OnEgressMeter(flows[n].0) then costs[n] else 0.0
  }

  lemma FlowOnEgressMeter(m: Meter, card: RateCard, f: Flow, now: Time)
    requires InternetEgress in card.rates && |card.rates[InternetEgress]| > 1 && !PeriodOver(m.period, now)
    ensures var (n, cost) := PricedFlow(true, m, card, f, now);
            var key, gb := KeyOf(card, InternetEgress), EgressGB(card, f);
            && n.period == m.period && UsedOf(n, key) == UsedOf(m, key) + gb && gb >= 0.0
            && (OnEgressMeter(f) ==>
                  cost == NatFee(card, f) + Cost(card.rates[InternetEgress], UsedOf(m, key), UsedOf(m, key) + gb))
  {
    GigabytesNonNegative(MeteredBytes(card, f.kind, f.tx, f.rx));
    GigabytesNonNegative(f.tx);
  }

  lemma NextStretch(tiers: seq<Tier>, prev: real, total: real, gb: real)
    requires Strict(tiers) && prev >= 0.0 && total >= 0.0 && gb >= 0.0
    ensures var before, after := prev + total, prev + (total + gb);
            Cost(tiers, prev, after) == Cost(tiers, prev, before) + Cost(tiers, before, before + gb)
    ensures gb == 0.0 ==> Cost(tiers, prev + total, prev + total + gb) == 0.0
  {
    var before := prev + total;
    assert prev + (total + gb) == before + gb;
    CostIsAdditive(tiers, prev, before, before + gb);
    CostIsIntegral(tiers, before, before);
  }

  /** The internet and NAT flows together cost the NAT fees and one stretch of the
      internet-egress meter, which has moved by their total. */
  predicate BilledAsOne(m: Meter, card: RateCard, flows: seq<(Flow, Time)>, n: Meter, costs: seq<real>)
    requires InternetEgress in card.rates
  {
    var prev, total := UsedOf(m, KeyOf(card, InternetEgress)), EgressTotal(card, flows);
    && |costs| == |flows| && total >= 0.0 && n.period == m.period
    && EgressCosts(flows, costs) == NatFees(card, flows) + Cost(card.rates[InternetEgress], prev, prev + total)
    && UsedOf(n, KeyOf(card, InternetEgress)) == prev + total
  }

  lemma BilledWithNext(m: Meter, card: RateCard, init: seq<(Flow, Time)>, n: Meter, costs: seq<real>, f: Flow, now: Time)
    requires InternetEgress in card.rates && |card.rates[InternetEgress]| > 1 && Strict(card.rates[InternetEgress])
    requires UsedOf(m, KeyOf(card, InternetEgress)) >= 0.0 && BilledAsOne(m, card, init, n, costs)
    requires !PeriodOver(n.period, now)
    ensures var (p, cost) := PricedFlow(true, n, card, f, now);
            BilledAsOne(m, card, init + [(f, now)], p, costs + [cost])
  {
    var (p, cost) := PricedFlow(true, n, card, f, now);
    FlowOnEgressMeter(n, card, f, now);
    NextStretch(card.rates[InternetEgress], UsedOf(m, KeyOf(card, InternetEgress)), EgressTotal(card, init),
                EgressGB(card, f));
    assert (init + [(f, now)])[..|init|] == init && (costs + [cost])[..|init|] == costs;
  }

  /** Any batch of flows of any kinds that is priced within one period. */
  lemma {:induction false} EgressSharesOneMeter(m: Meter, card: RateCard, flows: seq<(Flow, Time)>)
    requires InternetEgress in card.rates && |card.rates[InternetEgress]| > 1 && Strict(card.rates[InternetEgress])
    requires UsedOf(m, KeyOf(card, InternetEgress)) >= 0.0
    requires forall i :: 0 <= i < |flows| ==> !PeriodOver(m.period, flows[i].1)
    ensures var (n, costs) := PricedAll(true, m, card, flows);
            BilledAsOne(m, card, flows, n, costs)
  {
    if flows == [] {
      var prev := UsedOf(m, KeyOf(card, InternetEgress));
      CostIsIntegral(card.rates[InternetEgress], prev, prev);
    } else {
      var init, last := flows[..|flows| - 1], flows[|flows| - 1];
      EgressSharesOneMeter(m, card, init);
      var (n, costs) := PricedAll(true, m, card, init);
      BilledWithNext(m, card, init, n, costs, last.0, last.1);
      assert init + [(last.0, last.1)] == flows;
    }
  }

  lemma GigabytesNonNegative(bytes: nat)
    ensures Gigabytes(bytes) >= 0.0
  {
  }
}
