/** Tiered prices: the nested tier walk, the integral it is meant to compute, and
    exactly which tables make the two agree. */
module Tiers {

  /** A tier's upper threshold; Unlimited is the source's infinity. */
  datatype Bound = UpTo(gb: real) | Unlimited

  datatype Tier = Tier(upTo: Bound, perGB: real)

  predicate AtLeast(a: Bound, b: Bound) {
    a.Unlimited? || (b.UpTo? && a.gb >= b.gb)
  }

  /** x lies at or past the threshold. */
  predicate Past(x: real, b: Bound) {
    b.UpTo? && x >= b.gb
  }

  function Max(x: real, y: real): real {
    if x >= y then x else y
  }

  function Min(x: real, b: Bound): real {
    if Past(x, b) then b.gb else x
  }

  function Price(gb: real, perGB: real): real {
    gb * perGB
  }

  // ----- the walk -----

  /** Where tier i starts, found by scanning the table up to the first threshold
      that reaches tier i's own. */
  function StartFrom(tiers: seq<Tier>, upTo: Bound, j: nat, start: real): real
    decreases |tiers| - j
  {
    if j >= |tiers| || AtLeast(tiers[j].upTo, upTo) then start
    else StartFrom(tiers, upTo, j + 1, tiers[j].upTo.gb)
  }

  /** The part of [prev, next] the walk bills in tier i; not positive when it bills none. */
  function PartIn(tiers: seq<Tier>, i: nat, prev: real, next: real): real
    requires i < |tiers|
  {
    Min(next, tiers[i].upTo) - Max(prev, StartFrom(tiers, tiers[i].upTo, 0, 0.0))
  }

  /** The walk from tier i with `remaining` gigabytes left to bill. */
  function Walk(tiers: seq<Tier>, i: nat, prev: real, next: real, remaining: real): real
    decreases |tiers| - i
  {
    if i >= |tiers| || remaining <= 0.0 then 0.0
    else if Past(prev, tiers[i].upTo) || PartIn(tiers, i, prev, next) <= 0.0 then Walk(tiers, i + 1, prev, next, remaining)
    else Price(PartIn(tiers, i, prev, next), tiers[i].perGB) +
         Walk(tiers, i + 1, prev, next, remaining - PartIn(tiers, i, prev, next))
  }

  /** The cost of the gigabytes between prev and next. */
  function Cost(tiers: seq<Tier>, prev: real, next: real): real {
    Walk(tiers, 0, prev, next, next - prev)
  }

  method TierStart(tiers: seq<Tier>, upTo: Bound) returns (start: real)
    ensures start == StartFrom(tiers, upTo, 0, 0.0)
  {
    start := 0.0;
    var j := 0;
    while j < |tiers|
      invariant 0 <= j <= |tiers|
      invariant StartFrom(tiers, upTo, j, start) == StartFrom(tiers, upTo, 0, 0.0)
    {
      if AtLeast(tiers[j].upTo, upTo) { break; }
      start := tiers[j].upTo.gb;
      j := j + 1;
    }
  }

  /** The source's loops. For a table with strictly ascending thresholds the result
      is the difference of the integral. */
  method TieredCost(tiers: seq<Tier>, prev: real, next: real) returns (cost: real)
    ensures cost == Cost(tiers, prev, next)
    ensures Strict(tiers) && 0.0 <= prev <= next ==> cost == Integral(tiers, next) - Integral(tiers, prev)
  {
    cost := 0.0;
    var remaining := next - prev;
    var i := 0;
    while i < |tiers|
      invariant 0 <= i <= |tiers|
      invariant cost + Walk(tiers, i, prev, next, remaining) == Cost(tiers, prev, next)
    {
      if remaining <= 0.0 { break; }
      var tier := tiers[i];
      var tierStart := 0.0;
      if |tiers| > 1 {
        tierStart := TierStart(tiers, tier.upTo);
      }
      if !Past(prev, tier.upTo) {
        var gbInTier := Min(next, tier.upTo) - Max(prev, tierStart);
        if gbInTier > 0.0 {
          cost := cost + Price(gbInTier, tier.perGB);
          remaining := remaining - gbInTier;
        }
      }
      i := i + 1;
    }
    if Strict(tiers) && 0.0 <= prev <= next {
      CostIsIntegral(tiers, prev, next);
    }
  }

  // ----- the integral -----

  /** What the gigabytes between `start` and x cost when these tiers follow `start`. */
  function Above(tiers: seq<Tier>, start: real, x: real): real {
    if tiers == [] || x <= start then 0.0
    else Price(Min(x, tiers[0].upTo) - start, tiers[0].perGB) +
         if tiers[0].upTo.UpTo? then Above(tiers[1..], tiers[0].upTo.gb, x) else 0.0
  }

  /** The price of the first x gigabytes: each tier prices the stretch between its
      predecessor's threshold and its own. */
  function Integral(tiers: seq<Tier>, x: real): real {
    Above(tiers, 0.0, x)
  }

  /** Thresholds above `start`, each above the one before, nothing after an unlimited tier. */
  predicate StrictFrom(tiers: seq<Tier>, start: real) {
    tiers != [] ==>
      match tiers[0].upTo
      case UpTo(gb) => gb > start && StrictFrom(tiers[1..], gb)
      case Unlimited => |tiers| == 1
  }

  predicate Strict(tiers: seq<Tier>) {
    StrictFrom(tiers, 0.0)
  }

  lemma PriceAdds(a: real, b: real, perGB: real)
    ensures Price(a, perGB) + Price(b, perGB) == Price(a + b, perGB)
  {
  }

  /** Where tier i starts in a strictly ascending table. */
  function StartOf(tiers: seq<Tier>, i: nat): real
    requires i <= |tiers|
  {
    if i == 0 || tiers[i - 1].upTo.Unlimited? then 0.0 else tiers[i - 1].upTo.gb
  }

  /** Tier i and what follows it, in a strictly ascending table. */
  lemma {:induction false} StrictAt(tiers: seq<Tier>, start: real, i: nat)
    requires StrictFrom(tiers, start) && i < |tiers|
    ensures i > 0 ==> tiers[i - 1].upTo.UpTo? && tiers[i - 1].upTo.gb > start
    ensures StrictFrom(tiers[i..], if i == 0 then start else tiers[i - 1].upTo.gb)
    ensures forall j :: 0 <= j < i ==> !AtLeast(tiers[j].upTo, tiers[i].upTo)
  {
    if i > 0 {
      StrictAt(tiers[1..], tiers[0].upTo.gb, i - 1);
      assert tiers[1..][i - 1..] == tiers[i..];
      assert !AtLeast(tiers[0].upTo, tiers[i].upTo) by {
        if i > 1 { assert tiers[1..][i - 2].upTo.UpTo?; }
        StrictAbove(tiers, start, i);
      }
      forall j | 0 <= j < i ensures !AtLeast(tiers[j].upTo, tiers[i].upTo) {
        if j > 0 { assert !AtLeast(tiers[1..][j - 1].upTo, tiers[1..][i - 1].upTo); }
      }
    }
  }

  lemma {:induction false} StrictAbove(tiers: seq<Tier>, start: real, i: nat)
    requires StrictFrom(tiers, start) && i < |tiers|
    ensures tiers[i].upTo.UpTo? ==> tiers[i].upTo.gb > start
  {
    if i > 0 { StrictAbove(tiers[1..], tiers[0].upTo.gb, i - 1); }
  }

  lemma {:induction false} StartScan(tiers: seq<Tier>, i: nat, j: nat, start: real)
    requires j <= i < |tiers|
    requires forall m :: j <= m < i ==> !AtLeast(tiers[m].upTo, tiers[i].upTo)
    ensures StartFrom(tiers, tiers[i].upTo, j, start) == if j == i then start else StartOf(tiers, i)
    decreases i - j
  {
    if j < i { StartScan(tiers, i, j + 1, tiers[j].upTo.gb); }
  }

  /** The walk from tier i on bills what the integral says about the tiers from i on. */
  lemma {:induction false} WalkIsAbove(tiers: seq<Tier>, i: nat, prev: real, next: real)
    requires Strict(tiers) && i <= |tiers| && 0.0 <= prev <= next
    ensures var start := StartOf(tiers, i);
            Walk(tiers, i, prev, next, next - Max(prev, start)) == Above(tiers[i..], start, next) - Above(tiers[i..], start, prev)
    decreases |tiers| - i
  {
    var start := StartOf(tiers, i);
    if i < |tiers| {
      var tier := tiers[i];
      StrictAt(tiers, 0.0, i);
      StartScan(tiers, i, 0, 0.0);
      assert StartFrom(tiers, tier.upTo, 0, 0.0) == start;
      WalkIsAbove(tiers, i + 1, prev, next);
      assert tiers[i..][1..] == tiers[i + 1..];
      if prev > start && !Past(prev, tier.upTo) {
        PriceAdds(Min(next, tier.upTo) - prev, prev - start, tier.perGB);
      }
    }
  }

  lemma CostIsIntegral(tiers: seq<Tier>, prev: real, next: real)
    requires Strict(tiers) && 0.0 <= prev <= next
    ensures Cost(tiers, prev, next) == Integral(tiers, next) - Integral(tiers, prev)
  {
    WalkIsAbove(tiers, 0, prev, next);
    assert tiers[0..] == tiers;
  }

  // ----- what follows for billing -----

  /** Billing a stretch in two parts costs the same as billing it at once. */
  lemma CostIsAdditive(tiers: seq<Tier>, a: real, b: real, c: real)
    requires Strict(tiers) && 0.0 <= a <= b <= c
    ensures Cost(tiers, a, b) + Cost(tiers, b, c) == Cost(tiers, a, c)
  {
    CostIsIntegral(tiers, a, b);
    CostIsIntegral(tiers, b, c);
    CostIsIntegral(tiers, a, c);
  }

  predicate NeverPays(tiers: seq<Tier>) {
    forall i :: 0 <= i < |tiers| ==> tiers[i].perGB >= 0.0
  }

  lemma PriceNonNegative(gb: real, perGB: real)
    requires gb >= 0.0 && perGB >= 0.0
    ensures Price(gb, perGB) >= 0.0
  {
  }

  lemma {:induction false} AboveMonotone(tiers: seq<Tier>, start: real, x: real, y: real)
    requires StrictFrom(tiers, start) && NeverPays(tiers) && x <= y
    ensures Above(tiers, start, x) <= Above(tiers, start, y)
    ensures Above(tiers, start, y) >= 0.0
  {
    if tiers != [] && y > start {
      var tier := tiers[0];
      if tier.upTo.UpTo? { AboveMonotone(tiers[1..], tier.upTo.gb, x, y); }
      PriceNonNegative(Min(y, tier.upTo) - start, tier.perGB);
      if x > start {
        PriceAdds(Min(x, tier.upTo) - start, Min(y, tier.upTo) - Min(x, tier.upTo), tier.perGB);
        PriceNonNegative(Min(y, tier.upTo) - Min(x, tier.upTo), tier.perGB);
      }
    }
  }

  /** More gigabytes never cost less, and no gigabyte has a negative cost. */
  lemma CostIsMonotone(tiers: seq<Tier>, a: real, b: real, c: real)
    requires Strict(tiers) && NeverPays(tiers) && 0.0 <= a <= b <= c
    ensures 0.0 <= Cost(tiers, a, b) <= Cost(tiers, a, c)
    ensures Cost(tiers, b, c) <= Cost(tiers, a, c)
  {
    CostIsIntegral(tiers, a, b);
    CostIsIntegral(tiers, b, c);
    CostIsIntegral(tiers, a, c);
    AboveMonotone(tiers, 0.0, a, b);
    AboveMonotone(tiers, 0.0, b, c);
  }

  /** The price of the first tier that is not free: what a gigabyte costs once the
      allowance is used up. */
  function MarginalRate(tiers: seq<Tier>): real {
    if tiers == [] then 0.0 else if tiers[0].perGB > 0.0 then tiers[0].perGB else MarginalRate(tiers[1..])
  }

  predicate NoneAbove(tiers: seq<Tier>, rate: real) {
    forall i :: 0 <= i < |tiers| ==> tiers[i].perGB <= rate
  }

  lemma PriceAtMost(gb: real, perGB: real, rate: real)
    requires gb >= 0.0 && perGB <= rate
    ensures Price(gb, perGB) <= Price(gb, rate)
  {
  }

  lemma {:induction false} AboveAtMost(tiers: seq<Tier>, start: real, x: real, y: real, rate: real)
    requires StrictFrom(tiers, start) && NoneAbove(tiers, rate) && rate >= 0.0 && start <= x <= y
    ensures Above(tiers, start, y) - Above(tiers, start, x) <= Price(y - x, rate)
  {
    PriceNonNegative(y - x, rate);
    if tiers != [] && y > start {
      var tier := tiers[0];
      var inX, inY := Min(x, tier.upTo), Min(y, tier.upTo);
      PriceAdds(inX - start, inY - inX, tier.perGB);
      PriceAtMost(inY - inX, tier.perGB, rate);
      if tier.upTo.UpTo? {
        var b := tier.upTo.gb;
        AboveAtMost(tiers[1..], b, Max(x, b), Max(y, b), rate);
        PriceAdds(inY - inX, Max(y, b) - Max(x, b), rate);
      }
    }
  }

  lemma {:induction false} AboveSplit(tiers: seq<Tier>, start: real, i: nat, y: real)
    requires StrictFrom(tiers, start) && i < |tiers|
    ensures var lo := if i == 0 then start else StartOf(tiers, i);
            lo <= y && (tiers[i].upTo.UpTo? ==> y <= tiers[i].upTo.gb) ==>
              Above(tiers, start, y) == Above(tiers, start, lo) + Price(y - lo, tiers[i].perGB)
  {
    StrictAt(tiers, start, i);
    if i > 0 {
      AboveSplit(tiers[1..], tiers[0].upTo.gb, i - 1, y);
      if i > 1 { StrictAbove(tiers[1..], tiers[0].upTo.gb, i - 2); }
    }
  }

  /** The default mode's flat marginal rate covers every stretch of a table's
      cumulative cost exactly when no tier is dearer than it. */
  lemma MarginalRateCoversIff(tiers: seq<Tier>)
    requires Strict(tiers)
    ensures (forall prev: real, next: real :: 0.0 <= prev <= next ==> Cost(tiers, prev, next) <= Price(next - prev, MarginalRate(tiers)))
            <==> NoneAbove(tiers, MarginalRate(tiers))
  {
    var rate := MarginalRate(tiers);
    MarginalNonNegative(tiers);
    if NoneAbove(tiers, rate) {
      forall prev: real, next: real | 0.0 <= prev <= next ensures Cost(tiers, prev, next) <= Price(next - prev, rate) {
        CostIsIntegral(tiers, prev, next);
        AboveAtMost(tiers, 0.0, prev, next, rate);
      }
    } else {
      var i :| 0 <= i < |tiers| && tiers[i].perGB > rate;
      StrictAt(tiers, 0.0, i);
      StrictAbove(tiers, 0.0, i);
      var lo := StartOf(tiers, i);
      var hi := if tiers[i].upTo.UpTo? then tiers[i].upTo.gb else lo + 1.0;
      AboveSplit(tiers, 0.0, i, hi);
      CostIsIntegral(tiers, lo, hi);
      PriceGrows(hi - lo, rate, tiers[i].perGB);
      assert Cost(tiers, lo, hi) > Price(hi - lo, rate);
    }
  }

  lemma PriceGrows(gb: real, low: real, high: real)
    requires gb > 0.0 && low < high
    ensures Price(gb, low) < Price(gb, high)
  {
  }

  lemma {:induction false} MarginalNonNegative(tiers: seq<Tier>)
    ensures MarginalRate(tiers) >= 0.0
  {
    if tiers != [] { MarginalNonNegative(tiers[1..]); }
  }

  // ----- what the marginal rate is -----

  /** Inside one tier every gigabyte costs that tier's price. */
  lemma EachGigabyteAtItsTier(tiers: seq<Tier>, i: nat, prev: real, next: real)
    requires Strict(tiers) && i < |tiers| && StartOf(tiers, i) <= prev <= next
    requires tiers[i].upTo.UpTo? ==> next <= tiers[i].upTo.gb
    ensures Cost(tiers, prev, next) == Price(next - prev, tiers[i].perGB)
  {
    StrictAt(tiers, 0.0, i);
    CostIsIntegral(tiers, prev, next);
    AboveSplit(tiers, 0.0, i, prev);
    AboveSplit(tiers, 0.0, i, next);
    PriceAdds(prev - StartOf(tiers, i), next - prev, tiers[i].perGB);
  }

  /** Tier i is the first one that is paid. */
  predicate FirstPaid(tiers: seq<Tier>, i: nat) {
    i < |tiers| && tiers[i].perGB > 0.0 && forall j :: 0 <= j < i ==> tiers[j].perGB <= 0.0
  }

  lemma {:induction false} RateOfFirstPaid(tiers: seq<Tier>, i: nat)
    requires FirstPaid(tiers, i)
    ensures MarginalRate(tiers) == tiers[i].perGB
  {
    if i > 0 { RateOfFirstPaid(tiers[1..], i - 1); }
  }

  lemma {:induction false} RateIsZeroIff(tiers: seq<Tier>)
    ensures MarginalRate(tiers) == 0.0 <==> forall j :: 0 <= j < |tiers| ==> tiers[j].perGB <= 0.0
  {
    if tiers != [] && tiers[0].perGB <= 0.0 {
      RateIsZeroIff(tiers[1..]);
      assert forall j :: 0 < j < |tiers| ==> tiers[j] == tiers[1..][j - 1];
    }
  }

  /** What a marginal gigabyte costs once the allowance is used up: inside the first paid
      tier the rate prices every stretch exactly, and it is zero only when nothing is paid. */
  lemma MarginalRateIsFirstPaid(tiers: seq<Tier>, i: nat, prev: real, next: real)
    requires Strict(tiers) && FirstPaid(tiers, i) && StartOf(tiers, i) <= prev <= next
    requires tiers[i].upTo.UpTo? ==> next <= tiers[i].upTo.gb
    ensures Cost(tiers, prev, next) == Price(next - prev, MarginalRate(tiers)) && MarginalRate(tiers) > 0.0
  {
    EachGigabyteAtItsTier(tiers, i, prev, next);
    RateOfFirstPaid(tiers, i);
  }
}
