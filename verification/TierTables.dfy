/** Which tier tables the walk bills correctly. Sorting the fetched tiers by threshold
    is not enough: at a repeated threshold the walk bills one stretch once per copy. */
module TierTables {
  import opened Tiers

  /** What sorting gives: thresholds in order, possibly repeated, unlimited ones last,
      none negative. */
  predicate Sorted(tiers: seq<Tier>) {
    && (forall j, k :: 0 <= j < k < |tiers| ==> AtLeast(tiers[k].upTo, tiers[j].upTo))
    && (forall j :: 0 <= j < |tiers| ==> !tiers[j].upTo.UpTo? || tiers[j].upTo.gb >= 0.0)
  }

  /** A positive threshold directly followed by itself. */
  predicate RepeatsFirst(tiers: seq<Tier>) {
    |tiers| > 1 && tiers[0].upTo.UpTo? && tiers[0].upTo.gb > 0.0 && tiers[1].upTo == tiers[0].upTo
  }

  /** The tiers up to the first unlimited one cost nothing. */
  predicate FreeToUnlimited(tiers: seq<Tier>) {
    tiers == [] || (tiers[0].perGB == 0.0 && (tiers[0].upTo.Unlimited? || FreeToUnlimited(tiers[1..])))
  }

  /** From the first repetition of a positive threshold to the first unlimited tier
      nothing is paid; without such a repetition this holds. */
  predicate FreeFromRepeat(tiers: seq<Tier>) {
    if tiers == [] || tiers[0].upTo.Unlimited? then true
    else if RepeatsFirst(tiers) then FreeToUnlimited(tiers[1..])
    else FreeFromRepeat(tiers[1..])
  }

  lemma {:induction false} StrictIsFreeFromRepeat(tiers: seq<Tier>, start: real)
    requires StrictFrom(tiers, start)
    ensures FreeFromRepeat(tiers)
  {
    if tiers != [] && tiers[0].upTo.UpTo? { StrictIsFreeFromRepeat(tiers[1..], tiers[0].upTo.gb); }
  }

  ghost predicate BilledCorrectly(tiers: seq<Tier>) {
    forall prev: real, next: real :: 0.0 <= prev <= next ==> RightOn(tiers, prev, next)
  }

  predicate RightOn(tiers: seq<Tier>, prev: real, next: real) {
    Cost(tiers, prev, next) == Integral(tiers, next) - Integral(tiers, prev)
  }

  lemma SortedTail(tiers: seq<Tier>)
    requires Sorted(tiers) && tiers != []
    ensures Sorted(tiers[1..])
  {
    var rest := tiers[1..];
    forall j, k | 0 <= j < k < |rest| ensures AtLeast(rest[k].upTo, rest[j].upTo) {
      assert AtLeast(tiers[k + 1].upTo, tiers[j + 1].upTo);
    }
    forall j | 0 <= j < |rest| ensures !rest[j].upTo.UpTo? || rest[j].upTo.gb >= 0.0 {
      assert rest[j] == tiers[j + 1];
    }
  }

  // ----- where the scan says a tier starts -----

  /** A positive threshold's stretch starts below it and not past the threshold before. */
  lemma {:induction false} ScanStartsBelow(tiers: seq<Tier>, i: nat, j: nat, start: real)
    requires Sorted(tiers) && j <= i < |tiers| && start <= StartOf(tiers, i)
    requires i > 0 ==> tiers[i - 1].upTo.UpTo?
    requires tiers[i].upTo.UpTo? ==> start < tiers[i].upTo.gb
    ensures var found := StartFrom(tiers, tiers[i].upTo, j, start);
            found <= StartOf(tiers, i) && (tiers[i].upTo.UpTo? ==> found < tiers[i].upTo.gb)
    decreases i - j
  {
    if j < i && !AtLeast(tiers[j].upTo, tiers[i].upTo) {
      if j < i - 1 { assert AtLeast(tiers[i - 1].upTo, tiers[j].upTo); }
      ScanStartsBelow(tiers, i, j + 1, tiers[j].upTo.gb);
    }
  }

  /** All thresholds are positive: what is left of a sorted table without its empty tiers. */
  predicate Positive(tiers: seq<Tier>) {
    Sorted(tiers) && forall j :: 0 <= j < |tiers| ==> tiers[j].upTo != UpTo(0.0)
  }

  function ScanStart(tiers: seq<Tier>, i: nat): real
    requires i < |tiers|
  {
    StartFrom(tiers, tiers[i].upTo, 0, 0.0)
  }

  lemma StartsBelow(tiers: seq<Tier>, i: nat)
    requires Positive(tiers) && i < |tiers| && (i > 0 ==> tiers[i - 1].upTo.UpTo?)
    ensures ScanStart(tiers, i) <= StartOf(tiers, i)
    ensures tiers[i].upTo.UpTo? ==> ScanStart(tiers, i) < tiers[i].upTo.gb
  {
    if i > 0 { assert AtLeast(tiers[i].upTo, tiers[i - 1].upTo); }
    ScanStartsBelow(tiers, i, 0, 0.0);
  }

  /** The thresholds before tier i are below its own, each above the one before. */
  predicate StrictBefore(tiers: seq<Tier>, i: nat)
    requires i < |tiers|
  {
    forall j, k :: 0 <= j < k <= i ==> !AtLeast(tiers[j].upTo, tiers[k].upTo)
  }

  lemma StrictStart(tiers: seq<Tier>, i: nat)
    requires i < |tiers| && StrictBefore(tiers, i)
    ensures ScanStart(tiers, i) == StartOf(tiers, i)
  {
    StartScan(tiers, i, 0, 0.0);
  }

  lemma StrictNext(tiers: seq<Tier>, i: nat)
    requires Sorted(tiers) && i + 1 < |tiers| && StrictBefore(tiers, i) && tiers[i + 1].upTo != tiers[i].upTo
    ensures StrictBefore(tiers, i + 1)
  {
    assert AtLeast(tiers[i + 1].upTo, tiers[i].upTo);
    forall j, k | 0 <= j < k <= i + 1 ensures !AtLeast(tiers[j].upTo, tiers[k].upTo) {
      if k == i + 1 && j < i { assert !AtLeast(tiers[j].upTo, tiers[i].upTo); }
    }
  }

  // ----- free tiers after the repetition do no harm -----

  lemma {:induction false} FreeAddsNothing(tiers: seq<Tier>, start: real, x: real)
    requires FreeToUnlimited(tiers)
    ensures Above(tiers, start, x) == 0.0
  {
    if tiers != [] && tiers[0].upTo.UpTo? { FreeAddsNothing(tiers[1..], tiers[0].upTo.gb, x); }
  }

  /** With no more left to bill than lies past the last threshold, free tiers bill
      nothing and the first unlimited one uses the rest up. */
  lemma {:induction false} FreeWalk(tiers: seq<Tier>, i: nat, prev: real, next: real, remaining: real)
    requires Positive(tiers) && 0 < i <= |tiers| && tiers[i - 1].upTo.UpTo?
    requires FreeToUnlimited(tiers[i..]) && remaining <= Max(0.0, next - Max(prev, StartOf(tiers, i)))
    ensures Walk(tiers, i, prev, next, remaining) == 0.0
    decreases |tiers| - i
  {
    if i < |tiers| && remaining > 0.0 {
      StartsBelow(tiers, i);
      assert AtLeast(tiers[i].upTo, tiers[i - 1].upTo);
      assert tiers[i..][1..] == tiers[i + 1..] && tiers[i..][0] == tiers[i];
      var part := PartIn(tiers, i, prev, next);
      var rest := if Past(prev, tiers[i].upTo) || part <= 0.0 then remaining else remaining - part;
      if tiers[i].upTo.UpTo? { FreeWalk(tiers, i + 1, prev, next, rest); }
    }
  }

  /** The walk from tier i on bills what the integral says about the tiers from i on. */
  lemma {:induction false} WalkIsRight(tiers: seq<Tier>, i: nat, prev: real, next: real)
    requires Positive(tiers) && i < |tiers| && StrictBefore(tiers, i) && FreeFromRepeat(tiers[i..])
    requires 0.0 <= prev <= next
    ensures var start := StartOf(tiers, i);
            Walk(tiers, i, prev, next, next - Max(prev, start)) ==
            Above(tiers[i..], start, next) - Above(tiers[i..], start, prev)
    decreases |tiers| - i
  {
    var start, tier := StartOf(tiers, i), tiers[i];
    var rest := tiers[i..];
    assert i > 0 ==> !AtLeast(tiers[i - 1].upTo, tiers[i].upTo);
    StartsBelow(tiers, i);
    StrictStart(tiers, i);
    assert rest[0] == tier && rest[1..] == tiers[i + 1..];
    if tier.upTo.UpTo? {
      if i + 1 < |tiers| {
        assert rest[1] == tiers[i + 1];
        if tiers[i + 1].upTo == tier.upTo {
          FreeWalk(tiers, i + 1, prev, next, next - Max(prev, tier.upTo.gb));
          FreeAddsNothing(tiers[i + 1..], tier.upTo.gb, next);
          FreeAddsNothing(tiers[i + 1..], tier.upTo.gb, prev);
        } else {
          StrictNext(tiers, i);
          WalkIsRight(tiers, i + 1, prev, next);
        }
      }
    }
    if prev > start && !Past(prev, tier.upTo) {
      PriceAdds(Min(next, tier.upTo) - prev, prev - start, tier.perGB);
    }
  }

  // ----- a paid tier after the repetition does -----

  /** Tier i is the first to repeat the threshold before it, and something is paid
      from there to the first unlimited tier. */
  ghost predicate PaidRepeat(tiers: seq<Tier>, i: nat) {
    && 0 < i < |tiers| && tiers[i].upTo.UpTo? && tiers[i].upTo == tiers[i - 1].upTo
    && StrictBefore(tiers, i - 1) && !FreeToUnlimited(tiers[i..])
  }

  lemma {:induction false} FindRepeat(tiers: seq<Tier>, i: nat) returns (r: nat)
    requires Positive(tiers) && i < |tiers| && StrictBefore(tiers, i) && !FreeFromRepeat(tiers[i..])
    ensures PaidRepeat(tiers, r)
    decreases |tiers| - i
  {
    var rest := tiers[i..];
    assert rest[0] == tiers[i] && rest[1..] == tiers[i + 1..];
    assert i + 1 < |tiers| ==> rest[1] == tiers[i + 1];
    if RepeatsFirst(rest) {
      r := i + 1;
    } else {
      StrictNext(tiers, i);
      r := FindRepeat(tiers, i + 1);
    }
  }

  /** Tier n lies in the stretch from tier i to the first unlimited one. */
  predicate Within(tiers: seq<Tier>, i: nat, n: nat) {
    i <= n < |tiers| && forall j :: i <= j < n ==> tiers[j].upTo.UpTo?
  }

  lemma {:induction false} FindPaid(tiers: seq<Tier>, i: nat) returns (n: nat)
    requires i <= |tiers| && !FreeToUnlimited(tiers[i..])
    ensures Within(tiers, i, n) && tiers[n].perGB != 0.0
    decreases |tiers| - i
  {
    assert i < |tiers| ==> tiers[i..][0] == tiers[i] && tiers[i..][1..] == tiers[i + 1..];
    if tiers[i].perGB != 0.0 { n := i; } else { n := FindPaid(tiers, i + 1); }
  }

  /** The gigabytes the walk bills in tiers i to n - 1 once next is past them. */
  function FullParts(tiers: seq<Tier>, i: nat, n: nat, prev: real): real
    requires i <= n <= |tiers|
    decreases n - i
  {
    if i == n then 0.0 else FullPart(tiers, i, prev) + FullParts(tiers, i + 1, n, prev)
  }

  function FullPart(tiers: seq<Tier>, i: nat, prev: real): real
    requires i < |tiers|
  {
    if tiers[i].upTo.Unlimited? then 0.0 else Max(0.0, tiers[i].upTo.gb - Max(prev, ScanStart(tiers, i)))
  }

  /** They cover everything between prev and where tier n starts. */
  lemma {:induction false} FullPartsCover(tiers: seq<Tier>, i: nat, n: nat, prev: real)
    requires Positive(tiers) && i <= n <= |tiers| && (forall j :: i <= j < n ==> tiers[j].upTo.UpTo?)
    ensures FullParts(tiers, i, n, prev) >= Max(prev, StartOf(tiers, n)) - Max(prev, StartOf(tiers, i))
    decreases n - i
  {
    if i < n {
      assert i > 0 ==> AtLeast(tiers[i].upTo, tiers[i - 1].upTo);
      StartsBelow(tiers, i);
      FullPartsCover(tiers, i + 1, n, prev);
    }
  }

  /** One step of the walk past a tier that ends at or before next. */
  lemma FullStep(tiers: seq<Tier>, i: nat, prev: real, next: real, remaining: real)
    requires i < |tiers| && tiers[i].upTo.UpTo? && next >= tiers[i].upTo.gb && remaining > 0.0
    ensures Walk(tiers, i, prev, next, remaining) ==
            Price(FullPart(tiers, i, prev), tiers[i].perGB) +
            Walk(tiers, i + 1, prev, next, remaining - FullPart(tiers, i, prev))
  {
    assert Price(0.0, tiers[i].perGB) == 0.0;
  }

  /** The walk from tier i to x, with `left` gigabytes to bill beyond those past s. */
  function WalkTo(tiers: seq<Tier>, i: nat, prev: real, s: real, left: real, x: real): real {
    Walk(tiers, i, prev, x, x - s + left)
  }

  /** Where tier n starts, a walk with gigabytes billed in excess stops before it: for
      some way on its bill does not grow. */
  lemma {:induction false} WalkStalls(tiers: seq<Tier>, i: nat, n: nat, prev: real, s: real, left: real)
    returns (delta: real, bill: real)
    requires i <= n < |tiers| && left >= 0.0 && FullParts(tiers, i, n, prev) > left
    requires forall j :: i <= j < n ==> tiers[j].upTo.UpTo? && tiers[j].upTo.gb <= s
    ensures delta > 0.0
    ensures forall x: real :: s < x <= s + delta ==> WalkTo(tiers, i, prev, s, left, x) == bill
    decreases n - i
  {
    var part, perGB := FullPart(tiers, i, prev), tiers[i].perGB;
    if part <= left {
      var d, b := WalkStalls(tiers, i + 1, n, prev, s, left - part);
      delta, bill := d, Price(part, perGB) + b;
      forall x: real | s < x <= s + delta ensures WalkTo(tiers, i, prev, s, left, x) == bill {
        FullStep(tiers, i, prev, x, x - s + left);
        assert x - s + left - part == x - s + (left - part);
        assert WalkTo(tiers, i + 1, prev, s, left - part, x) == b;
      }
    } else {
      delta, bill := part - left, Price(part, perGB);
      forall x: real | s < x <= s + delta ensures WalkTo(tiers, i, prev, s, left, x) == bill {
        FullStep(tiers, i, prev, x, x - s + left);
      }
    }
  }

  /** Within tier n the integral grows by tier n's price. */
  lemma {:induction false} AboveGrows(tiers: seq<Tier>, i: nat, n: nat, x: real, y: real)
    requires Positive(tiers) && Within(tiers, i, n) && StartOf(tiers, n) < x <= y
    requires tiers[n].upTo.UpTo? ==> y <= tiers[n].upTo.gb
    ensures var start := StartOf(tiers, i);
            Above(tiers[i..], start, y) - Above(tiers[i..], start, x) == Price(y - x, tiers[n].perGB)
    decreases n - i
  {
    var rest := tiers[i..];
    assert rest[0] == tiers[i] && rest[1..] == tiers[i + 1..];
    if i < n {
      assert tiers[i].upTo.UpTo? && tiers[n - 1].upTo.UpTo?;
      if i < n - 1 { assert AtLeast(tiers[n - 1].upTo, tiers[i].upTo); }
      if i > 0 { assert AtLeast(tiers[i].upTo, tiers[i - 1].upTo); }
      AboveGrows(tiers, i + 1, n, x, y);
    } else {
      PriceAdds(x - StartOf(tiers, i), y - x, tiers[n].perGB);
    }
  }

  /** Up to tier i the integral is made of whole tiers. */
  lemma {:induction false} AboveFromTier(tiers: seq<Tier>, start: real, i: nat, x: real)
    requires i < |tiers| && (forall j :: 0 <= j <= i ==> tiers[j].upTo.UpTo?)
    requires forall j, k :: 0 <= j < k <= i ==> tiers[j].upTo.gb < tiers[k].upTo.gb
    requires tiers[0].upTo.gb > start && x >= tiers[i].upTo.gb
    ensures var b := tiers[i].upTo.gb;
            var a := if i == 0 then start else tiers[i - 1].upTo.gb;
            Above(tiers, start, x) - Above(tiers, start, a) == Price(b - a, tiers[i].perGB) + Above(tiers[i + 1..], b, x)
  {
    if i > 0 {
      var rest := tiers[1..];
      assert forall j :: 0 <= j < |rest| ==> rest[j] == tiers[j + 1];
      AboveFromTier(rest, tiers[0].upTo.gb, i - 1, x);
      assert rest[i..] == tiers[i + 1..];
    }
  }

  /** Tiers that end at or before prev are passed over. */
  lemma {:induction false} WalkSkips(tiers: seq<Tier>, i: nat, m: nat, prev: real, next: real, remaining: real)
    requires i <= m <= |tiers| && remaining > 0.0
    requires forall j :: i <= j < m ==> Past(prev, tiers[j].upTo)
    ensures Walk(tiers, i, prev, next, remaining) == Walk(tiers, m, prev, next, remaining)
    decreases m - i
  {
    if i < m { WalkSkips(tiers, i + 1, m, prev, next, remaining); }
  }

  /** What both sides make of the tiers before the repetition, on a stretch from where
      they start. */
  lemma UpToRepeat(tiers: seq<Tier>, i: nat, x: real)
    requires Positive(tiers) && PaidRepeat(tiers, i) && x > tiers[i].upTo.gb
    ensures var a, b := StartOf(tiers, i - 1), tiers[i].upTo.gb;
            && 0.0 <= a < b && ScanStart(tiers, i) == a
            && Cost(tiers, a, x) == Price(b - a, tiers[i - 1].perGB) + Walk(tiers, i, a, x, x - b)
            && Integral(tiers, x) - Integral(tiers, a) == Price(b - a, tiers[i - 1].perGB) + Above(tiers[i..], b, x)
  {
    var m := i - 1;
    var a, b := StartOf(tiers, m), tiers[i].upTo.gb;
    StrictStart(tiers, m);
    assert m > 0 ==> !AtLeast(tiers[m - 1].upTo, tiers[m].upTo);
    StartsBelow(tiers, m);
    forall j | 0 <= j < m ensures Past(a, tiers[j].upTo) {
      assert !AtLeast(tiers[j].upTo, tiers[m].upTo);
      if j < m - 1 { assert AtLeast(tiers[m - 1].upTo, tiers[j].upTo); }
    }
    WalkSkips(tiers, 0, m, a, x, x - a);
    FullStep(tiers, m, a, x, x - a);
    forall j, k | 0 <= j < k <= m ensures tiers[j].upTo.UpTo? && tiers[j].upTo.gb < tiers[k].upTo.gb {
      assert !AtLeast(tiers[j].upTo, tiers[k].upTo);
    }
    AboveFromTier(tiers, 0.0, m, x);
  }

  lemma SameStall(tiers: seq<Tier>, i: nat, a: real, b: real, s: real, near: real, far: real, bill: real)
    requires WalkTo(tiers, i, a, s, s - b, near) == bill == WalkTo(tiers, i, a, s, s - b, far)
    ensures Walk(tiers, i, a, near, near - b) == Walk(tiers, i, a, far, far - b)
  {
    assert near - b == near - s + (s - b) && far - b == far - s + (s - b);
  }

  /** Before tier n starts, the walk from the repetition could bill more than there is. */
  lemma BilledTwice(tiers: seq<Tier>, i: nat, n: nat)
    requires Positive(tiers) && PaidRepeat(tiers, i) && Within(tiers, i, n) && n > i
    ensures forall j :: i <= j < n ==> tiers[j].upTo.gb <= StartOf(tiers, n)
    ensures FullParts(tiers, i, n, StartOf(tiers, i - 1)) > StartOf(tiers, n) - tiers[i].upTo.gb
  {
    UpToRepeat(tiers, i, tiers[i].upTo.gb + 1.0);
    forall j | i <= j < n ensures tiers[j].upTo.gb <= StartOf(tiers, n) {
      if j < n - 1 { assert AtLeast(tiers[n - 1].upTo, tiers[j].upTo); }
    }
    FullPartsCover(tiers, i + 1, n, StartOf(tiers, i - 1));
  }

  /** Two points in tier n, up to which the walk from the repetition bills the same. */
  lemma StallInTier(tiers: seq<Tier>, i: nat, n: nat) returns (near: real, far: real)
    requires Positive(tiers) && PaidRepeat(tiers, i) && OpensPaid(tiers, i, n)
    ensures tiers[i].upTo.gb <= StartOf(tiers, n) < near < far && (tiers[n].upTo.UpTo? ==> far <= tiers[n].upTo.gb)
    ensures var a, b := StartOf(tiers, i - 1), tiers[i].upTo.gb;
            Walk(tiers, i, a, near, near - b) == Walk(tiers, i, a, far, far - b)
  {
    var a, b, s := StartOf(tiers, i - 1), tiers[i].upTo.gb, StartOf(tiers, n);
    BilledTwice(tiers, i, n);
    assert AtLeast(tiers[n].upTo, tiers[n - 1].upTo);
    var delta, bill := WalkStalls(tiers, i, n, a, s, s - b);
    far := Min(s + delta, tiers[n].upTo);
    near := (s + far) / 2.0;
    SameStall(tiers, i, a, b, s, near, far, bill);
  }

  /** A paid tier that opens a stretch of its own is reached too late. */
  lemma LateTierIsBilledWrongly(tiers: seq<Tier>, i: nat, n: nat) returns (prev: real, next: real)
    requires Positive(tiers) && PaidRepeat(tiers, i) && OpensPaid(tiers, i, n) && tiers[n].perGB > 0.0
    ensures 0.0 <= prev <= next && !RightOn(tiers, prev, next)
  {
    var near, far := StallInTier(tiers, i, n);
    UpToRepeat(tiers, i, near);
    UpToRepeat(tiers, i, far);
    AboveGrows(tiers, i, n, near, far);
    AtRepeat(tiers, i);
    PricePositive(far - near, tiers[n].perGB);
    prev := StartOf(tiers, i - 1);
    next := if RightOn(tiers, prev, near) then far else near;
  }

  lemma AtRepeat(tiers: seq<Tier>, i: nat)
    requires PaidRepeat(tiers, i)
    ensures StartOf(tiers, i) == tiers[i].upTo.gb
  {
  }

  lemma PricePositive(gb: real, perGB: real)
    requires gb > 0.0 && perGB > 0.0
    ensures Price(gb, perGB) > 0.0
  {
  }

  lemma {:induction false} WalkNeverPays(tiers: seq<Tier>, i: nat, prev: real, next: real, remaining: real)
    requires NeverPays(tiers)
    ensures Walk(tiers, i, prev, next, remaining) >= 0.0
    decreases |tiers| - i
  {
    if i < |tiers| && remaining > 0.0 {
      var part := PartIn(tiers, i, prev, next);
      WalkNeverPays(tiers, i + 1, prev, next, remaining);
      WalkNeverPays(tiers, i + 1, prev, next, remaining - part);
      if part > 0.0 { PriceNonNegative(part, tiers[i].perGB); }
    }
  }

  /** With enough left to bill the walk reaches tier n and bills it. */
  lemma {:induction false} WalkReaches(tiers: seq<Tier>, i: nat, n: nat, prev: real, next: real, remaining: real)
    requires NeverPays(tiers) && i <= n < |tiers| && remaining > FullParts(tiers, i, n, prev)
    requires forall j :: i <= j <= n ==> tiers[j].upTo.UpTo? && tiers[j].upTo.gb <= next
    ensures Walk(tiers, i, prev, next, remaining) >= Price(FullPart(tiers, n, prev), tiers[n].perGB)
    decreases n - i
  {
    FullPartsNonNegative(tiers, i, n, prev);
    FullStep(tiers, i, prev, next, remaining);
    if i < n {
      WalkReaches(tiers, i + 1, n, prev, next, remaining - FullPart(tiers, i, prev));
      PriceNonNegative(FullPart(tiers, i, prev), tiers[i].perGB);
    } else {
      WalkNeverPays(tiers, i + 1, prev, next, remaining - FullPart(tiers, i, prev));
    }
  }

  lemma {:induction false} FullPartsNonNegative(tiers: seq<Tier>, i: nat, n: nat, prev: real)
    requires i <= n <= |tiers|
    ensures FullParts(tiers, i, n, prev) >= 0.0
    decreases n - i
  {
    if i < n { FullPartsNonNegative(tiers, i + 1, n, prev); }
  }

  /** No tier after i, up to the first unlimited one, opens a paid stretch of its own. */
  ghost predicate OnlyCopiesPaid(tiers: seq<Tier>, i: nat) {
    forall n :: !OpensPaid(tiers, i, n)
  }

  predicate OpensPaid(tiers: seq<Tier>, i: nat, n: nat) {
    n > i && Within(tiers, i, n) && tiers[n].upTo != tiers[n - 1].upTo && tiers[n].perGB != 0.0
  }

  lemma {:induction false} CopiesAddNothing(tiers: seq<Tier>, i: nat, j: nat, x: real)
    requires Positive(tiers) && 0 < i <= j <= |tiers| && i < |tiers| && tiers[i].upTo == tiers[i - 1].upTo
    requires OnlyCopiesPaid(tiers, i)
    requires forall m :: i <= m < j ==> tiers[m].upTo.UpTo?
    requires tiers[j - 1].upTo.UpTo?
    ensures Above(tiers[j..], StartOf(tiers, j), x) == 0.0
    decreases |tiers| - j
  {
    if j < |tiers| {
      assert tiers[j..][0] == tiers[j] && tiers[j..][1..] == tiers[j + 1..];
      if tiers[j].upTo != tiers[j - 1].upTo { assert !OpensPaid(tiers, i, j); }
      assert Price(0.0, tiers[j].perGB) == 0.0;
      if tiers[j].upTo.UpTo? { CopiesAddNothing(tiers, i, j + 1, x); }
    }
  }

  /** A paid copy of a threshold is billed on a stretch the tier before it has billed. */
  lemma PaidCopyIsBilledWrongly(tiers: seq<Tier>, i: nat, n: nat) returns (prev: real, next: real)
    requires Positive(tiers) && NeverPays(tiers) && PaidRepeat(tiers, i) && OnlyCopiesPaid(tiers, i)
    requires Within(tiers, i, n) && tiers[n].upTo == tiers[n - 1].upTo && tiers[n].perGB > 0.0
    ensures 0.0 <= prev <= next && !RightOn(tiers, prev, next)
  {
    var a, b := StartOf(tiers, i - 1), tiers[i].upTo.gb;
    assert tiers[n].upTo.UpTo?;
    forall j | i <= j <= n ensures tiers[j].upTo.UpTo? && tiers[j].upTo.gb <= tiers[n].upTo.gb {
      if j < n { assert AtLeast(tiers[n].upTo, tiers[j].upTo); }
    }
    FullPartsNonNegative(tiers, i, n, a);
    var x := tiers[n].upTo.gb + FullParts(tiers, i, n, a) + 1.0;
    UpToRepeat(tiers, i, x);
    assert AtLeast(tiers[n].upTo, tiers[n - 1].upTo);
    StartsBelow(tiers, n);
    WalkReaches(tiers, i, n, a, x, x - b);
    PricePositive(FullPart(tiers, n, a), tiers[n].perGB);
    CopiesAddNothing(tiers, i, i, x);
    prev, next := a, x;
  }

  lemma PaidRepeatIsBilledWrongly(tiers: seq<Tier>, i: nat) returns (prev: real, next: real)
    requires Positive(tiers) && NeverPays(tiers) && PaidRepeat(tiers, i)
    ensures 0.0 <= prev <= next && !RightOn(tiers, prev, next)
  {
    if OnlyCopiesPaid(tiers, i) {
      var n := FindPaid(tiers, i);
      assert !OpensPaid(tiers, i, n);
      prev, next := PaidCopyIsBilledWrongly(tiers, i, n);
    } else {
      var n: nat :| OpensPaid(tiers, i, n);
      prev, next := LateTierIsBilledWrongly(tiers, i, n);
    }
  }

  // ----- tiers that end at zero -----

  /** A leading tier that ends at zero takes no part in the bill. */
  lemma {:induction false} EmptyTierScan(tiers: seq<Tier>, upTo: Bound, j: nat, start: real)
    requires tiers != [] && tiers[0].upTo == UpTo(0.0) && 0 < j <= |tiers|
    ensures StartFrom(tiers, upTo, j, start) == StartFrom(tiers[1..], upTo, j - 1, start)
    decreases |tiers| - j
  {
    if j < |tiers| && !AtLeast(tiers[j].upTo, upTo) { EmptyTierScan(tiers, upTo, j + 1, tiers[j].upTo.gb); }
  }

  lemma {:induction false} EmptyTierWalk(tiers: seq<Tier>, i: nat, prev: real, next: real, remaining: real)
    requires Sorted(tiers) && tiers != [] && tiers[0].upTo == UpTo(0.0) && 0 < i <= |tiers| && prev >= 0.0
    ensures Walk(tiers, i, prev, next, remaining) == Walk(tiers[1..], i - 1, prev, next, remaining)
    decreases |tiers| - i
  {
    if i < |tiers| && remaining > 0.0 {
      assert tiers[1..][i - 1] == tiers[i] && AtLeast(tiers[i].upTo, tiers[0].upTo);
      if !Past(prev, tiers[i].upTo) {
        EmptyTierScan(tiers, tiers[i].upTo, 1, 0.0);
        assert PartIn(tiers, i, prev, next) == PartIn(tiers[1..], i - 1, prev, next);
        EmptyTierWalk(tiers, i + 1, prev, next, remaining - PartIn(tiers, i, prev, next));
      }
      EmptyTierWalk(tiers, i + 1, prev, next, remaining);
    }
  }

  lemma EmptyTierIsIdle(tiers: seq<Tier>, prev: real, next: real)
    requires Sorted(tiers) && tiers != [] && tiers[0].upTo == UpTo(0.0) && 0.0 <= prev <= next
    ensures RightOn(tiers, prev, next) <==> RightOn(tiers[1..], prev, next)
  {
    EmptyTierWalk(tiers, 1, prev, next, next - prev);
    assert Price(0.0, tiers[0].perGB) == 0.0;
  }

  // ----- exactly which tables -----

  lemma NonZeroIsPositive(tiers: seq<Tier>)
    requires Sorted(tiers) && tiers != [] && tiers[0].upTo != UpTo(0.0)
    ensures Positive(tiers)
  {
    forall j | 0 <= j < |tiers| ensures tiers[j].upTo != UpTo(0.0) {
      if j > 0 { assert AtLeast(tiers[j].upTo, tiers[0].upTo); }
    }
  }

  /** A stretch that a sorted table is billed wrongly on, when something is paid after
      its first repeated threshold. */
  lemma {:induction false} RepeatIsBilledWrongly(tiers: seq<Tier>) returns (prev: real, next: real)
    requires Sorted(tiers) && NeverPays(tiers) && !FreeFromRepeat(tiers)
    ensures 0.0 <= prev <= next && !RightOn(tiers, prev, next)
  {
    if tiers[0].upTo == UpTo(0.0) {
      SortedTail(tiers);
      prev, next := RepeatIsBilledWrongly(tiers[1..]);
      EmptyTierIsIdle(tiers, prev, next);
    } else {
      NonZeroIsPositive(tiers);
      assert tiers[0..] == tiers;
      var i := FindRepeat(tiers, 0);
      prev, next := PaidRepeatIsBilledWrongly(tiers, i);
    }
  }

  lemma {:induction false} FreeRepeatIsRight(tiers: seq<Tier>, prev: real, next: real)
    requires Sorted(tiers) && FreeFromRepeat(tiers) && 0.0 <= prev <= next
    ensures RightOn(tiers, prev, next)
  {
    if tiers != [] {
      if tiers[0].upTo == UpTo(0.0) {
        SortedTail(tiers);
        FreeRepeatIsRight(tiers[1..], prev, next);
        EmptyTierIsIdle(tiers, prev, next);
      } else {
        NonZeroIsPositive(tiers);
        assert tiers[0..] == tiers;
        WalkIsRight(tiers, 0, prev, next);
      }
    }
  }

  /** A sorted table is billed correctly on every stretch exactly when nothing is paid
      from the first repetition of a positive threshold to the first unlimited tier. */
  lemma BilledCorrectlyIff(tiers: seq<Tier>)
    requires Sorted(tiers) && NeverPays(tiers)
    ensures BilledCorrectly(tiers) <==> FreeFromRepeat(tiers)
  {
    if FreeFromRepeat(tiers) {
      forall prev: real, next: real | 0.0 <= prev <= next ensures RightOn(tiers, prev, next) {
        FreeRepeatIsRight(tiers, prev, next);
      }
    } else {
      var prev, next := RepeatIsBilledWrongly(tiers);
    }
  }

  /** Two price-list items that carry the same table: the second free tier swallows
      the first paid gigabytes. */
  const DOUBLED := [Tier(UpTo(100.0), 0.0), Tier(UpTo(100.0), 0.0), Tier(UpTo(10240.0), 0.09),
                    Tier(UpTo(10240.0), 0.09), Tier(Unlimited, 0.05), Tier(Unlimited, 0.05)]

  lemma DoubledTableUndercharges()
    ensures Sorted(DOUBLED) && NeverPays(DOUBLED) && !FreeFromRepeat(DOUBLED)
    ensures Cost(DOUBLED, 0.0, 150.0) == 0.0 && Integral(DOUBLED, 150.0) - Integral(DOUBLED, 0.0) == 4.5
    ensures !BilledCorrectly(DOUBLED)
  {
    var rest := DOUBLED[1..];
    assert rest[1..][0] == Tier(UpTo(10240.0), 0.09) && !FreeToUnlimited(rest[1..]);
    assert Above(rest[1..], 100.0, 150.0) == 4.5;
    assert Above(rest, 100.0, 150.0) == 4.5;
    assert Walk(DOUBLED, 2, 0.0, 150.0, -50.0) == 0.0;
    assert !RightOn(DOUBLED, 0.0, 150.0);
  }

  /** Repeating only the unlimited tier does no harm. */
  lemma UnlimitedMayRepeat(gb: real, first: real, price: real, other: real)
    requires gb > 0.0 && first >= 0.0 && price >= 0.0 && other >= 0.0
    ensures var tiers := [Tier(UpTo(gb), first), Tier(Unlimited, price), Tier(Unlimited, other)];
            !Strict(tiers) && BilledCorrectly(tiers)
  {
    var tiers := [Tier(UpTo(gb), first), Tier(Unlimited, price), Tier(Unlimited, other)];
    var rest := tiers[1..];
    assert rest[0] == Tier(Unlimited, price);
    assert !StrictFrom(rest, gb) && FreeFromRepeat(rest);
    BilledCorrectlyIff(tiers);
  }

  // ----- the published tables -----

  /** Internet egress list prices; every other default rate is a single tier. */
  const AWS_EGRESS := [Tier(UpTo(100.0), 0.0), Tier(UpTo(10240.0), 0.09), Tier(UpTo(51200.0), 0.085),
                       Tier(UpTo(153600.0), 0.07), Tier(Unlimited, 0.05)]
  const GCP_EGRESS := [Tier(UpTo(1024.0), 0.12), Tier(UpTo(10240.0), 0.11), Tier(Unlimited, 0.08)]
  const AZURE_EGRESS := [Tier(UpTo(100.0), 0.0), Tier(UpTo(10240.0), 0.087), Tier(UpTo(51200.0), 0.083),
                         Tier(UpTo(153600.0), 0.07), Tier(Unlimited, 0.05)]

  /** The default tables are billed correctly, and the marginal rate of each covers
      its cumulative cost. */
  lemma DefaultTablesFit(tiers: seq<Tier>, prev: real, next: real)
    requires tiers in {AWS_EGRESS, GCP_EGRESS, AZURE_EGRESS} && 0.0 <= prev <= next
    ensures Strict(tiers)
    ensures Cost(tiers, prev, next) == Integral(tiers, next) - Integral(tiers, prev)
    ensures 0.0 <= Cost(tiers, prev, next) <= Price(next - prev, MarginalRate(tiers))
  {
    DefaultsStrict();
    CostIsIntegral(tiers, prev, next);
    CostIsMonotone(tiers, prev, next, next);
    MarginalRateCoversIff(tiers);
  }

  lemma DefaultsStrict()
    ensures Strict(AWS_EGRESS) && NeverPays(AWS_EGRESS) && NoneAbove(AWS_EGRESS, MarginalRate(AWS_EGRESS))
    ensures Strict(GCP_EGRESS) && NeverPays(GCP_EGRESS) && NoneAbove(GCP_EGRESS, MarginalRate(GCP_EGRESS))
    ensures Strict(AZURE_EGRESS) && NeverPays(AZURE_EGRESS) && NoneAbove(AZURE_EGRESS, MarginalRate(AZURE_EGRESS))
  {
  }

  /** What a gigabyte costs by default: the price after the free allowance. */
  lemma DefaultRates()
    ensures MarginalRate(AWS_EGRESS) == 0.09 && MarginalRate(GCP_EGRESS) == 0.12 && MarginalRate(AZURE_EGRESS) == 0.087
  {
    RateOfFirstPaid(AWS_EGRESS, 1);
    RateOfFirstPaid(GCP_EGRESS, 0);
    RateOfFirstPaid(AZURE_EGRESS, 1);
  }

  /** What 160 TB in a month come to, over every tier of the tables. */
  lemma DefaultBills()
    ensures Integral(AWS_EGRESS, 163600.0) == 12062.2 && Integral(AZURE_EGRESS, 163600.0) == 11949.86
    ensures Integral(GCP_EGRESS, 163600.0) == 13405.44
  {
    var aws, azure, gcp := AWS_EGRESS, AZURE_EGRESS, GCP_EGRESS;
    assert aws[1..][1..][1..][1..] == [Tier(Unlimited, 0.05)] == azure[1..][1..][1..][1..];
    assert Above(aws[1..][1..][1..], 51200.0, 163600.0) == 7668.0 == Above(azure[1..][1..][1..], 51200.0, 163600.0);
    assert Above(aws[1..][1..], 10240.0, 163600.0) == 11149.6;
    assert Above(azure[1..][1..], 10240.0, 163600.0) == 11067.68;
    assert Above(gcp[1..][1..], 10240.0, 163600.0) == 12268.8;
    assert Above(gcp[1..], 1024.0, 163600.0) == 13282.56;
  }
}
