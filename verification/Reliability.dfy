/** The reliability model: probability of surviving a round, mean time to failure, the tolerated
    threshold TRH* and the tardiness term, over exact reals. */
module Reliability {
  import opened RealSums
  import opened Expectation

  const TREFI_SECONDS: real := 0.0000039
  const SECONDS_PER_YEAR: real := 31536000.0

  datatype Policy = NoRfm | Rfm40 | Rfm16

  function RoundSeconds(policy: Policy): real {
    match policy
    case NoRfm => TREFI_SECONDS
    case Rfm40 => TREFI_SECONDS / 2.0
    case Rfm16 => TREFI_SECONDS / 5.0
  }

  /** The multiple of the target that the tables pass to get_trh_star under each policy. */
  function TargetScale(policy: Policy): real {
    match policy
    case NoRfm => 1.0
    case Rfm40 => 2.0
    case Rfm16 => 5.0
  }

  function ScaledTarget(policy: Policy, targetYears: real): (r: real)
    ensures 0.0 < targetYears ==> 0.0 < r
  {
    targetYears * TargetScale(policy)
  }

  /** A number of years in seconds. */
  function Seconds(years: real): (r: real)
    ensures 0.0 < years ==> 0.0 < r
  {
    years * SECONDS_PER_YEAR
  }

  function SurvivalRate(insProb: real, lossProb: real): real {
    1.0 - insProb * (1.0 - lossProb)
  }

  function PfailRound(th: nat, insProb: real, lossProb: real): real {
    Pow(SurvivalRate(insProb, lossProb), th)
  }

  /** Some insertion is effective, but not every activation inserts. */
  predicate Effective(insProb: real, lossProb: real) {
    0.0 < SurvivalRate(insProb, lossProb) < 1.0
  }

  /** Mean time to failure in years. */
  function Mttf(policy: Policy, th: nat, insProb: real, lossProb: real): real
    requires Effective(insProb, lossProb)
  {
    PowPos(SurvivalRate(insProb, lossProb), th);
    RoundSeconds(policy) / PfailRound(th, insProb, lossProb) / SECONDS_PER_YEAR
  }

  // ----- what the survival power is the weight of

  /** An activation inserts nothing, inserts an entry that is lost, or inserts one that is mitigated. */
  function Fates(insProb: real, lossProb: real): seq<real> {
    [1.0 - insProb, insProb * lossProb, insProb * (1.0 - lossProb)]
  }

  lemma FatesAreDistribution(insProb: real, lossProb: real)
    requires 0.0 <= insProb <= 1.0 && 0.0 <= lossProb <= 1.0
    ensures Distribution(Fates(insProb, lossProb))
  {
    var p := Fates(insProb, lossProb);
    ProductNonNeg(insProb, lossProb);
    ProductNonNeg(insProb, 1.0 - lossProb);
    ThreeTerms(Weights(p));
  }

  /** Does no insertion reach a mitigation? */
  function NoneMitigated(): seq<nat> -> real {
    (fates: seq<nat>) => if 2 in fates then 0.0 else 1.0
  }

  lemma ThreeTerms(f: nat -> real)
    ensures Sum(3, f) == f(0) + f(1) + f(2)
  {
    SumStep(0, f);
    SumStep(1, f);
    SumStep(2, f);
  }

  /** get_pfail_round is the weight of the strings of th activations in which no insertion is mitigated. */
  lemma {:induction false} PfailIsWeight(th: nat, insProb: real, lossProb: real)
    ensures PfailRound(th, insProb, lossProb) == Expect(Fates(insProb, lossProb), th, NoneMitigated())
  {
    hide Sum;
    var p, f := Fates(insProb, lossProb), NoneMitigated();
    if th != 0 {
      PfailIsWeight(th - 1, insProb, lossProb);
      var e := Expect(p, th - 1, f);
      ThreeTerms(FirstDraw(p, th - 1, f));
      ExpectCong(p, th - 1, Prefix(f, 0), f);
      ExpectCong(p, th - 1, Prefix(f, 1), f);
      NeverNone(p, th - 1, Prefix(f, 2));
      FateProducts(insProb, lossProb, e);
    }
  }

  lemma {:induction false} NeverNone(p: seq<real>, m: nat, f: seq<nat> -> real)
    requires forall ks: seq<nat> :: f(ks) == 0.0
    ensures Expect(p, m, f) == 0.0
    decreases m
  {
    hide Sum;
    if m != 0 {
      var first := FirstDraw(p, m - 1, f);
      forall k: nat | k < |p| ensures first(k) == 0.0 { NeverNone(p, m - 1, Prefix(f, k)); }
      SumZero(|p|, first);
    }
  }

  lemma FateProducts(q: real, l: real, e: real)
    ensures (1.0 - q) * e + q * l * e == (1.0 - q * (1.0 - l)) * e
  {}

  lemma {:induction false} PowStrict(y: real, z: real, n: nat)
    requires 0.0 < y < z && 0 < n
    ensures Pow(y, n) < Pow(z, n)
  {
    PowPos(y, n - 1);
    if n == 1 {
      assert Pow(y, 0) == Pow(z, 0) == 1.0;
    } else {
      PowStrict(y, z, n - 1);
      ProductPositive(z - y, Pow(y, n - 1));
      ProductPositive(z, Pow(z, n - 1) - Pow(y, n - 1));
    }
  }

  /** The time to failure in seconds, times that weight, is one round of the policy. */
  lemma MttfIsRounds(policy: Policy, th: nat, insProb: real, lossProb: real)
    requires Effective(insProb, lossProb)
    ensures Mttf(policy, th, insProb, lossProb) * 31536000.0 * Expect(Fates(insProb, lossProb), th, NoneMitigated())
         == match policy case NoRfm => 0.0000039 case Rfm40 => 0.00000195 case Rfm16 => 0.00000078
  {
    hide Expect, Pow;
    PfailIsWeight(th, insProb, lossProb);
    PowPos(SurvivalRate(insProb, lossProb), th);
    Quotients(RoundSeconds(policy), PfailRound(th, insProb, lossProb), 31536000.0);
  }

  lemma Quotients(r: real, p: real, s: real)
    requires 0.0 < p && 0.0 < s
    ensures r / p / s * s * p == r
  {
    var m := r / p;
    assert m * p == r && m / s * s == m;
  }

  /** Losing more entries makes failure strictly likelier in every round of one activation or more, and the time
      to failure strictly shorter. */
  lemma MoreLossFailsSooner(policy: Policy, th: nat, insProb: real, loss1: real, loss2: real)
    requires Effective(insProb, loss1) && Effective(insProb, loss2) && 0.0 < insProb && loss1 < loss2 && 0 < th
    ensures PfailRound(th, insProb, loss1) < PfailRound(th, insProb, loss2)
    ensures Mttf(policy, th, insProb, loss2) < Mttf(policy, th, insProb, loss1)
  {
    hide Expect, Pow, SurvivalRate;
    var y1, y2 := SurvivalRate(insProb, loss1), SurvivalRate(insProb, loss2);
    EffectiveRate(insProb, loss1);
    RateGrows(insProb, loss1, loss2);
    PowStrict(y1, y2, th);
    PowPos(y1, th);
    SmallerQuotient(RoundSeconds(policy), Pow(y1, th), Pow(y2, th), SECONDS_PER_YEAR);
  }

  lemma RateGrows(insProb: real, loss1: real, loss2: real)
    requires 0.0 < insProb && loss1 < loss2
    ensures SurvivalRate(insProb, loss1) < SurvivalRate(insProb, loss2)
  {
    ProductPositive(insProb, loss2 - loss1);
    assert insProb * (loss2 - loss1) == insProb * loss2 - insProb * loss1;
  }

  lemma SmallerQuotient(r: real, p: real, q: real, s: real)
    requires 0.0 < r && 0.0 < p < q && 0.0 < s
    ensures r / q / s < r / p / s
  {
    var a, b := r / p, r / q;
    assert a * p == r && b * q == r;
    if b <= 0.0 { ProductNonNeg(-b, q); }
    if a <= b {
      ProductPositive(b, q - p);
      ProductNonNeg(b - a, p);
    }
    SmallerShare(b, a, s);
  }

  lemma SmallerShare(x: real, y: real, s: real)
    requires 0.0 < s && x < y
    ensures x / s < y / s
  {
    var d := y / s - x / s;
    assert y / s * s == y && x / s * s == x;
    if d <= 0.0 { ProductNonNeg(-d, s); }
  }

  // ----- TRH*

  /** t is the integer part of log(x) / log(y), stated without logarithms. */
  ghost predicate FloorLog(y: real, x: real, t: nat) {
    Pow(y, t + 1) < x <= Pow(y, t)
  }

  lemma {:induction false} BernoulliInequality(y: real, n: nat)
    requires 0.0 < y < 1.0
    ensures Pow(y, n) * (1.0 + n as real * (1.0 - y)) <= 1.0
  {
    if n != 0 {
      BernoulliInequality(y, n - 1);
      PowPos(y, n - 1);
      BernoulliStep(y, 1.0 - y, Pow(y, n - 1), (n - 1) as real);
    }
  }

  lemma BernoulliStep(y: real, e: real, p: real, k: real)
    requires 0.0 < e && y == 1.0 - e && 0.0 < p && 0.0 <= k
    requires p * (1.0 + k * e) <= 1.0
    ensures y * p * (1.0 + (k + 1.0) * e) <= 1.0
  {
    var c := (k + 1.0) * e * e;
    ProductNonNeg(k + 1.0, e);
    ProductNonNeg((k + 1.0) * e, e);
    assert 0.0 <= c;
    assert y * (1.0 + (k + 1.0) * e) == 1.0 + k * e - c;
    assert y * p * (1.0 + (k + 1.0) * e) == p * (y * (1.0 + (k + 1.0) * e)) == p * (1.0 + k * e) - p * c;
    ProductNonNeg(p, c);
  }

  /** Powers of a number below one get arbitrarily small. */
  lemma SmallPower(y: real, x: real) returns (n: nat)
    requires 0.0 < y < 1.0 && 0.0 < x
    ensures Pow(y, n) < x
  {
    var e := 1.0 - y;
    ProductPositive(x, e);
    var b := 1.0 / (x * e);
    assert 0.0 < b && b * (x * e) == 1.0;
    n := b.Floor + 1;
    BernoulliInequality(y, n);
    PowPos(y, n);
    Smaller(Pow(y, n), x, n as real, e, b);
  }

  lemma Smaller(p: real, x: real, n: real, e: real, b: real)
    requires 0.0 < p && 0.0 < x && 0.0 < e && b < n && b * (x * e) == 1.0
    requires p * (1.0 + n * e) <= 1.0
    ensures p < x
  {
    ProductPositive(x, e);
    ProductPositive(n - b, x * e);
    assert 0.0 < (n - b) * (x * e) == n * (x * e) - 1.0;
    var z := n * e;
    assert n * (x * e) == x * z;
    assert p * (1.0 + z) == p + p * z;
    assert 0.0 < (x - p) * z == x * z - p * z;
    assert 0.0 < z;
  }

  lemma {:induction false} FloorLogBelow(y: real, x: real, n: nat) returns (t: nat)
    requires 0.0 < y < 1.0 && 0.0 < x <= 1.0 && Pow(y, n) < x
    ensures FloorLog(y, x, t)
    decreases n
  {
    if x <= Pow(y, n - 1) { t := n - 1; } else { t := FloorLogBelow(y, x, n - 1); }
  }

  lemma FloorLogExists(y: real, x: real)
    requires 0.0 < y < 1.0 && 0.0 < x <= 1.0
    ensures exists t: nat :: FloorLog(y, x, t)
  {
    var n := SmallPower(y, x);
    var t := FloorLogBelow(y, x, n);
  }

  lemma {:induction false} PowDecreases(y: real, m: nat, n: nat)
    requires 0.0 < y <= 1.0 && m <= n
    ensures Pow(y, n) <= Pow(y, m)
    decreases n
  {
    if m < n {
      PowDecreases(y, m, n - 1);
      PowPos(y, n - 1);
      assert (1.0 - y) * Pow(y, n - 1) >= 0.0;
    }
  }

  lemma {:induction false} PowGrowsWithBase(y: real, z: real, n: nat)
    requires 0.0 < y <= z
    ensures Pow(y, n) <= Pow(z, n)
  {
    if n != 0 {
      PowGrowsWithBase(y, z, n - 1);
      PowPos(y, n - 1);
      MulMono(y, z, Pow(y, n - 1), Pow(z, n - 1));
    }
  }

  lemma MulMono(a: real, b: real, c: real, d: real)
    requires 0.0 < a <= b && 0.0 < c <= d
    ensures a * c <= b * d
  {
    ProductMono(a, b, d);
    ProductMono(c, d, a);
  }

  /** A power reaches x exactly up to the floor of the logarithm. */
  lemma FloorLogCharacterised(y: real, x: real, t: nat, n: nat)
    requires 0.0 < y < 1.0 && FloorLog(y, x, t)
    ensures x <= Pow(y, n) <==> n <= t
  {
    if n <= t { PowDecreases(y, n, t); } else { PowDecreases(y, t + 1, n); }
  }

  /** The ratio of one round to the target time, as get_trh_star writes it. */
  function RoundByTarget(targetYears: real): real
    requires 0.0 < targetYears
  {
    3.9 / (targetYears * 365.0 * 24.0 * 3600.0 * 1000000.0)
  }

  lemma RoundByTargetPositive(targetYears: real)
    requires 0.0 < targetYears
    ensures 0.0 < RoundByTarget(targetYears)
    ensures RoundByTarget(targetYears) * (Seconds(targetYears)) == TREFI_SECONDS
  {
    var d := targetYears * 365.0 * 24.0 * 3600.0 * 1000000.0;
    assert d == Seconds(targetYears) * 1000000.0;
    assert RoundByTarget(targetYears) * d == 3.9;
  }

  /** get_trh_star: the quotient of logarithms, truncated. */
  ghost function TrhStar(insProb: real, lossProb: real, targetYears: real): (t: nat)
    requires Effective(insProb, lossProb) && 0.0 < targetYears && RoundByTarget(targetYears) <= 1.0
    ensures FloorLog(SurvivalRate(insProb, lossProb), RoundByTarget(targetYears), t)
  {
    RoundByTargetPositive(targetYears);
    FloorLogExists(SurvivalRate(insProb, lossProb), RoundByTarget(targetYears));
    var t: nat :| FloorLog(SurvivalRate(insProb, lossProb), RoundByTarget(targetYears), t);
    t
  }

  lemma QuotientCompare(r: real, p: real, s: real, target: real)
    requires 0.0 < p && 0.0 < s
    ensures r / p / s <= target <==> r <= target * s * p
  {
    var m := r / p / s;
    assert m * s * p == r;
    if m <= target {
      ProductPositive(s, p);
      ProductNonNeg(target - m, s * p);
    } else {
      ProductPositive(s, p);
      ProductPositive(m - target, s * p);
    }
  }

  lemma ScaleCompare(x: real, p: real, k: real)
    requires 0.0 < k
    ensures x * k <= p * k <==> x <= p
  {
    if x <= p {
      ProductNonNeg(p - x, k);
    } else {
      ProductPositive(x - p, k);
    }
  }

  lemma ScaledRound(policy: Policy, targetYears: real)
    requires 0.0 < targetYears
    ensures RoundByTarget(ScaledTarget(policy, targetYears)) * Seconds(targetYears) == RoundSeconds(policy)
  {
    var k := TargetScale(policy);
    var x := RoundByTarget(ScaledTarget(policy, targetYears));
    RoundByTargetPositive(ScaledTarget(policy, targetYears));
    assert Seconds(ScaledTarget(policy, targetYears)) == Seconds(targetYears) * k;
    Reassociate(x, Seconds(targetYears), k);
  }

  lemma Reassociate(x: real, s: real, k: real)
    ensures x * (s * k) == x * s * k
  {}

  /** TRH* is the exact threshold of the time-to-failure formula: with the target scaled as in the
      tables, a threshold fails the target if and only if it does not exceed TRH*.  The shorter
      rounds of RFM-40 and RFM-16 and the doubled and five-fold targets cancel. */
  lemma TrhStarIsThreshold(policy: Policy, th: nat, insProb: real, lossProb: real, targetYears: real)
    requires Effective(insProb, lossProb) && 0.0 < targetYears
    requires RoundByTarget(ScaledTarget(policy, targetYears)) <= 1.0
    ensures Mttf(policy, th, insProb, lossProb) <= targetYears
            <==> th <= TrhStar(insProb, lossProb, ScaledTarget(policy, targetYears))
  {
    hide Pow, FloorLog, SurvivalRate, RoundByTarget, ScaledTarget, Seconds, RoundSeconds, Mttf;
    var goal := ScaledTarget(policy, targetYears);
    var y, x, seconds := SurvivalRate(insProb, lossProb), RoundByTarget(goal), Seconds(targetYears);
    EffectiveRate(insProb, lossProb);
    ScaledRound(policy, targetYears);
    MttfCompare(policy, th, insProb, lossProb, targetYears);
    ScaleCompare(x, Pow(y, th), seconds);
    FloorLogCharacterised(y, x, TrhStar(insProb, lossProb, goal), th);
  }

  lemma EffectiveRate(insProb: real, lossProb: real)
    requires Effective(insProb, lossProb)
    ensures 0.0 < SurvivalRate(insProb, lossProb) < 1.0
    ensures SurvivalRate(insProb, lossProb) == 1.0 - Kept(insProb, lossProb)
  {}

  /** The probability of an insertion that is not lost. */
  function Kept(insProb: real, lossProb: real): real {
    insProb * (1.0 - lossProb)
  }

  lemma MttfCompare(policy: Policy, th: nat, insProb: real, lossProb: real, targetYears: real)
    requires Effective(insProb, lossProb)
    ensures Mttf(policy, th, insProb, lossProb) <= targetYears
            <==> RoundSeconds(policy) <= Pow(SurvivalRate(insProb, lossProb), th) * (Seconds(targetYears))
  {
    var p := PfailRound(th, insProb, lossProb);
    PowPos(SurvivalRate(insProb, lossProb), th);
    QuotientCompare(RoundSeconds(policy), p, SECONDS_PER_YEAR, targetYears);
  }

  /** No other number has the threshold property at its own place. */
  lemma {:induction false} TrhStarUnique(t: nat, insProb: real, lossProb: real, targetYears: real)
    requires Effective(insProb, lossProb) && 0.0 < targetYears && RoundByTarget(targetYears) <= 1.0
    ensures Mttf(NoRfm, t, insProb, lossProb) <= targetYears < Mttf(NoRfm, t + 1, insProb, lossProb)
            <==> t == TrhStar(insProb, lossProb, targetYears)
  {
    assert ScaledTarget(NoRfm, targetYears) == targetYears;
    TrhStarIsThreshold(NoRfm, t, insProb, lossProb, targetYears);
    TrhStarIsThreshold(NoRfm, t + 1, insProb, lossProb, targetYears);
  }

  /** Losing more entries, or asking for a longer life, never lowers TRH*. */
  lemma TrhStarMonotone(insProb: real, loss1: real, loss2: real, target1: real, target2: real)
    requires Effective(insProb, loss1) && Effective(insProb, loss2) && 0.0 < insProb
    requires loss1 <= loss2 && 0.0 < target1 <= target2
    requires RoundByTarget(target1) <= 1.0 && RoundByTarget(target2) <= 1.0
    ensures TrhStar(insProb, loss1, target1) <= TrhStar(insProb, loss2, target2)
  {
    var y1, y2 := SurvivalRate(insProb, loss1), SurvivalRate(insProb, loss2);
    var x1, x2 := RoundByTarget(target1), RoundByTarget(target2);
    var t1 := TrhStar(insProb, loss1, target1);
    ProductMono(1.0 - loss2, 1.0 - loss1, insProb);
    assert y1 <= y2;
    assert x2 <= x1 by { RoundShrinks(target1, target2); }
    PowGrowsWithBase(y1, y2, t1);
    FloorLogCharacterised(y2, x2, TrhStar(insProb, loss2, target2), t1);
  }

  lemma RoundShrinks(target1: real, target2: real)
    requires 0.0 < target1 <= target2
    ensures RoundByTarget(target2) <= RoundByTarget(target1)
  {
    RoundByTargetPositive(target1);
    RoundByTargetPositive(target2);
    var a, b := RoundByTarget(target1), RoundByTarget(target2);
    var s1, s2 := target1 * SECONDS_PER_YEAR, target2 * SECONDS_PER_YEAR;
    Shrink(a, b, s1, s2);
  }

  lemma Shrink(a: real, b: real, s1: real, s2: real)
    requires 0.0 < b && 0.0 < s1 <= s2 && a * s1 == b * s2
    ensures b <= a
  {
    ProductNonNeg(b, s2 - s1);
    assert 0.0 <= b * (s2 - s1) == (a - b) * s1;
    if a < b { ProductPositive(b - a, s1); }
  }

  /** TRH* by the weight itself: a threshold is at most TRH* if and only if in the target time the rounds are
      expected to see a failure. */
  lemma TrhStarByWeight(th: nat, insProb: real, lossProb: real, targetYears: real)
    requires Effective(insProb, lossProb) && 0.0 < targetYears && RoundByTarget(targetYears) <= 1.0
    ensures th <= TrhStar(insProb, lossProb, targetYears)
       <==> 0.0000039 <= Expect(Fates(insProb, lossProb), th, NoneMitigated()) * (targetYears * 31536000.0)
  {
    hide Expect, Pow, FloorLog, RoundByTarget, Mttf;
    PfailIsWeight(th, insProb, lossProb);
    MttfCompare(NoRfm, th, insProb, lossProb, targetYears);
    ScaledNoRfm(targetYears);
    TrhStarIsThreshold(NoRfm, th, insProb, lossProb, targetYears);
  }

  lemma ScaledNoRfm(targetYears: real)
    ensures ScaledTarget(NoRfm, targetYears) == targetYears
  {}

  lemma {:induction false} PowAtLeast(y: real, e: real, n: nat)
    requires 0.0 < y < 1.0 && e == 1.0 - y
    ensures 1.0 - n as real * e <= Pow(y, n) <= 1.0
  {
    if n != 0 {
      PowAtLeast(y, e, n - 1);
      PowPos(y, n - 1);
      ProductMono(Pow(y, n - 1), 1.0, e);
      OneLess(y, e, Pow(y, n - 1));
      assert n as real * e == (n - 1) as real * e + e;
    }
  }

  lemma OneLess(y: real, e: real, x: real)
    requires e == 1.0 - y
    ensures y * x == x - x * e
  {}

  /** TRH* is inversely proportional to the probability of an insertion that is not lost, up to bounds that
      depend on the target alone. */
  lemma TrhStarBounds(insProb: real, lossProb: real, targetYears: real)
    requires Effective(insProb, lossProb) && 0.0 < targetYears && RoundByTarget(targetYears) <= 1.0
    ensures var t, x, kept := TrhStar(insProb, lossProb, targetYears), RoundByTarget(targetYears), Kept(insProb, lossProb);
            1.0 - x < (t + 1) as real * kept && x * (1.0 + t as real * kept) <= 1.0
  {
    hide Pow, RoundByTarget, Kept, SurvivalRate;
    var t, x, y := TrhStar(insProb, lossProb, targetYears), RoundByTarget(targetYears), SurvivalRate(insProb, lossProb);
    var kept := Kept(insProb, lossProb);
    EffectiveRate(insProb, lossProb);
    PowAtLeast(y, kept, t + 1);
    BernoulliInequality(y, t);
    var z := t as real * kept;
    assert kept == 1.0 - y;
    ProductNonNeg(t as real, kept);
    ProductMono(x, Pow(y, t), 1.0 + z);
  }

  lemma {:induction false} PowMany(b: real, k: nat, t: nat)
    ensures Pow(b, k * t) == Pow(Pow(b, k), t)
  {
    if t != 0 {
      PowMany(b, k, t - 1);
      assert k * t == k + k * (t - 1);
      PowAdd(b, k, k * (t - 1));
    } else {
      assert k * t == 0;
    }
  }

  /** Where at most the k-th part of the insertions that count is left, TRH* is at least k times as large. */
  lemma TrhStarScales(insProb: real, loss1: real, loss2: real, targetYears: real, k: nat)
    requires Effective(insProb, loss1) && Effective(insProb, loss2) && 0.0 < targetYears
    requires RoundByTarget(targetYears) <= 1.0
    requires k as real * Kept(insProb, loss2) <= Kept(insProb, loss1)
    ensures k * TrhStar(insProb, loss1, targetYears) <= TrhStar(insProb, loss2, targetYears)
  {
    hide Pow, RoundByTarget, SurvivalRate, FloorLog, Kept;
    var y1, y2, x := SurvivalRate(insProb, loss1), SurvivalRate(insProb, loss2), RoundByTarget(targetYears);
    var t1 := TrhStar(insProb, loss1, targetYears);
    EffectiveRate(insProb, loss1);
    EffectiveRate(insProb, loss2);
    RateScales(insProb, loss1, loss2, k);
    PowGrowsWithBase(y1, Pow(y2, k), t1);
    PowMany(y2, k, t1);
    FloorLogCharacterised(y1, x, t1, t1);
    FloorLogCharacterised(y2, x, TrhStar(insProb, loss2, targetYears), k * t1);
  }

  lemma RateScales(insProb: real, loss1: real, loss2: real, k: nat)
    requires Effective(insProb, loss1) && Effective(insProb, loss2)
    requires k as real * Kept(insProb, loss2) <= Kept(insProb, loss1)
    ensures SurvivalRate(insProb, loss1) <= Pow(SurvivalRate(insProb, loss2), k)
  {
    hide Pow, Kept, SurvivalRate;
    EffectiveRate(insProb, loss1);
    EffectiveRate(insProb, loss2);
    PowAtLeast(SurvivalRate(insProb, loss2), Kept(insProb, loss2), k);
  }

  // ----- tardiness

  /** get_tardy in its 32-bit unsigned arithmetic. */
  function GetTardy(openPage: bool, bufSize: nat, windowSize: nat): nat {
    var waits := (bufSize * windowSize + 0x1_0000_0000 - 1) % 0x1_0000_0000;
    if openPage then waits / 2 else waits
  }

  /** The tardiness of the two page policies, as long as the product fits; none at all wraps around. */
  lemma TardyNoWrap(bufSize: nat, windowSize: nat)
    requires bufSize * windowSize <= 0x1_0000_0000
    ensures GetTardy(false, bufSize, windowSize)
         == if bufSize * windowSize == 0 then 4294967295 else bufSize * windowSize - 1
    ensures GetTardy(true, bufSize, windowSize)
         == if bufSize * windowSize == 0 then 2147483647 else (bufSize * windowSize - 1) / 2
  {
    var p := bufSize * windowSize;
    if p != 0 { assert (p + 0x1_0000_0000 - 1) % 0x1_0000_0000 == p - 1; }
  }

  /** The difference that Table IX counts: what is left of both sides' activations, or the wrapped number. */
  lemma CountedIs(trhd: nat, tardy: nat)
    requires trhd * 2 < 0x1_0000_0000 && tardy < 0x1_0000_0000
    ensures Counted(trhd, tardy) == if tardy <= trhd * 2 then trhd * 2 - tardy else trhd * 2 + 4294967296 - tardy
  {}

  /** The banks that can be in use together share the time. */
  lemma SystemIsShared(policy: Policy, th: nat, insProb: real, lossProb: real)
    requires Effective(insProb, lossProb)
    ensures SystemMttf(policy, th, insProb, lossProb) * 22.0 == Mttf(policy, th, insProb, lossProb)
  {
    hide Mttf;
  }

  /** The printed single-sided threshold of a policy. */
  ghost function TrhSingle(policy: Policy, openPage: bool, bufSize: nat, windowSize: nat, insProb: real, lossProb: real,
                           targetYears: real): nat
    requires Effective(insProb, lossProb) && 0.0 < targetYears
    requires RoundByTarget(ScaledTarget(policy, targetYears)) <= 1.0
  {
    TrhStar(insProb, lossProb, ScaledTarget(policy, targetYears)) + GetTardy(openPage, bufSize, windowSize)
  }

  const TFAW_BANKS: real := 22.0

  /** The time to failure of the banks that can be in use together, in years. */
  function SystemMttf(policy: Policy, th: nat, insProb: real, lossProb: real): real
    requires Effective(insProb, lossProb)
  {
    Mttf(policy, th, insProb, lossProb) / TFAW_BANKS
  }

  /** The activations that count against a double-sided threshold, in the program's unsigned arithmetic. */
  function Counted(trhd: nat, tardy: nat): nat {
    (trhd * 2 - tardy) % 0x1_0000_0000
  }

  /** Whatever the difference, the tables agree if and only if it does not wrap around to a number above
      TRH*, which would look safe. */
  lemma TablesAgreeExactly(policy: Policy, trhd: nat, openPage: bool, bufSize: nat, windowSize: nat, insProb: real,
                    lossProb: real, targetYears: real)
    requires Effective(insProb, lossProb) && 0.0 < targetYears && trhd * 2 < 0x1_0000_0000
    requires RoundByTarget(ScaledTarget(policy, targetYears)) <= 1.0
    ensures var tardy := GetTardy(openPage, bufSize, windowSize);
            var misses := SystemMttf(policy, Counted(trhd, tardy), insProb, lossProb) <= targetYears / TFAW_BANKS;
            var printed := trhd <= TrhSingle(policy, openPage, bufSize, windowSize, insProb, lossProb, targetYears) / 2;
            (misses <==> printed)
            <==> tardy <= trhd * 2
                 || Counted(trhd, tardy) <= TrhStar(insProb, lossProb, ScaledTarget(policy, targetYears))
  {
    hide Mttf, RoundByTarget, ScaledTarget, GetTardy, FloorLog, Effective;
    var tardy := GetTardy(openPage, bufSize, windowSize);
    var th := Counted(trhd, tardy);
    TrhStarIsThreshold(policy, th, insProb, lossProb, targetYears);
    SharedOut(Mttf(policy, th, insProb, lossProb), targetYears);
    if tardy <= trhd * 2 { assert th == trhd * 2 - tardy; }
  }

  /** Tables VI and IX agree on a double-sided threshold, one by its time to failure, the other by half the
      printed single-sided threshold, whenever the tardiness is at most twice the threshold. */
  lemma TablesAgree(policy: Policy, trhd: nat, openPage: bool, bufSize: nat, windowSize: nat, insProb: real,
                    lossProb: real, targetYears: real)
    requires Effective(insProb, lossProb) && 0.0 < targetYears && trhd * 2 < 0x1_0000_0000
    requires RoundByTarget(ScaledTarget(policy, targetYears)) <= 1.0
    requires GetTardy(openPage, bufSize, windowSize) <= trhd * 2
    ensures SystemMttf(policy, trhd * 2 - GetTardy(openPage, bufSize, windowSize), insProb, lossProb) <= targetYears / TFAW_BANKS
            <==> trhd <= TrhSingle(policy, openPage, bufSize, windowSize, insProb, lossProb, targetYears) / 2
  {
    hide Mttf, RoundByTarget, ScaledTarget, FloorLog, Effective, SystemMttf, TrhSingle;
    assert Counted(trhd, GetTardy(openPage, bufSize, windowSize)) == trhd * 2 - GetTardy(openPage, bufSize, windowSize);
    TablesAgreeExactly(policy, trhd, openPage, bufSize, windowSize, insProb, lossProb, targetYears);
  }

  /** The rows that the program prints are all of this kind, for the buffer of either page policy. */
  lemma PrintedRows(trhd: nat, openPage: bool, windowSize: nat)
    requires 200 <= trhd && windowSize in {79, 40, 16}
    ensures GetTardy(openPage, if openPage then 6 else 4, windowSize) <= trhd * 2
  {
    var bufSize := if openPage then 6 else 4;
    assert 0 < bufSize * windowSize <= 474;
    assert !openPage ==> bufSize * windowSize <= 316;
    assert (bufSize * windowSize + 0x1_0000_0000 - 1) % 0x1_0000_0000 == bufSize * windowSize - 1;
  }

  lemma SharedOut(x: real, y: real)
    ensures x / TFAW_BANKS <= y / TFAW_BANKS <==> x <= y
  {}
}
