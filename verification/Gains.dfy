/** An entry behind one free place is saved more often the further back it stands, from the second place
    on, when the windows insert about one entry each. */
module Gains {
  import opened RealSums
  import opened Expectation
  import opened Binomial
  import opened LossModel
  import opened Survival

  /** The weights of the insertion count are like those of w activations with probability 1 / w, for w of
      sixteen or more. */
  ghost predicate Balanced(p: seq<real>) {
    && Distribution(p)
    && 0.0 < At(p, 0) <= At(p, 1) && 15.0 * At(p, 1) <= 16.0 * At(p, 0)
    && 2.0 * At(p, 2) == At(p, 1)
    && 14.0 * At(p, 1) <= 90.0 * At(p, 3) && 13.0 * At(p, 3) <= 60.0 * At(p, 4) && 12.0 * At(p, 4) <= 75.0 * At(p, 5)
    && Shrinking(p)
  }

  ghost predicate Shrinking(p: seq<real>) {
    forall k: nat :: 1 <= k ==> (k + 1) as real * At(p, k + 1) <= At(p, k)
  }

  lemma NoTailBeyond(p: seq<real>, k: nat)
    requires |p| <= k
    ensures Tail(p, k) == 0.0
  {
    SumZero(|p|, TailTerms(p, k));
  }

  lemma TailNotNegative(p: seq<real>, k: nat)
    requires Distribution(p)
    ensures 0.0 <= Tail(p, k)
  {
    SumNonNeg(|p|, TailTerms(p, k));
  }

  lemma {:induction false} TailsShrink(p: seq<real>, k: nat)
    requires Distribution(p) && Shrinking(p) && 1 <= k
    ensures (k + 1) as real * Tail(p, k + 1) <= Tail(p, k)
    decreases if k < |p| then |p| - k else 0
  {
    hide Tail, Distribution;
    TailStep(p, k);
    TailStep(p, k + 1);
    TailNotNegative(p, k);
    if |p| <= k {
      NoTailBeyond(p, k + 1);
    } else {
      TailsShrink(p, k + 1);
      TailNotNegative(p, k + 1);
      TailNotNegative(p, k + 2);
      ShrinkOn((k + 1) as real, At(p, k), At(p, k + 1), Tail(p, k + 1), Tail(p, k + 2));
    }
  }

  lemma ShrinkOn(m: real, a: real, b: real, t: real, u: real)
    requires 1.0 <= m && 0.0 <= u && m * b <= a && (m + 1.0) * u <= t && t == b + u
    ensures m * t <= a + t
  {
    assert m * t == m * b + m * u;
    assert (m + 1.0) * u == m * u + u;
  }

  lemma Cells(p: seq<real>)
    requires Balanced(p)
    ensures Distribution(p) && Shrinking(p)
    ensures 0.0 < At(p, 0) <= At(p, 1) && 15.0 * At(p, 1) <= 16.0 * At(p, 0) && 2.0 * At(p, 2) == At(p, 1)
    ensures 14.0 * At(p, 1) <= 90.0 * At(p, 3) && 3.0 * At(p, 3) <= At(p, 2)
    ensures 13.0 * At(p, 3) <= 60.0 * At(p, 4) && 4.0 * At(p, 4) <= At(p, 3) && 12.0 * At(p, 4) <= 75.0 * At(p, 5)
  {
    hide Distribution;
    assert (2 + 1) as real * At(p, 2 + 1) <= At(p, 2);
    assert (3 + 1) as real * At(p, 3 + 1) <= At(p, 3);
  }

  lemma Tails(p: seq<real>)
    requires Balanced(p)
    ensures At(p, 0) + Tail(p, 1) == 1.0 && Tail(p, 1) == At(p, 1) + Tail(p, 2) && Tail(p, 2) == At(p, 2) + Tail(p, 3)
    ensures Tail(p, 3) == At(p, 3) + Tail(p, 4) && Tail(p, 4) == At(p, 4) + Tail(p, 5)
    ensures At(p, 5) <= Tail(p, 5) && 0.0 <= Tail(p, 5) && 5.0 * Tail(p, 5) <= Tail(p, 4)
  {
    hide *;
    Cells(p);
    TailStep(p, 0);
    TailStep(p, 1);
    TailStep(p, 2);
    TailStep(p, 3);
    TailStep(p, 4);
    TailStep(p, 5);
    TailsShrink(p, 4);
    TailNotNegative(p, 5);
    TailNotNegative(p, 6);
  }

  /** Bounds on the weights and tails of a balanced count. */
  lemma Bounds(p: seq<real>)
    requires Balanced(p)
    ensures Distribution(p)
    ensures 0.3529 <= At(p, 0) <= 0.3713 && 0.3678 <= At(p, 1) <= 0.3808
    ensures 0.588 <= At(p, 1) + 0.6 * At(p, 0)
    ensures Tail(p, 1) == 1.0 - At(p, 0) && Tail(p, 2) <= 0.425 * Tail(p, 1)
    ensures 0.2555 <= Tail(p, 2) <= 0.2707 && Tail(p, 2) <= 4.0 * Tail(p, 3)
    ensures 0.0715 <= Tail(p, 3) <= 0.0833
    ensures 0.0143 <= Tail(p, 4) <= 0.0199 && 0.0 <= Tail(p, 5)
    ensures Tail(p, 2) == At(p, 2) + Tail(p, 3)
  {
    hide *;
    Cells(p);
    Tails(p);
  }

  // ----- the time of the first eviction

  lemma AtMostStep(p: seq<real>, t: nat, x: nat)
    ensures AtMost(p, t + 1, x) == Sum(x + 2, AtMostTerms(p, t, x))
  {}

  lemma {:induction false} AtMostShrinks(p: seq<real>, t: nat, x: nat)
    requires Distribution(p)
    ensures 0.0 <= AtMost(p, t + 1, x) <= AtMost(p, t, x)
    decreases t
  {
    hide AtMost, Sum;
    var f := AtMostTerms(p, t, x);
    AtMostStep(p, t, x);
    if t == 0 {
      AtMostUnfold(p, 0, x);
      forall k: nat | k < x + 2 ensures f(k) == Weights(p)(k) { AtMostUnfold(p, 0, x + 1 - k); }
      SumCong(x + 2, f, Weights(p));
      SumNonNeg(x + 2, f);
      BalanceIsTail(p, x + 2);
      TailNotNegative(p, x + 2);
    } else {
      var g := AtMostTerms(p, t - 1, x);
      AtMostStep(p, t - 1, x);
      forall k: nat | k < x + 2 ensures 0.0 <= f(k) <= g(k) {
        AtMostShrinks(p, t - 1, x + 1 - k);
        ProductNonNeg(At(p, k), AtMost(p, t, x + 1 - k));
        ProductMono(AtMost(p, t, x + 1 - k), AtMost(p, t - 1, x + 1 - k), At(p, k));
      }
      SumNonNeg(x + 2, f);
      SumMono(x + 2, f, g);
    }
  }

  /** The weight of making the first eviction in window n with two free places instead of one. */
  function LaterEviction(p: seq<real>, n: nat): real
    requires 0 < n
  {
    AtMost(p, n - 1, 1) - AtMost(p, n, 1)
  }

  lemma OneStep(p: seq<real>, t: nat)
    ensures AtMost(p, t + 1, 1) == At(p, 0) * AtMost(p, t, 2) + At(p, 1) * AtMost(p, t, 1) + At(p, 2) * AtMost(p, t, 0)
  {
    hide AtMost;
    var a := AtMostTerms(p, t, 1);
    AtMostStep(p, t, 1);
    SumStep(0, a);
    SumStep(1, a);
    SumStep(2, a);
  }

  lemma FirstEvictionStep(p: seq<real>, n: nat)
    requires 0 < n
    ensures FirstEviction(p, n + 1) == At(p, 0) * LaterEviction(p, n) + At(p, 1) * FirstEviction(p, n)
  {
    hide AtMost;
    NoneStep(p, n - 1);
    NoneStep(p, n);
    DistributeMinus(At(p, 0), AtMost(p, n - 1, 1), AtMost(p, n, 1));
    DistributeMinus(At(p, 1), AtMost(p, n - 1, 0), AtMost(p, n, 0));
  }

  lemma LaterEvictionStep(p: seq<real>, n: nat)
    requires Distribution(p) && 0 < n
    ensures At(p, 1) * LaterEviction(p, n) + At(p, 2) * FirstEviction(p, n) <= LaterEviction(p, n + 1)
  {
    hide AtMost;
    OneStep(p, n - 1);
    OneStep(p, n);
    AtMostShrinks(p, n - 1, 2);
    DistributeMinus(At(p, 0), AtMost(p, n - 1, 2), AtMost(p, n, 2));
    ProductNonNeg(At(p, 0), AtMost(p, n - 1, 2) - AtMost(p, n, 2));
    DistributeMinus(At(p, 1), AtMost(p, n - 1, 1), AtMost(p, n, 1));
    DistributeMinus(At(p, 2), AtMost(p, n - 1, 0), AtMost(p, n, 0));
  }

  lemma FirstWindowEvictions(p: seq<real>)
    requires Distribution(p)
    ensures FirstEviction(p, 1) == Tail(p, 2) && LaterEviction(p, 1) == Tail(p, 3)
  {
    hide Tail, Distribution;
    NoneStep(p, 0);
    OneStep(p, 0);
    AtMostUnfold(p, 0, 0);
    AtMostUnfold(p, 0, 1);
    AtMostUnfold(p, 0, 2);
    TailStep(p, 0);
    TailStep(p, 1);
    TailStep(p, 2);
  }

  /** From the second window on, a further free place delays the first eviction by little. */
  lemma {:induction false} LaterAtLeast(p: seq<real>, n: nat)
    requires Balanced(p) && 2 <= n
    ensures 0.6 * FirstEviction(p, n) <= LaterEviction(p, n)
    ensures 0.0 <= FirstEviction(p, n)
    decreases n
  {
    hide *;
    Cells(p);
    Bounds(p);
    FirstEvictionStep(p, n - 1);
    LaterEvictionStep(p, n - 1);
    if n == 2 {
      FirstWindowEvictions(p);
      LaterBy(At(p, 0), At(p, 1), At(p, 2), Tail(p, 2), Tail(p, 3), FirstEviction(p, 2), LaterEviction(p, 2));
    } else {
      var m := n - 1;
      assert n == m + 1;
      LaterAtLeast(p, m);
      LaterBy(At(p, 0), At(p, 1), At(p, 2), FirstEviction(p, m), LaterEviction(p, m), FirstEviction(p, n), LaterEviction(p, n));
    }
  }

  lemma LaterBy(a: real, b: real, c: real, t: real, u: real, f: real, l: real)
    requires 0.0 < a <= b && 2.0 * c == b && 0.0 <= t <= 4.0 * u
    requires f == a * u + b * t && b * u + c * t <= l
    ensures 0.0 <= f && 0.6 * f <= l
  {
    ProductMono(a, b, u);
    ProductMono(t, 4.0 * u, b);
    ProductNonNeg(a, u);
    ProductNonNeg(b, t);
    Halved(b, c, t);
    Weigh(a * u, b * u, b * t, c * t);
  }

  lemma Halved(b: real, c: real, t: real)
    requires 2.0 * c == b
    ensures b * t == 2.0 * (c * t)
  {}

  lemma Weigh(x: real, y: real, z: real, c: real)
    requires x <= y && z <= 4.0 * y && z == 2.0 * c
    ensures 0.6 * (x + z) <= y + c
  {}

  /** The first eviction comes later and later, but not much more rarely. */
  lemma FirstEvictionDecays(p: seq<real>, n: nat)
    requires Balanced(p) && 2 <= n
    ensures 0.588 * FirstEviction(p, n) <= FirstEviction(p, n + 1)
    ensures 0.0 <= FirstEviction(p, n)
  {
    hide *;
    Bounds(p);
    LaterAtLeast(p, n);
    FirstEvictionStep(p, n);
    DecayBy(At(p, 0), At(p, 1), FirstEviction(p, n), LaterEviction(p, n));
  }

  lemma DecayBy(a: real, b: real, f: real, l: real)
    requires 0.0 < a && 0.588 <= b + 0.6 * a && 0.0 <= f && 0.6 * f <= l
    ensures 0.588 * f <= a * l + b * f
  {
    ProductMono(0.6 * f, l, a);
    ProductMono(0.588, b + 0.6 * a, f);
  }

  // ----- the gains

  /** What the gains from the second on add up to, weighted with the tails. */
  function Late(p: seq<real>, n: nat): real
    requires 0 < n
  {
    At(p, 0) * FirstEviction(p, n) + Over(p, n)
  }

  /** Losing as the first in line and again as many insertions, against losing at once. */
  function Over(p: seq<real>, n: nat): real {
    Tail(p, 2) * Tail(p, n) - Tail(p, n + 1)
  }

  lemma LateIs(p: seq<real>, n: nat)
    requires 0 < n
    ensures Late(p, n) == At(p, 0) * FirstEviction(p, n) + Over(p, n)
  {
    hide FirstEviction, Over;
  }

  lemma OverIs(p: seq<real>, n: nat)
    ensures Over(p, n) == Tail(p, 2) * Tail(p, n) - Tail(p, n + 1)
  {
    hide Tail;
  }

  lemma FirstGain(p: seq<real>)
    requires Distribution(p)
    ensures Gain(p, 1) == -Tail(p, 2)
  {
    hide Tail, Distribution;
    var f := SavedTerms(p, 1, 1);
    SumStep(0, f);
    SumStep(1, f);
    TailStep(p, 0);
    TailStep(p, 1);
    assert Saved(p, 0, 1) == 1.0;
  }

  lemma LateSum(p: seq<real>, n: nat)
    requires Distribution(p) && 2 <= n
    ensures Sum(n - 1, GainTerms(p, n)) == Late(p, n)
  {
    hide Gain, Sum, Tail, Distribution, FirstEviction;
    var g := GainTerms(p, n);
    GainRenewal(p, n);
    SumStep(n, g);
    SumStep(n - 1, g);
    FirstGain(p);
    NoGain(p);
    LastGains(p, n);
  }

  lemma NoGain(p: seq<real>)
    ensures Gain(p, 0) == 1.0
  {}

  lemma LastGains(p: seq<real>, n: nat)
    requires 2 <= n
    ensures GainTerms(p, n)(n) == Tail(p, n + 1) * Gain(p, 0)
    ensures GainTerms(p, n)(n - 1) == Tail(p, n) * Gain(p, 1)
  {
    hide Gain, Tail;
  }

  lemma {:induction false} DecaysFaster(p: seq<real>, n: nat)
    requires Balanced(p) && 4 <= n
    ensures 0.425 * (Tail(p, 2) * Tail(p, n)) < 0.163 * (At(p, 0) * FirstEviction(p, n))
    ensures 0.0 <= FirstEviction(p, n)
    decreases n
  {
    hide *;
    Cells(p);
    Bounds(p);
    FirstEvictionDecays(p, n - 1);
    TailsShrink(p, n - 1);
    TailNotNegative(p, n);
    if n == 4 {
      FirstEvictionDecays(p, 2);
      SecondEviction(p);
      FourthEviction(At(p, 0), FirstEviction(p, 2), FirstEviction(p, 3), FirstEviction(p, 4), Tail(p, 2), Tail(p, 4));
    } else {
      DecaysFaster(p, n - 1);
      FasterOn(n as real, At(p, 0), FirstEviction(p, n - 1), FirstEviction(p, n), Tail(p, 2), Tail(p, n - 1), Tail(p, n));
    }
  }

  /** The weight of making the first eviction in the second window, from below. */
  lemma SecondEviction(p: seq<real>)
    requires Balanced(p)
    ensures 0.0418 <= At(p, 0) * FirstEviction(p, 2)
  {
    hide *;
    Bounds(p);
    FirstEvictionStep(p, 1);
    FirstWindowEvictions(p);
    var a, b, t, u := At(p, 0), At(p, 1), Tail(p, 2), Tail(p, 3);
    Products(0.3529, a, 0.0715, u);
    Products(0.3678, b, 0.2555, t);
    Products(0.3529, a, 0.3529 * 0.0715 + 0.3678 * 0.2555, a * u + b * t);
  }

  lemma Products(x: real, a: real, y: real, b: real)
    requires 0.0 <= x <= a && 0.0 <= y <= b
    ensures x * y <= a * b
  {
    ProductMono(x, a, y);
    ProductMono(y, b, a);
  }

  lemma FourthEviction(a: real, f2: real, f3: real, f4: real, t: real, v: real)
    requires 0.0 < a && 0.0418 <= a * f2 && 0.588 * f2 <= f3 && 0.588 * f3 <= f4
    requires 0.0 <= t <= 0.2707 && 0.0 <= v <= 0.0199
    ensures 0.425 * (t * v) < 0.163 * (a * f4)
  {
    ProductMono(0.588 * f2, f3, a);
    ProductMono(0.588 * f3, f4, a);
    Products(t, 0.2707, v, 0.0199);
    assert 0.588 * (a * f2) <= a * f3 && 0.588 * (a * f3) <= a * f4;
  }

  lemma ThirdEviction(a: real, f2: real, f3: real, t: real, u: real, v: real)
    requires 0.0 < a && 0.0418 <= a * f2 && 0.588 * f2 <= f3
    requires 0.0 <= t <= 0.2707 && 0.0 <= u <= 0.0833 && 0.0143 <= v
    ensures 0.425 * (t * u - v) < 0.163 * (a * f3)
  {
    ProductMono(0.588 * f2, f3, a);
    ScaledProduct(0.588, a, f2);
    Products(t, 0.2707, u, 0.0833);
    ThirdLinear(t * u, v, a * f2, a * f3);
  }

  lemma ThirdLinear(x: real, v: real, e: real, e': real)
    requires x <= 0.2707 * 0.0833 && 0.0143 <= v && 0.0418 <= e && 0.588 * e <= e'
    ensures 0.425 * (x - v) < 0.163 * e'
  {}

  lemma FasterOn(n: real, a: real, f: real, f': real, t: real, v: real, v': real)
    requires 4.0 <= n && 0.0 < a && 0.0 <= f && 0.588 * f <= f' && 0.0 <= t && 0.0 <= v' && n * v' <= v
    requires 0.425 * (t * v) < 0.163 * (a * f)
    ensures 0.425 * (t * v') < 0.163 * (a * f')
  {
    ProductMono(0.588 * f, f', a);
    ProductMono(4.0, n, v');
    assert 4.0 * v' <= v;
    ProductMono(4.0 * v', v, t);
    ProductNonNeg(a, f);
    ProductNonNeg(t, v');
    FasterBy(t * v', t * v, a * f, a * f');
  }

  lemma FasterBy(x: real, y: real, e: real, e': real)
    requires 0.0 <= x && 4.0 * x <= y && 0.425 * y < 0.163 * e && 0.588 * e <= e'
    ensures 0.425 * x < 0.163 * e'
  {}

  /** In the second window and after, late first evictions outweigh what is over. */
  lemma OverIsCovered(p: seq<real>, n: nat)
    requires Balanced(p) && 2 <= n
    ensures 0.425 * Over(p, n) < 0.163 * (At(p, 0) * FirstEviction(p, n))
  {
    hide *;
    OverIs(p, n);
    Bounds(p);
    SecondEviction(p);
    if n == 2 {
      Products(Tail(p, 2), 0.2707, Tail(p, 2), 0.2707);
    } else if n == 3 {
      FirstEvictionDecays(p, 2);
      ThirdEviction(At(p, 0), FirstEviction(p, 2), FirstEviction(p, 3), Tail(p, 2), Tail(p, 3), Tail(p, 4));
    } else {
      DecaysFaster(p, n);
      TailNotNegative(p, n + 1);
    }
  }

  /** The gains' sums shrink by no more than the first two tails do. */
  lemma LateShrinks(p: seq<real>, n: nat)
    requires Balanced(p) && 3 <= n
    ensures 0.425 * Late(p, n - 1) < Late(p, n)
  {
    hide *;
    LateIs(p, n);
    LateIs(p, n - 1);
    Cells(p);
    OverIsCovered(p, n - 1);
    FirstEvictionDecays(p, n - 1);
    ProductMono(0.588 * FirstEviction(p, n - 1), FirstEviction(p, n), At(p, 0));
    OverNotNegative(p, n);
    ScaledProduct(0.588, At(p, 0), FirstEviction(p, n - 1));
  }

  lemma ScaledProduct(c: real, x: real, y: real)
    ensures (c * y) * x == c * (x * y)
  {}

  lemma OverNotNegative(p: seq<real>, n: nat)
    requires Balanced(p) && 3 <= n
    ensures 0.0 <= Over(p, n)
  {
    hide *;
    OverIs(p, n);
    Cells(p);
    Bounds(p);
    TailsShrink(p, n);
    TailNotNegative(p, n + 1);
    TailNotNegative(p, n);
    OverBy((n + 1) as real, Tail(p, 2), Tail(p, n), Tail(p, n + 1));
  }

  lemma OverBy(m: real, t: real, v: real, v': real)
    requires 4.0 <= m && 0.25 <= t && 0.0 <= v' && 0.0 <= v && m * v' <= v
    ensures 0.0 <= t * v - v'
  {
    ProductMono(4.0, m, v');
    assert v' <= 0.25 * v;
    ProductMono(0.25, t, v);
    assert 0.25 * v <= t * v;
  }

  /** The tail of the count after k insertions more is at most this part of the tail before. */
  lemma TailsRatio(p: seq<real>, k: nat)
    requires Balanced(p) && 1 <= k
    ensures 0.0 <= Tail(p, k + 1) <= 0.425 * Tail(p, k)
  {
    hide *;
    Cells(p);
    Bounds(p);
    TailNotNegative(p, k + 1);
    if 2 <= k {
      TailsShrink(p, k);
      ProductMono(3.0, (k + 1) as real, Tail(p, k + 1));
    }
  }

  /** From the second place on, every further place behind one free place saves an entry more often. */
  lemma {:induction false} GainPositive(p: seq<real>, n: nat)
    requires Balanced(p) && 2 <= n
    ensures 0.0 < Gain(p, n)
    decreases n
  {
    hide *;
    Bounds(p);
    LateSum(p, n);
    FirstGainTerm(p, n);
    if n == 2 {
      LateAtTwo(p);
      SumStep(0, GainTerms(p, 2));
      PositiveFactor(Tail(p, 1), Gain(p, 2));
    } else {
      forall i: nat | 2 <= i < n ensures 0.0 < Gain(p, i) { GainPositive(p, i); }
      GainsBefore(p, n);
      LateSum(p, n - 1);
      LateShrinks(p, n);
      PositiveFactor(Tail(p, 1), Gain(p, n));
    }
  }

  lemma FirstGainTerm(p: seq<real>, n: nat)
    ensures GainTerms(p, n)(0) == Tail(p, 1) * Gain(p, n)
  {
    hide Gain, Tail;
  }

  lemma PositiveFactor(x: real, y: real)
    requires 0.0 < x && 0.0 < x * y
    ensures 0.0 < y
  {}

  lemma LateAtTwo(p: seq<real>)
    requires Balanced(p)
    ensures 0.0 < Late(p, 2)
  {
    hide *;
    OverIs(p, 2);
    LateIs(p, 2);
    Bounds(p);
    SecondEviction(p);
    Products(0.2555, Tail(p, 2), 0.2555, Tail(p, 2));
  }

  /** All but the newest gain, against the sum of one place before. */
  lemma GainsBefore(p: seq<real>, n: nat)
    requires Balanced(p) && 3 <= n && forall i: nat :: 2 <= i < n ==> 0.0 < Gain(p, i)
    ensures Sum(n - 1, GainTerms(p, n)) - GainTerms(p, n)(0) <= 0.425 * Sum(n - 2, GainTerms(p, n - 1))
  {
    hide *;
    var g, h := GainTerms(p, n), GainTerms(p, n - 1);
    var later := (k: nat) => g(1 + k);
    var scaled := (k: nat) => 0.425 * h(k);
    SumSplit(1, n - 2, g, later);
    SumStep(0, g);
    forall k: nat | k < n - 2 ensures later(k) <= scaled(k) {
      TailsRatio(p, k + 1);
      GainTermsAt(p, n, k);
      ProductMono(Tail(p, k + 2), 0.425 * Tail(p, k + 1), Gain(p, n - 1 - k));
      ScaledProduct(0.425, Gain(p, n - 1 - k), Tail(p, k + 1));
    }
    SumMono(n - 2, later, scaled);
    SumScale(n - 2, 0.425, h, scaled);
  }

  lemma GainTermsAt(p: seq<real>, n: nat, k: nat)
    requires k + 2 < n
    ensures GainTerms(p, n)(1 + k) == Tail(p, k + 2) * Gain(p, n - 1 - k)
    ensures GainTerms(p, n - 1)(k) == Tail(p, k + 1) * Gain(p, n - 1 - k)
  {
    hide Gain, Tail;
  }

  /** The second gain from below. */
  lemma SecondGain(p: seq<real>)
    requires Balanced(p)
    ensures 0.049 <= Gain(p, 2) && 0.049 <= At(p, 2)
  {
    hide *;
    OverIs(p, 2);
    LateIs(p, 2);
    Bounds(p);
    LateSum(p, 2);
    FirstGainTerm(p, 2);
    SumStep(0, GainTerms(p, 2));
    FirstEvictionStep(p, 1);
    FirstWindowEvictions(p);
    Cells(p);
    var a, b, c, t, u := At(p, 0), At(p, 1), At(p, 2), Tail(p, 2), Tail(p, 3);
    TailStep(p, 1);
    SameGain(a, b, c, t, u, Gain(p, 2));
    Products(a, 0.3713, u, 0.0833);
    Products(b, 0.3808, t, 0.2707);
    SecondLinear(c, a * u, b * t);
  }

  lemma SecondLinear(c: real, x: real, y: real)
    requires 0.1839 <= c && x <= 0.3713 * 0.0833 && y <= 0.3808 * 0.2707
    ensures 0.049 <= c - x - y
  {}

  lemma SameGain(a: real, b: real, c: real, t: real, u: real, g: real)
    requires a < 1.0 && t == c + u && 1.0 - a == b + t
    requires (1.0 - a) * g == a * (a * u + b * t) + (t * t - u)
    ensures g == c - a * u - b * t
  {
    var x := c - a * u - b * t;
    assert (1.0 - a) * x == a * (a * u + b * t) + (t * t - u) by {
      SameProduct(a, b, c, t, u);
    }
    DistributeMinus(1.0 - a, g, x);
    ZeroFactor(1.0 - a, g - x);
  }

  lemma ZeroFactor(x: real, y: real)
    requires 0.0 < x && x * y == 0.0
    ensures y == 0.0
  {}

  lemma SameProduct(a: real, b: real, c: real, t: real, u: real)
    requires t == c + u && 1.0 - a == b + t
    ensures (1.0 - a) * (c - a * u - b * t) == a * (a * u + b * t) + (t * t - u)
  {
    var b' := 1.0 - a - t;
    assert b == b' && c == t - u;
  }
}
