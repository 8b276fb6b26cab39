/** The whole-window weight, which is what calc_lossprob computes, bounds the loss of every entry of the
    simulation loop from above for every window of sixteen or more activations. */
module RecursionBound {
  import opened RealSums
  import opened Expectation
  import opened Binomial
  import opened LossModel
  import opened Occupancy
  import opened Survival
  import opened Gains
  import opened SimulatedLoss
  import opened LossTable
  import opened LossComparison
  import opened TimelineLoss
  import opened Convergence

  /** The program's insertion probability. */
  function Inverse(w: nat): real
    requires 0 < w
  {
    1.0 / w as real
  }

  lemma InverseIs(w: nat)
    requires 2 <= w
    ensures 0.0 < Inverse(w) < 1.0 && Inverse(w) * w as real == 1.0
  {}

  // ----- neighbouring weights of the insertion count

  lemma {:induction false} CountRatio(q: real, n: nat, k: nat)
    ensures (k + 1) as real * ((1.0 - q) * CountWeight(q, n, k + 1)) == (n - k) as real * (q * CountWeight(q, n, k))
    decreases n
  {
    hide *;
    if n == 0 {
      CountOutside(q, 0, k + 1);
      if k != 0 { CountOutside(q, 0, k); }
    } else {
      CountRatio(q, n - 1, k);
      Pascal(q, n - 1, k + 1);
      Pascal(q, n - 1, k);
      if k == 0 { CountOutside(q, n - 1, -1); } else { CountRatio(q, n - 1, k - 1); }
      var a, b, c := CountWeight(q, n - 1, k + 1), CountWeight(q, n - 1, k), CountWeight(q, n - 1, k - 1);
      RatioStep(q, n as real, k as real, a, b, c);
    }
  }

  lemma RatioStep(q: real, n: real, k: real, a: real, b: real, c: real)
    requires (k + 1.0) * ((1.0 - q) * a) == (n - 1.0 - k) * (q * b)
    requires k * ((1.0 - q) * b) == (n - k) * (q * c)
    ensures (k + 1.0) * ((1.0 - q) * ((1.0 - q) * a + q * b)) == (n - k) * (q * ((1.0 - q) * b + q * c))
  {
    var x, y, z := (1.0 - q) * a, q * b, q * c;
    assert (k + 1.0) * ((1.0 - q) * (x + y)) == (1.0 - q) * ((k + 1.0) * x) + (k + 1.0) * ((1.0 - q) * y);
    assert (n - k) * (q * ((1.0 - q) * b + z)) == (n - k) * ((1.0 - q) * y) + q * ((n - k) * z);
    assert q * (k * ((1.0 - q) * b)) == k * ((1.0 - q) * y);
    assert (1.0 - q) * ((n - 1.0 - k) * y) == (n - 1.0 - k) * ((1.0 - q) * y);
  }

  /** For insertion probability 1 / w. */
  lemma NextCount(w: nat, n: nat, k: nat)
    requires 2 <= w
    ensures (k + 1) as real * ((w - 1) as real * CountWeight(Inverse(w), n, k + 1))
         == (n - k) as real * CountWeight(Inverse(w), n, k)
  {
    hide CountWeight, Inverse;
    var q, v := Inverse(w), w as real;
    InverseIs(w);
    CountRatio(q, n, k);
    var x, y := CountWeight(q, n, k + 1), CountWeight(q, n, k);
    Cleared(v, q, (k + 1) as real, (n - k) as real, x, y);
  }

  lemma Cleared(v: real, q: real, k: real, m: real, x: real, y: real)
    requires q * v == 1.0 && k * ((1.0 - q) * x) == m * (q * y)
    ensures k * ((v - 1.0) * x) == m * y
  {
    assert v * (k * ((1.0 - q) * x)) == k * ((v - q * v) * x);
    assert v * (m * (q * y)) == m * ((q * v) * y);
  }

  lemma CellIsCount(q: real, w: nat, k: nat)
    ensures At(CountDist(q, w), k) == CountWeight(q, w, k)
  {
    hide CountWeight;
    if w < k { CountOutside(q, w, k); }
  }

  lemma CellShrinks(w: nat, k: nat)
    requires 2 <= w && 1 <= k
    ensures (k + 1) as real * At(CountDist(Inverse(w), w), k + 1) <= At(CountDist(Inverse(w), w), k)
  {
    hide *;
    var q := Inverse(w);
    InverseIs(w);
    CellIsCount(q, w, k);
    CellIsCount(q, w, k + 1);
    NextCount(w, w, k);
    CountNonNeg(q, w, k);
    CountNonNeg(q, w, k + 1);
    Shrinks(w, k, CountWeight(q, w, k), CountWeight(q, w, k + 1));
  }

  lemma CellsShrink(w: nat)
    requires 2 <= w
    ensures Shrinking(CountDist(Inverse(w), w))
  {
    hide At, CountDist, Inverse;
    forall k: nat | 1 <= k ensures (k + 1) as real * At(CountDist(Inverse(w), w), k + 1) <= At(CountDist(Inverse(w), w), k) {
      CellShrinks(w, k);
    }
  }

  lemma CellsOfWindow(w: nat)
    requires 16 <= w
    ensures var p := CountDist(Inverse(w), w);
            && 0.0 < At(p, 0) <= At(p, 1) && 15.0 * At(p, 1) <= 16.0 * At(p, 0) && 2.0 * At(p, 2) == At(p, 1)
            && 14.0 * At(p, 1) <= 90.0 * At(p, 3) && 13.0 * At(p, 3) <= 60.0 * At(p, 4) && 12.0 * At(p, 4) <= 75.0 * At(p, 5)
  {
    hide *;
    var q := Inverse(w);
    InverseIs(w);
    CountPositive(q, w, 0);
    CountNonNeg(q, w, 1);
    CountNonNeg(q, w, 2);
    CountNonNeg(q, w, 3);
    CountNonNeg(q, w, 4);
    CellIsCount(q, w, 0);
    CellIsCount(q, w, 1);
    CellIsCount(q, w, 2);
    CellIsCount(q, w, 3);
    CellIsCount(q, w, 4);
    CellIsCount(q, w, 5);
    NextCount(w, w, 0);
    NextCount(w, w, 1);
    NextCount(w, w, 2);
    NextCount(w, w, 3);
    NextCount(w, w, 4);
    FirstCells(w, CountWeight(q, w, 0), CountWeight(q, w, 1), CountWeight(q, w, 2),
               CountWeight(q, w, 3), CountWeight(q, w, 4), CountWeight(q, w, 5));
  }

  /** The counts of the program's windows are balanced. */
  lemma WindowIsBalanced(w: nat)
    requires 16 <= w
    ensures Balanced(CountDist(Inverse(w), w))
  {
    hide At, CountDist, Inverse, Distribution, Shrinking;
    InverseIs(w);
    CountDistIsDistribution(Inverse(w), w);
    CellsOfWindow(w);
    CellsShrink(w);
  }

  lemma Shrinks(w: nat, k: nat, x: real, y: real)
    requires 2 <= w && 1 <= k && 0.0 <= x && 0.0 <= y
    requires (k + 1) as real * ((w - 1) as real * y) == (w - k) as real * x
    ensures (k + 1) as real * y <= x
  {
    var v := (w - 1) as real;
    ProductMono((w - k) as real, v, x);
    assert v * ((k + 1) as real * y) <= v * x;
  }

  lemma FirstCells(w: nat, a: real, b: real, c: real, d: real, e: real, f: real)
    requires 16 <= w && 0.0 < a && 0.0 <= b && 0.0 <= c && 0.0 <= d && 0.0 <= e
    requires 1.0 * ((w - 1) as real * b) == w as real * a
    requires 2.0 * ((w - 1) as real * c) == (w - 1) as real * b
    requires 3.0 * ((w - 1) as real * d) == (w - 2) as real * c
    requires 4.0 * ((w - 1) as real * e) == (w - 3) as real * d
    requires 5.0 * ((w - 1) as real * f) == (w - 4) as real * e
    ensures a <= b && 15.0 * b <= 16.0 * a && 2.0 * c == b
    ensures 14.0 * b <= 90.0 * d && 13.0 * d <= 60.0 * e && 12.0 * e <= 75.0 * f
  {
    var v := (w - 1) as real;
    Quotient(v, v + 1.0, 1.0, a, b);
    Quotient(v, v, 2.0, b, c);
    Quotient(v, v - 1.0, 3.0, c, d);
    Quotient(v, v - 2.0, 4.0, d, e);
    Quotient(v, v - 3.0, 5.0, e, f);
  }

  /** The ratio of two neighbouring cells, between its values for the smallest and the largest window. */
  lemma Quotient(v: real, u: real, k: real, x: real, y: real)
    requires 15.0 <= v && -4.0 <= u - v <= 1.0 && 0.0 <= x && k * (v * y) == u * x
    ensures u <= v ==> k * y <= x && (15.0 + (u - v)) * x <= 15.0 * (k * y)
    ensures v <= u ==> x <= k * y && 15.0 * (k * y) <= (15.0 + (u - v)) * x
  {
    var z := k * y;
    assert k * (v * y) == v * z;
    DistributeMinus(v, z, x);
    DistributeMinus(v, x, z);
    DistributeDifference(u, v, x);
    DistributeDifference(v, u, x);
    if u <= v { Between(v, v - u, x, x - z); }
    if v <= u { Between(v, u - v, x, z - x); }
  }

  lemma Between(v: real, e: real, x: real, y: real)
    requires 15.0 <= v && 0.0 <= e && 0.0 <= x && v * y == e * x
    ensures 0.0 <= y && 15.0 * y <= e * x
  {
    ProductNonNeg(e, x);
    NotNegative(v, y);
    ProductMono(15.0, v, y);
  }

  lemma NotNegative(x: real, y: real)
    requires 0.0 < x && 0.0 <= x * y
    ensures 0.0 <= y
  {}

  // ----- the count before the last one that saves the entry

  /** Of three neighbouring counts, the middle one weighs little against the others. */
  lemma Bump(w: nat, n: nat, i: nat, t: real)
    requires 16 <= w && 1 <= i && 0.0 <= t <= 0.2707
    ensures var q := Inverse(w);
            && t * CountWeight(q, n, i) <= 0.049 * CountWeight(q, n, i - 1) + CountWeight(q, n, i + 1)
            && (i <= n ==> t * CountWeight(q, n, i) < 0.049 * CountWeight(q, n, i - 1) + CountWeight(q, n, i + 1))
  {
    hide *;
    var q := Inverse(w);
    InverseIs(w);
    CountNonNeg(q, n, i - 1);
    CountNonNeg(q, n, i + 1);
    if n < i {
      CountOutside(q, n, i);
    } else {
      CountPositive(q, n, i);
      NextCount(w, n, i - 1);
      NextCount(w, n, i);
      BumpFrom((w - 1) as real, (n - i + 1) as real, i as real, t,
               CountWeight(q, n, i - 1), CountWeight(q, n, i), CountWeight(q, n, i + 1));
    }
  }

  lemma BumpFrom(v: real, m: real, i: real, t: real, a: real, b: real, c: real)
    requires 15.0 <= v && 1.0 <= m && 1.0 <= i && 0.0 <= t <= 0.2707 && 0.0 < b
    requires i * (v * b) == m * a && (i + 1.0) * (v * c) == (m - 1.0) * b
    ensures t * b < 0.049 * a + c
  {
    hide *;
    var e := (i + 1.0) * v;
    Products(2.0, i + 1.0, 15.0, v);
    BumpSquare(e, m, t);
    BumpCleared(v, m, i, e, a, b, c);
    BumpWeighed(e, m, i * v, v, t);
    var x := 0.049 * (i * v * e) + m * (m - 1.0) - t * (m * e);
    ProductPositive(x, b);
    ProductPositive(m, e);
    BumpDivided(m * e, 0.049 * a + c, t, b, x);
  }

  lemma BumpSquare(e: real, m: real, t: real)
    requires 30.0 <= e && 1.0 <= m && 0.0 <= t <= 0.2707
    ensures t * (m * e) + m < m * m + 0.0245 * (e * e)
  {
    ProductMono(30.0, e, m);
    ProductNonNeg(m, e);
    ProductMono(t, 0.2707, m * e);
    Square(m - 0.15205 * e);
    assert (m - 0.15205 * e) * (m - 0.15205 * e) == m * m - 0.3041 * (m * e) + 0.15205 * 0.15205 * (e * e);
    Products(30.0, e, 30.0, e);
    SquareLinear(t * (m * e), m, m * e, m * m, e * e);
  }

  lemma Square(x: real)
    ensures 0.0 <= x * x
  {}

  lemma SquareLinear(x: real, m: real, y: real, mm: real, ee: real)
    requires 0.0 <= m && 30.0 * m <= y && x <= 0.2707 * y && 900.0 <= ee && 0.0 <= mm - 0.3041 * y + 0.15205 * 0.15205 * ee
    ensures x + m < mm + 0.0245 * ee
  {}

  /** At least half of the square stands for the lower neighbour. */
  lemma BumpWeighed(e: real, m: real, f: real, v: real, t: real)
    requires e == f + v && 0.0 < v <= f && 0.0 <= m && t * (m * e) + m < m * m + 0.0245 * (e * e)
    ensures 0.0 < 0.049 * (f * e) + m * (m - 1.0) - t * (m * e)
  {
    ProductMono(e, 2.0 * f, e);
    assert e * e <= 2.0 * (f * e);
    assert m * (m - 1.0) == m * m - m;
  }

  lemma BumpCleared(v: real, m: real, i: real, e: real, a: real, b: real, c: real)
    requires e == (i + 1.0) * v && i * (v * b) == m * a && (i + 1.0) * (v * c) == (m - 1.0) * b
    ensures (m * e) * (0.049 * a + c) == (0.049 * (i * v * e) + m * (m - 1.0)) * b
  {
    assert (m * e) * a == e * (m * a) == e * (i * (v * b)) == i * v * e * b;
    assert e * c == (i + 1.0) * (v * c);
    assert (m * e) * c == m * (e * c) == m * ((m - 1.0) * b) == m * (m - 1.0) * b;
    assert (m * e) * (0.049 * a + c) == 0.049 * ((m * e) * a) + (m * e) * c;
  }

  lemma BumpDivided(k: real, y: real, t: real, b: real, x: real)
    requires 0.0 < k && k * y == (x + t * k) * b && 0.0 < x * b
    ensures t * b < y
  {
    assert k * (y - t * b) == x * b;
    PositiveFactor(k, y - t * b);
  }

  // ----- averages of effects

  /** The effects of one more insertion, as they are near the count i: only the effect at i is negative,
      and it is small against its neighbours. */
  ghost predicate Bumped(x: nat -> real, i: nat, t: real) {
    && 1 <= i && 0.0 <= t <= 0.2707
    && -t <= x(i) && 1.0 <= x(i + 1) && 0.049 <= x(i - 1)
    && forall k: nat :: k != i ==> 0.0 <= x(k)
  }

  function Weighed(q: real, n: nat, x: nat -> real): nat -> real {
    (k: nat) => CountWeight(q, n, k) * x(k)
  }

  function Three(i: nat, a: real, b: real, c: real): nat -> real {
    (k: nat) => if k + 1 == i then a else if k == i then b else if k == i + 1 then c else 0.0
  }

  lemma SumThree(bound: nat, i: nat, a: real, b: real, c: real)
    requires 1 <= i && i + 2 <= bound
    ensures Sum(bound, Three(i, a, b, c)) == a + b + c
  {
    hide Sum;
    var low := Three(i, a, b, c);
    SumExtend(i + 2, bound, low);
    SumStep(i + 1, low);
    SumStep(i, low);
    SumStep(i - 1, low);
    SumZero(i - 1, low);
  }

  lemma ThreeBelow(q: real, n: nat, x: nat -> real, i: nat, t: real, k: nat)
    requires 0.0 <= q <= 1.0 && Bumped(x, i, t)
    ensures Three(i, 0.049 * CountWeight(q, n, i - 1), -t * CountWeight(q, n, i), CountWeight(q, n, i + 1))(k)
         <= Weighed(q, n, x)(k)
  {
    hide CountWeight;
    CountNonNeg(q, n, k);
    var c := CountWeight(q, n, k);
    if k == i { ProductMono(-t, x(i), c); }
    else if k + 1 == i { assert k == i - 1; ProductMono(0.049, x(i - 1), c); }
    else if k == i + 1 { ProductMono(1.0, x(k), c); }
    else { ProductNonNeg(c, x(k)); }
  }

  /** Their average over any number of activations is not negative, and it is positive if i insertions
      can happen. */
  lemma BumpedAverage(w: nat, n: nat, x: nat -> real, i: nat, t: real, bound: nat)
    requires 16 <= w && Bumped(x, i, t) && i + 2 <= bound
    ensures 0.0 <= Sum(bound, Weighed(Inverse(w), n, x))
    ensures i <= n ==> 0.0 < Sum(bound, Weighed(Inverse(w), n, x))
  {
    hide *;
    var q := Inverse(w);
    InverseIs(w);
    BumpedRange(x, i, t);
    var a, b, c := 0.049 * CountWeight(q, n, i - 1), -t * CountWeight(q, n, i), CountWeight(q, n, i + 1);
    forall k: nat | k < bound ensures Three(i, a, b, c)(k) <= Weighed(q, n, x)(k) {
      ThreeBelow(q, n, x, i, t, k);
    }
    SumMono(bound, Three(i, a, b, c), Weighed(q, n, x));
    SumThree(bound, i, a, b, c);
    Bump(w, n, i, t);
  }

  lemma BumpedRange(x: nat -> real, i: nat, t: real)
    requires Bumped(x, i, t)
    ensures 1 <= i && 0.0 <= t <= 0.2707
  {}

  // ----- more room behind the entry saves it more often

  /** The survival weight after k insertions, with a free place more and without. */
  function Helped(p: seq<real>, n: nat, free: nat): nat -> real
    requires 0 < n && 0 < free
  {
    (k: nat) =>
      if k < free + n then Saved(p, Needs(n, free + 1, k), Room(free + 1, k)) - Saved(p, Needs(n, free, k), Room(free, k))
      else if k == free + n then 1.0 else 0.0
  }

  lemma HelpedAt(p: seq<real>, n: nat, free: nat, k: nat)
    requires 0 < n && 0 < free
    ensures k <= free ==> Helped(p, n, free)(k) == Saved(p, n - 1, free - k + 2) - Saved(p, n - 1, free - k + 1)
    ensures free < k < free + n ==> Helped(p, n, free)(k) == Gain(p, free + n - k)
    ensures k == free + n ==> Helped(p, n, free)(k) == 1.0
    ensures free + n < k ==> Helped(p, n, free)(k) == 0.0
  {
    hide Saved;
  }

  lemma HelpedSum(p: seq<real>, n: nat, free: nat)
    requires 0 < n && 0 < free
    ensures var f := (k: nat) => At(p, k) * Helped(p, n, free)(k);
            Saved(p, n, free + 1) - Saved(p, n, free) == Sum(free + n + 1, f)
  {
    hide Saved, SavedTerms, Helped, Sum;
    var f := (k: nat) => At(p, k) * Helped(p, n, free)(k);
    var a, b := SavedTerms(p, n, free + 1), SavedTerms(p, n, free);
    SavedUnfold(p, n, free + 1);
    SavedUnfold(p, n, free);
    forall k: nat | k < free + n + 1 ensures a(k) == f(k) + b(k) {
      HelpedTerm(p, n, free, k);
    }
    SumAdd(free + n + 1, f, b, a);
    NoTermAt(p, n, free, free + n);
    SumStep(free + n, b);
  }

  lemma NoTermAt(p: seq<real>, n: nat, free: nat, k: nat)
    requires 0 < n && free + n <= k
    ensures SavedTerms(p, n, free)(k) == 0.0
  {}

  lemma HelpedTerm(p: seq<real>, n: nat, free: nat, k: nat)
    requires 0 < n && 0 < free && k <= free + n
    ensures SavedTerms(p, n, free + 1)(k) == At(p, k) * Helped(p, n, free)(k) + SavedTerms(p, n, free)(k)
  {
    hide Saved, SavedTerms;
    SavedTermAt(p, n, free + 1, k);
    if k < free + n {
      SavedTermAt(p, n, free, k);
      DistributeMinus(At(p, k), Saved(p, Needs(n, free + 1, k), Room(free + 1, k)), Saved(p, Needs(n, free, k), Room(free, k)));
    } else {
      NoTermAt(p, n, free, k);
    }
  }

  lemma NothingNeeded(p: seq<real>, free: nat)
    ensures Saved(p, 0, free) == 1.0
  {}

  /** With one refresh to wait for, k free places save the entry from k insertions. */
  lemma OneNeeded(p: seq<real>, free: nat)
    ensures Saved(p, 1, free + 1) - Saved(p, 1, free) == At(p, free + 1)
  {
    var a, b := SavedTerms(p, 1, free + 1), SavedTerms(p, 1, free);
    forall k: nat | k < free + 1 ensures a(k) == b(k) {
      SavedTermAt(p, 1, free + 1, k);
      SavedTermAt(p, 1, free, k);
    }
    SavedTermAt(p, 1, free + 1, free + 1);
    SumCong(free + 1, a, b);
    SumStep(free + 1, a);
  }

  lemma {:induction false} MoreRoom(w: nat, n: nat, free: nat)
    requires 16 <= w && 0 < free
    ensures var p := CountDist(Inverse(w), w); Saved(p, n, free) <= Saved(p, n, free + 1)
    decreases n
  {
    hide *;
    var p := CountDist(Inverse(w), w);
    if n == 0 {
      NothingNeeded(p, free);
      NothingNeeded(p, free + 1);
    } else {
      var x := Helped(p, n, free);
      WindowIsBalanced(w);
      HelpedSum(p, n, free);
      forall k: nat | k <= free ensures 0.0 <= x(k) {
        HelpedAt(p, n, free, k);
        MoreRoom(w, n - 1, free - k + 1);
        assert free - k + 1 + 1 == free - k + 2;
      }
      HelpedSigns(p, n, free);
      var f := (k: nat) => At(p, k) * Helped(p, n, free)(k);
      CountsOf(w, free + n + 1, x, f);
      if n == 1 {
        NonNegativeAverage(w, w, free + n + 1, x);
      } else {
        BumpedAverage(w, w, x, free + n - 1, Tail(p, 2), free + n + 1);
      }
    }
  }

  lemma CountsOf(w: nat, bound: nat, x: nat -> real, f: nat -> real)
    requires 2 <= w && forall k: nat :: f(k) == At(CountDist(Inverse(w), w), k) * x(k)
    ensures Sum(bound, f) == Sum(bound, Weighed(Inverse(w), w, x))
  {
    hide Sum, CountDist, CountWeight, Inverse;
    forall k: nat ensures f(k) == Weighed(Inverse(w), w, x)(k) { CellIsCount(Inverse(w), w, k); }
    SumCong(bound, f, Weighed(Inverse(w), w, x));
  }

  lemma HelpedSigns(p: seq<real>, n: nat, free: nat)
    requires Balanced(p) && 0 < n && 0 < free
    requires forall k: nat :: k <= free ==> 0.0 <= Helped(p, n, free)(k)
    ensures n == 1 ==> forall k: nat :: 0.0 <= Helped(p, n, free)(k)
    ensures 2 <= n ==> Bumped(Helped(p, n, free), free + n - 1, Tail(p, 2))
  {
    hide Gain, Saved, Tail, Balanced, Helped;
    var x := Helped(p, n, free);
    Bounds(p);
    forall k: nat | free < k && (n == 1 || k != free + n - 1) ensures 0.0 <= x(k) {
      HelpedAt(p, n, free, k);
      if k < free + n { GainPositive(p, free + n - k); }
    }
    if 2 <= n {
      HelpedAt(p, n, free, free + n - 1);
      HelpedAt(p, n, free, free + n);
      HelpedAt(p, n, free, free + n - 2);
      FirstGain(p);
      SecondGain(p);
      if n == 2 { OneNeeded(p, 1); }
    }
  }

  // ----- the entries of the loop

  /** The survival weight of the newest of `size` entries after k insertions. */
  function Keeps(p: seq<real>, cap: nat, size: nat): nat -> real
    requires 1 <= size <= cap
  {
    (k: nat) => if k < cap then Saved(p, Needs(size, cap - size, k), Room(cap - size, k)) else 0.0
  }

  lemma GivenIsKept(q: real, cap: nat, w: nat, size: nat, m: nat, k: nat)
    requires 0.0 <= q <= 1.0 && 1 <= size <= cap <= m
    ensures GivenCount(q, cap, w, size, m)(k) == 1.0 - Keeps(CountDist(q, w), cap, size)(k)
  {
    hide Saved, LossWeight, CountDist, Distribution, AfterWindow;
    var p, full := CountDist(q, w), cap - 1;
    CountDistIsDistribution(q, w);
    if k <= full {
      NothingNeeded(p, Room(cap - size, k));
      if 1 < size && k < full {
        var next := AfterWindow(cap, size - 1, size, k);
        NextState(cap, size - 1, size, k);
        LossIsUnsaved(p, cap, next.1, next.0, m);
      }
    }
  }

  function Effects(p: seq<real>, cap: nat, size: nat): nat -> real
    requires 1 <= size <= cap
  {
    (k: nat) => Minus(Keeps(p, cap, size)(k), Keeps(p, cap, size)(k + 1))
  }

  function Minus(x: real, y: real): real {
    x - y
  }

  lemma MinusIs(x: real, y: real)
    ensures Minus(x, y) == x - y
  {}

  lemma KeepsAt(p: seq<real>, cap: nat, size: nat, k: nat)
    requires 1 <= size <= cap
    ensures k < cap ==> Keeps(p, cap, size)(k) == Saved(p, Needs(size, cap - size, k), Room(cap - size, k))
    ensures cap <= k ==> Keeps(p, cap, size)(k) == 0.0
  {
    hide Saved;
  }

  /** The effect of one more insertion after k. */
  lemma EffectAt(p: seq<real>, cap: nat, size: nat, k: nat)
    requires 1 <= size <= cap
    ensures k < cap - size ==>
              Effects(p, cap, size)(k) == Saved(p, size - 1, cap - size - k + 1) - Saved(p, size - 1, cap - size - k)
    ensures cap - size <= k < cap - 1 ==> Effects(p, cap, size)(k) == Gain(p, cap - 1 - k)
    ensures k == cap - 1 ==> Effects(p, cap, size)(k) == 1.0
    ensures cap <= k ==> Effects(p, cap, size)(k) == 0.0
  {
    hide *;
    KeepsAt(p, cap, size, k);
    KeepsAt(p, cap, size, k + 1);
    EffectIs(p, cap, size, k);
    if k < cap { StateAfter(size, cap - size, k); }
    if k + 1 < cap { StateAfter(size, cap - size, k + 1); }
    if k == cap - 1 { NothingNeeded(p, Room(cap - size, k)); }
    if cap - size <= k < cap - 1 { GainIs(p, cap - 1 - k); }
  }

  lemma EffectIs(p: seq<real>, cap: nat, size: nat, k: nat)
    requires 1 <= size <= cap
    ensures Effects(p, cap, size)(k) == Keeps(p, cap, size)(k) - Keeps(p, cap, size)(k + 1)
  {
    hide Keeps, Minus;
    MinusIs(Keeps(p, cap, size)(k), Keeps(p, cap, size)(k + 1));
  }

  lemma StateAfter(size: nat, free: nat, k: nat)
    requires 0 < size && k < free + size
    ensures k <= free ==> Needs(size, free, k) == size - 1 && (k < free ==> Room(free, k) == free - k + 1)
    ensures free <= k ==> Needs(size, free, k) == size + free - 1 - k && Room(free, k) == 1
  {}

  lemma GainIs(p: seq<real>, n: nat)
    requires 0 < n
    ensures Gain(p, n) == Saved(p, n, 1) - Saved(p, n - 1, 1)
  {
    hide Saved;
  }

  lemma EffectSigns(w: nat, cap: nat, size: nat)
    requires 16 <= w && 1 <= size <= cap
    ensures var x := Effects(CountDist(Inverse(w), w), cap, size);
            && (size == 1 ==> forall k: nat :: 0.0 <= x(k))
            && (2 <= size && 3 <= cap ==> Bumped(x, cap - 2, Tail(CountDist(Inverse(w), w), 2)))
  {
    hide Gain, Saved, Tail, Balanced, Effects, CountDist, Inverse;
    var p, free := CountDist(Inverse(w), w), cap - size;
    var x := Effects(p, cap, size);
    WindowIsBalanced(w);
    Bounds(p);
    forall k: nat | size == 1 || k + 2 != cap ensures 0.0 <= x(k) {
      EffectAt(p, cap, size, k);
      if k < free { MoreRoom(w, size - 1, free - k); }
      else if k < cap - 1 { GainPositive(p, cap - 1 - k); }
    }
    if 2 <= size && 3 <= cap {
      EffectAt(p, cap, size, cap - 3);
      EffectAt(p, cap, size, cap - 2);
      EffectAt(p, cap, size, cap - 1);
      FirstGain(p);
      SecondGain(p);
      if size == 2 { OneNeeded(p, 1); }
    }
  }

  lemma EffectsAre(q: real, cap: nat, w: nat, size: nat, m: nat, n: nat, k: nat)
    requires 0.0 <= q <= 1.0 && 1 <= size <= cap <= m
    ensures CountTerms(q, n, Increase(GivenCount(q, cap, w, size, m)))(k)
         == Weighed(q, n, Effects(CountDist(q, w), cap, size))(k)
  {
    hide *;
    var g, x := GivenCount(q, cap, w, size, m), Effects(CountDist(q, w), cap, size);
    GivenIsKept(q, cap, w, size, m, k);
    GivenIsKept(q, cap, w, size, m, k + 1);
    EffectIs(CountDist(q, w), cap, size, k);
    TermsAt(q, n, Increase(g), x, k);
    IncreaseAt(g, k);
  }

  lemma TermsAt(q: real, n: nat, g: nat -> real, x: nat -> real, k: nat)
    ensures CountTerms(q, n, g)(k) == CountWeight(q, n, k) * g(k) && Weighed(q, n, x)(k) == CountWeight(q, n, k) * x(k)
  {
    hide CountWeight;
  }

  lemma AveragedEffects(q: real, cap: nat, w: nat, size: nat, m: nat, n: nat, bound: nat)
    requires 0.0 <= q <= 1.0 && 1 <= size <= cap <= m && n + 1 <= bound
    ensures Averaged(q, n, Increase(GivenCount(q, cap, w, size, m)))
         == Sum(bound, Weighed(q, n, Effects(CountDist(q, w), cap, size)))
  {
    hide *;
    var g, f := Increase(GivenCount(q, cap, w, size, m)), Weighed(q, n, Effects(CountDist(q, w), cap, size));
    AveragedIs(q, n, g);
    ExpectOfCount(q, n, g);
    forall k: nat ensures CountTerms(q, n, g)(k) == f(k) { EffectsAre(q, cap, w, size, m, n, k); }
    SumCong(n + 1, CountTerms(q, n, g), f);
    forall k: nat | n + 1 <= k < bound ensures f(k) == 0.0 { NotWeighed(q, n, Effects(CountDist(q, w), cap, size), k); }
    SumExtend(n + 1, bound, f);
  }

  lemma AveragedIs(q: real, n: nat, g: nat -> real)
    ensures Averaged(q, n, g) == Expect(Bernoulli(q), n, OfCount(g))
  {}

  lemma NotWeighed(q: real, n: nat, x: nat -> real, k: nat)
    requires n < k
    ensures Weighed(q, n, x)(k) == 0.0
  {
    CountOutside(q, n, k);
  }

  /** One more activation to see never helps an entry on average, and hurts it if it can fill the queue. */
  lemma EffectNotNegative(w: nat, cap: nat, size: nat, m: nat, n: nat)
    requires 16 <= w && 1 <= size <= cap <= m && (3 <= cap || size == 1)
    ensures var a := Averaged(Inverse(w), n, Increase(GivenCount(Inverse(w), cap, w, size, m)));
            0.0 <= a && (cap <= n + 1 ==> 0.0 < a)
  {
    hide *;
    var q, x, bound := Inverse(w), Effects(CountDist(Inverse(w), w), cap, size), n + cap + 1;
    InverseIs(w);
    EffectSigns(w, cap, size);
    AveragedEffects(q, cap, w, size, m, n, bound);
    if size == 1 {
      NonNegativeAverage(w, n, bound, x);
      if cap <= n + 1 {
        EffectAt(CountDist(q, w), cap, size, cap - 1);
        CountPositive(q, n, cap - 1);
        PositiveAverage(w, n, bound, x, cap - 1);
      }
    } else {
      BumpedAverage(w, n, x, cap - 2, Tail(CountDist(q, w), 2), bound);
    }
  }

  lemma NonNegativeAverage(w: nat, n: nat, bound: nat, x: nat -> real)
    requires 2 <= w && forall k: nat :: 0.0 <= x(k)
    ensures forall k: nat :: 0.0 <= Weighed(Inverse(w), n, x)(k)
    ensures 0.0 <= Sum(bound, Weighed(Inverse(w), n, x))
  {
    hide Sum, CountWeight, Inverse;
    InverseIs(w);
    forall k: nat ensures 0.0 <= Weighed(Inverse(w), n, x)(k) {
      CountNonNeg(Inverse(w), n, k);
      ProductNonNeg(CountWeight(Inverse(w), n, k), x(k));
    }
    SumNonNeg(bound, Weighed(Inverse(w), n, x));
  }

  lemma PositiveAverage(w: nat, n: nat, bound: nat, x: nat -> real, i: nat)
    requires 2 <= w && i < bound && 0.0 < CountWeight(Inverse(w), n, i) && x(i) == 1.0
    requires forall k: nat :: 0.0 <= Weighed(Inverse(w), n, x)(k)
    ensures 0.0 < Sum(bound, Weighed(Inverse(w), n, x))
  {
    hide Sum, CountWeight, Inverse;
    SumPositive(bound, i, Weighed(Inverse(w), n, x));
  }

  // ----- two places, at every probability and every window

  lemma TwoPlaces(q: real, w: nat, m: nat)
    requires 0.0 < q < 1.0 && 1 <= w && 2 <= m
    ensures var g, t := GivenCount(q, 2, w, 2, m), Tail(CountDist(q, w), 2);
            && g(0) == t && g(1) == 0.0 && (forall k: nat :: 2 <= k ==> g(k) == 1.0)
            && 0.0 <= t < 1.0
            && WholeWindows(q, 2, w, 2, m) == t + CountWeight(q, w, 0) * t
  {
    hide Tail, CountDist, CountWeight, WholeWindows, LossWeight, EntryLoss, Sum;
    var p := CountDist(q, w);
    LoneEntry(q, 2, w, w, m);
    GivenNone(q, 2, w, 2, m);
    CountDistIsDistribution(q, w);
    TailNonNeg(p, 2);
    TailStep(p, 0);
    TailStep(p, 1);
    CellIsCount(q, w, 0);
    CellIsCount(q, w, 1);
    CountPositive(q, w, 0);
    CountNonNeg(q, w, 1);
    WholeWindowsIs(q, 2, w, 2, m);
    WholeWindowsIs(q, 2, w, 1, m);
    LossWeightStep(p, 2, 2, 1, m - 1);
    var f := Survivors(p, 2, 2, 1, m - 1);
    SumStep(0, f);
    assert AfterWindow(2, 1, 2, 0) == (0, 1);
    HorizonIrrelevant(p, 2, 1, 0, m - 1, m);
  }

  function AtTwo(q: real, w: nat, m: nat): nat -> real {
    GivenCount(q, 2, w, 2, m)
  }

  /** The average effect of one more insertion, once it is not negative, stays so. */
  lemma StaysNonNegative(q: real, w: nat, m: nat, n: nat)
    requires 0.0 < q < 1.0 && 1 <= w && 2 <= m && 0.0 <= Averaged(q, n, Increase(AtTwo(q, w, m)))
    ensures 0.0 <= Averaged(q, n + 1, Increase(AtTwo(q, w, m)))
  {
    hide *;
    var x := Increase(AtTwo(q, w, m));
    AtTwoIs(q, w, m);
    TwoPlaces(q, w, m);
    AveragedStep(q, n, x);
    forall k: nat ensures 0.0 <= Shift(x)(k) {
      ShiftAt(x, k);
      IncreaseAt(AtTwo(q, w, m), k + 1);
    }
    AverageNonNegative(q, n, Shift(x));
    ProductNonNeg(1.0 - q, Averaged(q, n, x));
    ProductNonNeg(q, Averaged(q, n, Shift(x)));
  }

  lemma ShiftAt(x: nat -> real, k: nat)
    ensures Shift(x)(k) == x(k + 1)
  {}

  lemma AverageNonNegative(q: real, n: nat, x: nat -> real)
    requires 0.0 <= q <= 1.0 && forall k: nat :: 0.0 <= x(k)
    ensures 0.0 <= Averaged(q, n, x)
  {
    hide Expect, Distribution;
    BernoulliIsDistribution(q);
    forall bits: seq<nat> ensures 0.0 <= OfCount(x)(bits) { assert 0.0 <= x(Ones(bits)); }
    ExpectNonNeg(Bernoulli(q), n, OfCount(x));
  }

  lemma {:induction false} Rising(q: real, w: nat, m: nat, n: nat, l: nat)
    requires 0.0 < q < 1.0 && 1 <= w && 2 <= m && 0.0 <= Averaged(q, n, Increase(AtTwo(q, w, m)))
    ensures Averaged(q, n, AtTwo(q, w, m)) <= Averaged(q, n + l, AtTwo(q, w, m))
    ensures 0.0 <= Averaged(q, n + l, Increase(AtTwo(q, w, m)))
    decreases l
  {
    hide *;
    if l != 0 {
      Rising(q, w, m, n, l - 1);
      StaysNonNegative(q, w, m, n + (l - 1));
      OneMoreActivation(q, n + (l - 1), AtTwo(q, w, m));
      ProductNonNeg(q, Averaged(q, n + (l - 1), Increase(AtTwo(q, w, m))));
      assert n + (l - 1) + 1 == n + l;
    }
  }

  lemma {:induction false} Falling(q: real, w: nat, m: nat, n: nat)
    requires 0.0 < q < 1.0 && 1 <= w && 2 <= m && Averaged(q, n, Increase(AtTwo(q, w, m))) < 0.0
    ensures Averaged(q, n, AtTwo(q, w, m)) <= Averaged(q, 0, AtTwo(q, w, m))
    decreases n
  {
    hide *;
    if n != 0 {
      if 0.0 <= Averaged(q, n - 1, Increase(AtTwo(q, w, m))) { StaysNonNegative(q, w, m, n - 1); }
      Falling(q, w, m, n - 1);
      OneMoreActivation(q, n - 1, AtTwo(q, w, m));
      ProductNonNeg(q, -Averaged(q, n - 1, Increase(AtTwo(q, w, m))));
      Negative(q, Averaged(q, n - 1, Increase(AtTwo(q, w, m))));
    }
  }

  lemma Negative(x: real, y: real)
    ensures x * -y == -(x * y)
  {}

  /** The last activation of a window of w hurts, at probability 1 / w. */
  lemma LastEffect(w: nat, m: nat)
    requires 2 <= w && 2 <= m
    ensures 0.0 < Averaged(Inverse(w), w - 1, Increase(AtTwo(Inverse(w), w, m)))
  {
    hide *;
    var q, n := Inverse(w), w - 1;
    var x, t := Increase(AtTwo(q, w, m)), Tail(CountDist(q, w), 2);
    InverseIs(w);
    AtTwoIs(q, w, m);
    TwoPlaces(q, w, m);
    AveragedIs(q, n, x);
    ExpectOfCount(q, n, x);
    var f := CountTerms(q, n, x);
    forall k: nat ensures f(k) == CountWeight(q, n, k) * x(k) && x(k) == (if k == 0 then -t else if k == 1 then 1.0 else 0.0) {
      TermsAt(q, n, x, x, k);
      IncreaseAt(AtTwo(q, w, m), k);
    }
    SumExtend(2, n + 1, f);
    SumStep(0, f);
    SumStep(1, f);
    NextCount(w, n, 0);
    CountPositive(q, n, 0);
    LastTerms((w - 1) as real, CountWeight(q, n, 0), CountWeight(q, n, 1), t);
  }

  lemma AtTwoIs(q: real, w: nat, m: nat)
    ensures AtTwo(q, w, m) == GivenCount(q, 2, w, 2, m)
  {}

  lemma LastTerms(v: real, a: real, b: real, t: real)
    requires 1.0 <= v && 0.0 < a && 1.0 * (v * b) == v * a && t < 1.0
    ensures 0.0 < a * -t + b * 1.0
  {
    DistributeMinus(v, b, a);
    ZeroFactor(v, b - a);
    ProductPositive(a, 1.0 - t);
    DistributeMinus(a, 1.0, t);
    Negative(a, t);
  }

  /** With two places, no entry of the loop is lost more often than the recursion says. */
  lemma BoundAtTwo(q: real, w: nat, k: nat, m: nat)
    requires 0.0 < q < 1.0 && 1 <= k <= w && 2 <= m
    ensures EntryLoss(q, 2, w, k, 2, m) <= WholeWindows(q, 2, w, 2, m)
    ensures 2 <= w && q == Inverse(w) ==> EntryLoss(q, 2, w, k, 2, m) < WholeWindows(q, 2, w, 2, m)
  {
    hide *;
    var g, n := AtTwo(q, w, m), w - k;
    AtTwoIs(q, w, m);
    TwoPlaces(q, w, m);
    EntryLossSplit(q, 2, w, k, 2, m);
    WholeAverage(q, 2, w, 2, m);
    AveragedNone(q, g);
    CountPositive(q, w, 0);
    if Averaged(q, n, Increase(g)) < 0.0 {
      Falling(q, w, m, n);
      ProductNonNeg(CountWeight(q, w, 0), Tail(CountDist(q, w), 2));
      if 2 <= w && q == Inverse(w) {
        TwoCanHappen(q, w);
        ProductPositive(CountWeight(q, w, 0), Tail(CountDist(q, w), 2));
      }
    } else {
      Rising(q, w, m, n, k);
      assert n + k == w;
      if 2 <= w && q == Inverse(w) {
        Rising(q, w, m, n, k - 1);
        assert n + (k - 1) == w - 1;
        LastEffect(w, m);
        OneMoreActivation(q, w - 1, g);
        ProductPositive(q, Averaged(q, w - 1, Increase(g)));
      }
    }
  }

  lemma TwoCanHappen(q: real, w: nat)
    requires 0.0 < q < 1.0 && 2 <= w
    ensures 0.0 < Tail(CountDist(q, w), 2)
  {
    TailPositive(q, w, 2);
  }

  lemma WholeAverage(q: real, cap: nat, w: nat, size: nat, m: nat)
    requires 0.0 <= q <= 1.0 && 1 <= w && 1 <= size <= cap <= m
    ensures WholeWindows(q, cap, w, size, m) == Averaged(q, w, GivenCount(q, cap, w, size, m))
  {
    hide *;
    CountDistIsDistribution(q, w);
    HorizonIrrelevant(CountDist(q, w), cap, size, size - 1, m, m + 1);
    WholeWindowsIs(q, cap, w, size, m);
    WholeWindowSplit(q, cap, w, size, m);
  }

  // ----- the bound

  /** No entry of the simulation loop is lost more often than in whole windows, and every entry is lost
      less often if a window can fill the queue. */
  lemma WholeWindowsBound(w: nat, cap: nat, k: nat, size: nat, m: nat)
    requires 16 <= w && 1 <= k <= w && 1 <= size <= cap <= m
    ensures EntryLoss(Inverse(w), cap, w, k, size, m) <= WholeWindows(Inverse(w), cap, w, size, m)
    ensures cap <= w ==> EntryLoss(Inverse(w), cap, w, k, size, m) < WholeWindows(Inverse(w), cap, w, size, m)
  {
    hide *;
    var q := Inverse(w);
    InverseIs(w);
    if cap == 2 && size == 2 {
      BoundAtTwo(q, w, k, m);
    } else {
      var g := GivenCount(q, cap, w, size, m);
      var f := IncreaseTerms(q, w - k, g);
      WholeWindowExcess(q, cap, w, k, size, m);
      forall i: nat | i < k ensures 0.0 <= f(i) && (cap <= w && i == k - 1 ==> 0.0 < f(i)) {
        IncreaseTermAt(q, w - k, g, i);
        EffectNotNegative(w, cap, size, m, w - k + i);
      }
      SumNonNeg(k, f);
      ProductNonNeg(q, Sum(k, f));
      if cap <= w {
        SumPositive(k, k - 1, f);
        ProductPositive(q, Sum(k, f));
      }
    }
  }

  lemma IncreaseTermAt(q: real, n: nat, g: nat -> real, i: nat)
    ensures IncreaseTerms(q, n, g)(i) == Averaged(q, n + i, Increase(g))
  {}

  /** Below the largest capacity, with the program's own tables, the recursion overstates the loss of
      every entry that the simulation loop can insert. */
  lemma RecursionOverstates(w: nat, cap: nat, k: nat, size: nat, m: nat, probN: seq<real>, cprobN: seq<real>)
    requires MAX_SIZE <= w <= LARGEST && Computed(w, Inverse(w), probN, cprobN)
    requires 1 <= k <= w && 1 <= size <= cap < MAX_SIZE && cap <= m
    ensures |probN| == |cprobN| == MAX_SIZE + 1
    ensures EntryLoss(Inverse(w), cap, w, k, size, m) < LossRec(probN, cprobN, cap, size - 1, size)
  {
    hide *;
    MaxSizeIs();
    InverseIs(w);
    ComputedTables(w, Inverse(w), probN, cprobN);
    RecursionIsWholeWindows(Inverse(w), cap, w, size, m, probN, cprobN);
    WholeWindowsBound(w, cap, k, size, m);
  }

  /** So it never gives the losses of all of them, at the largest capacity neither. */
  lemma RecursionNeverFits(w: nat, cap: nat, m: nat, probN: seq<real>, cprobN: seq<real>)
    requires MAX_SIZE <= w <= LARGEST && Computed(w, Inverse(w), probN, cprobN)
    requires 1 <= cap <= MAX_SIZE && cap <= m
    ensures |probN| == |cprobN| == MAX_SIZE + 1
    ensures !RecursionFits(Inverse(w), cap, w, m, probN, cprobN)
  {
    hide *;
    MaxSizeIs();
    InverseIs(w);
    ComputedTables(w, Inverse(w), probN, cprobN);
    RecursionFitsSimulator(Inverse(w), cap, w, m, probN, cprobN);
  }

  /** The activation that an entry at the first position does not see would hurt it. */
  lemma FirstExcessPositive(w: nat, cap: nat, m: nat, s: nat)
    requires 16 <= w && s < cap <= w && cap <= m
    ensures 0.0 < FirstExcess(Inverse(w), cap, w, m)(s)
  {
    hide *;
    InverseIs(w);
    FirstPosition(Inverse(w), cap, w, m, s);
    WholeWindowsBound(w, cap, 1, s + 1, m);
  }

  /** Below the largest capacity the printed number is above the long-run loss of the entries that the
      first activation of a window inserts. */
  lemma PrintedBoundsFirst(w: nat, cap: nat, m: nat, probN: seq<real>, cprobN: seq<real>)
    requires MAX_SIZE <= w <= LARGEST && Computed(w, Inverse(w), probN, cprobN)
    requires 2 <= cap < MAX_SIZE && cap <= m
    ensures |probN| == |cprobN| == MAX_SIZE + 1
    ensures LongRunLoss(Inverse(w), cap, w, 1, m) < Printed(probN, cprobN, cap)
  {
    hide *;
    var q, p := Inverse(w), CountDist(Inverse(w), w);
    MaxSizeIs();
    InverseIs(w);
    ComputedTables(w, q, probN, cprobN);
    PrintedExcess(q, cap, w, m, probN, cprobN);
    CountDistIsDistribution(q, w);
    SteadyKeepsWeight(p, cap);
    forall s: nat | s < cap ensures 0.0 < FirstExcess(q, cap, w, m)(s) { FirstExcessPositive(w, cap, m, s); }
    PositiveMixture(Steady(p, cap), FirstExcess(q, cap, w, m));
  }

  // ----- two places

  /** The fixed point of the two-state chain of a window. */
  function Stable(p: seq<real>): real
    requires At(p, 1) != 1.0
  {
    At(p, 0) / (1.0 - At(p, 1))
  }

  lemma StableRange(a: real, b: real)
    requires 0.3529 <= a <= 0.3713 && 0.3678 <= b <= 0.3808
    ensures 0.5582 <= a / (1.0 - b) <= 0.5998
  {
    RatioBetween(0.5582, a, 0.5998, 1.0 - b);
  }

  lemma RatioBetween(lo: real, a: real, hi: real, d: real)
    requires 0.0 < d && lo * d <= a <= hi * d
    ensures lo <= a / d <= hi
  {
    var s := a / d;
    assert s * d == a;
    if s < lo { ProductPositive(lo - s, d); }
    if hi < s { ProductPositive(s - hi, d); }
  }

  /** For every window the 1000 passes over two states end within a tenth of the thousandth power of a number
      below 0.381 of the vector that a pass leaves alone, and that vector starts with 0.558 to 0.6. */
  lemma TwoStatesSettle(w: nat)
    requires 16 <= w
    ensures At(CountDist(Inverse(w), w), 1) < 0.381
    ensures var p := CountDist(Inverse(w), w);
            && StepDist(p, [Stable(p), 1.0 - Stable(p)]) == [Stable(p), 1.0 - Stable(p)]
            && Abs(Steady(p, 2)[0] - Stable(p)) <= 0.1 * Pow(At(p, 1), 1000)
            && 0.5582 <= Stable(p) <= 0.5998
  {
    hide *;
    var p := CountDist(Inverse(w), w);
    WindowIsBalanced(w);
    Bounds(p);
    StableIs(p);
    StableRange(At(p, 0), At(p, 1));
    StableStays(p);
    SteadyIsClosedForm(p);
    assert At(p, 1) != 1.0;
    PowPos(At(p, 1), 1000);
    SettleGap(Steady(p, 2)[0], Stable(p), Pow(At(p, 1), 1000));
  }

  lemma StableIs(p: seq<real>)
    requires At(p, 1) != 1.0
    ensures Stable(p) == At(p, 0) / (1.0 - At(p, 1))
    ensures TwoStates(At(p, 0), At(p, 1), 1000) == Stable(p) + (0.5 - Stable(p)) * Pow(At(p, 1), 1000)
    ensures Stable(p) == At(p, 0) + Stable(p) * At(p, 1)
  {
    hide Pow, At;
    assert Stable(p) * (1.0 - At(p, 1)) == At(p, 0);
  }

  lemma SettleGap(m: real, s: real, x: real)
    requires 0.5582 <= s <= 0.5998 && 0.0 < x && m == s + (0.5 - s) * x
    ensures Abs(m - s) <= 0.1 * x
  {
    ProductMono(s - 0.5, 0.1, x);
    ProductNonNeg(s - 0.5, x);
    var d := (s - 0.5) * x;
    assert (0.5 - s) * x == -d;
    assert m - s == -d && 0.0 <= d <= 0.1 * x;
  }

  lemma OwnTable(p: seq<real>, n: nat)
    ensures Agrees(p, p, n)
  {}

  lemma StepLength(e: (nat, nat) -> real, v: seq<real>)
    ensures |StepWith(e, v)| == |v|
  {}

  lemma StableStays(p: seq<real>)
    requires Distribution(p) && At(p, 1) != 1.0
    ensures StepDist(p, [Stable(p), 1.0 - Stable(p)]) == [Stable(p), 1.0 - Stable(p)]
  {
    hide StepWith, Transition, Stable, At, Agrees, Distribution;
    var v := [Stable(p), 1.0 - Stable(p)];
    OwnTable(p, 2);
    StepFilled(p, p, v);
    TwoStateStep(p, v);
    StableIs(p);
    var next := StepWith(Transition(p, 2), v);
    assert |next| == 2 by { StepLength(Transition(p, 2), v); }
    assert next[0] == v[0] && next[1] == v[1];
  }

  lemma SteadyIsClosedForm(p: seq<real>)
    requires Distribution(p) && At(p, 1) != 1.0
    ensures Steady(p, 2)[0] == TwoStates(At(p, 0), At(p, 1), 1000)
  {
    hide IterateWith, Iterate, Transition, TwoStates, Agrees, Distribution, At;
    OwnTable(p, 2);
    IterateFilled(p, p, Uniform(2), ITERATIONS);
    SteadyOfTwo(p);
  }

  lemma {:induction false} PowSmall(b: real, n: nat)
    requires 0.0 <= b <= 0.4 && 3 <= n
    ensures 0.0 <= Pow(b, n) <= 0.064
  {
    if n == 3 {
      assert Pow(b, 1) == b * Pow(b, 0) == b;
      assert Pow(b, 2) == b * Pow(b, 1);
      assert Pow(b, 3) == b * Pow(b, 2);
      ProductBetween(0.0, b, 0.4, 0.0, b, 0.4);
      ProductBetween(0.0, b, 0.4, 0.0, b * b, 0.16);
    } else {
      PowSmall(b, n - 1);
      ProductBetween(0.0, b, 0.4, 0.0, Pow(b, n - 1), 0.064);
    }
  }

  lemma TablesAt(p: seq<real>, probN: seq<real>, cprobN: seq<real>)
    requires Tables(p, probN, cprobN)
    ensures |probN| == |cprobN| == MAX_SIZE + 1
    ensures probN[0] == At(p, 0) && probN[1] == At(p, 1) && cprobN[2] == Tail(p, 2)
  {
    hide At, Tail;
  }

  lemma LossForTwoBetween(a: real, b: real, t: real, s: real, x: real)
    requires b != 1.0 && Abs(TwoStates(a, b, 1000) - s) <= 0.1 * x
    requires 0.5582 <= s <= 0.5998 && 0.0 <= x <= 0.064
    requires 0.3529 <= a <= 0.3713 && 0.2555 <= t <= 0.2707
    ensures 0.29 <= LossForTwo(a, b, t) <= 0.316
  {
    hide TwoStates;
    var y := 1.0 - TwoStates(a, b, 1000);
    assert 0.3938 <= y <= 0.4482;
    ProductBetween(0.3938, y, 0.4482, 0.3529, a, 0.3713);
    var u := 1.0 + y * a;
    ProductBetween(0.2555, t, 0.2707, 1.138, u, 1.1665);
    assert LossForTwo(a, b, t) == t * u;
  }

  lemma ProductBetween(lx: real, x: real, hx: real, ly: real, y: real, hy: real)
    requires 0.0 <= lx <= x <= hx && 0.0 <= ly <= y <= hy
    ensures lx * ly <= x * y <= hx * hy
  {
    ProductMono(lx, x, ly);
    ProductMono(ly, y, x);
    ProductMono(x, hx, y);
    ProductMono(y, hy, hx);
  }

  lemma LossForTwoRange(w: nat)
    requires 16 <= w
    ensures var p := CountDist(Inverse(w), w);
            At(p, 1) < 0.381 && 0.29 <= LossForTwo(At(p, 0), At(p, 1), Tail(p, 2)) <= 0.316
  {
    hide *;
    var p := CountDist(Inverse(w), w);
    WindowIsBalanced(w);
    Bounds(p);
    TwoStatesSettle(w);
    SteadyIsClosedForm(p);
    PowSmall(At(p, 1), 1000);
    LossForTwoBetween(At(p, 0), At(p, 1), Tail(p, 2), Stable(p), Pow(At(p, 1), 1000));
  }

  /** The number printed for two places lies between 0.29 and 0.316 for every window on which the program
      returns. */
  lemma PrintedForTwoRange(w: nat, probN: seq<real>, cprobN: seq<real>)
    requires MAX_SIZE <= w <= LARGEST && Computed(w, Inverse(w), probN, cprobN)
    ensures |probN| == |cprobN| == MAX_SIZE + 1
    ensures 0.29 <= Printed(probN, cprobN, 2) <= 0.316
  {
    hide *;
    MaxSizeIs();
    InverseIs(w);
    var q, p := Inverse(w), CountDist(Inverse(w), w);
    ComputedTables(w, q, probN, cprobN);
    TableLength(p, probN, cprobN);
    TablesAt(p, probN, cprobN);
    WindowIsBalanced(w);
    Bounds(p);
    PrintedForTwo(probN, cprobN);
    LossForTwoRange(w);
  }

  lemma PositiveMixture(v: seq<real>, f: nat -> real)
    requires Distribution(v) && forall s: nat :: s < |v| ==> 0.0 < f(s)
    ensures 0.0 < Sum(|v|, MixTerms(v, f))
  {
    hide Sum;
    var n := |v|;
    forall s: nat | s < n ensures 0.0 <= MixTerms(v, f)(s) {
      assert 0.0 <= v[s];
      ProductNonNeg(v[s], f(s));
    }
    if forall s: nat :: s < n ==> Weights(v)(s) == 0.0 {
      SumZero(n, Weights(v));
    } else {
      var s: nat :| s < n && Weights(v)(s) != 0.0;
      assert v[s] != 0.0 && 0.0 <= v[s];
      ProductPositive(v[s], f(s));
      SumPositive(n, s, MixTerms(v, f));
    }
  }

  /** The number of activations matters: with two of them, three places and probability 1 / 2, the entry
      that the first activation inserts as the third is lost with weight 3/16 instead of 5/32. */
  lemma TwoActivationsExceed(m: nat)
    requires 3 <= m
    ensures EntryLoss(Inverse(2), 3, 2, 1, 3, m) == 3.0 / 16.0 && WholeWindows(Inverse(2), 3, 2, 3, m) == 5.0 / 32.0
  {
    hide EntryLoss, WholeWindows, LossRec, Tail, CountDist;
    var p := CountDist(0.5, 2);
    var probN := seq(MAX_SIZE + 1, (i: nat) => At(p, i));
    var cprobN := seq(MAX_SIZE + 1, (i: nat) => if i < MAX_SIZE then Tail(p, i) else 0.0);
    HalfEntry(probN, cprobN, m);
    RecursionIsWholeWindows(0.5, 3, 2, 3, m, probN, cprobN);
  }
}
