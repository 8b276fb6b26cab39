/** Finite sums of reals, the exact counterpart of the accumulation loops in the analytical model.
    The lemmas here are the rules of the sum sign: congruence, linearity, order, splitting and the
    exchange of two sums.  Products of two factors come with them, so that proofs elsewhere need no
    reasoning about products of their own. */
module RealSums {

  /** f(0) + f(1) + ... + f(n-1) */
  function Sum(n: nat, f: nat -> real): real {
    if n == 0 then 0.0 else Sum(n - 1, f) + f(n - 1)
  }

  /** b to the power e, by repeated multiplication; stands for `pow` and for `exp(e * log(b))`. */
  function Pow(b: real, e: nat): real {
    if e == 0 then 1.0 else b * Pow(b, e - 1)
  }

  lemma SumStep(n: nat, f: nat -> real)
    ensures Sum(0, f) == 0.0
    ensures Sum(n + 1, f) == Sum(n, f) + f(n)
  {}

  lemma {:induction false} SumCong(n: nat, f: nat -> real, g: nat -> real)
    requires forall k: nat :: k < n ==> f(k) == g(k)
    ensures Sum(n, f) == Sum(n, g)
  {
    if n != 0 { SumCong(n - 1, f, g); }
  }

  lemma {:induction false} SumZero(n: nat, f: nat -> real)
    requires forall k: nat :: k < n ==> f(k) == 0.0
    ensures Sum(n, f) == 0.0
  {
    if n != 0 { SumZero(n - 1, f); }
  }

  lemma {:induction false} SumAdd(n: nat, f: nat -> real, g: nat -> real, h: nat -> real)
    requires forall k: nat :: k < n ==> h(k) == f(k) + g(k)
    ensures Sum(n, h) == Sum(n, f) + Sum(n, g)
  {
    if n != 0 { SumAdd(n - 1, f, g, h); }
  }

  lemma {:induction false} SumScale(n: nat, c: real, f: nat -> real, h: nat -> real)
    requires forall k: nat :: k < n ==> h(k) == c * f(k)
    ensures Sum(n, h) == c * Sum(n, f)
  {
    if n != 0 { SumScale(n - 1, c, f, h); }
  }

  lemma {:induction false} SumMono(n: nat, f: nat -> real, g: nat -> real)
    requires forall k: nat :: k < n ==> f(k) <= g(k)
    ensures Sum(n, f) <= Sum(n, g)
  {
    if n != 0 { SumMono(n - 1, f, g); }
  }

  lemma SumNonNeg(n: nat, f: nat -> real)
    requires forall k: nat :: k < n ==> 0.0 <= f(k)
    ensures 0.0 <= Sum(n, f)
  {
    var zero := (k: nat) => 0.0;
    SumZero(n, zero);
    SumMono(n, zero, f);
  }

  /** One positive term among non-negative ones. */
  lemma {:induction false} SumPositive(n: nat, i: nat, f: nat -> real)
    requires i < n && 0.0 < f(i)
    requires forall k: nat :: k < n ==> 0.0 <= f(k)
    ensures 0.0 < Sum(n, f)
  {
    if i == n - 1 { SumNonNeg(n - 1, f); } else { SumPositive(n - 1, i, f); }
  }

  /** The first m terms plus the remaining ones, re-indexed from zero. */
  lemma {:induction false} SumSplit(m: nat, n: nat, f: nat -> real, g: nat -> real)
    requires forall k: nat :: k < n ==> g(k) == f(m + k)
    ensures Sum(m + n, f) == Sum(m, f) + Sum(n, g)
  {
    if n != 0 {
      SumSplit(m, n - 1, f, g);
      assert Sum(m + n, f) == Sum(m + n - 1, f) + f(m + n - 1);
    }
  }

  /** Zero terms beyond m do not matter. */
  lemma {:induction false} SumExtend(m: nat, n: nat, f: nat -> real)
    requires m <= n
    requires forall k: nat :: m <= k < n ==> f(k) == 0.0
    ensures Sum(n, f) == Sum(m, f)
  {
    if m < n { SumExtend(m, n - 1, f); }
  }

  /** Only one term of the sum is non-zero. */
  lemma {:induction false} SumSingle(n: nat, i: nat, f: nat -> real)
    requires i < n
    requires forall k: nat :: k < n && k != i ==> f(k) == 0.0
    ensures Sum(n, f) == f(i)
  {
    if i == n - 1 { SumZero(n - 1, f); } else { SumSingle(n - 1, i, f); }
  }

  function Across(a: (nat, nat) -> real, i: nat): nat -> real {
    (j: nat) => a(i, j)
  }

  function Down(a: (nat, nat) -> real, j: nat): nat -> real {
    (i: nat) => a(i, j)
  }

  /** Exchange of two finite sums. */
  lemma {:induction false} SumSwap(m: nat, n: nat, a: (nat, nat) -> real, rows: nat -> real, cols: nat -> real)
    requires forall i: nat :: i < m ==> rows(i) == Sum(n, Across(a, i))
    requires forall j: nat :: j < n ==> cols(j) == Sum(m, Down(a, j))
    ensures Sum(m, rows) == Sum(n, cols)
  {
    if m == 0 {
      SumZero(n, cols);
    } else {
      var cols' := (j: nat) => Sum(m - 1, Down(a, j));
      SumSwap(m - 1, n, a, rows, cols');
      SumAdd(n, cols', Across(a, m - 1), cols);
    }
  }

  lemma ProductNonNeg(x: real, y: real)
    requires 0.0 <= x && 0.0 <= y
    ensures 0.0 <= x * y
  {}

  lemma ProductPositive(x: real, y: real)
    requires 0.0 < x && 0.0 < y
    ensures 0.0 < x * y
  {}

  lemma ProductMono(x: real, y: real, c: real)
    requires x <= y && 0.0 <= c
    ensures x * c <= y * c
  {
    ProductNonNeg(y - x, c);
    DistributeDifference(y, x, c);
  }

  lemma DistributeDifference(y: real, x: real, c: real)
    ensures (y - x) * c == y * c - x * c
  {}

  lemma {:induction false} PowPos(b: real, e: nat)
    requires 0.0 < b
    ensures 0.0 < Pow(b, e)
  {
    if e != 0 { PowPos(b, e - 1); }
  }

  lemma {:induction false} PowAdd(b: real, m: nat, n: nat)
    ensures Pow(b, m + n) == Pow(b, m) * Pow(b, n)
  {
    if m != 0 {
      PowAdd(b, m - 1, n);
      assert Pow(b, m + n) == b * Pow(b, m - 1 + n);
    }
  }
}
