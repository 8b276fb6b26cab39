/** The number of insertions in a window: the product form of calc_binomial_prob, the tails that
    `init` accumulates, and their meaning over strings of activations. */
module Binomial {
  import opened RealSums
  import opened Expectation

  /** One activation: 1 inserts with weight q, 0 does not. */
  function Bernoulli(q: real): seq<real> {
    [1.0 - q, q]
  }

  /** The number of insertions in a string of activations. */
  function Ones(bits: seq<nat>): nat {
    if bits == [] then 0 else (if bits[0] == 0 then 0 else 1) + Ones(bits[1..])
  }

  function CountIs(k: int): seq<nat> -> real {
    (bits: seq<nat>) => if Ones(bits) == k then 1.0 else 0.0
  }

  /** The weight of the strings of n activations with exactly k insertions. */
  function CountWeight(q: real, n: nat, k: int): real {
    Expect(Bernoulli(q), n, CountIs(k))
  }

  lemma ExpectBit(q: real, n: nat, f: seq<nat> -> real)
    ensures Expect(Bernoulli(q), n + 1, f)
         == (1.0 - q) * Expect(Bernoulli(q), n, Prefix(f, 0)) + q * Expect(Bernoulli(q), n, Prefix(f, 1))
  {
    var F := FirstDraw(Bernoulli(q), n, f);
    assert Sum(2, F) == Sum(1, F) + F(1);
    assert Sum(1, F) == Sum(0, F) + F(0);
  }

  lemma OnesCons(b: nat, bits: seq<nat>)
    ensures Ones([b] + bits) == (if b == 0 then 0 else 1) + Ones(bits)
  {
    assert ([b] + bits)[1..] == bits;
  }

  lemma PrefixCount(q: real, n: nat, k: int)
    ensures Expect(Bernoulli(q), n, Prefix(CountIs(k), 0)) == CountWeight(q, n, k)
    ensures Expect(Bernoulli(q), n, Prefix(CountIs(k), 1)) == CountWeight(q, n, k - 1)
  {
    forall bits: seq<nat> ensures Prefix(CountIs(k), 0)(bits) == CountIs(k)(bits) {
      OnesCons(0, bits);
    }
    forall bits: seq<nat> ensures Prefix(CountIs(k), 1)(bits) == CountIs(k - 1)(bits) {
      OnesCons(1, bits);
    }
    ExpectCong(Bernoulli(q), n, Prefix(CountIs(k), 0), CountIs(k));
    ExpectCong(Bernoulli(q), n, Prefix(CountIs(k), 1), CountIs(k - 1));
  }

  lemma Pascal(q: real, n: nat, k: int)
    ensures CountWeight(q, n + 1, k) == (1.0 - q) * CountWeight(q, n, k) + q * CountWeight(q, n, k - 1)
  {
    ExpectBit(q, n, CountIs(k));
    PrefixCount(q, n, k);
  }

  lemma {:induction false} CountOutside(q: real, n: nat, k: int)
    requires k < 0 || n < k
    ensures CountWeight(q, n, k) == 0.0
    decreases n
  {
    if n == 0 {
      assert Ones([]) == 0;
    } else {
      Pascal(q, n - 1, k);
      CountOutside(q, n - 1, k);
      if k < 0 || n - 1 < k - 1 { CountOutside(q, n - 1, k - 1); }
    }
  }

  lemma {:induction false} CountNonNeg(q: real, n: nat, k: int)
    requires 0.0 <= q <= 1.0
    ensures 0.0 <= CountWeight(q, n, k)
  {
    if n != 0 {
      Pascal(q, n - 1, k);
      CountNonNeg(q, n - 1, k);
      CountNonNeg(q, n - 1, k - 1);
      var c, d := CountWeight(q, n - 1, k), CountWeight(q, n - 1, k - 1);
      ProductNonNeg(1.0 - q, c);
      ProductNonNeg(q, d);
    }
  }

  // ----- closed form

  function Factorial(n: nat): real {
    if n == 0 then 1.0 else n as real * Factorial(n - 1)
  }

  lemma {:induction false} FactorialPositive(n: nat)
    ensures 0.0 < Factorial(n)
  {
    if n != 0 { FactorialPositive(n - 1); }
  }

  /** The program's unsigned difference. */
  function Minus32(n: nat, k: nat): (r: nat)
    ensures k <= n < 0x1_0000_0000 ==> r == n - k
  {
    (n - k) % 0x1_0000_0000
  }

  const LARGEST: nat := 0xffff_ffff

  /** An unsigned 32-bit counter that starts at 1, after t increments. */
  function Counter(t: nat): nat {
    (1 + t) % 0x1_0000_0000
  }

  /** Does a loop that counts from 1 up to and including the bound come to its end? */
  ghost predicate LoopEnds(bound: nat) {
    exists t: nat :: bound < Counter(t)
  }

  /** It does if and only if the bound is not the largest unsigned number, which no counter exceeds. */
  lemma LoopEndsExactly(bound: nat)
    requires bound <= LARGEST
    ensures LoopEnds(bound) <==> bound != LARGEST
  {
    if bound != LARGEST {
      assert Counter(bound) == bound + 1;
    }
  }

  /** Do the three loops of calc_binomial_prob end? */
  ghost predicate CalcEnds(n: nat, k: nat) {
    LoopEnds(n) && LoopEnds(Minus32(n, k)) && LoopEnds(k)
  }

  /** They do if and only if neither number is the largest and k is not n + 1, where n - k wraps around
      to the largest. */
  lemma CalcEndsExactly(n: nat, k: nat)
    requires n <= LARGEST && k <= LARGEST
    ensures CalcEnds(n, k) <==> n != LARGEST && k != LARGEST && k != n + 1
  {
    LoopEndsExactly(n);
    LoopEndsExactly(k);
    LoopEndsExactly(Minus32(n, k));
    WrapsToLargest(n, k);
  }

  lemma WrapsToLargest(n: nat, k: nat)
    requires n <= LARGEST && k <= LARGEST
    ensures Minus32(n, k) <= LARGEST
    ensures Minus32(n, k) == LARGEST <==> k == n + 1 || (n == LARGEST && k == 0)
  {
    if n < k { assert (n - k) % 0x1_0000_0000 == n - k + 0x1_0000_0000; }
  }

  /** calc_binomial_prob with its sum of logarithms written as the product it stands for. */
  function BinomialProb(n: nat, k: nat, q: real): real {
    var m := Minus32(n, k);
    FactorialPositive(m);
    FactorialPositive(k);
    Factorial(n) / Factorial(m) / Factorial(k) * Pow(q, k) * Pow(1.0 - q, m)
  }

  /** Pascal's triangle. */
  function Choose(n: nat, k: int): real {
    if k < 0 || n < k then 0.0
    else if n == 0 then 1.0
    else Choose(n - 1, k) + Choose(n - 1, k - 1)
  }

  lemma ChooseStep(n: nat, k: nat)
    requires k <= n && 0 < n
    ensures Choose(n, k) == Choose(n - 1, k) + Choose(n - 1, k - 1)
    ensures k == n ==> Choose(n - 1, k) == 0.0
    ensures k == 0 ==> Choose(n - 1, k - 1) == 0.0
  {}

  lemma Base(q: real)
    ensures Choose(0, 0) == 1.0 && Factorial(0) == 1.0 && Pow(q, 0) == 1.0
    ensures CountWeight(q, 0, 0) == 1.0
  {
    assert Ones([]) == 0;
  }

  lemma {:induction false} ChooseFactorials(n: nat, k: nat)
    requires k <= n
    ensures Choose(n, k) * Factorial(k) * Factorial(n - k) == Factorial(n)
  {
    hide *;
    Base(0.0);
    if n != 0 {
      ChooseStep(n, k);
      if k < n { ChooseFactorials(n - 1, k); }
      if 0 < k { ChooseFactorials(n - 1, k - 1); }
      ChooseFactorialsStep(Choose(n - 1, k), Choose(n - 1, k - 1), n, k);
    }
  }

  lemma FactorialStep(n: nat)
    requires 0 < n
    ensures Factorial(n) == n as real * Factorial(n - 1)
  {}

  lemma ChooseFactorialsStep(c: real, d: real, n: nat, k: nat)
    requires k <= n && 0 < n
    requires if k < n then c * Factorial(k) * Factorial(n - 1 - k) == Factorial(n - 1) else c == 0.0
    requires if 0 < k then d * Factorial(k - 1) * Factorial(n - k) == Factorial(n - 1) else d == 0.0
    ensures (c + d) * Factorial(k) * Factorial(n - k) == Factorial(n)
  {
    hide *;
    var F, K, A, x, y := Factorial(n - 1), Factorial(k), Factorial(n - k), (n - k) as real, k as real;
    FactorialStep(n);
    if k < n {
      FactorialStep(n - k);
      GrowRight(c, K, A, Factorial(n - 1 - k), x, F);
    }
    if 0 < k {
      FactorialStep(k);
      GrowLeft(d, K, A, Factorial(k - 1), y, F);
    }
    assert c * K * A == x * F && d * K * A == y * F;
    AddProducts(c, d, K, A, x, y, F);
    assert x + y == n as real;
  }

  lemma GrowRight(c: real, K: real, A: real, A': real, x: real, F: real)
    requires A == x * A' && c * K * A' == F
    ensures c * K * A == x * F
  {}

  lemma GrowLeft(d: real, K: real, A: real, K': real, y: real, F: real)
    requires K == y * K' && d * K' * A == F
    ensures d * K * A == y * F
  {}

  lemma AddProducts(c: real, d: real, K: real, A: real, x: real, y: real, F: real)
    requires c * K * A == x * F && d * K * A == y * F
    ensures (c + d) * K * A == (x + y) * F
  {}

  lemma PowStep(b: real, e: nat)
    requires 0 < e
    ensures Pow(b, e) == b * Pow(b, e - 1)
  {}

  lemma {:induction false} CountWeightChoose(q: real, n: nat, k: nat)
    requires k <= n
    ensures CountWeight(q, n, k) == Choose(n, k) * Pow(q, k) * Pow(1.0 - q, n - k)
  {
    hide *;
    Base(q);
    Base(1.0 - q);
    if n != 0 {
      ChooseStep(n, k);
      Pascal(q, n - 1, k);
      if k < n { CountWeightChoose(q, n - 1, k); } else { CountOutside(q, n - 1, k); }
      if 0 < k { CountWeightChoose(q, n - 1, k - 1); } else { CountOutside(q, n - 1, k - 1); }
      CountStep(q, n, k, Choose(n - 1, k), Choose(n - 1, k - 1), CountWeight(q, n - 1, k), CountWeight(q, n - 1, k - 1));
    }
  }

  lemma CountStep(q: real, n: nat, k: nat, c: real, d: real, u: real, v: real)
    requires k <= n && 0 < n
    requires if k < n then u == c * Pow(q, k) * Pow(1.0 - q, n - 1 - k) else u == 0.0 && c == 0.0
    requires if 0 < k then v == d * Pow(q, k - 1) * Pow(1.0 - q, n - k) else v == 0.0 && d == 0.0
    ensures (1.0 - q) * u + q * v == (c + d) * Pow(q, k) * Pow(1.0 - q, n - k)
  {
    hide *;
    var s, f := Pow(q, k), Pow(1.0 - q, n - k);
    if k < n {
      PowStep(1.0 - q, n - k);
      GrowRight(c, s, f, Pow(1.0 - q, n - 1 - k), 1.0 - q, u);
    }
    if 0 < k {
      PowStep(q, k);
      GrowLeft(d, s, f, Pow(q, k - 1), q, v);
    }
    assert c * s * f == (1.0 - q) * u && d * s * f == q * v;
    assert (c + d) * s * f == c * s * f + d * s * f;
  }

  lemma BinomialProbUnfold(n: nat, k: nat, q: real)
    ensures var m := Minus32(n, k);
            && 0.0 < Factorial(m) && 0.0 < Factorial(k)
            && BinomialProb(n, k, q) == Factorial(n) / Factorial(m) / Factorial(k) * Pow(q, k) * Pow(1.0 - q, m)
  {
    FactorialPositive(Minus32(n, k));
    FactorialPositive(k);
  }

  lemma DivTwice(x: real, y: real, z: real, c: real)
    requires y != 0.0 && z != 0.0 && c * z * y == x
    ensures x / y / z == c
  {
    assert x / y == c * z;
  }

  lemma QuotientPositive(x: real, y: real)
    requires 0.0 < x && 0.0 < y
    ensures 0.0 < x / y
  {}

  /** The closed form is the weight of the activation strings with exactly k insertions up to k = n.
      Beyond n + 1 the weight is zero, but the unsigned n - k wraps around; n + 1 gives no number. */
  lemma BinomialIsCountWeight(n: nat, k: nat, q: real)
    requires n < 0x1_0000_0000
    ensures k <= n ==> BinomialProb(n, k, q) == CountWeight(q, n, k)
    ensures n + 1 < k && 0.0 < q < 1.0 ==> CountWeight(q, n, k) == 0.0 < BinomialProb(n, k, q)
  {
    hide *;
    var m := Minus32(n, k);
    BinomialProbUnfold(n, k, q);
    if k <= n {
      ChooseFactorials(n, k);
      CountWeightChoose(q, n, k);
      DivTwice(Factorial(n), Factorial(m), Factorial(k), Choose(n, k));
    } else if 0.0 < q < 1.0 {
      CountOutside(q, n, k);
      FactorialPositive(n);
      PowPos(q, k);
      PowPos(1.0 - q, m);
      QuotientPositive(Factorial(n), Factorial(m));
      QuotientPositive(Factorial(n) / Factorial(m), Factorial(k));
      ProductPositive(Factorial(n) / Factorial(m) / Factorial(k), Pow(q, k));
      ProductPositive(Factorial(n) / Factorial(m) / Factorial(k) * Pow(q, k), Pow(1.0 - q, m));
    }
  }

  // ----- averages of functions of the count

  function OfCount(g: nat -> real): seq<nat> -> real {
    (bits: seq<nat>) => g(Ones(bits))
  }

  function CountTerms(q: real, n: nat, g: nat -> real): nat -> real {
    (k: nat) => CountWeight(q, n, k) * g(k)
  }

  function Shift(g: nat -> real): nat -> real {
    (k: nat) => g(k + 1)
  }

  function Stay(q: real, n: nat, g: nat -> real): nat -> real {
    (k: nat) => (1.0 - q) * (CountWeight(q, n, k) * g(k))
  }

  function Move(q: real, n: nat, g: nat -> real): nat -> real {
    (k: nat) => q * (CountWeight(q, n, k - 1) * g(k))
  }

  lemma SumStayMove(q: real, n: nat, g: nat -> real)
    ensures Sum(n + 2, Stay(q, n, g)) == (1.0 - q) * Sum(n + 1, CountTerms(q, n, g))
    ensures Sum(n + 2, Move(q, n, g)) == q * Sum(n + 1, CountTerms(q, n, Shift(g)))
  {
    hide Sum, CountWeight;
    var stay, move := Stay(q, n, g), Move(q, n, g);
    SumScale(n + 1, 1.0 - q, CountTerms(q, n, g), stay);
    CountOutside(q, n, n + 1);
    assert stay(n + 1) == 0.0;
    SumStep(n + 1, stay);
    SumScale(n + 1, q, CountTerms(q, n, Shift(g)), Shift(move));
    CountOutside(q, n, -1);
    assert move(0) == 0.0;
    SumSplit(1, n + 1, move, Shift(move));
    SumStep(0, move);
  }

  lemma SumPascal(q: real, n: nat, g: nat -> real)
    ensures Sum(n + 2, CountTerms(q, n + 1, g))
         == (1.0 - q) * Sum(n + 1, CountTerms(q, n, g)) + q * Sum(n + 1, CountTerms(q, n, Shift(g)))
  {
    var stay, move := Stay(q, n, g), Move(q, n, g);
    forall k: nat ensures CountTerms(q, n + 1, g)(k) == stay(k) + move(k) {
      Pascal(q, n, k);
      PascalTerm(q, CountWeight(q, n, k), CountWeight(q, n, k - 1), g(k));
    }
    SumAdd(n + 2, stay, move, CountTerms(q, n + 1, g));
    SumStayMove(q, n, g);
  }

  lemma PascalTerm(q: real, c: real, d: real, g: real)
    ensures ((1.0 - q) * c + q * d) * g == (1.0 - q) * (c * g) + q * (d * g)
  {}

  lemma PrefixOfCount(q: real, n: nat, g: nat -> real)
    ensures Expect(Bernoulli(q), n, Prefix(OfCount(g), 0)) == Expect(Bernoulli(q), n, OfCount(g))
    ensures Expect(Bernoulli(q), n, Prefix(OfCount(g), 1)) == Expect(Bernoulli(q), n, OfCount(Shift(g)))
  {
    forall bits: seq<nat> ensures Prefix(OfCount(g), 0)(bits) == OfCount(g)(bits) {
      OnesCons(0, bits);
    }
    forall bits: seq<nat> ensures Prefix(OfCount(g), 1)(bits) == OfCount(Shift(g))(bits) {
      OnesCons(1, bits);
    }
    ExpectCong(Bernoulli(q), n, Prefix(OfCount(g), 0), OfCount(g));
    ExpectCong(Bernoulli(q), n, Prefix(OfCount(g), 1), OfCount(Shift(g)));
  }

  lemma {:induction false} ExpectOfCount(q: real, n: nat, g: nat -> real)
    ensures Expect(Bernoulli(q), n, OfCount(g)) == Sum(n + 1, CountTerms(q, n, g))
    decreases n
  {
    if n == 0 {
      assert Ones([]) == 0;
      assert CountWeight(q, 0, 0) == 1.0;
      assert Sum(1, CountTerms(q, 0, g)) == Sum(0, CountTerms(q, 0, g)) + CountTerms(q, 0, g)(0);
    } else {
      ExpectBit(q, n - 1, OfCount(g));
      PrefixOfCount(q, n - 1, g);
      ExpectOfCount(q, n - 1, g);
      ExpectOfCount(q, n - 1, Shift(g));
      SumPascal(q, n - 1, g);
    }
  }

  /** The distribution of the number of insertions in a window of n activations. */
  function CountDist(q: real, n: nat): seq<real> {
    seq(n + 1, (k: nat) => CountWeight(q, n, k))
  }

  /** The count weights are non-negative and sum to one. */
  lemma CountDistIsDistribution(q: real, n: nat)
    requires 0.0 <= q <= 1.0
    ensures Distribution(CountDist(q, n))
  {
    forall k | 0 <= k <= n ensures 0.0 <= CountDist(q, n)[k] { CountNonNeg(q, n, k); }
    var one := (k: nat) => 1.0;
    BernoulliIsDistribution(q);
    ExpectOfCount(q, n, one);
    ExpectConst(Bernoulli(q), n, 1.0, OfCount(one));
    SumCong(n + 1, CountTerms(q, n, one), Weights(CountDist(q, n)));
  }

  lemma BernoulliIsDistribution(q: real)
    requires 0.0 <= q <= 1.0
    ensures Distribution(Bernoulli(q))
  {
    var w := Weights(Bernoulli(q));
    assert Sum(2, w) == Sum(1, w) + w(1);
    assert Sum(1, w) == Sum(0, w) + w(0);
  }

  /** The running balance 1 - p[0] - ... - p[i-1] is the weight of at least i. */
  lemma BalanceIsTail(p: seq<real>, i: nat)
    requires Distribution(p)
    ensures 1.0 - Sum(i, Weights(p)) == Tail(p, i)
  {
    var below := (k: nat) => if k < i then At(p, k) else 0.0;
    SumAdd(|p|, below, TailTerms(p, i), Weights(p));
    SumCong(i, below, Weights(p));
    if i <= |p| { SumExtend(i, |p|, below); } else { SumExtend(|p|, i, below); }
  }
}
