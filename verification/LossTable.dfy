/** The analytical program: its global tables, the loops that fill them, the recursion over them
    and the loss probabilities it prints. */
module LossTable {
  import opened RealSums
  import opened Expectation
  import opened Binomial
  import opened LossModel
  import opened Occupancy
  import opened ActivationLoss

  function Uniform(n: nat): seq<real>
    requires 0 < n
  {
    seq(n, _ => 1.0 / n as real)
  }

  lemma UniformIsDistribution(n: nat)
    requires 0 < n
    ensures Distribution(Uniform(n))
  {
    var one := (k: nat) => 1.0;
    SumScale(n, 1.0 / n as real, one, Weights(Uniform(n)));
    SumOnes(n, one);
  }

  lemma {:induction false} SumOnes(n: nat, one: nat -> real)
    requires forall k: nat :: one(k) == 1.0
    ensures Sum(n, one) == n as real
  {
    if n != 0 { SumOnes(n - 1, one); }
  }

  const ITERATIONS: nat := 1000

  /** The vector the program calls the steady state. */
  function Steady(p: seq<real>, cap: nat): (v: seq<real>)
    requires 0 < cap
    ensures |v| == cap
  {
    Iterate(p, Uniform(cap), ITERATIONS)
  }

  /** The same vector from the program's table. */
  function SteadyOf(probN: seq<real>, cap: nat): (v: seq<real>)
    requires 0 < cap
    ensures |v| == cap
  {
    IterateWith(Transition(probN, cap), Uniform(cap), ITERATIONS)
  }

  // ----- two states in closed form

  lemma TwoTerms(f: nat -> real)
    ensures Sum(2, f) == f(0) + f(1)
  {
    SumStep(0, f);
    SumStep(1, f);
  }

  lemma TwoStateStep(prob: seq<real>, v: seq<real>)
    requires |v| == 2 && v[0] + v[1] == 1.0
    ensures var next := StepWith(Transition(prob, 2), v);
            next[0] == At(prob, 0) + v[0] * At(prob, 1) && next[0] + next[1] == 1.0
  {
    hide Sum;
    var e, a, b := Transition(prob, 2), At(prob, 0), At(prob, 1);
    OneTerm(CellRow(prob, 0));
    OneTerm(CellRow(prob, 1));
    TwoTerms(MixWith(e, v, 0));
    TwoTerms(MixWith(e, v, 1));
    var next := StepWith(e, v);
    assert e(0, 0) == a + b && e(1, 0) == a && e(0, 1) == 1.0 - (a + b) && e(1, 1) == 1.0 - a;
    MixWithAt(e, v, 0);
    MixWithAt(e, v, 1);
    assert next[0] == v[0] * (a + b) + v[1] * a && next[1] == v[0] * (1.0 - (a + b)) + v[1] * (1.0 - a);
    TwoStateProducts(a, b, v[0], v[1]);
  }

  lemma MixWithAt(e: (nat, nat) -> real, v: seq<real>, j: nat)
    requires |v| == 2
    ensures MixWith(e, v, j)(0) == v[0] * e(0, j) && MixWith(e, v, j)(1) == v[1] * e(1, j)
  {}

  lemma TwoStateProducts(a: real, b: real, x: real, y: real)
    requires x + y == 1.0
    ensures x * (a + b) + y * a == a + x * b
    ensures x * (a + b) + y * a + (x * (1.0 - (a + b)) + y * (1.0 - a)) == 1.0
  {
    assert y == 1.0 - x;
  }

  /** What n passes leave in the first of two components: the fixed point p0 / (1 - p1) and the n-th power of
      p1 times the distance from it of the starting value 1 / 2. */
  function TwoStates(p0: real, p1: real, n: nat): real
    requires p1 != 1.0
  {
    var s := p0 / (1.0 - p1);
    s + (0.5 - s) * Pow(p1, n)
  }

  lemma {:induction false} TwoStateIterates(prob: seq<real>, n: nat)
    requires At(prob, 1) != 1.0
    ensures var v := IterateWith(Transition(prob, 2), Uniform(2), n);
            v[0] == TwoStates(At(prob, 0), At(prob, 1), n) && v[0] + v[1] == 1.0
  {
    hide StepWith, Transition, IterateWith;
    var e, a, b := Transition(prob, 2), At(prob, 0), At(prob, 1);
    IterateWithStep(e, Uniform(2), 0);
    if n != 0 {
      TwoStateIterates(prob, n - 1);
      IterateWithStep(e, Uniform(2), n - 1);
      TwoStateStep(prob, IterateWith(e, Uniform(2), n - 1));
      FixedPointStep(a, b, Pow(b, n - 1));
    }
  }

  lemma FixedPointStep(a: real, b: real, x: real)
    requires b != 1.0
    ensures var s := a / (1.0 - b); a + (s + (0.5 - s) * x) * b == s + (0.5 - s) * (b * x)
  {
    var s := a / (1.0 - b);
    assert s * (1.0 - b) == a;
    assert (s + (0.5 - s) * x) * b == s * b + (0.5 - s) * (b * x);
  }

  lemma SteadyOfTwo(prob: seq<real>)
    requires At(prob, 1) != 1.0
    ensures SteadyOf(prob, 2)[0] == TwoStates(At(prob, 0), At(prob, 1), 1000)
    ensures SteadyOf(prob, 2)[0] + SteadyOf(prob, 2)[1] == 1.0
  {
    hide TwoStates, IterateWith, Transition;
    TwoStateIterates(prob, 1000);
  }

  function MixTerms(v: seq<real>, loss: nat -> real): nat -> real {
    (s: nat) => At(v, s) * loss(s)
  }

  /** calc_lossprob for the newest of s + 1 queued entries. */
  function NewestRec(probN: seq<real>, cprobN: seq<real>, cap: nat): nat -> real
    requires 0 < cap <= MAX_SIZE && |probN| == |cprobN| == MAX_SIZE + 1
  {
    (s: nat) => if s < cap then LossRec(probN, cprobN, cap, s, s + 1) else 0.0
  }

  /** The number printed for a capacity. */
  function Printed(probN: seq<real>, cprobN: seq<real>, cap: nat): real
    requires 0 < cap <= MAX_SIZE && |probN| == |cprobN| == MAX_SIZE + 1
  {
    Sum(cap, MixTerms(SteadyOf(probN, cap), NewestRec(probN, cprobN, cap)))
  }

  /** The weight of losing the newest of s + 1 queued entries in m whole windows. */
  function NewestWholeWindows(q: real, cap: nat, w: nat, m: nat): nat -> real
    requires 0 < cap
  {
    (s: nat) => ActivationLossWeight(q, cap, s + 1, s, w, m)
  }

  /** Its average over the steady queue lengths. */
  function WholeWindowLoss(q: real, w: nat, cap: nat, m: nat): real
    requires 0 < cap
  {
    Sum(cap, MixTerms(Steady(CountDist(q, w), cap), NewestWholeWindows(q, cap, w, m)))
  }

  lemma SteadyOfTable(p: seq<real>, probN: seq<real>, cprobN: seq<real>, cap: nat)
    requires Distribution(p) && Tables(p, probN, cprobN) && 2 <= cap <= MAX_SIZE
    ensures SteadyOf(probN, cap) == Steady(p, cap)
  {
    IterateFilled(p, probN, Uniform(cap), ITERATIONS);
  }

  /** From two entries up to below the largest capacity the printed number is the average loss weight
      of an entry that sees whole windows, over any number of windows not below the capacity. */
  lemma PrintedIsWholeWindowLoss(q: real, w: nat, probN: seq<real>, cprobN: seq<real>, cap: nat, m: nat)
    requires 0.0 <= q <= 1.0 && 0 < w && Tables(CountDist(q, w), probN, cprobN)
    requires 2 <= cap < MAX_SIZE && cap <= m
    ensures Printed(probN, cprobN, cap) == WholeWindowLoss(q, w, cap, m)
  {
    hide Tables, Iterate, IterateWith, LossRec, ActivationLossWeight, CountDist, Sum, Distribution;
    CountDistIsDistribution(q, w);
    TableLength(CountDist(q, w), probN, cprobN);
    SteadyOfTable(CountDist(q, w), probN, cprobN, cap);
    var v := Steady(CountDist(q, w), cap);
    var rec, ref := NewestRec(probN, cprobN, cap), NewestWholeWindows(q, cap, w, m);
    forall s: nat | s < cap ensures MixTerms(v, rec)(s) == MixTerms(v, ref)(s) {
      RecursionIsWholeWindowLoss(q, w, probN, cprobN, cap, s, s + 1, m);
    }
    SumCong(cap, MixTerms(v, rec), MixTerms(v, ref));
  }

  lemma {:induction false} CountPositive(q: real, n: nat, k: nat)
    requires 0.0 < q < 1.0 && k <= n
    ensures 0.0 < CountWeight(q, n, k)
  {
    if n == 0 {
      assert Ones([]) == 0;
    } else {
      Pascal(q, n - 1, k);
      CountNonNeg(q, n - 1, k);
      CountNonNeg(q, n - 1, k - 1);
      if k < n { CountPositive(q, n - 1, k); } else { CountPositive(q, n - 1, k - 1); }
      PositiveMix(q, CountWeight(q, n - 1, k), CountWeight(q, n - 1, k - 1));
    }
  }

  lemma PositiveMix(q: real, c: real, d: real)
    requires 0.0 < q < 1.0 && 0.0 <= c && 0.0 <= d && (0.0 < c || 0.0 < d)
    ensures 0.0 < (1.0 - q) * c + q * d
  {
    ProductNonNeg(1.0 - q, c);
    ProductNonNeg(q, d);
    if 0.0 < c { ProductPositive(1.0 - q, c); } else { ProductPositive(q, d); }
  }

  lemma TailPositive(q: real, w: nat, i: nat)
    requires 0.0 < q < 1.0 && i <= w
    ensures 0.0 < Tail(CountDist(q, w), i)
  {
    var p := CountDist(q, w);
    CountDistIsDistribution(q, w);
    CountPositive(q, w, i);
    var only := (k: nat) => if k == i then At(p, i) else 0.0;
    SumSingle(w + 1, i, only);
    SumMono(w + 1, only, TailTerms(p, i));
  }

  /** At the largest capacity the printed number is too small even for that, by at least the weight of
      MAX_SIZE insertions in a window, for every window the table can be built for. */
  lemma LargestCapacityIsTooSmall(q: real, w: nat, probN: seq<real>, cprobN: seq<real>, m: nat)
    requires 0.0 < q < 1.0 && MAX_SIZE <= w && Tables(CountDist(q, w), probN, cprobN)
    requires MAX_SIZE <= m
    ensures Printed(probN, cprobN, MAX_SIZE) + Tail(CountDist(q, w), MAX_SIZE) <= WholeWindowLoss(q, w, MAX_SIZE, m)
    ensures 0.0 < Tail(CountDist(q, w), MAX_SIZE)
  {
    hide *;
    var cap, p := MAX_SIZE, CountDist(q, w);
    TableLength(p, probN, cprobN);
    var v, t := Steady(p, cap), Tail(p, MAX_SIZE);
    var rec, ref := NewestRec(probN, cprobN, cap), NewestWholeWindows(q, cap, w, m);
    CountDistIsDistribution(q, w);
    SteadyKeepsWeight(p, cap);
    SteadyOfTable(p, probN, cprobN, cap);
    TailPositive(q, w, MAX_SIZE);
    var short := (s: nat) => t * Weights(v)(s);
    var low := (s: nat) => MixTerms(v, rec)(s) + short(s);
    forall s: nat | s < cap ensures low(s) <= MixTerms(v, ref)(s) {
      NewestShortfall(q, w, probN, cprobN, m, s);
      WeightNonNeg(v, s);
      ShortfallTerm(v[s], rec(s), ref(s), t);
      MixTermsAt(v, rec, s);
      MixTermsAt(v, ref, s);
    }
    SumScale(cap, t, Weights(v), short);
    SumAdd(cap, MixTerms(v, rec), short, low);
    SumMono(cap, low, MixTerms(v, ref));
    PrintedUnfold(q, w, probN, cprobN, cap, m);
  }

  lemma TableLength(p: seq<real>, probN: seq<real>, cprobN: seq<real>)
    requires Tables(p, probN, cprobN)
    ensures |probN| == |cprobN| == MAX_SIZE + 1 && MAX_SIZE == 16
  {}

  lemma MixTermsAt(v: seq<real>, loss: nat -> real, s: nat)
    requires s < |v|
    ensures MixTerms(v, loss)(s) == v[s] * loss(s) && Weights(v)(s) == v[s]
  {}

  lemma SteadyKeepsWeight(p: seq<real>, cap: nat)
    requires Distribution(p) && 0 < cap
    ensures Sum(cap, Weights(Steady(p, cap))) == 1.0
    ensures Distribution(Steady(p, cap))
  {
    hide Iterate;
    UniformIsDistribution(cap);
    IterateKeepsDistribution(p, Uniform(cap), ITERATIONS);
  }

  lemma PrintedUnfold(q: real, w: nat, probN: seq<real>, cprobN: seq<real>, cap: nat, m: nat)
    requires 0 < cap <= MAX_SIZE && |probN| == |cprobN| == MAX_SIZE + 1
    ensures Printed(probN, cprobN, cap) == Sum(cap, MixTerms(SteadyOf(probN, cap), NewestRec(probN, cprobN, cap)))
    ensures WholeWindowLoss(q, w, cap, m)
         == Sum(cap, MixTerms(Steady(CountDist(q, w), cap), NewestWholeWindows(q, cap, w, m)))
  {}

  lemma WeightNonNeg(v: seq<real>, s: nat)
    requires Distribution(v) && s < |v|
    ensures 0.0 <= v[s]
  {}

  /** The recursion for s + 1 queued entries falls short of the whole-window loss weight. */
  lemma NewestShortfall(q: real, w: nat, probN: seq<real>, cprobN: seq<real>, m: nat, s: nat)
    requires 0.0 < q < 1.0 && MAX_SIZE <= w && Tables(CountDist(q, w), probN, cprobN)
    requires s < MAX_SIZE <= m
    ensures |probN| == |cprobN| == MAX_SIZE + 1
    ensures NewestRec(probN, cprobN, MAX_SIZE)(s) + Tail(CountDist(q, w), MAX_SIZE)
         <= NewestWholeWindows(q, MAX_SIZE, w, m)(s)
  {
    hide Sum, Tail, LossRec, ActivationLossWeight, LossWeight, CountDist;
    var p, cap := CountDist(q, w), MAX_SIZE;
    CountDistIsDistribution(q, w);
    TailPositive(q, w, MAX_SIZE);
    LossRecWithDeficit(p, probN, cprobN, cap, s, s + 1, m);
    ActivationLossIsWindowLoss(q, cap, s + 1, s, w, m);
    Grow(Tail(p, MAX_SIZE), Geometric(At(p, 0), s));
  }

  lemma Grow(t: real, g: real)
    requires 0.0 <= t && 1.0 <= g
    ensures t <= t * g
  {
    ProductMono(1.0, g, t);
  }

  lemma ShortfallTerm(x: real, rec: real, ref: real, t: real)
    requires 0.0 <= x && rec + t <= ref
    ensures x * rec + t * x <= x * ref
  {
    ProductMono(rec + t, ref, x);
  }

  lemma FirstCellBelowOne(q: real, w: nat)
    requires 0.0 < q < 1.0 && 1 <= w
    ensures At(CountDist(q, w), 1) < 1.0
  {
    hide Sum, CountWeight, Distribution;
    var p := CountDist(q, w);
    CountDistIsDistribution(q, w);
    CountPositive(q, w, 0);
    BalanceIsTail(p, 2);
    TwoTerms(Weights(p));
    TailTermsNonNeg(p, 2);
  }

  lemma TailTermsNonNeg(p: seq<real>, k: nat)
    requires Distribution(p)
    ensures 0.0 <= Tail(p, k)
  {
    SumNonNeg(|p|, TailTerms(p, k));
  }

  /** calc_lossprob for a queue of two places: the only entry is lost to two insertions or more, the second
      of two entries to as many, or after a window without insertions. */
  lemma TwoPlaces(probN: seq<real>, cprobN: seq<real>)
    requires |probN| == |cprobN| == MAX_SIZE + 1
    ensures LossRec(probN, cprobN, 2, 0, 1) == cprobN[2]
    ensures LossRec(probN, cprobN, 2, 1, 2) == probN[0] * cprobN[2] + cprobN[2]
  {
    OneTerm(LossTerms(probN, cprobN, 2, 1, 2));
    assert AfterWindow(2, 1, 2, 0) == (0, 1);
  }

  /** The loss after 1000 passes: two insertions or more, or none in the first of an entry's windows when it
      is the second of two. */
  function LossForTwo(p0: real, p1: real, c2: real): real
    requires p1 != 1.0
  {
    c2 * (1.0 + (1.0 - TwoStates(p0, p1, 1000)) * p0)
  }

  /** The number printed for two places in closed form. */
  lemma PrintedForTwo(probN: seq<real>, cprobN: seq<real>)
    requires |probN| == |cprobN| == MAX_SIZE + 1 && probN[1] != 1.0
    ensures Printed(probN, cprobN, 2)
         == LossForTwo(probN[0], probN[1], cprobN[2])
  {
    hide Sum, LossRec, SteadyOf, TwoStates;
    var v := SteadyOf(probN, 2);
    SteadyOfTwo(probN);
    TwoPlaces(probN, cprobN);
    var rec := NewestRec(probN, cprobN, 2);
    TwoTerms(MixTerms(v, rec));
    MixTermsAt(v, rec, 0);
    MixTermsAt(v, rec, 1);
    assert rec(0) == LossRec(probN, cprobN, 2, 0, 1) && rec(1) == LossRec(probN, cprobN, 2, 1, 2);
    TwoPlaceProducts(v[0], v[1], probN[0], cprobN[2]);
  }

  lemma ClosedFormForTwo(q: real, w: nat, probN: seq<real>, cprobN: seq<real>)
    requires 0.0 < q < 1.0 && 1 <= w && Tables(CountDist(q, w), probN, cprobN)
    ensures |probN| == |cprobN| == MAX_SIZE + 1 && probN[1] < 1.0
    ensures Printed(probN, cprobN, 2)
         == LossForTwo(probN[0], probN[1], cprobN[2])
  {
    hide CountDist, Printed, LossForTwo, Tail;
    FirstCellBelowOne(q, w);
    PrintedForTwo(probN, cprobN);
  }

  lemma TwoPlaceProducts(x: real, y: real, a: real, c: real)
    requires x + y == 1.0
    ensures x * c + y * (a * c + c) == c * (1.0 + (1.0 - x) * a)
  {
    assert y * (a * c + c) == c * (y * a) + c * y;
    assert x * c + c * y == c * (x + y);
  }

  // ----- the program

  class Analysis {
    var trefi: nat
    var insProb: real
    const probN: array<real>
    const cprobN: array<real>
    const mcVals: array2<real>
    const mcSoln: array<real>

    /** Static storage starts as zeros. */
    constructor ()
      ensures Valid() && fresh(probN) && fresh(cprobN) && fresh(mcVals) && fresh(mcSoln)
      ensures trefi == 79 && insProb * 79.0 == 1.0
    {
      trefi, insProb := 79, 1.0 / 79.0;
      probN := new real[MAX_SIZE + 1](_ => 0.0);
      cprobN := new real[MAX_SIZE + 1](_ => 0.0);
      mcVals := new real[MAX_SIZE, MAX_SIZE]((_, _) => 0.0);
      mcSoln := new real[MAX_SIZE](_ => 0.0);
    }

    /** The last cell of cprob_n is never written. */
    ghost predicate Valid()
      reads cprobN
    {
      && probN.Length == cprobN.Length == MAX_SIZE + 1
      && mcVals.Length0 == mcVals.Length1 == mcSoln.Length == MAX_SIZE
      && probN != cprobN && probN != mcSoln && cprobN != mcSoln
      && cprobN[MAX_SIZE] == 0.0
    }

    /** One of the two loops that take the logarithms of a factorial off the sum. */
    static method DivideByFactorial(x: real, m: nat) returns (r: real)
      requires m <= LARGEST && LoopEnds(m)
      ensures 0.0 < Factorial(m) && r == x / Factorial(m)
    {
      hide *;
      LoopEndsExactly(m);
      LargestIs();
      r := x;
      BaseFactorial();
      var ii := 1;
      while ii <= m
        invariant 1 <= ii <= m + 1
        invariant 0.0 < Factorial(ii - 1) && r == x / Factorial(ii - 1)
      {
        FactorialStep(ii);
        FactorialPositive(ii);
        DivideOnce(x, Factorial(ii - 1), ii as real);
        r := r / ii as real;
        ii := (ii + 1) % 0x1_0000_0000;
      }
    }

    /** Counts in 32 bits, as the program does, and so asks for arguments on which its loops end. */
    static method CalcBinomialProb(n: nat, k: nat, p: real) returns (r: real)
      requires n <= LARGEST && k <= LARGEST && CalcEnds(n, k)
      ensures r == BinomialProb(n, k, p)
      ensures k <= n ==> r == CountWeight(p, n, k)
    {
      hide *;
      CalcEndsExactly(n, k);
      LargestIs();
      var ans := 1.0;
      BaseFactorial();
      var ii := 1;
      while ii <= n
        invariant 1 <= ii <= n + 1
        invariant ans == Factorial(ii - 1)
      {
        FactorialStep(ii);
        ans := ans * ii as real;
        ii := (ii + 1) % 0x1_0000_0000;
      }
      var m := Minus32(n, k);
      WrapsToLargest(n, k);
      LoopEndsExactly(m);
      LoopEndsExactly(k);
      ans := DivideByFactorial(ans, m);
      ans := DivideByFactorial(ans, k);
      BinomialProbUnfold(n, k, p);
      BinomialIsCountWeight(n, k, p);
      r := ans * Pow(p, k) * Pow(1.0 - p, m);
    }

    /** Fills the tables with the weights and tails of the insertion counts.  For a window on which one
        of the loops does not end there is no result to speak of. */
    method Init()
      requires Valid() && trefi <= LARGEST && InitEnds(trefi) && 0.0 < insProb < 1.0
      modifies probN, cprobN
      ensures Valid()
      ensures Computed(trefi, insProb, probN[..], cprobN[..])
      ensures Tables(CountDist(insProb, trefi), probN[..], cprobN[..])
    {
      hide Sum, BinomialProb, Distribution, Tables, CountDist, InitEnds, CalcEnds, LoopEnds, Computed, CountWeight, Minus32;
      ghost var f := BinomialProbs(trefi, insProb);
      SumStep(0, f);
      for ii := 0 to MAX_SIZE + 1
        invariant cprobN[MAX_SIZE] == 0.0
        invariant forall i :: 0 <= i < ii ==> probN[i] == f(i)
      {
        EndsAt(trefi, ii);
        probN[ii] := CalcBinomialProb(trefi, ii, insProb);
      }
      var balance := 1.0;
      for ii := 0 to MAX_SIZE
        invariant cprobN[MAX_SIZE] == 0.0
        invariant balance == 1.0 - Sum(ii, f)
        invariant forall i :: 0 <= i < ii ==> cprobN[i] == 1.0 - Sum(i, f)
        invariant forall i :: 0 <= i <= MAX_SIZE ==> probN[i] == f(i)
      {
        cprobN[ii] := balance;
        EndsAt(trefi, ii);
        var b := CalcBinomialProb(trefi, ii, insProb);
        SumStep(ii, f);
        balance := balance - b;
      }
      ComputedIs(trefi, insProb, probN[..], cprobN[..]);
      InitEndsExactly(trefi);
      ComputedTables(trefi, insProb, probN[..], cprobN[..]);
    }

    method CalcLossProb(capacity: nat, ptr: nat, size: nat) returns (lossProb: real)
      requires Valid()
      requires ptr < size <= capacity && capacity - size + ptr + 1 <= MAX_SIZE
      ensures lossProb == LossRec(probN[..], cprobN[..], capacity, ptr, size)
      decreases ptr
    {
      var fullTh := capacity - size + ptr;
      if ptr == 0 {
        return cprobN[fullTh + 1];
      }
      var a := 0.0;
      for insert := 0 to fullTh
        invariant a == Sum(insert, LossTerms(probN[..], cprobN[..], capacity, ptr, size))
      {
        var eventProb := probN[insert];
        var newSize := size + insert;
        if newSize > capacity {
          newSize := capacity;
        }
        var newPtr := ptr;
        var remain := capacity - size;
        if insert > remain {
          newPtr := newPtr - (insert - remain);
          assert newPtr < ptr;
        }
        newPtr := newPtr - 1;
        newSize := newSize - 1;
        var caseFailProb := CalcLossProb(capacity, newPtr, newSize);
        assert (newPtr, newSize) == AfterWindow(capacity, ptr, size, insert);
        assert LossTerm(probN[..], cprobN[..], capacity, ptr, size, insert) == eventProb * caseFailProb;
        a := a + eventProb * caseFailProb;
      }
      var b := 0.0;
      var c := cprobN[fullTh + 1];
      lossProb := a + b + c;
    }

    /** Row 0: an empty queue and a queue that ends the window with one entry both end empty. */
    method FillFirstRow(size: nat)
      requires Valid() && 1 <= size <= MAX_SIZE
      modifies mcVals
      ensures forall j :: 0 <= j < size ==> mcVals[0, j] == Filled(probN[..], size, 0, j)
    {
      hide Sum;
      ghost var prob := probN[..];
      ghost var row := CellRow(prob, 0);
      var balance := 1.0;
      mcVals[0, 0] := probN[0] + probN[1];
      balance := balance - mcVals[0, 0];
      SumStep(0, row);
      var jj := 1;
      while jj < size - 1
        invariant 1 <= jj && (jj < size || (size == 1 && jj == 1))
        invariant balance == 1.0 - Sum(jj, row)
        invariant forall j :: 0 <= j < jj && j < size ==> mcVals[0, j] == Cell(prob, 0, j)
      {
        SumStep(jj, row);
        mcVals[0, jj] := probN[jj + 1];
        balance := balance - mcVals[0, jj];
        jj := jj + 1;
      }
      if size == 1 { OneTerm(row); }
      mcVals[0, size - 1] := balance;
    }

    method FillRow(size: nat, ii: nat)
      requires Valid() && 1 <= ii < size <= MAX_SIZE
      modifies mcVals
      ensures forall j :: 0 <= j < size ==> mcVals[ii, j] == Filled(probN[..], size, ii, j)
      ensures forall i, j :: 0 <= i < size && 0 <= j < size && i != ii ==> mcVals[i, j] == old(mcVals[i, j])
    {
      hide Sum;
      ghost var prob := probN[..];
      ghost var row := CellRow(prob, ii);
      var balance := 1.0;
      SumStep(0, row);
      for jj := 0 to size - 1
        invariant balance == 1.0 - Sum(jj, row)
        invariant forall j :: 0 <= j < jj ==> mcVals[ii, j] == Cell(prob, ii, j)
        invariant forall i, j :: 0 <= i < size && 0 <= j < size && i != ii ==> mcVals[i, j] == old(mcVals[i, j])
      {
        SumStep(jj, row);
        var val := 0.0;
        if jj >= ii - 1 {
          val := probN[jj - ii + 1];
        }
        mcVals[ii, jj] := val;
        balance := balance - mcVals[ii, jj];
      }
      mcVals[ii, size - 1] := balance;
    }

    ghost predicate MatrixDone(size: nat)
      reads probN, mcVals
    {
      && size <= mcVals.Length0 && size <= mcVals.Length1
      && forall i, j :: 0 <= i < size && 0 <= j < size ==> mcVals[i, j] == Transition(probN[..], size)(i, j)
    }

    /** Fills the matrix from the table. */
    method FillMatrix(size: nat)
      requires Valid() && 1 <= size <= MAX_SIZE
      modifies mcVals
      ensures MatrixDone(size)
      ensures 2 <= size ==> forall p :: Distribution(p) && Agrees(p, probN[..], size) ==>
                forall i, j :: 0 <= i < size && 0 <= j < size ==> mcVals[i, j] == Entry(p, size, i, j)
    {
      hide Sum, Entry, Filled, Distribution, Agrees;
      for ii := 0 to size
      {
        for jj := 0 to size
        {
          mcVals[ii, jj] := 0.0;
        }
      }
      FillFirstRow(size);
      for ii := 1 to size
        invariant forall i, j :: 0 <= i < ii && 0 <= j < size ==> mcVals[i, j] == Filled(probN[..], size, i, j)
      {
        FillRow(size, ii);
      }
      forall p, i, j | 2 <= size && Distribution(p) && Agrees(p, probN[..], size) && 0 <= i < size && 0 <= j < size
        ensures mcVals[i, j] == Entry(p, size, i, j)
      {
        FilledIsEntry(p, probN[..], size, i, j);
      }
    }

    /** One vector-matrix product of the power iteration. */
    method Multiply(size: nat, mcSol: array<real>, newSol: array<real>)
      requires Valid() && 1 <= size <= MAX_SIZE && MatrixDone(size)
      requires mcSol != newSol && mcSol.Length == newSol.Length == size
      requires probN != mcSol && probN != newSol
      requires forall i :: 0 <= i < size ==> newSol[i] == 0.0
      modifies mcSol, newSol
      ensures mcSol[..] == StepWith(Transition(probN[..], size), old(mcSol[..]))
      ensures forall i :: 0 <= i < size ==> newSol[i] == 0.0
    {
      hide Sum, Filled;
      ghost var v, e := mcSol[..], Transition(probN[..], size);
      ghost var next := StepWith(e, v);
      assert forall j :: 0 <= j < size ==> next[j] == Sum(size, MixWith(e, v, j));
      for ii := 0 to size
        invariant mcSol[..] == v && MatrixDone(size) && e == Transition(probN[..], size)
        invariant forall i :: 0 <= i < ii ==> newSol[i] == next[i]
        invariant forall i :: ii <= i < size ==> newSol[i] == 0.0
      {
        ghost var mix := MixWith(e, v, ii);
        SumStep(0, mix);
        for jj := 0 to size
          invariant mcSol[..] == v && MatrixDone(size) && e == Transition(probN[..], size)
          invariant newSol[ii] == Sum(jj, mix)
          invariant forall i :: 0 <= i < ii ==> newSol[i] == next[i]
          invariant forall i :: ii < i < size ==> newSol[i] == 0.0
        {
          SumStep(jj, mix);
          assert mcSol[jj] == v[jj] && mcVals[jj, ii] == e(jj, ii);
          assert mix(jj) == mcSol[jj] * mcVals[jj, ii];
          newSol[ii] := newSol[ii] + mcSol[jj] * mcVals[jj, ii];
        }
      }
      for ii := 0 to size
        invariant forall i :: 0 <= i < ii ==> mcSol[i] == next[i] && newSol[i] == 0.0
        invariant forall i :: ii <= i < size ==> newSol[i] == next[i]
      {
        mcSol[ii] := newSol[ii];
        newSol[ii] := 0.0;
      }
    }

    method PowerIteration(size: nat) returns (mcSol: array<real>)
      requires Valid() && 1 <= size <= MAX_SIZE && MatrixDone(size)
      ensures fresh(mcSol) && mcSol[..] == SteadyOf(probN[..], size)
      ensures size == 2 && probN[1] != 1.0 ==> mcSol[0] == TwoStates(probN[0], probN[1], 1000)
    {
      hide Filled, IterateWith, StepWith, TwoStates;
      mcSol := new real[size](_ => 1.0 / size as real);
      var newSol := new real[size](_ => 0.0);
      ghost var v, e := Uniform(size), Transition(probN[..], size);
      assert mcSol[..] == v;
      IterateWithStep(e, v, 0);
      for iterid := 0 to ITERATIONS
        invariant mcSol[..] == IterateWith(e, v, iterid) && e == Transition(probN[..], size)
        invariant forall i :: 0 <= i < size ==> newSol[i] == 0.0
        invariant MatrixDone(size)
      {
        IterateWithStep(e, v, iterid);
        Multiply(size, mcSol, newSol);
      }
      if size == 2 && probN[1] != 1.0 {
        SteadyOfTwo(probN[..]);
        assert mcSol[0] == mcSol[..][0];
      }
    }

    method InitMarkovChain(size: nat)
      requires Valid() && 1 <= size <= MAX_SIZE
      modifies mcVals, mcSoln
      ensures MatrixDone(size)
      ensures mcSoln[..size] == SteadyOf(probN[..], size)
      ensures size == 2 && probN[1] != 1.0 ==> mcSoln[0] == TwoStates(probN[0], probN[1], 1000)
    {
      hide SteadyOf, Transition, Distribution, Agrees, Entry, TwoStates;
      FillMatrix(size);
      var mcSol := PowerIteration(size);
      for ii := 0 to size
        invariant mcSol[..] == SteadyOf(probN[..], size)
        invariant MatrixDone(size)
        invariant forall i :: 0 <= i < ii ==> mcSoln[i] == SteadyOf(probN[..], size)[i]
      {
        mcSoln[ii] := mcSol[..][ii];
      }
      assert mcSoln[..size] == SteadyOf(probN[..], size);
      assert mcSoln[0] == mcSoln[..size][0];
    }

    /** The average over the steady state for one capacity. */
    method LossForCapacity(capacity: nat) returns (total: real)
      requires Valid() && 1 <= capacity <= MAX_SIZE
      modifies mcVals, mcSoln
      ensures total == Printed(probN[..], cprobN[..], capacity)
    {
      hide Sum, SteadyOf, LossRec, MatrixDone;
      InitMarkovChain(capacity);
      ghost var v, rec := SteadyOf(probN[..], capacity), NewestRec(probN[..], cprobN[..], capacity);
      total := 0.0;
      SumStep(0, MixTerms(v, rec));
      for s := 0 to capacity
        invariant mcSoln[..capacity] == v
        invariant total == Sum(s, MixTerms(v, rec))
      {
        var loss := CalcLossProb(capacity, s, s + 1);
        assert mcSoln[s] == mcSoln[..capacity][s] == v[s];
        SumStep(s, MixTerms(v, rec));
        assert loss == rec(s) && At(v, s) == v[s];
        assert MixTerms(v, rec)(s) == mcSoln[s] * loss;
        total := total + mcSoln[s] * loss;
      }
    }

    /** The loss probabilities printed for capacities 1, 2, 4, 8 and 16. */
    method PrintLossProb(windowSize: nat) returns (losses: seq<real>)
      requires Valid() && MAX_SIZE <= windowSize < LARGEST
      modifies this, probN, cprobN, mcVals, mcSoln
      ensures Valid()
      ensures Computed(windowSize, 1.0 / windowSize as real, probN[..], cprobN[..])
      ensures Tables(CountDist(1.0 / windowSize as real, windowSize), probN[..], cprobN[..])
      ensures |losses| == 5
      ensures losses[0] == SingleEntryLoss(1, windowSize)
      ensures forall i :: 0 <= i < 4 ==> losses[i + 1] == Printed(probN[..], cprobN[..], [2, 4, 8, 16][i])
      ensures probN[1] < 1.0
      ensures losses[1] == LossForTwo(probN[0], probN[1], cprobN[2])
    {
      hide Sum, Printed, CountDist, Tables, Pow, Computed, InitEnds, LossForTwo;
      InitEndsExactly(windowSize);
      trefi := windowSize;
      insProb := 1.0 / trefi as real;
      assert 0.0 < insProb < 1.0;
      Init();
      losses := [1.0 - Pow(1.0 - insProb, trefi - 1)];
      var sizes := [2, 4, 8, 16];
      ghost var prob, cprob := probN[..], cprobN[..];
      ClosedFormForTwo(insProb, trefi, prob, cprob);
      for i := 0 to 4
        invariant Valid() && probN[..] == prob && cprobN[..] == cprob
        invariant |losses| == i + 1 && losses[0] == SingleEntryLoss(1, windowSize)
        invariant forall k :: 0 <= k < i ==> losses[k + 1] == Printed(prob, cprob, sizes[k])
      {
        var loss := LossForCapacity(sizes[i]);
        losses := losses + [loss];
      }
      assert probN[0] == prob[0] && probN[1] == prob[1] && cprobN[2] == cprob[2];
      assert losses[0 + 1] == Printed(prob, cprob, sizes[0]);
    }
  }

  function BinomialProbs(n: nat, q: real): nat -> real {
    (k: nat) => BinomialProb(n, k, q)
  }

  /** What `init` computes, in its own terms. */
  ghost predicate Computed(n: nat, q: real, probN: seq<real>, cprobN: seq<real>) {
    && |probN| == |cprobN| == MAX_SIZE + 1
    && (forall i :: 0 <= i <= MAX_SIZE ==> probN[i] == BinomialProb(n, i, q))
    && (forall i :: 0 <= i < MAX_SIZE ==> cprobN[i] == 1.0 - Sum(i, BinomialProbs(n, q)))
    && cprobN[MAX_SIZE] == 0.0
  }

  /** Do all loops of `init` end?  It asks for the counts 0 to MAX_SIZE. */
  ghost predicate InitEnds(n: nat) {
    forall k: nat :: k <= MAX_SIZE ==> CalcEnds(n, k)
  }

  lemma EndsAt(n: nat, k: nat)
    requires InitEnds(n) && k <= MAX_SIZE
    ensures CalcEnds(n, k)
  {}

  lemma ComputedIs(n: nat, q: real, probN: seq<real>, cprobN: seq<real>)
    ensures Computed(n, q, probN, cprobN) <==>
            && |probN| == |cprobN| == MAX_SIZE + 1
            && (forall i :: 0 <= i <= MAX_SIZE ==> probN[i] == BinomialProb(n, i, q))
            && (forall i :: 0 <= i < MAX_SIZE ==> cprobN[i] == 1.0 - Sum(i, BinomialProbs(n, q)))
            && cprobN[MAX_SIZE] == 0.0
  {
    hide BinomialProb, Sum;
  }

  /** They do if and only if the window has at least MAX_SIZE activations (and fewer than the largest
      unsigned number): a smaller window of n reaches the count n + 1, on which a loop never ends. */
  lemma InitEndsExactly(n: nat)
    requires n <= LARGEST
    ensures InitEnds(n) <==> MAX_SIZE <= n < LARGEST
  {
    hide CalcEnds;
    forall k: nat | k <= MAX_SIZE ensures CalcEnds(n, k) <==> n != LARGEST && k != n + 1 {
      CalcEndsExactly(n, k);
    }
    if n < MAX_SIZE { assert !CalcEnds(n, n + 1); }
    if n == LARGEST { assert !CalcEnds(n, 0); }
  }

  /** The computed tables hold the weights and tails of the insertion counts. */
  lemma ComputedTables(n: nat, q: real, probN: seq<real>, cprobN: seq<real>)
    requires MAX_SIZE <= n <= LARGEST && 0.0 < q < 1.0 && Computed(n, q, probN, cprobN)
    ensures Tables(CountDist(q, n), probN, cprobN)
  {
    hide Sum, Tail, CountWeight, BinomialProb, Distribution;
    var p := CountDist(q, n);
    CountDistIsDistribution(q, n);
    forall i: nat | i <= MAX_SIZE ensures probN[i] == At(p, i) {
      BinomialIsCountWeight(n, i, q);
    }
    forall i: nat | i < MAX_SIZE ensures cprobN[i] == Tail(p, i) {
      forall k: nat | k < i ensures BinomialProbs(n, q)(k) == Weights(p)(k) {
        BinomialIsCountWeight(n, k, q);
      }
      SumCong(i, BinomialProbs(n, q), Weights(p));
      BalanceIsTail(p, i);
    }
  }

  lemma LargestIs()
    ensures LARGEST == 0xffff_ffff
  {}

  lemma OneTerm(f: nat -> real)
    ensures Sum(1, f) == f(0)
  {
    SumStep(0, f);
  }

  lemma IterateWithStep(e: (nat, nat) -> real, v: seq<real>, t: nat)
    ensures IterateWith(e, v, 0) == v
    ensures IterateWith(e, v, t + 1) == StepWith(e, IterateWith(e, v, t))
  {}

  lemma BaseFactorial()
    ensures Factorial(0) == 1.0
  {}

  lemma DivideOnce(x: real, y: real, z: real)
    requires y != 0.0 && z != 0.0 && z * y != 0.0
    ensures x / y / z == x / (z * y)
  {
    var d := x / y / z;
    assert x == d * (z * y);
  }
}
