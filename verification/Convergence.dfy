/** How near the power iteration gets: every window forgets part of where it started. */
module Convergence {
  import opened RealSums
  import opened Expectation
  import opened Occupancy
  import opened Binomial
  import opened LossModel
  import opened ActivationLoss
  import opened SimulatedLoss
  import opened TimelineLoss
  import opened LossTable
  import opened LossComparison

  function Abs(x: real): (r: real)
    ensures 0.0 <= r && x <= r && -x <= r
  {
    if x < 0.0 then -x else x
  }

  function Gaps(u: seq<real>, v: seq<real>): nat -> real {
    (i: nat) => Abs(At(u, i) - At(v, i))
  }

  /** The sum of the absolute differences. */
  function Distance(u: seq<real>, v: seq<real>): real {
    Sum(|u|, Gaps(u, v))
  }

  // ----- one step of a matrix

  function RowOf(e: (nat, nat) -> real, i: nat): nat -> real {
    (j: nat) => e(i, j)
  }

  /** Every row is a list of weights that sum to one and are not below the common part c. */
  ghost predicate Shares(e: (nat, nat) -> real, n: nat, c: nat -> real) {
    && (forall i: nat :: i < n ==> Sum(n, RowOf(e, i)) == 1.0)
    && (forall i: nat, j: nat :: i < n && j < n ==> c(j) <= e(i, j))
  }

  /** The matrix less the common part of its rows. */
  function Reduced(e: (nat, nat) -> real, c: nat -> real): (nat, nat) -> real {
    (i: nat, j: nat) => e(i, j) - c(j)
  }

  lemma ReducedRowSum(e: (nat, nat) -> real, n: nat, c: nat -> real, i: nat)
    requires Shares(e, n, c) && i < n
    ensures Sum(n, RowOf(Reduced(e, c), i)) == 1.0 - Sum(n, c)
    ensures forall j: nat :: j < n ==> 0.0 <= Reduced(e, c)(i, j)
  {
    hide Sum;
    SumAdd(n, RowOf(Reduced(e, c), i), c, RowOf(e, i));
  }

  function Differences(u: seq<real>, v: seq<real>): nat -> real {
    (i: nat) => At(u, i) - At(v, i)
  }

  function ReducedMix(r: (nat, nat) -> real, u: seq<real>, v: seq<real>, j: nat): nat -> real {
    (i: nat) => (At(u, i) - At(v, i)) * r(i, j)
  }

  lemma DifferencesCancel(u: seq<real>, v: seq<real>)
    requires Distribution(u) && Distribution(v) && |u| == |v|
    ensures Sum(|u|, Differences(u, v)) == 0.0
  {
    hide Sum;
    SumAdd(|u|, Differences(u, v), Weights(v), Weights(u));
  }

  /** The common part cancels between two probability vectors. */
  lemma StepDifference(e: (nat, nat) -> real, c: nat -> real, u: seq<real>, v: seq<real>, j: nat)
    requires Distribution(u) && Distribution(v) && |u| == |v| && j < |u|
    ensures StepWith(e, u)[j] - StepWith(e, v)[j] == Sum(|u|, ReducedMix(Reduced(e, c), u, v, j))
  {
    hide Sum, Distribution;
    var n, d, r := |u|, Differences(u, v), Reduced(e, c);
    var full := (i: nat) => MixWith(e, u, j)(i) - MixWith(e, v, j)(i);
    var common := (i: nat) => c(j) * d(i);
    SumAdd(n, full, MixWith(e, v, j), MixWith(e, u, j));
    forall i: nat | i < n ensures full(i) == ReducedMix(r, u, v, j)(i) + common(i) {
      Parts(At(u, i), At(v, i), e(i, j), c(j));
    }
    SumAdd(n, ReducedMix(r, u, v, j), common, full);
    SumScale(n, c(j), d, common);
    DifferencesCancel(u, v);
    Nothing(c(j));
  }

  lemma Parts(x: real, y: real, e: real, c: real)
    ensures x * e - y * e == (x - y) * (e - c) + c * (x - y)
  {}

  lemma Nothing(c: real)
    ensures c * 0.0 == 0.0
  {}

  function GapMix(r: (nat, nat) -> real, u: seq<real>, v: seq<real>): (nat, nat) -> real {
    (i: nat, j: nat) => Abs(At(u, i) - At(v, i)) * r(i, j)
  }

  lemma AbsProduct(x: real, y: real)
    requires 0.0 <= y
    ensures x * y <= Abs(x) * y && -(x * y) <= Abs(x) * y
  {
    ProductMono(x, Abs(x), y);
    ProductMono(-x, Abs(x), y);
    Negated(x, y);
  }

  lemma Negated(x: real, y: real)
    ensures (-x) * y == -(x * y)
  {}

  lemma {:induction false} SumNegate(n: nat, f: nat -> real, g: nat -> real)
    requires forall k: nat :: k < n ==> g(k) == -f(k)
    ensures Sum(n, g) == -Sum(n, f)
  {
    if n != 0 { SumNegate(n - 1, f, g); }
  }

  lemma AbsSum(n: nat, f: nat -> real, g: nat -> real)
    requires forall k: nat :: k < n ==> f(k) <= g(k) && -f(k) <= g(k)
    ensures Abs(Sum(n, f)) <= Sum(n, g)
  {
    var minus := (k: nat) => -f(k);
    SumNegate(n, f, minus);
    SumMono(n, f, g);
    SumMono(n, minus, g);
  }

  lemma StepGap(e: (nat, nat) -> real, c: nat -> real, u: seq<real>, v: seq<real>, j: nat)
    requires Shares(e, |u|, c) && Distribution(u) && Distribution(v) && |u| == |v| && j < |u|
    ensures Gaps(StepWith(e, u), StepWith(e, v))(j) <= Sum(|u|, Down(GapMix(Reduced(e, c), u, v), j))
  {
    hide Sum, Distribution, Shares, Reduced;
    var n, r := |u|, Reduced(e, c);
    var f, g := ReducedMix(r, u, v, j), Down(GapMix(r, u, v), j);
    StepDifference(e, c, u, v, j);
    forall i: nat | i < n ensures f(i) <= g(i) && -f(i) <= g(i) {
      ReducedRowSum(e, n, c, i);
      AbsProduct(At(u, i) - At(v, i), r(i, j));
    }
    AbsSum(n, f, g);
  }

  /** A step brings any two probability vectors nearer by the common part of the rows. */
  lemma StepContracts(e: (nat, nat) -> real, c: nat -> real, u: seq<real>, v: seq<real>)
    requires Shares(e, |u|, c) && Distribution(u) && Distribution(v) && |u| == |v|
    ensures Distance(StepWith(e, u), StepWith(e, v)) <= (1.0 - Sum(|u|, c)) * Distance(u, v)
  {
    hide Sum, Distribution, Shares, Reduced;
    var n, a, k := |u|, GapMix(Reduced(e, c), u, v), 1.0 - Sum(|u|, c);
    var cols := (j: nat) => Sum(n, Down(a, j));
    var rows := (i: nat) => k * Gaps(u, v)(i);
    forall j: nat | j < n ensures Gaps(StepWith(e, u), StepWith(e, v))(j) <= cols(j) {
      StepGap(e, c, u, v, j);
    }
    SumMono(n, Gaps(StepWith(e, u), StepWith(e, v)), cols);
    forall i: nat | i < n ensures rows(i) == Sum(n, Across(a, i)) {
      ReducedRowSum(e, n, c, i);
      SumScale(n, Gaps(u, v)(i), RowOf(Reduced(e, c), i), Across(a, i));
    }
    SumSwap(n, n, a, rows, cols);
    SumScale(n, k, Gaps(u, v), rows);
  }

  // ----- some windows of the queue

  function ReachMatrix(p: seq<real>, cap: nat, s: nat): (nat, nat) -> real
    requires 0 < cap
  {
    (i: nat, j: nat) => Reach(p, cap, s, i, j)
  }

  lemma StepIsIterate(p: seq<real>, v: seq<real>, s: nat)
    requires 0 < |v|
    ensures StepWith(ReachMatrix(p, |v|, s), v) == Iterate(p, v, s)
  {
    hide Iterate, Reach, Sum;
    var e := ReachMatrix(p, |v|, s);
    forall j: nat | j < |v| ensures StepWith(e, v)[j] == Iterate(p, v, s)[j] {
      IterateIsOccupancy(p, v, s, j);
      SumCong(|v|, MixWith(e, v, j), StartMix(p, v, s, j));
    }
  }

  /** The fuller queue stays at least as full, and no queue is full after a refresh. */
  lemma {:induction false} OccupiedBetween(cap: nat, i: nat, j: nat, ks: seq<nat>)
    requires i <= j < cap
    ensures Occupied(cap, i, ks) <= Occupied(cap, j, ks) < cap
    decreases |ks|
  {
    if ks == [] {
      assert Windows([]) == [];
    } else {
      assert [ks[0]] + ks[1..] == ks;
      OccupiedStep(cap, i, ks[0], ks[1..]);
      OccupiedStep(cap, j, ks[0], ks[1..]);
      OccupiedBetween(cap, Next(cap, i, ks[0]), Next(cap, j, ks[0]), ks[1..]);
    }
  }

  lemma ReachMono(p: seq<real>, cap: nat, s: nat, i: nat, j: nat, i': nat, j': nat)
    requires Distribution(p) && 0 < cap
    requires forall ks: seq<nat> :: Occupied(cap, i, ks) == j ==> Occupied(cap, i', ks) == j'
    ensures 0.0 <= Reach(p, cap, s, i, j) <= Reach(p, cap, s, i', j')
  {
    hide Expect, Occupied, Distribution;
    var f, g := OccupiedIs(cap, i, j), OccupiedIs(cap, i', j');
    var rest := (ks: seq<nat>) => g(ks) - f(ks);
    ExpectNonNeg(p, s, f);
    ExpectNonNeg(p, s, rest);
    ExpectAdd(p, s, f, rest, g);
  }

  /** From every length the queue fills up at least as often as from empty, and empties at least as often
      as from the greatest length. */
  function Common(p: seq<real>, cap: nat, s: nat): nat -> real
    requires 0 < cap
  {
    (j: nat) =>
      if j + 1 == cap then Reach(p, cap, s, 0, cap - 1)
      else if j == 0 then Reach(p, cap, s, cap - 1, 0)
      else 0.0
  }

  /** What s windows forget of where they start. */
  function Mixing(p: seq<real>, cap: nat, s: nat): real
    requires 0 < cap
  {
    Reach(p, cap, s, 0, cap - 1) + if cap == 1 then 0.0 else Reach(p, cap, s, cap - 1, 0)
  }

  lemma CommonSum(p: seq<real>, cap: nat, s: nat)
    requires 0 < cap
    ensures Sum(cap, Common(p, cap, s)) == Mixing(p, cap, s)
  {
    hide Reach, Sum;
    var c := Common(p, cap, s);
    SumStep(cap - 1, c);
    if cap == 1 { SumStep(0, c); } else { SumSingle(cap - 1, 0, c); }
  }

  lemma CommonBelow(p: seq<real>, cap: nat, s: nat, i: nat, j: nat)
    requires Distribution(p) && i < cap && j < cap
    ensures 0.0 <= Common(p, cap, s)(j) <= Reach(p, cap, s, i, j)
  {
    hide Reach, Occupied, Distribution;
    if j + 1 == cap {
      forall ks: seq<nat> | Occupied(cap, 0, ks) == cap - 1 ensures Occupied(cap, i, ks) == cap - 1 {
        OccupiedBetween(cap, 0, i, ks);
      }
      ReachMono(p, cap, s, 0, cap - 1, i, cap - 1);
    } else if j == 0 {
      forall ks: seq<nat> | Occupied(cap, cap - 1, ks) == 0 ensures Occupied(cap, i, ks) == 0 {
        OccupiedBetween(cap, i, cap - 1, ks);
      }
      ReachMono(p, cap, s, cap - 1, 0, i, 0);
    } else {
      ReachMono(p, cap, s, i, j, i, j);
    }
  }

  lemma ReachRow(p: seq<real>, cap: nat, s: nat, i: nat)
    requires Distribution(p) && i < cap
    ensures Sum(cap, RowOf(ReachMatrix(p, cap, s), i)) == 1.0
  {
    hide Reach, Sum, Expect, Occupied, Distribution;
    var one := (j: nat) => 1.0;
    ExpectOfOccupied(p, cap, s, i, one);
    SumCong(cap, ReachTerms(p, cap, s, i, one), RowOf(ReachMatrix(p, cap, s), i));
    ExpectConst(p, s, 1.0, OfOccupied(cap, i, one));
  }

  lemma WindowsShare(p: seq<real>, cap: nat, s: nat)
    requires Distribution(p) && 0 < cap
    ensures Shares(ReachMatrix(p, cap, s), cap, Common(p, cap, s))
    ensures 0.0 <= Mixing(p, cap, s) <= 1.0
  {
    hide Reach, Sum, Distribution, Mixing, Common;
    var e, c := ReachMatrix(p, cap, s), Common(p, cap, s);
    forall i: nat | i < cap ensures Sum(cap, RowOf(e, i)) == 1.0 { ReachRow(p, cap, s, i); }
    forall i: nat, j: nat | i < cap && j < cap ensures c(j) <= e(i, j) { CommonBelow(p, cap, s, i, j); }
    forall j: nat | j < cap ensures 0.0 <= c(j) <= RowOf(e, 0)(j) { CommonBelow(p, cap, s, 0, j); }
    CommonSum(p, cap, s);
    SumNonNeg(cap, c);
    SumMono(cap, c, RowOf(e, 0));
  }

  /** s windows bring any two starting distributions nearer by what they forget. */
  lemma WindowsContract(p: seq<real>, u: seq<real>, v: seq<real>, s: nat)
    requires Distribution(p) && Distribution(u) && Distribution(v) && |u| == |v| && 0 < |u|
    ensures Distance(Iterate(p, u, s), Iterate(p, v, s)) <= (1.0 - Mixing(p, |u|, s)) * Distance(u, v)
  {
    hide *;
    WindowsShare(p, |u|, s);
    StepContracts(ReachMatrix(p, |u|, s), Common(p, |u|, s), u, v);
    CommonSum(p, |u|, s);
    StepIsIterate(p, u, s);
    StepIsIterate(p, v, s);
  }

  /** A single window forgets at least what fills the queue from empty. */
  lemma OneWindowMixing(p: seq<real>, cap: nat)
    requires Distribution(p) && 0 < cap
    ensures Tail(p, cap) <= Mixing(p, cap, 1)
  {
    hide Reach, Sum, Distribution, Entry, Tail;
    var f := Onward(p, cap, 0, 0, cap - 1);
    ReachStep(p, cap, 0, 0, cap - 1);
    forall h: nat | h < cap ensures f(h) == if h == cap - 1 then Entry(p, cap, 0, cap - 1) else 0.0 {
      ReachNothing(p, cap, h, cap - 1);
    }
    SumSingle(cap, cap - 1, f);
    LastEntryAtLeastTail(p, cap, 0);
    CommonBelow(p, cap, 1, 0, 0);
  }

  lemma ReachNothing(p: seq<real>, cap: nat, i: nat, j: nat)
    requires 0 < cap
    ensures Reach(p, cap, 0, i, j) == if i == j then 1.0 else 0.0
  {
    assert Windows([]) == [];
    assert Occupied(cap, i, []) == i;
  }

  lemma LastEntryAtLeastTail(p: seq<real>, size: nat, i: nat)
    requires Distribution(p) && 0 < size
    ensures Tail(p, size) <= Entry(p, size, i, size - 1)
  {
    SumMono(|p|, TailTerms(p, size), EntryTerms(p, size, i, size - 1));
  }

  // ----- many windows

  lemma DistanceNonNeg(u: seq<real>, v: seq<real>)
    ensures 0.0 <= Distance(u, v)
  {
    SumNonNeg(|u|, Gaps(u, v));
  }

  lemma DistanceAtMostTwo(u: seq<real>, v: seq<real>)
    requires Distribution(u) && Distribution(v) && |u| == |v|
    ensures Distance(u, v) <= 2.0
  {
    var both := (i: nat) => Weights(u)(i) + Weights(v)(i);
    forall i: nat | i < |u| ensures Gaps(u, v)(i) <= both(i) {
      assert 0.0 <= u[i] && 0.0 <= v[i];
    }
    SumMono(|u|, Gaps(u, v), both);
    SumAdd(|u|, Weights(u), Weights(v), both);
  }

  /** t times s windows forget as a power. */
  lemma {:induction false} IterateContracts(p: seq<real>, u: seq<real>, v: seq<real>, s: nat, t: nat)
    requires Distribution(p) && Distribution(u) && Distribution(v) && |u| == |v| && 0 < |u|
    ensures Distance(Iterate(p, u, s * t), Iterate(p, v, s * t)) <= Pow(1.0 - Mixing(p, |u|, s), t) * Distance(u, v)
    decreases t
  {
    hide *;
    if t == 0 {
      assert s * 0 == 0;
      NoIteration(p, u);
      NoIteration(p, v);
      PowZero(1.0 - Mixing(p, |u|, s));
    } else {
      var n := s * (t - 1);
      assert s * t == n + s;
      var c, a, b := 1.0 - Mixing(p, |u|, s), Iterate(p, u, n), Iterate(p, v, n);
      IterateContracts(p, u, v, s, t - 1);
      IterateKeepsDistribution(p, u, n);
      IterateKeepsDistribution(p, v, n);
      WindowsContract(p, a, b, s);
      WindowsShare(p, |u|, s);
      IterateTwice(p, u, n, s);
      IterateTwice(p, v, n, s);
      ProductMono(Distance(a, b), Pow(c, t - 1) * Distance(u, v), c);
      PowStep(c, t);
      Regrouped(c, Pow(c, t - 1), Distance(u, v));
    }
  }

  lemma NoIteration(p: seq<real>, v: seq<real>)
    ensures Iterate(p, v, 0) == v
  {}

  lemma PowZero(b: real)
    ensures Pow(b, 0) == 1.0
  {}

  lemma Regrouped(c: real, x: real, y: real)
    ensures x * y * c == c * x * y
  {}

  lemma {:induction false} PowNonNeg(b: real, e: nat)
    requires 0.0 <= b
    ensures 0.0 <= Pow(b, e)
  {
    if e != 0 {
      PowNonNeg(b, e - 1);
      ProductNonNeg(b, Pow(b, e - 1));
    }
  }

  /** What is left of any difference after the program's iterations, by s windows at a time. */
  function Forgotten(p: seq<real>, cap: nat, s: nat): real
    requires 0 < cap && 0 < s
  {
    2.0 * Pow(1.0 - Mixing(p, cap, s), 1000 / s)
  }

  lemma {:induction false} IterateTwice(p: seq<real>, v: seq<real>, s: nat, t: nat)
    ensures Iterate(p, v, s + t) == Iterate(p, Iterate(p, v, s), t)
    decreases t
  {
    if t != 0 {
      IterateTwice(p, v, s, t - 1);
      assert s + t - 1 == s + (t - 1);
    }
  }

  lemma BothAfter(p: seq<real>, u: seq<real>, v: seq<real>, s: nat, t: nat, r: nat, n: nat)
    requires Distribution(p) && Distribution(u) && Distribution(v) && |u| == |v| && 0 < |u| && n == s * t
    ensures Distance(Iterate(p, u, r + n), Iterate(p, v, r + n)) <= 2.0 * Pow(1.0 - Mixing(p, |u|, s), t)
  {
    hide *;
    var a, b, c := Iterate(p, u, r), Iterate(p, v, r), 1.0 - Mixing(p, |u|, s);
    IterateTwice(p, u, r, n);
    IterateTwice(p, v, r, n);
    IterateKeepsDistribution(p, u, r);
    IterateKeepsDistribution(p, v, r);
    IterateContracts(p, a, b, s, t);
    DistanceAtMostTwo(a, b);
    WindowsShare(p, |u|, s);
    PowNonNeg(c, t);
    ProductMono(Distance(a, b), 2.0, Pow(c, t));
    Swapped(Pow(c, t), Distance(a, b));
  }

  /** Two starting distributions after the program's iterations. */
  lemma BothForgotten(p: seq<real>, u: seq<real>, v: seq<real>, s: nat)
    requires Distribution(p) && Distribution(u) && Distribution(v) && |u| == |v| && 0 < |u| && 0 < s
    ensures Distance(Iterate(p, u, 1000), Iterate(p, v, 1000)) <= Forgotten(p, |u|, s)
  {
    hide *;
    Parted(1000, s);
    BothAfter(p, u, v, s, 1000 / s, 1000 % s, s * (1000 / s));
    ForgottenIs(p, |u|, s);
  }

  lemma Parted(n: nat, s: nat)
    requires 0 < s
    ensures n == n % s + s * (n / s)
  {}

  lemma Swapped(x: real, y: real)
    ensures x * y == y * x
  {}

  lemma ForgottenIs(p: seq<real>, cap: nat, s: nat)
    requires 0 < cap && 0 < s
    ensures Forgotten(p, cap, s) == 2.0 * Pow(1.0 - Mixing(p, cap, s), 1000 / s)
  {}

  /** The vector called stable is within the forgotten part of every distribution the queue length can
      have after that many windows or more, whatever its start and however the windows are grouped. */
  lemma SteadyIsNear(p: seq<real>, cap: nat, v: seq<real>, t: nat, s: nat)
    requires Distribution(p) && Distribution(v) && |v| == cap && 0 < cap && 0 < s
    ensures Distance(Iterate(p, v, t + 1000), Steady(p, cap)) <= Forgotten(p, cap, s)
  {
    hide Iterate, Distribution, Distance, Forgotten;
    IterateTwice(p, v, t, 1000);
    IterateKeepsDistribution(p, v, t);
    UniformIsDistribution(cap);
    BothForgotten(p, Iterate(p, v, t), Uniform(cap), s);
  }

  /** It changes by no more than that in a further window, and is no further from any distribution that a
      window does not change. */
  lemma SteadyIsNearlyStable(p: seq<real>, cap: nat, v: seq<real>, s: nat)
    requires Distribution(p) && Distribution(v) && |v| == cap && 0 < cap && 0 < s
    ensures Distance(StepDist(p, Steady(p, cap)), Steady(p, cap)) <= Forgotten(p, cap, s)
    ensures StepDist(p, v) == v ==> Distance(v, Steady(p, cap)) <= Forgotten(p, cap, s)
  {
    hide Distribution, Distance, Forgotten, StepDist, Iterate;
    UniformIsDistribution(cap);
    SteadyIsNear(p, cap, Uniform(cap), 1, s);
    OneMoreStep(p, Uniform(cap), 1000);
    if StepDist(p, v) == v {
      SteadyIsNear(p, cap, v, 0, s);
      Fixed(p, v, 1000);
    }
  }

  lemma OneMoreStep(p: seq<real>, v: seq<real>, t: nat)
    ensures Iterate(p, v, 1 + t) == StepDist(p, Iterate(p, v, t))
  {}

  lemma {:induction false} Fixed(p: seq<real>, v: seq<real>, t: nat)
    requires StepDist(p, v) == v
    ensures Iterate(p, v, t) == v
  {
    if t != 0 { Fixed(p, v, t - 1); }
  }

  // ----- windows without insertions

  function Nones(s: nat): seq<nat> {
    seq(s, _ => 0)
  }

  lemma {:induction false} EmptiesOut(cap: nat, i: nat, s: nat)
    requires i < cap && i <= s
    ensures Occupied(cap, i, Nones(s)) == 0
    decreases s
  {
    if s == 0 {
      assert Nones(0) == [] && Windows([]) == [];
    } else {
      assert Nones(s) == [0] + Nones(s - 1);
      OccupiedStep(cap, i, 0, Nones(s - 1));
      EmptiesOut(cap, Next(cap, i, 0), s - 1);
    }
  }

  lemma {:induction false} NonesWeigh(p: seq<real>, s: nat, f: seq<nat> -> real)
    requires Distribution(p) && |p| != 0 && (forall ks: seq<nat> :: 0.0 <= f(ks)) && f(Nones(s)) == 1.0
    ensures Pow(At(p, 0), s) <= Expect(p, s, f)
    decreases s
  {
    hide *;
    NonesAre(s);
    if s == 0 {
      NothingDrawn(p, f);
      PowZero(At(p, 0));
    } else {
      var g, first := Prefix(f, 0), FirstDraw(p, s - 1, f);
      PrefixAt(f, 0);
      NonesWeigh(p, s - 1, g);
      FirstDrawSum(p, s - 1, f);
      NonNegativeDraws(p, s - 1, f);
      FirstOfSum(|p|, first);
      FirstDrawIs(p, s - 1, f);
      WeightsNonNeg(p);
      PowStep(At(p, 0), s);
      ProductMono(Pow(At(p, 0), s - 1), Expect(p, s - 1, g), At(p, 0));
    }
  }

  lemma NonesAre(s: nat)
    ensures if s == 0 then Nones(s) == [] else Nones(s) == [0] + Nones(s - 1)
  {}

  lemma NothingDrawn(p: seq<real>, f: seq<nat> -> real)
    ensures Expect(p, 0, f) == f([])
  {}

  lemma PrefixAt(f: seq<nat> -> real, k: nat)
    ensures forall ks: seq<nat> :: Prefix(f, k)(ks) == f([k] + ks)
  {}

  lemma FirstDrawIs(p: seq<real>, m: nat, f: seq<nat> -> real)
    ensures FirstDraw(p, m, f)(0) == At(p, 0) * Expect(p, m, Prefix(f, 0))
  {
    hide Expect;
  }

  lemma FirstOfSum(n: nat, f: nat -> real)
    requires n != 0 && forall k: nat :: 0.0 <= f(k)
    ensures f(0) <= Sum(n, f)
  {
    hide Sum;
    var only := (k: nat) => if k == 0 then f(0) else 0.0;
    SumMono(n, only, f);
    SumSingle(n, 0, only);
  }

  lemma WeightsNonNeg(p: seq<real>)
    requires Distribution(p)
    ensures forall k: nat :: 0.0 <= At(p, k)
  {}

  lemma NonNegativeDraws(p: seq<real>, m: nat, f: seq<nat> -> real)
    requires Distribution(p) && forall ks: seq<nat> :: 0.0 <= f(ks)
    ensures forall k: nat :: 0.0 <= FirstDraw(p, m, f)(k)
  {
    hide Expect, Distribution;
    WeightsNonNeg(p);
    forall k: nat ensures 0.0 <= FirstDraw(p, m, f)(k) {
      ExpectNonNeg(p, m, Prefix(f, k));
      ProductNonNeg(At(p, k), Expect(p, m, Prefix(f, k)));
    }
  }

  /** Enough windows without insertions empty the queue, so something is always forgotten. */
  lemma MixingPositive(p: seq<real>, cap: nat, s: nat)
    requires Distribution(p) && 0.0 < At(p, 0) && 2 <= cap <= s + 1
    ensures 0.0 < Pow(At(p, 0), s) <= Mixing(p, cap, s)
  {
    hide Expect, Occupied, Distribution, Pow;
    EmptiesOut(cap, cap - 1, s);
    NonesWeigh(p, s, OccupiedIs(cap, cap - 1, 0));
    PowPos(At(p, 0), s);
    ReachMono(p, cap, s, 0, cap - 1, 0, cap - 1);
  }

  // ----- the simulation loop in the long run

  lemma StartEmptyIsDistribution(cap: nat)
    requires 0 < cap
    ensures Distribution(StartEmpty(cap))
  {
    SumSingle(cap, 0, Weights(StartEmpty(cap)));
  }

  /** Averages stay within bounds. */
  lemma ExpectBounds(p: seq<real>, m: nat, f: seq<nat> -> real)
    requires Distribution(p) && forall ks: seq<nat> :: 0.0 <= f(ks) <= 1.0
    ensures 0.0 <= Expect(p, m, f) <= 1.0
  {
    hide Expect, Distribution;
    var rest := (ks: seq<nat>) => 1.0 - f(ks);
    var one := (ks: seq<nat>) => 1.0;
    ExpectNonNeg(p, m, f);
    ExpectNonNeg(p, m, rest);
    ExpectAdd(p, m, f, rest, one);
    ExpectConst(p, m, 1.0, one);
  }

  lemma EntryLossBounds(q: real, cap: nat, w: nat, k: nat, size: nat, m: nat)
    requires 0.0 <= q <= 1.0 && 1 <= k <= w && 1 <= size <= cap
    ensures 0.0 <= EntryLoss(q, cap, w, k, size, m) <= 1.0
  {
    hide Expect;
    BernoulliIsDistribution(q);
    ExpectBounds(Bernoulli(q), w - k + w * m, FutureIndicator(cap, w, k, size));
  }

  lemma ByOccupancyBounds(q: real, cap: nat, w: nat, k: nat, m: nat, j: nat)
    requires 0.0 <= q <= 1.0 && 0 < cap && 1 <= k <= w
    ensures 0.0 <= ByOccupancy(q, cap, w, k, m)(j) <= 1.0
  {
    hide EntryLoss, Expect, ByOccupancy;
    ByOccupancyAt(q, cap, w, k, m, j);
    var f := OfCount(ByArrivals(q, cap, w, k, m, j));
    forall bits: seq<nat> ensures 0.0 <= f(bits) <= 1.0 {
      EntryLossBounds(q, cap, w, k, Capped(cap, j + Ones(bits) + 1), m);
    }
    BernoulliIsDistribution(q);
    ExpectBounds(Bernoulli(q), k - 1, f);
  }

  lemma ByOccupancyAt(q: real, cap: nat, w: nat, k: nat, m: nat, j: nat)
    requires 0 < cap && 1 <= k <= w
    ensures ByOccupancy(q, cap, w, k, m)(j) == Averaged(q, k - 1, ByArrivals(q, cap, w, k, m, j))
  {
    hide Averaged, EntryLoss;
  }

  /** The average over the stable queue lengths of the loss at position k. */
  function LongRunLoss(q: real, cap: nat, w: nat, k: nat, m: nat): real
    requires 0 < cap && 1 <= k <= w
  {
    Sum(cap, MixTerms(Steady(CountDist(q, w), cap), ByOccupancy(q, cap, w, k, m)))
  }

  lemma MixGap(u: seq<real>, v: seq<real>, f: nat -> real)
    requires |u| == |v| && forall j: nat :: j < |u| ==> 0.0 <= f(j) <= 1.0
    ensures Abs(Sum(|u|, MixTerms(u, f)) - Sum(|u|, MixTerms(v, f))) <= Distance(u, v)
  {
    hide Sum;
    var n := |u|;
    var d := (j: nat) => MixTerms(u, f)(j) - MixTerms(v, f)(j);
    SumAdd(n, d, MixTerms(v, f), MixTerms(u, f));
    forall j: nat | j < n ensures d(j) <= Gaps(u, v)(j) && -d(j) <= Gaps(u, v)(j) {
      TermGap(At(u, j), At(v, j), f(j));
    }
    AbsSum(n, d, Gaps(u, v));
  }

  lemma TermGap(x: real, y: real, f: real)
    requires 0.0 <= f <= 1.0
    ensures x * f - y * f <= Abs(x - y) && -(x * f - y * f) <= Abs(x - y)
  {
    TermBelow(x - y, Abs(x - y), f);
    TermBelow(y - x, Abs(x - y), f);
    DistributeDifference(x, y, f);
    DistributeDifference(y, x, f);
  }

  lemma TermBelow(d: real, a: real, f: real)
    requires 0.0 <= f <= 1.0 && 0.0 <= a && d <= a
    ensures d * f <= a
  {
    ProductMono(d, a, f);
    assert d * f <= a * f;
    ProductMono(f, 1.0, a);
    assert a * f == f * a <= 1.0 * a;
  }

  /** From the 1000th window on, the loss of the entry that position k of a window inserts is the average
      over the program's stable vector, up to what 1000 windows have not forgotten. */
  lemma LongRun(q: real, cap: nat, w: nat, t: nat, k: nat, m: nat, s: nat)
    requires 0.0 <= q <= 1.0 && 0 < cap && 1 <= k <= w && 0 < s
    ensures Abs(LossOf(q, cap, w, w * (t + 1000) + (k - 1), m) - LongRunLoss(q, cap, w, k, m))
         <= Forgotten(CountDist(q, w), cap, s)
  {
    hide *;
    var p, f := CountDist(q, w), ByOccupancy(q, cap, w, k, m);
    var u := Iterate(p, StartEmpty(cap), t + 1000);
    CountDistIsDistribution(q, w);
    StartEmptyIsDistribution(cap);
    SteadyIsNear(p, cap, StartEmpty(cap), t, s);
    LossByPosition(q, cap, w, t + 1000, k, m);
    PositionTermsAre(q, cap, w, t + 1000, k, m);
    LongRunIs(q, cap, w, k, m);
    forall j: nat | j < cap ensures 0.0 <= f(j) <= 1.0 {
      ByOccupancyBounds(q, cap, w, k, m, j);
    }
    MixGap(u, Steady(p, cap), f);
  }

  lemma PositionTermsAre(q: real, cap: nat, w: nat, t: nat, k: nat, m: nat)
    requires 0 < cap && 1 <= k <= w
    ensures Sum(cap, PositionTerms(q, cap, w, t, k, m))
         == Sum(cap, MixTerms(Iterate(CountDist(q, w), StartEmpty(cap), t), ByOccupancy(q, cap, w, k, m)))
  {
    hide Iterate, ByOccupancy, CountDist, Sum;
    SumCong(cap, PositionTerms(q, cap, w, t, k, m),
            MixTerms(Iterate(CountDist(q, w), StartEmpty(cap), t), ByOccupancy(q, cap, w, k, m)));
  }

  lemma LongRunIs(q: real, cap: nat, w: nat, k: nat, m: nat)
    requires 0 < cap && 1 <= k <= w
    ensures LongRunLoss(q, cap, w, k, m)
         == Sum(cap, MixTerms(Steady(CountDist(q, w), cap), ByOccupancy(q, cap, w, k, m)))
  {}

  // ----- the printed number against the loop

  /** The effect of the one activation that an entry at the first position does not see. */
  function FirstExcess(q: real, cap: nat, w: nat, m: nat): nat -> real
    requires 0 < w
  {
    (s: nat) => if s < cap then q * Averaged(q, w - 1, Increase(GivenCount(q, cap, w, s + 1, m))) else 0.0
  }

  lemma FirstPosition(q: real, cap: nat, w: nat, m: nat, s: nat)
    requires 0.0 <= q <= 1.0 && 0 < w && s < cap <= m
    ensures ByOccupancy(q, cap, w, 1, m)(s) == EntryLoss(q, cap, w, 1, s + 1, m)
    ensures WholeWindows(q, cap, w, s + 1, m) == EntryLoss(q, cap, w, 1, s + 1, m) + FirstExcess(q, cap, w, m)(s)
  {
    hide Averaged, EntryLoss, WholeWindows, Sum;
    ByOccupancyAt(q, cap, w, 1, m, s);
    AveragedNone(q, ByArrivals(q, cap, w, 1, m, s));
    var g := GivenCount(q, cap, w, s + 1, m);
    WholeWindowExcess(q, cap, w, 1, s + 1, m);
    OneTerm(IncreaseTerms(q, w - 1, g));
    assert w - 1 + 0 == w - 1;
  }

  /** The printed loss probability is the long-run loss of the first position of a window plus the average
      effect of one further activation, which no entry of the loop sees. */
  lemma PrintedExcess(q: real, cap: nat, w: nat, m: nat, probN: seq<real>, cprobN: seq<real>)
    requires 0.0 < q < 1.0 && 1 <= w && Tables(CountDist(q, w), probN, cprobN)
    requires 2 <= cap < MAX_SIZE && cap <= m
    ensures |probN| == |cprobN| == MAX_SIZE + 1
    ensures Printed(probN, cprobN, cap)
         == LongRunLoss(q, cap, w, 1, m) + Sum(cap, MixTerms(Steady(CountDist(q, w), cap), FirstExcess(q, cap, w, m)))
  {
    hide *;
    var p := CountDist(q, w);
    TableLength(p, probN, cprobN);
    CountDistIsDistribution(q, w);
    SteadyOfTable(p, probN, cprobN, cap);
    PrintedUnfold(q, w, probN, cprobN, cap, m);
    LongRunIs(q, cap, w, 1, m);
    var v, rec, f, x := Steady(p, cap), NewestRec(probN, cprobN, cap), ByOccupancy(q, cap, w, 1, m), FirstExcess(q, cap, w, m);
    forall s: nat | s < cap ensures MixTerms(v, rec)(s) == MixTerms(v, f)(s) + MixTerms(v, x)(s) {
      FirstPosition(q, cap, w, m, s);
      RecursionIsWholeWindows(q, cap, w, s + 1, m, probN, cprobN);
      NewestIs(probN, cprobN, cap, s);
      MixTermsAt(v, rec, s);
      MixTermsAt(v, f, s);
      MixTermsAt(v, x, s);
      Split(v[s], f(s), x(s));
    }
    SumAdd(cap, MixTerms(v, f), MixTerms(v, x), MixTerms(v, rec));
  }

  lemma NewestIs(probN: seq<real>, cprobN: seq<real>, cap: nat, s: nat)
    requires s < cap <= MAX_SIZE && |probN| == |cprobN| == MAX_SIZE + 1
    ensures NewestRec(probN, cprobN, cap)(s) == LossRec(probN, cprobN, cap, s, s + 1)
  {
    hide LossRec;
  }
}
