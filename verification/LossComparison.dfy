/** The analytical recursion against the simulation loop: by how much they differ, and when they
    agree. */
module LossComparison {
  import opened RealSums
  import opened Expectation
  import opened Binomial
  import opened LossModel
  import opened ActivationLoss
  import opened SimulatedLoss
  import opened LossTable

  // ----- averages over a number of activations

  lemma AveragedNone(q: real, g: nat -> real)
    ensures Averaged(q, 0, g) == g(0)
  {
    assert Ones([]) == 0;
  }

  lemma AveragedStep(q: real, n: nat, g: nat -> real)
    ensures Averaged(q, n + 1, g) == (1.0 - q) * Averaged(q, n, g) + q * Averaged(q, n, Shift(g))
  {
    ExpectBit(q, n, OfCount(g));
    PrefixOfCount(q, n, g);
  }

  function Increase(g: nat -> real): nat -> real {
    (k: nat) => g(k + 1) - g(k)
  }

  lemma IncreaseAt(g: nat -> real, k: nat)
    ensures Increase(g)(k) == g(k + 1) - g(k)
  {}

  /** One more activation changes the average by q times the average effect of one more insertion. */
  lemma OneMoreActivation(q: real, n: nat, g: nat -> real)
    ensures Averaged(q, n + 1, g) == Averaged(q, n, g) + q * Averaged(q, n, Increase(g))
  {
    hide Expect;
    AveragedStep(q, n, g);
    ExpectAdd(Bernoulli(q), n, OfCount(g), OfCount(Increase(g)), OfCount(Shift(g)));
    Blend(q, Averaged(q, n, g), Averaged(q, n, Increase(g)));
  }

  lemma Blend(q: real, x: real, y: real)
    ensures (1.0 - q) * x + q * (x + y) == x + q * y
  {}

  function IncreaseTerms(q: real, n: nat, g: nat -> real): nat -> real {
    (i: nat) => Averaged(q, n + i, Increase(g))
  }

  lemma {:induction false} MoreActivations(q: real, n: nat, k: nat, g: nat -> real)
    ensures Averaged(q, n + k, g) == Averaged(q, n, g) + q * Sum(k, IncreaseTerms(q, n, g))
  {
    hide Averaged, Sum;
    var f := IncreaseTerms(q, n, g);
    SumStep(0, f);
    if k != 0 {
      MoreActivations(q, n, k - 1, g);
      OneMoreActivation(q, n + (k - 1), g);
      SumStep(k - 1, f);
      Split(q, Sum(k - 1, f), f(k - 1));
      assert Averaged(q, n + k, g) == Averaged(q, n + (k - 1), g) + q * f(k - 1);
      assert Sum(k, f) == Sum(k - 1, f) + f(k - 1);
      assert q * Sum(k, f) == q * Sum(k - 1, f) + q * f(k - 1);
    }
  }

  lemma Split(q: real, x: real, y: real)
    ensures q * (x + y) == q * x + q * y
  {}

  /** If the averages over 0, 1, ..., n activations are all c, then so is the value at n. */
  lemma {:induction false} ConstantAverages(q: real, g: nat -> real, c: real, n: nat)
    requires 0.0 < q
    requires forall i: nat :: i <= n ==> Averaged(q, i, g) == c
    ensures g(n) == c
    decreases n
  {
    hide Averaged;
    if n == 0 {
      AveragedNone(q, g);
    } else {
      forall i: nat | i <= n - 1 ensures Averaged(q, i, Shift(g)) == c {
        AveragedStep(q, i, g);
        assert Averaged(q, i, g) == c && Averaged(q, i + 1, g) == c;
        Cancel(q, c, Averaged(q, i, Shift(g)));
      }
      ConstantAverages(q, Shift(g), c, n - 1);
    }
  }

  lemma Cancel(q: real, c: real, x: real)
    requires 0.0 < q && c == (1.0 - q) * c + q * x
    ensures x == c
  {
    assert q * (x - c) == 0.0;
  }

  // ----- the recursion's weight

  lemma LossNonNeg(p: seq<real>, cap: nat, size: nat, ptr: nat, m: nat)
    requires Distribution(p) && 0 < cap
    ensures 0.0 <= LossWeight(p, cap, size, ptr, m)
  {
    ExpectNonNeg(p, m, LossIndicator(cap, size, ptr));
  }

  /** An entry has left the queue after as many windows as it has predecessors. */
  lemma {:induction false} HorizonIrrelevant(p: seq<real>, cap: nat, size: nat, ptr: nat, m: nat, m': nat)
    requires Distribution(p) && ptr < size <= cap && ptr < m && ptr < m'
    ensures LossWeight(p, cap, size, ptr, m) == LossWeight(p, cap, size, ptr, m')
    decreases ptr
  {
    hide LossWeight, Sum, Distribution;
    LossWeightStep(p, cap, size, ptr, m - 1);
    LossWeightStep(p, cap, size, ptr, m' - 1);
    var full := FullThreshold(cap, ptr, size);
    var kept, kept' := Survivors(p, cap, size, ptr, m - 1), Survivors(p, cap, size, ptr, m' - 1);
    forall k: nat | k < full ensures kept(k) == kept'(k) {
      if 0 < ptr {
        var next := AfterWindow(cap, ptr, size, k);
        HorizonIrrelevant(p, cap, next.1, next.0, m - 1, m' - 1);
      }
    }
    SumCong(full, kept, kept');
  }

  lemma TailNonNeg(p: seq<real>, i: nat)
    requires Distribution(p)
    ensures 0.0 <= Tail(p, i)
  {
    SumNonNeg(|p|, TailTerms(p, i));
  }

  /** With two or more activations per window an entry can be lost if its predecessors last long enough
      for the insertions that are missing. */
  lemma {:induction false} LossPossible(q: real, w: nat, cap: nat, size: nat, ptr: nat, m: nat)
    requires 0.0 < q < 1.0 && (2 <= w || (w == 1 && ptr == 0)) && ptr < size <= cap && ptr < m
    requires FullThreshold(cap, ptr, size) + 1 <= (ptr + 1) * w
    ensures 0.0 < LossWeight(CountDist(q, w), cap, size, ptr, m)
    decreases ptr
  {
    hide LossWeight, Sum, Tail, Distribution, CountDist;
    var p, full, kept := CountDist(q, w), FullThreshold(cap, ptr, size), Survivors(CountDist(q, w), cap, size, ptr, m - 1);
    CountDistIsDistribution(q, w);
    LossWeightStep(p, cap, size, ptr, m - 1);
    TailNonNeg(p, full + 1);
    forall k: nat | k < full ensures 0.0 <= kept(k) { SurvivorNonNeg(p, cap, size, ptr, m - 1, k); }
    if full < w {
      TailPositive(q, w, full + 1);
      SumNonNeg(full, kept);
    } else {
      var k := Needed(w, full, ptr);
      var next := AfterWindow(cap, ptr, size, k);
      assert (ptr + 1) * w == ptr * w + w;
      LossPossible(q, w, cap, next.1, next.0, m - 1);
      CountPositive(q, w, k);
      CountAt(q, w, k);
      ProductPositive(At(p, k), LossWeight(p, cap, next.1, next.0, m - 1));
      SumPositive(full, k, kept);
    }
  }

  /** The insertions of one window that leave no more than the other windows can hold. */
  function Needed(w: nat, full: nat, ptr: nat): (k: nat)
    requires 2 <= w <= full && ptr <= full && full + 1 <= (ptr + 1) * w
    ensures 0 < ptr && k < full && k <= w && k + ptr <= full && full - k + 1 <= ptr * w
  {
    assert (ptr + 1) * w == ptr * w + w;
    assert ptr == 0 ==> ptr * w == 0;
    MoreThanOnce(ptr, w);
    if ptr * w < full + 1 then full + 1 - ptr * w else 0
  }

  lemma MoreThanOnce(ptr: nat, w: nat)
    requires 2 <= w
    ensures 2 * ptr <= ptr * w
  {
    assert 0 <= ptr * (w - 2);
    assert ptr * w == 2 * ptr + ptr * (w - 2);
  }

  lemma SurvivorNonNeg(p: seq<real>, cap: nat, size: nat, ptr: nat, m: nat, k: nat)
    requires Distribution(p) && ptr < size <= cap
    ensures 0.0 <= Survivors(p, cap, size, ptr, m)(k)
  {
    hide LossWeight;
    if k < FullThreshold(cap, ptr, size) && 0 < ptr {
      var next := AfterWindow(cap, ptr, size, k);
      LossNonNeg(p, cap, next.1, next.0, m);
      assert 0.0 <= At(p, k);
      ProductNonNeg(At(p, k), LossWeight(p, cap, next.1, next.0, m));
    }
  }

  /** With one activation per window, nothing is lost unless the queue holds a single entry. */
  lemma {:induction false} LossImpossible(q: real, cap: nat, size: nat, ptr: nat, m: nat)
    requires 0.0 <= q <= 1.0 && 2 <= cap && ptr < size <= cap && 1 <= FullThreshold(cap, ptr, size)
    ensures LossWeight(CountDist(q, 1), cap, size, ptr, m) == 0.0
    decreases m
  {
    hide Sum, Tail, Distribution, CountDist;
    var p, full := CountDist(q, 1), FullThreshold(cap, ptr, size);
    CountDistIsDistribution(q, 1);
    if m == 0 {
      assert Windows([]) == [];
    } else {
      hide LossWeight;
      LossWeightStep(p, cap, size, ptr, m - 1);
      NoTail(q, 1, full + 1);
      var kept := Survivors(p, cap, size, ptr, m - 1);
      forall k: nat | k < full ensures kept(k) == 0.0 {
        if 0 < ptr {
          var next := AfterWindow(cap, ptr, size, k);
          LossImpossible(q, cap, next.1, next.0, m - 1);
        }
      }
      SumZero(full, kept);
    }
  }

  lemma NoTail(q: real, n: nat, i: nat)
    requires n < i
    ensures Tail(CountDist(q, n), i) == 0.0
  {
    SumZero(n + 1, TailTerms(CountDist(q, n), i));
  }

  // ----- the difference

  /** The weight the recursion means, over at least as many windows as the queue has places. */
  function WholeWindows(q: real, cap: nat, w: nat, size: nat, m: nat): real
    requires 1 <= size <= cap
  {
    LossWeight(CountDist(q, w), cap, size, size - 1, m)
  }

  /** By how much the whole-window weight exceeds the loss of an entry inserted at position k: q times
      the average effect of one more insertion, summed over the k activations that the entry does not
      see. */
  lemma WholeWindowExcess(q: real, cap: nat, w: nat, k: nat, size: nat, m: nat)
    requires 0.0 <= q <= 1.0 && 1 <= k <= w && 1 <= size <= cap <= m
    ensures WholeWindows(q, cap, w, size, m)
         == EntryLoss(q, cap, w, k, size, m) + q * Sum(k, IncreaseTerms(q, w - k, GivenCount(q, cap, w, size, m)))
  {
    hide *;
    var g, n := GivenCount(q, cap, w, size, m), w - k;
    CountDistIsDistribution(q, w);
    HorizonIrrelevant(CountDist(q, w), cap, size, size - 1, m, m + 1);
    WholeWindowsIs(q, cap, w, size, m);
    WholeWindowSplit(q, cap, w, size, m);
    EntryLossSplit(q, cap, w, k, size, m);
    MoreActivations(q, n, k, g);
    assert n + k == w;
    assert Averaged(q, w, g) == Averaged(q, n, g) + q * Sum(k, IncreaseTerms(q, n, g));
  }

  lemma WholeWindowsIs(q: real, cap: nat, w: nat, size: nat, m: nat)
    requires 1 <= size <= cap
    ensures WholeWindows(q, cap, w, size, m) == LossWeight(CountDist(q, w), cap, size, size - 1, m)
  {}

  /** The last position of a window sees nothing of it: its entry meets whole windows one place further
      on. */
  lemma LastPosition(q: real, cap: nat, w: nat, size: nat, m: nat)
    requires 0.0 <= q <= 1.0 && 1 <= w && 1 <= size <= cap <= m
    ensures size == 1 ==> EntryLoss(q, cap, w, w, size, m) == 0.0
    ensures 2 <= size ==> EntryLoss(q, cap, w, w, size, m) == WholeWindows(q, cap, w, size - 1, m)
  {
    hide *;
    var g := GivenCount(q, cap, w, size, m);
    EntryLossSplit(q, cap, w, w, size, m);
    AveragedNone(q, g);
    assert Averaged(q, w - w, g) == g(0);
    GivenNone(q, cap, w, size, m);
  }

  lemma GivenNone(q: real, cap: nat, w: nat, size: nat, m: nat)
    requires 1 <= size <= cap
    ensures size == 1 ==> GivenCount(q, cap, w, size, m)(0) == 0.0
    ensures 2 <= size ==> GivenCount(q, cap, w, size, m)(0) == WholeWindows(q, cap, w, size - 1, m)
  {
    hide LossWeight, CountDist;
    if 2 <= size { assert AfterWindow(cap, size - 1, size, 0) == (size - 2, size - 1); }
  }

  /** The largest queue can always lose its newest entry, if a window has two or more activations. */
  lemma NewestCanBeLost(q: real, cap: nat, w: nat, m: nat)
    requires 0.0 < q < 1.0 && 1 <= cap <= m && (2 <= w || (w == 1 && cap == 1))
    ensures 0.0 < WholeWindows(q, cap, w, cap, m)
  {
    if cap == 1 {
      assert (0 + 1) * w == w;
    } else {
      MoreThanOnce(cap, w);
    }
    LossPossible(q, w, cap, cap, cap - 1, m);
  }

  /** Does the whole-window weight give the loss of every entry the loop can insert? */
  ghost predicate FitsAllEntries(q: real, cap: nat, w: nat, m: nat)
    requires 1 <= cap
  {
    forall k: nat, size: nat :: 1 <= k <= w && 1 <= size <= cap ==>
      EntryLoss(q, cap, w, k, size, m) == WholeWindows(q, cap, w, size, m)
  }

  /** It does if and only if a window has one activation and the queue more than one place, that is,
      when nothing can be lost at all. */
  lemma WholeWindowsFit(q: real, cap: nat, w: nat, m: nat)
    requires 0.0 < q < 1.0 && 1 <= w && 1 <= cap <= m
    ensures FitsAllEntries(q, cap, w, m) <==> w == 1 && 2 <= cap
  {
    hide WholeWindows, EntryLoss;
    if w == 1 && 2 <= cap {
      forall k: nat, size: nat | 1 <= k <= w && 1 <= size <= cap
        ensures EntryLoss(q, cap, w, k, size, m) == WholeWindows(q, cap, w, size, m)
      {
        LastPosition(q, cap, w, size, m);
        NothingLost(q, cap, size, m);
        if 2 <= size { NothingLost(q, cap, size - 1, m); }
      }
    } else if FitsAllEntries(q, cap, w, m) {
      AllZero(q, cap, w, cap, m);
      NewestCanBeLost(q, cap, w, m);
    }
  }

  lemma NothingLost(q: real, cap: nat, size: nat, m: nat)
    requires 0.0 <= q <= 1.0 && 2 <= cap && 1 <= size <= cap
    ensures WholeWindows(q, cap, 1, size, m) == 0.0
  {
    LossImpossible(q, cap, size, size - 1, m);
  }

  lemma {:induction false} AllZero(q: real, cap: nat, w: nat, size: nat, m: nat)
    requires 0.0 <= q <= 1.0 && 1 <= w && 1 <= size <= cap <= m && FitsAllEntries(q, cap, w, m)
    ensures WholeWindows(q, cap, w, size, m) == 0.0
    decreases size
  {
    hide WholeWindows, EntryLoss;
    LastPosition(q, cap, w, size, m);
    assert EntryLoss(q, cap, w, w, size, m) == WholeWindows(q, cap, w, size, m);
    if size != 1 { AllZero(q, cap, w, size - 1, m); }
  }

  // ----- the program's recursion

  lemma RecursionIsWholeWindows(q: real, cap: nat, w: nat, size: nat, m: nat, probN: seq<real>, cprobN: seq<real>)
    requires 0.0 < q < 1.0 && 1 <= w && Tables(CountDist(q, w), probN, cprobN)
    requires 1 <= size <= cap <= MAX_SIZE && cap <= m && (cap < MAX_SIZE || w < MAX_SIZE)
    ensures |probN| == |cprobN| == MAX_SIZE + 1
    ensures LossRec(probN, cprobN, cap, size - 1, size) == WholeWindows(q, cap, w, size, m)
  {
    hide Tail, CountDist, LossRec, LossWeight;
    CountDistIsDistribution(q, w);
    if w < MAX_SIZE { NoTail(q, w, MAX_SIZE); }
    LossRecExact(CountDist(q, w), probN, cprobN, cap, size - 1, size, m);
  }

  /** Does calc_lossprob give the loss of every entry the loop can insert? */
  ghost predicate RecursionFits(q: real, cap: nat, w: nat, m: nat, probN: seq<real>, cprobN: seq<real>)
    requires 1 <= cap <= MAX_SIZE && |probN| == |cprobN| == MAX_SIZE + 1
  {
    forall k: nat, size: nat :: 1 <= k <= w && 1 <= size <= cap ==>
      EntryLoss(q, cap, w, k, size, m) == LossRec(probN, cprobN, cap, size - 1, size)
  }

  /** The recursion gives the loss of every entry of the simulation loop if and only if a window has one
      activation and the tracker more than one place, at every capacity the table can be read for. */
  lemma RecursionFitsSimulator(q: real, cap: nat, w: nat, m: nat, probN: seq<real>, cprobN: seq<real>)
    requires 0.0 < q < 1.0 && 1 <= w && Tables(CountDist(q, w), probN, cprobN)
    requires 1 <= cap <= MAX_SIZE && cap <= m
    ensures |probN| == |cprobN| == MAX_SIZE + 1
    ensures RecursionFits(q, cap, w, m, probN, cprobN) <==> w == 1 && 2 <= cap
  {
    hide EntryLoss, LossRec, WholeWindows;
    TableLength(CountDist(q, w), probN, cprobN);
    if cap < MAX_SIZE || w < MAX_SIZE {
      forall size: nat | 1 <= size <= cap
        ensures LossRec(probN, cprobN, cap, size - 1, size) == WholeWindows(q, cap, w, size, m)
      {
        RecursionIsWholeWindows(q, cap, w, size, m, probN, cprobN);
      }
      WholeWindowsFit(q, cap, w, m);
    } else if RecursionFits(q, cap, w, m, probN, cprobN) {
      LargestFitsNot(q, w, m, LossRec(probN, cprobN, cap, 1, 2));
    }
  }

  /** At the largest capacity and for long windows the losses of the second entry are not all one
      number, so no recursion could give them. */
  lemma LargestFitsNot(q: real, w: nat, m: nat, c: real)
    requires 0.0 < q < 1.0 && MAX_SIZE <= w && MAX_SIZE <= m
    ensures !(forall k: nat :: 1 <= k <= w ==> EntryLoss(q, MAX_SIZE, w, k, 2, m) == c)
  {
    hide EntryLoss, Averaged, CountDist, LossWeight;
    var cap, g := MAX_SIZE, GivenCount(q, MAX_SIZE, w, 2, m);
    if forall k: nat :: 1 <= k <= w ==> EntryLoss(q, cap, w, k, 2, m) == c {
      forall i: nat | i <= cap - 1 ensures Averaged(q, i, g) == c {
        assert EntryLoss(q, cap, w, w - i, 2, m) == c;
        EntryLossSplit(q, cap, w, w - i, 2, m);
      }
      ConstantAverages(q, g, c, 0);
      ConstantAverages(q, g, c, cap - 1);
      assert g(cap - 1) == 0.0;
      assert g(0) == LossWeight(CountDist(q, w), cap, 1, 0, m);
      assert (0 + 1) * w == w;
      LossPossible(q, w, cap, 1, 0, m);
    }
  }

  // ----- an entry that is alone in the queue

  /** An entry that is inserted into an empty queue is lost less often than the recursion says, unless a
      window cannot fill the queue: then both say never. */
  lemma LoneEntry(q: real, cap: nat, w: nat, k: nat, m: nat)
    requires 0.0 < q < 1.0 && 1 <= k <= w && 1 <= cap <= m
    ensures EntryLoss(q, cap, w, k, 1, m) == Tail(CountDist(q, w - k), cap)
    ensures WholeWindows(q, cap, w, 1, m) == Tail(CountDist(q, w), cap)
    ensures EntryLoss(q, cap, w, k, 1, m) <= WholeWindows(q, cap, w, 1, m)
    ensures EntryLoss(q, cap, w, k, 1, m) == WholeWindows(q, cap, w, 1, m) <==> w < cap
  {
    hide EntryLoss, LossWeight, CountDist, Tail, Sum, Averaged;
    EntryLossExact(q, cap, w, k, 1, m);
    SumZero(cap - 1, SurvivorsOf(q, w - k, cap, w, 1, m));
    CountDistIsDistribution(q, w);
    LossWeightStep(CountDist(q, w), cap, 1, 0, m - 1);
    SumZero(cap - 1, Survivors(CountDist(q, w), cap, 1, 0, m - 1));
    WholeWindowExcess(q, cap, w, k, 1, m);
    if w < cap {
      NoTail(q, w, cap);
      NoTail(q, w - k, cap);
    } else {
      LoneIncrease(q, cap, w, k, m);
    }
  }

  /** Only the insertion that fills the queue matters for a lone entry. */
  lemma LoneIncrease(q: real, cap: nat, w: nat, k: nat, m: nat)
    requires 0.0 < q < 1.0 && 1 <= k <= w && 1 <= cap <= w
    ensures 0.0 < q * Sum(k, IncreaseTerms(q, w - k, GivenCount(q, cap, w, 1, m)))
  {
    hide Sum, Averaged, CountDist, CountWeight;
    var g := GivenCount(q, cap, w, 1, m);
    var f := IncreaseTerms(q, w - k, g);
    forall i: nat ensures f(i) == CountWeight(q, w - k + i, cap - 1) {
      LoneAverage(q, cap, w, m, w - k + i);
    }
    forall i: nat | i < k ensures 0.0 <= f(i) {
      CountNonNeg(q, w - k + i, cap - 1);
    }
    CountPositive(q, w - 1, cap - 1);
    SumPositive(k, k - 1, f);
    ProductPositive(q, Sum(k, f));
  }

  lemma LoneAverage(q: real, cap: nat, w: nat, m: nat, n: nat)
    requires 1 <= cap
    ensures Averaged(q, n, Increase(GivenCount(q, cap, w, 1, m))) == CountWeight(q, n, cap - 1)
  {
    var g := Increase(GivenCount(q, cap, w, 1, m));
    forall bits: seq<nat> ensures OfCount(g)(bits) == CountIs(cap - 1)(bits) {}
    ExpectCong(Bernoulli(q), n, OfCount(g), CountIs(cap - 1));
  }

  /** For one entry the loss at position k is the closed form of the figure, and always below what the
      recursion gives. */
  lemma SingleEntryBelowRecursion(w: nat, k: nat, m: nat, probN: seq<real>, cprobN: seq<real>)
    requires 2 <= w && 1 <= k <= w && 1 <= m && Tables(CountDist(1.0 / w as real, w), probN, cprobN)
    ensures |probN| == |cprobN| == MAX_SIZE + 1
    ensures EntryLoss(1.0 / w as real, 1, w, k, 1, m) == SingleEntryLoss(k, w) < LossRec(probN, cprobN, 1, 0, 1)
  {
    hide *;
    var q := 1.0 / w as real;
    InverseBelowOne(w);
    MaxSizeIs();
    LoneEntry(q, 1, w, k, m);
    AtLeastOne(q, w - k);
    RecursionIsWholeWindows(q, 1, w, 1, m, probN, cprobN);
    SingleEntryIs(k, w);
  }

  lemma InverseBelowOne(w: nat)
    requires 2 <= w
    ensures 0.0 < 1.0 / w as real < 1.0
  {}

  lemma MaxSizeIs()
    ensures MAX_SIZE == 16
  {}

  lemma SingleEntryIs(k: nat, w: nat)
    requires 1 <= k <= w
    ensures SingleEntryLoss(k, w) == 1.0 - Pow(1.0 - 1.0 / w as real, w - k)
  {}

  // ----- two activations per window

  lemma HalfCounts()
    ensures CountWeight(0.5, 1, 0) == 0.5 && CountWeight(0.5, 1, 1) == 0.5
    ensures CountWeight(0.5, 2, 0) == 0.25 && CountWeight(0.5, 2, 1) == 0.5 && CountWeight(0.5, 2, 2) == 0.25
  {
    hide CountWeight;
    Base(0.5);
    CountOutside(0.5, 0, -1);
    CountOutside(0.5, 0, 1);
    CountOutside(0.5, 1, -1);
    CountOutside(0.5, 1, 2);
    Pascal(0.5, 0, 0);
    Pascal(0.5, 0, 1);
    Pascal(0.5, 1, 0);
    Pascal(0.5, 1, 1);
    Pascal(0.5, 1, 2);
  }

  lemma HalfTable(probN: seq<real>, cprobN: seq<real>)
    requires Tables(CountDist(0.5, 2), probN, cprobN)
    ensures |probN| == |cprobN| == MAX_SIZE + 1
    ensures probN[0] == 0.25 && probN[1] == 0.5 && cprobN[2] == 0.25 && cprobN[3] == 0.0
  {
    hide CountWeight, Sum, Tail;
    var p := CountDist(0.5, 2);
    HalfCounts();
    CountDistIsDistribution(0.5, 2);
    BalanceIsTail(p, 2);
    SumStep(0, Weights(p));
    SumStep(1, Weights(p));
    NoTail(0.5, 2, 3);
  }

  lemma TwoTerms(f: nat -> real)
    ensures Sum(2, f) == f(0) + f(1)
  {
    SumStep(0, f);
    SumStep(1, f);
  }

  /** calc_lossprob for a queue of three places, two activations per window and insertions with
      probability one half. */
  lemma HalfRecursion(probN: seq<real>, cprobN: seq<real>)
    requires Tables(CountDist(0.5, 2), probN, cprobN)
    ensures |probN| == |cprobN| == MAX_SIZE + 1
    ensures LossRec(probN, cprobN, 3, 0, 1) == 0.0 && LossRec(probN, cprobN, 3, 0, 2) == 0.25
    ensures LossRec(probN, cprobN, 3, 1, 2) == 0.125 && LossRec(probN, cprobN, 3, 2, 3) == 5.0 / 32.0
  {
    hide Sum, LossRec, LossTerm, Tables;
    HalfTable(probN, cprobN);
    LossRecUnfold(probN, cprobN, 3, 0, 1);
    LossRecUnfold(probN, cprobN, 3, 0, 2);
    LossRecUnfold(probN, cprobN, 3, 1, 2);
    LossRecUnfold(probN, cprobN, 3, 2, 3);
    TwoTerms(LossTerms(probN, cprobN, 3, 1, 2));
    TwoTerms(LossTerms(probN, cprobN, 3, 2, 3));
    LossTermUnfold(probN, cprobN, 3, 1, 2, 0);
    LossTermUnfold(probN, cprobN, 3, 1, 2, 1);
    LossTermUnfold(probN, cprobN, 3, 2, 3, 0);
    LossTermUnfold(probN, cprobN, 3, 2, 3, 1);
  }

  /** An entry that the first activation of a window inserts as the third is lost with weight 3/16; the
      recursion over a table of these weights, which the program never builds, gives 5/32. */
  lemma HalfEntry(probN: seq<real>, cprobN: seq<real>, m: nat)
    requires Tables(CountDist(0.5, 2), probN, cprobN) && 3 <= m
    ensures |probN| == |cprobN| == MAX_SIZE + 1
    ensures EntryLoss(0.5, 3, 2, 1, 3, m) == 3.0 / 16.0 && LossRec(probN, cprobN, 3, 2, 3) == 5.0 / 32.0
  {
    hide Sum, LossRec, LossWeight, EntryLoss, Tail, CountWeight;
    HalfRecursion(probN, cprobN);
    HalfCounts();
    EntryLossExact(0.5, 3, 2, 1, 3, m);
    NoTail(0.5, 1, 3);
    var kept := SurvivorsOf(0.5, 1, 3, 2, 3, m);
    TwoTerms(kept);
    CountDistIsDistribution(0.5, 2);
    LossRecExact(CountDist(0.5, 2), probN, cprobN, 3, 1, 2, m);
    LossRecExact(CountDist(0.5, 2), probN, cprobN, 3, 0, 2, m);
    assert AfterWindow(3, 2, 3, 0) == (1, 2) && AfterWindow(3, 2, 3, 1) == (0, 2);
    CountAt(0.5, 1, 0);
    CountAt(0.5, 1, 1);
    assert kept(0) == 0.5 * 0.125 && kept(1) == 0.5 * 0.25;
  }
}
