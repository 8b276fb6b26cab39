/** The loss of the entry of one activation over all runs of the simulation loop: whatever happened
    before, an insertion by that activation, and whatever comes after. */
module TimelineLoss {
  import opened RealSums
  import opened Expectation
  import opened Fifo
  import opened Binomial
  import opened LossModel
  import opened Occupancy
  import opened ActivationLoss
  import opened MonteCarlo
  import opened SimulatedLoss

  /** Activation n inserts; the draws decide about all others. */
  function Inserting(bits: seq<nat>, n: nat): seq<bool>
    requires n <= |bits|
  {
    Decisions(bits[..n]) + [true] + Decisions(bits[n..])
  }

  function LostIndicator(cap: nat, w: nat, n: nat): seq<nat> -> real
    requires 0 < cap && 0 < w
  {
    (bits: seq<nat>) => if n <= |bits| && LostInRun(cap, w, Inserting(bits, n), n) then 1.0 else 0.0
  }

  /** The position of activation n in its window, from 1. */
  function Position(w: nat, n: nat): (k: nat)
    requires 0 < w
    ensures 1 <= k <= w
  {
    n % w + 1
  }

  /** The weight of the runs in which the entry of activation n is lost, up to the end of the m-th
      window after its own. */
  function LossOf(q: real, cap: nat, w: nat, n: nat, m: nat): real
    requires 0 < cap && 0 < w
  {
    Expect(Bernoulli(q), n + (w - Position(w, n) + w * m), LostIndicator(cap, w, n))
  }

  /** How many entries are queued once the next activation has inserted its own. */
  function SizeAt(cap: nat, w: nat, xs: seq<nat>): (size: nat)
    requires 0 < cap && 0 < w
    ensures 1 <= size <= cap
  {
    var d := Decisions(xs) + [true];
    JustInserted(cap, w, d, |xs|);
    assert d[..|xs| + 1] == d;
    |After(cap, w, d, Time()).queue|
  }

  function BySize(q: real, cap: nat, w: nat, k: nat, m: nat): seq<nat> -> real
    requires 0 < cap && 1 <= k <= w
  {
    (xs: seq<nat>) => EntryLoss(q, cap, w, k, SizeAt(cap, w, xs), m)
  }

  lemma LostByFuture(cap: nat, w: nat, xs: seq<nat>, ys: seq<nat>)
    requires 0 < cap && 0 < w
    ensures var n := |xs|;
            (xs + ys)[..n] == xs && (xs + ys)[n..] == ys
            && (LostInRun(cap, w, Inserting(xs + ys, n), n)
                <==> FutureLost(cap, w, Position(w, n), SizeAt(cap, w, xs), ys))
  {
    hide *;
    var n, bits := |xs|, xs + ys;
    assert bits[..n] == xs && bits[n..] == ys;
    var d := Inserting(bits, n);
    InsertingIs(xs, ys);
    LostIsFutureLost(cap, w, d, n);
    SizeAtIs(cap, w, xs);
    PositionIs(w, n);
    ActivityPeriodic(w, n + 1, Position(w, n), Decisions(ys));
    FutureLostIs(cap, w, Position(w, n), SizeAt(cap, w, xs), ys);
  }

  lemma InsertingIs(xs: seq<nat>, ys: seq<nat>)
    ensures var n := |xs|;
            var d := Inserting(xs + ys, n);
            n < |d| && d[n] && d[..n + 1] == Decisions(xs) + [true] && d[n + 1..] == Decisions(ys)
  {
    assert (xs + ys)[..|xs|] == xs && (xs + ys)[|xs|..] == ys;
  }

  lemma PositionIs(w: nat, n: nat)
    requires 0 < w
    ensures (n + 1) % w == Position(w, n) % w
  {
    NextPosition(n, w);
    if n % w + 1 == w { DivUnique(w, w, 1, 0); } else { DivUnique(n % w + 1, w, 0, n % w + 1); }
  }

  lemma FutureLostIs(cap: nat, w: nat, k: nat, size: nat, bits: seq<nat>)
    requires 0 < cap && 0 < w && 0 < size
    ensures FutureLost(cap, w, k, size, bits)
         == (true in Run(cap, Tagged(size, size - 1), Activity(w, k, Decisions(bits), Nobody())).evicted)
  {}

  /** The loss of an activation's entry, averaged over the queue lengths it can meet. */
  lemma LossBySize(q: real, cap: nat, w: nat, n: nat, m: nat)
    requires 0 < cap && 0 < w
    ensures LossOf(q, cap, w, n, m) == Expect(Bernoulli(q), n, BySize(q, cap, w, Position(w, n), m))
  {
    hide LostInRun, FutureLost, SizeAt, Inserting, Position;
    var p, k, f := Bernoulli(q), Position(w, n), LostIndicator(cap, w, n);
    var rest := w - k + w * m;
    ExpectAppend(p, n, rest, f);
    forall xs | Draws(p, n, xs) ensures Rest(p, rest, f)(xs) == BySize(q, cap, w, k, m)(xs) {
      var g := FutureIndicator(cap, w, k, SizeAt(cap, w, xs));
      forall ys | Draws(p, rest, ys) ensures Continue(f, xs)(ys) == g(ys) {
        LostByFuture(cap, w, xs, ys);
      }
      ExpectCong(p, rest, Continue(f, xs), g);
    }
    ExpectCong(p, n, Rest(p, rest, f), BySize(q, cap, w, k, m));
  }

  // ----- the queue length at a position

  function Capped(cap: nat, n: nat): nat {
    if cap < n then cap else n
  }

  lemma {:induction false} OnesAppend(a: seq<nat>, b: seq<nat>)
    ensures Ones(a + b) == Ones(a) + Ones(b)
    decreases |a|
  {
    if a == [] {
      assert a + b == b;
    } else {
      assert (a + b)[1..] == a[1..] + b;
      OnesAppend(a[1..], b);
    }
  }

  /** Labels do not matter for the queue length. */
  lemma UnlabelledLength(cap: nat, w: nat, d: seq<bool>)
    requires 0 < cap && 0 < w
    ensures |After(cap, w, d, Time()).queue| == |Run(cap, Empty<bool>(), Activity(w, 0, d, Nobody())).queue|
  {
    ActivityNatural(w, 0, d, Time(), Nobody(), Nobody());
    RunNatural(cap, Nobody(), Empty<nat>(), Timeline(w, d, Time()));
    assert MapState(Nobody(), Empty<nat>()) == Empty<bool>();
  }

  /** Whole windows from the empty queue, and the refresh that opens the next window. */
  lemma WindowsFromEmpty(cap: nat, w: nat, a: seq<nat>, t: nat)
    requires 0 < cap && 0 < w && |a| == w * t
    ensures var s := Run(cap, Empty<bool>(), Activity(w, 0, Decisions(a), Nobody()) + [Refresh]);
            |s.queue| == Occupied(cap, 0, PerWindow(w, a))
  {
    WholeWindowsShape(w, 0, a, t);
    WindowsOfActivations(w, a);
    var ks := PerWindow(w, a);
    RunAppend(cap, Empty<bool>(), [Refresh], Windows(ks));
    RefreshEmpty(cap);
    assert Tagged(0, 0) == Empty<bool>();
  }

  lemma RefreshEmpty(cap: nat)
    requires 0 < cap
    ensures Run(cap, Empty<bool>(), [Refresh]) == Empty<bool>()
  {
    RunShort(cap, Empty<bool>(), [Refresh]);
  }

  /** An insertion at position k meets the entries of the refreshed queue and of its own window. */
  lemma SizeAtPosition(cap: nat, w: nat, a: seq<nat>, b: seq<nat>, t: nat)
    requires 0 < cap && |a| == w * t && |b| < w
    ensures SizeAt(cap, w, a + b) == Capped(cap, Occupied(cap, 0, PerWindow(w, a)) + Ones(b) + 1)
  {
    hide *;
    var c := b + [1];
    SizeAtIs(cap, w, a + b);
    DecisionsSplit(a, b);
    DecisionsSplit(b, [1]);
    DecisionsLength(a);
    OneDecision();
    assert Decisions(a + b) + [true] == Decisions(a) + Decisions(c);
    UnlabelledLength(cap, w, Decisions(a) + Decisions(c));
    ActivityAppend(w, 0, Decisions(a), Decisions(c), Nobody());
    MultipleOf(w, t);
    OneWindow(w, w * t, c);
    WindowsFromEmpty(cap, w, a, t);
    ActivationsAreOthers(c);
    OnesAppend(b, [1]);
    OneOne();
    var es, l := Activity(w, 0, Decisions(a), Nobody()), Others(Ones(c));
    assert es + ([Refresh] + l) == es + [Refresh] + l;
    RunAppend(cap, Empty<bool>(), es + [Refresh], l);
    EmptyShort(cap);
    RunBounded(cap, Empty<bool>(), es + [Refresh]);
    InsertCount(cap, Run(cap, Empty<bool>(), es + [Refresh]), Ones(c));
    CappedIs(cap, Occupied(cap, 0, PerWindow(w, a)) + Ones(c));
  }

  lemma SizeAtIs(cap: nat, w: nat, xs: seq<nat>)
    requires 0 < cap && 0 < w
    ensures SizeAt(cap, w, xs) == |After(cap, w, Decisions(xs) + [true], Time()).queue|
  {}

  lemma OneDecision()
    ensures Decisions([1]) == [true]
  {}

  lemma OneOne()
    ensures Ones([1]) == 1
  {
    assert [1][1..] == [];
  }

  lemma MultipleOf(w: nat, t: nat)
    requires 0 < w
    ensures (w * t) % w == 0
  {
    DivUnique(w * t, w, t, 0);
  }

  lemma EmptyShort(cap: nat)
    ensures |Empty<bool>().queue| <= cap
  {}

  lemma CappedIs(cap: nat, n: nat)
    ensures Capped(cap, n) == if cap < n then cap else n
  {}

  // ----- averaging over the queue length

  function OfOccupied(cap: nat, i: nat, g: nat -> real): seq<nat> -> real
    requires 0 < cap
  {
    (ks: seq<nat>) => g(Occupied(cap, i, ks))
  }

  function ReachTerms(p: seq<real>, cap: nat, t: nat, i: nat, g: nat -> real): nat -> real
    requires 0 < cap
  {
    (j: nat) => Reach(p, cap, t, i, j) * g(j)
  }

  function ReachVia(p: seq<real>, cap: nat, t: nat, i: nat, g: nat -> real): (nat, nat) -> real
    requires 0 < cap
  {
    (k: nat, j: nat) => At(p, k) * (Reach(p, cap, t, Next(cap, i, k), j) * g(j))
  }

  /** The average of a function of the queue length is taken with the reach weights. */
  lemma {:induction false} ExpectOfOccupied(p: seq<real>, cap: nat, t: nat, i: nat, g: nat -> real)
    requires i < cap
    ensures Expect(p, t, OfOccupied(cap, i, g)) == Sum(cap, ReachTerms(p, cap, t, i, g))
    decreases t
  {
    if t == 0 {
      NoWindows(p, cap, i, g);
    } else {
      hide Reach, Sum, Expect, Occupied;
      var first, a := FirstDraw(p, t - 1, OfOccupied(cap, i, g)), ReachVia(p, cap, t - 1, i, g);
      forall k: nat | k < |p| ensures first(k) == Sum(cap, Across(a, k)) {
        ExpectOfOccupied(p, cap, t - 1, Next(cap, i, k), g);
        AfterFirstCount(p, cap, t - 1, i, g, k);
        SumScale(cap, At(p, k), ReachTerms(p, cap, t - 1, Next(cap, i, k), g), Across(a, k));
      }
      forall j: nat | j < cap ensures ReachTerms(p, cap, t, i, g)(j) == Sum(|p|, Down(a, j)) {
        ReachByFirst(p, cap, t - 1, i, g, j);
      }
      SumSwap(|p|, cap, a, first, ReachTerms(p, cap, t, i, g));
      FirstDrawSum(p, t - 1, OfOccupied(cap, i, g));
    }
  }

  lemma NoWindows(p: seq<real>, cap: nat, i: nat, g: nat -> real)
    requires i < cap
    ensures Expect(p, 0, OfOccupied(cap, i, g)) == Sum(cap, ReachTerms(p, cap, 0, i, g))
  {
    assert Windows([]) == [];
    assert Occupied(cap, i, []) == i;
    forall j: nat ensures ReachTerms(p, cap, 0, i, g)(j) == if j == i then g(i) else 0.0 {
      assert Reach(p, cap, 0, i, j) == OccupiedIs(cap, i, j)([]);
    }
    SumSingle(cap, i, ReachTerms(p, cap, 0, i, g));
  }

  lemma AfterFirstCount(p: seq<real>, cap: nat, t: nat, i: nat, g: nat -> real, k: nat)
    requires i < cap
    ensures Next(cap, i, k) < cap
    ensures FirstDraw(p, t, OfOccupied(cap, i, g))(k) == At(p, k) * Expect(p, t, OfOccupied(cap, Next(cap, i, k), g))
  {
    forall ks: seq<nat> ensures Prefix(OfOccupied(cap, i, g), k)(ks) == OfOccupied(cap, Next(cap, i, k), g)(ks) {
      OccupiedStep(cap, i, k, ks);
    }
    ExpectCong(p, t, Prefix(OfOccupied(cap, i, g), k), OfOccupied(cap, Next(cap, i, k), g));
  }

  lemma ReachByFirst(p: seq<real>, cap: nat, t: nat, i: nat, g: nat -> real, j: nat)
    requires i < cap
    ensures ReachTerms(p, cap, t + 1, i, g)(j) == Sum(|p|, Down(ReachVia(p, cap, t, i, g), j))
  {
    hide Reach, Sum, Expect;
    var first := FirstDraw(p, t, OccupiedIs(cap, i, j));
    ReachUnfold(p, cap, t, i, j);
    forall k: nat ensures Down(ReachVia(p, cap, t, i, g), j)(k) == g(j) * first(k) {
      ReachAfterFirst(p, cap, t, i, j, k);
      Associate(At(p, k), Reach(p, cap, t, Next(cap, i, k), j), g(j));
    }
    SumScale(|p|, g(j), first, Down(ReachVia(p, cap, t, i, g), j));
  }

  /** All weight on the empty queue. */
  function StartEmpty(cap: nat): (v: seq<real>)
    ensures |v| == cap
  {
    seq(cap, (i: nat) => if i == 0 then 1.0 else 0.0)
  }

  lemma FromEmpty(p: seq<real>, cap: nat, t: nat, j: nat)
    requires j < cap
    ensures Iterate(p, StartEmpty(cap), t)[j] == Reach(p, cap, t, 0, j)
  {
    hide Reach, Iterate, Sum;
    var v := StartEmpty(cap);
    IterateIsOccupancy(p, v, t, j);
    SumSingle(cap, 0, StartMix(p, v, t, j));
  }

  // ----- the loss by position

  /** The loss at position k when j entries are queued after the refresh of the window. */
  function ByOccupancy(q: real, cap: nat, w: nat, k: nat, m: nat): nat -> real
    requires 0 < cap && 1 <= k <= w
  {
    (j: nat) => Averaged(q, k - 1, ByArrivals(q, cap, w, k, m, j))
  }

  /** The same when c of the window's earlier activations insert. */
  function ByArrivals(q: real, cap: nat, w: nat, k: nat, m: nat, j: nat): nat -> real
    requires 0 < cap && 1 <= k <= w
  {
    (c: nat) => EntryLoss(q, cap, w, k, Capped(cap, j + c + 1), m)
  }

  function PositionTerms(q: real, cap: nat, w: nat, t: nat, k: nat, m: nat): nat -> real
    requires 0 < cap && 1 <= k <= w
  {
    (j: nat) => At(Iterate(CountDist(q, w), StartEmpty(cap), t), j) * ByOccupancy(q, cap, w, k, m)(j)
  }

  lemma WindowsThenPosition(q: real, cap: nat, w: nat, k: nat, m: nat, a: seq<nat>, t: nat)
    requires 0 < cap && 1 <= k <= w && |a| == w * t
    ensures Expect(Bernoulli(q), k - 1, Continue(BySize(q, cap, w, k, m), a))
         == OfWindows(w, OfOccupied(cap, 0, ByOccupancy(q, cap, w, k, m)))(a)
  {
    hide SizeAt, Occupied, EntryLoss;
    var j := Occupied(cap, 0, PerWindow(w, a));
    var g := ByArrivals(q, cap, w, k, m, j);
    forall b | Draws(Bernoulli(q), k - 1, b) ensures Continue(BySize(q, cap, w, k, m), a)(b) == OfCount(g)(b) {
      SizeAtPosition(cap, w, a, b, t);
    }
    ExpectCong(Bernoulli(q), k - 1, Continue(BySize(q, cap, w, k, m), a), OfCount(g));
  }

  /** The exact loss of the entry that position k of window t inserts, over all runs of the simulation
      loop from its empty tracker. */
  lemma LossByPosition(q: real, cap: nat, w: nat, t: nat, k: nat, m: nat)
    requires 0.0 <= q <= 1.0 && 0 < cap && 1 <= k <= w
    ensures LossOf(q, cap, w, w * t + (k - 1), m) == Sum(cap, PositionTerms(q, cap, w, t, k, m))
  {
    hide LossOf, BySize, Position, Occupied, Iterate, Sum, Expect, Reach, CountDist, OfWindows;
    var n, p, g := w * t + (k - 1), CountDist(q, w), ByOccupancy(q, cap, w, k, m);
    PositionAt(w, t, k);
    LossBySize(q, cap, w, n, m);
    ExpectAppend(Bernoulli(q), w * t, k - 1, BySize(q, cap, w, k, m));
    forall a | Draws(Bernoulli(q), w * t, a)
      ensures Rest(Bernoulli(q), k - 1, BySize(q, cap, w, k, m))(a) == OfWindows(w, OfOccupied(cap, 0, g))(a)
    {
      WindowsThenPosition(q, cap, w, k, m, a, t);
    }
    ExpectCong(Bernoulli(q), w * t, Rest(Bernoulli(q), k - 1, BySize(q, cap, w, k, m)), OfWindows(w, OfOccupied(cap, 0, g)));
    ExpectOfWindows(q, w, t, OfOccupied(cap, 0, g));
    ExpectOfOccupied(p, cap, t, 0, g);
    forall j: nat | j < cap ensures ReachTerms(p, cap, t, 0, g)(j) == PositionTerms(q, cap, w, t, k, m)(j) {
      FromEmpty(p, cap, t, j);
      PositionTerm(q, cap, w, t, k, m, j);
    }
    SumCong(cap, ReachTerms(p, cap, t, 0, g), PositionTerms(q, cap, w, t, k, m));
  }

  lemma PositionTerm(q: real, cap: nat, w: nat, t: nat, k: nat, m: nat, j: nat)
    requires j < cap && 1 <= k <= w
    ensures PositionTerms(q, cap, w, t, k, m)(j)
         == Iterate(CountDist(q, w), StartEmpty(cap), t)[j] * ByOccupancy(q, cap, w, k, m)(j)
  {
    hide Iterate, ByOccupancy, CountDist;
  }

  lemma PositionAt(w: nat, t: nat, k: nat)
    requires 1 <= k <= w
    ensures Position(w, w * t + (k - 1)) == k
  {
    DivUnique(w * t + (k - 1), w, t, k - 1);
  }
}
