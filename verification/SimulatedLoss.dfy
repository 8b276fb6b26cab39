/** The loss of an entry of the simulation loop.  An entry inserted by the k-th activation of a window
    sees w - k more activations before the next refresh, and whole windows after that. */
module SimulatedLoss {
  import opened RealSums
  import opened Expectation
  import opened Fifo
  import opened Binomial
  import opened LossModel
  import opened ActivationLoss
  import opened MonteCarlo

  /** Decisions from draws: anything but zero inserts. */
  function Decisions(bits: seq<nat>): seq<bool> {
    seq(|bits|, i requires 0 <= i < |bits| => bits[i] != 0)
  }

  lemma DecisionsSplit(a: seq<nat>, b: seq<nat>)
    ensures Decisions(a + b) == Decisions(a) + Decisions(b)
  {}

  lemma DecisionsHead(bits: seq<nat>)
    requires bits != []
    ensures Decisions(bits) != [] && Decisions(bits)[0] == (bits[0] != 0) && Decisions(bits)[1..] == Decisions(bits[1..])
  {}

  /** Labels under which only the entry of activation n is told apart, or none. */
  function Only(n: nat): nat -> bool {
    (t: nat) => t == n
  }

  function Nobody(): nat -> bool {
    (t: nat) => false
  }

  // ----- the shape of the timeline

  lemma NextPosition(n: nat, w: nat)
    requires 0 < w
    ensures (n + 1) % w == if n % w + 1 == w then 0 else n % w + 1
  {
    var q, r := n / w, n % w;
    assert n == q * w + r;
    if r + 1 == w {
      DivUnique(n + 1, w, q + 1, 0);
    } else {
      DivUnique(n + 1, w, q, r + 1);
    }
  }

  lemma {:induction false} ActivityAppend<T>(w: nat, first: nat, d: seq<bool>, e: seq<bool>, tag: nat -> T)
    requires 0 < w
    ensures Activity(w, first, d + e, tag) == Activity(w, first, d, tag) + Activity(w, first + |d|, e, tag)
    decreases |d|
  {
    if d == [] {
      assert d + e == e;
    } else {
      assert (d + e)[1..] == d[1..] + e;
      ActivityAppend(w, first + 1, d[1..], e, tag);
    }
  }

  lemma {:induction false} ActivityCong<T>(w: nat, first: nat, d: seq<bool>, f: nat -> T, g: nat -> T)
    requires 0 < w && forall t: nat :: first <= t ==> f(t) == g(t)
    ensures Activity(w, first, d, f) == Activity(w, first, d, g)
    decreases |d|
  {
    if d != [] { ActivityCong(w, first + 1, d[1..], f, g); }
  }

  /** Unlabelled activity depends on the position in the window only. */
  lemma {:induction false} ActivityPeriodic(w: nat, a: nat, b: nat, d: seq<bool>)
    requires 0 < w && a % w == b % w
    ensures Activity(w, a, d, Nobody()) == Activity(w, b, d, Nobody())
    decreases |d|
  {
    if d != [] {
      NextPosition(a, w);
      NextPosition(b, w);
      ActivityPeriodic(w, a + 1, b + 1, d[1..]);
    }
  }

  /** Between two refreshes there are only insertions. */
  lemma {:induction false} WithinWindow(w: nat, first: nat, bits: seq<nat>)
    requires 0 < w && (bits == [] || (0 < first % w && first % w + |bits| <= w))
    ensures Activity(w, first, Decisions(bits), Nobody()) == Activations(bits)
    decreases |bits|
  {
    if bits != [] {
      DecisionsHead(bits);
      NextPosition(first, w);
      WithinWindow(w, first + 1, bits[1..]);
    }
  }

  lemma MoveRefresh<T>(x: seq<Event<T>>, y: seq<Event<T>>, z: seq<Event<T>>)
    requires y + [Refresh] == [Refresh] + z
    ensures x + y + [Refresh] == x + [Refresh] + z
  {
    assert x + y + [Refresh] == x + (y + [Refresh]);
    assert x + [Refresh] + z == x + ([Refresh] + z);
  }

  /** From the start of a window on: a refresh, then a window's insertions, over and over. */
  lemma {:induction false} WholeWindowsShape(w: nat, first: nat, bits: seq<nat>, m: nat)
    requires 0 < w && first % w == 0 && |bits| == w * m
    ensures Activity(w, first, Decisions(bits), Nobody()) + [Refresh] == [Refresh] + ActivationWindows(w, bits)
    decreases m
  {
    if m == 0 {
      assert w * 0 == 0;
    } else {
      assert w * m == w + w * (m - 1);
      var a, b := bits[..w], bits[w..];
      assert bits == a + b;
      DecisionsSplit(a, b);
      ActivityAppend(w, first, Decisions(a), Decisions(b), Nobody());
      OneWindow(w, first, a);
      WholeWindowsShape(w, first + w, b, m - 1);
      assert ActivationWindows(w, bits) == Activations(a) + [Refresh] + ActivationWindows(w, b);
      hide Activations, ActivationWindows, Activity;
      MoveRefresh([Refresh] + Activations(a), Activity(w, first + w, Decisions(b), Nobody()), ActivationWindows(w, b));
    }
  }

  lemma OneWindow(w: nat, first: nat, a: seq<nat>)
    requires 0 < |a| <= w && first % w == 0
    ensures Activity(w, first, Decisions(a), Nobody()) == [Refresh] + Activations(a)
    ensures (first + w) % w == 0
  {
    hide *;
    DecisionsHead(a);
    ActivityUnfold(w, first, Decisions(a), Nobody());
    FirstEvents(w, first, a[0]);
    NextPosition(first, w);
    WithinWindow(w, first + 1, a[1..]);
    ActivationsCons(a);
    assert first == first / w * w;
    assert (first / w + 1) * w == first + w;
    DivUnique(first + w, w, first / w + 1, 0);
  }

  lemma FirstEvents(w: nat, first: nat, b: nat)
    requires 0 < w && first % w == 0
    ensures Events(w, first, b != 0, Nobody()(first)) == [Refresh] + Activations([b])
  {
    assert [b][1..] == [];
  }

  lemma ActivationsCons(a: seq<nat>)
    requires a != []
    ensures Activations(a) == Activations([a[0]]) + Activations(a[1..])
  {
    assert [a[0]][1..] == [];
  }

  // ----- one entry of the timeline

  /** Is the entry inserted by activation n evicted in this run of the simulation loop? */
  predicate LostInRun(cap: nat, w: nat, d: seq<bool>, n: nat)
    requires 0 < cap && 0 < w
  {
    n in After(cap, w, d, Time()).evicted
  }

  predicate Below(s: seq<nat>, n: nat) {
    forall i :: 0 <= i < |s| ==> s[i] < n
  }

  lemma {:induction false} OldItems(cap: nat, w: nat, d: seq<bool>, n: nat)
    requires 0 < cap && 0 < w && n <= |d|
    ensures var s := After(cap, w, d[..n], Time()); |s.queue| <= cap && Below(s.queue, n) && Below(s.evicted, n)
    decreases n
  {
    AfterStart(cap, w, d);
    if n != 0 {
      OldItems(cap, w, d, n - 1);
      AfterStep(cap, w, d, n - 1, Time());
    }
  }

  lemma AfterStart(cap: nat, w: nat, d: seq<bool>)
    requires 0 < cap && 0 < w
    ensures After(cap, w, d[..0], Time()) == Empty()
  {
    assert d[..0] == [];
    AfterNothing(cap, w, Time());
  }

  /** The queue right after the insertion by activation n, which is its newest entry. */
  lemma JustInserted(cap: nat, w: nat, d: seq<bool>, n: nat)
    requires 0 < cap && 0 < w && n < |d| && d[n]
    ensures var s := After(cap, w, d[..n + 1], Time());
            && 1 <= |s.queue| <= cap && s.queue[|s.queue| - 1] == n
            && Below(s.queue[..|s.queue| - 1], n) && n !in s.evicted
  {
    OldItems(cap, w, d, n);
    OldItems(cap, w, d, n + 1);
    AfterStep(cap, w, d, n, Time());
  }

  /** The rest of the run, from the decision after activation n. */
  lemma AfterRest(cap: nat, w: nat, d: seq<bool>, n: nat)
    requires 0 < cap && 0 < w && n < |d|
    ensures After(cap, w, d, Time())
         == Run(cap, After(cap, w, d[..n + 1], Time()), Activity(w, n + 1, d[n + 1..], Time()))
  {
    var a, b := d[..n + 1], d[n + 1..];
    assert d == a + b;
    ActivityAppend(w, 0, a, b, Time());
    RunAppend(cap, Empty<nat>(), Timeline(w, a, Time()), Activity(w, n + 1, b, Time()));
  }

  lemma MapTrue(n: nat, s: seq<nat>)
    ensures true in MapSeq(Only(n), s) <==> n in s
  {
    if n in s {
      var i :| 0 <= i < |s| && s[i] == n;
      assert MapSeq(Only(n), s)[i];
    }
  }

  lemma RestUnlabelled(w: nat, n: nat, e: seq<bool>)
    requires 0 < w
    ensures MapEvents(Only(n), Activity(w, n + 1, e, Time())) == Activity(w, n + 1, e, Nobody())
  {
    ActivityNatural(w, n + 1, e, Time(), Only(n), Only(n));
    ActivityCong(w, n + 1, e, Only(n), Nobody());
  }

  /** Whether an entry of the simulation loop is lost depends only on how many entries are queued when
      it is inserted, on its position in the window and on the decisions that follow. */
  lemma LostIsFutureLost(cap: nat, w: nat, d: seq<bool>, n: nat)
    requires 0 < cap && 0 < w && n < |d| && d[n]
    ensures var size := |After(cap, w, d[..n + 1], Time()).queue|;
            && 1 <= size <= cap
            && (LostInRun(cap, w, d, n) <==>
                true in Run(cap, Tagged(size, size - 1), Activity(w, n + 1, d[n + 1..], Nobody())).evicted)
  {
    hide After, Activity, Run, Step;
    JustInserted(cap, w, d, n);
    AfterRest(cap, w, d, n);
    var s, es := After(cap, w, d[..n + 1], Time()), Activity(w, n + 1, d[n + 1..], Time());
    HistoryIrrelevant(cap, s.queue, s.evicted, s.refreshed, es);
    var fresh' := State(s.queue, [], []);
    RunNatural(cap, Only(n), fresh', es);
    TaggedQueue(s.queue, n);
    RestUnlabelled(w, n, d[n + 1..]);
    MapTrue(n, Run(cap, fresh', es).evicted);
  }

  lemma TaggedQueue(q: seq<nat>, n: nat)
    requires q != [] && q[|q| - 1] == n && Below(q[..|q| - 1], n)
    ensures MapState(Only(n), State(q, [], [])) == Tagged(|q|, |q| - 1)
  {
    assert forall i :: 0 <= i < |q| - 1 ==> q[i] == q[..|q| - 1][i];
    assert MapSeq(Only(n), q) == Tags(|q|, |q| - 1);
  }

  // ----- the weight of losing an entry

  /** Is the newest of `size` entries, inserted at position k of a window, lost under these draws? */
  predicate FutureLost(cap: nat, w: nat, k: nat, size: nat, bits: seq<nat>)
    requires 0 < cap && 0 < w && 0 < size
  {
    true in Run(cap, Tagged(size, size - 1), Activity(w, k, Decisions(bits), Nobody())).evicted
  }

  lemma RefreshLast(cap: nat, s: State<bool>, es: seq<Event<bool>>)
    requires 0 < cap
    ensures Run(cap, s, es + [Refresh]).evicted == Run(cap, s, es).evicted
  {
    RunSnoc(cap, s, es, Refresh);
  }

  /** What follows the insertion: the rest of the window, a refresh, whole windows. */
  lemma FutureShape(w: nat, k: nat, bits: seq<nat>, m: nat)
    requires 1 <= k <= w && |bits| == w - k + w * m
    ensures Activity(w, k, Decisions(bits), Nobody()) + [Refresh]
         == Windows([Ones(bits[..w - k])] + PerWindow(w, bits[w - k..]))
  {
    hide *;
    var a, b := bits[..w - k], bits[w - k..];
    assert bits == a + b;
    DecisionsSplit(a, b);
    DecisionsLength(a);
    ActivityAppend(w, k, Decisions(a), Decisions(b), Nobody());
    if k < w { DivUnique(k, w, 0, k); }
    DivUnique(w, w, 1, 0);
    WithinWindow(w, k, a);
    WholeWindowsShape(w, w, b, m);
    ActivationsAreOthers(a);
    WindowsOfActivations(w, b);
    WindowsCons(Ones(a), PerWindow(w, b));
    MoveRefresh(Activations(a), Activity(w, w, Decisions(b), Nobody()), ActivationWindows(w, b));
  }

  lemma DecisionsLength(bits: seq<nat>)
    ensures |Decisions(bits)| == |bits|
  {}

  lemma WindowsCons(k: nat, ks: seq<nat>)
    ensures Windows([k] + ks) == Others(k) + [Refresh] + Windows(ks)
  {
    assert ([k] + ks)[0] == k && ([k] + ks)[1..] == ks;
  }

  lemma FutureIsWindows(cap: nat, w: nat, k: nat, size: nat, bits: seq<nat>, m: nat)
    requires 1 <= k <= w && 1 <= size <= cap && |bits| == w - k + w * m
    ensures FutureLost(cap, w, k, size, bits)
         == Lost(cap, size, size - 1, [Ones(bits[..w - k])] + PerWindow(w, bits[w - k..]))
  {
    FutureShape(w, k, bits, m);
    RefreshLast(cap, Tagged(size, size - 1), Activity(w, k, Decisions(bits), Nobody()));
  }

  function FutureIndicator(cap: nat, w: nat, k: nat, size: nat): seq<nat> -> real
    requires 0 < cap && 0 < w && 0 < size
  {
    (bits: seq<nat>) => if FutureLost(cap, w, k, size, bits) then 1.0 else 0.0
  }

  /** The weight of losing an entry that position k of a window inserts as the newest of `size`, in the
      rest of that window and m more. */
  function EntryLoss(q: real, cap: nat, w: nat, k: nat, size: nat, m: nat): real
    requires 1 <= k <= w && 1 <= size <= cap
  {
    Expect(Bernoulli(q), w - k + w * m, FutureIndicator(cap, w, k, size))
  }

  /** The average of g over the number of insertions in n activations. */
  function Averaged(q: real, n: nat, g: nat -> real): real {
    Expect(Bernoulli(q), n, OfCount(g))
  }

  /** The weight of losing the newest of `size` entries, given the insertions left in its window. */
  function GivenCount(q: real, cap: nat, w: nat, size: nat, m: nat): nat -> real
    requires 1 <= size <= cap
  {
    (k: nat) => AfterFirst(CountDist(q, w), cap, size, size - 1, m, k)
  }

  lemma RestOfFuture(q: real, cap: nat, w: nat, k: nat, size: nat, m: nat, xs: seq<nat>)
    requires 0.0 <= q <= 1.0 && 1 <= k <= w && 1 <= size <= cap && |xs| == w - k
    ensures Expect(Bernoulli(q), w * m, Continue(FutureIndicator(cap, w, k, size), xs))
         == GivenCount(q, cap, w, size, m)(Ones(xs))
  {
    var l := Prefix(LossIndicator(cap, size, size - 1), Ones(xs));
    forall ys | Draws(Bernoulli(q), w * m, ys)
      ensures Continue(FutureIndicator(cap, w, k, size), xs)(ys) == OfWindows(w, l)(ys)
    {
      assert (xs + ys)[..w - k] == xs && (xs + ys)[w - k..] == ys;
      FutureIsWindows(cap, w, k, size, xs + ys, m);
    }
    ExpectCong(Bernoulli(q), w * m, Continue(FutureIndicator(cap, w, k, size), xs), OfWindows(w, l));
    ExpectOfWindows(q, w, m, l);
    CountDistIsDistribution(q, w);
    GivenFirst(CountDist(q, w), cap, size, size - 1, m, Ones(xs));
  }

  /** The first window is averaged over the w - k activations that are left of it. */
  lemma EntryLossSplit(q: real, cap: nat, w: nat, k: nat, size: nat, m: nat)
    requires 0.0 <= q <= 1.0 && 1 <= k <= w && 1 <= size <= cap
    ensures EntryLoss(q, cap, w, k, size, m) == Averaged(q, w - k, GivenCount(q, cap, w, size, m))
  {
    hide FutureLost, AfterFirst, CountDist;
    var p, f, g := Bernoulli(q), FutureIndicator(cap, w, k, size), GivenCount(q, cap, w, size, m);
    ExpectAppend(p, w - k, w * m, f);
    forall xs | Draws(p, w - k, xs) ensures Rest(p, w * m, f)(xs) == OfCount(g)(xs) {
      RestOfFuture(q, cap, w, k, size, m, xs);
    }
    ExpectCong(p, w - k, Rest(p, w * m, f), OfCount(g));
  }

  /** The recursion's process is the same average over a whole window. */
  lemma WholeWindowSplit(q: real, cap: nat, w: nat, size: nat, m: nat)
    requires 0.0 <= q <= 1.0 && 0 < w && 1 <= size <= cap
    ensures LossWeight(CountDist(q, w), cap, size, size - 1, m + 1) == Averaged(q, w, GivenCount(q, cap, w, size, m))
  {
    hide AfterFirst, CountDist, CountWeight;
    var p, f, g := CountDist(q, w), LossIndicator(cap, size, size - 1), GivenCount(q, cap, w, size, m);
    CountDistIsDistribution(q, w);
    ExpectOfCount(q, w, g);
    forall k: nat | k < w + 1 ensures FirstDraw(p, m, f)(k) == CountTerms(q, w, g)(k) {
      GivenFirst(p, cap, size, size - 1, m, k);
      CountAt(q, w, k);
    }
    CountLength(q, w);
    SumCong(w + 1, FirstDraw(p, m, f), CountTerms(q, w, g));
    FirstDrawSum(p, m, f);
  }

  lemma CountAt(q: real, n: nat, k: nat)
    requires k <= n
    ensures At(CountDist(q, n), k) == CountWeight(q, n, k)
  {}

  lemma CountLength(q: real, n: nat)
    ensures |CountDist(q, n)| == n + 1
  {}

  lemma FirstDrawSum(p: seq<real>, m: nat, f: seq<nat> -> real)
    ensures Expect(p, m + 1, f) == Sum(|p|, FirstDraw(p, m, f))
  {}

  // ----- the two parts of the weight

  /** Survivors of the rest of the first window, then whole windows. */
  function SurvivorsOf(q: real, n: nat, cap: nat, w: nat, size: nat, m: nat): nat -> real
    requires 1 <= size <= cap
  {
    (k: nat) =>
      if k < FullThreshold(cap, size - 1, size) && 1 < size then
        var next := AfterWindow(cap, size - 1, size, k);
        At(CountDist(q, n), k) * LossWeight(CountDist(q, w), cap, next.1, next.0, m)
      else 0.0
  }

  /** The exact weight: the remaining activations of the window overflow the queue, or leave one of the
      recursion's states with whole windows to come. */
  lemma EntryLossExact(q: real, cap: nat, w: nat, k: nat, size: nat, m: nat)
    requires 0.0 <= q <= 1.0 && 1 <= k <= w && 1 <= size <= cap
    ensures EntryLoss(q, cap, w, k, size, m)
         == Tail(CountDist(q, w - k), cap) + Sum(cap - 1, SurvivorsOf(q, w - k, cap, w, size, m))
  {
    hide LossWeight, CountDist, CountWeight, Expect, Sum, AfterWindow;
    var n, g, full := w - k, GivenCount(q, cap, w, size, m), cap - 1;
    var p, kept := CountDist(q, n), SurvivorsOf(q, n, cap, w, size, m);
    EntryLossSplit(q, cap, w, k, size, m);
    ExpectOfCount(q, n, g);
    CountLength(q, n);
    forall j: nat | j < n + 1 ensures CountTerms(q, n, g)(j) == TailTerms(p, cap)(j) + kept(j) {
      CountAt(q, n, j);
    }
    SumAdd(n + 1, TailTerms(p, cap), kept, CountTerms(q, n, g));
    if full < n + 1 {
      SumExtend(full, n + 1, kept);
    } else {
      forall j: nat | n + 1 <= j < full ensures kept(j) == 0.0 {
        BeyondCount(q, n, j);
      }
      SumExtend(n + 1, full, kept);
    }
  }

  lemma BeyondCount(q: real, n: nat, k: nat)
    requires n < k
    ensures At(CountDist(q, n), k) == 0.0
  {}
}
