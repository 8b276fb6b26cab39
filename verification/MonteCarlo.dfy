/** The simulation loop: one refresh at the start of every window, at most one insertion per
    activation.  The random draws are a list of decisions. */
module MonteCarlo {
  import opened Fifo
  import opened Tracker

  /** The tracker events of activation n: a refresh at the start of a window, then the insertion. */
  function Events<T>(w: nat, n: nat, insert: bool, item: T): seq<Event<T>>
    requires 0 < w
  {
    (if n % w == 0 then [Event.Refresh] else []) + (if insert then [Event.Insert(item)] else [])
  }

  /** The tracker events of activations first, first + 1, ..., one per decision. */
  function Activity<T>(w: nat, first: nat, d: seq<bool>, tag: nat -> T): seq<Event<T>>
    requires 0 < w
    decreases |d|
  {
    if d == [] then [] else Events(w, first, d[0], tag(first)) + Activity(w, first + 1, d[1..], tag)
  }

  function Timeline<T>(w: nat, d: seq<bool>, tag: nat -> T): seq<Event<T>>
    requires 0 < w
  {
    Activity(w, 0, d, tag)
  }

  /** What one activation does. */
  function Act<T>(cap: nat, w: nat, s: State<T>, n: nat, insert: bool, item: T): State<T>
    requires 0 < cap && 0 < w
  {
    var s1 := if n % w == 0 then Step(cap, s, Event.Refresh) else s;
    if insert then Step(cap, s1, Event.Insert(item)) else s1
  }

  lemma RunShort<T>(cap: nat, s: State<T>, es: seq<Event<T>>)
    requires 0 < cap && |es| <= 2
    ensures Run(cap, s, es) ==
            if |es| == 0 then s
            else if |es| == 1 then Step(cap, s, es[0])
            else Step(cap, Step(cap, s, es[0]), es[1])
  {
    if |es| == 1 {
      assert es[1..] == [];
    } else if |es| == 2 {
      var t := Step(cap, s, es[0]);
      assert Run(cap, s, es) == Run(cap, t, es[1..]);
      assert es[1..][0] == es[1] && es[1..][1..] == [];
      assert Run(cap, t, es[1..]) == Run(cap, Step(cap, t, es[1]), []);
    }
  }

  lemma {:induction false} ActivitySnoc<T>(cap: nat, w: nat, first: nat, d: seq<bool>, insert: bool, s: State<T>, tag: nat -> T)
    requires 0 < cap && 0 < w
    ensures Run(cap, s, Activity(w, first, d + [insert], tag))
         == Act(cap, w, Run(cap, s, Activity(w, first, d, tag)), first + |d|, insert, tag(first + |d|))
    decreases |d|
  {
    if d == [] {
      assert d + [insert] == [insert] && [insert][1..] == [];
      var es := Activity(w, first, [insert], tag);
      assert Activity(w, first + 1, [], tag) == [];
      RunShort(cap, s, es);
    } else {
      assert (d + [insert])[0] == d[0] && (d + [insert])[1..] == d[1..] + [insert];
      var es := Events(w, first, d[0], tag(first));
      RunAppend(cap, s, es, Activity(w, first + 1, d[1..] + [insert], tag));
      RunAppend(cap, s, es, Activity(w, first + 1, d[1..], tag));
      ActivitySnoc(cap, w, first + 1, d[1..], insert, Run(cap, s, es), tag);
    }
  }

  /** The state after the first |d| activations. */
  function After<T>(cap: nat, w: nat, d: seq<bool>, tag: nat -> T): State<T>
    requires 0 < cap && 0 < w
  {
    Run(cap, Empty(), Timeline(w, d, tag))
  }

  lemma AfterStep<T>(cap: nat, w: nat, d: seq<bool>, n: nat, tag: nat -> T)
    requires 0 < cap && 0 < w && n < |d|
    ensures After(cap, w, d[..n + 1], tag) == Act(cap, w, After(cap, w, d[..n], tag), n, d[n], tag(n))
    ensures After(cap, w, d[..0], tag) == Empty()
  {
    assert d[..n + 1] == d[..n] + [d[n]];
    ActivitySnoc(cap, w, 0, d[..n], d[n], Empty<T>(), tag);
    assert Timeline(w, d[..0], tag) == [];
  }

  lemma {:induction false} ActivityNatural<T>(w: nat, first: nat, d: seq<bool>, tag: nat -> nat, f: nat -> T, g: nat -> T)
    requires 0 < w
    requires forall t: nat :: tag(t) == t && f(t) == g(t)
    ensures MapEvents(f, Activity(w, first, d, tag)) == Activity(w, first, d, g)
    decreases |d|
  {
    if d != [] {
      ActivityNatural(w, first + 1, d[1..], tag, f, g);
      hide Activity;
      ActivityUnfold(w, first, d, tag);
      ActivityUnfold(w, first, d, g);
      var head, rest := Events(w, first, d[0], first), Activity(w, first + 1, d[1..], tag);
      assert MapEvents(f, head) == Events(w, first, d[0], g(first));
      assert MapEvents(f, head + rest) == MapEvents(f, head) + MapEvents(f, rest);
    }
  }

  lemma ActivityUnfold<T>(w: nat, first: nat, d: seq<bool>, tag: nat -> T)
    requires 0 < w && d != []
    ensures Activity(w, first, d, tag) == Events(w, first, d[0], tag(first)) + Activity(w, first + 1, d[1..], tag)
  {}

  /** The entry the program stores for activation n. */
  function EntryAt(w: nat): nat -> Entry
    requires 0 < w
  {
    (n: nat) => Entry(n % w, n % w)
  }

  function Time(): nat -> nat {
    (n: nat) => n
  }

  /** Labelling entries by insertion time instead of by window position changes nothing else: the
      tracker's history is the timed history seen through the position. */
  lemma PositionsOfTimes(cap: nat, w: nat, d: seq<bool>)
    requires 0 < cap && 0 < w
    ensures After(cap, w, d, EntryAt(w)) == MapState(EntryAt(w), After(cap, w, d, Time()))
  {
    ActivityNatural(w, 0, d, Time(), EntryAt(w), EntryAt(w));
    RunNatural(cap, EntryAt(w), Empty<nat>(), Timeline(w, d, Time()));
    assert MapState(EntryAt(w), Empty<nat>()) == Empty<Entry>();
  }

  lemma ActPositions(cap: nat, w: nat, s: State<Entry>, n: nat, insert: bool)
    requires 0 < cap && 0 < w
    requires PosBelow(s.evicted, w) && PosBelow(s.refreshed, w) && PosBelow(s.queue, w)
    ensures var r := Act(cap, w, s, n, insert, EntryAt(w)(n));
            PosBelow(r.evicted, w) && PosBelow(r.refreshed, w) && PosBelow(r.queue, w)
  {}

  /** sim_monte_carlo: the tracker it leaves behind has the history of the timeline, and the ratio it
      reports bounds the overall loss ratio. */
  method SimMonteCarlo(trefi: nat, trackerSize: nat, maxIter: nat, decisions: seq<bool>)
    returns (lossProbMax: real, t: Tracker)
    requires 0 < trefi <= MAX_POS && 0 < trackerSize <= 0x8000_0000
    requires |decisions| == maxIter * trefi
    ensures fresh(t) && t.Valid() && t.entries.Length == trackerSize
    ensures t.history == After(trackerSize, trefi, decisions, EntryAt(trefi))
    ensures 0.0 <= lossProbMax <= 1.0 && WorstOf(t.Statistics(), trefi, lossProbMax)
    ensures t.sLoss as real <= lossProbMax * t.sInserts as real
  {
    hide After, Timeline, Run, Activity, Accounts, InsertStats, FromRing;
    var actCount := 0;
    t := new Tracker(trackerSize);
    ghost var h := Empty<Entry>();
    assert decisions[..0] == [];
    AfterNothing(trackerSize, trefi, EntryAt(trefi));
    while actCount / trefi < maxIter
      invariant actCount <= |decisions|
      invariant t.Valid() && t.entries.Length == trackerSize
      invariant fresh(t) && fresh(t.entries) && fresh(t.sInsertsPos) && fresh(t.sLossPos)
      invariant t.history == After(trackerSize, trefi, decisions[..actCount], EntryAt(trefi))
      invariant PosBelow(t.history.evicted, trefi) && PosBelow(t.history.refreshed, trefi) && PosBelow(t.history.queue, trefi)
      decreases |decisions| - actCount
    {
      InLoop(actCount, trefi, maxIter);
      AfterStep(trackerSize, trefi, decisions, actCount, EntryAt(trefi));
      ActPositions(trackerSize, trefi, t.history, actCount, decisions[actCount]);
      if actCount % trefi == 0 {
        var popped := t.Refresh();
      }
      if decisions[actCount] {
        var pos := actCount % trefi;
        var addr := pos;
        t.Insert(addr, pos);
      }
      actCount := actCount + 1;
    }
    LoopEnd(actCount, trefi, maxIter);
    assert decisions[..actCount] == decisions;
    lossProbMax := t.GetLossProb(trefi);
  }

  lemma AfterNothing<T>(cap: nat, w: nat, tag: nat -> T)
    requires 0 < cap && 0 < w
    ensures After(cap, w, [], tag) == Empty()
  {}

  lemma InLoop(n: nat, w: nat, k: nat)
    requires 0 < w && n / w < k
    ensures n < k * w
  {
    assert n == n / w * w + n % w;
    assert (n / w + 1) * w <= k * w;
  }

  lemma LoopEnd(n: nat, w: nat, k: nat)
    requires 0 < w && n / w >= k && n <= k * w
    ensures n == k * w
  {
    assert n == n / w * w + n % w;
    assert k * w <= n / w * w;
  }

  lemma DivUnique(x: nat, w: nat, q: nat, r: nat)
    requires 0 < w && r < w && x == q * w + r
    ensures x / w == q && x % w == r
  {
    var d := x / w - q;
    assert x == x / w * w + x % w;
    assert d * w == r - x % w;
    assert d > 0 ==> d * w >= w;
    assert d < 0 ==> d * w + w <= 0;
  }
}
