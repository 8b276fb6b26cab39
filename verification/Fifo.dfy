/** A bounded first-in first-out queue that drops its oldest item when it is full: the abstract
    view of the tracker, independent of ring-buffer indices and statistics. */
module Fifo {

  datatype Event<T> = Insert(item: T) | Refresh

  /** The queue, oldest first, with the history of the items that left it and why. */
  datatype State<T> = State(queue: seq<T>, evicted: seq<T>, refreshed: seq<T>)

  function Empty<T>(): State<T> {
    State([], [], [])
  }

  function Step<T>(cap: nat, s: State<T>, e: Event<T>): State<T>
    requires 0 < cap
  {
    match e
    case Insert(x) =>
      if |s.queue| == cap
      then State(s.queue[1..] + [x], s.evicted + [s.queue[0]], s.refreshed)
      else s.(queue := s.queue + [x])
    case Refresh =>
      if s.queue == [] then s
      else State(s.queue[1..], s.evicted, s.refreshed + [s.queue[0]])
  }

  function Run<T>(cap: nat, s: State<T>, es: seq<Event<T>>): State<T>
    requires 0 < cap
    decreases |es|
  {
    if es == [] then s else Run(cap, Step(cap, s, es[0]), es[1..])
  }

  /** The items inserted by a list of events, in order. */
  function Inserted<T>(es: seq<Event<T>>): seq<T> {
    if es == [] then []
    else Added(es[0]) + Inserted(es[1..])
  }

  lemma {:induction false} RunAppend<T>(cap: nat, s: State<T>, es: seq<Event<T>>, fs: seq<Event<T>>)
    requires 0 < cap
    ensures Run(cap, s, es + fs) == Run(cap, Run(cap, s, es), fs)
    decreases |es|
  {
    if es == [] {
      assert es + fs == fs;
    } else {
      assert (es + fs)[1..] == es[1..] + fs;
      RunAppend(cap, Step(cap, s, es[0]), es[1..], fs);
    }
  }

  lemma RunSnoc<T>(cap: nat, s: State<T>, es: seq<Event<T>>, e: Event<T>)
    requires 0 < cap
    ensures Run(cap, s, es + [e]) == Step(cap, Run(cap, s, es), e)
  {
    RunAppend(cap, s, es, [e]);
    var t := Run(cap, s, es);
    assert Run(cap, t, [e]) == Run(cap, Step(cap, t, e), [e][1..]);
  }

  lemma {:induction false} RunBounded<T>(cap: nat, s: State<T>, es: seq<Event<T>>)
    requires 0 < cap && |s.queue| <= cap
    ensures |Run(cap, s, es).queue| <= cap
    decreases |es|
  {
    if es != [] { RunBounded(cap, Step(cap, s, es[0]), es[1..]); }
  }

  function Added<T>(e: Event<T>): seq<T> {
    if e.Insert? then [e.item] else []
  }

  lemma Front<T>(s: seq<T>)
    requires s != []
    ensures multiset(s) == multiset{s[0]} + multiset(s[1..])
  {
    assert s == [s[0]] + s[1..];
  }

  lemma Back<T>(s: seq<T>, x: T)
    ensures multiset(s + [x]) == multiset(s) + multiset{x}
  {}

  lemma Regroup<T>(a: multiset<T>, b: multiset<T>, c: multiset<T>, d: multiset<T>)
    ensures (a + b) + (c + d) == a + (b + c) + d
  {}

  lemma EvictConserves<T>(ev: seq<T>, q: seq<T>, x: T)
    requires q != []
    ensures multiset(ev + [q[0]]) + multiset(q[1..] + [x]) == multiset(ev) + multiset(q) + multiset{x}
  {
    Front(q);
    Back(ev, q[0]);
    Back(q[1..], x);
    Regroup(multiset(ev), multiset{q[0]}, multiset(q[1..]), multiset{x});
  }

  lemma Reorder<T>(a: multiset<T>, b: multiset<T>, c: multiset<T>, d: multiset<T>)
    ensures a + b + c + d == (a + c + d) + b
  {}

  lemma StepConserves<T>(cap: nat, s: State<T>, e: Event<T>)
    requires 0 < cap
    ensures var t := Step(cap, s, e);
            multiset(t.evicted) + multiset(t.refreshed) + multiset(t.queue)
            == multiset(s.evicted) + multiset(s.refreshed) + multiset(s.queue) + multiset(Added(e))
  {
    match e
    case Refresh =>
      if s.queue != [] {
        Front(s.queue);
        Back(s.refreshed, s.queue[0]);
      }
    case Insert(x) =>
      assert multiset(Added(e)) == multiset{x};
      if |s.queue| == cap {
        EvictConserves(s.evicted, s.queue, x);
        hide Added;
        var t := Step(cap, s, e);
        Reorder(multiset(t.evicted), multiset(t.refreshed), multiset(t.queue), multiset{});
        Reorder(multiset(s.evicted), multiset(s.refreshed), multiset(s.queue), multiset{x});
      } else {
        Back(s.queue, x);
      }
  }

  /** Nothing is lost or duplicated: every inserted item was evicted, was refreshed or is queued. */
  lemma {:induction false} Conservation<T>(cap: nat, s: State<T>, es: seq<Event<T>>)
    requires 0 < cap
    ensures var r := Run(cap, s, es);
            multiset(r.evicted) + multiset(r.refreshed) + multiset(r.queue)
            == multiset(s.evicted) + multiset(s.refreshed) + multiset(s.queue) + multiset(Inserted(es))
    decreases |es|
  {
    if es == [] {
      assert Inserted(es) == [];
    } else {
      StepConserves(cap, s, es[0]);
      Conservation(cap, Step(cap, s, es[0]), es[1..]);
    }
  }

  // ----- trackers of two capacities driven by the same events

  ghost predicate IsSuffix<T>(a: seq<T>, b: seq<T>) {
    |a| <= |b| && a == b[|b| - |a|..]
  }

  /** One queue is a suffix of the other, and no further behind than the capacities. */
  ghost predicate Close<T>(c1: nat, c2: nat, a: seq<T>, b: seq<T>) {
    |a| <= c1 && |b| <= c2 && IsSuffix(a, b) && |b| - |a| <= c2 - c1
  }

  /** What a smaller and a larger tracker keep in common at every point of a run. */
  ghost predicate Nested<T>(c1: nat, c2: nat, s1: State<T>, s2: State<T>) {
    && Close(c1, c2, s1.queue, s2.queue)
    && |s2.evicted| <= |s1.evicted|
  }

  /** Suffixes survive what a step does to both queues. */
  lemma SuffixKept<T>(a: seq<T>, b: seq<T>, x: T)
    requires IsSuffix(a, b)
    ensures IsSuffix(a + [x], b + [x])
    ensures a != [] ==> IsSuffix(a[1..], b) && IsSuffix(a[1..], b[1..])
    ensures |a| < |b| ==> IsSuffix(a, b[1..])
  {
    var d := |b| - |a|;
    assert (b + [x])[d..] == b[d..] + [x];
    if a != [] {
      assert b[d + 1..] == b[d..][1..];
      assert b[1..][d..] == b[d + 1..];
    }
    if d > 0 { assert b[1..][d - 1..] == b[d..]; }
  }

  /** The queue after an insertion, and after a refresh. */
  function Pushed<T>(cap: nat, q: seq<T>, x: T): seq<T>
    requires 0 < cap
  {
    (if |q| == cap then q[1..] else q) + [x]
  }

  function Popped<T>(q: seq<T>): seq<T> {
    if q == [] then [] else q[1..]
  }

  lemma StepQueue<T>(cap: nat, s: State<T>, e: Event<T>)
    requires 0 < cap
    ensures Step(cap, s, e).queue == if e.Insert? then Pushed(cap, s.queue, e.item) else Popped(s.queue)
    ensures |Step(cap, s, e).evicted| == |s.evicted| + if e.Insert? && |s.queue| == cap then 1 else 0
  {}

  lemma PushClose<T>(c1: nat, c2: nat, a: seq<T>, b: seq<T>, x: T)
    requires 0 < c1 <= c2 && Close(c1, c2, a, b)
    ensures Close(c1, c2, Pushed(c1, a, x), Pushed(c2, b, x))
    ensures |b| == c2 ==> |a| == c1
  {
    SuffixLength(a, b);
    SuffixKept(a, b, x);
    var a1, b1 := if |a| == c1 then a[1..] else a, if |b| == c2 then b[1..] else b;
    hide IsSuffix;
    assert IsSuffix(a1, b1);
    SuffixLength(a1, b1);
    SuffixKept(a1, b1, x);
  }

  lemma PopClose<T>(c1: nat, c2: nat, a: seq<T>, b: seq<T>)
    requires 0 < c1 <= c2 && Close(c1, c2, a, b)
    ensures Close(c1, c2, Popped(a), Popped(b))
  {
    SuffixLength(a, b);
    if b != [] { SuffixKept(a, b, b[0]); }
  }

  lemma NestedStep<T>(c1: nat, c2: nat, s1: State<T>, s2: State<T>, e: Event<T>)
    requires 0 < c1 <= c2 && Nested(c1, c2, s1, s2)
    ensures Nested(c1, c2, Step(c1, s1, e), Step(c2, s2, e))
  {
    hide Step, Pushed, Popped, IsSuffix;
    StepQueue(c1, s1, e);
    StepQueue(c2, s2, e);
    if e.Insert? {
      PushClose(c1, c2, s1.queue, s2.queue, e.item);
    } else {
      PopClose(c1, c2, s1.queue, s2.queue);
    }
  }

  lemma SuffixLength<T>(a: seq<T>, b: seq<T>)
    requires IsSuffix(a, b)
    ensures |a| <= |b|
  {}

  /** Every run keeps the smaller tracker's queue a suffix of the larger one's, and the larger
      tracker never evicts more items. */
  lemma {:induction false} LargerTrackerLosesLess<T>(c1: nat, c2: nat, s1: State<T>, s2: State<T>, es: seq<Event<T>>)
    requires 0 < c1 <= c2 && Nested(c1, c2, s1, s2)
    ensures Nested(c1, c2, Run(c1, s1, es), Run(c2, s2, es))
    decreases |es|
  {
    if es != [] {
      NestedStep(c1, c2, s1, s2, es[0]);
      LargerTrackerLosesLess(c1, c2, Step(c1, s1, es[0]), Step(c2, s2, es[0]), es[1..]);
    }
  }

  // ----- relabelling

  function MapEvent<T, U>(f: T -> U, e: Event<T>): Event<U> {
    match e
    case Insert(x) => Insert(f(x))
    case Refresh => Refresh
  }

  function MapSeq<T, U>(f: T -> U, s: seq<T>): seq<U> {
    seq(|s|, i requires 0 <= i < |s| => f(s[i]))
  }

  function MapEvents<T, U>(f: T -> U, es: seq<Event<T>>): seq<Event<U>> {
    seq(|es|, i requires 0 <= i < |es| => MapEvent(f, es[i]))
  }

  function MapState<T, U>(f: T -> U, s: State<T>): State<U> {
    State(MapSeq(f, s.queue), MapSeq(f, s.evicted), MapSeq(f, s.refreshed))
  }

  /** The queue discipline does not look at the items: relabelling commutes with running. */
  lemma {:induction false} RunNatural<T, U>(cap: nat, f: T -> U, s: State<T>, es: seq<Event<T>>)
    requires 0 < cap
    ensures Run(cap, MapState(f, s), MapEvents(f, es)) == MapState(f, Run(cap, s, es))
    decreases |es|
  {
    if es == [] {
      assert MapEvents(f, es) == [];
    } else {
      assert MapEvents(f, es)[0] == MapEvent(f, es[0]);
      assert MapEvents(f, es)[1..] == MapEvents(f, es[1..]);
      var t := Step(cap, MapState(f, s), MapEvent(f, es[0]));
      var u := MapState(f, Step(cap, s, es[0]));
      assert t.queue == u.queue && t.evicted == u.evicted && t.refreshed == u.refreshed;
      RunNatural(cap, f, Step(cap, s, es[0]), es[1..]);
    }
  }
}
