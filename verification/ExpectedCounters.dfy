/** What the simulator's counters are on average: the counters that it divides, over all runs of the loop,
    against the exact losses of the entries. */
module ExpectedCounters {
  import opened RealSums
  import opened Expectation
  import opened Fifo
  import opened Tracker
  import opened Binomial
  import opened MonteCarlo
  import opened SimulatedLoss
  import opened TimelineLoss

  // ----- every activation has one item or none

  function Items(s: State<nat>): multiset<nat> {
    multiset(s.evicted) + multiset(s.refreshed) + multiset(s.queue)
  }

  ghost predicate OncePerInsertion(m: multiset<nat>, d: seq<bool>, n: nat)
    requires n <= |d|
  {
    forall i: nat :: m[i] == if i < n && d[i] then 1 else 0
  }

  lemma ActItems(cap: nat, w: nat, s: State<nat>, n: nat, insert: bool)
    requires 0 < cap && 0 < w
    ensures Items(Act(cap, w, s, n, insert, n)) == Items(s) + if insert then multiset{n} else multiset{}
  {
    hide Step;
    StepConserves(cap, s, Event.Refresh);
    var s1 := if n % w == 0 then Step(cap, s, Event<nat>.Refresh) else s;
    StepConserves(cap, s1, Event.Insert(n));
    assert multiset(Added(Event<nat>.Refresh)) == multiset{};
    assert multiset(Added(Event.Insert(n))) == multiset{n};
  }

  /** After n activations exactly the items of those that inserted are there, each once. */
  lemma {:induction false} EachOnce(cap: nat, w: nat, d: seq<bool>, n: nat)
    requires 0 < cap && 0 < w && n <= |d|
    ensures OncePerInsertion(Items(After<nat>(cap, w, d[..n], Time())), d, n)
    decreases n
  {
    hide After, Items, Act;
    AfterStart(cap, w, d);
    if n == 0 {
      EmptyItems();
    } else {
      EachOnce(cap, w, d, n - 1);
      AfterStep(cap, w, d, n - 1, Time());
      ActItems(cap, w, After<nat>(cap, w, d[..n - 1], Time()), n - 1, d[n - 1]);
    }
  }

  lemma EmptyItems()
    ensures Items(Empty<nat>()) == multiset{}
  {}

  // ----- counting one position

  /** The activation at position r of window t. */
  function Nth(w: nat, r: nat, t: nat): nat {
    w * t + r
  }

  function HitTerms(s: seq<nat>, w: nat, r: nat): nat -> real {
    (t: nat) => multiset(s)[Nth(w, r, t)] as real
  }

  function HitOne(x: nat, w: nat, r: nat): nat -> real {
    (t: nat) => if Nth(w, r, t) == x then 1.0 else 0.0
  }

  lemma CountOne(x: nat, w: nat, r: nat, n: nat)
    requires r < w && x < w * n
    ensures Sum(n, HitOne(x, w, r)) == if x % w == r then 1.0 else 0.0
  {
    hide Sum;
    var f := HitOne(x, w, r);
    var t := x / w;
    assert x == w * t + x % w;
    forall k: nat ensures f(k) == if k == t && x % w == r then 1.0 else 0.0 {
      if Nth(w, r, k) == x { DivUnique(x, w, k, r); }
    }
    BelowQuotient(x, w, n);
    if x % w == r { SumSingle(n, t, f); } else { SumZero(n, f); }
  }

  lemma BelowQuotient(x: nat, w: nat, n: nat)
    requires 0 < w && x < w * n
    ensures x / w < n
  {
    assert x == w * (x / w) + x % w;
    Smaller(w, x / w, n);
  }

  lemma Smaller(w: nat, a: nat, b: nat)
    requires w * a < w * b
    ensures a < b
  {
    assert 0 < w * (b - a);
  }

  /** A counter by position is a sum over the windows. */
  lemma {:induction false} PositionCount(s: seq<nat>, w: nat, r: nat, n: nat)
    requires r < w && forall x :: x in s ==> x < w * n
    ensures CountPos(MapSeq(EntryAt(w), s), r) as real == Sum(n, HitTerms(s, w, r))
    decreases |s|
  {
    hide Sum, Nth;
    var f := HitTerms(s, w, r);
    if s == [] {
      SumZero(n, f);
    } else {
      var x, rest := s[0], s[1..];
      assert s == [x] + rest;
      assert x in s && forall y :: y in rest ==> y in s;
      var e := MapSeq(EntryAt(w), s);
      assert e[1..] == MapSeq(EntryAt(w), rest);
      PositionCount(rest, w, r, n);
      CountOne(x, w, r, n);
      forall t: nat ensures f(t) == HitOne(x, w, r)(t) + HitTerms(rest, w, r)(t) {}
      SumAdd(n, HitOne(x, w, r), HitTerms(rest, w, r), f);
    }
  }

  // ----- the counters of a run

  /** The timed history after the activations with these draws. */
  function Final(cap: nat, w: nat, bits: seq<nat>): State<nat>
    requires 0 < cap && 0 < w
  {
    After(cap, w, Decisions(bits), Time())
  }

  /** s_loss_pos at position r after the run with these draws. */
  function LossCounter(cap: nat, w: nat, r: nat): seq<nat> -> real
    requires 0 < cap && 0 < w
  {
    (bits: seq<nat>) => CountPos(After(cap, w, Decisions(bits), EntryAt(w)).evicted, r) as real
  }

  /** s_inserts_pos at position r. */
  function InsertCounter(cap: nat, w: nat, r: nat): seq<nat> -> real
    requires 0 < cap && 0 < w
  {
    (bits: seq<nat>) =>
      var h := After(cap, w, Decisions(bits), EntryAt(w));
      (CountPos(h.evicted, r) + CountPos(h.refreshed, r) + CountPos(h.queue, r)) as real
  }

  /** They are the counters of the tracker that the loop leaves behind. */
  lemma CountersOfTracker(t: Tracker, cap: nat, w: nat, r: nat, bits: seq<nat>)
    requires 0 < cap && 0 < w && r < MAX_POS && t.Valid() && t.history == After(cap, w, Decisions(bits), EntryAt(w))
    ensures t.sLossPos[r] as real == LossCounter(cap, w, r)(bits)
    ensures t.sInsertsPos[r] as real == InsertCounter(cap, w, r)(bits)
  {
    hide After, CountPos;
    var st := t.Statistics();
    assert st.lossPos[r] == t.sLossPos[r] && st.insertsPos[r] == t.sInsertsPos[r];
  }

  function TimesEvicted(cap: nat, w: nat, n: nat, bits: seq<nat>): real
    requires 0 < cap && 0 < w
  {
    multiset(Final(cap, w, bits).evicted)[n] as real
  }

  function EvictedAt(cap: nat, w: nat, n: nat): seq<nat> -> real
    requires 0 < cap && 0 < w
  {
    (bits: seq<nat>) => TimesEvicted(cap, w, n, bits)
  }

  function InsertsAt(n: nat): seq<nat> -> real {
    (bits: seq<nat>) => if n < |bits| && bits[n] != 0 then 1.0 else 0.0
  }

  /** The value at bits of every member of a family. */
  function Members(family: nat -> seq<nat> -> real, bits: seq<nat>): nat -> real {
    (t: nat) => family(t)(bits)
  }

  function Evictions(cap: nat, w: nat, r: nat): nat -> seq<nat> -> real
    requires 0 < cap && 0 < w
  {
    (t: nat) => EvictedAt(cap, w, Nth(w, r, t))
  }

  function Insertions(w: nat, r: nat): nat -> seq<nat> -> real {
    (t: nat) => InsertsAt(Nth(w, r, t))
  }

  lemma ItemsOfRun(cap: nat, w: nat, bits: seq<nat>)
    requires 0 < cap && 0 < w
    ensures forall i: nat :: Items(Final(cap, w, bits))[i] == if i < |bits| && bits[i] != 0 then 1 else 0
  {
    hide After, Items;
    var d := Decisions(bits);
    DecisionsLength(bits);
    EachOnce(cap, w, d, |d|);
    assert d[..|d|] == d;
  }

  lemma ItemsBelow(s: State<nat>, n: nat)
    requires forall i: nat :: n <= i ==> Items(s)[i] == 0
    ensures forall x :: x in s.evicted || x in s.refreshed || x in s.queue ==> x < n
  {
    forall x | x in s.evicted || x in s.refreshed || x in s.queue ensures x < n {
      assert Items(s)[x] >= 1 by {
        if x in s.evicted { assert x in multiset(s.evicted); }
        else if x in s.refreshed { assert x in multiset(s.refreshed); }
        else { assert x in multiset(s.queue); }
      }
    }
  }

  lemma CountersOfHistory(cap: nat, w: nat, r: nat, bits: seq<nat>)
    requires 0 < cap && r < w
    ensures var s, e := Final(cap, w, bits), EntryAt(w);
            && LossCounter(cap, w, r)(bits) == CountPos(MapSeq(e, s.evicted), r) as real
            && InsertCounter(cap, w, r)(bits) == CountPos(MapSeq(e, s.evicted), r) as real
                + CountPos(MapSeq(e, s.refreshed), r) as real + CountPos(MapSeq(e, s.queue), r) as real
  {
    hide After, CountPos, MapSeq, Decisions;
    PositionsOfTimes(cap, w, Decisions(bits));
  }

  lemma CountersAreSums(cap: nat, w: nat, r: nat, n: nat, bits: seq<nat>)
    requires 0 < cap && r < w && |bits| == w * n
    ensures LossCounter(cap, w, r)(bits) == Sum(n, Members(Evictions(cap, w, r), bits))
    ensures InsertCounter(cap, w, r)(bits) == Sum(n, Members(Insertions(w, r), bits))
  {
    hide *;
    var s := Final(cap, w, bits);
    CountersOfHistory(cap, w, r, bits);
    ItemsOfRun(cap, w, bits);
    ItemsBelow(s, |bits|);
    PositionCount(s.evicted, w, r, n);
    PositionCount(s.refreshed, w, r, n);
    PositionCount(s.queue, w, r, n);
    var e, f, g := HitTerms(s.evicted, w, r), HitTerms(s.refreshed, w, r), HitTerms(s.queue, w, r);
    var ef := (t: nat) => e(t) + f(t);
    forall t: nat | t < n
      ensures e(t) == Members(Evictions(cap, w, r), bits)(t)
      ensures Members(Insertions(w, r), bits)(t) == ef(t) + g(t)
    {
      MembersAre(cap, w, r, bits, t);
    }
    SumCong(n, e, Members(Evictions(cap, w, r), bits));
    SumAdd(n, e, f, ef);
    SumAdd(n, ef, g, Members(Insertions(w, r), bits));
  }

  lemma ItemAt(cap: nat, w: nat, bits: seq<nat>, n: nat)
    requires 0 < cap && 0 < w
    ensures var s := Final(cap, w, bits);
            multiset(s.evicted)[n] + multiset(s.refreshed)[n] + multiset(s.queue)[n]
            == if n < |bits| && bits[n] != 0 then 1 else 0
  {
    hide *;
    ItemsOfRun(cap, w, bits);
    ItemsAre(Final(cap, w, bits), n);
  }

  lemma EvictedAtIs(cap: nat, w: nat, n: nat, bits: seq<nat>)
    requires 0 < cap && 0 < w
    ensures EvictedAt(cap, w, n)(bits) == TimesEvicted(cap, w, n, bits)
  {
    hide TimesEvicted;
  }

  lemma TimesEvictedIs(cap: nat, w: nat, n: nat, bits: seq<nat>)
    requires 0 < cap && 0 < w
    ensures TimesEvicted(cap, w, n, bits) == multiset(Final(cap, w, bits).evicted)[n] as real
  {
    hide Final;
  }

  lemma MembersAre(cap: nat, w: nat, r: nat, bits: seq<nat>, t: nat)
    requires 0 < cap && r < w
    ensures var s := Final(cap, w, bits);
            && HitTerms(s.evicted, w, r)(t) == Members(Evictions(cap, w, r), bits)(t)
            && Members(Insertions(w, r), bits)(t)
               == HitTerms(s.evicted, w, r)(t) + HitTerms(s.refreshed, w, r)(t) + HitTerms(s.queue, w, r)(t)
  {
    hide *;
    var s, n := Final(cap, w, bits), Nth(w, r, t);
    ItemAt(cap, w, bits, n);
    EvictedAtIs(cap, w, n, bits);
    TimesEvictedIs(cap, w, n, bits);
    EvictionsAt(cap, w, r, bits, t);
    InsertionsAt(w, r, bits, t);
    HitTermAt(s.evicted, w, r, t);
    HitTermAt(s.refreshed, w, r, t);
    HitTermAt(s.queue, w, r, t);
    InsertsAtIs(n, bits);
  }

  lemma HitTermAt(s: seq<nat>, w: nat, r: nat, t: nat)
    ensures HitTerms(s, w, r)(t) == multiset(s)[Nth(w, r, t)] as real
  {
    hide Nth;
  }

  lemma EvictionsAt(cap: nat, w: nat, r: nat, bits: seq<nat>, t: nat)
    requires 0 < cap && r < w
    ensures Members(Evictions(cap, w, r), bits)(t) == EvictedAt(cap, w, Nth(w, r, t))(bits)
  {
    hide Nth, EvictedAt;
  }

  lemma InsertionsAt(w: nat, r: nat, bits: seq<nat>, t: nat)
    ensures Members(Insertions(w, r), bits)(t) == InsertsAt(Nth(w, r, t))(bits)
  {
    hide Nth, InsertsAt;
  }

  lemma InsertsAtIs(n: nat, bits: seq<nat>)
    ensures InsertsAt(n)(bits) == if n < |bits| && bits[n] != 0 then 1.0 else 0.0
  {}

  lemma ItemsAre(s: State<nat>, i: nat)
    ensures Items(s)[i] == multiset(s.evicted)[i] + multiset(s.refreshed)[i] + multiset(s.queue)[i]
  {}

  // ----- averages

  lemma {:induction false} ExpectScale(p: seq<real>, m: nat, c: real, f: seq<nat> -> real, h: seq<nat> -> real)
    requires forall ks :: Draws(p, m, ks) ==> h(ks) == c * f(ks)
    ensures Expect(p, m, h) == c * Expect(p, m, f)
    decreases m
  {
    if m == 0 {
      assert Draws(p, 0, []);
    } else {
      var F, H := FirstDraw(p, m - 1, f), FirstDraw(p, m - 1, h);
      forall k: nat | k < |p| ensures H(k) == c * F(k) {
        forall ks | Draws(p, m - 1, ks) ensures Prefix(h, k)(ks) == c * Prefix(f, k)(ks) {
          assert Draws(p, m, [k] + ks);
        }
        ExpectScale(p, m - 1, c, Prefix(f, k), Prefix(h, k));
      }
      SumScale(|p|, c, F, H);
    }
  }

  function MemberAverages(p: seq<real>, m: nat, family: nat -> seq<nat> -> real): nat -> real {
    (t: nat) => Expect(p, m, family(t))
  }

  function Total(n: nat, family: nat -> seq<nat> -> real): seq<nat> -> real {
    (bits: seq<nat>) => Sum(n, Members(family, bits))
  }

  /** The average of a sum is the sum of the averages. */
  lemma {:induction false} ExpectTotal(p: seq<real>, m: nat, n: nat, family: nat -> seq<nat> -> real)
    requires Distribution(p)
    ensures Expect(p, m, Total(n, family)) == Sum(n, MemberAverages(p, m, family))
  {
    hide Expect, Distribution;
    if n == 0 {
      ExpectConst(p, m, 0.0, Total(0, family));
    } else {
      ExpectTotal(p, m, n - 1, family);
      ExpectAdd(p, m, Total(n - 1, family), family(n - 1), Total(n, family));
    }
  }

  /** Activation n must insert for f to be anything; then f is g of the other draws. */
  lemma GivenInsertion(q: real, n: nat, rest: nat, f: seq<nat> -> real, g: seq<nat> -> real)
    requires 0.0 <= q <= 1.0
    requires forall xs: seq<nat>, ys: seq<nat> :: |xs| == n && |ys| == rest ==> f(xs + ([0] + ys)) == 0.0 && f(xs + ([1] + ys)) == g(xs + ys)
    ensures Expect(Bernoulli(q), n + (rest + 1), f) == q * Expect(Bernoulli(q), n + rest, g)
  {
    hide *;
    var p := Bernoulli(q);
    BernoulliIsDistribution(q);
    ExpectAppend(p, n, rest + 1, f);
    ExpectAppend(p, n, rest, g);
    forall xs | Draws(p, n, xs) ensures Rest(p, rest + 1, f)(xs) == q * Rest(p, rest, g)(xs) {
      DrawsLength(p, n, xs);
      GivenPast(q, rest, f, g, xs);
    }
    ExpectScale(p, n, q, Rest(p, rest, g), Rest(p, rest + 1, f));
  }

  lemma DrawsLength(p: seq<real>, m: nat, ks: seq<nat>)
    requires Draws(p, m, ks)
    ensures |ks| == m
  {}

  lemma GivenPast(q: real, rest: nat, f: seq<nat> -> real, g: seq<nat> -> real, xs: seq<nat>)
    requires 0.0 <= q <= 1.0
    requires forall ys: seq<nat> :: |ys| == rest ==> f(xs + ([0] + ys)) == 0.0 && f(xs + ([1] + ys)) == g(xs + ys)
    ensures Rest(Bernoulli(q), rest + 1, f)(xs) == q * Rest(Bernoulli(q), rest, g)(xs)
  {
    hide Expect, Distribution, Bernoulli;
    var p, c := Bernoulli(q), Continue(f, xs);
    BernoulliIsDistribution(q);
    ExpectBit(q, rest, c);
    ExpectConstOn(p, rest, Prefix(c, 0));
    ExpectCong(p, rest, Prefix(c, 1), Continue(g, xs));
  }

  lemma ExpectConstOn(p: seq<real>, m: nat, f: seq<nat> -> real)
    requires Distribution(p) && forall ks: seq<nat> :: |ks| == m ==> f(ks) == 0.0
    ensures Expect(p, m, f) == 0.0
  {
    ExpectConst(p, m, 0.0, f);
  }

  lemma SplitDecisions(xs: seq<nat>, b: nat, ys: seq<nat>)
    ensures Decisions(xs + ([b] + ys)) == Decisions(xs) + [b != 0] + Decisions(ys)
    ensures (xs + ([b] + ys))[|xs|] == b && |xs + ([b] + ys)| == |xs| + 1 + |ys|
  {}

  lemma EvictedIsLost(cap: nat, w: nat, xs: seq<nat>, ys: seq<nat>)
    requires 0 < cap && 0 < w
    ensures EvictedAt(cap, w, |xs|)(xs + ([0] + ys)) == 0.0
    ensures EvictedAt(cap, w, |xs|)(xs + ([1] + ys)) == LostIndicator(cap, w, |xs|)(xs + ys)
  {
    hide *;
    var n, a, b := |xs|, xs + ([0] + ys), xs + ([1] + ys);
    SplitDecisions(xs, 0, ys);
    SplitDecisions(xs, 1, ys);
    AtMostOnce(cap, w, a, n);
    AtMostOnce(cap, w, b, n);
    LostIsIn(cap, w, xs, ys);
  }

  lemma LostIsIn(cap: nat, w: nat, xs: seq<nat>, ys: seq<nat>)
    requires 0 < cap && 0 < w
    ensures LostIndicator(cap, w, |xs|)(xs + ys)
         == if |xs| in Final(cap, w, xs + ([1] + ys)).evicted then 1.0 else 0.0
  {
    hide After, Decisions;
    SplitDecisions(xs, 1, ys);
    assert (xs + ys)[..|xs|] == xs && (xs + ys)[|xs|..] == ys;
  }

  lemma AtMostOnce(cap: nat, w: nat, bits: seq<nat>, n: nat)
    requires 0 < cap && 0 < w && n < |bits|
    ensures EvictedAt(cap, w, n)(bits) == if n in Final(cap, w, bits).evicted then 1.0 else 0.0
    ensures bits[n] == 0 ==> n !in Final(cap, w, bits).evicted
  {
    hide *;
    ItemAt(cap, w, bits, n);
    EvictedAtIs(cap, w, n, bits);
    TimesEvictedIs(cap, w, n, bits);
    InMultiset(Final(cap, w, bits).evicted, n);
  }

  lemma InMultiset(s: seq<nat>, n: nat)
    ensures n in s <==> 0 < multiset(s)[n]
  {
    assert n in s <==> n in multiset(s);
  }

  function LossTerms(q: real, cap: nat, w: nat, r: nat, n: nat): nat -> real
    requires 0 < cap && 0 < w
  {
    (t: nat) => if t < n then LossOf(q, cap, w, Nth(w, r, t), n - 1 - t) else 0.0
  }

  lemma RestOfRun(w: nat, r: nat, t: nat, n: nat)
    requires r < w && t < n
    ensures Nth(w, r, t) % w == r && Position(w, Nth(w, r, t)) == r + 1
    ensures var m := n - 1 - t; w * n == Nth(w, r, t) + (w - (r + 1) + w * m + 1)
  {
    DivUnique(w * t + r, w, t, r);
    var m := n - 1 - t;
    assert w * n == w * t + w + w * m by { assert n == t + 1 + m; }
  }

  /** Over all runs of n windows the losses counted at position r are, on average, q times the sum of the
      exact losses of that position's entries in the windows. */
  lemma ExpectedLosses(q: real, cap: nat, w: nat, r: nat, n: nat)
    requires 0.0 <= q <= 1.0 && 0 < cap && r < w
    ensures Expect(Bernoulli(q), w * n, LossCounter(cap, w, r)) == q * Sum(n, LossTerms(q, cap, w, r, n))
  {
    hide Expect, Sum, LossCounter, InsertCounter, EvictedAt, Distribution, Nth, Position, LostIndicator;
    var p, family := Bernoulli(q), Evictions(cap, w, r);
    BernoulliIsDistribution(q);
    forall bits | Draws(p, w * n, bits) ensures LossCounter(cap, w, r)(bits) == Total(n, family)(bits) {
      CountersAreSums(cap, w, r, n, bits);
    }
    ExpectCong(p, w * n, LossCounter(cap, w, r), Total(n, family));
    ExpectTotal(p, w * n, n, family);
    forall t: nat | t < n ensures MemberAverages(p, w * n, family)(t) == q * LossTerms(q, cap, w, r, n)(t) {
      ExpectedLoss(q, cap, w, r, n, t);
    }
    SumScale(n, q, LossTerms(q, cap, w, r, n), MemberAverages(p, w * n, family));
  }

  lemma ExpectedLoss(q: real, cap: nat, w: nat, r: nat, n: nat, t: nat)
    requires 0.0 <= q <= 1.0 && 0 < cap && r < w && t < n
    ensures Expect(Bernoulli(q), w * n, EvictedAt(cap, w, Nth(w, r, t))) == q * LossOf(q, cap, w, Nth(w, r, t), n - 1 - t)
  {
    hide Expect, EvictedAt, Nth, Position, LostIndicator;
    var i, m := Nth(w, r, t), n - 1 - t;
    var rest := w - (r + 1) + w * m;
    RestOfRun(w, r, t, n);
    forall xs: seq<nat>, ys: seq<nat> | |xs| == i && |ys| == rest
      ensures EvictedAt(cap, w, i)(xs + ([0] + ys)) == 0.0
      ensures EvictedAt(cap, w, i)(xs + ([1] + ys)) == LostIndicator(cap, w, i)(xs + ys)
    {
      EvictedIsLost(cap, w, xs, ys);
    }
    GivenInsertion(q, i, rest, EvictedAt(cap, w, i), LostIndicator(cap, w, i));
  }

  /** The insertions counted at a position are, on average, q per window. */
  lemma ExpectedInserts(q: real, cap: nat, w: nat, r: nat, n: nat)
    requires 0.0 <= q <= 1.0 && 0 < cap && r < w
    ensures Expect(Bernoulli(q), w * n, InsertCounter(cap, w, r)) == q * n as real
  {
    hide Expect, Sum, LossCounter, InsertCounter, InsertsAt, Distribution, Nth;
    var p, family := Bernoulli(q), Insertions(w, r);
    BernoulliIsDistribution(q);
    forall bits | Draws(p, w * n, bits) ensures InsertCounter(cap, w, r)(bits) == Total(n, family)(bits) {
      CountersAreSums(cap, w, r, n, bits);
    }
    ExpectCong(p, w * n, InsertCounter(cap, w, r), Total(n, family));
    ExpectTotal(p, w * n, n, family);
    var one := (t: nat) => 1.0;
    forall t: nat | t < n ensures MemberAverages(p, w * n, family)(t) == q * one(t) { ExpectedInsert(q, w, r, n, t); }
    SumScale(n, q, one, MemberAverages(p, w * n, family));
    SumOfOnes(n, one);
  }

  lemma {:induction false} SumOfOnes(n: nat, one: nat -> real)
    requires forall k: nat :: one(k) == 1.0
    ensures Sum(n, one) == n as real
  {
    if n != 0 { SumOfOnes(n - 1, one); }
  }

  lemma ExpectedInsert(q: real, w: nat, r: nat, n: nat, t: nat)
    requires 0.0 <= q <= 1.0 && r < w && t < n
    ensures Expect(Bernoulli(q), w * n, InsertsAt(Nth(w, r, t))) == q
  {
    hide Expect, Nth, Position, Distribution;
    var i, m := Nth(w, r, t), n - 1 - t;
    var rest := w - (r + 1) + w * m;
    var one := (bits: seq<nat>) => 1.0;
    RestOfRun(w, r, t, n);
    GivenInsertion(q, i, rest, InsertsAt(i), one);
    BernoulliIsDistribution(q);
    ExpectConst(Bernoulli(q), i + rest, 1.0, one);
  }
}
