/** What "loss" means: an entry is evicted before a refresh reaches it.  The recursion of the analytical
    model is proved equal to the weight of the insert-count lists on which the queue does that. */
module LossModel {
  import opened RealSums
  import opened Expectation
  import opened Fifo

  // ----- the reference: a tagged entry in the queue

  /** A queue of `size` entries; only the one at index `ptr` carries the tag. */
  function Tags(size: nat, ptr: nat): seq<bool> {
    seq(size, i => i == ptr)
  }

  function Tagged(size: nat, ptr: nat): State<bool> {
    State(Tags(size, ptr), [], [])
  }

  function Others(k: nat): seq<Event<bool>> {
    seq(k, _ => Insert(false))
  }

  /** Windows with the given numbers of insertions, each closed by a refresh. */
  function Windows(ks: seq<nat>): seq<Event<bool>> {
    if ks == [] then [] else Others(ks[0]) + [Refresh] + Windows(ks[1..])
  }

  predicate Lost(cap: nat, size: nat, ptr: nat, ks: seq<nat>)
    requires 0 < cap
  {
    true in Run(cap, Tagged(size, ptr), Windows(ks)).evicted
  }

  function LossIndicator(cap: nat, size: nat, ptr: nat): seq<nat> -> real
    requires 0 < cap
  {
    (ks: seq<nat>) => if Lost(cap, size, ptr, ks) then 1.0 else 0.0
  }

  /** The weight of the lists of m insert counts on which the tagged entry is evicted. */
  function LossWeight(p: seq<real>, cap: nat, size: nat, ptr: nat, m: nat): real
    requires 0 < cap
  {
    Expect(p, m, LossIndicator(cap, size, ptr))
  }

  // ----- the recursion of calc_lossprob over its two tables

  function FullThreshold(cap: nat, ptr: nat, size: nat): nat
    requires size <= cap
  {
    cap - size + ptr
  }

  /** New (ptr, size) after a window of `insert` insertions and its mitigation. */
  function AfterWindow(cap: nat, ptr: nat, size: nat, insert: nat): (r: (nat, nat))
    requires 0 < ptr < size <= cap
    requires insert < FullThreshold(cap, ptr, size)
    ensures r.0 < r.1 <= cap && r.0 < ptr
    ensures FullThreshold(cap, r.0, r.1) == FullThreshold(cap, ptr, size) - insert
  {
    var newSize := if size + insert > cap then cap else size + insert;
    var remain := cap - size;
    var newPtr := if insert > remain then ptr - (insert - remain) else ptr;
    (newPtr - 1, newSize - 1)
  }

  function LossRec(probN: seq<real>, cprobN: seq<real>, cap: nat, ptr: nat, size: nat): real
    requires ptr < size <= cap
    requires FullThreshold(cap, ptr, size) + 1 < |cprobN| && |probN| == |cprobN|
    decreases ptr, 2
  {
    var full := FullThreshold(cap, ptr, size);
    if ptr == 0 then cprobN[full + 1]
    else Sum(full, LossTerms(probN, cprobN, cap, ptr, size)) + cprobN[full + 1]
  }

  function LossTerms(probN: seq<real>, cprobN: seq<real>, cap: nat, ptr: nat, size: nat): nat -> real
    requires 0 < ptr < size <= cap
    requires FullThreshold(cap, ptr, size) + 1 < |cprobN| && |probN| == |cprobN|
    decreases ptr, 1
  {
    (insert: nat) => LossTerm(probN, cprobN, cap, ptr, size, insert)
  }

  /** Case A of the recursion: `insert` insertions, the entry survives and moves up. */
  function LossTerm(probN: seq<real>, cprobN: seq<real>, cap: nat, ptr: nat, size: nat, insert: nat): real
    requires 0 < ptr < size <= cap
    requires FullThreshold(cap, ptr, size) + 1 < |cprobN| && |probN| == |cprobN|
    decreases ptr, 0
  {
    if insert < FullThreshold(cap, ptr, size) then
      var next := AfterWindow(cap, ptr, size, insert);
      probN[insert] * LossRec(probN, cprobN, cap, next.0, next.1)
    else 0.0
  }

  // ----- one window of the queue

  /** History only grows, and does not influence the run. */
  lemma {:induction false} HistoryIrrelevant<T>(cap: nat, q: seq<T>, ev: seq<T>, rf: seq<T>, es: seq<Event<T>>)
    requires 0 < cap
    ensures var r := Run(cap, State(q, [], []), es);
            Run(cap, State(q, ev, rf), es) == State(r.queue, ev + r.evicted, rf + r.refreshed)
    decreases |es|
  {
    if es != [] {
      var s := Step(cap, State(q, [], []), es[0]);
      HistoryIrrelevant(cap, s.queue, s.evicted, s.refreshed, es[1..]);
      var t := Step(cap, State(q, ev, rf), es[0]);
      assert t == State(s.queue, ev + s.evicted, rf + s.refreshed);
      HistoryIrrelevant(cap, t.queue, t.evicted, t.refreshed, es[1..]);
      var r := Run(cap, State(s.queue, [], []), es[1..]);
      assert ev + s.evicted + r.evicted == ev + (s.evicted + r.evicted);
      assert rf + s.refreshed + r.refreshed == rf + (s.refreshed + r.refreshed);
    }
  }

  function Overflow(cap: nat, size: nat, k: nat): nat {
    if size + k > cap then size + k - cap else 0
  }

  /** k insertions push the tag towards the head by the number of evictions, or out. */
  lemma {:induction false} InsertOthers(cap: nat, size: nat, ptr: nat, k: nat)
    requires ptr < size <= cap
    ensures var r := Run(cap, Tagged(size, ptr), Others(k));
            if Overflow(cap, size, k) <= ptr then
              && r.queue == Tags(size + k - Overflow(cap, size, k), ptr - Overflow(cap, size, k))
              && true !in r.evicted && true !in r.refreshed
            else true in r.evicted
    ensures |Run(cap, Tagged(size, ptr), Others(k)).queue| == size + k - Overflow(cap, size, k)
  {
    if k == 0 {
      assert Others(0) == [];
    } else {
      InsertOthers(cap, size, ptr, k - 1);
      assert Others(k) == Others(k - 1) + [Insert(false)];
      RunSnoc(cap, Tagged(size, ptr), Others(k - 1), Insert(false));
      var s := Run(cap, Tagged(size, ptr), Others(k - 1));
      var r := Run(cap, Tagged(size, ptr), Others(k));
      if Overflow(cap, size, k) <= ptr {
        assert r.queue == Tags(size + k - Overflow(cap, size, k), ptr - Overflow(cap, size, k));
      } else if Overflow(cap, size, k - 1) <= ptr {
        assert s.queue[0];
        assert r.evicted[|s.evicted|];
      } else {
        var i :| 0 <= i < |s.evicted| && s.evicted[i];
        assert r.evicted[i];
      }
    }
  }

  /** Once the tag has left the queue, later windows cannot evict it. */
  lemma {:induction false} GoneStaysGone(cap: nat, s: State<bool>, ks: seq<nat>)
    requires 0 < cap && true !in s.queue && true !in s.evicted
    ensures true !in Run(cap, s, Windows(ks)).evicted
    decreases |ks|
  {
    if ks != [] {
      var w := Others(ks[0]) + [Refresh];
      OthersOnly(cap, s, w);
      RunAppend(cap, s, w, Windows(ks[1..]));
      GoneStaysGone(cap, Run(cap, s, w), ks[1..]);
    }
  }

  lemma {:induction false} OthersOnly(cap: nat, s: State<bool>, es: seq<Event<bool>>)
    requires 0 < cap && true !in s.queue && true !in s.evicted
    requires Insert(true) !in es
    ensures true !in Run(cap, s, es).queue && true !in Run(cap, s, es).evicted
    decreases |es|
  {
    if es != [] {
      assert es[0] != Insert(true);
      OthersOnly(cap, Step(cap, s, es[0]), es[1..]);
    }
  }

  /** What the first window decides: lost, mitigated, or the same question one window later. */
  lemma FirstWindow(cap: nat, size: nat, ptr: nat, k: nat, ks: seq<nat>)
    requires ptr < size <= cap
    ensures FullThreshold(cap, ptr, size) < k ==> Lost(cap, size, ptr, [k] + ks)
    ensures k <= FullThreshold(cap, ptr, size) && (ptr == 0 || k == FullThreshold(cap, ptr, size))
            ==> !Lost(cap, size, ptr, [k] + ks)
    ensures k < FullThreshold(cap, ptr, size) && 0 < ptr
            ==> var next := AfterWindow(cap, ptr, size, k);
                Lost(cap, size, ptr, [k] + ks) == Lost(cap, next.1, next.0, ks)
  {
    var s, w := Tagged(size, ptr), Others(k) + [Refresh];
    var full, over := FullThreshold(cap, ptr, size), Overflow(cap, size, k);
    assert ([k] + ks)[0] == k && ([k] + ks)[1..] == ks;
    RunAppend(cap, s, w, Windows(ks));
    RunSnoc(cap, s, Others(k), Refresh);
    InsertOthers(cap, size, ptr, k);
    var a := Run(cap, s, w);
    HistoryIrrelevant(cap, a.queue, a.evicted, a.refreshed, Windows(ks));
    if full < k {
      assert over > ptr;
    } else if ptr == 0 || k == full {
      assert over == ptr || ptr == 0;
      assert true !in a.queue;
      GoneStaysGone(cap, a, ks);
    } else {
      var next := AfterWindow(cap, ptr, size, k);
      assert a.queue == Tags(next.1, next.0);
    }
  }

  // ----- exactness

  /** Case A: the weight of k insertions times the weight of losing the entry later. */
  function SurvivorTerm(p: seq<real>, cap: nat, size: nat, ptr: nat, m: nat, k: nat): real
    requires ptr < size <= cap
  {
    if k < FullThreshold(cap, ptr, size) && 0 < ptr then
      var next := AfterWindow(cap, ptr, size, k);
      At(p, k) * LossWeight(p, cap, next.1, next.0, m)
    else 0.0
  }

  function Survivors(p: seq<real>, cap: nat, size: nat, ptr: nat, m: nat): nat -> real
    requires ptr < size <= cap
  {
    (k: nat) => SurvivorTerm(p, cap, size, ptr, m, k)
  }

  /** The weight of losing the entry when the first window holds k insertions and m windows follow. */
  function AfterFirst(p: seq<real>, cap: nat, size: nat, ptr: nat, m: nat, k: nat): real
    requires ptr < size <= cap
  {
    var full := FullThreshold(cap, ptr, size);
    if full < k then 1.0
    else if ptr == 0 || k == full then 0.0
    else var next := AfterWindow(cap, ptr, size, k); LossWeight(p, cap, next.1, next.0, m)
  }

  lemma GivenFirst(p: seq<real>, cap: nat, size: nat, ptr: nat, m: nat, k: nat)
    requires Distribution(p) && ptr < size <= cap
    ensures Expect(p, m, Prefix(LossIndicator(cap, size, ptr), k)) == AfterFirst(p, cap, size, ptr, m, k)
  {
    var full := FullThreshold(cap, ptr, size);
    var g := Prefix(LossIndicator(cap, size, ptr), k);
    forall ks: seq<nat>
      ensures full < k ==> g(ks) == 1.0
      ensures k <= full && (ptr == 0 || k == full) ==> g(ks) == 0.0
      ensures k < full && 0 < ptr ==>
                var next := AfterWindow(cap, ptr, size, k);
                g(ks) == LossIndicator(cap, next.1, next.0)(ks)
    {
      FirstWindow(cap, size, ptr, k, ks);
    }
    if full < k {
      ExpectConst(p, m, 1.0, g);
    } else if ptr == 0 || k == full {
      ExpectConst(p, m, 0.0, g);
    } else {
      var next := AfterWindow(cap, ptr, size, k);
      ExpectCong(p, m, g, LossIndicator(cap, next.1, next.0));
    }
  }

  lemma FirstWindowWeight(p: seq<real>, cap: nat, size: nat, ptr: nat, m: nat, k: nat)
    requires Distribution(p) && ptr < size <= cap
    ensures FirstDraw(p, m, LossIndicator(cap, size, ptr))(k)
         == TailTerms(p, FullThreshold(cap, ptr, size) + 1)(k) + SurvivorTerm(p, cap, size, ptr, m, k)
  {
    GivenFirst(p, cap, size, ptr, m, k);
  }

  /** The loss weight, by what happens in the first window. */
  lemma LossWeightStep(p: seq<real>, cap: nat, size: nat, ptr: nat, m: nat)
    requires Distribution(p) && ptr < size <= cap
    ensures LossWeight(p, cap, size, ptr, m + 1)
         == Tail(p, FullThreshold(cap, ptr, size) + 1)
          + Sum(FullThreshold(cap, ptr, size), Survivors(p, cap, size, ptr, m))
  {
    var full, kept := FullThreshold(cap, ptr, size), Survivors(p, cap, size, ptr, m);
    var first := FirstDraw(p, m, LossIndicator(cap, size, ptr));
    forall k: nat ensures first(k) == TailTerms(p, full + 1)(k) + kept(k) {
      FirstWindowWeight(p, cap, size, ptr, m, k);
    }
    SumAdd(|p|, TailTerms(p, full + 1), kept, first);
    if full < |p| { SumExtend(full, |p|, kept); } else { SumExtend(|p|, full, kept); }
  }

  // ----- the tables as the program fills them

  const MAX_SIZE: nat := 16

  /** prob_n holds all MAX_SIZE + 1 weights; cprob_n is filled only below MAX_SIZE, so its last
      cell keeps the zero of static storage. */
  predicate Tables(p: seq<real>, probN: seq<real>, cprobN: seq<real>) {
    && |probN| == |cprobN| == MAX_SIZE + 1
    && (forall i :: 0 <= i <= MAX_SIZE ==> probN[i] == At(p, i))
    && (forall i :: 0 <= i < MAX_SIZE ==> cprobN[i] == Tail(p, i))
    && cprobN[MAX_SIZE] == 0.0
  }

  /** 1 + x + ... + x^n */
  function Geometric(x: real, n: nat): (r: real)
    ensures 0.0 <= x ==> 1.0 <= r
  {
    if n == 0 then 1.0 else 1.0 + x * Geometric(x, n - 1)
  }

  /** What the unfilled table cell costs: nothing unless cell MAX_SIZE is read. */
  function Deficit(p: seq<real>, full: nat, ptr: nat): real {
    if full + 1 == MAX_SIZE then Tail(p, MAX_SIZE) * Geometric(At(p, 0), ptr) else 0.0
  }

  function Carried(p: seq<real>, full: nat, ptr: nat): real {
    if ptr == 0 then 0.0 else At(p, 0) * Deficit(p, full, ptr - 1)
  }

  /** The recursion computes the loss weight up to the deficit of the last table cell. */
  lemma {:induction false} LossRecWithDeficit(p: seq<real>, probN: seq<real>, cprobN: seq<real>, cap: nat, ptr: nat, size: nat, m: nat)
    requires Distribution(p) && Tables(p, probN, cprobN)
    requires ptr < size <= cap && FullThreshold(cap, ptr, size) + 1 <= MAX_SIZE
    requires ptr < m
    ensures LossRec(probN, cprobN, cap, ptr, size) + Deficit(p, FullThreshold(cap, ptr, size), ptr)
         == LossWeight(p, cap, size, ptr, m)
    decreases ptr
  {
    hide *;
    var full := FullThreshold(cap, ptr, size);
    RangeFacts(p, probN, cprobN, cap, ptr, size);
    LossRecUnfold(probN, cprobN, cap, ptr, size);
    TableTail(p, probN, cprobN, full + 1);
    LossWeightStep(p, cap, size, ptr, m - 1);
    if ptr == 0 {
      NoSurvivors(p, cap, size, m - 1);
      DeficitAtHead(p, full);
    } else {
      forall k: nat | k < full
        ensures SurvivorTerm(p, cap, size, ptr, m - 1, k)
             == LossTerm(probN, cprobN, cap, ptr, size, k)
              + if k == 0 then Carried(p, full, ptr) else 0.0
      {
        var next := AfterWindow(cap, ptr, size, k);
        LossRecWithDeficit(p, probN, cprobN, cap, next.0, next.1, m - 1);
        TermWithDeficit(p, probN, cprobN, cap, ptr, size, m - 1, k);
      }
      SurvivorsWithDeficit(p, probN, cprobN, cap, ptr, size, m - 1);
      DeficitStep(p, full, ptr);
    }
  }

  lemma RangeFacts(p: seq<real>, probN: seq<real>, cprobN: seq<real>, cap: nat, ptr: nat, size: nat)
    requires Tables(p, probN, cprobN) && ptr < size <= cap && FullThreshold(cap, ptr, size) + 1 <= MAX_SIZE
    ensures MAX_SIZE == 16 && |probN| == |cprobN| == 17
    ensures ptr <= FullThreshold(cap, ptr, size)
  {}

  lemma SurvivorsWithDeficit(p: seq<real>, probN: seq<real>, cprobN: seq<real>, cap: nat, ptr: nat, size: nat, m: nat)
    requires 0 < ptr < size <= cap && FullThreshold(cap, ptr, size) + 1 < |cprobN| && |probN| == |cprobN|
    requires forall k: nat :: k < FullThreshold(cap, ptr, size) ==>
               SurvivorTerm(p, cap, size, ptr, m, k)
               == LossTerm(probN, cprobN, cap, ptr, size, k)
                + if k == 0 then Carried(p, FullThreshold(cap, ptr, size), ptr) else 0.0
    ensures var full := FullThreshold(cap, ptr, size);
            Sum(full, Survivors(p, cap, size, ptr, m))
            == Sum(full, LossTerms(probN, cprobN, cap, ptr, size)) + Carried(p, full, ptr)
  {
    hide Sum, LossTerm, SurvivorTerm, Carried;
    var full := FullThreshold(cap, ptr, size);
    var miss := (k: nat) => if k == 0 then Carried(p, full, ptr) else 0.0;
    SumAdd(full, LossTerms(probN, cprobN, cap, ptr, size), miss, Survivors(p, cap, size, ptr, m));
    SumSingle(full, 0, miss);
  }

  lemma TableTail(p: seq<real>, probN: seq<real>, cprobN: seq<real>, i: nat)
    requires Tables(p, probN, cprobN) && i <= MAX_SIZE
    ensures |probN| == |cprobN| == MAX_SIZE + 1
    ensures cprobN[i] + (if i == MAX_SIZE then Tail(p, MAX_SIZE) else 0.0) == Tail(p, i)
  {}

  lemma DeficitAtHead(p: seq<real>, full: nat)
    ensures Deficit(p, full, 0) == if full + 1 == MAX_SIZE then Tail(p, MAX_SIZE) else 0.0
  {}

  lemma NoSurvivors(p: seq<real>, cap: nat, size: nat, m: nat)
    requires 0 < size <= cap
    ensures Sum(FullThreshold(cap, 0, size), Survivors(p, cap, size, 0, m)) == 0.0
  {
    SumZero(FullThreshold(cap, 0, size), Survivors(p, cap, size, 0, m));
  }

  lemma TermWithDeficit(p: seq<real>, probN: seq<real>, cprobN: seq<real>, cap: nat, ptr: nat, size: nat, m: nat, k: nat)
    requires Tables(p, probN, cprobN)
    requires 0 < ptr < size <= cap && FullThreshold(cap, ptr, size) + 1 <= MAX_SIZE
    requires k < FullThreshold(cap, ptr, size)
    requires var next := AfterWindow(cap, ptr, size, k);
             LossRec(probN, cprobN, cap, next.0, next.1) + Deficit(p, FullThreshold(cap, next.0, next.1), next.0)
             == LossWeight(p, cap, next.1, next.0, m)
    ensures SurvivorTerm(p, cap, size, ptr, m, k)
         == LossTerm(probN, cprobN, cap, ptr, size, k)
          + if k == 0 then Carried(p, FullThreshold(cap, ptr, size), ptr) else 0.0
  {
    hide *;
    RangeFacts(p, probN, cprobN, cap, ptr, size);
    var next := AfterWindow(cap, ptr, size, k);
    var rec, d := LossRec(probN, cprobN, cap, next.0, next.1), Deficit(p, FullThreshold(cap, next.0, next.1), next.0);
    LossTermUnfold(probN, cprobN, cap, ptr, size, k);
    SurvivorUnfold(p, cap, ptr, size, m, k);
    TableWeight(p, probN, cprobN, cap, ptr, size, k);
    Distribute(At(p, k), rec, d);
    DeficitAfter(p, cap, ptr, size, k);
  }

  lemma SurvivorUnfold(p: seq<real>, cap: nat, ptr: nat, size: nat, m: nat, k: nat)
    requires 0 < ptr < size <= cap && k < FullThreshold(cap, ptr, size)
    ensures var next := AfterWindow(cap, ptr, size, k);
            SurvivorTerm(p, cap, size, ptr, m, k) == At(p, k) * LossWeight(p, cap, next.1, next.0, m)
  {
    hide LossWeight;
  }

  lemma TableWeight(p: seq<real>, probN: seq<real>, cprobN: seq<real>, cap: nat, ptr: nat, size: nat, k: nat)
    requires Tables(p, probN, cprobN) && ptr < size <= cap
    requires k < FullThreshold(cap, ptr, size) && FullThreshold(cap, ptr, size) + 1 <= MAX_SIZE
    ensures k < |probN| && probN[k] == At(p, k)
  {}

  /** The deficit that the window of k insertions passes on. */
  lemma DeficitAfter(p: seq<real>, cap: nat, ptr: nat, size: nat, k: nat)
    requires 0 < ptr < size <= cap && k < FullThreshold(cap, ptr, size) && FullThreshold(cap, ptr, size) + 1 <= MAX_SIZE
    ensures var next := AfterWindow(cap, ptr, size, k);
            At(p, k) * Deficit(p, FullThreshold(cap, next.0, next.1), next.0)
            == if k == 0 then Carried(p, FullThreshold(cap, ptr, size), ptr) else 0.0
  {}

  lemma Distribute(w: real, x: real, y: real)
    ensures w * (x + y) == w * x + w * y
  {}

  lemma LossRecUnfold(probN: seq<real>, cprobN: seq<real>, cap: nat, ptr: nat, size: nat)
    requires ptr < size <= cap && FullThreshold(cap, ptr, size) + 1 < |cprobN| && |probN| == |cprobN|
    ensures var full := FullThreshold(cap, ptr, size);
            LossRec(probN, cprobN, cap, ptr, size)
            == cprobN[full + 1] + if ptr == 0 then 0.0 else Sum(full, LossTerms(probN, cprobN, cap, ptr, size))
  {}

  lemma LossTermUnfold(probN: seq<real>, cprobN: seq<real>, cap: nat, ptr: nat, size: nat, k: nat)
    requires 0 < ptr < size <= cap && FullThreshold(cap, ptr, size) + 1 < |cprobN| && |probN| == |cprobN|
    requires k < FullThreshold(cap, ptr, size)
    ensures var next := AfterWindow(cap, ptr, size, k);
            LossTerm(probN, cprobN, cap, ptr, size, k) == probN[k] * LossRec(probN, cprobN, cap, next.0, next.1)
  {
    hide LossRec, Sum;
  }

  lemma DeficitStep(p: seq<real>, full: nat, ptr: nat)
    requires 0 < ptr
    ensures Deficit(p, full, ptr) ==
            (if full + 1 == MAX_SIZE then Tail(p, MAX_SIZE) else 0.0) + Carried(p, full, ptr)
  {
    var t, x, g := Tail(p, MAX_SIZE), At(p, 0), Geometric(At(p, 0), ptr - 1);
    assert t * (1.0 + x * g) == t + x * (t * g);
  }

  /** calc_lossprob is exact if and only if it never reads the unfilled last cell of cprob_n, or
      that cell should be zero anyway. */
  lemma LossRecExact(p: seq<real>, probN: seq<real>, cprobN: seq<real>, cap: nat, ptr: nat, size: nat, m: nat)
    requires Distribution(p) && Tables(p, probN, cprobN)
    requires ptr < size <= cap && FullThreshold(cap, ptr, size) + 1 <= MAX_SIZE
    requires ptr < m
    ensures LossRec(probN, cprobN, cap, ptr, size) == LossWeight(p, cap, size, ptr, m)
            <==> FullThreshold(cap, ptr, size) + 1 < MAX_SIZE || Tail(p, MAX_SIZE) == 0.0
  {
    var full := FullThreshold(cap, ptr, size);
    LossRecWithDeficit(p, probN, cprobN, cap, ptr, size, m);
    if full + 1 == MAX_SIZE {
      var t, g := Tail(p, MAX_SIZE), Geometric(At(p, 0), ptr);
      assert |p| > 0 ==> 0.0 <= At(p, 0);
      assert 1.0 <= g;
      assert t * g == 0.0 <==> t == 0.0;
    }
  }
}
