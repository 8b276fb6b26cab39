/** The Markov chain on the number of queued entries: what the transition matrix and its power
    iteration mean for the queue itself. */
module Occupancy {
  import opened RealSums
  import opened Expectation
  import opened Fifo
  import opened LossModel

  // ----- the reference: queue lengths

  /** The queue length after windows with the given insert counts, starting from i entries. */
  function Occupied(cap: nat, i: nat, ks: seq<nat>): nat
    requires 0 < cap
  {
    |Run(cap, Tagged(i, i), Windows(ks)).queue|
  }

  /** One window: k insertions saturate at the capacity, then the refresh takes one entry. */
  function Next(cap: nat, i: nat, k: nat): nat {
    var full := if cap < i + k then cap else i + k;
    if full == 0 then 0 else full - 1
  }

  /** Queue lengths do not depend on the items. */
  lemma {:induction false} LengthOnly<T, U>(cap: nat, s: State<T>, t: State<U>, es: seq<Event<T>>, fs: seq<Event<U>>)
    requires 0 < cap && |s.queue| == |t.queue| && |es| == |fs|
    requires forall i :: 0 <= i < |es| ==> es[i].Insert? == fs[i].Insert?
    ensures |Run(cap, s, es).queue| == |Run(cap, t, fs).queue|
    decreases |es|
  {
    if es != [] {
      LengthOnly(cap, Step(cap, s, es[0]), Step(cap, t, fs[0]), es[1..], fs[1..]);
    }
  }

  lemma {:induction false} InsertCount(cap: nat, s: State<bool>, k: nat)
    requires 0 < cap && |s.queue| <= cap
    ensures |Run(cap, s, Others(k)).queue| == if cap < |s.queue| + k then cap else |s.queue| + k
  {
    if k == 0 {
      assert Others(0) == [];
    } else {
      InsertCount(cap, s, k - 1);
      assert Others(k) == Others(k - 1) + [Insert(false)];
      RunSnoc(cap, s, Others(k - 1), Insert(false));
    }
  }

  /** The first window takes the length from i to Next(i, k). */
  lemma OccupiedStep(cap: nat, i: nat, k: nat, ks: seq<nat>)
    requires 0 < cap && i <= cap
    ensures Occupied(cap, i, [k] + ks) == Occupied(cap, Next(cap, i, k), ks)
  {
    var s, w := Tagged(i, i), Others(k) + [Refresh];
    assert ([k] + ks)[0] == k && ([k] + ks)[1..] == ks;
    RunAppend(cap, s, w, Windows(ks));
    RunSnoc(cap, s, Others(k), Refresh);
    InsertCount(cap, s, k);
    LengthOnly(cap, Run(cap, s, w), Tagged(Next(cap, i, k), Next(cap, i, k)), Windows(ks), Windows(ks));
  }

  function OccupiedIs(cap: nat, i: nat, j: nat): seq<nat> -> real
    requires 0 < cap
  {
    (ks: seq<nat>) => if Occupied(cap, i, ks) == j then 1.0 else 0.0
  }

  /** The weight of going from i queued entries to j in t windows. */
  function Reach(p: seq<real>, cap: nat, t: nat, i: nat, j: nat): real
    requires 0 < cap
  {
    Expect(p, t, OccupiedIs(cap, i, j))
  }

  // ----- the matrix

  function EntryTerms(p: seq<real>, cap: nat, i: nat, j: nat): nat -> real {
    (k: nat) => if Next(cap, i, k) == j then At(p, k) else 0.0
  }

  /** The weight of the insert counts that lead from i to j in one window. */
  function Entry(p: seq<real>, cap: nat, i: nat, j: nat): real {
    Sum(|p|, EntryTerms(p, cap, i, j))
  }

  function Row(p: seq<real>, cap: nat, i: nat): nat -> real {
    (j: nat) => Entry(p, cap, i, j)
  }

  lemma EntryNonNeg(p: seq<real>, cap: nat, i: nat, j: nat)
    requires Distribution(p)
    ensures 0.0 <= Entry(p, cap, i, j)
  {
    SumNonNeg(|p|, EntryTerms(p, cap, i, j));
  }

  /** Every row of the matrix is a probability vector. */
  lemma RowSumsToOne(p: seq<real>, cap: nat, i: nat)
    requires Distribution(p) && 0 < cap
    ensures Sum(cap, Row(p, cap, i)) == 1.0
  {
    var a := (j: nat, k: nat) => EntryTerms(p, cap, i, j)(k);
    forall j: nat ensures Row(p, cap, i)(j) == Sum(|p|, Across(a, j)) {
      SumCong(|p|, EntryTerms(p, cap, i, j), Across(a, j));
    }
    forall k: nat ensures Weights(p)(k) == Sum(cap, Down(a, k)) {
      forall j: nat ensures Down(a, k)(j) == if Next(cap, i, k) == j then At(p, k) else 0.0 {
        assert Down(a, k)(j) == a(j, k) == EntryTerms(p, cap, i, j)(k);
      }
      SumSingle(cap, Next(cap, i, k), Down(a, k));
    }
    SumSwap(cap, |p|, a, Row(p, cap, i), Weights(p));
  }

  /** What the program writes below the last column. */
  function Cell(p: seq<real>, i: nat, j: nat): real {
    if i == 0 && j == 0 then At(p, 0) + At(p, 1)
    else if i <= j + 1 then At(p, j + 1 - i)
    else 0.0
  }

  lemma EntryIsCell(p: seq<real>, cap: nat, i: nat, j: nat)
    requires i < cap && j + 1 < cap
    ensures Entry(p, cap, i, j) == Cell(p, i, j)
  {
    var f := EntryTerms(p, cap, i, j);
    if i == 0 && j == 0 {
      var g := (k: nat) => f(k + 2);
      SumZero(|p|, g);
      SumSplit(2, |p|, f, g);
      SumExtend(|p|, 2 + |p|, f);
      assert Sum(2, f) == Sum(1, f) + f(1) && Sum(1, f) == Sum(0, f) + f(0);
    } else if i <= j + 1 {
      forall k: nat | k != j + 1 - i ensures f(k) == 0.0 {}
      if j + 1 - i < |p| { SumSingle(|p|, j + 1 - i, f); } else { SumZero(|p|, f); }
    } else {
      SumZero(|p|, f);
    }
  }

  /** The last column, filled with what is left of the row. */
  lemma LastColumn(p: seq<real>, cap: nat, i: nat)
    requires Distribution(p) && i < cap
    ensures Entry(p, cap, i, cap - 1) == 1.0 - Sum(cap - 1, Row(p, cap, i))
  {
    RowSumsToOne(p, cap, i);
  }

  /** With a single state the program's "balance" is taken after the only cell was already
      filled, so the cell is right only when it should hold all the weight anyway. */
  lemma SingleStateCell(p: seq<real>)
    requires Distribution(p)
    ensures Filled(p, 1, 0, 0) == Entry(p, 1, 0, 0) <==> At(p, 0) + At(p, 1) == 0.0
  {
    RowSumsToOne(p, 1, 0);
    assert Sum(1, Row(p, 1, 0)) == Sum(0, Row(p, 1, 0)) + Row(p, 1, 0)(0);
  }

  function CellRow(prob: seq<real>, i: nat): nat -> real {
    (j: nat) => Cell(prob, i, j)
  }

  /** The matrix the program builds from its table of count weights. */
  function Filled(prob: seq<real>, size: nat, i: nat, j: nat): real {
    if size <= 1 then 1.0 - Cell(prob, 0, 0)
    else if j + 1 < size then Cell(prob, i, j)
    else 1.0 - Sum(size - 1, CellRow(prob, i))
  }

  function Transition(prob: seq<real>, size: nat): (nat, nat) -> real {
    (i: nat, j: nat) => Filled(prob, size, i, j)
  }

  /** Does the table hold the weights that a matrix of this size reads? */
  ghost predicate Agrees(p: seq<real>, prob: seq<real>, size: nat) {
    forall k: nat :: k < size ==> At(prob, k) == At(p, k)
  }

  /** For two or more states the whole matrix is the occupancy step of the queue. */
  lemma FilledIsEntry(p: seq<real>, prob: seq<real>, size: nat, i: nat, j: nat)
    requires Distribution(p) && 2 <= size && Agrees(p, prob, size) && i < size && j < size
    ensures Filled(prob, size, i, j) == Entry(p, size, i, j)
  {
    hide Entry, Sum, Distribution;
    forall h: nat | h + 1 < size ensures Cell(prob, i, h) == Entry(p, size, i, h) {
      EntryIsCell(p, size, i, h);
    }
    if j + 1 == size {
      SumCong(size - 1, CellRow(prob, i), Row(p, size, i));
      LastColumn(p, size, i);
    }
  }

  // ----- the power iteration

  function Mix(p: seq<real>, v: seq<real>, cap: nat, j: nat): nat -> real {
    (i: nat) => At(v, i) * Entry(p, cap, i, j)
  }

  function StepDist(p: seq<real>, v: seq<real>): seq<real> {
    seq(|v|, (j: nat) => Sum(|v|, Mix(p, v, |v|, j)))
  }

  function Iterate(p: seq<real>, v: seq<real>, t: nat): (r: seq<real>)
    ensures |r| == |v|
  {
    if t == 0 then v else StepDist(p, Iterate(p, v, t - 1))
  }

  function MixWith(e: (nat, nat) -> real, v: seq<real>, j: nat): nat -> real {
    (i: nat) => At(v, i) * e(i, j)
  }

  /** A vector times a matrix. */
  function StepWith(e: (nat, nat) -> real, v: seq<real>): seq<real> {
    seq(|v|, (j: nat) => Sum(|v|, MixWith(e, v, j)))
  }

  function IterateWith(e: (nat, nat) -> real, v: seq<real>, t: nat): (r: seq<real>)
    ensures |r| == |v|
  {
    if t == 0 then v else StepWith(e, IterateWith(e, v, t - 1))
  }

  /** Iterating the program's matrix is iterating the occupancy step. */
  lemma {:induction false} IterateFilled(p: seq<real>, prob: seq<real>, v: seq<real>, t: nat)
    requires Distribution(p) && 2 <= |v| && Agrees(p, prob, |v|)
    ensures IterateWith(Transition(prob, |v|), v, t) == Iterate(p, v, t)
  {
    if t != 0 {
      IterateFilled(p, prob, v, t - 1);
      StepFilled(p, prob, Iterate(p, v, t - 1));
    }
  }

  lemma StepFilled(p: seq<real>, prob: seq<real>, v: seq<real>)
    requires Distribution(p) && 2 <= |v| && Agrees(p, prob, |v|)
    ensures StepWith(Transition(prob, |v|), v) == StepDist(p, v)
  {
    hide Entry, Filled, Agrees, Distribution, Sum;
    var n, e := |v|, Transition(prob, |v|);
    forall j: nat | j < n ensures StepWith(e, v)[j] == StepDist(p, v)[j] {
      forall i: nat | i < n ensures MixWith(e, v, j)(i) == Mix(p, v, n, j)(i) {
        FilledIsEntry(p, prob, n, i, j);
      }
      SumCong(n, MixWith(e, v, j), Mix(p, v, n, j));
    }
  }

  lemma {:induction false} IterateFirst(p: seq<real>, v: seq<real>, t: nat)
    ensures Iterate(p, v, t + 1) == Iterate(p, StepDist(p, v), t)
  {
    if t != 0 { IterateFirst(p, v, t - 1); }
  }

  /** A step keeps probability vectors. */
  lemma StepKeepsDistribution(p: seq<real>, v: seq<real>)
    requires Distribution(p) && Distribution(v) && 0 < |v|
    ensures Distribution(StepDist(p, v))
  {
    var n, w := |v|, StepDist(p, v);
    forall j | 0 <= j < n ensures 0.0 <= w[j] {
      forall i: nat | i < n ensures 0.0 <= Mix(p, v, n, j)(i) {
        EntryNonNeg(p, n, i, j);
        assert 0.0 <= v[i];
      }
      SumNonNeg(n, Mix(p, v, n, j));
    }
    var a := (i: nat, j: nat) => Mix(p, v, n, j)(i);
    forall i: nat | i < n ensures Weights(v)(i) == Sum(n, Across(a, i)) {
      RowSumsToOne(p, n, i);
      SumScale(n, v[i], Row(p, n, i), Across(a, i));
    }
    forall j: nat | j < n ensures Weights(w)(j) == Sum(n, Down(a, j)) {
      SumCong(n, Mix(p, v, n, j), Down(a, j));
    }
    SumSwap(n, n, a, Weights(v), Weights(w));
  }

  lemma {:induction false} IterateKeepsDistribution(p: seq<real>, v: seq<real>, t: nat)
    requires Distribution(p) && Distribution(v) && 0 < |v|
    ensures Distribution(Iterate(p, v, t))
  {
    if t != 0 {
      IterateKeepsDistribution(p, v, t - 1);
      StepKeepsDistribution(p, Iterate(p, v, t - 1));
    }
  }

  // ----- the iteration computes the distribution of the queue length

  function Onward(p: seq<real>, cap: nat, t: nat, i: nat, j: nat): nat -> real
    requires 0 < cap
  {
    (h: nat) => Entry(p, cap, i, h) * Reach(p, cap, t, h, j)
  }

  lemma ReachAfterFirst(p: seq<real>, cap: nat, t: nat, i: nat, j: nat, k: nat)
    requires 0 < cap && i <= cap
    ensures FirstDraw(p, t, OccupiedIs(cap, i, j))(k) == At(p, k) * Reach(p, cap, t, Next(cap, i, k), j)
  {
    forall ks: seq<nat> ensures Prefix(OccupiedIs(cap, i, j), k)(ks) == OccupiedIs(cap, Next(cap, i, k), j)(ks) {
      OccupiedStep(cap, i, k, ks);
    }
    ExpectCong(p, t, Prefix(OccupiedIs(cap, i, j), k), OccupiedIs(cap, Next(cap, i, k), j));
  }

  function Via(p: seq<real>, cap: nat, t: nat, i: nat, j: nat): (nat, nat) -> real
    requires 0 < cap
  {
    (k: nat, h: nat) => if Next(cap, i, k) == h then At(p, k) * Reach(p, cap, t, h, j) else 0.0
  }

  lemma ReachUnfold(p: seq<real>, cap: nat, t: nat, i: nat, j: nat)
    requires 0 < cap
    ensures Reach(p, cap, t + 1, i, j) == Sum(|p|, FirstDraw(p, t, OccupiedIs(cap, i, j)))
  {}

  /** First-step decomposition of the queue-length weights. */
  lemma ReachStep(p: seq<real>, cap: nat, t: nat, i: nat, j: nat)
    requires 0 < cap && i <= cap
    ensures Reach(p, cap, t + 1, i, j) == Sum(cap, Onward(p, cap, t, i, j))
  {
    hide Reach, Expect, FirstDraw, Sum, Entry;
    var first, onward, a := FirstDraw(p, t, OccupiedIs(cap, i, j)), Onward(p, cap, t, i, j), Via(p, cap, t, i, j);
    ReachUnfold(p, cap, t, i, j);
    forall k: nat | k < |p| ensures first(k) == Sum(cap, Across(a, k)) {
      ReachAfterFirst(p, cap, t, i, j, k);
      SumSingle(cap, Next(cap, i, k), Across(a, k));
    }
    forall h: nat | h < cap ensures onward(h) == Sum(|p|, Down(a, h)) {
      ViaDown(p, cap, t, i, j, h);
    }
    SumSwap(|p|, cap, a, first, onward);
  }

  lemma ViaDown(p: seq<real>, cap: nat, t: nat, i: nat, j: nat, h: nat)
    requires 0 < cap
    ensures Onward(p, cap, t, i, j)(h) == Sum(|p|, Down(Via(p, cap, t, i, j), h))
  {
    hide Reach, Sum;
    SumScale(|p|, Reach(p, cap, t, h, j), EntryTerms(p, cap, i, h), Down(Via(p, cap, t, i, j), h));
  }

  function StartMix(p: seq<real>, v: seq<real>, t: nat, j: nat): nat -> real
    requires 0 < |v|
  {
    (i: nat) => At(v, i) * Reach(p, |v|, t, i, j)
  }

  /** After t iterations the vector is the distribution of the queue length after t windows, the
      starting length being drawn from v. */
  lemma {:induction false} IterateIsOccupancy(p: seq<real>, v: seq<real>, t: nat, j: nat)
    requires 0 < |v| && j < |v|
    ensures Iterate(p, v, t)[j] == Sum(|v|, StartMix(p, v, t, j))
    decreases t
  {
    var n := |v|;
    if t == 0 {
      forall i: nat | i < n ensures StartMix(p, v, 0, j)(i) == if i == j then v[j] else 0.0 {
        assert Windows([]) == [];
        assert Occupied(n, i, []) == i;
      }
      SumSingle(n, j, StartMix(p, v, 0, j));
    } else {
      IterateFirst(p, v, t - 1);
      IterateIsOccupancy(p, StepDist(p, v), t - 1, j);
      StartMixStep(p, v, t - 1, j);
    }
  }

  function TwoSteps(p: seq<real>, v: seq<real>, t: nat, j: nat): (nat, nat) -> real
    requires 0 < |v|
  {
    (h: nat, i: nat) => At(v, i) * Entry(p, |v|, i, h) * Reach(p, |v|, t, h, j)
  }

  lemma StartMixStep(p: seq<real>, v: seq<real>, t: nat, j: nat)
    requires 0 < |v|
    ensures Sum(|v|, StartMix(p, StepDist(p, v), t, j)) == Sum(|v|, StartMix(p, v, t + 1, j))
  {
    hide Reach, Entry, Sum;
    var n, w, a := |v|, StepDist(p, v), TwoSteps(p, v, t, j);
    var after, before := StartMix(p, w, t, j), StartMix(p, v, t + 1, j);
    forall h: nat | h < n ensures after(h) == Sum(n, Across(a, h)) {
      SumScale(n, Reach(p, n, t, h, j), Mix(p, v, n, h), Across(a, h));
    }
    forall i: nat | i < n ensures before(i) == Sum(n, Down(a, i)) {
      ReachStep(p, n, t, i, j);
      forall h: nat ensures Down(a, i)(h) == v[i] * Onward(p, n, t, i, j)(h) {
        Associate(At(v, i), Entry(p, n, i, h), Reach(p, n, t, h, j));
      }
      SumScale(n, v[i], Onward(p, n, t, i, j), Down(a, i));
    }
    SumSwap(n, n, a, after, before);
  }

  lemma Associate(x: real, y: real, z: real)
    ensures x * y * z == x * (y * z)
  {}
}
