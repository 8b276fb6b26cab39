/** The weight of surviving whole windows.  It depends only on the refreshes an entry still needs and on
    the free places, and it is a sum over the numbers of evictions that some windows make. */
module Survival {
  import opened RealSums
  import opened Expectation
  import opened Binomial
  import opened LossModel

  // ----- survival by refreshes needed and free places

  /** The refreshes an entry needs after a window of k insertions, when it needed n before. */
  function Needs(n: nat, free: nat, k: nat): (r: nat)
    requires 0 < n && k < free + n
    ensures r < n
  {
    if free < k then n - 1 - (k - free) else n - 1
  }

  /** The free places after the window's refresh. */
  function Room(free: nat, k: nat): (r: nat)
    ensures 0 < r
  {
    if k < free then free - k + 1 else 1
  }

  /** The weight of being refreshed before being evicted. */
  function Saved(p: seq<real>, n: nat, free: nat): real
    decreases n, 1
  {
    if n == 0 then 1.0 else Sum(free + n, SavedTerms(p, n, free))
  }

  function SavedTerms(p: seq<real>, n: nat, free: nat): nat -> real
    requires 0 < n
    decreases n, 0
  {
    (k: nat) => if k < free + n then At(p, k) * Saved(p, Needs(n, free, k), Room(free, k)) else 0.0
  }

  lemma SavedUnfold(p: seq<real>, n: nat, free: nat)
    requires 0 < n
    ensures Saved(p, n, free) == Sum(free + n, SavedTerms(p, n, free))
  {}

  lemma NextState(cap: nat, ptr: nat, size: nat, k: nat)
    requires 0 < ptr < size <= cap && k < FullThreshold(cap, ptr, size)
    ensures var next := AfterWindow(cap, ptr, size, k);
            next.0 + 1 == Needs(ptr + 1, cap - size, k) && cap - next.1 == Room(cap - size, k)
  {}

  lemma SavedTermAt(p: seq<real>, n: nat, free: nat, k: nat)
    requires 0 < n && k < free + n
    ensures SavedTerms(p, n, free)(k) == At(p, k) * Saved(p, Needs(n, free, k), Room(free, k))
    ensures k + 1 == free + n || n == 1 ==> SavedTerms(p, n, free)(k) == At(p, k)
  {}

  lemma NoSurvivorAt(p: seq<real>, cap: nat, size: nat, ptr: nat, m: nat, k: nat)
    requires ptr < size <= cap && (ptr == 0 || FullThreshold(cap, ptr, size) <= k)
    ensures Survivors(p, cap, size, ptr, m)(k) == 0.0
  {}

  /** An entry is lost or saved: the loss weight is what the survival weight leaves. */
  lemma {:induction false} LossIsUnsaved(p: seq<real>, cap: nat, size: nat, ptr: nat, m: nat)
    requires Distribution(p) && ptr < size <= cap && ptr < m
    ensures LossWeight(p, cap, size, ptr, m) == 1.0 - Saved(p, ptr + 1, cap - size)
    decreases ptr
  {
    hide Saved, SavedTerms, LossWeight, Survivors, Sum, Tail, Distribution, AfterWindow, Needs, Room;
    var n, free, full := ptr + 1, cap - size, FullThreshold(cap, ptr, size);
    var kept, lost := SavedTerms(p, n, free), Survivors(p, cap, size, ptr, m - 1);
    LossWeightStep(p, cap, size, ptr, m - 1);
    SavedUnfold(p, n, free);
    forall k: nat | k < full + 1 ensures Weights(p)(k) == kept(k) + lost(k) {
      SavedTermAt(p, n, free, k);
      if ptr == 0 || full <= k {
        NoSurvivorAt(p, cap, size, ptr, m - 1, k);
      } else {
        var next := AfterWindow(cap, ptr, size, k);
        NextState(cap, ptr, size, k);
        LossIsUnsaved(p, cap, next.1, next.0, m - 1);
        SurvivorAt(p, cap, size, ptr, m - 1, k);
        Complement(At(p, k), Saved(p, next.0 + 1, cap - next.1));
      }
    }
    SumAdd(full + 1, kept, lost, Weights(p));
    NoSurvivorAt(p, cap, size, ptr, m - 1, full);
    SumStep(full, lost);
    BalanceIsTail(p, full + 1);
  }

  lemma SurvivorAt(p: seq<real>, cap: nat, size: nat, ptr: nat, m: nat, k: nat)
    requires 0 < ptr < size <= cap && k < FullThreshold(cap, ptr, size)
    ensures var next := AfterWindow(cap, ptr, size, k);
            Survivors(p, cap, size, ptr, m)(k) == At(p, k) * LossWeight(p, cap, next.1, next.0, m)
  {
    hide LossWeight;
  }

  lemma Complement(w: real, x: real)
    ensures w == w * x + w * (1.0 - x)
  {}

  // ----- how many entries some windows evict

  /** The weight of at most x evictions in t windows, from a queue with one free place. */
  function AtMost(p: seq<real>, t: nat, x: nat): real
    decreases t, 1
  {
    if t == 0 then 1.0 else Sum(x + 2, AtMostTerms(p, t - 1, x))
  }

  function AtMostTerms(p: seq<real>, t: nat, x: nat): nat -> real
    decreases t, 2
  {
    (k: nat) => if k <= x + 1 then At(p, k) * AtMost(p, t, x + 1 - k) else 0.0
  }

  function Exactly(p: seq<real>, t: nat, x: int): real {
    if x < 0 then 0.0 else if x == 0 then AtMost(p, t, 0) else AtMost(p, t, x) - AtMost(p, t, x - 1)
  }

  lemma ExactlyNone(p: seq<real>, t: nat)
    ensures Exactly(p, t, 0) == AtMost(p, t, 0)
    ensures forall x: int :: x < 0 ==> Exactly(p, t, x) == 0.0
  {}

  function StepTerms(p: seq<real>, t: nat, y: int): nat -> real {
    (k: nat) => At(p, k) * Exactly(p, t, y - k)
  }

  lemma AtMostUnfold(p: seq<real>, t: nat, x: nat)
    ensures AtMost(p, t + 1, x) == Sum(x + 2, AtMostTerms(p, t, x))
    ensures AtMost(p, 0, x) == 1.0
  {}

  lemma DistributeMinus(w: real, x: real, y: real)
    ensures w * (x - y) == w * x - w * y
  {}

  lemma StepTerm(p: seq<real>, t: nat, x: nat, k: nat)
    requires 0 < x && k <= x + 1
    ensures AtMostTerms(p, t, x)(k) == StepTerms(p, t, x + 1)(k) + AtMostTerms(p, t, x - 1)(k)
  {
    hide AtMost;
    if k <= x {
      assert x - 1 + 1 - k == x - k == (x + 1 - k) - 1;
      DistributeMinus(At(p, k), AtMost(p, t, x + 1 - k), AtMost(p, t, x - k));
    }
  }

  /** The first window's insertions fill the free place, then evict. */
  lemma ExactlyStep(p: seq<real>, t: nat, x: nat, bound: nat)
    requires 0 < x && x + 2 <= bound
    ensures Sum(bound, StepTerms(p, t, x + 1)) == Exactly(p, t + 1, x)
  {
    hide AtMost, Sum;
    var f, a, b := StepTerms(p, t, x + 1), AtMostTerms(p, t, x), AtMostTerms(p, t, x - 1);
    forall k: nat | k < x + 2 ensures a(k) == f(k) + b(k) {
      StepTerm(p, t, x, k);
    }
    SumAdd(x + 2, f, b, a);
    SumExtend(x + 1, x + 2, b);
    SumExtend(x + 2, bound, f);
    AtMostUnfold(p, t, x);
    AtMostUnfold(p, t, x - 1);
  }

  /** No eviction in one more window: no insertion with one free place more, or one insertion. */
  lemma NoneStep(p: seq<real>, t: nat)
    ensures AtMost(p, t + 1, 0) == At(p, 0) * AtMost(p, t, 1) + At(p, 1) * AtMost(p, t, 0)
  {
    hide AtMost;
    var a := AtMostTerms(p, t, 0);
    AtMostUnfold(p, t, 0);
    SumStep(0, a);
    SumStep(1, a);
  }

  lemma ExactlyZero(p: seq<real>, t: nat, bound: nat)
    requires 2 <= bound
    ensures Exactly(p, t + 1, 0) == Sum(bound, StepTerms(p, t, 1)) + At(p, 0) * Exactly(p, t, 0)
  {
    hide AtMost, Sum;
    var f := StepTerms(p, t, 1);
    NoneStep(p, t);
    SumStep(0, f);
    SumStep(1, f);
    SumExtend(2, bound, f);
    DistributeMinus(At(p, 0), AtMost(p, t, 1), AtMost(p, t, 0));
  }

  // ----- survival as a sum over the number of evictions

  function SpreadTerms(p: seq<real>, n: nat, free: nat): nat -> real {
    (t: nat) => Exactly(p, t, n - t + free - 1)
  }

  /** The same sum after a first window of k insertions. */
  function AfterTerms(p: seq<real>, n: nat, free: nat, k: nat): nat -> real {
    (t: nat) => Exactly(p, t, n - 1 - t + free - k)
  }

  function Quiet(p: seq<real>, n: nat, free: nat, k: nat): real
    requires 0 < n
  {
    if k <= free then AtMost(p, n - 1, free - k) else 0.0
  }

  lemma {:induction false} SpreadAfter(p: seq<real>, n: nat, free: nat, k: nat)
    requires 0 < n && 0 < free && k < free + n
    requires var r, room := Needs(n, free, k), Room(free, k);
             Saved(p, r, room) == Sum(r, SpreadTerms(p, r, room)) + AtMost(p, r, room - 1)
    ensures Saved(p, Needs(n, free, k), Room(free, k))
         == Sum(n - 1, AfterTerms(p, n, free, k)) + Quiet(p, n, free, k)
  {
    hide Saved, AtMost, Sum;
    var r, room := Needs(n, free, k), Room(free, k);
    var f := AfterTerms(p, n, free, k);
    SumCong(r, SpreadTerms(p, r, room), f);
    if free < k {
      SumStep(r, f);
      ExactlyNone(p, r);
      assert n - 1 - r + free - k == 0;
      forall t: nat | r + 1 <= t < n - 1 ensures f(t) == 0.0 {
        ExactlyNone(p, t);
        assert n - 1 - t + free - k < 0;
      }
      SumExtend(r + 1, n - 1, f);
    } else {
      assert r == n - 1 && room - 1 == free - k;
    }
  }

  function Both(p: seq<real>, n: nat, free: nat): (nat, nat) -> real {
    (k: nat, t: nat) => At(p, k) * Exactly(p, t, n - 1 - t + free - k)
  }

  function SpreadRows(p: seq<real>, n: nat, free: nat): nat -> real
    requires 0 < n
  {
    (k: nat) => At(p, k) * Sum(n - 1, AfterTerms(p, n, free, k))
  }

  function QuietTerms(p: seq<real>, n: nat, free: nat): nat -> real
    requires 0 < n
  {
    (k: nat) => At(p, k) * Quiet(p, n, free, k)
  }

  lemma QuietSum(p: seq<real>, n: nat, free: nat)
    requires 0 < n && 0 < free
    ensures Sum(free + n, QuietTerms(p, n, free)) == AtMost(p, n, free - 1)
  {
    hide AtMost, Sum;
    var f := QuietTerms(p, n, free);
    AtMostUnfold(p, n - 1, free - 1);
    SumExtend(free + 1, free + n, f);
    SumCong(free + 1, f, AtMostTerms(p, n - 1, free - 1));
  }

  lemma SavedTermSpread(p: seq<real>, n: nat, free: nat, k: nat)
    requires 0 < n && 0 < free && k < free + n
    requires var r, room := Needs(n, free, k), Room(free, k);
             Saved(p, r, room) == Sum(r, SpreadTerms(p, r, room)) + AtMost(p, r, room - 1)
    ensures SavedTerms(p, n, free)(k) == SpreadRows(p, n, free)(k) + QuietTerms(p, n, free)(k)
  {
    hide Saved, AtMost, Sum, Exactly, Needs, Room, Quiet, AfterTerms, SavedTerms;
    SpreadAfter(p, n, free, k);
    SavedTermAt(p, n, free, k);
    Distribute(At(p, k), Sum(n - 1, AfterTerms(p, n, free, k)), Quiet(p, n, free, k));
  }

  /** The t windows before the last refresh of the entry make exactly the evictions that it needs. */
  lemma {:induction false} SavedSpread(p: seq<real>, n: nat, free: nat)
    requires 0 < free
    ensures Saved(p, n, free) == Sum(n, SpreadTerms(p, n, free)) + AtMost(p, n, free - 1)
    decreases n
  {
    if n == 0 {
      AtMostUnfold(p, 0, free - 1);
    } else {
      hide *;
      var full, rows := free + n, SpreadRows(p, n, free);
      forall k: nat | k < full ensures SavedTerms(p, n, free)(k) == rows(k) + QuietTerms(p, n, free)(k) {
        RoomPositive(free, k);
        SavedSpread(p, Needs(n, free, k), Room(free, k));
        SavedTermSpread(p, n, free, k);
      }
      SavedUnfold(p, n, free);
      SumAdd(full, rows, QuietTerms(p, n, free), SavedTerms(p, n, free));
      QuietSum(p, n, free);
      SpreadSwap(p, n, free);
    }
  }

  lemma RoomPositive(free: nat, k: nat)
    ensures 0 < Room(free, k)
  {}

  lemma SpreadSwap(p: seq<real>, n: nat, free: nat)
    requires 0 < n && 0 < free
    ensures Sum(free + n, SpreadRows(p, n, free)) == Sum(n, SpreadTerms(p, n, free))
  {
    hide AtMost, Sum;
    var full, a, s, rows := free + n, Both(p, n, free), SpreadTerms(p, n, free), SpreadRows(p, n, free);
    var cols := (t: nat) => s(1 + t);
    forall k: nat | k < full ensures rows(k) == Sum(n - 1, Across(a, k)) {
      SumScale(n - 1, At(p, k), AfterTerms(p, n, free, k), Across(a, k));
    }
    forall t: nat | t < n - 1 ensures cols(t) == Sum(full, Down(a, t)) {
      var x := n - 1 - t + free - 1;
      ExactlyStep(p, t, x, full);
      SumCong(full, Down(a, t), StepTerms(p, t, x + 1));
    }
    SumSwap(full, n - 1, a, rows, cols);
    SumSplit(1, n - 1, s, cols);
    SumStep(0, s);
    NoWindowNoEviction(p, n + free - 1);
  }

  // ----- one free place

  /** The survival weight of an entry that needs n refreshes, behind one free place. */
  function Head(p: seq<real>, n: nat): real {
    Saved(p, n, 1)
  }

  function HeadTerms(p: seq<real>, n: nat): nat -> real {
    (t: nat) => Exactly(p, t, n - t)
  }

  lemma HeadSpread(p: seq<real>, n: nat)
    ensures Head(p, n) == Sum(n + 1, HeadTerms(p, n))
  {
    hide Saved, AtMost, Sum;
    SavedSpread(p, n, 1);
    SumCong(n, SpreadTerms(p, n, 1), HeadTerms(p, n));
    SumStep(n, HeadTerms(p, n));
    ExactlyNone(p, n);
  }

  /** The weight of making the first eviction in window n. */
  function FirstEviction(p: seq<real>, n: nat): real
    requires 0 < n
  {
    AtMost(p, n - 1, 0) - AtMost(p, n, 0)
  }

  function RenewTerms(p: seq<real>, n: nat): nat -> real {
    (k: nat) => if k <= n then At(p, k) * Head(p, n - k) else 0.0
  }

  function HeadBoth(p: seq<real>, n: nat): (nat, nat) -> real {
    (k: nat, t: nat) => At(p, k) * Exactly(p, t, n - k - t)
  }

  lemma HeadRow(p: seq<real>, n: nat, k: nat)
    requires 0 < n && k <= n
    ensures Sum(n, Across(HeadBoth(p, n), k))
         == RenewTerms(p, n)(k) - if k == 0 then At(p, 0) * AtMost(p, n, 0) else 0.0
  {
    hide Head, AtMost, Sum;
    var f := HeadTerms(p, n - k);
    HeadSpread(p, n - k);
    SumScale(n, At(p, k), f, Across(HeadBoth(p, n), k));
    if k == 0 {
      SumStep(n, f);
      DistributeMinus(At(p, 0), Sum(n + 1, f), Exactly(p, n, 0));
    } else {
      forall t: nat | n - k + 1 <= t < n ensures f(t) == 0.0 { ExactlyNone(p, t); }
      SumExtend(n - k + 1, n, f);
    }
  }

  lemma HeadColumn(p: seq<real>, n: nat, t: nat)
    requires t < n
    ensures Exactly(p, t + 1, n - 1 - t)
         == Sum(n + 1, Down(HeadBoth(p, n), t)) + if t == n - 1 then At(p, 0) * AtMost(p, n - 1, 0) else 0.0
  {
    hide AtMost, Sum;
    SumCong(n + 1, Down(HeadBoth(p, n), t), StepTerms(p, t, n - t));
    if t == n - 1 { ExactlyZero(p, t, n + 1); } else { ExactlyStep(p, t, n - 1 - t, n + 1); }
  }

  function OnlyAt(i: nat, x: real): nat -> real {
    (k: nat) => if k == i then x else 0.0
  }

  function Columns(p: seq<real>, n: nat): nat -> real {
    (t: nat) => Sum(n + 1, Down(HeadBoth(p, n), t))
  }

  function Rows(p: seq<real>, n: nat): nat -> real {
    (k: nat) => Sum(n, Across(HeadBoth(p, n), k))
  }

  lemma HeadColumns(p: seq<real>, n: nat)
    requires 0 < n
    ensures Head(p, n) == Sum(n, Columns(p, n)) + At(p, 0) * AtMost(p, n - 1, 0)
  {
    hide Head, AtMost, Sum, Exactly;
    var s, last := HeadTerms(p, n), OnlyAt(n - 1, At(p, 0) * AtMost(p, n - 1, 0));
    var later := (t: nat) => s(1 + t);
    HeadSpread(p, n);
    SumSplit(1, n, s, later);
    SumStep(0, s);
    NoWindowNoEviction(p, n);
    forall t: nat | t < n ensures later(t) == Columns(p, n)(t) + last(t) { HeadColumn(p, n, t); }
    SumAdd(n, Columns(p, n), last, later);
    SumSingle(n, n - 1, last);
  }

  lemma HeadRows(p: seq<real>, n: nat)
    requires 0 < n
    ensures Sum(n + 1, RenewTerms(p, n)) == Sum(n + 1, Rows(p, n)) + At(p, 0) * AtMost(p, n, 0)
  {
    hide Head, AtMost, Sum, Exactly;
    var first := OnlyAt(0, At(p, 0) * AtMost(p, n, 0));
    forall k: nat | k < n + 1 ensures RenewTerms(p, n)(k) == Rows(p, n)(k) + first(k) { HeadRow(p, n, k); }
    SumAdd(n + 1, Rows(p, n), first, RenewTerms(p, n));
    SumSingle(n + 1, 0, first);
  }

  /** A window of k insertions takes k refreshes off what the entry needs, up to the windows that do not
      insert at all. */
  lemma HeadRenewal(p: seq<real>, n: nat)
    requires 0 < n
    ensures Head(p, n) == Sum(n + 1, RenewTerms(p, n)) + At(p, 0) * FirstEviction(p, n)
  {
    hide Head, AtMost, Sum, HeadBoth;
    HeadColumns(p, n);
    HeadRows(p, n);
    SumSwap(n + 1, n, HeadBoth(p, n), Rows(p, n), Columns(p, n));
    DistributeMinus(At(p, 0), AtMost(p, n - 1, 0), AtMost(p, n, 0));
  }

  lemma NoWindowNoEviction(p: seq<real>, x: nat)
    requires 0 < x
    ensures Exactly(p, 0, x) == 0.0
  {}

  // ----- the gain of standing further back

  /** How much more often an entry is saved when it needs one refresh more. */
  function Gain(p: seq<real>, n: nat): real {
    if n == 0 then 1.0 else Head(p, n) - Head(p, n - 1)
  }

  function GainTerms(p: seq<real>, n: nat): nat -> real {
    (k: nat) => if k <= n then Tail(p, k + 1) * Gain(p, n - k) else 0.0
  }

  function HeadTail(p: seq<real>, n: nat): nat -> real {
    (k: nat) => if k <= n then Tail(p, k + 1) * Head(p, n - k) else 0.0
  }

  function TailHead(p: seq<real>, n: nat): nat -> real {
    (k: nat) => if k <= n then Tail(p, k) * Head(p, n - k) else 0.0
  }

  lemma TailStep(p: seq<real>, k: nat)
    requires Distribution(p)
    ensures Tail(p, k) == At(p, k) + Tail(p, k + 1)
    ensures Tail(p, 0) == 1.0
  {
    BalanceIsTail(p, k);
    BalanceIsTail(p, k + 1);
    BalanceIsTail(p, 0);
  }

  lemma GainTermParts(p: seq<real>, n: nat, k: nat)
    requires 0 < n
    ensures k < n ==> GainTerms(p, n)(k) == HeadTail(p, n)(k) - TailHead(p, n)(k + 1)
    ensures k == n ==> GainTerms(p, n)(k) == HeadTail(p, n)(k)
  {
    hide Tail;
    if k < n { DistributeMinus(Tail(p, k + 1), Head(p, n - k), Head(p, n - k - 1)); }
  }

  /** The gains, weighted with the tails of the count, add up to the weight of a late first eviction. */
  lemma GainRenewal(p: seq<real>, n: nat)
    requires Distribution(p) && 0 < n
    ensures Sum(n + 1, GainTerms(p, n)) == At(p, 0) * FirstEviction(p, n)
  {
    hide Head, Sum, Tail, Distribution, Gain, FirstEviction;
    var g, u, v := GainTerms(p, n), HeadTail(p, n), TailHead(p, n);
    var shifted := (k: nat) => v(1 + k);
    forall k: nat | k < n ensures u(k) == g(k) + shifted(k) { GainTermParts(p, n, k); }
    SumAdd(n, g, shifted, u);
    GainTermParts(p, n, n);
    SumStep(n, g);
    SumStep(n, u);
    SumSplit(1, n, v, shifted);
    SumStep(0, v);
    forall k: nat | k < n + 1 ensures v(k) == RenewTerms(p, n)(k) + u(k) {
      TailStep(p, k);
      DistributeSum(At(p, k), Tail(p, k + 1), Head(p, n - k));
    }
    SumAdd(n + 1, RenewTerms(p, n), u, v);
    TailStep(p, 0);
    HeadRenewal(p, n);
  }

  lemma DistributeSum(x: real, y: real, z: real)
    ensures (x + y) * z == x * z + y * z
  {}
}
