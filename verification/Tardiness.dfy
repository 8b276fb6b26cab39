/** How long an entry can wait: entries are labelled with the activation that inserted them, and the
    reliability model's tardiness is proved to be the exact worst wait over all runs. */
module Tardiness {
  import opened Fifo
  import opened MonteCarlo
  import opened Reliability

  /** The number of refreshes before activation n. */
  function Refreshes(w: nat, n: nat): nat
    requires 0 < w
  {
    (n + w - 1) / w
  }

  lemma RefreshesStep(w: nat, n: nat)
    requires 0 < w
    ensures Refreshes(w, n + 1) == n / w + 1
    ensures Refreshes(w, n + 1) == Refreshes(w, n) + if n % w == 0 then 1 else 0
  {
    var q, r := n / w, n % w;
    assert n == q * w + r;
    DivUnique(n + w, w, q + 1, r);
    if r == 0 { DivUnique(n + w - 1, w, q, w - 1); } else { DivUnique(n + w - 1, w, q + 1, r - 1); }
  }

  /** Every queued entry has been pushed towards the head by all refreshes since its insertion. */
  ghost predicate OnTime(cap: nat, w: nat, q: seq<nat>, n: nat, refreshes: nat)
    requires 0 < w
  {
    && |q| <= cap
    && (forall i :: 0 <= i < |q| ==> q[i] < n)
    && (forall i :: 0 <= i < |q| ==> i + refreshes <= q[i] / w + cap)
  }

  lemma ActOnTime(cap: nat, w: nat, s: State<nat>, n: nat, insert: bool)
    requires 0 < cap && 0 < w && OnTime(cap, w, s.queue, n, Refreshes(w, n))
    ensures var s1 := if n % w == 0 then Step(cap, s, Refresh) else s;
            OnTime(cap, w, s1.queue, n, Refreshes(w, n + 1))
    ensures OnTime(cap, w, Act(cap, w, s, n, insert, n).queue, n + 1, Refreshes(w, n + 1))
  {
    RefreshesStep(w, n);
    hide Refreshes;
    var s1 := if n % w == 0 then Step(cap, s, Refresh) else s;
    assert OnTime(cap, w, s1.queue, n, Refreshes(w, n + 1));
    var s2 := Act(cap, w, s, n, insert, n);
    if insert {
      forall i | 0 <= i < |s2.queue| ensures i + Refreshes(w, n + 1) <= s2.queue[i] / w + cap {
        if i == |s2.queue| - 1 { assert s2.queue[i] == n; }
      }
    }
  }

  lemma {:induction false} RunOnTime(cap: nat, w: nat, d: seq<bool>, n: nat)
    requires 0 < cap && 0 < w && n <= |d|
    ensures OnTime(cap, w, After(cap, w, d[..n], Time()).queue, n, Refreshes(w, n))
    decreases n
  {
    if n == 0 {
      assert d[..0] == [];
      AfterNothing(cap, w, Time());
    } else {
      RunOnTime(cap, w, d, n - 1);
      AfterStep(cap, w, d, n - 1, Time());
      ActOnTime(cap, w, After(cap, w, d[..n - 1], Time()), n - 1, d[n - 1]);
    }
  }

  /** The queue that activation n meets: after its window's refresh, before its own insertion. */
  function Met(cap: nat, w: nat, d: seq<bool>, n: nat): seq<nat>
    requires 0 < cap && 0 < w && n <= |d|
  {
    var s := After(cap, w, d[..n], Time());
    (if n % w == 0 then Step(cap, s, Refresh) else s).queue
  }

  /** In every run, an activation that still meets the entry inserted at t comes no later than the
      tardiness bound after t, less the position of t in its window. */
  lemma TardyBound(cap: nat, w: nat, d: seq<bool>, n: nat, t: nat)
    requires 0 < cap && 0 < w && n <= |d| && cap * w <= 0x1_0000_0000
    requires t in Met(cap, w, d, n)
    ensures t < n
    ensures n - t <= GetTardy(false, cap, w) - t % w
  {
    RunOnTime(cap, w, d, n);
    ActOnTime(cap, w, After(cap, w, d[..n], Time()), n, false);
    RefreshesStep(w, n);
    WaitArithmetic(cap, w, n, t);
    TardyNoWrap(cap, w);
  }

  lemma WaitArithmetic(cap: nat, w: nat, n: nat, t: nat)
    requires 0 < cap && 0 < w && n / w + 1 <= t / w + cap
    ensures n - t <= cap * w - 1 - t % w
    ensures 0 < cap * w
  {
    var a, b := n / w, t / w;
    assert n == a * w + n % w && t == b * w + t % w;
    assert a * w <= (b + cap - 1) * w by { MulMonotone(a, b + cap - 1, w); }
    assert (b + cap - 1) * w == b * w + cap * w - w;
    MulMonotone(1, cap, w);
  }

  lemma MulMonotone(a: int, b: int, w: nat)
    requires a <= b
    ensures a * w <= b * w
  {
    assert 0 <= (b - a) * w;
  }

  // ----- the bound is attained

  /** Every activation of the first n inserts. */
  function Flood(n: nat): seq<bool> {
    seq(n, _ => true)
  }

  function Quiet(n: nat): seq<bool> {
    seq(n, _ => false)
  }

  lemma {:induction false} FloodFills(cap: nat, w: nat, n: nat)
    requires 0 < cap && 0 < w && 0 < n
    ensures var k := |After(cap, w, Flood(n), Time()).queue|;
            k <= cap && (k == cap || n + 1 <= k + Refreshes(w, n))
    decreases n
  {
    var d := Flood(n);
    assert d[..n - 1] == Flood(n - 1) && d[..n] == d;
    AfterStep(cap, w, d, n - 1, Time());
    RefreshesStep(w, n - 1);
    if n == 1 {
      assert d[..0] == [];
      AfterNothing(cap, w, Time());
    } else {
      FloodFills(cap, w, n - 1);
    }
  }

  lemma FloodFull(cap: nat, w: nat, r: nat)
    requires 0 < cap && r < w && (2 <= w || cap == 1)
    ensures |After(cap, w, Flood(cap * w + r), Time()).queue| == cap
  {
    hide After, Refreshes;
    MulMonotone(1, cap, w);
    FloodFills(cap, w, cap * w + r);
    FloodRefreshes(cap, w, r);
    if 2 <= w {
      assert 2 * cap <= cap * w by { MulMonotone(2, w, cap); }
    }
  }

  lemma FloodRefreshes(cap: nat, w: nat, r: nat)
    requires r < w
    ensures Refreshes(w, cap * w + r) == cap + if r == 0 then 0 else 1
  {
    assert (cap + 1) * w == cap * w + w;
    if r == 0 {
      DivUnique(cap * w + w - 1, w, cap, w - 1);
    } else {
      DivUnique(cap * w + r + w - 1, w, cap + 1, r - 1);
    }
  }

  /** Without further insertions the newest entry, inserted r activations into a window, waits for all
      entries before it. */
  lemma {:induction false} QuietWait(cap: nat, w: nat, d: seq<bool>, r: nat, k: nat)
    requires 0 < cap && r < w && r + k < cap * w
    requires var t := cap * w + r;
             && t < |d| && d[t] && t + k < |d|
             && (forall i :: t < i <= t + k ==> !d[i])
             && |After(cap, w, d[..t], Time()).queue| == cap
    ensures var q := After(cap, w, d[..cap * w + r + 1 + k], Time()).queue;
            |q| == cap - (r + k) / w && q != [] && q[|q| - 1] == cap * w + r
    decreases k
  {
    hide After;
    var t := cap * w + r;
    AfterStep(cap, w, d, t + k, Time());
    SameResidue(cap, w, r + k);
    QuietRoom(cap, w, r + k);
    if k == 0 {
      DivUnique(r, w, 0, r);
    } else {
      QuietWait(cap, w, d, r, k - 1);
      assert !d[t + k];
      RefreshesStep(w, r + k);
      RefreshesStep(w, r + k - 1);
    }
  }

  lemma SameResidue(cap: nat, w: nat, k: nat)
    requires 0 < w
    ensures (cap * w + k) % w == k % w
  {
    assert k == k / w * w + k % w;
    assert (cap + k / w) * w == cap * w + k / w * w;
    DivUnique(cap * w + k, w, cap + k / w, k % w);
  }

  lemma QuietRoom(cap: nat, w: nat, k: nat)
    requires 0 < w && k < cap * w
    ensures k / w < cap
  {
    assert k == k / w * w + k % w;
    if cap <= k / w { MulMonotone(cap, k / w, w); }
  }

  /** Is the entry inserted at t still queued when `wait` further activations have passed? */
  ghost predicate WaitsOut(cap: nat, w: nat, d: seq<bool>, t: nat, wait: nat)
    requires 0 < cap && 0 < w
  {
    && |d| == t + 1 + wait
    && t in After(cap, w, d, Time()).queue
  }

  /** What TardyBound leaves an entry that is inserted r activations into its window. */
  function LongestWait(cap: nat, w: nat, r: nat): nat
    requires 0 < cap && r < w && cap * w <= 0x1_0000_0000
  {
    TardyNoWrap(cap, w);
    MulMonotone(1, cap, w);
    GetTardy(false, cap, w) - r
  }

  lemma BoundAttained(cap: nat, w: nat, r: nat) returns (d: seq<bool>, t: nat)
    requires 0 < cap && r < w && (2 <= w || cap == 1) && cap * w <= 0x1_0000_0000
    ensures t % w == r && WaitsOut(cap, w, d, t, LongestWait(cap, w, r))
  {
    hide After;
    MulMonotone(1, cap, w);
    TardyNoWrap(cap, w);
    var k := cap * w - 1 - r;
    t := cap * w + r;
    DivUnique(t, w, cap, r);
    d := Flood(t) + [true] + Quiet(k);
    assert d[..t] == Flood(t);
    FloodFull(cap, w, r);
    QuietWait(cap, w, d, r, k);
    assert d[..t + 1 + k] == d;
  }

  /** With one activation per window a refresh precedes every insertion, so nothing waits. */
  lemma {:induction false} OneActivationWindows(cap: nat, d: seq<bool>, n: nat)
    requires 0 < cap && n <= |d|
    ensures var q := After(cap, 1, d[..n], Time()).queue; q == [] || (n > 0 && q == [n - 1])
    decreases n
  {
    if n == 0 {
      assert d[..0] == [];
      AfterNothing(cap, 1, Time());
    } else {
      OneActivationWindows(cap, d, n - 1);
      AfterStep(cap, 1, d, n - 1, Time());
    }
  }

  /** At every position of a window, some run makes an entry wait for as long as the bound allows, if and
      only if a window has at least two activations or the tracker a single entry. */
  lemma TardyIsExact(cap: nat, w: nat, r: nat)
    requires 0 < cap && r < w && cap * w <= 0x1_0000_0000
    ensures (exists d: seq<bool>, t: nat :: t % w == r && WaitsOut(cap, w, d, t, LongestWait(cap, w, r)))
            <==> 2 <= w || cap == 1
  {
    MulMonotone(1, cap, w);
    TardyNoWrap(cap, w);
    if 2 <= w || cap == 1 {
      var d, t := BoundAttained(cap, w, r);
    } else {
      forall d: seq<bool>, t: nat ensures !WaitsOut(cap, w, d, t, LongestWait(cap, w, r)) {
        if |d| == t + cap {
          OneActivationWindows(cap, d, |d|);
          assert d[..|d|] == d;
        }
      }
    }
  }
}
