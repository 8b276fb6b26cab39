/** From windows down to single activations.

    Averaging over strings of activations, each of which inserts with probability q, is averaging over
    lists of binomial insert counts.  This is the loss of an entry that sees whole windows, and the
    closed form for a single entry. */
module ActivationLoss {
  import opened RealSums
  import opened Expectation
  import opened Fifo
  import opened Binomial
  import opened LossModel

  /** The insert counts of consecutive windows of w activations. */
  function PerWindow(w: nat, bits: seq<nat>): seq<nat> {
    if w == 0 || |bits| < w then [] else [Ones(bits[..w])] + PerWindow(w, bits[w..])
  }

  /** The tracker events of a string of activations, without refreshes. */
  function Activations(bits: seq<nat>): seq<Event<bool>> {
    if bits == [] then []
    else (if bits[0] == 0 then [] else [Insert(false)]) + Activations(bits[1..])
  }

  /** Windows of w activations, each closed by a refresh. */
  function ActivationWindows(w: nat, bits: seq<nat>): seq<Event<bool>> {
    if w == 0 || |bits| < w then []
    else Activations(bits[..w]) + [Refresh] + ActivationWindows(w, bits[w..])
  }

  lemma {:induction false} ActivationsAreOthers(bits: seq<nat>)
    ensures Activations(bits) == Others(Ones(bits))
  {
    if bits != [] {
      ActivationsAreOthers(bits[1..]);
    }
  }

  lemma {:induction false} WindowsOfActivations(w: nat, bits: seq<nat>)
    ensures ActivationWindows(w, bits) == Windows(PerWindow(w, bits))
    decreases |bits|
  {
    if w != 0 && w <= |bits| {
      ActivationsAreOthers(bits[..w]);
      WindowsOfActivations(w, bits[w..]);
      var ks := PerWindow(w, bits);
      assert ks[0] == Ones(bits[..w]) && ks[1..] == PerWindow(w, bits[w..]);
    }
  }

  // ----- averaging

  function OfWindows(w: nat, f: seq<nat> -> real): seq<nat> -> real {
    (bits: seq<nat>) => f(PerWindow(w, bits))
  }

  function FromFirst(q: real, w: nat, m: nat, f: seq<nat> -> real): nat -> real {
    (k: nat) => Expect(CountDist(q, w), m, Prefix(f, k))
  }

  lemma {:induction false} ExpectOfWindows(q: real, w: nat, m: nat, f: seq<nat> -> real)
    requires 0 < w
    ensures Expect(Bernoulli(q), w * m, OfWindows(w, f)) == Expect(CountDist(q, w), m, f)
    decreases m
  {
    if m == 0 {
      assert PerWindow(w, []) == [];
      assert w * 0 == 0;
    } else {
      var p, F, g := Bernoulli(q), OfWindows(w, f), FromFirst(q, w, m - 1, f);
      assert w * m == w + w * (m - 1);
      ExpectAppend(p, w, w * (m - 1), F);
      forall xs | Draws(p, w, xs) ensures Rest(p, w * (m - 1), F)(xs) == OfCount(g)(xs) {
        AfterFirstWindow(q, w, m - 1, f, xs);
        ExpectOfWindows(q, w, m - 1, Prefix(f, Ones(xs)));
      }
      ExpectCong(p, w, Rest(p, w * (m - 1), F), OfCount(g));
      ExpectOfCount(q, w, g);
      SumCountDist(q, w, m - 1, f);
    }
  }

  lemma AfterFirstWindow(q: real, w: nat, m: nat, f: seq<nat> -> real, xs: seq<nat>)
    requires 0 < w == |xs|
    ensures Expect(Bernoulli(q), w * m, Continue(OfWindows(w, f), xs))
         == Expect(Bernoulli(q), w * m, OfWindows(w, Prefix(f, Ones(xs))))
  {
    forall ys: seq<nat>
      ensures Continue(OfWindows(w, f), xs)(ys) == OfWindows(w, Prefix(f, Ones(xs)))(ys)
    {
      assert (xs + ys)[..w] == xs && (xs + ys)[w..] == ys;
      assert PerWindow(w, xs + ys) == [Ones(xs)] + PerWindow(w, ys);
    }
    ExpectCong(Bernoulli(q), w * m, Continue(OfWindows(w, f), xs), OfWindows(w, Prefix(f, Ones(xs))));
  }

  lemma SumCountDist(q: real, w: nat, m: nat, f: seq<nat> -> real)
    ensures Sum(w + 1, CountTerms(q, w, FromFirst(q, w, m, f))) == Expect(CountDist(q, w), m + 1, f)
  {
    var F := FirstDraw(CountDist(q, w), m, f);
    SumCong(w + 1, CountTerms(q, w, FromFirst(q, w, m, f)), F);
  }

  // ----- the loss of an entry that sees whole windows

  predicate ActivationsLose(cap: nat, size: nat, ptr: nat, w: nat, bits: seq<nat>)
    requires 0 < cap
  {
    true in Run(cap, Tagged(size, ptr), ActivationWindows(w, bits)).evicted
  }

  function ActivationIndicator(cap: nat, size: nat, ptr: nat, w: nat): seq<nat> -> real
    requires 0 < cap
  {
    (bits: seq<nat>) => if ActivationsLose(cap, size, ptr, w, bits) then 1.0 else 0.0
  }

  /** The weight of the strings of m windows of w activations that evict the tagged entry. */
  function ActivationLossWeight(q: real, cap: nat, size: nat, ptr: nat, w: nat, m: nat): real
    requires 0 < cap
  {
    Expect(Bernoulli(q), w * m, ActivationIndicator(cap, size, ptr, w))
  }

  lemma ActivationLossIsWindowLoss(q: real, cap: nat, size: nat, ptr: nat, w: nat, m: nat)
    requires 0 < cap && 0 < w
    ensures ActivationLossWeight(q, cap, size, ptr, w, m) == LossWeight(CountDist(q, w), cap, size, ptr, m)
  {
    var f := LossIndicator(cap, size, ptr);
    forall bits: seq<nat> ensures ActivationIndicator(cap, size, ptr, w)(bits) == OfWindows(w, f)(bits) {
      WindowsOfActivations(w, bits);
    }
    ExpectCong(Bernoulli(q), w * m, ActivationIndicator(cap, size, ptr, w), OfWindows(w, f));
    ExpectOfWindows(q, w, m, f);
  }

  /** With the program's own tables, calc_lossprob is the weight of losing an entry that sees whole
      windows only, exactly when it stays off the unfilled table cell (or no window can hold that many
      insertions).  What an entry of the simulation loop sees is the subject of SimulatedLoss. */
  lemma RecursionIsWholeWindowLoss(q: real, w: nat, probN: seq<real>, cprobN: seq<real>, cap: nat, ptr: nat, size: nat, m: nat)
    requires 0.0 <= q <= 1.0 && 0 < w && Tables(CountDist(q, w), probN, cprobN)
    requires ptr < size <= cap && FullThreshold(cap, ptr, size) + 1 <= MAX_SIZE
    requires ptr < m
    ensures LossRec(probN, cprobN, cap, ptr, size) == ActivationLossWeight(q, cap, size, ptr, w, m)
            <==> FullThreshold(cap, ptr, size) + 1 < MAX_SIZE || Tail(CountDist(q, w), MAX_SIZE) == 0.0
  {
    CountDistIsDistribution(q, w);
    ActivationLossIsWindowLoss(q, cap, size, ptr, w, m);
    LossRecExact(CountDist(q, w), probN, cprobN, cap, ptr, size, m);
  }

  // ----- the one-entry closed form

  /** L_K of the figure script; at K = 1 the loss_single_entry of the table. */
  function SingleEntryLoss(k: nat, w: nat): real
    requires 1 <= k <= w
  {
    1.0 - Pow(1.0 - 1.0 / w as real, w - k)
  }

  /** Does the rest of the window evict the only entry before the refresh that closes it? */
  function SingleEntryIndicator(): seq<nat> -> real {
    (bits: seq<nat>) => if true in Run(1, Tagged(1, 0), Activations(bits) + [Refresh]).evicted then 1.0 else 0.0
  }

  lemma SingleEntryEvicted(bits: seq<nat>)
    ensures true in Run(1, Tagged(1, 0), Activations(bits) + [Refresh]).evicted <==> Ones(bits) != 0
  {
    ActivationsAreOthers(bits);
    assert [Ones(bits)] + [] == [Ones(bits)];
    assert Windows([Ones(bits)]) == Others(Ones(bits)) + [Refresh];
    FirstWindow(1, 1, 0, Ones(bits), []);
  }

  /** An entry inserted by the K-th of W activations into a one-entry tracker is evicted before the
      next refresh with weight exactly 1 - (1 - 1/W)^(W - K). */
  lemma SingleEntryLossExact(k: nat, w: nat)
    requires 1 <= k <= w
    ensures Expect(Bernoulli(1.0 / w as real), w - k, SingleEntryIndicator()) == SingleEntryLoss(k, w)
  {
    var q, n := 1.0 / w as real, w - k;
    var one := (bits: seq<nat>) => 1.0;
    forall bits: seq<nat> ensures one(bits) == SingleEntryIndicator()(bits) + CountIs(0)(bits) {
      SingleEntryEvicted(bits);
    }
    assert 0.0 <= q <= 1.0;
    BernoulliIsDistribution(q);
    ExpectConst(Bernoulli(q), n, 1.0, one);
    ExpectAdd(Bernoulli(q), n, SingleEntryIndicator(), CountIs(0), one);
    NoInsertion(q, n);
  }

  lemma {:induction false} NoInsertion(q: real, n: nat)
    ensures CountWeight(q, n, 0) == Pow(1.0 - q, n)
  {
    if n == 0 {
      assert Ones([]) == 0;
    } else {
      Pascal(q, n - 1, 0);
      NoInsertion(q, n - 1);
      CountOutside(q, n - 1, -1);
    }
  }

  /** For one entry the recursion grants a whole window after the insertion, the closed form only the
      activations behind the first: they differ by the weight of evicting exactly then. */
  lemma RecursionAtCapacityOne(w: nat, probN: seq<real>, cprobN: seq<real>)
    requires 0 < w && Tables(CountDist(1.0 / w as real, w), probN, cprobN)
    ensures var q := 1.0 / w as real;
            && LossRec(probN, cprobN, 1, 0, 1) == 1.0 - Pow(1.0 - q, w)
            && LossRec(probN, cprobN, 1, 0, 1) == SingleEntryLoss(1, w) + q * Pow(1.0 - q, w - 1)
  {
    hide *;
    var q := 1.0 / w as real;
    assert 0.0 <= q <= 1.0;
    HeadCell(CountDist(q, w), probN, cprobN);
    AtLeastOne(q, w);
    PowStep(1.0 - q, w);
    SingleEntryUnfold(w);
    Factor(q, Pow(1.0 - q, w - 1));
  }

  lemma HeadCell(p: seq<real>, probN: seq<real>, cprobN: seq<real>)
    requires Tables(p, probN, cprobN)
    ensures |cprobN| == |probN| == MAX_SIZE + 1 && FullThreshold(1, 0, 1) + 1 < MAX_SIZE + 1
    ensures LossRec(probN, cprobN, 1, 0, 1) == Tail(p, 1)
  {
    hide Tail;
  }

  lemma AtLeastOne(q: real, n: nat)
    requires 0.0 <= q <= 1.0
    ensures Tail(CountDist(q, n), 1) == 1.0 - Pow(1.0 - q, n)
  {
    hide Tail, Sum, CountWeight;
    var p := CountDist(q, n);
    CountDistIsDistribution(q, n);
    BalanceIsTail(p, 1);
    SumStep(0, Weights(p));
    NoInsertion(q, n);
  }

  lemma SingleEntryUnfold(w: nat)
    requires 0 < w
    ensures SingleEntryLoss(1, w) == 1.0 - Pow(1.0 - 1.0 / w as real, w - 1)
  {}

  lemma Factor(q: real, x: real)
    ensures 1.0 - (1.0 - q) * x == 1.0 - x + q * x
  {}
}
