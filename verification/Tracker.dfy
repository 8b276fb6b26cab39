/** The tracker.

    A ring buffer with per-position statistics, proved to be the drop-oldest queue with counters that
    account for every entry: it was lost, it was refreshed, or it is still queued.  The reported ratio
    is that of the worst position. */
module Tracker {
  import opened Fifo

  const MAX_POS: nat := 1024
  const MAX_UNS: nat := 0xffff_ffff

  datatype Entry = Entry(pos: nat, addr: nat)

  /** How many entries were inserted at position p. */
  function CountPos(s: seq<Entry>, p: nat): nat {
    if s == [] then 0 else (if s[0].pos == p then 1 else 0) + CountPos(s[1..], p)
  }

  lemma {:induction false} CountPosAppend(a: seq<Entry>, b: seq<Entry>, p: nat)
    ensures CountPos(a + b, p) == CountPos(a, p) + CountPos(b, p)
  {
    if a == [] {
      assert a + b == b;
    } else {
      assert (a + b)[1..] == a[1..] + b;
      CountPosAppend(a[1..], b, p);
    }
  }

  lemma CountPosOne(e: Entry, p: nat)
    ensures CountPos([e], p) == if e.pos == p then 1 else 0
  {
    assert [e][1..] == [];
  }

  lemma CountPosHead(s: seq<Entry>, p: nat)
    requires s != []
    ensures CountPos(s, p) == CountPos([s[0]], p) + CountPos(s[1..], p)
  {
    CountPosOne(s[0], p);
  }

  predicate PosBelow(s: seq<Entry>, n: nat) {
    forall i :: 0 <= i < |s| ==> s[i].pos < n
  }

  datatype Stats = Stats(inserts: nat, losses: nat, insertsPos: seq<nat>, lossPos: seq<nat>)

  /** The statistics account for every entry of a history: an insertion at p was lost, refreshed or
      is still queued, and the totals count all positions. */
  ghost predicate Accounts(h: State<Entry>, st: Stats) {
    && |st.insertsPos| == |st.lossPos| == MAX_POS
    && st.losses == |h.evicted|
    && st.inserts == |h.evicted| + |h.refreshed| + |h.queue|
    && PosBelow(h.evicted, MAX_POS) && PosBelow(h.refreshed, MAX_POS) && PosBelow(h.queue, MAX_POS)
    && (forall p :: 0 <= p < MAX_POS ==> st.lossPos[p] == CountPos(h.evicted, p))
    && (forall p :: 0 <= p < MAX_POS ==>
          st.insertsPos[p] == st.lossPos[p] + CountPos(h.refreshed, p) + CountPos(h.queue, p))
  }

  /** What tracker_insert does to the statistics. */
  function InsertStats(cap: nat, h: State<Entry>, st: Stats, e: Entry): Stats
    requires 0 < cap && |st.insertsPos| == |st.lossPos| == MAX_POS
    requires e.pos < MAX_POS && PosBelow(h.queue, MAX_POS)
  {
    var st1 := if |h.queue| == cap
               then st.(losses := st.losses + 1,
                        lossPos := st.lossPos[h.queue[0].pos := st.lossPos[h.queue[0].pos] + 1])
               else st;
    st1.(inserts := st.inserts + 1, insertsPos := st.insertsPos[e.pos := st.insertsPos[e.pos] + 1])
  }

  lemma InsertAccounts(cap: nat, h: State<Entry>, st: Stats, e: Entry)
    requires 0 < cap && Accounts(h, st) && e.pos < MAX_POS
    ensures Accounts(Step(cap, h, Event.Insert(e)), InsertStats(cap, h, st, e))
  {
    var h', st' := Step(cap, h, Event.Insert(e)), InsertStats(cap, h, st, e);
    forall p | 0 <= p < MAX_POS
      ensures st'.lossPos[p] == CountPos(h'.evicted, p)
      ensures st'.insertsPos[p] == st'.lossPos[p] + CountPos(h'.refreshed, p) + CountPos(h'.queue, p)
    {
      CountPosOne(e, p);
      CountPosAppend(h.queue, [e], p);
      if |h.queue| == cap {
        CountPosOne(h.queue[0], p);
        CountPosHead(h.queue, p);
        CountPosAppend(h.queue[1..], [e], p);
        CountPosAppend(h.evicted, [h.queue[0]], p);
      }
    }
  }

  lemma RefreshAccounts(cap: nat, h: State<Entry>, st: Stats)
    requires 0 < cap && Accounts(h, st)
    ensures Accounts(Step(cap, h, Event.Refresh), st)
  {
    var h' := Step(cap, h, Event.Refresh);
    if h.queue != [] {
      forall p | 0 <= p < MAX_POS
        ensures st.insertsPos[p] == st.lossPos[p] + CountPos(h'.refreshed, p) + CountPos(h'.queue, p)
      {
        CountPosHead(h.queue, p);
        CountPosAppend(h.refreshed, [h.queue[0]], p);
      }
    }
  }

  // ----- totals as sums over positions

  function SumTo(a: seq<nat>, n: nat): nat
    requires n <= |a|
  {
    if n == 0 then 0 else SumTo(a, n - 1) + a[n - 1]
  }

  function Counts(s: seq<Entry>, n: nat): seq<nat> {
    seq(n, (p: nat) => CountPos(s, p))
  }

  lemma {:induction false} SumCounts(s: seq<Entry>, n: nat, k: nat)
    requires k <= n && PosBelow(s, k)
    ensures SumTo(Counts(s, n), k) == |s|
    decreases |s|
  {
    if s == [] {
      SumZeros(Counts(s, n), k);
    } else {
      SumCounts(s[1..], n, k);
      SumBump(Counts(s[1..], n), Counts(s, n), s[0].pos, k);
    }
  }

  lemma {:induction false} SumZeros(a: seq<nat>, n: nat)
    requires n <= |a| && forall i :: 0 <= i < n ==> a[i] == 0
    ensures SumTo(a, n) == 0
  {
    if n != 0 { SumZeros(a, n - 1); }
  }

  lemma {:induction false} SumBump(a: seq<nat>, b: seq<nat>, i: nat, n: nat)
    requires n <= |a| == |b|
    requires forall k :: 0 <= k < n ==> b[k] == a[k] + if k == i then 1 else 0
    ensures SumTo(b, n) == SumTo(a, n) + if i < n then 1 else 0
  {
    if n != 0 { SumBump(a, b, i, n - 1); }
  }

  lemma {:induction false} SumPointwise(a: seq<nat>, b: seq<nat>, c: seq<nat>, d: seq<nat>, n: nat)
    requires n <= |a| == |b| == |c| == |d|
    requires forall k :: 0 <= k < n ==> a[k] == b[k] + c[k] + d[k]
    ensures SumTo(a, n) == SumTo(b, n) + SumTo(c, n) + SumTo(d, n)
  {
    if n != 0 { SumPointwise(a, b, c, d, n - 1); }
  }

  lemma {:induction false} SumSame(a: seq<nat>, b: seq<nat>, n: nat)
    requires n <= |a| && n <= |b|
    requires forall k :: 0 <= k < n ==> a[k] == b[k]
    ensures SumTo(a, n) == SumTo(b, n)
  {
    if n != 0 { SumSame(a, b, n - 1); }
  }

  /** The two totals are the sums of the per-position counters. */
  lemma TotalsAreSums(h: State<Entry>, st: Stats, n: nat)
    requires Accounts(h, st) && n <= MAX_POS
    requires PosBelow(h.evicted, n) && PosBelow(h.refreshed, n) && PosBelow(h.queue, n)
    ensures SumTo(st.lossPos, n) == st.losses && SumTo(st.insertsPos, n) == st.inserts
  {
    var ev, rf, qu := Counts(h.evicted, MAX_POS), Counts(h.refreshed, MAX_POS), Counts(h.queue, MAX_POS);
    SumCounts(h.evicted, MAX_POS, n);
    SumCounts(h.refreshed, MAX_POS, n);
    SumCounts(h.queue, MAX_POS, n);
    SumSame(st.lossPos, ev, n);
    SumPointwise(st.insertsPos, ev, rf, qu, n);
  }

  /** If no position loses more than the fraction r of its insertions, neither does the whole. */
  lemma {:induction false} WorstBoundsAverage(loss: seq<nat>, ins: seq<nat>, n: nat, r: real)
    requires n <= |loss| == |ins|
    requires forall p :: 0 <= p < n ==> Within(loss[p], ins[p], r)
    ensures Within(SumTo(loss, n), SumTo(ins, n), r)
  {
    if n != 0 {
      WorstBoundsAverage(loss, ins, n - 1, r);
      AddWithin(SumTo(loss, n - 1), SumTo(ins, n - 1), loss[n - 1], ins[n - 1], r);
    }
  }

  lemma AddWithin(x: nat, y: nat, x': nat, y': nat, r: real)
    requires Within(x, y, r) && Within(x', y', r)
    ensures Within(x + x', y + y', r)
  {
    assert r * (y + y') as real == r * y as real + r * y' as real;
  }

  // ----- the ring

  /** (x mod 2^32) mod n, as the program's unsigned arithmetic computes an index. */
  function Slot(x: nat, n: nat): (r: nat)
    requires 0 < n <= 0x8000_0000 && x < 2 * n
    ensures r == if x < n then x else x - n
  {
    ModOnce(x, 0x1_0000_0000);
    ModOnce(x, n);
    x % 0x1_0000_0000 % n
  }

  lemma ModOnce(x: nat, n: nat)
    requires 0 < n && x < 2 * n
    ensures x % n == if x < n then x else x - n
  {
    if n <= x { assert x == 1 * n + (x - n); }
  }

  /** The k entries from index ptr on, wrapping round. */
  function FromRing(a: seq<Entry>, ptr: nat, k: nat): (q: seq<Entry>)
    requires 0 < |a| <= 0x8000_0000 && ptr < |a| && k <= |a|
    ensures |q| == k
  {
    seq(k, (i: nat) requires i < k => a[Slot(ptr + i, |a|)])
  }

  lemma RingPop(a: seq<Entry>, ptr: nat, k: nat)
    requires 0 < |a| <= 0x8000_0000 && ptr < |a| && 0 < k <= |a|
    ensures FromRing(a, ptr, k)[0] == a[ptr]
    ensures FromRing(a, Slot(ptr + 1, |a|), k - 1) == FromRing(a, ptr, k)[1..]
  {
    hide Slot;
    var n, q, r := |a|, FromRing(a, ptr, k), FromRing(a, Slot(ptr + 1, |a|), k - 1);
    assert q[0] == a[Slot(ptr + 0, n)];
    forall i | 0 <= i < k - 1 ensures r[i] == q[i + 1] {
      assert r[i] == a[Slot(Slot(ptr + 1, n) + i, n)];
      assert q[i + 1] == a[Slot(ptr + (i + 1), n)];
    }
  }

  lemma RingPush(a: seq<Entry>, ptr: nat, k: nat, e: Entry)
    requires 0 < |a| <= 0x8000_0000 && ptr < |a| && k < |a|
    ensures FromRing(a[Slot(ptr + k, |a|) := e], ptr, k + 1) == FromRing(a, ptr, k) + [e]
  {
    hide Slot;
    var b := a[Slot(ptr + k, |a|) := e];
    var q, r := FromRing(a, ptr, k), FromRing(b, ptr, k + 1);
    forall i | 0 <= i <= k ensures r[i] == (q + [e])[i] {
      assert r[i] == b[Slot(ptr + i, |a|)];
      if i < k { assert q[i] == a[Slot(ptr + i, |a|)]; }
    }
  }

  class Tracker {
    const entries: array<Entry>
    var numValids: nat
    var ptr: nat
    var sInserts: nat
    var sLoss: nat
    const sInsertsPos: array<nat>
    const sLossPos: array<nat>
    ghost var history: State<Entry>

    constructor (numEntries: nat)
      requires 0 < numEntries <= 0x8000_0000
      ensures Valid() && fresh(entries) && fresh(sInsertsPos) && fresh(sLossPos)
      ensures entries.Length == numEntries && history == Empty()
      ensures sInsertsPos.Length == sLossPos.Length == 1024
    {
      entries := new Entry[numEntries](_ => Entry(0, 0));
      sInsertsPos := new nat[MAX_POS](_ => 0);
      sLossPos := new nat[MAX_POS](_ => 0);
      numValids, ptr, sInserts, sLoss := 0, 0, 0, 0;
      history := Empty();
      new;
      assert Queue() == [];
    }

    /** The ring is well formed; the capacity leaves room for ptr + num_valids in 32 bits. */
    ghost predicate Ring()
      reads this
    {
      && 0 < entries.Length <= 0x8000_0000
      && ptr < entries.Length && numValids <= entries.Length
      && sInsertsPos.Length == sLossPos.Length == MAX_POS
      && sInsertsPos != sLossPos
    }

    /** The queued entries, oldest first. */
    ghost function Queue(): (q: seq<Entry>)
      requires Ring()
      reads this, entries
      ensures |q| == numValids
    {
      FromRing(entries[..], ptr, numValids)
    }

    ghost function Statistics(): Stats
      reads this, sInsertsPos, sLossPos
    {
      Stats(sInserts, sLoss, sInsertsPos[..], sLossPos[..])
    }

    ghost predicate Valid()
      reads this, entries, sInsertsPos, sLossPos
    {
      Ring() && Queue() == history.queue && Accounts(history, Statistics())
    }

    /** Takes the oldest entry out of the ring. */
    method Remove() returns (pos: nat)
      requires Ring()
      modifies this`ptr, this`numValids
      ensures Ring()
      ensures if old(Queue()) == [] then pos == 4294967295 && Queue() == []
              else pos == old(Queue())[0].pos && Queue() == old(Queue())[1..]
    {
      pos := MAX_UNS;
      if numValids > 0 {
        RingPop(entries[..], ptr, numValids);
        pos := entries[ptr].pos;
        ptr := Slot(ptr + 1, entries.Length);
        numValids := numValids - 1;
      }
    }

    /** A refresh mitigates the oldest entry, if any. */
    method Refresh() returns (pos: nat)
      requires Valid()
      modifies this`ptr, this`numValids, this`history
      ensures Valid() && history == Step(entries.Length, old(history), Event.Refresh)
      ensures pos == if old(history).queue == [] then 4294967295 else old(history).queue[0].pos
    {
      RefreshAccounts(entries.Length, history, Statistics());
      pos := Remove();
      history := Step(entries.Length, history, Event.Refresh);
    }

    method Insert(addr: nat, pos: nat)
      requires Valid() && pos < 1024
      modifies this, entries, sInsertsPos, sLossPos
      ensures Valid() && history == Step(entries.Length, old(history), Event.Insert(Entry(pos, addr)))
      ensures Statistics() == InsertStats(entries.Length, old(history), old(Statistics()), Entry(pos, addr))
    {
      hide Accounts, FromRing, Slot;
      ghost var h, st, e := history, Statistics(), Entry(pos, addr);
      InsertAccounts(entries.Length, h, st, e);
      InRange(h, st);
      if numValids == entries.Length {
        var victimPos := Remove();
        sLoss := sLoss + 1;
        sLossPos[victimPos] := sLossPos[victimPos] + 1;
      }
      RingPush(entries[..], ptr, numValids, e);
      var index := Slot(ptr + numValids, entries.Length);
      ghost var filled := entries[..][index := e];
      entries[index] := Entry(pos, addr);
      assert entries[..] == filled;
      numValids := numValids + 1;
      sInserts := sInserts + 1;
      sInsertsPos[pos] := sInsertsPos[pos] + 1;
      history := Step(entries.Length, h, Event.Insert(e));
      assert sLossPos[..] == InsertStats(entries.Length, h, st, e).lossPos;
      assert sInsertsPos[..] == InsertStats(entries.Length, h, st, e).insertsPos;
    }

    /** The largest loss ratio over the positions of a window.  A position without insertions
        gives a NaN in the program, which never compares as larger. */
    method GetLossProb(trefi: nat) returns (r: real)
      requires Valid() && trefi <= 1024
      ensures 0.0 <= r <= 1.0
      ensures WorstOf(Statistics(), trefi, r)
      ensures PosBelow(history.evicted, trefi) && PosBelow(history.refreshed, trefi) && PosBelow(history.queue, trefi)
              ==> sLoss as real <= r * sInserts as real
    {
      hide Accounts, CountPos;
      ghost var st := Statistics();
      r := 0.0;
      for ii := 0 to trefi
        invariant 0.0 <= r <= 1.0 && WorstOf(st, ii, r)
      {
        assert sLossPos[ii] == st.lossPos[ii] && sInsertsPos[ii] == st.insertsPos[ii];
        LossAtMostInserts(history, st, ii);
        if sInsertsPos[ii] > 0 {
          var ratio := sLossPos[ii] as real / sInsertsPos[ii] as real;
          RatioBounds(sLossPos[ii] as real, sInsertsPos[ii] as real);
          WorstStep(st, ii, r, ratio);
          if r < ratio {
            r := ratio;
          }
        }
      }
      WorstCoversTotals(history, st, trefi, r);
    }
  }

  predicate Within(loss: nat, inserts: nat, r: real) {
    loss as real <= r * inserts as real
  }

  predicate Reaches(loss: nat, inserts: nat, r: real) {
    inserts > 0 && loss as real == r * inserts as real
  }

  /** r is the largest loss ratio of the first n positions. */
  ghost predicate WorstOf(st: Stats, n: nat, r: real)
    requires |st.insertsPos| == |st.lossPos| == MAX_POS && n <= MAX_POS
  {
    && (forall p :: 0 <= p < n ==> Within(st.lossPos[p], st.insertsPos[p], r))
    && (r == 0.0 || exists p :: 0 <= p < n && Reaches(st.lossPos[p], st.insertsPos[p], r))
  }

  lemma WorstStep(st: Stats, n: nat, r: real, ratio: real)
    requires |st.insertsPos| == |st.lossPos| == MAX_POS && n < MAX_POS
    requires WorstOf(st, n, r) && st.insertsPos[n] > 0
    requires st.lossPos[n] as real == ratio * st.insertsPos[n] as real
    ensures WorstOf(st, n + 1, if r < ratio then ratio else r)
  {
    assert Within(st.lossPos[n], st.insertsPos[n], ratio) && Reaches(st.lossPos[n], st.insertsPos[n], ratio);
    hide Within, Reaches;
    if r < ratio {
      forall p | 0 <= p < n ensures Within(st.lossPos[p], st.insertsPos[p], ratio) {
        Widen(st.lossPos[p], st.insertsPos[p], r, ratio);
      }
    } else {
      Widen(st.lossPos[n], st.insertsPos[n], ratio, r);
    }
  }

  lemma InRange(h: State<Entry>, st: Stats)
    requires Accounts(h, st)
    ensures |st.insertsPos| == |st.lossPos| == MAX_POS && PosBelow(h.queue, MAX_POS)
  {}

  lemma LossAtMostInserts(h: State<Entry>, st: Stats, p: nat)
    requires Accounts(h, st) && p < MAX_POS
    ensures st.lossPos[p] <= st.insertsPos[p]
  {}

  lemma WorstCoversTotals(h: State<Entry>, st: Stats, n: nat, r: real)
    requires Accounts(h, st) && n <= MAX_POS && WorstOf(st, n, r)
    ensures PosBelow(h.evicted, n) && PosBelow(h.refreshed, n) && PosBelow(h.queue, n)
            ==> st.losses as real <= r * st.inserts as real
  {
    hide Accounts, CountPos;
    InRange(h, st);
    if PosBelow(h.evicted, n) && PosBelow(h.refreshed, n) && PosBelow(h.queue, n) {
      TotalsAreSums(h, st, n);
      WorstBoundsAverage(st.lossPos, st.insertsPos, n, r);
    }
  }

  lemma RatioBounds(x: real, y: real)
    requires 0.0 <= x <= y && 0.0 < y
    ensures 0.0 <= x / y <= 1.0 && x == x / y * y
  {}

  lemma Widen(loss: nat, inserts: nat, a: real, b: real)
    requires a <= b && Within(loss, inserts, a)
    ensures Within(loss, inserts, b)
  {
    var y := inserts as real;
    assert 0.0 <= (b - a) * y;
  }
}
