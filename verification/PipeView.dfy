/** The pipeline viewer's print queue.

    Instructions arrive out of order, are sorted when too many are waiting, and are released until few
    are left.  The output is in order when no instruction is displaced by more places than are kept
    waiting, and otherwise exactly when none that is shown comes after a larger one that is shown was
    released. */
module PipeView {

  /** `text` stands for everything that is drawn but never looked at here. */
  datatype Inst = Inst(sn: int, fetch: int, retire: int, text: string)

  datatype Settings = Settings(maxThreshold: nat, minThreshold: nat, snStart: int, snStop: int,
                               tickStart: int, tickStop: int, tickDrift: int, onlyCommitted: bool)

  /** A line that begins an instruction, and one that hands it to the print queue. */
  datatype Line = Fetch(tick: int, sn: int) | Retire(inst: Inst)

  /** Is the line so far behind the range that the viewer stops? */
  predicate Stops(cfg: Settings, line: Line) {
    && line.Fetch?
    && ((cfg.tickStop > 0 && line.tick > cfg.tickStop + cfg.tickDrift)
        || (cfg.snStop > 0 && line.sn > cfg.snStop + cfg.maxThreshold))
  }

  /** The lines before the first one that stops the viewer. */
  function UntilStop(cfg: Settings, lines: seq<Line>): seq<Line> {
    if lines == [] || Stops(cfg, lines[0]) then [] else [lines[0]] + UntilStop(cfg, lines[1..])
  }

  function Queued(lines: seq<Line>): seq<Inst> {
    if lines == [] then []
    else
      var last := lines[|lines| - 1];
      Queued(lines[..|lines| - 1]) + if last.Retire? then [last.inst] else []
  }

  /** The range and commit filters of the print loop. */
  predicate Shown(cfg: Settings, inst: Inst) {
    && !(cfg.snStart > 0 && inst.sn < cfg.snStart)
    && !(cfg.snStop > 0 && inst.sn > cfg.snStop)
    && !(cfg.tickStart > 0 && inst.fetch < cfg.tickStart)
    && !(cfg.tickStop > 0 && inst.fetch > cfg.tickStop)
    && !(cfg.onlyCommitted && inst.retire == 0)
  }

  function Filter(cfg: Settings, s: seq<Inst>): seq<Inst> {
    if s == [] then []
    else Filter(cfg, s[..|s| - 1]) + if Shown(cfg, s[|s| - 1]) then [s[|s| - 1]] else []
  }

  ghost predicate Sorted(s: seq<Inst>) {
    forall i, j :: 0 <= i < j < |s| ==> s[i].sn <= s[j].sn
  }

  // ----- the stable sort by sequence number

  /** x goes behind everything that is not larger. */
  function Place(s: seq<Inst>, x: Inst): seq<Inst> {
    if s == [] then [x]
    else if s[|s| - 1].sn <= x.sn then s + [x]
    else Place(s[..|s| - 1], x) + [s[|s| - 1]]
  }

  function SortSn(s: seq<Inst>): seq<Inst> {
    if s == [] then [] else Place(SortSn(s[..|s| - 1]), s[|s| - 1])
  }

  /** How many instructions have a sequence number of at least v. */
  function AtLeast(s: seq<Inst>, v: int): nat {
    if s == [] then 0 else AtLeast(s[..|s| - 1], v) + if s[|s| - 1].sn >= v then 1 else 0
  }

  lemma {:induction false} AtLeastAppend(a: seq<Inst>, b: seq<Inst>, v: int)
    ensures AtLeast(a + b, v) == AtLeast(a, v) + AtLeast(b, v)
    decreases |b|
  {
    if b == [] {
      assert a + b == a;
    } else {
      assert (a + b)[..|a + b| - 1] == a + b[..|b| - 1];
      AtLeastAppend(a, b[..|b| - 1], v);
    }
  }

  lemma {:induction false} AtLeastAll(s: seq<Inst>, v: int)
    requires forall i :: 0 <= i < |s| ==> s[i].sn >= v
    ensures AtLeast(s, v) == |s|
  {
    if s != [] { AtLeastAll(s[..|s| - 1], v); }
  }

  lemma {:induction false} PlaceMultiset(s: seq<Inst>, x: Inst)
    ensures |Place(s, x)| == |s| + 1 && multiset(Place(s, x)) == multiset(s) + multiset{x}
  {
    if s != [] && s[|s| - 1].sn > x.sn {
      assert s == s[..|s| - 1] + [s[|s| - 1]];
      PlaceMultiset(s[..|s| - 1], x);
    }
  }

  lemma {:induction false} PlaceMembers(s: seq<Inst>, x: Inst, v: int)
    requires x.sn <= v && forall i :: 0 <= i < |s| ==> s[i].sn <= v
    ensures forall i :: 0 <= i < |Place(s, x)| ==> Place(s, x)[i].sn <= v
  {
    if s != [] && s[|s| - 1].sn > x.sn { PlaceMembers(s[..|s| - 1], x, v); }
  }

  lemma {:induction false} PlaceSorted(s: seq<Inst>, x: Inst)
    requires Sorted(s)
    ensures Sorted(Place(s, x))
  {
    if s != [] && s[|s| - 1].sn > x.sn {
      PlaceSorted(s[..|s| - 1], x);
      PlaceMembers(s[..|s| - 1], x, s[|s| - 1].sn);
    }
  }

  lemma {:induction false} SortSorts(s: seq<Inst>)
    ensures Sorted(SortSn(s)) && |SortSn(s)| == |s| && multiset(SortSn(s)) == multiset(s)
  {
    if s != [] {
      assert s == s[..|s| - 1] + [s[|s| - 1]];
      SortSorts(s[..|s| - 1]);
      PlaceSorted(SortSn(s[..|s| - 1]), s[|s| - 1]);
      PlaceMultiset(SortSn(s[..|s| - 1]), s[|s| - 1]);
    }
  }

  lemma CountsSnoc(s: seq<Inst>, x: Inst, v: int)
    ensures AtLeast(s + [x], v) == AtLeast(s, v) + if x.sn >= v then 1 else 0
  {
    assert (s + [x])[..|s|] == s;
  }

  lemma {:induction false} PlaceCounts(s: seq<Inst>, x: Inst, v: int)
    ensures AtLeast(Place(s, x), v) == AtLeast(s, v) + if x.sn >= v then 1 else 0
  {
    hide AtLeast;
    CountsSnoc([], x, v);
    assert [] + [x] == [x];
    if s == [] {
      CountsNone(v);
    } else {
      var init, last := s[..|s| - 1], s[|s| - 1];
      assert s == init + [last];
      if last.sn > x.sn {
        PlaceCounts(init, x, v);
        CountsSnoc(init, last, v);
        CountsSnoc(Place(init, x), last, v);
      } else {
        CountsSnoc(s, x, v);
      }
    }
  }

  lemma CountsNone(v: int)
    ensures AtLeast([], v) == 0
  {}

  lemma {:induction false} SortCounts(s: seq<Inst>, v: int)
    ensures AtLeast(SortSn(s), v) == AtLeast(s, v)
  {
    if s != [] {
      SortCounts(s[..|s| - 1], v);
      PlaceCounts(SortSn(s[..|s| - 1]), s[|s| - 1], v);
    }
  }

  lemma {:induction false} SortOfSorted(s: seq<Inst>)
    requires Sorted(s)
    ensures SortSn(s) == s
  {
    if s != [] {
      SortOfSorted(s[..|s| - 1]);
      if |s| > 1 { assert s[|s| - 2].sn <= s[|s| - 1].sn; }
    }
  }

  lemma {:induction false} FilterSorted(cfg: Settings, s: seq<Inst>)
    requires Sorted(s)
    ensures Sorted(Filter(cfg, s)) && forall i :: 0 <= i < |Filter(cfg, s)| ==> Filter(cfg, s)[i] in s
  {
    if s != [] {
      FilterSorted(cfg, s[..|s| - 1]);
      forall x | x in s[..|s| - 1] ensures x.sn <= s[|s| - 1].sn && x in s {}
    }
  }

  lemma {:induction false} FilterAppend(cfg: Settings, a: seq<Inst>, b: seq<Inst>)
    ensures Filter(cfg, a + b) == Filter(cfg, a) + Filter(cfg, b)
    decreases |b|
  {
    if b == [] {
      assert a + b == a;
    } else {
      assert (a + b)[..|a + b| - 1] == a + b[..|b| - 1];
      FilterAppend(cfg, a, b[..|b| - 1]);
    }
  }

  /** Filtering keeps exactly the shown occurrences. */
  lemma {:induction false} FilterCounts(cfg: Settings, s: seq<Inst>, x: Inst)
    ensures multiset(Filter(cfg, s))[x] == if Shown(cfg, x) then multiset(s)[x] else 0
  {
    if s != [] {
      assert s == s[..|s| - 1] + [s[|s| - 1]];
      FilterCounts(cfg, s[..|s| - 1], x);
    }
  }

  lemma FilterPermutes(cfg: Settings, a: seq<Inst>, b: seq<Inst>)
    requires multiset(a) == multiset(b)
    ensures multiset(Filter(cfg, a)) == multiset(Filter(cfg, b))
  {
    forall x: Inst ensures multiset(Filter(cfg, a))[x] == multiset(Filter(cfg, b))[x] {
      FilterCounts(cfg, a, x);
      FilterCounts(cfg, b, x);
    }
  }

  // ----- the order argument

  /** No instruction has more than `places` larger sequence numbers queued before it. */
  ghost predicate Displaced(trace: seq<Inst>, places: nat) {
    forall i :: 0 <= i < |trace| ==> AtLeast(trace[..i], trace[i].sn + 1) <= places
  }

  /** What a partly processed trace guarantees: the released instructions are in order and before
      everything that waits, and more than `minThreshold` instructions seen are not smaller than
      the last one released. */
  ghost predicate InOrder(cfg: Settings, seen: seq<Inst>, released: seq<Inst>, queue: seq<Inst>) {
    && Sorted(released)
    && (forall i, j :: 0 <= i < |released| && 0 <= j < |queue| ==> released[i].sn <= queue[j].sn)
    && (released != [] ==> AtLeast(seen, released[|released| - 1].sn) > cfg.minThreshold)
  }

  ghost predicate SamePeople(seen: seq<Inst>, released: seq<Inst>, queue: seq<Inst>) {
    && multiset(released) + multiset(queue) == multiset(seen)
    && forall v: int :: AtLeast(released, v) + AtLeast(queue, v) == AtLeast(seen, v)
  }

  lemma ArrivalInOrder(cfg: Settings, seen: seq<Inst>, released: seq<Inst>, queue: seq<Inst>, x: Inst)
    requires InOrder(cfg, seen, released, queue) && AtLeast(seen, x.sn + 1) <= cfg.minThreshold
    ensures InOrder(cfg, seen + [x], released, queue + [x])
  {
    if released != [] {
      var last := released[|released| - 1];
      AtLeastAppend(seen, [x], last.sn);
      if x.sn < last.sn { AtLeastMonotone(seen, x.sn + 1, last.sn); }
      assert last.sn <= x.sn;
    }
  }

  lemma {:induction false} AtLeastMonotone(s: seq<Inst>, v: int, w: int)
    requires v <= w
    ensures AtLeast(s, w) <= AtLeast(s, v)
  {
    if s != [] { AtLeastMonotone(s[..|s| - 1], v, w); }
  }

  lemma ArrivalSame(seen: seq<Inst>, released: seq<Inst>, queue: seq<Inst>, x: Inst)
    requires SamePeople(seen, released, queue)
    ensures SamePeople(seen + [x], released, queue + [x])
  {
    forall v: int ensures AtLeast(released, v) + AtLeast(queue + [x], v) == AtLeast(seen + [x], v) {
      AtLeastAppend(seen, [x], v);
      AtLeastAppend(queue, [x], v);
    }
  }

  /** Releasing the first n of the sorted queue, with at least minThreshold left or none needed. */
  lemma ReleaseInOrder(cfg: Settings, seen: seq<Inst>, released: seq<Inst>, queue: seq<Inst>, n: nat)
    requires InOrder(cfg, seen, released, queue) && SamePeople(seen, released, queue)
    requires n <= |queue| && (n > 0 ==> |queue| - n == cfg.minThreshold)
    ensures var s := SortSn(queue); |s| == |queue| && InOrder(cfg, seen, released + s[..n], s[n..])
  {
    SortSorts(queue);
    SortMembers(queue);
    hide SortSn, AtLeast;
    SplitInOrder(released, queue, SortSn(queue), n);
    if n > 0 { EnoughLeft(cfg, seen, released, queue, n); }
  }

  lemma SplitInOrder(released: seq<Inst>, queue: seq<Inst>, s: seq<Inst>, n: nat)
    requires Sorted(released) && Sorted(s) && n <= |s|
    requires forall i, j :: 0 <= i < |released| && 0 <= j < |queue| ==> released[i].sn <= queue[j].sn
    requires forall i :: 0 <= i < |s| ==> s[i] in queue
    ensures Sorted(released + s[..n])
    ensures forall i, j :: 0 <= i < |released + s[..n]| && 0 <= j < |s[n..]| ==> (released + s[..n])[i].sn <= s[n..][j].sn
  {
    forall i, j | 0 <= i < |released| && 0 <= j < |s| ensures released[i].sn <= s[j].sn {
      assert s[j] in queue;
    }
  }

  lemma EnoughLeft(cfg: Settings, seen: seq<Inst>, released: seq<Inst>, queue: seq<Inst>, n: nat)
    requires SamePeople(seen, released, queue) && 0 < n <= |queue| && |queue| - n == cfg.minThreshold
    requires Sorted(SortSn(queue)) && |SortSn(queue)| == |queue|
    ensures var r := released + SortSn(queue)[..n]; AtLeast(seen, r[|r| - 1].sn) > cfg.minThreshold
  {
    hide *;
    var s := SortSn(queue);
    var v := s[n - 1].sn;
    SortedTail(s, n);
    SortCounts(queue, v);
    SameAt(seen, released, queue, v);
    LastOfPrefix(released, s, n);
  }

  lemma SortedTail(s: seq<Inst>, n: nat)
    requires Sorted(s) && 0 < n <= |s|
    ensures AtLeast(s, s[n - 1].sn) > |s| - n
  {
    var v := s[n - 1].sn;
    var t := s[n - 1..];
    assert forall i :: 0 <= i < |t| ==> t[i].sn >= v;
    hide Sorted;
    assert s == s[..n - 1] + s[n - 1..];
    AtLeastAppend(s[..n - 1], s[n - 1..], v);
    AtLeastAll(s[n - 1..], v);
  }

  lemma SameAt(seen: seq<Inst>, released: seq<Inst>, queue: seq<Inst>, v: int)
    requires SamePeople(seen, released, queue)
    ensures AtLeast(released, v) + AtLeast(queue, v) == AtLeast(seen, v)
  {}

  lemma LastOfPrefix(released: seq<Inst>, s: seq<Inst>, n: nat)
    requires 0 < n <= |s|
    ensures var r := released + s[..n]; r[|r| - 1] == s[n - 1]
  {}

  lemma SortMembers(queue: seq<Inst>)
    ensures |SortSn(queue)| == |queue|
    ensures forall i :: 0 <= i < |queue| ==> SortSn(queue)[i] in queue
  {
    SortSorts(queue);
    forall i | 0 <= i < |queue| ensures SortSn(queue)[i] in queue {
      assert SortSn(queue)[i] in multiset(SortSn(queue));
    }
  }

  lemma ReleaseSame(seen: seq<Inst>, released: seq<Inst>, queue: seq<Inst>, n: nat)
    requires SamePeople(seen, released, queue) && n <= |queue|
    ensures var s := SortSn(queue); |s| == |queue| && SamePeople(seen, released + s[..n], s[n..])
  {
    var s := SortSn(queue);
    SortSorts(queue);
    assert s == s[..n] + s[n..];
    forall v: int ensures AtLeast(released + s[..n], v) + AtLeast(s[n..], v) == AtLeast(seen, v) {
      AtLeastAppend(released, s[..n], v);
      AtLeastAppend(s[..n], s[n..], v);
      SortCounts(queue, v);
    }
  }

  // ----- the same run as a function of the trace

  /** What was taken from the queue and what still waits. */
  datatype Pending = Pending(released: seq<Inst>, queue: seq<Inst>)

  function Drain(p: Pending, lowerThreshold: nat): (r: Pending)
    ensures |p.queue| <= lowerThreshold ==> r.released == p.released
  {
    SortSorts(p.queue);
    var s := SortSn(p.queue);
    var n := if |s| > lowerThreshold then |s| - lowerThreshold else 0;
    Pending(p.released + s[..n], s[n..])
  }

  function Arrive(cfg: Settings, p: Pending, x: Inst): Pending {
    var q := Pending(p.released, p.queue + [x]);
    if |q.queue| > cfg.maxThreshold then Drain(q, cfg.minThreshold) else q
  }

  function ArriveAll(cfg: Settings, trace: seq<Inst>): Pending {
    if trace == [] then Pending([], []) else Arrive(cfg, ArriveAll(cfg, trace[..|trace| - 1]), trace[|trace| - 1])
  }

  /** Everything printed for a trace. */
  function Printed(cfg: Settings, trace: seq<Inst>): seq<Inst> {
    Filter(cfg, Drain(ArriveAll(cfg, trace), 0).released)
  }

  // ----- exactly when the output is in order

  /** Nothing that was released and shown before comes behind x, or x is not shown. */
  ghost predicate NotLate(cfg: Settings, released: seq<Inst>, x: Inst) {
    Shown(cfg, x) ==> forall y :: y in released && Shown(cfg, y) ==> y.sn <= x.sn
  }

  ghost predicate NoneLate(cfg: Settings, trace: seq<Inst>) {
    forall n :: 0 <= n < |trace| ==> NotLate(cfg, ArriveAll(cfg, trace[..n]).released, trace[n])
  }

  /** What is shown so far is sorted and belongs before everything that waits and will be shown. */
  ghost predicate Orderly(cfg: Settings, p: Pending) {
    && Sorted(Filter(cfg, p.released))
    && forall y, x :: y in p.released && x in p.queue && Shown(cfg, y) && Shown(cfg, x) ==> y.sn <= x.sn
  }

  lemma {:induction false} FilterMember(cfg: Settings, s: seq<Inst>, x: Inst)
    ensures x in Filter(cfg, s) <==> x in s && Shown(cfg, x)
  {
    FilterCounts(cfg, s, x);
    assert x in s <==> x in multiset(s);
    assert x in Filter(cfg, s) <==> x in multiset(Filter(cfg, s));
  }

  lemma SortedJoin(a: seq<Inst>, b: seq<Inst>)
    requires Sorted(a) && Sorted(b) && forall x, y :: x in a && y in b ==> x.sn <= y.sn
    ensures Sorted(a + b)
  {}

  lemma DrainIs(p: Pending, lowerThreshold: nat) returns (t: seq<Inst>, rest: seq<Inst>)
    ensures Drain(p, lowerThreshold) == Pending(p.released + t, rest) && SortSn(p.queue) == t + rest
    ensures lowerThreshold == 0 ==> rest == []
  {
    hide SortSn, Sorted;
    SortSorts(p.queue);
    var s := SortSn(p.queue);
    var n := if |s| > lowerThreshold then |s| - lowerThreshold else 0;
    t, rest := s[..n], s[n..];
    assert s == t + rest;
  }

  /** A drain keeps the shown instructions in order. */
  lemma DrainOrderly(cfg: Settings, p: Pending, lowerThreshold: nat)
    requires Orderly(cfg, p)
    ensures Orderly(cfg, Drain(p, lowerThreshold))
  {
    hide Filter, SortSn, Drain, Shown;
    var t, rest := DrainIs(p, lowerThreshold);
    var s := SortSn(p.queue);
    SortMembers(p.queue);
    SortSorts(p.queue);
    SortedParts(t, rest);
    FilterSorted(cfg, t);
    FilterAppend(cfg, p.released, t);
    forall x, y | x in Filter(cfg, p.released) && y in Filter(cfg, t) ensures x.sn <= y.sn {
      FilterMember(cfg, p.released, x);
      FilterMember(cfg, t, y);
      InSorted(p.queue, t, rest, y);
    }
    SortedJoin(Filter(cfg, p.released), Filter(cfg, t));
    forall y, x | y in p.released + t && x in rest && Shown(cfg, y) && Shown(cfg, x) ensures y.sn <= x.sn {
      InSorted(p.queue, t, rest, x);
    }
  }

  lemma SortedParts(t: seq<Inst>, rest: seq<Inst>)
    requires Sorted(t + rest)
    ensures Sorted(t) && forall x, y :: x in t && y in rest ==> x.sn <= y.sn
  {
    var s := t + rest;
    forall i, j | 0 <= i < j < |t| ensures t[i].sn <= t[j].sn { assert s[i].sn <= s[j].sn; }
    forall x, y | x in t && y in rest ensures x.sn <= y.sn {
      var i :| 0 <= i < |t| && t[i] == x;
      var j :| 0 <= j < |rest| && rest[j] == y;
      assert s[i].sn <= s[|t| + j].sn;
    }
  }

  lemma InSorted(queue: seq<Inst>, t: seq<Inst>, rest: seq<Inst>, x: Inst)
    requires SortSn(queue) == t + rest && (x in t || x in rest)
    ensures x in queue
  {
    SortSorts(queue);
    assert x in multiset(SortSn(queue));
  }

  lemma {:induction false} NoneLateOrderly(cfg: Settings, trace: seq<Inst>)
    requires NoneLate(cfg, trace)
    ensures Orderly(cfg, ArriveAll(cfg, trace))
    decreases |trace|
  {
    if trace != [] {
      var init, x := trace[..|trace| - 1], trace[|trace| - 1];
      assert forall n :: 0 <= n <= |init| ==> init[..n] == trace[..n];
      NoneLateOrderly(cfg, init);
      hide Filter, Drain, Shown;
      var p := ArriveAll(cfg, init);
      assert NotLate(cfg, p.released, x);
      var q := Pending(p.released, p.queue + [x]);
      assert Orderly(cfg, q);
      DrainOrderly(cfg, q, cfg.minThreshold);
    }
  }

  /** What was released stays, and everything else comes out behind it. */
  lemma {:induction false} ComesOut(cfg: Settings, trace: seq<Inst>, n: nat) returns (t: seq<Inst>)
    requires n <= |trace|
    ensures var p := ArriveAll(cfg, trace[..n]);
            && Drain(ArriveAll(cfg, trace), 0).released == p.released + t
            && multiset(t) == multiset(p.queue) + multiset(trace[n..])
  {
    hide Drain;
    var mid := Behind(cfg, trace, n);
    var p := ArriveAll(cfg, trace);
    var last := DrainSplits(p, 0);
    t := mid + last;
    assert ArriveAll(cfg, trace[..n]).released + mid + last == ArriveAll(cfg, trace[..n]).released + t;
  }

  lemma ArriveSplits(cfg: Settings, p: Pending, x: Inst) returns (t: seq<Inst>)
    ensures var r := Arrive(cfg, p, x);
            r.released == p.released + t && multiset(t) + multiset(r.queue) == multiset(p.queue) + multiset{x}
  {
    hide Drain;
    var q := Pending(p.released, p.queue + [x]);
    if |q.queue| > cfg.maxThreshold { t := DrainSplits(q, cfg.minThreshold); } else { t := []; }
  }

  lemma {:induction false} Behind(cfg: Settings, trace: seq<Inst>, n: nat) returns (t: seq<Inst>)
    requires n <= |trace|
    ensures var p, r := ArriveAll(cfg, trace[..n]), ArriveAll(cfg, trace);
            && r.released == p.released + t
            && multiset(t) + multiset(r.queue) == multiset(p.queue) + multiset(trace[n..])
    decreases |trace|
  {
    hide *;
    if n == |trace| {
      assert trace[..n] == trace && trace[n..] == [];
      t := [];
    } else {
      var init, x := trace[..|trace| - 1], trace[|trace| - 1];
      assert init[..n] == trace[..n] && trace[n..] == init[n..] + [x] && trace == init + [x];
      ArriveAllSnoc(cfg, init, x);
      var before := Behind(cfg, init, n);
      var out := ArriveSplits(cfg, ArriveAll(cfg, init), x);
      t := before + out;
      var p, m, r := ArriveAll(cfg, trace[..n]), ArriveAll(cfg, init), ArriveAll(cfg, trace);
      assert r.released == p.released + before + out == p.released + t;
      BothParts(multiset(before), multiset(out), multiset(m.queue), multiset(r.queue), multiset(p.queue), multiset(init[n..]), x);
    }
  }

  lemma BothParts(a: multiset<Inst>, b: multiset<Inst>, m: multiset<Inst>, r: multiset<Inst>, p: multiset<Inst>,
                  i: multiset<Inst>, x: Inst)
    requires a + m == p + i && b + r == m + multiset{x}
    ensures a + b + r == p + (i + multiset{x})
  {
    assert a + b + r == a + (b + r) == a + m + multiset{x};
  }

  /** The output is sorted if and only if no instruction that is shown arrives after a larger one that
      is shown has been released. */
  lemma SortedExactly(cfg: Settings, trace: seq<Inst>)
    ensures Sorted(Printed(cfg, trace)) <==> NoneLate(cfg, trace)
  {
    hide Filter, Drain, Shown, ArriveAll;
    if NoneLate(cfg, trace) {
      NoneLateOrderly(cfg, trace);
      DrainOrderly(cfg, ArriveAll(cfg, trace), 0);
    } else {
      var n: nat :| n < |trace| && !NotLate(cfg, ArriveAll(cfg, trace[..n]).released, trace[n]);
      var p, x := ArriveAll(cfg, trace[..n]), trace[n];
      var y :| y in p.released && Shown(cfg, y) && x.sn < y.sn;
      var t := ComesOut(cfg, trace, n);
      assert x in trace[n..] && x in multiset(trace[n..]);
      assert x in multiset(t) && x in t;
      FilterAppend(cfg, p.released, t);
      FilterMember(cfg, p.released, y);
      FilterMember(cfg, t, x);
      NotSorted(Filter(cfg, p.released), Filter(cfg, t), y, x);
    }
  }

  lemma NotSorted(a: seq<Inst>, b: seq<Inst>, y: Inst, x: Inst)
    requires y in a && x in b && x.sn < y.sn
    ensures !Sorted(a + b)
  {
    var i :| 0 <= i < |a| && a[i] == y;
    var j :| 0 <= j < |b| && b[j] == x;
    var s := a + b;
    assert s[i] == y && s[|a| + j] == x;
  }

  // ----- the bound on displacement cannot be raised

  /** Sequence numbers 0, 2, 4, ... */
  function Ascending(n: nat): seq<Inst> {
    seq(n, (i: nat) => Inst(2 * i, 0, 1, ""))
  }

  lemma {:induction false} ArriveAscending(cfg: Settings, n: nat)
    requires n <= cfg.maxThreshold || n <= cfg.minThreshold
    ensures ArriveAll(cfg, Ascending(n)) == Pending([], Ascending(n))
  {
    if n == 0 {
      assert Ascending(0) == [];
    } else {
      var a := Ascending(n);
      assert a[..n - 1] == Ascending(n - 1);
      ArriveAscending(cfg, n - 1);
      assert Ascending(n - 1) + [a[n - 1]] == a;
      SortOfSorted(a);
    }
  }

  /** No filter is active. */
  predicate ShowsAll(cfg: Settings) {
    cfg.snStart <= 0 && cfg.snStop <= 0 && cfg.tickStart <= 0 && cfg.tickStop <= 0 && !cfg.onlyCommitted
  }

  /** The first drain of the ascending trace, and an instruction that comes one place too late. */
  function LateTrace(cfg: Settings): seq<Inst> {
    var top := if cfg.minThreshold < cfg.maxThreshold then cfg.maxThreshold else cfg.minThreshold;
    Ascending(top + 1) + [Inst(2 * (top - cfg.minThreshold) - 1, 0, 1, "")]
  }

  lemma {:induction false} AscendingAtLeast(n: nat, k: nat, v: int)
    requires k <= n && (v == 2 * k || v == 2 * k - 1)
    ensures AtLeast(Ascending(n), v) == n - k
  {
    var a := Ascending(n);
    if n == k {
      if n != 0 {
        assert a[..n - 1] == Ascending(n - 1);
        AscendingNone(n, v);
      }
    } else {
      assert a[..n - 1] == Ascending(n - 1);
      AscendingAtLeast(n - 1, k, v);
    }
  }

  lemma {:induction false} AscendingNone(n: nat, v: int)
    requires 2 * n <= v + 1
    ensures AtLeast(Ascending(n), v) == 0
  {
    if n != 0 {
      assert Ascending(n)[..n - 1] == Ascending(n - 1);
      AscendingNone(n - 1, v);
    }
  }

  /** With one more place of displacement than minThreshold the output can be out of order. */
  lemma ThresholdIsTight(cfg: Settings)
    requires ShowsAll(cfg)
    ensures Displaced(LateTrace(cfg), cfg.minThreshold + 1)
    ensures !Sorted(Printed(cfg, LateTrace(cfg)))
  {
    var top := if cfg.minThreshold < cfg.maxThreshold then cfg.maxThreshold else cfg.minThreshold;
    hide Ascending, LateTrace, ArriveAll, Arrive, Drain, Filter, Displaced, ShowsAll;
    var a, trace := Ascending(top + 1), LateTrace(cfg);
    LateDisplacement(cfg);
    LateSplit(cfg, top);
    var x := trace[top + 1];
    var first, n := ArriveAll(cfg, a), top + 1 - cfg.minThreshold;
    FirstDrain(cfg, top);
    var y := first.released[n - 1];
    assert trace[..top + 1] == a && y == a[n - 1] && x.sn < y.sn;
    ShowsEverything(cfg, x);
    ShowsEverything(cfg, y);
    assert !NotLate(cfg, first.released, x);
    SortedExactly(cfg, trace);
  }

  lemma ShowsEverything(cfg: Settings, x: Inst)
    requires ShowsAll(cfg)
    ensures Shown(cfg, x)
  {}

  /** The late instruction belongs before the last one of the first drain. */
  lemma LateSplit(cfg: Settings, top: nat)
    requires top == if cfg.minThreshold < cfg.maxThreshold then cfg.maxThreshold else cfg.minThreshold
    ensures var a, trace := Ascending(top + 1), LateTrace(cfg);
            && |a| == top + 1 && |trace| == top + 2 && trace == a + [trace[top + 1]]
            && trace[top + 1].sn < a[top - cfg.minThreshold].sn
  {}

  lemma ArriveAllSnoc(cfg: Settings, a: seq<Inst>, x: Inst)
    ensures ArriveAll(cfg, a + [x]) == Arrive(cfg, ArriveAll(cfg, a), x)
  {
    assert (a + [x])[..|a|] == a;
  }

  lemma FirstDrain(cfg: Settings, top: nat)
    requires top == if cfg.minThreshold < cfg.maxThreshold then cfg.maxThreshold else cfg.minThreshold
    ensures var a, n := Ascending(top + 1), top + 1 - cfg.minThreshold;
            ArriveAll(cfg, a) == Pending(a[..n], a[n..])
  {
    hide *;
    var a := Ascending(top + 1);
    AscendingSorted(top);
    ArriveAscending(cfg, top);
    ArriveAllSnoc(cfg, Ascending(top), a[top]);
    DrainSorted(cfg, Ascending(top), a[top]);
  }

  /** A drain of a sorted queue releases its front. */
  lemma DrainSorted(cfg: Settings, q: seq<Inst>, x: Inst)
    requires Sorted(q + [x]) && |q| + 1 > cfg.maxThreshold && |q| >= cfg.minThreshold
    ensures var a, n := q + [x], |q| + 1 - cfg.minThreshold;
            Arrive(cfg, Pending([], q), x) == Pending(a[..n], a[n..])
  {
    hide SortSn, Sorted;
    SortOfSorted(q + [x]);
  }

  lemma AscendingSorted(top: nat)
    ensures var a := Ascending(top + 1);
            |a| == top + 1 && Sorted(a) && a[..top] == Ascending(top) && a == Ascending(top) + [a[top]]
  {}

  lemma DrainSplits(p: Pending, lowerThreshold: nat) returns (t: seq<Inst>)
    ensures var r := Drain(p, lowerThreshold);
            && r.released == p.released + t
            && multiset(t) + multiset(r.queue) == multiset(p.queue)
            && (lowerThreshold == 0 ==> r.queue == [])
  {
    hide SortSn, Drain, Sorted;
    SortSorts(p.queue);
    var rest;
    t, rest := DrainIs(p, lowerThreshold);
  }

  lemma LateDisplacement(cfg: Settings)
    ensures Displaced(LateTrace(cfg), cfg.minThreshold + 1)
  {
    var top := if cfg.minThreshold < cfg.maxThreshold then cfg.maxThreshold else cfg.minThreshold;
    var trace := LateTrace(cfg);
    hide AtLeast;
    forall i | 0 <= i < |trace| ensures AtLeast(trace[..i], trace[i].sn + 1) <= cfg.minThreshold + 1 {
      assert trace[..i] == Ascending(i);
      if i <= top {
        AscendingNone(i, 2 * i + 1);
      } else {
        AscendingAtLeast(top + 1, top - cfg.minThreshold, 2 * (top - cfg.minThreshold));
      }
    }
  }

  // ----- the viewer

  class Viewer {
    const cfg: Settings
    var queue: seq<Inst>
    var output: seq<Inst>
    /** Everything taken from the queue so far, shown or not. */
    ghost var released: seq<Inst>

    constructor (cfg: Settings)
      ensures this.cfg == cfg && queue == [] && output == [] && released == []
    {
      this.cfg := cfg;
      queue, output, released := [], [], [];
    }

    ghost predicate Valid()
      reads this
    {
      output == Filter(cfg, released)
    }

    /** Sorts the queue and prints from the front until `lowerThreshold` are left. */
    method PrintInsts(lowerThreshold: nat)
      requires Valid()
      modifies this
      ensures Valid()
      ensures Pending(released, queue) == Drain(Pending(old(released), old(queue)), lowerThreshold)
      ensures forall inst: Inst ::
                if && (cfg.snStart > 0 ==> cfg.snStart <= inst.sn) && (cfg.snStop > 0 ==> inst.sn <= cfg.snStop)
                   && (cfg.tickStart > 0 ==> cfg.tickStart <= inst.fetch)
                   && (cfg.tickStop > 0 ==> inst.fetch <= cfg.tickStop)
                   && (cfg.onlyCommitted ==> inst.retire != 0)
                then multiset(output)[inst] + multiset(queue)[inst]
                     == multiset(old(output))[inst] + multiset(old(queue))[inst]
                else multiset(output)[inst] == multiset(old(output))[inst]
    {
      SortSorts(queue);
      hide Filter, SortSn, Sorted;
      queue := SortSn(queue);
      ghost var s := queue;
      ghost var n := 0;
      while |queue| > lowerThreshold
        invariant n <= |s| && queue == s[n..] && (n > 0 ==> lowerThreshold <= |queue|)
        invariant released == old(released) + s[..n] && Valid()
        decreases |queue|
      {
        var printItem := queue[0];
        queue := queue[1..];
        FilterAppend(cfg, released, [printItem]);
        FilterOne(cfg, printItem);
        released := released + [printItem];
        n := n + 1;
        if cfg.snStart > 0 && printItem.sn < cfg.snStart { continue; }
        if cfg.snStop > 0 && printItem.sn > cfg.snStop { continue; }
        if cfg.tickStart > 0 && printItem.fetch < cfg.tickStart { continue; }
        if cfg.tickStop > 0 && printItem.fetch > cfg.tickStop { continue; }
        if cfg.onlyCommitted && printItem.retire == 0 { continue; }
        output := output + [printItem];
      }
      ghost var before, after := Pending(old(released), old(queue)), Pending(released, queue);
      forall inst: Inst { DrainCounts(cfg, before, lowerThreshold, inst); }
    }

    method QueueInst(inst: Inst)
      requires Valid()
      modifies this
      ensures Valid()
      ensures Pending(released, queue) == Arrive(cfg, Pending(old(released), old(queue)), inst)
    {
      queue := queue + [inst];
      if |queue| > cfg.maxThreshold {
        PrintInsts(cfg.minThreshold);
      }
    }

    /** Queueing the next instruction of a trace keeps what is known about the whole. */
    method Feed(inst: Inst, ghost seen: seq<Inst>)
      requires Valid() && SamePeople(seen, released, queue)
      modifies this
      ensures Valid() && SamePeople(seen + [inst], released, queue)
      ensures Pending(released, queue) == Arrive(cfg, Pending(old(released), old(queue)), inst)
      ensures InOrder(cfg, seen, old(released), old(queue)) && AtLeast(seen, inst.sn + 1) <= cfg.minThreshold
              ==> InOrder(cfg, seen + [inst], released, queue)
    {
      hide SortSn, SamePeople, InOrder, Filter, AtLeast;
      ghost var r, q := released, queue;
      ghost var good := InOrder(cfg, seen, r, q) && AtLeast(seen, inst.sn + 1) <= cfg.minThreshold;
      ArrivalSame(seen, r, q, inst);
      if good { ArrivalInOrder(cfg, seen, r, q, inst); }
      QueueInst(inst);
      if |q| + 1 > cfg.maxThreshold {
        ghost var n := if |q| + 1 > cfg.minThreshold then |q| + 1 - cfg.minThreshold else 0;
        ReleaseSame(seen + [inst], r, q + [inst], n);
        if good { ReleaseInOrder(cfg, seen + [inst], r, q + [inst], n); }
      }
    }

    /** The feeding loop.  At the end of the trace everything that waits is printed; a line behind the
        range calls the drain with an argument missing, so that nothing more is printed. */
    method ProcessTrace(lines: seq<Line>) returns (crashed: bool)
      requires Valid() && queue == [] && output == [] && released == []
      modifies this
      ensures crashed <==>
              exists i :: 0 <= i < |lines| && lines[i].Fetch?
                && ((cfg.tickStop > 0 && lines[i].tick > cfg.tickStop + cfg.tickDrift)
                    || (cfg.snStop > 0 && lines[i].sn > cfg.snStop + cfg.maxThreshold))
      ensures forall inst: Inst ::
                if && (cfg.snStart > 0 ==> cfg.snStart <= inst.sn) && (cfg.snStop > 0 ==> inst.sn <= cfg.snStop)
                   && (cfg.tickStart > 0 ==> cfg.tickStart <= inst.fetch)
                   && (cfg.tickStop > 0 ==> inst.fetch <= cfg.tickStop)
                   && (cfg.onlyCommitted ==> inst.retire != 0)
                then multiset(output)[inst] <= multiset(lines)[Retire(inst)]
                     && (!crashed ==> multiset(output)[inst] == multiset(lines)[Retire(inst)])
                else inst !in output
      ensures var trace := Queued(UntilStop(cfg, lines));
              && (Displaced(trace, cfg.minThreshold) ==> Sorted(output))
              && (crashed ==> output == Filter(cfg, ArriveAll(cfg, trace).released))
              && (!crashed ==> output == Printed(cfg, trace) && multiset(output) == multiset(Filter(cfg, trace)))
    {
      hide SortSn, SamePeople, InOrder, Sorted, Displaced, Filter, AtLeast, Drain, Arrive, Queued, UntilStop;
      ghost var all := UntilStop(cfg, lines);
      ghost var good := Displaced(Queued(all), cfg.minThreshold);
      StartSame();
      StartInOrder(cfg);
      QueuedNone();
      crashed := false;
      for n := 0 to |lines|
        invariant Valid() && SamePeople(Queued(lines[..n]), released, queue)
        invariant good ==> InOrder(cfg, Queued(lines[..n]), released, queue)
        invariant Pending(released, queue) == ArriveAll(cfg, Queued(lines[..n]))
        invariant forall i :: 0 <= i < n ==> !Stops(cfg, lines[i])
      {
        NotStopped(cfg, lines, n);
        if Stops(cfg, lines[n]) {
          if good { SortedSoFar(cfg, Queued(all), released, queue); }
          forall inst: Inst { StoppedCounts(cfg, lines, n, released, queue, inst); }
          return true;
        }
        ghost var seen := Queued(lines[..n]);
        QueuedNext(lines, n);
        match lines[n]
        case Fetch(tick, sn) =>
        case Retire(inst) =>
          QueuedPrefix(all, n);
          if good { DisplacedAt(Queued(all), cfg.minThreshold, |seen|); }
          ArriveAllSnoc(cfg, seen, inst);
          Feed(inst, seen);
      }
      NotStopped(cfg, lines, |lines|);
      ghost var trace := Queued(all);
      assert lines[..|lines|] == lines;
      ghost var r, q := released, queue;
      PrintInsts(0);
      DrainAll(r, q);
      SortLength(q);
      ReleaseSame(trace, r, q, |q|);
      AllReleased(cfg, trace, released);
      forall inst: Inst { StoppedCounts(cfg, lines, |lines|, released, queue, inst); }
      if good {
        FinalInOrder(cfg, trace, r, q);
        FilterSorted(cfg, released);
      }
    }
  }

  /** What a drain prints of one instruction. */
  lemma DrainCounts(cfg: Settings, p: Pending, lowerThreshold: nat, x: Inst)
    ensures var r := Drain(p, lowerThreshold);
            var before, after := multiset(Filter(cfg, p.released))[x], multiset(Filter(cfg, r.released))[x];
            if Shown(cfg, x) then after + multiset(r.queue)[x] == before + multiset(p.queue)[x] else after == before
  {
    hide Filter, Drain, Shown;
    var t := DrainSplits(p, lowerThreshold);
    FilterAppend(cfg, p.released, t);
    FilterCounts(cfg, t, x);
  }

  lemma {:induction false} QueuedCounts(lines: seq<Line>, x: Inst)
    ensures multiset(Queued(lines))[x] == multiset(lines)[Retire(x)]
  {
    if lines != [] {
      var init := lines[..|lines| - 1];
      assert lines == init + [lines[|lines| - 1]];
      QueuedCounts(init, x);
    }
  }

  /** What has been printed after n lines: no more of an instruction than was queued, all of it once nothing
      waits, and none of it if it is not shown. */
  lemma StoppedCounts(cfg: Settings, lines: seq<Line>, n: nat, released: seq<Inst>, queue: seq<Inst>, x: Inst)
    requires n <= |lines| && SamePeople(Queued(lines[..n]), released, queue)
    ensures var printed := multiset(Filter(cfg, released))[x];
            if Shown(cfg, x) then
              && printed <= multiset(lines)[Retire(x)]
              && (n == |lines| && queue == [] ==> printed == multiset(lines)[Retire(x)])
            else x !in Filter(cfg, released)
  {
    hide Filter, Queued, AtLeast, Shown;
    QueuedCounts(lines[..n], x);
    FilterCounts(cfg, released, x);
    assert lines == lines[..n] + lines[n..];
    assert multiset(released)[x] + multiset(queue)[x] == multiset(Queued(lines[..n]))[x];
    assert x in Filter(cfg, released) <==> x in multiset(Filter(cfg, released));
    if n == |lines| { assert lines[..n] == lines; }
  }

  lemma QueuedNone()
    ensures Queued([]) == []
  {}

  lemma QueuedNext(lines: seq<Line>, n: nat)
    requires n < |lines|
    ensures lines[n].Fetch? ==> Queued(lines[..n + 1]) == Queued(lines[..n])
    ensures lines[n].Retire? ==> Queued(lines[..n + 1]) == Queued(lines[..n]) + [lines[n].inst]
  {
    assert lines[..n + 1][..n] == lines[..n];
  }

  /** What is queued first is the beginning of what is queued. */
  lemma {:induction false} QueuedPrefix(lines: seq<Line>, n: nat)
    requires n < |lines| && lines[n].Retire?
    ensures var seen, trace := Queued(lines[..n]), Queued(lines);
            |seen| < |trace| && trace[..|seen|] == seen && trace[|seen|] == lines[n].inst
    decreases |lines|
  {
    var init := lines[..|lines| - 1];
    if n == |lines| - 1 {
    } else {
      assert init[..n] == lines[..n];
      QueuedPrefix(init, n);
    }
  }

  /** When no line so far stops the viewer, they are the beginning of all that count. */
  lemma {:induction false} NotStopped(cfg: Settings, lines: seq<Line>, n: nat)
    requires n <= |lines| && forall i :: 0 <= i < n ==> !Stops(cfg, lines[i])
    ensures n < |lines| && Stops(cfg, lines[n]) ==> UntilStop(cfg, lines) == lines[..n]
    ensures n == |lines| ==> UntilStop(cfg, lines) == lines
    ensures n < |lines| && !Stops(cfg, lines[n]) ==>
              var all := UntilStop(cfg, lines); n < |all| && all[..n] == lines[..n] && all[n] == lines[n]
  {
    if n != 0 {
      var rest := lines[1..];
      forall i | 0 <= i < n - 1 ensures !Stops(cfg, rest[i]) { assert !Stops(cfg, lines[i + 1]); }
      NotStopped(cfg, rest, n - 1);
      assert lines[..n] == [lines[0]] + rest[..n - 1];
    }
  }

  /** What was printed before a stop is in order. */
  lemma SortedSoFar(cfg: Settings, seen: seq<Inst>, released: seq<Inst>, queue: seq<Inst>)
    requires InOrder(cfg, seen, released, queue)
    ensures Sorted(Filter(cfg, released))
  {
    FilterSorted(cfg, released);
  }

  lemma DrainAll(r: seq<Inst>, q: seq<Inst>)
    ensures Drain(Pending(r, q), 0) == Pending(r + SortSn(q), [])
  {
    SortSorts(q);
    assert SortSn(q)[..|q|] == SortSn(q);
  }

  lemma SortLength(q: seq<Inst>)
    ensures |SortSn(q)| == |q| && SortSn(q)[..|q|] == SortSn(q) && SortSn(q)[|q|..] == []
  {
    SortSorts(q);
  }

  lemma FilterOne(cfg: Settings, x: Inst)
    ensures Filter(cfg, [x]) == if Shown(cfg, x) then [x] else []
  {
    assert [x][..0] == [];
  }

  lemma StartSame()
    ensures SamePeople([], [], [])
  {}

  lemma StartInOrder(cfg: Settings)
    ensures InOrder(cfg, [], [], [])
  {}

  lemma DisplacedAt(trace: seq<Inst>, places: nat, i: nat)
    requires Displaced(trace, places) && i < |trace|
    ensures AtLeast(trace[..i], trace[i].sn + 1) <= places
  {}

  lemma AllReleased(cfg: Settings, trace: seq<Inst>, released: seq<Inst>)
    requires SamePeople(trace, released, [])
    ensures multiset(Filter(cfg, released)) == multiset(Filter(cfg, trace))
  {
    assert multiset(released) == multiset(trace);
    FilterPermutes(cfg, released, trace);
  }

  /** The final drain leaves nothing behind and keeps the order. */
  lemma FinalInOrder(cfg: Settings, seen: seq<Inst>, released: seq<Inst>, queue: seq<Inst>)
    requires InOrder(cfg, seen, released, queue)
    ensures Sorted(released + SortSn(queue))
  {
    SortSorts(queue);
    SortMembers(queue);
  }
}
