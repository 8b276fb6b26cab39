/** Copyright years: a set of years printed as a list of years and ranges, and read back.

    A run of consecutive years is printed as its first and last year, and the runs are the fewest
    intervals that hold exactly the years of the set.  Reading knows ranges of four-digit years only, so
    that a run that begins before the year 1000 or ends after 9999 does not read back, and everything
    else does. */
module CopyrightDates {
  import opened Text
  import opened Wrappers

  /** Consecutive years, printed as one piece. */
  datatype Run = Run(first: int, last: int)

  predicate Between(lo: int, y: int, hi: int) {
    lo <= y < hi
  }

  /** xrange(lo, hi) as a set. */
  function Range(lo: int, hi: int): set<int> {
    set y: int | lo <= y < hi && Between(lo, y, hi)
  }

  function Years(r: Run): set<int> {
    Range(r.first, r.last + 1)
  }

  function Union(runs: seq<Run>): set<int> {
    if runs == [] then {} else Years(runs[0]) + Union(runs[1..])
  }

  // ----- printing

  ghost predicate Increasing(s: seq<int>) {
    forall i, j :: 0 <= i < j < |s| ==> s[i] < s[j]
  }

  function ToSet(s: seq<int>): set<int> {
    set y | y in s
  }

  /** The runs of an increasing list that continues the run first..second. */
  function RunsFrom(first: int, second: int, rest: seq<int>): (r: seq<Run>)
    ensures |r| > 0
    decreases |rest|
  {
    if rest == [] then [Run(first, second)]
    else if rest[0] == second + 1 then RunsFrom(first, rest[0], rest[1..])
    else [Run(first, second)] + RunsFrom(rest[0], rest[0], rest[1..])
  }

  function Piece(r: Run): string {
    if r.first == r.last then Numeral(r.first) else Numeral(r.first) + "-" + Numeral(r.last)
  }

  function Pieces(runs: seq<Run>): seq<string> {
    seq(|runs|, i requires 0 <= i < |runs| => Piece(runs[i]))
  }

  /** Each run ends at least one missing year before the next begins. */
  ghost predicate Separated(runs: seq<Run>) {
    && (forall i :: 0 <= i < |runs| ==> runs[i].first <= runs[i].last)
    && forall i, j :: 0 <= i < j < |runs| ==> runs[i].last + 1 < runs[j].first
  }

  /** The runs cover exactly the years given, in order and with gaps between them. */
  lemma {:induction false} RunsCover(first: int, second: int, rest: seq<int>)
    requires first <= second && Increasing([second] + rest)
    ensures Union(RunsFrom(first, second, rest)) == Years(Run(first, second)) + ToSet(rest)
    ensures Separated(RunsFrom(first, second, rest))
    ensures RunsFrom(first, second, rest)[0].first == first
    ensures RunsFrom(first, second, rest)[0].last >= second
    decreases |rest|
  {
    hide Separated, ToSet, Union, Increasing;
    if rest == [] {
      SingleRun(first, second);
    } else {
      var next, more := rest[0], rest[1..];
      assert [next] + more == rest;
      NextIsLater(second, rest);
      ToSetCons(rest);
      if next == second + 1 {
        RunsCover(first, next, more);
        assert Years(Run(first, next)) == Years(Run(first, second)) + {next};
      } else {
        RunsCover(next, next, more);
        var tail := RunsFrom(next, next, more);
        assert Years(Run(next, next)) == {next};
        Prepend(Run(first, second), tail);
      }
    }
  }

  lemma SingleRun(first: int, second: int)
    requires first <= second
    ensures Union([Run(first, second)]) == Years(Run(first, second)) + ToSet([])
    ensures Separated([Run(first, second)])
  {
    assert Union([Run(first, second)]) == Years(Run(first, second)) + Union([]);
  }

  lemma NextIsLater(second: int, rest: seq<int>)
    requires rest != [] && Increasing([second] + rest)
    ensures second < rest[0] && Increasing(rest)
  {
    assert ([second] + rest)[0] < ([second] + rest)[1];
    IncreasingTail(second, rest);
  }

  lemma ToSetCons(s: seq<int>)
    requires s != []
    ensures ToSet(s) == {s[0]} + ToSet(s[1..])
  {}

  lemma IncreasingTail(x: int, s: seq<int>)
    requires Increasing([x] + s)
    ensures Increasing(s)
  {
    var all := [x] + s;
    forall i, j | 0 <= i < j < |s| ensures s[i] < s[j] {
      assert all[i + 1] < all[j + 1];
    }
  }

  lemma Prepend(r: Run, runs: seq<Run>)
    requires r.first <= r.last && Separated(runs) && runs != [] && r.last + 1 < runs[0].first
    ensures Separated([r] + runs) && Union([r] + runs) == Years(r) + Union(runs)
  {
    var all := [r] + runs;
    assert all[1..] == runs;
    forall i, j | 0 <= i < j < |all| ensures all[i].last + 1 < all[j].first {
      if i == 0 && j > 1 { assert runs[0].last + 1 < runs[j - 1].first; }
    }
  }

  /** The years in increasing order. */
  method SortedYears(dates: set<int>) returns (s: seq<int>)
    ensures Increasing(s) && ToSet(s) == dates
  {
    s := [];
    var rest := dates;
    while rest != {}
      invariant rest <= dates && ToSet(s) == dates - rest && Increasing(s)
      invariant forall x, y :: x in s && y in rest ==> x < y
      decreases rest
    {
      MinExists(rest);
      var m :| m in rest && Least(rest, m);
      assert forall i :: 0 <= i < |s| ==> s[i] in s;
      ToSetSnoc(s, m);
      s := s + [m];
      rest := rest - {m};
    }
  }

  predicate Least(s: set<int>, m: int) {
    m in s && forall y :: y in s ==> m <= y
  }

  lemma HasMember(s: set<int>)
    ensures s == {} || exists y :: y in s
  {
    if forall y :: y !in s {
      assert s == {};
    }
  }

  lemma {:induction false} MinExists(s: set<int>)
    requires s != {}
    ensures exists m :: Least(s, m)
    decreases |s|
  {
    HasMember(s);
    var x :| x in s;
    if s == {x} {
      assert Least(s, x);
    } else {
      var t := s - {x};
      assert s == t + {x};
      MinExists(t);
      var m :| Least(t, m);
      assert Least(s, if x < m then x else m);
    }
  }

  lemma ToSetEmpty(s: seq<int>)
    ensures s == [] <==> ToSet(s) == {}
  {
    if s != [] { assert s[0] in ToSet(s); }
  }

  lemma ToSetSnoc(s: seq<int>, y: int)
    ensures ToSet(s + [y]) == ToSet(s) + {y}
  {}

  /** datestr: the printed text is the joined pieces of the maximal runs of the years. */
  method DateStr(dates: set<int>) returns (text: string, ghost runs: seq<Run>)
    requires dates != {}
    ensures text == Join(Pieces(runs), ',')
    ensures runs != [] && Separated(runs) && Union(runs) == dates
    ensures AllYears(Split(text, ',')) == dates <==> FourDigitRanges(dates)
  {
    hide Separated, Union, Years, Piece, Increasing, ToSet, Pieces, AllYears, Split, Join, FourDigitRanges, Decimal;
    var list := SortedYears(dates);
    ToSetEmpty(list);
    var first := list[0];
    var rest := list[1..];
    var second := first;
    var output := [];
    ghost var done: seq<Run> := [];
    runs := RunsFrom(first, second, rest);
    RunsOfList(list);
    PiecesNone();
    assert [] + runs == runs;
    while rest != []
      invariant output == Pieces(done)
      invariant runs == done + RunsFrom(first, second, rest)
      decreases |rest|
    {
      var next := rest[0];
      if next == second + 1 {
        second := next;
      } else {
        PiecesSnoc(done, Run(first, second));
        PieceText(Run(first, second));
        output := output + [if first == second then Numeral(first) else Numeral(first) + "-" + Numeral(second)];
        done := done + [Run(first, second)];
        first := next;
        second := next;
      }
      rest := rest[1..];
    }
    PiecesSnoc(done, Run(first, second));
    PieceText(Run(first, second));
    output := output + [if first == second then Numeral(first) else Numeral(first) + "-" + Numeral(second)];
    text := Join(output, ',');
    DatesRoundTrip(runs);
  }

  lemma PieceText(r: Run)
    ensures Piece(r) == if r.first == r.last then Numeral(r.first) else Numeral(r.first) + "-" + Numeral(r.last)
  {}

  lemma RunsOfList(list: seq<int>)
    requires list != [] && Increasing(list)
    ensures var runs := RunsFrom(list[0], list[0], list[1..]); Separated(runs) && Union(runs) == ToSet(list)
  {
    assert [list[0]] + list[1..] == list;
    RunsCover(list[0], list[0], list[1..]);
    ToSetCons(list);
    assert Years(Run(list[0], list[0])) == {list[0]};
  }

  lemma PiecesNone()
    ensures Pieces([]) == []
  {}

  lemma PiecesSnoc(runs: seq<Run>, r: Run)
    ensures Pieces(runs + [r]) == Pieces(runs) + [Piece(r)]
  {}

  // ----- no shorter list exists

  lemma {:induction false} UnionMember(runs: seq<Run>, y: int)
    ensures y in Union(runs) <==> exists i :: 0 <= i < |runs| && y in Years(runs[i])
  {
    if runs != [] {
      UnionMember(runs[1..], y);
      if y in Union(runs[1..]) {
        var i :| 0 <= i < |runs[1..]| && y in Years(runs[1..][i]);
        assert y in Years(runs[i + 1]);
      }
      if i :| 0 <= i < |runs| && y in Years(runs[i]) {
        if i > 0 { assert y in Years(runs[1..][i - 1]); }
      }
    }
  }

  /** The year before the first of a later run is missing. */
  lemma GapBefore(runs: seq<Run>, i: nat)
    requires Separated(runs) && i < |runs|
    ensures runs[i].first - 1 !in Union(runs)
  {
    UnionMember(runs, runs[i].first - 1);
  }

  /** An interval of years that are all printed holds the first year of at most one run. */
  lemma OneFirst(runs: seq<Run>, r: Run, i: nat, j: nat)
    requires Separated(runs) && i < j < |runs| && Years(r) <= Union(runs)
    ensures !(runs[i].first in Years(r) && runs[j].first in Years(r))
  {
    GapBefore(runs, j);
    var before := runs[j].first - 1;
    assert before !in Years(r);
  }

  /** Runs are the fewest intervals that cover exactly the same years. */
  lemma RunsAreFewest(runs: seq<Run>, other: seq<Run>)
    requires Separated(runs) && Union(other) == Union(runs)
    ensures |runs| <= |other|
  {
    var used := FirstsUsed(runs, other, |runs|);
    SubsetSize(used, |other|);
  }

  /** Each of the first n runs begins in an interval of its own. */
  lemma {:induction false} FirstsUsed(runs: seq<Run>, other: seq<Run>, n: nat) returns (used: set<nat>)
    requires Separated(runs) && Union(other) == Union(runs) && n <= |runs|
    ensures |used| == n
    ensures forall k :: k in used ==> k < |other| && HoldsFirst(runs, n, other[k])
  {
    if n == 0 {
      used := {};
    } else {
      hide Separated, Union, Years, HoldsFirst;
      var before := FirstsUsed(runs, other, n - 1);
      var k := FirstUsed(runs, other, n - 1);
      if k in before { HoldsOne(runs, n, other[k]); }
      HoldsLast(runs, n, other[k]);
      forall m | m in before ensures HoldsFirst(runs, n, other[m]) {
        HoldsMore(runs, n, other[m]);
      }
      used := before + {k};
    }
  }

  /** Does an interval hold the first year of one of the first n runs? */
  ghost predicate HoldsFirst(runs: seq<Run>, n: nat, r: Run)
    requires n <= |runs|
  {
    exists i :: 0 <= i < n && runs[i].first in Years(r)
  }

  lemma HoldsLast(runs: seq<Run>, n: nat, r: Run)
    requires 0 < n <= |runs| && runs[n - 1].first in Years(r)
    ensures HoldsFirst(runs, n, r)
  {}

  lemma HoldsOne(runs: seq<Run>, n: nat, r: Run)
    requires Separated(runs) && 0 < n <= |runs| && Years(r) <= Union(runs) && HoldsFirst(runs, n - 1, r)
    ensures runs[n - 1].first !in Years(r)
  {
    var i :| 0 <= i < n - 1 && runs[i].first in Years(r);
    OneFirst(runs, r, i, n - 1);
  }

  lemma HoldsMore(runs: seq<Run>, n: nat, r: Run)
    requires 0 < n <= |runs| && HoldsFirst(runs, n - 1, r)
    ensures HoldsFirst(runs, n, r)
  {}

  lemma FirstUsed(runs: seq<Run>, other: seq<Run>, i: nat) returns (k: nat)
    requires Separated(runs) && Union(other) == Union(runs) && i < |runs|
    ensures k < |other| && runs[i].first in Years(other[k]) && Years(other[k]) <= Union(runs)
  {
    var y := runs[i].first;
    UnionMember(runs, y);
    assert y in Years(runs[i]);
    UnionMember(other, y);
    k :| 0 <= k < |other| && y in Years(other[k]);
    forall x | x in Years(other[k]) ensures x in Union(runs) { UnionMember(other, x); }
  }

  lemma {:induction false} SubsetSize(s: set<nat>, n: nat)
    requires forall k :: k in s ==> k < n
    ensures |s| <= n
    decreases n
  {
    if n == 0 {
      assert s == {};
    } else {
      SubsetSize(s - {n - 1}, n - 1);
    }
  }

  // ----- reading

  /** The text after the whitespace, dash and whitespace that may follow, if the dash is there. */
  function AfterDash(s: string): Option<string> {
    var t := StripLeft(s);
    if t != [] && t[0] == '-' then Some(StripLeft(t[1..])) else None
  }

  /** Matches four digits, a dash and four digits at the start, with spaces around the dash. */
  function RangeMatch(s: string): Option<(nat, nat)> {
    if |s| < 4 || !AllDigits(s[..4]) then None
    else
      match AfterDash(s[4..])
      case None => None
      case Some(t) =>
        if |t| < 4 || !AllDigits(t[..4]) then None else Some((DigitsValue(s[..4]), DigitsValue(t[..4])))
  }

  /** The years one piece stands for; anything unreadable stands for none. */
  function PieceYears(piece: string): set<int> {
    match RangeMatch(piece)
    case Some(r) => Years(Run(r.0, r.1))
    case None => match ParseInt(piece, false) case Some(n) => {n} case None => {}
  }

  function AllYears(pieces: seq<string>): set<int> {
    if pieces == [] then {} else AllYears(pieces[..|pieces| - 1]) + PieceYears(Strip(pieces[|pieces| - 1]))
  }

  method ProcessDates(dates: string) returns (output: set<int>)
    ensures output == AllYears(Split(dates, ','))
    ensures dates == "2001, 2003 - 2005" ==> output == {2001, 2003, 2004, 2005}
    ensures forall ws, y :: ws != [] && dates == Join(Texts(ws), ',') && AllSpaced(ws) ==>
              (y in output <==> exists i :: 0 <= i < |ws| && Meant(ws[i], y))
  {
    hide Split, Strip, ParseInt, RangeMatch;
    var pieces := Split(dates, ',');
    output := {};
    for k := 0 to |pieces|
      invariant output == AllYears(pieces[..k])
    {
      assert pieces[..k + 1][..k] == pieces[..k];
      var date := Strip(pieces[k]);
      var m := RangeMatch(date);
      if m.Some? {
        var f, l := m.value.0, m.value.1;
        ghost var before := output;
        var i := f;
        while i < l + 1
          invariant f <= i && (i <= l + 1 || i == f)
          invariant output == before + Range(f, i)
        {
          assert Range(f, i + 1) == Range(f, i) + {i};
          output := output + {i};
          i := i + 1;
        }
        assert Years(Run(f, l)) == Range(f, i);
      } else {
        var n := ParseInt(date, false);
        if n.Some? { output := output + {n.value}; }
      }
    }
    assert pieces[..|pieces|] == pieces;
    SpacedExample();
    hide *;
    forall ws, y | ws != [] && dates == Join(Texts(ws), ',') && AllSpaced(ws)
      ensures y in output <==> exists i :: 0 <= i < |ws| && Meant(ws[i], y)
    {
      SpacedDates(ws, y);
    }
  }

  // ----- round trip

  /** Can the printed piece be read back? */
  predicate Readable(r: Run) {
    r.first == r.last || (1000 <= r.first && r.last <= 9999)
  }

  lemma {:induction false} DecimalSize(n: nat)
    ensures n < 10 ==> |Decimal(n)| == 1
    ensures 10 <= n < 100 ==> |Decimal(n)| == 2
    ensures 100 <= n < 1000 ==> |Decimal(n)| == 3
    ensures 1000 <= n < 10000 ==> |Decimal(n)| == 4
    ensures 10000 <= n ==> |Decimal(n)| > 4
  {
    if 10 <= n { DecimalSize(n / 10); }
  }

  /** Four digits denote at most 9999. */
  lemma FourDigits(s: string)
    requires |s| == 4 && AllDigits(s)
    ensures DigitsValue(s) <= 9999
  {
    assert s[..3][..2] == s[..2] && s[..2][..1] == s[..1] && s[..1][..0] == [];
    assert DigitsValue(s[..3][..2][..1][..0]) == 0;
    assert DigitsValue(s[..1]) <= 9;
    assert DigitsValue(s[..2]) <= 99;
    assert DigitsValue(s[..3]) <= 999;
  }

  /** What a printed piece is read as. */
  lemma PieceReading(r: Run)
    requires r.first <= r.last
    ensures PieceYears(Piece(r)) <= Years(r)
    ensures Readable(r) ==> PieceYears(Piece(r)) == Years(r)
    ensures !Readable(r) ==> r.last !in PieceYears(Piece(r))
  {
    if r.first == r.last {
      SinglePiece(r.first);
      assert Years(r) == {r.first};
    } else {
      PairPiece(r);
    }
  }

  lemma PairPiece(r: Run)
    requires r.first < r.last
    ensures PieceYears(Piece(r)) <= Years(r)
    ensures Readable(r) ==> PieceYears(Piece(r)) == Years(r)
    ensures !Readable(r) ==> r.last !in PieceYears(Piece(r))
  {
    hide Piece, PieceYears, RangeMatch, Decimal, Years;
    if r.first < 1000 {
      ShortFirst(r);
    } else if r.first < 10000 {
      FourDigitFirst(r);
    } else {
      LongFirst(r);
    }
    PairYears(r);
  }

  /** A pair that is not read as a range is read as nothing. */
  lemma PairYears(r: Run)
    requires r.first < r.last
    requires Readable(r) ==> RangeMatch(Piece(r)) == Some((r.first, r.last))
    requires !Readable(r) ==> RangeMatch(Piece(r)).None?
                              || (r.first <= RangeMatch(Piece(r)).value.0 && RangeMatch(Piece(r)).value.1 < r.last)
    ensures PieceYears(Piece(r)) <= Years(r)
    ensures Readable(r) ==> PieceYears(Piece(r)) == Years(r)
    ensures !Readable(r) ==> r.last !in PieceYears(Piece(r))
  {
    hide RangeMatch, Numeral, ParseInt;
    NumeralClean(r.first, ',');
    NumeralClean(r.last, ',');
    DashInside(Piece(r), |Numeral(r.first)|);
  }

  /** A dash that is not the first character is no part of a number. */
  lemma DashInside(s: string, k: nat)
    requires 0 < k < |s| && s[k] == '-' && NoSpace(s)
    ensures ParseInt(s, false) == None
  {
    StripNothing(s);
    assert s[1..][k - 1] == '-';
    assert !AllDigits(s) && !AllDigits(s[1..]);
  }

  lemma ShortFirst(r: Run)
    requires r.first < r.last && r.first < 1000
    ensures RangeMatch(Piece(r)).None?
  {
    hide Decimal, AfterDash;
    var f, s := Numeral(r.first), Piece(r);
    if r.first < 0 {
      if |s| >= 4 { assert s[..4][0] == '-'; }
    } else {
      DecimalSize(r.first);
      if |s| >= 4 { assert s[..4][|f|] == '-'; }
    }
  }

  lemma LongFirst(r: Run)
    requires r.first < r.last && 10000 <= r.first
    ensures RangeMatch(Piece(r)).None?
  {
    hide Decimal, AllDigits;
    var f, s := Numeral(r.first), Piece(r);
    DecimalSize(r.first);
    assert s[4..][0] == f[4];
    DigitAt(f, 4);
    assert AfterDash(s[4..]).None?;
  }

  lemma DigitAt(s: string, i: nat)
    requires AllDigits(s) && i < |s|
    ensures IsDigit(s[i])
  {}

  lemma FourDigitFirst(r: Run)
    requires r.first < r.last && 1000 <= r.first < 10000
    ensures r.last < 10000 ==> RangeMatch(Piece(r)) == Some((r.first, r.last))
    ensures r.last >= 10000 ==> RangeMatch(Piece(r)).Some? && RangeMatch(Piece(r)).value.0 == r.first
                                && RangeMatch(Piece(r)).value.1 < r.last
  {
    hide Decimal, DigitsValue;
    var f, l, s := Numeral(r.first), Numeral(r.last), Piece(r);
    DecimalSize(r.first);
    DecimalSize(r.last);
    assert s[..4] == f && s[4..] == "-" + l;
    DashThen(l);
    DecimalValue(r.first);
    FourDigits(l[..4]);
    if r.last < 10000 {
      assert l[..4] == l;
      DecimalValue(r.last);
    }
  }

  lemma DashThen(l: string)
    requires l != [] && AllDigits(l)
    ensures AfterDash("-" + l) == Some(l)
  {
    assert ("-" + l)[1..] == l && ("-" + l)[0] == '-';
    assert !IsSpace('-') && !IsSpace(l[0]);
  }

  lemma SinglePiece(n: int)
    ensures PieceYears(Numeral(n)) == {n}
  {
    hide Decimal, ParseInt;
    var s := Numeral(n);
    NumeralRoundTrip(n, false);
    if |s| >= 4 {
      if n < 0 { assert s[..4][0] == '-'; } else if s[4..] != [] { assert IsDigit(s[4..][0]); }
    }
    assert RangeMatch(s).None?;
  }

  lemma PiecesClean(runs: seq<Run>)
    ensures forall i :: 0 <= i < |Pieces(runs)| ==> Without(Pieces(runs)[i], ',') && NoSpace(Pieces(runs)[i])
  {
    forall i | 0 <= i < |runs| ensures Without(Piece(runs[i]), ',') && NoSpace(Piece(runs[i])) {
      NumeralClean(runs[i].first, ',');
      NumeralClean(runs[i].last, ',');
    }
  }

  lemma {:induction false} AllYearsMember(runs: seq<Run>, y: int)
    ensures y in AllYears(Pieces(runs)) <==> exists i :: 0 <= i < |runs| && y in PieceYears(Piece(runs[i]))
  {
    hide AllYears, PieceYears, Piece, Pieces;
    if runs == [] {
      NoPieces();
    } else {
      var init, last := runs[..|runs| - 1], runs[|runs| - 1];
      assert runs == init + [last];
      AllYearsMember(init, y);
      AllYearsSnoc(init, last);
      if i :| 0 <= i < |init| && y in PieceYears(Piece(init[i])) { assert y in PieceYears(Piece(runs[i])); }
      if i :| 0 <= i < |runs| && y in PieceYears(Piece(runs[i])) {
        if i < |init| { assert y in PieceYears(Piece(init[i])); }
      }
    }
  }

  lemma NoPieces()
    ensures AllYears(Pieces([])) == {}
  {}

  lemma AllYearsSnoc(init: seq<Run>, last: Run)
    ensures AllYears(Pieces(init + [last])) == AllYears(Pieces(init)) + PieceYears(Piece(last))
  {
    var p := Pieces(init + [last]);
    PiecesSnoc(init, last);
    PiecesClean(init + [last]);
    assert p[|p| - 1] == Piece(last) && p[..|p| - 1] == Pieces(init);
    StripNothing(Piece(last));
  }

  /** No two consecutive years of the set lie outside the four-digit range. */
  ghost predicate FourDigitRanges(dates: set<int>) {
    forall y: int :: y in dates && y + 1 in dates ==> 1000 <= y && y + 1 <= 9999
  }

  lemma RunsReadable(runs: seq<Run>)
    requires Separated(runs)
    ensures (forall i :: 0 <= i < |runs| ==> Readable(runs[i])) <==> FourDigitRanges(Union(runs))
  {
    hide Separated, Union, Years, FourDigitRanges, Readable;
    if FourDigitRanges(Union(runs)) {
      forall i | 0 <= i < |runs| ensures Readable(runs[i]) {
        RunReadable(runs, i);
      }
    }
    if forall i :: 0 <= i < |runs| ==> Readable(runs[i]) {
      ReadableRanges(runs);
    }
  }

  lemma RunReadable(runs: seq<Run>, i: nat)
    requires Separated(runs) && i < |runs| && FourDigitRanges(Union(runs))
    ensures Readable(runs[i])
  {
    var r := runs[i];
    if r.first < r.last {
      InUnion(runs, i, r.first);
      InUnion(runs, i, r.first + 1);
      InUnion(runs, i, r.last - 1);
      InUnion(runs, i, r.last);
      assert r.last - 1 + 1 == r.last;
    }
  }

  lemma ReadableRanges(runs: seq<Run>)
    requires Separated(runs) && forall i :: 0 <= i < |runs| ==> Readable(runs[i])
    ensures FourDigitRanges(Union(runs))
  {
    hide Union;
    forall y: int | y in Union(runs) && y + 1 in Union(runs) ensures 1000 <= y && y + 1 <= 9999 {
      UnionMember(runs, y);
      UnionMember(runs, y + 1);
      var i :| 0 <= i < |runs| && y in Years(runs[i]);
      var j :| 0 <= j < |runs| && y + 1 in Years(runs[j]);
      assert i == j;
    }
  }

  lemma InUnion(runs: seq<Run>, i: nat, y: int)
    requires i < |runs| && y in Years(runs[i])
    ensures y in Union(runs)
  {
    UnionMember(runs, y);
  }

  /** Reading the printed years gives the same years back if and only if every two consecutive years
      have four digits. */
  lemma DatesRoundTrip(runs: seq<Run>)
    requires runs != [] && Separated(runs)
    ensures AllYears(Split(Join(Pieces(runs), ','), ',')) == Union(runs) <==> FourDigitRanges(Union(runs))
  {
    hide Separated, Union, Years, AllYears, PieceYears, Piece, Readable, FourDigitRanges, Split, Join;
    PiecesClean(runs);
    SplitJoin(Pieces(runs), ',');
    RunsReadable(runs);
    if forall i :: 0 <= i < |runs| ==> Readable(runs[i]) {
      AllReadBack(runs);
    } else {
      var i :| 0 <= i < |runs| && !Readable(runs[i]);
      LastNotRead(runs, i);
    }
  }

  lemma RunBounds(runs: seq<Run>, i: nat)
    requires Separated(runs) && i < |runs|
    ensures runs[i].first <= runs[i].last && runs[i].last in Union(runs)
    ensures forall j :: 0 <= j < |runs| && j != i ==> runs[i].last !in Years(runs[j])
  {
    InUnion(runs, i, runs[i].last);
  }

  lemma AllReadBack(runs: seq<Run>)
    requires Separated(runs) && forall i :: 0 <= i < |runs| ==> Readable(runs[i])
    ensures AllYears(Pieces(runs)) == Union(runs)
  {
    forall i | 0 <= i < |runs| ensures PieceYears(Piece(runs[i])) == Years(runs[i]) {
      RunBounds(runs, i);
      PieceReading(runs[i]);
    }
    hide Separated, Union, Years, AllYears, PieceYears, Piece, Readable;
    forall y: int ensures y in AllYears(Pieces(runs)) <==> y in Union(runs) {
      AllYearsMember(runs, y);
      UnionMember(runs, y);
    }
  }

  lemma LastNotRead(runs: seq<Run>, i: nat)
    requires Separated(runs) && i < |runs| && !Readable(runs[i])
    ensures runs[i].last in Union(runs) && runs[i].last !in AllYears(Pieces(runs))
  {
    var y := runs[i].last;
    RunBounds(runs, i);
    forall j | 0 <= j < |runs| ensures y !in PieceYears(Piece(runs[j])) {
      RunBounds(runs, j);
      PieceReading(runs[j]);
    }
    AllYearsMember(runs, y);
  }

  // ----- pieces with spaces

  /** A piece as a person may write it: a year, or a range with spaces around its dash. */
  datatype Written =
    | OneYear(before: string, year: nat, after: string)
    | YearRange(before: string, first: nat, left: string, right: string, last: nat, after: string)

  predicate Spaced(w: Written) {
    && AllSpace(w.before) && AllSpace(w.after)
    && (w.YearRange? ==> AllSpace(w.left) && AllSpace(w.right) && 1000 <= w.first <= 9999 && 1000 <= w.last <= 9999)
  }

  predicate AllSpaced(ws: seq<Written>) {
    forall i :: 0 <= i < |ws| ==> Spaced(ws[i])
  }

  function Core(w: Written): string {
    match w
    case OneYear(_, year, _) => Decimal(year)
    case YearRange(_, first, left, right, last, _) => Decimal(first) + left + "-" + right + Decimal(last)
  }

  function TextOf(w: Written): string {
    w.before + Core(w) + w.after
  }

  predicate Meant(w: Written, y: int) {
    match w
    case OneYear(_, year, _) => y == year
    case YearRange(_, first, _, _, last, _) => first <= y <= last
  }

  lemma DashFound(left: string, right: string, rest: string)
    requires AllSpace(left) && AllSpace(right) && rest != [] && IsDigit(rest[0])
    ensures AfterDash(left + "-" + right + rest) == Some(rest)
  {
    var t := "-" + right + rest;
    assert left + "-" + right + rest == left + t;
    StripLeftSpaces(left, t);
    assert t[1..] == right + rest;
    StripLeftSpaces(right, rest);
  }

  lemma RangeRead(first: nat, left: string, right: string, last: nat)
    requires AllSpace(left) && AllSpace(right) && 1000 <= first <= 9999 && 1000 <= last <= 9999
    ensures RangeMatch(Decimal(first) + left + "-" + right + Decimal(last)) == Some((first, last))
  {
    hide Decimal, AfterDash, DigitsValue;
    var f, l := Decimal(first), Decimal(last);
    var s := f + left + "-" + right + l;
    DecimalSize(first);
    DecimalSize(last);
    assert s[..4] == f && s[4..] == left + "-" + right + l && l[..4] == l;
    DashFound(left, right, l);
    DecimalValue(first);
    DecimalValue(last);
  }

  /** A single number is no range. */
  lemma YearRead(year: nat)
    ensures RangeMatch(Decimal(year)) == None && ParseInt(Decimal(year), false) == Some(year)
  {
    hide DigitsValue;
    var d := Decimal(year);
    NumeralRoundTrip(year, false);
    hide Decimal;
    if |d| >= 4 {
      var rest := d[4..];
      assert rest != [] ==> IsDigit(rest[0]);
    }
  }

  lemma WrittenReading(w: Written, y: int)
    requires Spaced(w)
    ensures y in PieceYears(Strip(TextOf(w))) <==> Meant(w, y)
  {
    hide Decimal, RangeMatch, ParseInt, Strip;
    var s := Core(w);
    assert s != [] && IsDigit(s[0]) && IsDigit(s[|s| - 1]);
    StripSpaces(w.before, s, w.after);
    match w
    case OneYear(_, year, _) => YearRead(year);
    case YearRange(_, first, left, right, last, _) =>
      RangeRead(first, left, right, last);
      assert Between(first, y, last + 1) <==> first <= y < last + 1;
  }

  function Texts(ws: seq<Written>): seq<string> {
    seq(|ws|, i requires 0 <= i < |ws| => TextOf(ws[i]))
  }

  lemma WrittenWithout(w: Written)
    requires Spaced(w)
    ensures Without(TextOf(w), ',')
  {
    hide Decimal;
    match w
    case OneYear(_, year, _) => DecimalClean(year, ',');
    case YearRange(_, first, _, _, last, _) => DecimalClean(first, ','); DecimalClean(last, ',');
  }

  lemma {:induction false} YearsOfPieces(pieces: seq<string>, y: int)
    ensures y in AllYears(pieces) <==> exists i :: 0 <= i < |pieces| && y in PieceYears(Strip(pieces[i]))
  {
    hide PieceYears, Strip;
    if pieces != [] {
      var init := pieces[..|pieces| - 1];
      YearsOfPieces(init, y);
      assert forall i :: 0 <= i < |init| ==> pieces[i] == init[i];
    }
  }

  /** Whatever spaces stand around commas and dashes, a list of years and ranges of four-digit years is read as
      the years it names. */
  lemma SpacedDates(ws: seq<Written>, y: int)
    requires ws != [] && AllSpaced(ws)
    ensures y in AllYears(Split(Join(Texts(ws), ','), ',')) <==> exists i :: 0 <= i < |ws| && Meant(ws[i], y)
  {
    hide PieceYears, Strip, TextOf, Split, Join, AllYears, Spaced, Meant;
    var texts := Texts(ws);
    forall i | 0 <= i < |texts| ensures Without(texts[i], ',') { WrittenWithout(ws[i]); }
    SplitJoin(texts, ',');
    YearsOfPieces(texts, y);
    forall i | 0 <= i < |ws| ensures y in PieceYears(Strip(texts[i])) <==> Meant(ws[i], y) { WrittenReading(ws[i], y); }
  }

  lemma FirstExample()
    ensures TextOf(OneYear("", 2001, "")) == "2001"
  {
    assert Decimal(2001) == "2001";
    hide Decimal;
    assert "" + "2001" + "" == "2001";
  }

  lemma SecondExample()
    ensures TextOf(YearRange(" ", 2003, " ", " ", 2005, "")) == " 2003 - 2005"
  {
    assert Decimal(2003) == "2003" && Decimal(2005) == "2005";
    hide Decimal;
    assert "2003" + " " + "-" + " " + "2005" == "2003 - 2005";
    assert " " + "2003 - 2005" + "" == " 2003 - 2005";
  }

  lemma ExampleText(ws: seq<Written>)
    requires ws == [OneYear("", 2001, ""), YearRange(" ", 2003, " ", " ", 2005, "")]
    ensures Join(Texts(ws), ',') == "2001, 2003 - 2005"
  {
    FirstExample();
    SecondExample();
    hide TextOf, Join;
    var texts := Texts(ws);
    assert texts == ["2001"] + [" 2003 - 2005"];
    JoinSnoc(["2001"], " 2003 - 2005", ',');
    JoinOne("2001");
    assert "2001" + [','] + " 2003 - 2005" == "2001, 2003 - 2005";
  }

  lemma JoinOne(s: string)
    ensures Join([s], ',') == s
  {}

  lemma SpacedExample()
    ensures AllYears(Split("2001, 2003 - 2005", ',')) == {2001, 2003, 2004, 2005}
  {
    hide AllYears, Split, Join, Texts;
    var ws := [OneYear("", 2001, ""), YearRange(" ", 2003, " ", " ", 2005, "")];
    ExampleText(ws);
    var years := AllYears(Split("2001, 2003 - 2005", ','));
    forall y: int ensures y in years <==> y in {2001, 2003, 2004, 2005} {
      SpacedDates(ws, y);
      assert Meant(ws[0], y) <==> y == 2001;
      assert Meant(ws[1], y) <==> 2003 <= y <= 2005;
    }
  }
}
