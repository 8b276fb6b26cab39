/** The string operations that the scripts rely on: split, join, strip and decimal numbers.

    Numbers are those of Python 2: decimal digits, a sign before them, whitespace around them and, for
    `long`, a letter behind them.  Splitting undoes joining, and reading undoes printing. */
module Text {

  import opened Wrappers

  predicate IsSpace(c: char) {
    c == ' ' || c == '\t' || c == '\n' || c == '\r' || c == '\U{0B}' || c == '\U{0C}'
  }

  /** Whitespace removed from the front. */
  function StripLeft(s: string): (r: string)
    ensures |r| <= |s|
  {
    if s != [] && IsSpace(s[0]) then StripLeft(s[1..]) else s
  }

  function StripRight(s: string): (r: string)
    ensures |r| <= |s|
  {
    if s != [] && IsSpace(s[|s| - 1]) then StripRight(s[..|s| - 1]) else s
  }

  function Strip(s: string): string {
    StripRight(StripLeft(s))
  }

  predicate NoSpace(s: string) {
    forall i :: 0 <= i < |s| ==> !IsSpace(s[i])
  }

  lemma StripNothing(s: string)
    requires NoSpace(s)
    ensures Strip(s) == s && Strip(s + "\n") == s
  {
    var t := s + "\n";
    if s == [] {
      assert t[1..] == [];
    } else {
      assert t[0] == s[0] && StripLeft(t) == t;
    }
    assert t[..|t| - 1] == s;
  }

  predicate AllSpace(s: string) {
    forall i :: 0 <= i < |s| ==> s[i] in " \t\n\r\U{0B}\U{0C}"
  }

  lemma {:induction false} StripLeftSpaces(a: string, s: string)
    requires AllSpace(a) && (s == [] || !IsSpace(s[0]))
    ensures StripLeft(a + s) == s
  {
    if a == [] {
      assert a + s == s;
    } else {
      assert (a + s)[0] == a[0] && (a + s)[1..] == a[1..] + s;
      StripLeftSpaces(a[1..], s);
    }
  }

  lemma {:induction false} StripRightSpaces(s: string, b: string)
    requires AllSpace(b) && (s == [] || !IsSpace(s[|s| - 1]))
    ensures StripRight(s + b) == s
  {
    if b == [] {
      assert s + b == s;
    } else {
      assert (s + b)[|s + b| - 1] == b[|b| - 1] && (s + b)[..|s + b| - 1] == s + b[..|b| - 1];
      StripRightSpaces(s, b[..|b| - 1]);
    }
  }

  /** Stripping takes away all the whitespace around a text and nothing of the text. */
  lemma StripSpaces(a: string, s: string, b: string)
    requires AllSpace(a) && AllSpace(b) && s != [] && !IsSpace(s[0]) && !IsSpace(s[|s| - 1])
    ensures Strip(a + s + b) == s
  {
    assert a + s + b == a + (s + b);
    StripLeftSpaces(a, s + b);
    StripRightSpaces(s, b);
  }

  /** Cuts at every occurrence of the separator; never empty. */
  function Split(s: string, sep: char): (r: seq<string>)
    ensures |r| > 0
  {
    if s == [] then [""]
    else
      var r := Split(s[1..], sep);
      if s[0] == sep then [""] + r else [[s[0]] + r[0]] + r[1..]
  }

  function Join(parts: seq<string>, sep: char): string {
    if |parts| == 0 then "" else if |parts| == 1 then parts[0] else parts[0] + [sep] + Join(parts[1..], sep)
  }

  predicate Without(s: string, c: char) {
    forall i :: 0 <= i < |s| ==> s[i] != c
  }

  lemma {:induction false} SplitNone(s: string, sep: char)
    requires Without(s, sep)
    ensures Split(s, sep) == [s]
  {
    if s != [] {
      SplitNone(s[1..], sep);
      assert [s[0]] + s[1..] == s;
    }
  }

  lemma {:induction false} SplitFirst(a: string, b: string, sep: char)
    requires Without(a, sep)
    ensures Split(a + [sep] + b, sep) == [a] + Split(b, sep)
  {
    var s := a + [sep] + b;
    if a == [] {
      assert s[1..] == b;
    } else {
      SplitFirst(a[1..], b, sep);
      assert s[1..] == a[1..] + [sep] + b;
      assert [s[0]] + a[1..] == a;
    }
  }

  /** Splitting undoes joining when no part contains the separator. */
  lemma {:induction false} SplitJoin(parts: seq<string>, sep: char)
    requires |parts| > 0 && forall i :: 0 <= i < |parts| ==> Without(parts[i], sep)
    ensures Split(Join(parts, sep), sep) == parts
  {
    if |parts| == 1 {
      SplitNone(parts[0], sep);
    } else {
      SplitJoin(parts[1..], sep);
      SplitFirst(parts[0], Join(parts[1..], sep), sep);
    }
  }

  lemma {:induction false} JoinWithout(parts: seq<string>, sep: char, c: char)
    requires c != sep && forall i :: 0 <= i < |parts| ==> Without(parts[i], c)
    ensures Without(Join(parts, sep), c)
  {
    if |parts| > 1 { JoinWithout(parts[1..], sep, c); }
  }

  lemma {:induction false} JoinNoSpace(parts: seq<string>, sep: char)
    requires !IsSpace(sep) && forall i :: 0 <= i < |parts| ==> NoSpace(parts[i])
    ensures NoSpace(Join(parts, sep))
  {
    if |parts| > 1 { JoinNoSpace(parts[1..], sep); }
  }

  lemma {:induction false} JoinSnoc(parts: seq<string>, last: string, sep: char)
    requires |parts| > 0
    ensures Join(parts + [last], sep) == Join(parts, sep) + [sep] + last
  {
    if |parts| == 1 {
      assert (parts + [last])[1..] == [last];
    } else {
      JoinSnoc(parts[1..], last, sep);
      assert (parts + [last])[1..] == parts[1..] + [last];
    }
  }

  lemma JoinThree(a: string, b: string, c: string, sep: char)
    ensures Join([a, b, c], sep) == a + [sep] + b + [sep] + c
  {
    assert [a] + [b] == [a, b] && [a, b] + [c] == [a, b, c];
    JoinSnoc([a], b, sep);
    JoinSnoc([a, b], c, sep);
  }

  // ----- decimal numbers

  predicate IsDigit(c: char) {
    '0' <= c <= '9'
  }

  function DigitChar(d: nat): (c: char)
    requires d < 10
    ensures IsDigit(c) && c as int == '0' as int + d
  {
    ('0' as int + d) as char
  }

  function DigitValue(c: char): (d: nat)
    requires IsDigit(c)
    ensures d < 10
  {
    c as int - '0' as int
  }

  predicate AllDigits(s: string) {
    forall i :: 0 <= i < |s| ==> IsDigit(s[i])
  }

  /** The decimal digits of n. */
  function Decimal(n: nat): (s: string)
    ensures |s| > 0 && AllDigits(s)
  {
    if n < 10 then [DigitChar(n)] else Decimal(n / 10) + [DigitChar(n % 10)]
  }

  function DigitsValue(s: string): nat
    requires AllDigits(s)
  {
    if s == [] then 0 else 10 * DigitsValue(s[..|s| - 1]) + DigitValue(s[|s| - 1])
  }

  /** A plain decimal number. */
  function ParseNat(s: string): Option<nat> {
    if s != [] && AllDigits(s) then Some(DigitsValue(s)) else None
  }

  lemma {:induction false} DecimalValue(n: nat)
    ensures DigitsValue(Decimal(n)) == n
  {
    if n < 10 {
      assert Decimal(n)[..0] == [];
      assert DigitsValue([]) == 0;
    } else {
      DecimalValue(n / 10);
      assert Decimal(n)[..|Decimal(n)| - 1] == Decimal(n / 10);
    }
  }

  /** Each digit counts ten times the one behind it. */
  lemma DigitsPlaces(s: string, d: nat)
    requires AllDigits(s) && d < 10
    ensures DigitsValue(s + ["0123456789"[d]]) == 10 * DigitsValue(s) + d
  {
    var t := s + ["0123456789"[d]];
    assert t[..|t| - 1] == s;
  }

  lemma DecimalExample()
    ensures Decimal(2003) == "2003" && DigitsValue("2003") == 2003
  {
    DecimalValue(2003);
  }

  /** Reading a printed number gives the number. */
  lemma DecimalRoundTrip(n: nat)
    ensures ParseNat(Decimal(n)) == Some(n)
  {
    DecimalValue(n);
  }

  lemma DecimalClean(n: nat, c: char)
    requires !IsDigit(c)
    ensures Without(Decimal(n), c) && NoSpace(Decimal(n))
  {}

  /** Python's reading of a number: whitespace around, a sign, and for long numbers a suffix. */
  function ParseInt(s: string, suffix: bool): Option<int> {
    var t := Strip(s);
    var u := if suffix && t != [] && (t[|t| - 1] == 'l' || t[|t| - 1] == 'L') then t[..|t| - 1] else t;
    if u != [] && (u[0] == '-' || u[0] == '+') then
      match ParseNat(u[1..])
      case None => None
      case Some(n) => var v: int := n; Some(if u[0] == '-' then -v else v)
    else
      match ParseNat(u)
      case None => None
      case Some(n) => var v: int := n; Some(v)
  }

  /** What a number looks like: whitespace around it, a sign before it and, for long numbers, a letter behind. */
  lemma ParseIntReads(a: string, sign: string, n: int, letter: string, b: string, suffix: bool)
    requires 0 <= n && AllSpace(a) && AllSpace(b) && sign in ["", "-", "+"] && letter in ["", "l", "L"]
    ensures ParseInt(a + (sign + Decimal(n) + letter) + b, suffix)
         == if letter != "" && !suffix then None else Some(if sign == "-" then -n else n)
  {
    hide Decimal, Strip, DigitsValue;
    var d, t := Decimal(n), sign + Decimal(n) + letter;
    assert IsDigit(d[0]) && IsDigit(d[|d| - 1]);
    assert t[0] == if sign == "" then d[0] else sign[0];
    assert t[|t| - 1] == if letter == "" then d[|d| - 1] else letter[0];
    StripSpaces(a, t, b);
    DecimalRoundTrip(n);
    var u := if suffix && letter != "" then t[..|t| - 1] else t;
    assert suffix || letter == "" ==> u == sign + d;
    if sign != "" {
      assert u[1..] == if suffix || letter == "" then d else d + letter;
      if !suffix && letter != "" { NotDigits(d, letter); }
    } else {
      if !suffix && letter != "" { NotDigits(d, letter); assert t == d + letter; }
      else { assert u == d; }
    }
  }

  lemma NotDigits(d: string, letter: string)
    requires letter in ["l", "L"]
    ensures ParseNat(d + letter) == None
  {
    assert !IsDigit((d + letter)[|d|]);
  }

  /** The decimal form of any whole number. */
  function Numeral(n: int): (s: string)
    ensures s != []
  {
    if n < 0 then "-" + Decimal(-n) else Decimal(n)
  }

  /** Reading a printed number gives the number. */
  lemma NumeralRoundTrip(n: int, suffix: bool)
    ensures ParseInt(Numeral(n), suffix) == Some(n) && NoSpace(Numeral(n))
  {
    hide Decimal, Strip, ParseNat;
    var s, d := Numeral(n), Decimal(if n < 0 then -n else n);
    DecimalRoundTrip(if n < 0 then -n else n);
    DecimalClean(if n < 0 then -n else n, ',');
    assert ("-" + d)[1..] == d;
    assert !IsSpace('-');
    assert NoSpace(s);
    StripNothing(s);
    assert s[|s| - 1] == d[|d| - 1] && IsDigit(d[|d| - 1]) && IsDigit(d[0]);
  }

  lemma NumeralClean(n: int, c: char)
    requires !IsDigit(c) && c != '-'
    ensures Without(Numeral(n), c) && NoSpace(Numeral(n))
  {
    DecimalClean(if n < 0 then -n else n, c);
    assert !IsSpace('-');
  }
}
