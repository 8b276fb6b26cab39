/** Length-prefixed messages and the loops that write and read them.

    Lengths are base-128 varints (Protocol Buffers encoding guide, section "Base 128 Varints"), cut to
    32 bits by the reader.  What is written reads back, as long as no message is empty or longer than
    32 bits can say. */
module Framing {

  import opened Wrappers

  // ----- what the bytes mean

  /** Seven bits per byte, least significant group first; all bytes but the last are marked. */
  function Varint(value: nat): (s: seq<Byte>)
    ensures |s| > 0
  {
    if value < 128 then [value] else [128 + value % 128] + Varint(value / 128)
  }

  function Power128(n: nat): (p: nat)
    ensures p > 0
  {
    if n == 0 then 1 else 128 * Power128(n - 1)
  }

  function Power2(n: nat): (p: nat)
    ensures p > 0
  {
    if n == 0 then 1 else 2 * Power2(n - 1)
  }

  /** Bitwise or. */
  function Or(a: nat, b: nat): nat {
    if a == 0 then b
    else if b == 0 then a
    else 2 * Or(a / 2, b / 2) + if a % 2 == 1 || b % 2 == 1 then 1 else 0
  }

  /** The number held in the seven-bit groups of s. */
  function Groups(s: seq<Byte>): nat {
    if s == [] then 0 else s[0] % 128 + 128 * Groups(s[1..])
  }

  /** The number of marked bytes in front. */
  function Marked(s: seq<Byte>): (n: nat)
    ensures n <= |s|
    ensures forall i :: 0 <= i < n ==> s[i] >= 128
    ensures n < |s| ==> s[n] < 128
  {
    if s == [] || s[0] < 128 then 0 else 1 + Marked(s[1..])
  }

  /** The decoder's 32-bit result: the low 32 bits, with all higher bits set when the 64-bit value
      is negative. */
  function Narrow(raw: nat): int {
    if raw > 0x7fff_ffff_ffff_ffff then raw % 0x1_0000_0000 - 0x1_0000_0000 else raw % 0x1_0000_0000
  }

  const MAX_BYTES: nat := 10

  datatype Size = Size(value: int) | TooManyBytes

  /** What decoding a varint from s gives, and how many bytes it takes. */
  function ReadVarint(s: seq<Byte>): (r: (Size, nat))
    ensures r.1 <= |s|
  {
    var n := Marked(s);
    if n < |s| && n < MAX_BYTES then (Size(Narrow(Groups(s[..n + 1]))), n + 1)
    else if MAX_BYTES <= |s| then (TooManyBytes, MAX_BYTES)
    else (Size(0), |s|)
  }

  lemma {:induction false} VarintGroups(value: nat)
    ensures Groups(Varint(value)) == value
  {
    if 128 <= value {
      VarintGroups(value / 128);
      assert Varint(value)[1..] == Varint(value / 128);
    } else {
      assert Varint(value)[1..] == [];
    }
  }

  lemma {:induction false} VarintMarked(value: nat, rest: seq<Byte>)
    ensures Marked(Varint(value) + rest) == |Varint(value)| - 1
  {
    if 128 <= value {
      VarintMarked(value / 128, rest);
      assert (Varint(value) + rest)[1..] == Varint(value / 128) + rest;
    }
  }

  lemma {:induction false} VarintLength(value: nat, n: nat)
    requires value < Power128(n) && 0 < n
    ensures |Varint(value)| <= n
  {
    if 128 <= value {
      assert Power128(n) == 128 * Power128(n - 1);
      VarintLength(value / 128, n - 1);
    }
  }

  lemma TenBytesHold64Bits()
    ensures 0x1_0000_0000_0000_0000 <= Power128(MAX_BYTES)
  {
    assert Power128(2) == 128 * 128 by { assert Power128(1) == 128; }
    assert Power128(4) == 128 * (128 * Power128(2)) by { assert Power128(3) == 128 * Power128(2); }
    assert Power128(6) == 128 * (128 * Power128(4)) by { assert Power128(5) == 128 * Power128(4); }
    assert Power128(8) == 128 * (128 * Power128(6)) by { assert Power128(7) == 128 * Power128(6); }
    assert Power128(10) == 128 * (128 * Power128(8)) by { assert Power128(9) == 128 * Power128(8); }
  }

  /** Decoding takes exactly the bytes of the varint and returns the value modulo 2^32. */
  lemma VarintRoundTrip(value: nat, rest: seq<Byte>)
    requires value <= 0x7fff_ffff_ffff_ffff
    ensures ReadVarint(Varint(value) + rest) == (Size(value % 0x1_0000_0000), |Varint(value)|)
  {
    var s := Varint(value) + rest;
    VarintMarked(value, rest);
    VarintGroups(value);
    TenBytesHold64Bits();
    VarintLength(value, MAX_BYTES);
    assert s[..|Varint(value)|] == Varint(value);
  }

  // ----- messages

  /** The bytes a positive size takes from what is left, or all of it when the size is negative. */
  function Take(s: seq<Byte>, size: int): nat {
    if size < 0 || |s| < size then |s| else size
  }

  /** What decodeMessage hands to the message parser, and how many bytes are gone afterwards. */
  function ReadMessage(s: seq<Byte>): (r: (Option<seq<Byte>>, nat))
    ensures r.1 <= |s|
    ensures r.0.Some? ==> 0 < r.1
  {
    var (size, used) := ReadVarint(s);
    if size.TooManyBytes? || size.value == 0 then (None, used)
    else
      var rest := s[used..];
      (Some(rest[..Take(rest, size.value)]), used + Take(rest, size.value))
  }

  function ReadAll(s: seq<Byte>): seq<seq<Byte>>
    decreases |s|
  {
    var (msg, used) := ReadMessage(s);
    if msg.None? then [] else [msg.value] + ReadAll(s[used..])
  }

  function Frame(msg: seq<Byte>): seq<Byte> {
    Varint(|msg|) + msg
  }

  function Frames(msgs: seq<seq<Byte>>): seq<Byte> {
    if msgs == [] then [] else Frame(msgs[0]) + Frames(msgs[1..])
  }

  /** One framed message in front of anything: the payload comes back when its length is non-zero in
      32 bits, cut to that length. */
  lemma ReadFrame(msg: seq<Byte>, rest: seq<Byte>)
    requires |msg| <= 0x7fff_ffff_ffff_ffff
    ensures var size := |msg| % 0x1_0000_0000;
            ReadMessage(Frame(msg) + rest) ==
            if size == 0 then (None, |Varint(|msg|)|) else (Some(msg[..size]), |Varint(|msg|)| + size)
  {
    hide ReadMessage, ReadVarint, Varint, Frame;
    VarintRoundTrip(|msg|, msg + rest);
    Truncated(|msg|);
    ReadFrameOf(msg, rest, |msg| % 0x1_0000_0000);
  }

  lemma Truncated(n: nat)
    ensures 0 <= n % 0x1_0000_0000 <= n
  {}

  lemma ReadFrameOf(msg: seq<Byte>, rest: seq<Byte>, size: nat)
    requires size <= |msg| && ReadVarint(Varint(|msg|) + (msg + rest)) == (Size(size), |Varint(|msg|)|)
    ensures ReadMessage(Frame(msg) + rest) ==
            if size == 0 then (None, |Varint(|msg|)|) else (Some(msg[..size]), |Varint(|msg|)| + size)
  {
    hide ReadVarint, Varint;
    var s, v := Frame(msg) + rest, Varint(|msg|);
    assert s == v + (msg + rest);
    assert s[|v|..] == msg + rest;
    assert (msg + rest)[..size] == msg[..size];
  }

  lemma GoodFirst(m: seq<Byte>, rest: seq<Byte>)
    requires 0 < |m| < 0x1_0000_0000
    ensures ReadAll(Frame(m) + rest) == [m] + ReadAll(rest)
  {
    hide ReadAll, ReadMessage, Varint;
    ReadFrame(m, rest);
    ReadAllUnfold(Frame(m) + rest);
    assert |m| % 0x1_0000_0000 == |m| && m[..|m|] == m;
    assert |Frame(m)| == |Varint(|m|)| + |m|;
    assert (Frame(m) + rest)[|Frame(m)|..] == rest;
  }

  lemma BadFirst(m: seq<Byte>, rest: seq<Byte>)
    requires |m| <= 0x7fff_ffff_ffff_ffff && !(0 < |m| < 0x1_0000_0000)
    ensures ReadAll(Frame(m) + rest) == [] || ReadAll(Frame(m) + rest)[0] != m
  {
    hide ReadAll, ReadMessage, Varint;
    ReadFrame(m, rest);
    ReadAllUnfold(Frame(m) + rest);
    var size := |m| % 0x1_0000_0000;
    if size != 0 { assert |m[..size]| < |m|; }
  }

  /** Reading back everything that was written gives the same list of messages if and only if every
      message is non-empty and shorter than 2^32 bytes. */
  lemma {:induction false} FramesRoundTrip(msgs: seq<seq<Byte>>)
    requires forall i :: 0 <= i < |msgs| ==> |msgs[i]| <= 0x7fff_ffff_ffff_ffff
    ensures ReadAll(Frames(msgs)) == msgs
            <==> forall i :: 0 <= i < |msgs| ==> 0 < |msgs[i]| < 0x1_0000_0000
    decreases |msgs|
  {
    hide *;
    if msgs == [] {
      ReadNothing();
      FramesCons(msgs);
    } else {
      var m, ms := msgs[0], msgs[1..];
      FramesCons(msgs);
      assert msgs == [m] + ms;
      if 0 < |m| < 0x1_0000_0000 {
        GoodFirst(m, Frames(ms));
        FramesRoundTrip(ms);
        SameTail(m, ReadAll(Frames(ms)), ms);
        assert forall i :: 0 <= i < |ms| ==> ms[i] == msgs[i + 1];
        assert forall i :: 1 <= i < |msgs| ==> msgs[i] == ms[i - 1];
      } else {
        BadFirst(m, Frames(ms));
      }
    }
  }

  lemma FramesCons(msgs: seq<seq<Byte>>)
    ensures Frames(msgs) == if msgs == [] then [] else Frame(msgs[0]) + Frames(msgs[1..])
  {}

  lemma ReadNothing()
    ensures ReadAll([]) == []
  {}

  lemma SameTail(m: seq<Byte>, a: seq<seq<Byte>>, b: seq<seq<Byte>>)
    ensures [m] + a == [m] + b <==> a == b
  {
    if [m] + a == [m] + b {
      assert a == ([m] + a)[1..];
      assert b == ([m] + b)[1..];
    }
  }

  // ----- the program's streams

  /** A file opened for reading: its bytes and the position of the next one. */
  class Source {
    const data: seq<Byte>
    var pos: nat

    constructor (data: seq<Byte>)
      ensures Valid() && this.data == data && pos == 0
    {
      this.data := data;
      pos := 0;
    }

    ghost predicate Valid()
      reads this
    {
      pos <= |data|
    }

    ghost function Rest(): seq<Byte>
      requires Valid()
      reads this
    {
      data[pos..]
    }

    /** read(n): up to n bytes, or everything for a negative n. */
    method Read(n: int) returns (buf: seq<Byte>)
      requires Valid()
      modifies this
      ensures Valid()
      ensures var k := Take(old(Rest()), n); buf == old(Rest())[..k] && Rest() == old(Rest())[k..]
    {
      var end := if n < 0 || |data| - pos < n then |data| else pos + n;
      buf := data[pos..end];
      pos := end;
    }

    method DecodeVarint32() returns (size: Size)
      requires Valid()
      modifies this
      ensures Valid()
      ensures var (r, used) := ReadVarint(old(Rest())); size == r && Rest() == old(Rest())[used..]
    {
      hide ReadVarint, Groups, Marked, Narrow, Power128, Power2, Or, Take;
      ghost var s := Rest();
      var result, shift, count := 0, 0, 0;
      VarintStart(s);
      while true
        invariant Valid() && count <= |s| && Rest() == s[count..]
        invariant shift == 7 * count && count < MAX_BYTES
        invariant forall i :: 0 <= i < count ==> s[i] >= 128
        invariant result == Groups(s[..count])
        decreases |s| - count
      {
        TakeOne(s, count);
        var c := Read(1);
        if |c| == 0 {
          StopsAtEnd(s);
          return Size(0);
        }
        var b := c[0];
        NextGroup(s, count);
        result := Or(result, b % 128 * Power2(shift));
        count := count + 1;
        if b < 128 {
          StopsAtUnmarked(s, count - 1);
          return Size(Narrow(result));
        }
        shift := shift + 7;
        if shift >= 64 {
          StopsAtLimit(s);
          return TooManyBytes;
        }
      }
    }

    method DecodeMessage() returns (msg: Option<seq<Byte>>)
      requires Valid()
      modifies this
      ensures Valid()
      ensures var (r, used) := ReadMessage(old(Rest())); msg == r && Rest() == old(Rest())[used..]
    {
      ghost var s := Rest();
      var size := DecodeVarint32();
      if size.TooManyBytes? || size.value == 0 {
        return None;
      }
      var buf := Read(size.value);
      msg := Some(buf);
    }

    /** The reading loop of the decoding script. */
    method DecodeAll() returns (msgs: seq<seq<Byte>>)
      requires Valid()
      modifies this
      ensures msgs == ReadAll(old(Rest()))
    {
      hide ReadAll, ReadMessage;
      msgs := [];
      ghost var s, before := Rest(), Rest();
      ReadAllUnfold(before);
      var msg := DecodeMessage();
      while msg.Some?
        invariant Valid()
        invariant msg == ReadMessage(before).0 && Rest() == before[ReadMessage(before).1..]
        invariant ReadAll(s) == msgs + ReadAll(before)
        decreases |before|
      {
        ReadAllUnfold(before);
        ghost var m, tail := msg.value, Rest();
        assert msgs + ([m] + ReadAll(tail)) == msgs + [m] + ReadAll(tail);
        msgs := msgs + [msg.value];
        before := tail;
        msg := DecodeMessage();
      }
      ReadAllUnfold(before);
      assert msgs + [] == msgs;
    }
  }

  lemma ReadAllUnfold(s: seq<Byte>)
    ensures ReadMessage(s).1 <= |s| && (ReadMessage(s).0.Some? ==> 0 < ReadMessage(s).1)
    ensures ReadAll(s) == if ReadMessage(s).0.None? then []
                          else [ReadMessage(s).0.value] + ReadAll(s[ReadMessage(s).1..])
  {}

  lemma VarintStart(s: seq<Byte>)
    ensures s[0..] == s && Groups(s[..0]) == 0
  {}

  lemma TakeOne(s: seq<Byte>, n: nat)
    requires n <= |s|
    ensures var k := Take(s[n..], 1);
            && s[n..][k..] == s[n + k..]
            && (n == |s| ==> k == 0)
            && (n < |s| ==> k == 1 && s[n..][..k] == [s[n]])
  {}

  /** The decoder's "or" puts the next group above all bits read so far. */
  lemma NextGroup(s: seq<Byte>, n: nat)
    requires n < |s|
    ensures Or(Groups(s[..n]), s[n] % 128 * Power2(7 * n)) == Groups(s[..n + 1])
  {
    hide *;
    GroupsSnoc(s, n);
    GroupsBound(s[..n]);
    Power128IsPower2(n);
    OrAbove(Groups(s[..n]), s[n] % 128, 7 * n);
  }

  lemma {:induction false} GroupsBound(s: seq<Byte>)
    ensures Groups(s) < Power128(|s|)
  {
    if s != [] { GroupsBound(s[1..]); }
  }

  lemma {:induction false} Power128IsPower2(n: nat)
    ensures Power128(n) == Power2(7 * n)
  {
    if n != 0 {
      Power128IsPower2(n - 1);
      var k := 7 * (n - 1);
      assert 7 * n == k + 7;
      SevenBits(k);
    }
  }

  lemma SevenBits(k: nat)
    ensures Power2(k + 7) == 128 * Power2(k)
  {
    assert Power2(k + 2) == 4 * Power2(k) by { assert Power2(k + 1) == 2 * Power2(k); }
    assert Power2(k + 4) == 4 * Power2(k + 2) by { assert Power2(k + 3) == 2 * Power2(k + 2); }
    assert Power2(k + 6) == 4 * Power2(k + 4) by { assert Power2(k + 5) == 2 * Power2(k + 4); }
  }

  lemma {:induction false} OrAbove(a: nat, g: nat, n: nat)
    requires a < Power2(n)
    ensures Or(a, g * Power2(n)) == a + g * Power2(n)
  {
    if n == 0 {
      assert a == 0 && g * 1 == g;
    } else if a != 0 && g * Power2(n) != 0 {
      Halves(g, Power2(n - 1));
      OrAbove(a / 2, g, n - 1);
      assert (g * Power2(n)) / 2 == g * Power2(n - 1) && (g * Power2(n)) % 2 == 0;
    }
  }

  predicate BitAt(n: nat, k: nat) {
    if k == 0 then n % 2 == 1 else BitAt(n / 2, k - 1)
  }

  lemma {:induction false} NoBit(k: nat)
    ensures !BitAt(0, k)
  {
    if k != 0 { NoBit(k - 1); }
  }

  /** A bit of the "or" is set if and only if it is set in one of the two numbers. */
  lemma {:induction false} OrBit(a: nat, b: nat, k: nat)
    ensures BitAt(Or(a, b), k) <==> BitAt(a, k) || BitAt(b, k)
    decreases k
  {
    NoBit(k);
    if a != 0 && b != 0 && k != 0 { OrBit(a / 2, b / 2, k - 1); }
  }

  lemma Halves(g: nat, p: nat)
    ensures g * (2 * p) == 2 * (g * p)
  {}

  lemma {:induction false} GroupsSnoc(s: seq<Byte>, n: nat)
    requires n < |s|
    ensures Groups(s[..n + 1]) == Groups(s[..n]) + s[n] % 128 * Power128(n)
    decreases n
  {
    hide Groups, Power128;
    if n == 0 {
      GroupsOne(s[0]);
      assert s[..1] == [s[0]] && s[..0] == [];
    } else {
      GroupsSnoc(s[1..], n - 1);
      GroupsCons(s[..n + 1]);
      GroupsCons(s[..n]);
      assert s[..n + 1][1..] == s[1..][..n] && s[..n][1..] == s[1..][..n - 1];
      PowerStep(s[n] % 128, n);
    }
  }

  lemma GroupsOne(b: Byte)
    ensures Groups([b]) == b % 128 && Groups([]) == 0 && Power128(0) == 1
  {
    assert [b][1..] == [];
  }

  lemma GroupsCons(s: seq<Byte>)
    requires s != []
    ensures Groups(s) == s[0] % 128 + 128 * Groups(s[1..])
  {}

  lemma PowerStep(g: nat, n: nat)
    requires n > 0
    ensures g * Power128(n) == 128 * (g * Power128(n - 1))
  {
    var p := Power128(n - 1);
    assert Power128(n) == 128 * p;
  }

  /** The first n bytes are marked, and then the input ends, n is the limit or an unmarked byte follows. */
  lemma {:induction false} MarkedAll(s: seq<Byte>, n: nat)
    requires n <= |s| && forall i :: 0 <= i < n ==> s[i] >= 128
    ensures n <= Marked(s)
    ensures n == |s| || s[n] < 128 ==> Marked(s) == n
  {
    if n != 0 { MarkedAll(s[1..], n - 1); }
  }

  lemma StopsAtEnd(s: seq<Byte>)
    requires |s| < MAX_BYTES && forall i :: 0 <= i < |s| ==> s[i] >= 128
    ensures ReadVarint(s) == (Size(0), |s|)
  {
    MarkedAll(s, |s|);
  }

  lemma StopsAtUnmarked(s: seq<Byte>, n: nat)
    requires n < MAX_BYTES && n < |s| && s[n] < 128 && forall i :: 0 <= i < n ==> s[i] >= 128
    ensures ReadVarint(s) == (Size(Narrow(Groups(s[..n + 1]))), n + 1)
  {
    MarkedAll(s, n);
  }

  lemma StopsAtLimit(s: seq<Byte>)
    requires MAX_BYTES <= |s| && forall i :: 0 <= i < MAX_BYTES ==> s[i] >= 128
    ensures ReadVarint(s) == (TooManyBytes, MAX_BYTES)
  {
    MarkedAll(s, MAX_BYTES);
  }

  /** A file opened for writing. */
  class Sink {
    var data: seq<Byte>

    constructor ()
      ensures data == []
    {
      data := [];
    }

    method EncodeVarint32(value0: nat)
      modifies this
      ensures data == old(data) + Varint(value0)
    {
      var bits, value := value0 % 128, value0 / 128;
      while value != 0
        invariant 0 <= bits < 128 && 0 <= value
        invariant data + Varint(value * 128 + bits) == old(data) + Varint(value0)
        decreases value
      {
        VarintStep(value, bits);
        data := data + [128 + bits];
        bits := value % 128;
        value := value / 128;
      }
      data := data + [bits];
    }

    method EncodeMessage(out: seq<Byte>)
      modifies this
      ensures data == old(data) + Frame(out)
    {
      EncodeVarint32(|out|);
      data := data + out;
    }
  }

  lemma VarintStep(value: nat, bits: nat)
    requires bits < 128 && value != 0
    ensures Varint(value * 128 + bits) == [128 + bits] + Varint(value)
    ensures value / 128 * 128 + value % 128 == value
  {
    assert (value * 128 + bits) % 128 == bits && (value * 128 + bits) / 128 == value;
  }

  // ----- the bytes in numbers

  /** Byte i of a varint: the i-th group of seven bits, marked unless it is the last. */
  lemma {:induction false} VarintByte(value: nat, i: nat)
    requires i < |Varint(value)|
    ensures Varint(value)[i] == (value / Power128(i)) % 128 + if i == |Varint(value)| - 1 then 0 else 128
    ensures i == |Varint(value)| - 1 ==> value / Power128(i) < 128
  {
    if 128 <= value && i != 0 {
      VarintByte(value / 128, i - 1);
      DivideTwice(value, Power128(i - 1));
    }
  }

  lemma DivideTwice(n: nat, b: nat)
    requires 0 < b
    ensures n / 128 / b == n / (128 * b)
  {
    var q, m := n / 128 / b, 128 * b;
    var c := 128 * (n / 128 % b) + n % 128;
    assert n / 128 == b * q + n / 128 % b;
    assert 128 * (b * q) == m * q;
    assert n == m * q + c && c < m;
    QuotientIs(n, m, q, c);
  }

  lemma QuotientIs(n: nat, m: nat, q: nat, c: nat)
    requires c < m && n == m * q + c
    ensures n / m == q
  {
    var a := n / m;
    assert n == m * a + n % m;
    if a < q { AtLeastOne(m, q - a); Spread(m, q, a); }
    if q < a { AtLeastOne(m, a - q); Spread(m, a, q); }
  }

  lemma AtLeastOne(m: nat, k: nat)
    requires 1 <= k
    ensures m <= m * k
  {}

  lemma Spread(m: nat, a: int, b: int)
    ensures m * (a - b) == m * a - m * b
  {}

  lemma VarintExample()
    ensures Varint(300) == [172, 2] && ReadVarint([172, 2, 7]) == (Size(300), 2)
  {
    assert Varint(300) + [7] == [172, 2, 7];
    VarintRoundTrip(300, [7]);
  }

  /** Ten marked bytes are too many; a varint that breaks off reads as zero. */
  lemma BadVarints(s: seq<Byte>)
    requires forall i :: 0 <= i < 10 && i < |s| ==> s[i] >= 128
    ensures ReadVarint(s) == if 10 <= |s| then (TooManyBytes, 10) else (Size(0), |s|)
  {
  }

  /** A length with the sign bit of 64 set is negative, and then the rest of the file is the message. */
  lemma NegativeLength(length: nat, rest: seq<Byte>)
    requires 0x8000_0000_0000_0000 <= length < 0x1_0000_0000_0000_0000
    ensures ReadVarint(Varint(length) + rest) == (Size(length % 4294967296 - 4294967296), |Varint(length)|)
    ensures ReadMessage(Varint(length) + rest) == (Some(rest), |Varint(length) + rest|)
  {
    hide Varint, Marked, Groups, Power128;
    var s := Varint(length) + rest;
    VarintMarked(length, rest);
    VarintGroups(length);
    TenBytesHold64Bits();
    VarintLength(length, 10);
    assert s[..|Varint(length)|] == Varint(length) && s[|Varint(length)|..] == rest;
    assert rest[..|rest|] == rest;
  }

  /** A message that breaks off is handed on as far as it goes. */
  lemma ShortMessage(length: nat, rest: seq<Byte>)
    requires |rest| < length < 0x1_0000_0000
    ensures ReadMessage(Varint(length) + rest) == (Some(rest), |Varint(length) + rest|)
  {
    hide Varint, ReadVarint;
    VarintRoundTrip(length, rest);
    assert (Varint(length) + rest)[|Varint(length)|..] == rest;
    assert rest[..|rest|] == rest;
  }
}
