/** The generator's formulas bit by bit and in numbers: the twist, the tempering, the recurrence with its two
    distances, and the order in which seeding from an array writes its words.  What they are is stated
    without the constants that the formulas contain. */
module TwisterBits {
  import opened MersenneTwister

  // ----- the twist

  /** Bit b of a word, counted from the least significant. */
  predicate Bit(x: bv32, b: nat)
    decreases b
  {
    if b == 0 then Odd(x) else Bit(Half(x), b - 1)
  }

  lemma BitStep(x: bv32, b: nat)
    ensures Bit(x, 0) <==> Odd(x)
    ensures Bit(x, b + 1) <==> Bit(Half(x), b)
  {
    hide Odd, Half;
  }

  lemma XorParts(x: bv32, y: bv32)
    ensures Half(Xor(x, y)) == Xor(Half(x), Half(y))
    ensures Odd(Xor(x, y)) <==> (Odd(x) != Odd(y))
  {}

  lemma {:induction false} XorBit(x: bv32, y: bv32, b: nat)
    ensures Bit(Xor(x, y), b) <==> (Bit(x, b) != Bit(y, b))
    decreases b
  {
    hide *;
    XorParts(x, y);
    if b == 0 {
      BitStep(x, 0);
      BitStep(y, 0);
      BitStep(Xor(x, y), 0);
    } else {
      BitStep(x, b - 1);
      BitStep(y, b - 1);
      BitStep(Xor(x, y), b - 1);
      XorBit(Half(x), Half(y), b - 1);
    }
  }

  lemma AndParts(x: bv32, y: bv32)
    ensures Half(And(x, y)) == And(Half(x), Half(y))
    ensures Odd(And(x, y)) <==> Odd(x) && Odd(y)
  {}

  lemma {:induction false} AndBit(x: bv32, y: bv32, b: nat)
    ensures Bit(And(x, y), b) <==> Bit(x, b) && Bit(y, b)
    decreases b
  {
    hide *;
    AndParts(x, y);
    if b == 0 {
      BitStep(x, 0);
      BitStep(y, 0);
      BitStep(And(x, y), 0);
    } else {
      BitStep(x, b - 1);
      BitStep(y, b - 1);
      BitStep(And(x, y), b - 1);
      AndBit(Half(x), Half(y), b - 1);
    }
  }

  lemma OrParts(x: bv32, y: bv32)
    ensures Half(Or(x, y)) == Or(Half(x), Half(y))
    ensures Odd(Or(x, y)) <==> Odd(x) || Odd(y)
  {}

  lemma {:induction false} OrBit(x: bv32, y: bv32, b: nat)
    ensures Bit(Or(x, y), b) <==> Bit(x, b) || Bit(y, b)
    decreases b
  {
    hide *;
    OrParts(x, y);
    if b == 0 {
      BitStep(x, 0);
      BitStep(y, 0);
      BitStep(Or(x, y), 0);
    } else {
      BitStep(x, b - 1);
      BitStep(y, b - 1);
      BitStep(Or(x, y), b - 1);
      OrBit(Half(x), Half(y), b - 1);
    }
  }

  /** The lowest four bits of x, and the rest of them, which are those of y. */
  lemma Nibble(x: bv32, y: bv32, b: int)
    requires y == Half(Half(Half(Half(x))))
    ensures b == 0 ==> (Bit(x, b) <==> Odd(x))
    ensures b == 1 ==> (Bit(x, b) <==> Odd(Half(x)))
    ensures b == 2 ==> (Bit(x, b) <==> Odd(Half(Half(x))))
    ensures b == 3 ==> (Bit(x, b) <==> Odd(Half(Half(Half(x)))))
    ensures 4 <= b ==> (Bit(x, b) <==> Bit(y, b - 4))
  {
    hide *;
    BitStep(x, if 1 <= b then b - 1 else 0);
    BitStep(Half(x), if 2 <= b then b - 2 else 0);
    BitStep(Half(Half(x)), if 3 <= b then b - 3 else 0);
    BitStep(Half(Half(Half(x))), if 4 <= b then b - 4 else 0);
  }

  lemma TapBits(b: nat)
    requires b < 32
    ensures Bit(0x9908_b0df, b) <==> b in [0, 1, 2, 3, 4, 6, 7, 12, 13, 15, 19, 24, 27, 28, 31]
  {
    hide Bit;
    Nibble(0x9908_b0df, 0x0990_8b0d, b);
    Nibble(0x0990_8b0d, 0x0099_08b0, b - 4);
    Nibble(0x0099_08b0, 0x0009_908b, b - 8);
    Nibble(0x0009_908b, 0x0000_9908, b - 12);
    Nibble(0x0000_9908, 0x0000_0990, b - 16);
    Nibble(0x0000_0990, 0x0000_0099, b - 20);
    Nibble(0x0000_0099, 0x0000_0009, b - 24);
    Nibble(0x0000_0009, 0x0000_0000, b - 28);
  }

  lemma LowMaskBits(b: nat)
    requires b < 32
    ensures Bit(0x7fff_ffff, b) <==> b < 31
  {
    hide Bit;
    Nibble(0x7fff_ffff, 0x07ff_ffff, b);
    Nibble(0x07ff_ffff, 0x007f_ffff, b - 4);
    Nibble(0x007f_ffff, 0x0007_ffff, b - 8);
    Nibble(0x0007_ffff, 0x0000_7fff, b - 12);
    Nibble(0x0000_7fff, 0x0000_07ff, b - 16);
    Nibble(0x0000_07ff, 0x0000_007f, b - 20);
    Nibble(0x0000_007f, 0x0000_0007, b - 24);
    Nibble(0x0000_0007, 0x0000_0000, b - 28);
  }

  lemma TopMaskBits(b: nat)
    requires b < 32
    ensures Bit(0x8000_0000, b) <==> b == 31
  {
    hide Bit;
    Nibble(0x8000_0000, 0x0800_0000, b);
    Nibble(0x0800_0000, 0x0080_0000, b - 4);
    Nibble(0x0080_0000, 0x0008_0000, b - 8);
    Nibble(0x0008_0000, 0x0000_8000, b - 12);
    Nibble(0x0000_8000, 0x0000_0800, b - 16);
    Nibble(0x0000_0800, 0x0000_0080, b - 20);
    Nibble(0x0000_0080, 0x0000_0008, b - 24);
    Nibble(0x0000_0008, 0x0000_0000, b - 28);
  }

  lemma ZeroBits(b: nat)
    requires b < 32
    ensures Bit(0x0000_0000, b) <==> false
  {
    hide Bit;
    Nibble(0x0000_0000, 0x0000_0000, b);
    Nibble(0x0000_0000, 0x0000_0000, b - 4);
    Nibble(0x0000_0000, 0x0000_0000, b - 8);
    Nibble(0x0000_0000, 0x0000_0000, b - 12);
    Nibble(0x0000_0000, 0x0000_0000, b - 16);
    Nibble(0x0000_0000, 0x0000_0000, b - 20);
    Nibble(0x0000_0000, 0x0000_0000, b - 24);
    Nibble(0x0000_0000, 0x0000_0000, b - 28);
  }

  lemma JoinedBit(u: bv32, v: bv32, b: nat)
    requires b < 32
    ensures Bit(Joined(u, v), b) <==> if b < 31 then Bit(v, b) else Bit(u, 31)
  {
    hide *;
    JoinedUnfold(u, v);
    OrBit(And(u, 0x8000_0000), And(v, 0x7fff_ffff), b);
    AndBit(u, 0x8000_0000, b);
    AndBit(v, 0x7fff_ffff, b);
    TopMaskBits(b);
    LowMaskBits(b);
  }

  lemma JoinedUnfold(u: bv32, v: bv32)
    ensures Joined(u, v) == Or(And(u, 0x8000_0000), And(v, 0x7fff_ffff))
  {
    hide Or, And;
  }

  lemma FeedbackUnfold(y: bv32)
    ensures Feedback(y) == if Odd(y) then 0x9908_b0df else 0
  {
    hide Odd;
  }

  lemma TwistUnfold(m: bv32, s0: bv32, s1: bv32)
    ensures TwistSpec(m, s0, s1) == Xor(Xor(m, Half(Joined(s0, s1))), Feedback(Joined(s0, s1)))
  {
    hide Xor, Half, Joined, Feedback;
  }

  /** No bits beyond the 32. */
  lemma HalfEnds(x: bv32)
    ensures !Bit(Half(x), 31)
  {
    hide *;
    HalfMasked(x);
    AndBit(Half(x), 0x7fff_ffff, 31);
    LowMaskBits(31);
  }

  lemma HalfMasked(x: bv32)
    ensures Half(x) == And(Half(x), 0x7fff_ffff)
  {}

  /** Bit b of the twisted word: the same bit of the first word, bit b + 1 of the third or the top bit of the
      second, and, if the third word is odd, a one at each of fifteen places. */
  lemma TwistBit(m: bv32, s0: bv32, s1: bv32, b: nat)
    requires b < 32
    ensures Bit(TwistSpec(m, s0, s1), b)
       <==> (Bit(m, b) != ((if b < 30 then Bit(s1, b + 1) else b == 30 && Bit(s0, 31)) !=
                           (Bit(s1, 0) && b in [0, 1, 2, 3, 4, 6, 7, 12, 13, 15, 19, 24, 27, 28, 31])))
  {
    hide *;
    var y := Joined(s0, s1);
    TwistUnfold(m, s0, s1);
    XorBit(Xor(m, Half(y)), Feedback(y), b);
    XorBit(m, Half(y), b);
    BitStep(y, b);
    FeedbackUnfold(y);
    TapBits(b);
    ZeroBits(b);
    JoinedBit(s0, s1, 0);
    if b < 31 { JoinedBit(s0, s1, b + 1); } else { HalfEnds(y); }
  }

  // ----- the tempering

  /** The numbers drawn from the 32 words with a single bit. */
  lemma TemperUnits()
    ensures Temper(0x0000_0001) == 0x0040_0091 && Temper(0x0000_0002) == 0x0000_0002 && Temper(0x0000_0004) == 0x0102_0244 && Temper(0x0000_0008) == 0x0204_0489
    ensures Temper(0x0000_0010) == 0x0000_0010 && Temper(0x0000_0020) == 0x0800_1220 && Temper(0x0000_0040) == 0x0000_0040 && Temper(0x0000_0080) == 0x2040_4890
    ensures Temper(0x0000_0100) == 0x0080_0120 && Temper(0x0000_0200) == 0x0100_0240 && Temper(0x0000_0400) == 0x0200_0480 && Temper(0x0000_0800) == 0x0444_0990
    ensures Temper(0x0000_1000) == 0x0808_1200 && Temper(0x0000_2000) == 0x0102_2244 && Temper(0x0000_4000) == 0x2224_4c81 && Temper(0x0000_8000) == 0x4000_9010
    ensures Temper(0x0001_0000) == 0x8801_3220 && Temper(0x0002_0000) == 0x0102_0000 && Temper(0x0004_0000) == 0x2044_4891 && Temper(0x0008_0000) == 0x0488_0022
    ensures Temper(0x0010_0000) == 0x0910_0044 && Temper(0x0020_0000) == 0x1220_0088 && Temper(0x0040_0000) == 0x0444_0911 && Temper(0x0080_0000) == 0x0888_1222
    ensures Temper(0x0100_0000) == 0x8100_0040 && Temper(0x0200_0000) == 0x2220_4888 && Temper(0x0400_0000) == 0x4400_9100 && Temper(0x0800_0000) == 0x8801_2200
    ensures Temper(0x1000_0000) == 0x1102_0440 && Temper(0x2000_0000) == 0x2004_0801 && Temper(0x4000_0000) == 0x4408_1102 && Temper(0x8000_0000) == 0x8810_2204
  {}


  // ----- the recurrence

  /** Each word comes from the words 624, 623 and 227 places before it. */
  lemma Recurrence(x: seq<bv32>, k: nat)
    requires |x| == 624
    ensures Term(x, k + 624) == TwistSpec(Term(x, k + 397), Term(x, k), Term(x, k + 1))
  {
    hide TwistSpec;
  }

  // ----- seeding

  /** One step of each seeding loop in numbers, and the 32 bits of a wide seed. */
  lemma SeedingSteps()
    ensures Low(0x5_ffff_fffe) == 0xffff_fffe
    ensures InitNext(5489, 1) == 1301868182 && InitNext(1301868182, 2) == 2938499221
    ensures InitNext(0xc000_0001, 7) == 2551124689
    ensures KeyNext(0x8000_0005, 0xc000_0001, 0x100, 3) == 1077071138
    ensures IndexNext(0x8000_0005, 0xc000_0001, 3) == 4205909708
  {}

  lemma FirstKeyWords()
    ensures InitNext(19650218, 1) == 2194844435 && InitNext(2194844435, 2) == 874550967
  {}

  /** The words from one seed: each from the one before it. */
  lemma {:induction false} InitWordsAt(seed: bv32, n: nat, i: nat)
    requires i < n < 0x8000_0000
    ensures InitWords(seed, n)[i] == if i == 0 then seed else InitNext(InitWords(seed, n)[i - 1], Index32(i))
    decreases n
  {
    hide InitNext, Index32;
    if 1 < n {
      if i < n - 1 { InitWordsAt(seed, n - 1, i); }
    }
  }

  /** The number of passes of the first loop. */
  function Passes(keyLength: nat): nat {
    if 624 > keyLength then 624 else keyLength
  }

  /** The words of array seeding in the order in which they are written: 624 from the fixed seed, then one for each
      pass of the first loop, then those of the second.  Each comes from the word 623 places before it and the
      latest one; the very first pass looks at word 0 instead. */
  ghost function KeyTerm(key: seq<bv32>, n: nat): bv32
    requires 0 < |key| < 0x8000_0000
  {
    if n < 624 then InitWords(19650218, 624)[n]
    else
      var before := KeyTerm(key, n - 623);
      var last := KeyTerm(key, if n == 624 then 0 else n - 1);
      if n < 624 + Passes(|key|) then KeyNext(before, last, key[(n - 624) % |key|], Index32((n - 624) % |key|))
      else IndexNext(before, last, Index32(1 + (n - 624) % 623))
  }

  /** The words after d == 623 * r + c passes. */
  ghost predicate Trail(s: Mixing, key: seq<bv32>, r: nat, c: nat)
    requires 0 < |key| < 0x8000_0000
  {
    && |s.words| == 624 && c < 623 && s.i == 1 + c
    && s.words[0] == KeyTerm(key, if r == 0 then 0 else 623 * r + 623)
    && (forall i :: 1 <= i <= c ==> s.words[i] == KeyTerm(key, 623 * r + 623 + i))
    && (forall i :: c < i < 624 ==> s.words[i] == KeyTerm(key, 623 * r + i))
  }

  lemma TrailStep(s: Mixing, t: Mixing, key: seq<bv32>, r: nat, c: nat, w: bv32, j: nat)
    requires 0 < |key| < 0x8000_0000 && Trail(s, key, r, c)
    requires w == KeyTerm(key, 624 + (623 * r + c))
    requires t == WrapIndex(s.words[s.i := w], s.i + 1, j)
    ensures if c == 622 then Trail(t, key, r + 1, 0) else Trail(t, key, r, c + 1)
  {
    hide KeyTerm;
    assert 623 * (r + 1) == 623 * r + 623;
    assert 623 * r + 623 + (1 + c) == 624 + (623 * r + c);
    var words := s.words[1 + c := w];
    if c == 622 {
      assert t.words == words[0 := words[623]];
      forall i | 1 <= i < 624 ensures t.words[i] == KeyTerm(key, 623 * r + 623 + i) {}
    } else {
      assert t.words == words;
    }
  }

  lemma Rounds(r: nat, c: nat)
    requires c < 623
    ensures (623 * r + c) / 623 == r && (623 * r + c) % 623 == c
  {}

  lemma NextKeyIndex(d: nat, m: nat)
    requires 0 < m
    ensures (d + 1) % m == if d % m + 1 >= m then 0 else d % m + 1
  {
    var q := d / m;
    if d % m + 1 >= m {
      ModIs(d + 1, q + 1, 0, m);
    } else {
      ModIs(d + 1, q, d % m + 1, m);
    }
  }

  lemma ModIs(n: nat, q: nat, c: nat, m: nat)
    requires 0 < m && c < m && n == m * q + c
    ensures n % m == c
  {
    var a := n / m;
    Distribute(m, a, q);
    Distribute(m, q, a);
    if a < q { AtLeastOnce(m, q - a); }
    if q < a { AtLeastOnce(m, a - q); }
  }

  lemma Distribute(m: nat, a: nat, q: nat)
    ensures m * (a - q) == m * a - m * q
  {}

  lemma AtLeastOnce(m: nat, k: nat)
    requires 1 <= k
    ensures m <= m * k
  {}

  function Start(): (s: Mixing)
    ensures |s.words| == 624 && s.i == 1 && s.j == 0
  {
    Mixing(InitWords(19650218, 624), 1, 0)
  }

  lemma KeyTermFirst(key: seq<bv32>, d: nat)
    requires 0 < |key| < 0x8000_0000 && d < Passes(|key|)
    ensures KeyTerm(key, 624 + d)
         == KeyNext(KeyTerm(key, d + 1), KeyTerm(key, if d == 0 then 0 else 623 + d), key[d % |key|], Index32(d % |key|))
  {
    hide KeyNext, Index32;
  }

  lemma KeyTermSecond(key: seq<bv32>, d: nat)
    requires 0 < |key| < 0x8000_0000 && Passes(|key|) <= d
    ensures KeyTerm(key, 624 + d)
         == IndexNext(KeyTerm(key, d + 1), KeyTerm(key, if d == 0 then 0 else 623 + d), Index32(1 + d % 623))
  {
    hide IndexNext, Index32;
  }

  /** The two words that the next pass looks at. */
  lemma TrailReads(s: Mixing, key: seq<bv32>, r: nat, c: nat)
    requires 0 < |key| < 0x8000_0000 && Trail(s, key, r, c)
    ensures var d := 623 * r + c;
            && s.words[s.i] == KeyTerm(key, d + 1)
            && s.words[s.i - 1] == KeyTerm(key, if d == 0 then 0 else 623 + d)
  {
    hide KeyTerm;
    var d := 623 * r + c;
    assert 623 * r + (1 + c) == d + 1;
    if c != 0 { assert 623 * r + 623 + c == 623 + d; }
  }

  lemma KeyPass(s: Mixing, t: Mixing, key: seq<bv32>, r: nat, c: nat)
    requires 0 < |key| < 0x8000_0000 && Indexed(s, |key|) && t == MixKey(s, key)
    requires Trail(s, key, r, c) && 623 * r + c < Passes(|key|) && s.j == (623 * r + c) % |key|
    ensures if c == 622 then Trail(t, key, r + 1, 0) else Trail(t, key, r, c + 1)
    ensures t.j == (623 * r + c + 1) % |key|
  {
    hide KeyTerm, KeyNext, Index32, Trail, Passes;
    var d := 623 * r + c;
    TrailReads(s, key, r, c);
    KeyTermFirst(key, d);
    NextKeyIndex(d, |key|);
    TrailStep(s, t, key, r, c, KeyTerm(key, 624 + d), t.j);
  }

  /** The first loop writes the terms from 624 on. */
  lemma {:induction false} KeysTrail(key: seq<bv32>, r: nat, c: nat)
    requires 0 < |key| < 0x8000_0000 && c < 623 && 623 * r + c <= Passes(|key|)
    ensures var d := 623 * r + c;
            var s := MixKeys(Start(), key, d);
            Trail(s, key, r, c) && s.j == d % |key|
    decreases 623 * r + c
  {
    hide KeyTerm, KeyNext, InitWords, Index32, Start, Trail, MixKey;
    var d := 623 * r + c;
    if d == 0 {
      TrailStart(key);
    } else {
      var r', c' := if c == 0 then r - 1 else r, if c == 0 then 622 else c - 1;
      assert 623 * r' + c' == d - 1;
      KeysTrail(key, r', c');
      var s, t := MixKeys(Start(), key, d - 1), MixKeys(Start(), key, d);
      KeyPass(s, t, key, r', c');
    }
  }

  lemma TrailStart(key: seq<bv32>)
    requires 0 < |key| < 0x8000_0000
    ensures Trail(Start(), key, 0, 0) && 0 % |key| == 0
    ensures MixKeys(Start(), key, 0) == Start()
  {
    hide InitWords;
  }

  lemma IndexPass(s: Mixing, t: Mixing, key: seq<bv32>, r: nat, c: nat)
    requires 0 < |key| < 0x8000_0000 && Indexed(s, |key|) && t == MixIndex(s, |key|)
    requires Trail(s, key, r, c) && Passes(|key|) <= 623 * r + c
    ensures if c == 622 then Trail(t, key, r + 1, 0) else Trail(t, key, r, c + 1)
  {
    hide KeyTerm, IndexNext, Index32, Trail, Passes;
    var d := 623 * r + c;
    TrailReads(s, key, r, c);
    KeyTermSecond(key, d);
    TrailAt(s, key, r, c);
    Rounds(r, c);
    assert 1 + d % 623 == s.i;
    assert KeyTerm(key, 624 + d) == IndexNext(s.words[s.i], s.words[s.i - 1], Index32(s.i));
    TrailStep(s, t, key, r, c, KeyTerm(key, 624 + d), t.j);
  }

  lemma TrailAt(s: Mixing, key: seq<bv32>, r: nat, c: nat)
    requires 0 < |key| < 0x8000_0000 && Trail(s, key, r, c)
    ensures c < 623 && s.i == 1 + c
  {
    hide KeyTerm;
  }

  /** The second loop goes on from there. */
  lemma {:induction false} IndicesTrail(key: seq<bv32>, k: nat, r: nat, c: nat)
    requires 0 < |key| < 0x8000_0000 && c < 623 && 623 * r + c == Passes(|key|) + k
    ensures Trail(MixIndices(MixKeys(Start(), key, Passes(|key|)), |key|, k), key, r, c)
    decreases k
  {
    hide KeyTerm, IndexNext, InitWords, MixKeys, Index32, Start, Passes, Trail, MixIndex;
    var s1 := MixKeys(Start(), key, Passes(|key|));
    if k == 0 {
      KeysTrail(key, r, c);
    } else {
      var r', c' := if c == 0 then r - 1 else r, if c == 0 then 622 else c - 1;
      assert 623 * r' + c' == Passes(|key|) + k - 1;
      IndicesTrail(key, k - 1, r', c');
      IndexPass(MixIndices(s1, |key|, k - 1), MixIndices(s1, |key|, k), key, r', c');
    }
  }

  /** After 623 * r + c passes every word but the first is one of the last 623 terms. */
  lemma TrailHolds(s: Mixing, key: seq<bv32>, r: nat, c: nat, n: nat)
    requires 0 < |key| < 0x8000_0000 && Trail(s, key, r, c) && 1 <= r
    requires 623 * r + c + 1 <= n < 623 * r + c + 624 && 624 <= n
    ensures |s.words| == 624 && s.words[1 + (n - 624) % 623] == KeyTerm(key, n)
  {
    hide KeyTerm;
    var p, q := (n - 624) / 623, (n - 624) % 623;
    assert n == 624 + (623 * p + q);
    if q < c {
      assert p == r;
      assert n == 623 * r + 623 + (1 + q);
    } else {
      assert p + 1 == r;
      assert n == 623 * r + (1 + q);
    }
  }

  /** The words that seeding from an array leaves: a first word with its top bit set, and behind it the last 623
      terms, each where its number says. */
  lemma KeyWordsAreTerms(key: seq<bv32>, n: nat)
    requires 0 < |key| < 0x8000_0000
    requires 624 + Passes(|key|) <= n < 624 + Passes(|key|) + 623
    ensures KeyWords(key)[0] == 0x8000_0000
    ensures KeyWords(key)[1 + (n - 624) % 623] == KeyTerm(key, n)
  {
    hide KeyTerm, InitWords, MixKeys, MixIndices, Index32, Trail, Passes;
    var e := Passes(|key|) + 623;
    IndicesTrail(key, 623, e / 623, e % 623);
    TrailHolds(MixIndices(MixKeys(Start(), key, Passes(|key|)), |key|, 623), key, e / 623, e % 623, n);
    KeyWordsIs(key);
  }

  lemma KeyWordsIs(key: seq<bv32>)
    requires 0 < |key| < 0x8000_0000
    ensures KeyWords(key) == MixIndices(MixKeys(Start(), key, Passes(|key|)), |key|, 623).words[0 := 0x8000_0000]
  {
    hide InitWords, MixKeys, MixIndices;
  }
}
