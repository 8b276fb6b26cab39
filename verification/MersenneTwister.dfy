/** The random number generator on words that may be 64 bits wide, against the 32-bit recurrence of C++11
    section 26.5.3.2 [rand.eng.mers] with the mt19937 parameters: seeding from one number or from an array,
    the reload in place, the draws, saving and loading. */
module MersenneTwister {

  const N: nat := 624
  const M: nat := 397
  const SAVE: nat := 625

  // ----- the reference recurrence on 32-bit words

  function Xor(x: bv32, y: bv32): bv32 { x ^ y }
  function And(x: bv32, y: bv32): bv32 { x & y }
  function Or(x: bv32, y: bv32): bv32 { x | y }
  function Half(x: bv32): bv32 { x >> 1 }
  predicate Odd(x: bv32) { x & 1 == 1 }

  /** The top bit of u above the lower 31 bits of v. */
  function Joined(u: bv32, v: bv32): bv32 {
    Or(And(u, 0x8000_0000), And(v, 0x7fff_ffff))
  }

  function Feedback(y: bv32): bv32 {
    if Odd(y) then 0x9908_b0df else 0
  }

  /** X[i] from X[i-n+m], X[i-n] and X[i-n+1]. */
  function TwistSpec(m: bv32, s0: bv32, s1: bv32): bv32 {
    Xor(Xor(m, Half(Joined(s0, s1))), Feedback(Joined(s0, s1)))
  }

  function Temper(x: bv32): bv32 {
    Z4(Z3(Z2(Z1(x))))
  }

  function Z1(x: bv32): bv32 { x ^ ((x >> 11) & 0xffff_ffff) }
  function Z2(z: bv32): bv32 { z ^ ((z << 7) & 0x9d2c_5680) }
  function Z3(z: bv32): bv32 { z ^ ((z << 15) & 0xefc6_0000) }
  function Z4(z: bv32): bv32 { z ^ (z >> 18) }

  /** Term k of the sequence whose first N terms are x. */
  ghost function Term(x: seq<bv32>, k: nat): bv32
    requires |x| == N
  {
    if k < N then x[k] else TwistSpec(Term(x, k - N + M), Term(x, k - N), Term(x, k - N + 1))
  }

  ghost function Reloaded(x: seq<bv32>): (y: seq<bv32>)
    requires |x| == N
    ensures |y| == N && forall i :: 0 <= i < N ==> y[i] == Term(x, N + i)
  {
    seq(N, (i: nat) => Term(x, N + i))
  }

  lemma {:induction false} TermShift(x: seq<bv32>, k: nat)
    requires |x| == N
    ensures Term(Reloaded(x), k) == Term(x, N + k)
    decreases k
  {
    if N <= k {
      TermShift(x, k - N + M);
      TermShift(x, k - N);
      TermShift(x, k - N + 1);
      assert N + k - N + M == N + (k - N + M) && N + k - N == N + (k - N) && N + k - N + 1 == N + (k - N + 1);
    }
  }

  // ----- generators and the numbers they will ever produce

  datatype Gen = Gen(words: seq<bv32>, left: nat)

  predicate Good(g: Gen) {
    |g.words| == N && g.left <= N
  }

  /** The j-th number drawn from g, counting from 0. */
  ghost function Stream(g: Gen, j: nat): bv32
    requires Good(g)
  {
    Temper(Term(g.words, N - g.left + j))
  }

  /** The generator after one draw. */
  ghost function Next(g: Gen): (h: Gen)
    requires Good(g)
    ensures Good(h)
  {
    if g.left == 0 then Gen(Reloaded(g.words), N - 1) else g.(left := g.left - 1)
  }

  ghost function Skip(g: Gen, k: nat): (h: Gen)
    requires Good(g)
    ensures Good(h)
  {
    if k == 0 then g else Next(Skip(g, k - 1))
  }

  lemma NextStream(g: Gen, j: nat)
    requires Good(g)
    ensures Stream(Next(g), j) == Stream(g, j + 1)
  {
    if g.left == 0 { TermShift(g.words, 1 + j); }
  }

  /** However often the state is reloaded, draw k + j from g is draw j after k draws. */
  lemma {:induction false} SkipStream(g: Gen, k: nat, j: nat)
    requires Good(g)
    ensures Stream(Skip(g, k), j) == Stream(g, k + j)
    decreases k
  {
    if k != 0 {
      NextStream(Skip(g, k - 1), j);
      SkipStream(g, k - 1, j + 1);
    }
  }

  /** A freshly seeded generator starts its output at term N of the recurrence. */
  ghost function Seeded(words: seq<bv32>): (g: Gen)
    requires |words| == N
    ensures Good(g)
  {
    Gen(Reloaded(words), N)
  }

  lemma SeededOutput(words: seq<bv32>, k: nat)
    requires |words| == N
    ensures Stream(Skip(Seeded(words), k), 0) == Temper(Term(words, N + k))
  {
    SkipStream(Seeded(words), k, 0);
    TermShift(words, k);
  }

  // ----- seeding over 32-bit words

  function Index32(i: nat): bv32
    requires i < 0x8000_0000
  {
    i as bv32
  }

  function InitNext(prev: bv32, i: bv32): bv32 {
    1812433253 * (prev ^ (prev >> 30)) + i
  }

  function KeyNext(s: bv32, prev: bv32, key: bv32, j: bv32): bv32 {
    (s ^ ((prev ^ (prev >> 30)) * 1664525)) + (key + j)
  }

  function IndexNext(s: bv32, prev: bv32, i: bv32): bv32 {
    (s ^ ((prev ^ (prev >> 30)) * 1566083941)) - i
  }

  /** The first n words from a single seed. */
  function InitWords(seed: bv32, n: nat): (r: seq<bv32>)
    requires n < 0x8000_0000
    ensures |r| == n
  {
    if n == 0 then []
    else if n == 1 then [seed]
    else var r := InitWords(seed, n - 1); r + [InitNext(r[n - 2], Index32(n - 1))]
  }

  /** A state of the array-seeding loops: the words and the two indices. */
  datatype Mixing = Mixing(words: seq<bv32>, i: nat, j: nat)

  predicate Indexed(s: Mixing, keyLength: nat) {
    |s.words| == N && 1 <= s.i < N && s.j < keyLength
  }

  function WrapIndex(words: seq<bv32>, i: nat, j: nat): Mixing
    requires |words| == N && i <= N
  {
    if i == N then Mixing(words[0 := words[N - 1]], 1, j) else Mixing(words, i, j)
  }

  function MixKey(s: Mixing, key: seq<bv32>): (t: Mixing)
    requires |key| < 0x8000_0000 && Indexed(s, |key|)
    ensures Indexed(t, |key|)
  {
    var w := KeyNext(s.words[s.i], s.words[s.i - 1], key[s.j], Index32(s.j));
    WrapIndex(s.words[s.i := w], s.i + 1, if s.j + 1 >= |key| then 0 else s.j + 1)
  }

  function MixIndex(s: Mixing, keyLength: nat): (t: Mixing)
    requires Indexed(s, keyLength)
    ensures Indexed(t, keyLength)
  {
    var w := IndexNext(s.words[s.i], s.words[s.i - 1], Index32(s.i));
    WrapIndex(s.words[s.i := w], s.i + 1, s.j)
  }

  function MixKeys(s: Mixing, key: seq<bv32>, k: nat): (t: Mixing)
    requires |key| < 0x8000_0000 && Indexed(s, |key|)
    ensures Indexed(t, |key|)
  {
    if k == 0 then s else MixKey(MixKeys(s, key, k - 1), key)
  }

  function MixIndices(s: Mixing, keyLength: nat, k: nat): (t: Mixing)
    requires Indexed(s, keyLength)
    ensures Indexed(t, keyLength)
  {
    if k == 0 then s else MixIndex(MixIndices(s, keyLength, k - 1), keyLength)
  }

  /** The state words that array seeding produces in 32-bit arithmetic. */
  function KeyWords(key: seq<bv32>): (r: seq<bv32>)
    requires 0 < |key| < 0x8000_0000
    ensures |r| == N
  {
    var s0 := Mixing(InitWords(19650218, N), 1, 0);
    var s1 := MixKeys(s0, key, if N > |key| then N else |key|);
    MixIndices(s1, |key|, N - 1).words[0 := 0x8000_0000]
  }

  // ----- 64-bit words that hold 32-bit values

  function W(x: bv32): bv64 {
    x as bv64
  }

  function Low(x: bv64): bv32 {
    (x & 0xffff_ffff) as bv32
  }

  lemma ConvertIndex(i: nat)
    requires i < 0x8000_0000
    ensures i as bv64 == (i as bv32) as bv64
  {}

  /** An array index in the generator's unsigned type. */
  function Index64(i: nat): bv64
    requires i < 0x8000_0000
  {
    i as bv64
  }

  lemma IndexWide64(i: nat)
    requires i < 0x8000_0000
    ensures Index64(i) == W(Index32(i))
  {
    ConvertIndex(i);
  }

  function Mask(x: bv64): bv64 {
    x & 0xffff_ffff
  }

  function HiBit(u: bv64): bv64 { u & 0x8000_0000 }
  function LoBit(u: bv64): bv64 { u & 0x0000_0001 }
  function LoBits(u: bv64): bv64 { u & 0x7fff_ffff }
  function MixBits(u: bv64, v: bv64): bv64 { HiBit(u) | LoBits(v) }
  function Magic(u: bv64): bv64 { if LoBit(u) != 0 then 0x9908_b0df else 0 }
  function Twist(m: bv64, s0: bv64, s1: bv64): bv64 { m ^ (MixBits(s0, s1) >> 1) ^ Magic(s1) }

  lemma JoinedBits(u: bv32, v: bv32)
    ensures MixBits(u as bv64, v as bv64) == Joined(u, v) as bv64
  {}

  /** The low bit of the second word is the low bit of the joined one. */
  lemma MagicBits(u: bv32, v: bv32)
    ensures Magic(v as bv64) == Feedback(Joined(u, v)) as bv64
  {}

  lemma ShiftXorBits(m: bv32, y: bv32, a: bv32)
    ensures (m as bv64) ^ ((y as bv64) >> 1) ^ (a as bv64) == Xor(Xor(m, Half(y)), a) as bv64
  {}

  /** The twist on wide words is the 32-bit recurrence. */
  lemma TwistWide(m: bv32, s0: bv32, s1: bv32)
    ensures Twist(W(m), W(s0), W(s1)) == W(TwistSpec(m, s0, s1))
  {
    hide MixBits, Magic, Joined, Feedback, Xor, Half;
    JoinedBits(s0, s1);
    MagicBits(s0, s1);
    ShiftXorBits(m, Joined(s0, s1), Feedback(Joined(s0, s1)));
  }

  // the four assignments of randInt

  function Temper1(s1: bv64): bv64 { s1 ^ (s1 >> 11) }
  function Temper2(s1: bv64): bv64 { s1 ^ ((s1 << 7) & 0x9d2c_5680) }
  function Temper3(s1: bv64): bv64 { s1 ^ ((s1 << 15) & 0xefc6_0000) }
  function Temper4(s1: bv64): bv64 { s1 ^ (s1 >> 18) }

  lemma Shift1Bits(x: bv32)
    ensures Temper1(x as bv64)
         == (x ^ ((x >> 11) & 0xffff_ffff)) as bv64
  {}

  lemma Shift1Unfold(x: bv32)
    ensures Z1(x) == x ^ ((x >> 11) & 0xffff_ffff)
  {}

  /** Assignment 1 on a wide word. */
  lemma Shift1Wide(x: bv32)
    ensures Temper1(W(x)) == W(Z1(x))
  {
    hide Temper1, Z1;
    Shift1Bits(x);
    Shift1Unfold(x);
  }

  lemma Shift2Bits(x: bv32)
    ensures Temper2(x as bv64)
         == (x ^ ((x << 7) & 0x9d2c_5680)) as bv64
  {}

  lemma Shift2Unfold(x: bv32)
    ensures Z2(x) == x ^ ((x << 7) & 0x9d2c_5680)
  {}

  /** Assignment 2 on a wide word. */
  lemma Shift2Wide(x: bv32)
    ensures Temper2(W(x)) == W(Z2(x))
  {
    hide Temper2, Z2;
    Shift2Bits(x);
    Shift2Unfold(x);
  }

  lemma Shift3Bits(x: bv32)
    ensures Temper3(x as bv64)
         == (x ^ ((x << 15) & 0xefc6_0000)) as bv64
  {}

  lemma Shift3Unfold(x: bv32)
    ensures Z3(x) == x ^ ((x << 15) & 0xefc6_0000)
  {}

  /** Assignment 3 on a wide word. */
  lemma Shift3Wide(x: bv32)
    ensures Temper3(W(x)) == W(Z3(x))
  {
    hide Temper3, Z3;
    Shift3Bits(x);
    Shift3Unfold(x);
  }

  lemma Shift4Bits(x: bv32)
    ensures Temper4(x as bv64)
         == (x ^ (x >> 18)) as bv64
  {}

  lemma Shift4Unfold(x: bv32)
    ensures Z4(x) == x ^ (x >> 18)
  {}

  /** Assignment 4 on a wide word. */
  lemma Shift4Wide(x: bv32)
    ensures Temper4(W(x)) == W(Z4(x))
  {
    hide Temper4, Z4;
    Shift4Bits(x);
    Shift4Unfold(x);
  }

  /** Tempering a wide word is tempering its 32 bits. */
  lemma TemperWide(x: bv32)
    ensures Temper4(Temper3(Temper2(Temper1(W(x))))) == W(Temper(x))
  {
    TemperUnfold(x);
    hide *;
    Shift1Wide(x);
    Shift2Wide(Z1(x));
    Shift3Wide(Z2(Z1(x)));
    Shift4Wide(Z3(Z2(Z1(x))));
  }

  lemma TemperUnfold(x: bv32)
    ensures Temper(x) == Z4(Z3(Z2(Z1(x))))
  {
    hide Z1, Z2, Z3, Z4;
  }

  // the right-hand sides of the seeding loops

  function InitWord(prev: bv64, i: bv64): bv64 {
    (1812433253 * (prev ^ (prev >> 30)) + i) & 0xffff_ffff
  }

  function KeyWord(s: bv64, prev: bv64, maskedKey: bv64, j: bv64): bv64 {
    ((s ^ ((prev ^ (prev >> 30)) * 1664525)) + (maskedKey + j)) & 0xffff_ffff
  }

  function IndexWord(s: bv64, prev: bv64, i: bv64): bv64 {
    ((s ^ ((prev ^ (prev >> 30)) * 1566083941)) - i) & 0xffff_ffff
  }

  lemma InitBits(x: bv32, i: bv32)
    ensures InitWord(x as bv64, i as bv64)
         == (1812433253 * (x ^ (x >> 30)) + i) as bv64
  {}

  lemma InitUnfold(x: bv32, i: bv32)
    ensures InitNext(x, i) == 1812433253 * (x ^ (x >> 30)) + i
  {}

  /** The masked 64-bit product and sum agree with 32-bit arithmetic. */
  lemma InitWide(x: bv32, i: bv32)
    ensures InitWord(W(x), W(i)) == W(InitNext(x, i))
  {
    hide InitWord, InitNext;
    InitBits(x, i);
    InitUnfold(x, i);
  }

  lemma KeyBits(s: bv32, x: bv32, k: bv32, j: bv32)
    ensures KeyWord(s as bv64, x as bv64, k as bv64, j as bv64)
         == ((s ^ ((x ^ (x >> 30)) * 1664525)) + (k + j)) as bv64
  {}

  lemma KeyUnfold(s: bv32, x: bv32, k: bv32, j: bv32)
    ensures KeyNext(s, x, k, j) == (s ^ ((x ^ (x >> 30)) * 1664525)) + (k + j)
  {}

  /** Bits of the product above the lower 32 do not matter. */
  lemma KeyWide(s: bv32, x: bv32, k: bv32, j: bv32)
    ensures KeyWord(W(s), W(x), W(k), W(j)) == W(KeyNext(s, x, k, j))
  {
    hide KeyWord, KeyNext;
    KeyBits(s, x, k, j);
    KeyUnfold(s, x, k, j);
  }

  lemma LowBits(key: bv64)
    ensures key & 0xffff_ffff == ((key & 0xffff_ffff) as bv32) as bv64
  {}

  /** Bits of a key above the lower 32 are discarded. */
  lemma LowWide(key: bv64)
    ensures Mask(key) == W(Low(key))
  {
    LowBits(key);
  }

  lemma IndexMixBits(s: bv32, x: bv32, i: bv32)
    ensures IndexWord(s as bv64, x as bv64, i as bv64)
         == ((s ^ ((x ^ (x >> 30)) * 1566083941)) - i) as bv64
  {}

  lemma IndexUnfold(s: bv32, x: bv32, i: bv32)
    ensures IndexNext(s, x, i) == (s ^ ((x ^ (x >> 30)) * 1566083941)) - i
  {}

  /** A subtraction that wraps in 64 bits wraps alike in 32. */
  lemma IndexWide(s: bv32, x: bv32, i: bv32)
    ensures IndexWord(W(s), W(x), W(i)) == W(IndexNext(s, x, i))
  {
    hide IndexWord, IndexNext;
    IndexMixBits(s, x, i);
    IndexUnfold(s, x, i);
  }

  // ----- the generator object

  /** state[i] holds the 32-bit word x[i]. */
  ghost predicate Holds(state: array<bv64>, x: seq<bv32>)
    reads state
  {
    state.Length == |x| == N && forall i :: 0 <= i < N ==> state[i] == W(x[i])
  }

  /** The words during a reload: the first p are already the next ones. */
  ghost function Partly(x: seq<bv32>, p: nat): (y: seq<bv32>)
    requires |x| == N && p <= N
    ensures |y| == N
    ensures forall i :: 0 <= i < p ==> y[i] == Term(x, N + i)
    ensures forall i :: p <= i < N ==> y[i] == x[i]
  {
    Reloaded(x)[..p] + x[p..]
  }

  /** One assignment of the reload, for each of its three loops' operands. */
  lemma PartlyStep(x: seq<bv32>, p: nat)
    requires |x| == N && p < N
    ensures var y := Partly(x, p);
            var m := if p < N - M then y[p + M] else y[p + M - N];
            var s1 := if p + 1 < N then y[p + 1] else y[0];
            y[p := TwistSpec(m, y[p], s1)] == Partly(x, p + 1)
  {
    hide TwistSpec;
    var y := Partly(x, p);
    assert N + p - N + M == p + M && N + p - N == p && N + p - N + 1 == p + 1;
    assert Term(x, N + p) == TwistSpec(Term(x, p + M), Term(x, p), Term(x, p + 1));
    assert p + 1 == N ==> Term(x, N + 0) == y[0];
    assert N - M <= p ==> Term(x, N + (p + M - N)) == y[p + M - N];
  }

  lemma PartlyEnds(x: seq<bv32>)
    requires |x| == N
    ensures Partly(x, 0) == x && Partly(x, N) == Reloaded(x)
  {}

  class MTRand {
    const state: array<bv64>
    var pNext: nat
    var left: nat
    ghost var words: seq<bv32>

    ghost predicate Valid()
      reads this, state
    {
      Holds(state, words) && left <= N && pNext == N - left
    }

    /** The generator as a value. */
    ghost function Model(): Gen
      reads this
    {
      Gen(words, left)
    }

    constructor FromSeed(oneSeed: bv64)
      ensures Valid() && fresh(state) && Model() == Seeded(InitWords(Low(oneSeed), N))
    {
      state := new bv64[N](_ => 0);
      words := seq(N, _ => 0);
      left, pNext := N, 0;
      new;
      ZeroWord();
      Seed(oneSeed);
    }

    method Initialize(seed: bv64)
      requires Valid()
      modifies this`words, state
      ensures Holds(state, words) && words == InitWords(Low(seed), N)
    {
      hide W, Low, Mask, Index32, Index64, InitNext, InitWord;
      LowWide(seed);
      state[0] := Mask(seed);
      ghost var x := InitWords(Low(seed), 1);
      for i := 1 to N
        invariant x == InitWords(Low(seed), i)
        invariant forall k :: 0 <= k < i ==> state[k] == W(x[k])
      {
        IndexWide64(i);
        InitWide(x[i - 1], Index32(i));
        state[i] := InitWord(state[i - 1], Index64(i));
        x := InitWords(Low(seed), i + 1);
      }
      words := x;
    }

    /** One assignment of the reload. */
    method TwistInto(p: nat, m: nat, next: nat, ghost y: seq<bv32>)
      requires Holds(state, y) && p < N && m < N && next < N
      modifies state
      ensures Holds(state, y[p := TwistSpec(y[m], y[p], y[next])])
    {
      hide W, Twist, TwistSpec;
      TwistWide(y[m], y[p], y[next]);
      state[p] := Twist(state[m], state[p], state[next]);
    }

    /** Replaces the words by the next N terms of the recurrence, in place. */
    method Reload()
      requires Holds(state, words)
      modifies this, state
      ensures Valid() && Model() == Gen(Reloaded(old(words)), N)
    {
      hide Holds, TwistSpec, Term, Partly;
      ghost var x := words;
      HoldsLength(state, x);
      PartlyEnds(x);
      for p := 0 to N - M
        invariant Holds(state, Partly(x, p))
      {
        PartlyStep(x, p);
        TwistInto(p, p + M, p + 1, Partly(x, p));
      }
      for p := N - M to N - 1
        invariant Holds(state, Partly(x, p))
      {
        PartlyStep(x, p);
        TwistInto(p, p + M - N, p + 1, Partly(x, p));
      }
      PartlyStep(x, N - 1);
      TwistInto(N - 1, M - 1, 0, Partly(x, N - 1));
      words := Partly(x, N);
      left, pNext := N, 0;
    }

    method Seed(oneSeed: bv64)
      requires Valid()
      modifies this, state
      ensures Valid() && Model() == Seeded(InitWords(Low(oneSeed), N))
    {
      Initialize(oneSeed);
      Reload();
    }

    /** The body of the first loop: the word at i takes in key word j, and the indices move on. */
    method MixKeyInto(i0: nat, j0: nat, bigSeed: array<bv64>, ghost s: Mixing) returns (i: nat, j: nat)
      requires bigSeed != state && bigSeed.Length < 0x8000_0000
      requires Holds(state, s.words) && Indexed(s, bigSeed.Length) && s.i == i0 && s.j == j0
      modifies state
      ensures var t := MixKey(s, Lows(bigSeed[..])); Holds(state, t.words) && t.i == i && t.j == j
    {
      hide W, Low, Mask, Index32, Index64, KeyWord, KeyNext;
      i, j := i0, j0;
      IndexWide64(j);
      LowWide(bigSeed[j]);
      KeyWide(s.words[i], s.words[i - 1], Low(bigSeed[j]), Index32(j));
      assert Lows(bigSeed[..])[j] == Low(bigSeed[j]);
      state[i] := KeyWord(state[i], state[i - 1], Mask(bigSeed[j]), Index64(j));
      i, j := i + 1, j + 1;
      if i >= N { state[0] := state[N - 1]; i := 1; }
      if j >= bigSeed.Length { j := 0; }
    }

    /** The body of the second loop. */
    method MixIndexInto(i0: nat, ghost keyLength: nat, ghost s: Mixing) returns (i: nat)
      requires Holds(state, s.words) && Indexed(s, keyLength) && s.i == i0
      modifies state
      ensures var t := MixIndex(s, keyLength); Holds(state, t.words) && t.i == i
    {
      hide W, Index32, Index64, IndexWord, IndexNext;
      i := i0;
      IndexWide64(i);
      IndexWide(s.words[i], s.words[i - 1], Index32(i));
      state[i] := IndexWord(state[i], state[i - 1], Index64(i));
      i := i + 1;
      if i >= N { state[0] := state[N - 1]; i := 1; }
    }

    /** Seeding from an array of any positive length. */
    method SeedArray(bigSeed: array<bv64>)
      requires Valid() && bigSeed != state && 0 < bigSeed.Length < 0x8000_0000
      modifies this, state
      ensures Valid() && Model() == Seeded(KeyWords(Lows(bigSeed[..])))
    {
      hide W, Low, InitWords, MixKeys, MixIndices, MixKey, MixIndex;
      ghost var key := Lows(bigSeed[..]);
      Initialize(19650218);
      SeedConstant();
      var i, j := 1, 0;
      var k := if N > bigSeed.Length then N else bigSeed.Length;
      ghost var s0 := Mixing(words, i, j);
      MixBase(s0, key);
      for done := 0 to k
        invariant bigSeed[..] == old(bigSeed[..])
        invariant Holds(state, MixKeys(s0, key, done).words)
        invariant MixKeys(s0, key, done).i == i && MixKeys(s0, key, done).j == j
      {
        MixKeysStep(s0, key, done);
        i, j := MixKeyInto(i, j, bigSeed, MixKeys(s0, key, done));
      }
      ghost var s1 := MixKeys(s0, key, k);
      MixIndicesBase(s1, |key|);
      for done := 0 to N - 1
        invariant Holds(state, MixIndices(s1, |key|, done).words)
        invariant MixIndices(s1, |key|, done).i == i
      {
        MixIndicesStep(s1, |key|, done);
        i := MixIndexInto(i, |key|, MixIndices(s1, |key|, done));
      }
      TopBit();
      state[0] := 0x8000_0000;
      words := MixIndices(s1, |key|, N - 1).words[0 := 0x8000_0000];
      Reload();
    }

    /** Draws one number; the draws that follow are unchanged by when reloads happen. */
    method RandInt() returns (r: bv64)
      requires Valid()
      modifies this, state
      ensures Valid() && Model() == Next(old(Model()))
      ensures r == W(Stream(old(Model()), 0))
      ensures old(left) == 0 && (forall k :: 0 <= k < 624 ==> old(state[k]) == if k == 1 then 1 else 0) ==> r == 4271368940
    {
      hide W, Temper, Temper1, Temper2, Temper3, Temper4, Term;
      ghost var g, cells := Model(), state[..];
      if left == 0 { Reload(); }
      left := left - 1;
      var s1 := state[pNext];
      TemperWide(words[pNext]);
      pNext := pNext + 1;
      s1 := Temper1(s1);
      s1 := Temper2(s1);
      s1 := Temper3(s1);
      r := Temper4(s1);
      FirstDraw(g);
      if g.left == 0 && OneSet(cells) { LiteralDraw(g, cells); }
    }

    /** save: the words and, in the last cell, the number of words left. */
    method Save(saveArray: array<bv64>)
      requires Valid() && saveArray != state && saveArray.Length == 625
      modifies saveArray
      ensures Saved(saveArray, Model())
    {
      hide Count, W;
      for i := 0 to N
        invariant forall k :: 0 <= k < i ==> saveArray[k] == state[k]
        invariant Valid()
      {
        saveArray[i] := state[i];
      }
      saveArray[N] := Count(left);
    }

    /** load: whatever generator was saved is the generator that continues. */
    method Load(loadArray: array<bv64>, ghost g: Gen)
      requires state.Length == N && loadArray != state
      requires Good(g) && Saved(loadArray, g)
      modifies this, state
      ensures Valid() && Model() == g
    {
      hide Count, W;
      for i := 0 to N
        invariant forall k :: 0 <= k < i ==> state[k] == loadArray[k]
        invariant Saved(loadArray, g)
      {
        state[i] := loadArray[i];
      }
      words := g.words;
      CountBack(g.left);
      left := loadArray[N] as nat;
      pNext := N - left;
    }
  }

  /** A saved generator: its words and the number of them not yet used. */
  ghost predicate Saved(a: array<bv64>, g: Gen)
    reads a
  {
    && a.Length == SAVE && Good(g)
    && (forall i :: 0 <= i < N ==> a[i] == W(g.words[i]))
    && a[N] == Count(g.left)
  }

  function Count(left: nat): bv64
    requires left <= N
  {
    left as bv64
  }

  // the conversion of a small number to a word and back, by counting up

  function Tally(n: nat): bv64 {
    if n == 0 then 0 else Tally(n - 1) + 1
  }

  lemma SuccBits(b: bv64)
    requires b < 1000
    ensures (b + 1) as nat == b as nat + 1
  {}

  lemma SmallBits(b: bv64)
    requires b as nat < 1000
    ensures b < 1000
  {}

  lemma ZeroBits()
    ensures (0 as bv64) as nat == 0
  {}

  lemma WordBits(b: bv64)
    ensures (b as nat) as bv64 == b
  {}

  lemma {:induction false} TallyValue(n: nat)
    requires n <= N
    ensures Tally(n) as nat == n
  {
    if n == 0 {
      ZeroBits();
    } else {
      TallyValue(n - 1);
      SmallBits(Tally(n - 1));
      SuccBits(Tally(n - 1));
    }
  }

  lemma CountIsTally(left: nat, b: bv64)
    requires left <= N && b as nat == left
    ensures Count(left) == b
  {
    WordBits(b);
  }

  lemma CountBack(left: nat)
    requires left <= N
    ensures Count(left) as nat == left
  {
    hide *;
    TallyValue(left);
    CountIsTally(left, Tally(left));
  }

  function Lows(key: seq<bv64>): (r: seq<bv32>)
    ensures |r| == |key| && forall i :: 0 <= i < |key| ==> r[i] == Low(key[i])
  {
    seq(|key|, i requires 0 <= i < |key| => Low(key[i]))
  }

  lemma HoldsLength(state: array<bv64>, x: seq<bv32>)
    requires Holds(state, x)
    ensures state.Length == |x| == N
  {}

  lemma ZeroWord()
    ensures W(0) == 0
  {}

  lemma TopBit()
    ensures W(0x8000_0000) == 0x8000_0000
  {}

  lemma SeedConstant()
    ensures Low(19650218) == 19650218
  {}

  lemma FirstDraw(g: Gen)
    requires Good(g)
    ensures Stream(g, 0) == Temper(if g.left == 0 then Reloaded(g.words)[0] else g.words[N - g.left])
  {
    hide Temper, TwistSpec;
  }

  lemma WordIs(x: bv32, y: bv32)
    requires W(x) == W(y)
    ensures x == y
  {}

  lemma OneWord()
    ensures W(0) == 0 && W(1) == 1 && W(4271368940) == 4271368940
  {}

  lemma DrawOfOne()
    ensures Temper(TwistSpec(0, 0, 1)) == 4271368940
  {}

  ghost predicate OneSet(cells: seq<bv64>) {
    |cells| == 624 && forall k :: 0 <= k < 624 ==> cells[k] == if k == 1 then 1 else 0
  }

  lemma LiteralDraw(g: Gen, cells: seq<bv64>)
    requires Good(g) && g.left == 0 && OneSet(cells)
    requires forall k :: 0 <= k < 624 ==> cells[k] == W(g.words[k])
    ensures W(Stream(g, 0)) == 4271368940
  {
    hide W, Temper, TwistSpec;
    OneWord();
    WordIs(g.words[0], 0);
    WordIs(g.words[1], 1);
    WordIs(g.words[397], 0);
    assert Term(g.words, 624) == TwistSpec(Term(g.words, 397), Term(g.words, 0), Term(g.words, 1));
    DrawOfOne();
  }

  lemma MixBase(s: Mixing, key: seq<bv32>)
    requires |key| < 0x8000_0000 && Indexed(s, |key|)
    ensures MixKeys(s, key, 0) == s
  {}

  lemma MixKeysStep(s: Mixing, key: seq<bv32>, k: nat)
    requires |key| < 0x8000_0000 && Indexed(s, |key|)
    ensures MixKeys(s, key, k + 1) == MixKey(MixKeys(s, key, k), key)
  {}

  lemma MixIndicesBase(s: Mixing, keyLength: nat)
    requires Indexed(s, keyLength)
    ensures MixIndices(s, keyLength, 0) == s
  {}

  lemma MixIndicesStep(s: Mixing, keyLength: nat, k: nat)
    requires Indexed(s, keyLength)
    ensures MixIndices(s, keyLength, k + 1) == MixIndex(MixIndices(s, keyLength, k), keyLength)
  {}
}
