/** Exact expectations over lists of independent draws.  A draw is a number in [0, |p|) and p[k]
    is the weight of drawing k; a list of m draws weighs the product of the weights of its items. */
module Expectation {
  import opened RealSums

  /** The weight of k, zero outside the support. */
  function At(p: seq<real>, k: nat): real {
    if k < |p| then p[k] else 0.0
  }

  function Weights(p: seq<real>): nat -> real {
    (k: nat) => At(p, k)
  }

  predicate Distribution(p: seq<real>) {
    && (forall k :: 0 <= k < |p| ==> 0.0 <= p[k])
    && Sum(|p|, Weights(p)) == 1.0
  }

  function TailTerms(p: seq<real>, i: nat): nat -> real {
    (k: nat) => if i <= k then At(p, k) else 0.0
  }

  /** The weight of drawing at least i. */
  function Tail(p: seq<real>, i: nat): real {
    Sum(|p|, TailTerms(p, i))
  }

  function Prefix(f: seq<nat> -> real, k: nat): seq<nat> -> real {
    (ks: seq<nat>) => f([k] + ks)
  }

  /** The sum of weight(ks) * f(ks) over all lists ks of m draws. */
  function Expect(p: seq<real>, m: nat, f: seq<nat> -> real): real
    decreases m, 0
  {
    if m == 0 then f([]) else Sum(|p|, FirstDraw(p, m - 1, f))
  }

  /** The contribution of each first draw, m draws being left. */
  function FirstDraw(p: seq<real>, m: nat, f: seq<nat> -> real): nat -> real
    decreases m, 1
  {
    (k: nat) => At(p, k) * Expect(p, m, Prefix(f, k))
  }

  predicate Draws(p: seq<real>, m: nat, ks: seq<nat>) {
    |ks| == m && forall i :: 0 <= i < m ==> ks[i] < |p|
  }

  lemma {:induction false} ExpectCong(p: seq<real>, m: nat, f: seq<nat> -> real, g: seq<nat> -> real)
    requires forall ks :: Draws(p, m, ks) ==> f(ks) == g(ks)
    ensures Expect(p, m, f) == Expect(p, m, g)
    decreases m
  {
    if m == 0 {
      assert Draws(p, 0, []);
    } else {
      var F, G := FirstDraw(p, m - 1, f), FirstDraw(p, m - 1, g);
      forall k: nat | k < |p| ensures F(k) == G(k) {
        forall ks | Draws(p, m - 1, ks) ensures Prefix(f, k)(ks) == Prefix(g, k)(ks) {
          assert Draws(p, m, [k] + ks);
        }
        ExpectCong(p, m - 1, Prefix(f, k), Prefix(g, k));
      }
      SumCong(|p|, F, G);
    }
  }

  lemma {:induction false} ExpectConst(p: seq<real>, m: nat, c: real, f: seq<nat> -> real)
    requires Distribution(p)
    requires forall ks :: Draws(p, m, ks) ==> f(ks) == c
    ensures Expect(p, m, f) == c
    decreases m
  {
    if m == 0 {
      assert Draws(p, 0, []);
    } else {
      forall k: nat | k < |p| ensures FirstDraw(p, m - 1, f)(k) == c * Weights(p)(k) {
        forall ks | Draws(p, m - 1, ks) ensures Prefix(f, k)(ks) == c {
          assert Draws(p, m, [k] + ks);
        }
        ExpectConst(p, m - 1, c, Prefix(f, k));
      }
      SumScale(|p|, c, Weights(p), FirstDraw(p, m - 1, f));
    }
  }

  lemma {:induction false} ExpectAdd(p: seq<real>, m: nat, f: seq<nat> -> real, g: seq<nat> -> real, h: seq<nat> -> real)
    requires forall ks :: Draws(p, m, ks) ==> h(ks) == f(ks) + g(ks)
    ensures Expect(p, m, h) == Expect(p, m, f) + Expect(p, m, g)
    decreases m
  {
    if m == 0 {
      assert Draws(p, 0, []);
    } else {
      var F, G, H := FirstDraw(p, m - 1, f), FirstDraw(p, m - 1, g), FirstDraw(p, m - 1, h);
      forall k: nat | k < |p| ensures H(k) == F(k) + G(k) {
        forall ks | Draws(p, m - 1, ks) ensures Prefix(h, k)(ks) == Prefix(f, k)(ks) + Prefix(g, k)(ks) {
          assert Draws(p, m, [k] + ks);
        }
        ExpectAdd(p, m - 1, Prefix(f, k), Prefix(g, k), Prefix(h, k));
      }
      SumAdd(|p|, F, G, H);
    }
  }

  lemma {:induction false} ExpectNonNeg(p: seq<real>, m: nat, f: seq<nat> -> real)
    requires Distribution(p)
    requires forall ks: seq<nat> :: 0.0 <= f(ks)
    ensures 0.0 <= Expect(p, m, f)
    decreases m
  {
    if m != 0 {
      var first := FirstDraw(p, m - 1, f);
      forall k: nat | k < |p| ensures 0.0 <= first(k) {
        ExpectNonNeg(p, m - 1, Prefix(f, k));
        ProductNonNeg(p[k], Expect(p, m - 1, Prefix(f, k)));
      }
      SumNonNeg(|p|, first);
    }
  }

  /** f after a fixed beginning, averaged over b further draws. */
  function Rest(p: seq<real>, b: nat, f: seq<nat> -> real): seq<nat> -> real {
    (xs: seq<nat>) => Expect(p, b, Continue(f, xs))
  }

  function Continue(f: seq<nat> -> real, xs: seq<nat>): seq<nat> -> real {
    (ys: seq<nat>) => f(xs + ys)
  }

  /** Drawing a + b items is drawing a items and then b more. */
  lemma {:induction false} ExpectAppend(p: seq<real>, a: nat, b: nat, f: seq<nat> -> real)
    ensures Expect(p, a + b, f) == Expect(p, a, Rest(p, b, f))
    decreases a
  {
    if a == 0 {
      forall ys: seq<nat> ensures Continue(f, [])(ys) == f(ys) { assert [] + ys == ys; }
      ExpectCong(p, b, f, Continue(f, []));
    } else {
      var l, r := FirstDraw(p, a - 1 + b, f), FirstDraw(p, a - 1, Rest(p, b, f));
      forall k: nat | k < |p| ensures l(k) == r(k) {
        ExpectAppend(p, a - 1, b, Prefix(f, k));
        forall xs: seq<nat> ensures Rest(p, b, Prefix(f, k))(xs) == Prefix(Rest(p, b, f), k)(xs) {
          forall ys: seq<nat> ensures Continue(Prefix(f, k), xs)(ys) == Continue(f, [k] + xs)(ys) {
            assert [k] + (xs + ys) == [k] + xs + ys;
          }
          ExpectCong(p, b, Continue(Prefix(f, k), xs), Continue(f, [k] + xs));
        }
        ExpectCong(p, a - 1, Rest(p, b, Prefix(f, k)), Prefix(Rest(p, b, f), k));
      }
      SumCong(|p|, l, r);
    }
  }
}
