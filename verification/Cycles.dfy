/** Walks and cycles of a relation, shared by the migration scheduler and the port binder.
    In both, what waits for something that waits for itself is never done, and what is never done
    without such a circle has another reason.  A walk that is longer than the set it stays in comes back
    to where it has been. */
module Cycles {

  /** A walk along the relation that stays within s. */
  ghost predicate Walk<T>(edge: (T, T) -> bool, s: set<T>, w: seq<T>) {
    && (forall i :: 0 <= i < |w| ==> w[i] in s)
    && (forall i, j :: 0 <= i && j == i + 1 < |w| ==> edge(w[i], w[j]))
  }

  /** A closed walk. */
  ghost predicate Cycle<T>(edge: (T, T) -> bool, s: set<T>, c: seq<T>) {
    c != [] && Walk(edge, s, c) && edge(c[|c| - 1], c[0])
  }

  ghost predicate Acyclic<T(!new)>(edge: (T, T) -> bool, s: set<T>) {
    !exists c: seq<T> :: Cycle(edge, s, c)
  }

  /** A walk from t that comes back to where it has been. */
  ghost predicate Lasso<T>(edge: (T, T) -> bool, s: set<T>, t: T, w: seq<T>, i: nat, j: nat) {
    i < j < |w| && Walk(edge, s, w) && w[0] == t && w[i] == w[j]
  }

  /** Is t on a cycle within s, or does it lead to one? */
  ghost predicate LeadsToCycle<T(!new)>(edge: (T, T) -> bool, s: set<T>, t: T) {
    exists w: seq<T>, i: nat, j: nat :: Lasso(edge, s, t, w, i, j)
  }

  ghost predicate HasNext<T(!new)>(edge: (T, T) -> bool, s: set<T>, t: T) {
    exists d :: d in s && edge(t, d)
  }

  /** Every member of s has a successor in s. */
  ghost predicate NoSink<T(!new)>(edge: (T, T) -> bool, s: set<T>) {
    forall t {:trigger HasNext(edge, s, t)} :: t in s ==> HasNext(edge, s, t)
  }

  lemma Successor<T(!new)>(edge: (T, T) -> bool, s: set<T>, t: T) returns (d: T)
    requires NoSink(edge, s) && t in s
    ensures d in s && edge(t, d)
  {
    assert HasNext(edge, s, t);
    d :| d in s && edge(t, d);
  }

  lemma {:induction false} LongWalk<T(!new)>(edge: (T, T) -> bool, s: set<T>, t: T, n: nat) returns (w: seq<T>)
    requires t in s && NoSink(edge, s)
    ensures |w| == n + 1 && w[0] == t && Walk(edge, s, w)
  {
    hide NoSink;
    if n == 0 {
      w := [t];
    } else {
      var v := LongWalk(edge, s, t, n - 1);
      var d := Successor(edge, s, v[|v| - 1]);
      w := v + [d];
    }
  }

  lemma {:induction false} Pigeonhole<T>(s: set<T>, w: seq<T>) returns (i: nat, j: nat)
    requires |w| > |s| && forall k :: 0 <= k < |w| ==> w[k] in s
    ensures i < j < |w| && w[i] == w[j]
    decreases |s|
  {
    var last := |w| - 1;
    if k: nat :| k < last && w[k] == w[last] {
      i, j := k, last;
    } else {
      i, j := Pigeonhole(s - {w[last]}, w[..last]);
    }
  }

  /** If every member of s has a successor in s, every member leads to a cycle. */
  lemma NoSinkLeads<T(!new)>(edge: (T, T) -> bool, s: set<T>, t: T)
    requires NoSink(edge, s) && t in s
    ensures LeadsToCycle(edge, s, t)
  {
    hide NoSink, Walk;
    var w := LongWalk(edge, s, t, |s|);
    WalkInside(edge, s, w);
    var i, j := Pigeonhole(s, w);
    assert Lasso(edge, s, t, w, i, j);
  }

  lemma WalkInside<T>(edge: (T, T) -> bool, s: set<T>, w: seq<T>)
    requires Walk(edge, s, w)
    ensures forall k :: 0 <= k < |w| ==> w[k] in s
  {}

  /** What leads to a cycle has a successor that does. */
  lemma LeadsOn<T(!new)>(edge: (T, T) -> bool, s: set<T>, t: T) returns (d: T)
    requires LeadsToCycle(edge, s, t)
    ensures t in s && d in s && edge(t, d) && LeadsToCycle(edge, s, d)
  {
    var w: seq<T>, i: nat, j: nat :| Lasso(edge, s, t, w, i, j);
    d := w[1];
    assert edge(w[0], w[1]);
    if i > 0 {
      assert Lasso(edge, s, d, w[1..], i - 1, j - 1);
    } else {
      var v := w[1..j + 1] + [w[1]];
      assert edge(w[j], w[1]);
      assert Lasso(edge, s, d, v, 0, j);
    }
  }

  lemma LeadsInSuperset<T(!new)>(edge: (T, T) -> bool, s: set<T>, s': set<T>, t: T)
    requires s <= s' && LeadsToCycle(edge, s, t)
    ensures LeadsToCycle(edge, s', t)
  {
    var w: seq<T>, i: nat, j: nat :| Lasso(edge, s, t, w, i, j);
    assert Lasso(edge, s', t, w, i, j);
  }

  /** There is a cycle if and only if something leads to one. */
  lemma AcyclicMeansNoneLeads<T(!new)>(edge: (T, T) -> bool, s: set<T>)
    ensures Acyclic(edge, s) <==> forall t :: t in s ==> !LeadsToCycle(edge, s, t)
  {
    if !Acyclic(edge, s) {
      var c :| Cycle(edge, s, c);
      assert Lasso(edge, s, c[0], c + [c[0]], 0, |c|);
      assert c[0] in s && LeadsToCycle(edge, s, c[0]);
    }
    if t :| t in s && LeadsToCycle(edge, s, t) {
      var w: seq<T>, i: nat, j: nat :| Lasso(edge, s, t, w, i, j);
      var c := w[i..j];
      assert edge(w[j - 1], w[j]);
      assert Cycle(edge, s, c);
    }
  }
}
