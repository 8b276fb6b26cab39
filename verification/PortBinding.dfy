/** Binding ports.

    Each connection is listed in both directions, and a greedy pass over the sorted list binds a
    direction when both of its ports are next at the right index.  The pass makes what any choice of
    directions in that order can make; a sorted list can still leave connections unmade. */
module PortBinding {

  datatype Port = Port(objectName: string, portName: string)
  datatype End = End(port: Port, index: int)
  datatype Connection = Connection(from: End, to: End)

  datatype Outcome = Bound(made: seq<Connection>) | CannotBeOrdered

  function Reverse(c: Connection): Connection {
    Connection(c.to, c.from)
  }

  // ----- what the caller promises

  /** Both directions of every connection are listed. */
  ghost predicate BothWays(cs: seq<Connection>) {
    forall c :: c in cs ==> Reverse(c) in cs
  }

  ghost predicate Distinct(cs: seq<Connection>) {
    forall i, j :: 0 <= i < j < |cs| ==> cs[i] != cs[j]
  }

  ghost predicate NoSelfLinks(cs: seq<Connection>) {
    forall c :: c in cs ==> c.from != c.to
  }

  // ----- what a correct binding is

  /** The indices with which the connections made so far use a port, in order. */
  function Uses(made: seq<Connection>, p: Port): seq<int> {
    if made == [] then []
    else
      var c := made[|made| - 1];
      Uses(made[..|made| - 1], p)
      + (if c.from.port == p then [c.from.index] else [])
      + (if c.to.port == p then [c.to.index] else [])
  }

  /** The k-th binding of every port carries index k. */
  ghost predicate InIndexOrder(made: seq<Connection>) {
    forall p: Port, k: nat :: k < |Uses(made, p)| ==> Uses(made, p)[k] == k
  }

  /** Exactly one direction of every connection is made. */
  ghost predicate OncePerConnection(made: seq<Connection>, cs: seq<Connection>) {
    && Distinct(made)
    && (forall c :: c in made ==> c in cs)
    && forall c :: c in cs ==> (c in made <==> Reverse(c) !in made)
  }

  // ----- counting

  function Members(cs: seq<Connection>): set<Connection> {
    set c | c in cs
  }

  function Reversals(cs: seq<Connection>): set<Connection> {
    set c | c in cs :: Reverse(c)
  }

  lemma {:induction false} DistinctSize(cs: seq<Connection>)
    requires Distinct(cs)
    ensures |Members(cs)| == |cs|
  {
    if cs != [] {
      var init, last := cs[..|cs| - 1], cs[|cs| - 1];
      DistinctSize(init);
      assert Members(cs) == Members(init) + {last};
      assert last !in init;
    }
  }

  lemma {:induction false} ReversedSize(made: seq<Connection>)
    requires Distinct(made)
    ensures |Reversals(made)| == |made|
  {
    if made != [] {
      var init, last := made[..|made| - 1], made[|made| - 1];
      ReversedSize(init);
      var r := Reversals(init);
      assert Reversals(made) == r + {Reverse(last)} by {
        assert made == init + [last];
      }
      forall c | c in init ensures Reverse(c) != Reverse(last) {
        assert Reverse(Reverse(c)) == c && Reverse(Reverse(last)) == last;
      }
      assert Reverse(last) !in r;
    }
  }

  lemma SubsetOfSameSize<T>(a: set<T>, b: set<T>)
    requires a <= b && |a| == |b|
    ensures a == b
  {
    if a != b {
      var x :| x in b && x !in a;
      SizeOfSubset(a, b - {x});
    }
  }

  lemma {:induction false} SizeOfSubset<T>(a: set<T>, b: set<T>)
    requires a <= b
    ensures |a| <= |b|
  {
    if a != {} {
      var x :| x in a;
      SizeOfSubset(a - {x}, b - {x});
    }
  }

  /** When never both directions of a pair are made, exactly one of every pair is made if and only if
      half as many directions are made as are listed: the program's check. */
  lemma HalfMeansAll(made: seq<Connection>, cs: seq<Connection>)
    requires BothWays(cs) && Distinct(cs) && Distinct(made)
    requires forall c :: c in made ==> c in cs && Reverse(c) !in made
    ensures |made| * 2 == |cs| <==> OncePerConnection(made, cs)
  {
    hide Distinct, BothWays, OncePerConnection;
    DistinctSize(made);
    ReversedSize(made);
    DistinctSize(cs);
    var m, r, all := Members(made), Reversals(made), Members(cs);
    HalvesApart(made, cs);
    assert |m + r| == |m| + |r|;
    if |made| * 2 == |cs| {
      SubsetOfSameSize(m + r, all);
    }
    AllMade(made, cs);
  }

  lemma InReversals(cs: seq<Connection>, c: Connection)
    ensures c in Reversals(cs) <==> Reverse(c) in cs
  {
    assert Reverse(Reverse(c)) == c;
  }

  lemma HalvesApart(made: seq<Connection>, cs: seq<Connection>)
    requires BothWays(cs) && forall c :: c in made ==> c in cs && Reverse(c) !in made
    ensures Members(made) !! Reversals(made) && Members(made) + Reversals(made) <= Members(cs)
  {
    forall c | c in Reversals(made) ensures c in Members(cs) && c !in Members(made) {
      InReversals(made, c);
      assert Reverse(Reverse(c)) == c;
    }
  }

  lemma AllMade(made: seq<Connection>, cs: seq<Connection>)
    requires BothWays(cs) && Distinct(made) && forall c :: c in made ==> c in cs && Reverse(c) !in made
    ensures Members(made) + Reversals(made) == Members(cs) <==> OncePerConnection(made, cs)
  {
    HalvesApart(made, cs);
    forall c ensures c in Reversals(made) <==> Reverse(c) in made {
      InReversals(made, c);
    }
    if Members(made) + Reversals(made) == Members(cs) {
      forall c | c in cs ensures c in made <==> Reverse(c) !in made {
        assert c in Members(cs);
        assert Reverse(Reverse(c)) == c;
      }
    }
    if OncePerConnection(made, cs) {
      forall c | c in Members(cs) ensures c in Members(made) + Reversals(made) {}
    }
  }

  // ----- the binder

  /** Any order of the same connections; the program sorts them. */
  ghost predicate Reordering(sorted: seq<Connection>, cs: seq<Connection>) {
    multiset(sorted) == multiset(cs)
  }

  /** The counters and the bindings made so far. */
  datatype Progress = Progress(next: map<Port, int>, made: seq<Connection>)

  /** One step of the pass: bind when both ports are next at the connection's indices. */
  function Try(p: Progress, c: Connection): Progress
    requires c.from.port in p.next && c.to.port in p.next
  {
    if p.next[c.from.port] == c.from.index && p.next[c.to.port] == c.to.index then
      var next1 := p.next[c.from.port := p.next[c.from.port] + 1];
      Progress(next1[c.to.port := next1[c.to.port] + 1], p.made + [c])
    else p
  }

  ghost predicate Counted(next: map<Port, int>, cs: seq<Connection>) {
    forall c :: c in cs ==> c.from.port in next && c.to.port in next
  }

  /** The pass over a list. */
  ghost function Pass(start: Progress, cs: seq<Connection>): (p: Progress)
    requires Counted(start.next, cs)
    ensures p.next.Keys == start.next.Keys
  {
    if cs == [] then start else
      assert cs[|cs| - 1] in cs;
      Try(Pass(start, cs[..|cs| - 1]), cs[|cs| - 1])
  }

  lemma PassNext(start: Progress, cs: seq<Connection>, i: nat)
    requires Counted(start.next, cs) && i < |cs|
    ensures Counted(start.next, cs[..i]) && Counted(start.next, cs[..i + 1]) && cs[i] in cs
    ensures Pass(start, cs[..i + 1]) == Try(Pass(start, cs[..i]), cs[i])
  {
    assert cs[..i + 1][..i] == cs[..i] && cs[..i + 1][i] == cs[i];
  }

  /** All counters at zero. */
  function Zeros(cs: seq<Connection>): (m: map<Port, int>)
    ensures forall c :: c in cs ==> c.from.port in m
    ensures forall p :: p in m ==> m[p] == 0
  {
    if cs == [] then map[] else
      var m := Zeros(cs[..|cs| - 1]);
      m[cs[|cs| - 1].from.port := 0]
  }

  ghost function Start(cs: seq<Connection>): Progress {
    Progress(Zeros(cs), [])
  }

  lemma AllCounted(sorted: seq<Connection>, cs: seq<Connection>)
    requires BothWays(cs) && forall c :: c in sorted ==> c in cs
    ensures Counted(Zeros(cs), sorted)
  {
    forall c | c in sorted
      ensures c.from.port in Zeros(cs) && c.to.port in Zeros(cs)
    {
      assert c in cs && Reverse(c) in cs;
    }
  }

  // ----- what every step keeps

  lemma UsesSnoc(made: seq<Connection>, c: Connection, p: Port)
    ensures Uses(made + [c], p) == Uses(made, p)
                                 + (if c.from.port == p then [c.from.index] else [])
                                 + (if c.to.port == p then [c.to.index] else [])
  {
    assert (made + [c])[..|made|] == made;
  }

  lemma {:induction false} MadeIsUsed(made: seq<Connection>, c: Connection)
    requires c in made
    ensures c.from.index in Uses(made, c.from.port) && c.to.index in Uses(made, c.to.port)
  {
    var init, last := made[..|made| - 1], made[|made| - 1];
    assert made == init + [last];
    UsesSnoc(init, last, c.from.port);
    UsesSnoc(init, last, c.to.port);
    if c != last {
      MadeIsUsed(init, c);
    }
  }

  lemma {:induction false} UsedIsMade(made: seq<Connection>, e: End) returns (c: Connection)
    requires e.index in Uses(made, e.port)
    ensures c in made && (c.from == e || c.to == e)
  {
    var init, last := made[..|made| - 1], made[|made| - 1];
    assert made == init + [last];
    UsesSnoc(init, last, e.port);
    if last.from == e || last.to == e {
      c := last;
    } else {
      c := UsedIsMade(init, e);
    }
  }

  /** The next index of every port is the number of its uses so far, and those uses were in order. */
  ghost predicate Consistent(p: Progress) {
    && InIndexOrder(p.made)
    && forall q: Port :: |Uses(p.made, q)| == if q in p.next then p.next[q] else 0
  }

  ghost predicate Good(p: Progress, cs: seq<Connection>) {
    && Consistent(p)
    && Distinct(p.made)
    && forall c :: c in p.made ==> c in cs && Reverse(c) !in p.made && c.from.port != c.to.port
  }

  /** A made connection's ports have moved past its indices. */
  lemma MadeIsPassed(p: Progress, c: Connection)
    requires Consistent(p) && (c in p.made || Reverse(c) in p.made)
    ensures c.from.port in p.next && c.from.index < p.next[c.from.port]
    ensures c.to.port in p.next && c.to.index < p.next[c.to.port]
  {
    MadeIsUsed(p.made, if c in p.made then c else Reverse(c));
    assert forall q: Port, x :: x in Uses(p.made, q) ==> x < |Uses(p.made, q)|;
  }

  lemma BindConsistent(p: Progress, c: Connection)
    requires Consistent(p) && c.from.port in p.next && c.to.port in p.next
    requires p.next[c.from.port] == c.from.index && p.next[c.to.port] == c.to.index
    requires c.from != c.to
    ensures c.from.port != c.to.port
    ensures Consistent(Try(p, c))
  {
    forall q: Port
      ensures Uses(p.made + [c], q) == Uses(p.made, q) + (if c.from.port == q then [c.from.index] else [])
                                                       + (if c.to.port == q then [c.to.index] else [])
    {
      UsesSnoc(p.made, c, q);
    }
  }

  lemma TryGood(p: Progress, c: Connection, cs: seq<Connection>)
    requires Good(p, cs) && c in cs && c.from != c.to
    requires c.from.port in p.next && c.to.port in p.next
    ensures Good(Try(p, c), cs)
  {
    if p.next[c.from.port] == c.from.index && p.next[c.to.port] == c.to.index {
      if c in p.made || Reverse(c) in p.made {
        MadeIsPassed(p, c);
        assert false;
      }
      BindConsistent(p, c);
      var q := Try(p, c);
      forall d | d in q.made
        ensures d in cs && Reverse(d) !in q.made && d.from.port != d.to.port
      {
        assert Reverse(Reverse(d)) == d;
      }
    }
  }

  lemma {:induction false} PassGood(start: Progress, sorted: seq<Connection>, cs: seq<Connection>)
    requires Counted(start.next, sorted) && Good(start, cs) && NoSelfLinks(cs)
    requires forall c :: c in sorted ==> c in cs
    ensures Good(Pass(start, sorted), cs)
  {
    if sorted != [] {
      assert sorted[|sorted| - 1] in sorted;
      PassGood(start, sorted[..|sorted| - 1], cs);
      TryGood(Pass(start, sorted[..|sorted| - 1]), sorted[|sorted| - 1], cs);
    }
  }

  lemma StartGood(cs: seq<Connection>)
    ensures Good(Start(cs), cs)
  {
  }

  lemma SameMembers(a: seq<Connection>, b: seq<Connection>)
    requires Reordering(a, b)
    ensures forall c :: c in a <==> c in b
    ensures |a| == |b|
  {
    forall c ensures c in a <==> c in b {
      assert c in a <==> c in multiset(a);
      assert c in b <==> c in multiset(b);
    }
    assert |multiset(a)| == |multiset(b)|;
  }

  /** Whatever the order of the list, the connections made use every port in index order, and the
      count check passes exactly when one direction of every connection was made. */
  lemma PassIsSound(connections: seq<Connection>, sorted: seq<Connection>)
    requires BothWays(connections) && Distinct(connections) && NoSelfLinks(connections)
    requires Reordering(sorted, connections)
    ensures Counted(Zeros(connections), sorted)
    ensures var made := Pass(Start(connections), sorted).made;
            && InIndexOrder(made)
            && (|made| * 2 == |connections| <==> OncePerConnection(made, connections))
  {
    SameMembers(sorted, connections);
    AllCounted(sorted, connections);
    StartGood(connections);
    PassGood(Start(connections), sorted, connections);
    HalfMeansAll(Pass(Start(connections), sorted).made, connections);
  }

  /** bind_ports; `sorted` is the sorted list. */
  method BindPorts(connections: seq<Connection>, sorted: seq<Connection>) returns (outcome: Outcome)
    requires BothWays(connections) && Distinct(connections) && NoSelfLinks(connections)
    requires Reordering(sorted, connections)
    ensures Counted(Zeros(connections), sorted)
    ensures var made := Pass(Start(connections), sorted).made;
            && InIndexOrder(made)
            && (outcome.Bound? <==> OncePerConnection(made, connections))
            && (outcome.Bound? ==> outcome.made == made)
  {
    hide *;
    var next: map<Port, int> := map[];
    next := ZeroCounters(connections);
    PassIsSound(connections, sorted);
    var made := [];
    ghost var start := Start(connections);
    StartIs(connections, sorted);
    for i := 0 to |sorted|
      invariant Counted(start.next, sorted[..i]) && Progress(next, made) == Pass(start, sorted[..i])
    {
      PassNext(start, sorted, i);
      CountedAt(start.next, sorted, i);
      var c := sorted[i];
      TryIs(Progress(next, made), c);
      if next[c.from.port] == c.from.index && next[c.to.port] == c.to.index {
        made := made + [c];
        next := next[c.from.port := next[c.from.port] + 1];
        next := next[c.to.port := next[c.to.port] + 1];
      }
    }
    assert sorted[..|sorted|] == sorted;
    if |made| * 2 != |connections| {
      return CannotBeOrdered;
    }
    outcome := Bound(made);
  }

  method ZeroCounters(connections: seq<Connection>) returns (next: map<Port, int>)
    ensures next == Zeros(connections)
  {
    next := map[];
    for i := 0 to |connections|
      invariant next == Zeros(connections[..i])
    {
      assert connections[..i + 1][..i] == connections[..i];
      next := next[connections[i].from.port := 0];
    }
    assert connections[..|connections|] == connections;
  }

  lemma StartIs(cs: seq<Connection>, sorted: seq<Connection>)
    ensures Start(cs) == Progress(Zeros(cs), [])
    ensures Counted(Zeros(cs), sorted[..0]) && Pass(Start(cs), sorted[..0]) == Start(cs)
  {
  }

  lemma CountedAt(next: map<Port, int>, cs: seq<Connection>, i: nat)
    requires Counted(next, cs) && i < |cs|
    ensures cs[i].from.port in next && cs[i].to.port in next
  {
  }

  lemma TryIs(p: Progress, c: Connection)
    requires c.from.port in p.next && c.to.port in p.next
    ensures Try(p, c) == if p.next[c.from.port] == c.from.index && p.next[c.to.port] == c.to.index then
                           var next1 := p.next[c.from.port := p.next[c.from.port] + 1];
                           Progress(next1[c.to.port := next1[c.to.port] + 1], p.made + [c])
                         else p
  {
  }

  // ----- the greedy choice is the best one

  /** An end has one peer: the program numbers the peers of a port to make its ends. */
  ghost predicate OnePeer(cs: seq<Connection>) {
    forall c, d :: c in cs && d in cs && c.from == d.from ==> c == d
  }

  ghost predicate NoLoops(cs: seq<Connection>) {
    forall c :: c in cs ==> c.from.port != c.to.port
  }

  /** The connections marked to be made, in the order of the list. */
  function Selection(cs: seq<Connection>, keep: seq<bool>): seq<Connection>
    requires |keep| == |cs|
  {
    if cs == [] then []
    else Selection(cs[..|cs| - 1], keep[..|cs| - 1]) + if keep[|cs| - 1] then [cs[|cs| - 1]] else []
  }

  /** Some choice of one direction of every connection, in the order of the list, uses every port in
      index order. */
  ghost predicate Orderable(sorted: seq<Connection>, cs: seq<Connection>) {
    exists keep: seq<bool> :: |keep| == |sorted| && Suits(sorted, keep, cs)
  }

  ghost predicate Suits(sorted: seq<Connection>, keep: seq<bool>, cs: seq<Connection>)
    requires |keep| == |sorted|
  {
    var chosen := Selection(sorted, keep);
    InIndexOrder(chosen) && OncePerConnection(chosen, cs)
  }

  lemma {:induction false} SelectionMembers(cs: seq<Connection>, keep: seq<bool>)
    requires |keep| == |cs|
    ensures forall c :: c in Selection(cs, keep) ==> c in cs
  {
    if cs != [] {
      SelectionMembers(cs[..|cs| - 1], keep[..|cs| - 1]);
      assert cs == cs[..|cs| - 1] + [cs[|cs| - 1]];
    }
  }

  lemma InitInIndexOrder(made: seq<Connection>, c: Connection)
    requires InIndexOrder(made + [c])
    ensures InIndexOrder(made)
  {
    forall q: Port, k: nat | k < |Uses(made, q)| ensures Uses(made, q)[k] == k {
      UsesSnoc(made, c, q);
      assert Uses(made + [c], q)[k] == k;
    }
  }

  /** In an ordered list the last connection of two ports uses them at the number of earlier uses. */
  lemma LastIsNext(made: seq<Connection>, c: Connection)
    requires InIndexOrder(made + [c]) && c.from.port != c.to.port
    ensures c.from.index == |Uses(made, c.from.port)| && c.to.index == |Uses(made, c.to.port)|
  {
    UsesSnoc(made, c, c.from.port);
    UsesSnoc(made, c, c.to.port);
    assert Uses(made + [c], c.from.port)[|Uses(made, c.from.port)|] == c.from.index;
    assert Uses(made + [c], c.to.port)[|Uses(made, c.to.port)|] == c.to.index;
  }

  /** An end below its port's counter belongs to a made connection. */
  lemma PassedIsMade(p: Progress, c: Connection, cs: seq<Connection>)
    requires Good(p, cs) && OnePeer(cs) && BothWays(cs) && c in cs
    requires 0 <= c.from.index < |Uses(p.made, c.from.port)|
    ensures c in p.made || Reverse(c) in p.made
  {
    assert Uses(p.made, c.from.port)[c.from.index] == c.from.index;
    var d := UsedIsMade(p.made, c.from);
    assert d in cs && Reverse(d) in cs;
    assert Reverse(Reverse(d)) == d;
    assert d.from == c.from ==> d == c;
    assert Reverse(d).from == c.from ==> Reverse(d) == c;
  }

  /** The pass has used every port at least as often as the chosen connections have. */
  ghost predicate Ahead(p: Progress, chosen: seq<Connection>) {
    forall q: Port :: |Uses(chosen, q)| <= |Uses(p.made, q)|
  }

  lemma UsesOnlyGrow(p: Progress, c: Connection, q: Port)
    requires c.from.port in p.next && c.to.port in p.next
    ensures |Uses(p.made, q)| <= |Uses(Try(p, c).made, q)|
  {
    UsesSnoc(p.made, c, q);
  }

  lemma StaysAhead(p: Progress, chosen: seq<Connection>, c: Connection, cs: seq<Connection>)
    requires Good(p, cs) && OnePeer(cs) && BothWays(cs) && c in cs && c.from.port != c.to.port
    requires c.from.port in p.next && c.to.port in p.next
    requires Ahead(p, chosen) && InIndexOrder(chosen + [c])
    ensures Ahead(Try(p, c), chosen + [c])
  {
    hide InIndexOrder, Distinct;
    LastIsNext(chosen, c);
    var r := Try(p, c);
    CatchUp(p, c, cs);
    forall q: Port ensures |Uses(chosen + [c], q)| <= |Uses(r.made, q)| {
      UsesOnlyGrow(p, c, q);
      UsesSnoc(chosen, c, q);
    }
  }

  /** A connection the pass meets when its ports have got to its indices is made by then. */
  lemma CatchUp(p: Progress, c: Connection, cs: seq<Connection>)
    requires Good(p, cs) && OnePeer(cs) && BothWays(cs) && c in cs && c.from.port != c.to.port
    requires c.from.port in p.next && c.to.port in p.next
    requires 0 <= c.from.index <= |Uses(p.made, c.from.port)| && 0 <= c.to.index <= |Uses(p.made, c.to.port)|
    ensures c.from.index < |Uses(Try(p, c).made, c.from.port)|
    ensures c.to.index < |Uses(Try(p, c).made, c.to.port)|
  {
    hide InIndexOrder, Distinct, OnePeer;
    UsesOnlyGrow(p, c, c.from.port);
    UsesOnlyGrow(p, c, c.to.port);
    if c.from.index < |Uses(p.made, c.from.port)| {
      PassedIsMade(p, c, cs);
      MadeIsPassed(p, c);
    } else if c.to.index < |Uses(p.made, c.to.port)| {
      assert Reverse(c) in cs && Reverse(Reverse(c)) == c;
      PassedIsMade(p, Reverse(c), cs);
      MadeIsPassed(p, c);
    } else {
      UsesSnoc(p.made, c, c.from.port);
      UsesSnoc(p.made, c, c.to.port);
    }
  }

  lemma {:induction false} AheadThroughout(start: Progress, sorted: seq<Connection>, keep: seq<bool>,
                                           cs: seq<Connection>)
    requires Counted(start.next, sorted) && Good(start, cs) && start.made == [] && |keep| == |sorted|
    requires BothWays(cs) && OnePeer(cs) && NoLoops(cs) && forall c :: c in sorted ==> c in cs
    requires InIndexOrder(Selection(sorted, keep))
    ensures Ahead(Pass(start, sorted), Selection(sorted, keep))
  {
    hide InIndexOrder, Good, Distinct, OnePeer, BothWays, Uses, Try;
    if sorted == [] {
      hide *;
      NothingIsAhead(start, sorted, keep);
    } else {
      var n := |sorted| - 1;
      var init, c, chosen := sorted[..n], sorted[n], Selection(sorted[..n], keep[..n]);
      assert c in sorted;
      var p := Pass(start, init);
      LoopsAreSelf(cs);
      PassGood(start, init, cs);
      if keep[n] {
        InitInIndexOrder(chosen, c);
        AheadThroughout(start, init, keep[..n], cs);
        StaysAhead(p, chosen, c, cs);
      } else {
        assert Selection(sorted, keep) == chosen;
        AheadThroughout(start, init, keep[..n], cs);
        forall q: Port ensures |Uses(chosen, q)| <= |Uses(Try(p, c).made, q)| {
          UsesOnlyGrow(p, c, q);
        }
      }
    }
  }

  lemma NothingIsAhead(start: Progress, sorted: seq<Connection>, keep: seq<bool>)
    requires sorted == [] && |keep| == 0 && Counted(start.next, sorted)
    ensures Ahead(Pass(start, sorted), Selection(sorted, keep))
  {
  }

  lemma LoopsAreSelf(cs: seq<Connection>)
    requires NoLoops(cs)
    ensures NoSelfLinks(cs)
  {
  }

  /** What the pass makes is itself a choice in the order of the list. */
  lemma {:induction false} PassSelects(start: Progress, sorted: seq<Connection>) returns (keep: seq<bool>)
    requires Counted(start.next, sorted) && start.made == []
    ensures |keep| == |sorted| && Selection(sorted, keep) == Pass(start, sorted).made
  {
    if sorted == [] {
      keep := [];
    } else {
      var n := |sorted| - 1;
      var init, c := sorted[..n], sorted[n];
      assert c in sorted;
      var k := PassSelects(start, init);
      var p := Pass(start, init);
      keep := k + [p.next[c.from.port] == c.from.index && p.next[c.to.port] == c.to.index];
      assert keep[..n] == k;
    }
  }

  lemma AheadMakesAll(p: Progress, chosen: seq<Connection>, cs: seq<Connection>)
    requires BothWays(cs) && OnePeer(cs) && Good(p, cs)
    requires InIndexOrder(chosen) && OncePerConnection(chosen, cs) && Ahead(p, chosen)
    ensures OncePerConnection(p.made, cs)
  {
    forall c | c in cs ensures c in p.made <==> Reverse(c) !in p.made {
      var d := if c in chosen then c else Reverse(c);
      assert Reverse(Reverse(c)) == c;
      assert d in chosen && d in cs;
      MadeIsUsed(chosen, d);
      var k :| 0 <= k < |Uses(chosen, d.from.port)| && Uses(chosen, d.from.port)[k] == d.from.index;
      assert k == d.from.index;
      PassedIsMade(p, d, cs);
    }
  }

  /** The greedy pass is the best that can be done in one sweep of the list: it makes every connection
      if and only if some choice of directions, taken in the list's order, uses the ports in index
      order and no connection joins a port to itself. */
  lemma GreedyIsBest(connections: seq<Connection>, sorted: seq<Connection>)
    requires BothWays(connections) && Distinct(connections) && NoSelfLinks(connections) && OnePeer(connections)
    requires Reordering(sorted, connections)
    ensures Counted(Zeros(connections), sorted)
    ensures OncePerConnection(Pass(Start(connections), sorted).made, connections)
            <==> NoLoops(connections) && Orderable(sorted, connections)
  {
    hide Good, InIndexOrder, Distinct, OnePeer, Ahead, Reordering;
    PassIsSound(connections, sorted);
    SameMembers(sorted, connections);
    StartGood(connections);
    var start := Start(connections);
    var p := Pass(start, sorted);
    PassGood(start, sorted, connections);
    if OncePerConnection(p.made, connections) {
      var keep := PassSelects(start, sorted);
      assert Suits(sorted, keep, connections);
      AllMadeMeansNoLoops(p, connections);
    }
    if NoLoops(connections) && Orderable(sorted, connections) {
      var keep: seq<bool> :| |keep| == |sorted| && Suits(sorted, keep, connections);
      AheadThroughout(start, sorted, keep, connections);
      AheadMakesAll(p, Selection(sorted, keep), connections);
    }
  }

  lemma AllMadeMeansNoLoops(p: Progress, cs: seq<Connection>)
    requires Good(p, cs) && OncePerConnection(p.made, cs)
    ensures NoLoops(cs)
  {
    forall c | c in cs ensures c.from.port != c.to.port {
      assert c in p.made || Reverse(c) in p.made;
    }
  }

  // ----- a list that can be ordered, but not by a sweep in sorted order

  predicate TextLess(a: string, b: string) {
    b != [] && (a == [] || a[0] < b[0] || (a[0] == b[0] && TextLess(a[1..], b[1..])))
  }

  /** Order of (object name, port name, index). */
  predicate EndLess(a: End, b: End) {
    || TextLess(a.port.objectName, b.port.objectName)
    || (a.port.objectName == b.port.objectName &&
         (TextLess(a.port.portName, b.port.portName) || (a.port.portName == b.port.portName && a.index < b.index)))
  }

  predicate ConnectionLess(a: Connection, b: Connection) {
    EndLess(a.from, b.from) || (a.from == b.from && EndLess(a.to, b.to))
  }

  /** Of two different texts one comes first, and the order is transitive. */
  lemma {:induction false} TextOrder(a: string, b: string, c: string)
    ensures TextLess(a, b) <==> a != b && !TextLess(b, a)
    ensures TextLess(a, b) && TextLess(b, c) ==> TextLess(a, c)
    decreases |a|
  {
    if a != [] && b != [] {
      assert a == [a[0]] + a[1..] && b == [b[0]] + b[1..];
      TextOrder(a[1..], b[1..], if c == [] then [] else c[1..]);
    }
  }

  lemma EndOrder(a: End, b: End, c: End)
    ensures EndLess(a, b) <==> a != b && !EndLess(b, a)
    ensures EndLess(a, b) && EndLess(b, c) ==> EndLess(a, c)
  {
    hide TextLess;
    TextOrder(a.port.objectName, b.port.objectName, c.port.objectName);
    TextOrder(a.port.portName, b.port.portName, c.port.portName);
  }

  /** The order of the list is a strict total order on connections.  The object name of the first port decides
      before its port name, that before its index, and all of them before the second port. */
  lemma ConnectionOrder(a: Connection, b: Connection, c: Connection)
    ensures ConnectionLess(a, b) <==> a != b && !ConnectionLess(b, a)
    ensures ConnectionLess(a, b) && ConnectionLess(b, c) ==> ConnectionLess(a, c)
    ensures TextLess(a.from.port.objectName, b.from.port.objectName) ==> ConnectionLess(a, b)
    ensures a.from.port.objectName == b.from.port.objectName && TextLess(a.from.port.portName, b.from.port.portName)
            ==> ConnectionLess(a, b)
    ensures a.from.port == b.from.port && a.from.index < b.from.index ==> ConnectionLess(a, b)
  {
    hide TextLess;
    EndOrder(a.from, b.from, c.from);
    EndOrder(a.to, b.to, c.to);
  }

  /** Texts are compared character by character, a beginning coming before the whole. */
  lemma {:induction false} TextFirst(common: string, a: string, b: string)
    requires b != [] && (a == [] || a[0] < b[0])
    ensures TextLess(common + a, common + b)
  {
    if common == [] {
      assert [] + a == a && [] + b == b;
    } else {
      assert (common + a)[1..] == common[1..] + a && (common + b)[1..] == common[1..] + b;
      TextFirst(common[1..], a, b);
    }
  }

  /** A connection of b waits for index 0 of port a, which waits for index 0 of port z. */
  function MissedList(a: Port, b: Port, y: Port, z: Port): seq<Connection> {
    [Connection(End(a, 0), End(z, 1)), Connection(End(a, 1), End(b, 0)), Connection(End(b, 0), End(a, 1)),
     Connection(End(y, 0), End(z, 0)), Connection(End(z, 0), End(y, 0)), Connection(End(z, 1), End(a, 0))]
  }

  function MissedOrder(a: Port, b: Port, y: Port, z: Port): seq<Connection> {
    [Connection(End(y, 0), End(z, 0)), Connection(End(z, 1), End(a, 0)), Connection(End(a, 1), End(b, 0))]
  }

  predicate Increasing(a: Port, b: Port, y: Port, z: Port) {
    EndLess(End(a, 0), End(b, 0)) && EndLess(End(b, 0), End(y, 0)) && EndLess(End(y, 0), End(z, 0))
  }

  /** The sorted list of these three connections is well formed and they can be made in index order,
      but the pass over it makes only two. */
  lemma PassIsNotComplete()
    ensures var a, b, y, z := Port("a", "p"), Port("b", "p"), Port("y", "p"), Port("z", "p");
            var cs := MissedList(a, b, y, z);
            && (forall i, j :: 0 <= i < j < |cs| ==> ConnectionLess(cs[i], cs[j]))
            && BothWays(cs) && Distinct(cs) && NoSelfLinks(cs) && NoLoops(cs) && OnePeer(cs)
            && Counted(Zeros(cs), cs)
            && |Pass(Start(cs), cs).made| == 2
            && OncePerConnection(MissedOrder(a, b, y, z), cs) && InIndexOrder(MissedOrder(a, b, y, z))
  {
    var a, b, y, z := Port("a", "p"), Port("b", "p"), Port("y", "p"), Port("z", "p");
    assert a.objectName[0] == 'a' && b.objectName[0] == 'b' && y.objectName[0] == 'y' && z.objectName[0] == 'z';
    MissedIsSorted(a, b, y, z);
    MissedIsWellFormed(a, b, y, z);
    MissedByPass(a, b, y, z);
    MissedCanBeMade(a, b, y, z);
  }

  ghost predicate Apart(a: Port, b: Port, y: Port, z: Port) {
    a != b && a != y && a != z && b != y && b != z && y != z
  }

  lemma MissedIsSorted(a: Port, b: Port, y: Port, z: Port)
    requires a.objectName == "a" && b.objectName == "b" && y.objectName == "y" && z.objectName == "z"
    ensures var cs := MissedList(a, b, y, z); forall i, j :: 0 <= i < j < |cs| ==> ConnectionLess(cs[i], cs[j])
  {
  }

  lemma MissedIsWellFormed(a: Port, b: Port, y: Port, z: Port)
    requires Apart(a, b, y, z)
    ensures var cs := MissedList(a, b, y, z);
            && BothWays(cs) && Distinct(cs) && NoSelfLinks(cs) && NoLoops(cs) && OnePeer(cs)
  {
  }

  lemma MissedByPass(a: Port, b: Port, y: Port, z: Port)
    requires Apart(a, b, y, z)
    ensures var cs := MissedList(a, b, y, z);
            Counted(Zeros(cs), cs) && |Pass(Start(cs), cs).made| == 2
  {
    hide Zeros, Pass, Try, Counted, BothWays, Distinct, NoSelfLinks, NoLoops, OnePeer, Start;
    var cs := MissedList(a, b, y, z);
    MissedIsWellFormed(a, b, y, z);
    AllCounted(cs, cs);
    StartIs(cs, cs);
    var p := Start(cs);
    CountedAt(p.next, cs, 0);
    CountedAt(p.next, cs, 1);
    CountedAt(p.next, cs, 2);
    CountedAt(p.next, cs, 3);
    Skip(p, cs, 0);
    Skip(p, cs, 1);
    Skip(p, cs, 2);
    var q := Progress(p.next[y := 1][z := 1], [cs[3]]);
    PassNext(p, cs, 3);
    TryIs(p, cs[3]);
    assert Pass(p, cs[..4]) == q;
    PassNext(p, cs, 4);
    TryIs(q, cs[4]);
    assert Pass(p, cs[..5]) == q;
    PassNext(p, cs, 5);
    TryIs(q, cs[5]);
    assert cs[..6] == cs;
  }

  /** A step that binds nothing. */
  lemma Skip(p: Progress, cs: seq<Connection>, i: nat)
    requires Counted(p.next, cs) && i < |cs|
    requires Counted(p.next, cs[..i]) && Pass(p, cs[..i]) == p
    requires cs[i].from.port in p.next && cs[i].to.port in p.next
    requires p.next[cs[i].from.port] != cs[i].from.index || p.next[cs[i].to.port] != cs[i].to.index
    ensures Counted(p.next, cs[..i + 1]) && Pass(p, cs[..i + 1]) == p
  {
    PassNext(p, cs, i);
  }

  lemma MissedCanBeMade(a: Port, b: Port, y: Port, z: Port)
    requires Apart(a, b, y, z)
    ensures OncePerConnection(MissedOrder(a, b, y, z), MissedList(a, b, y, z)) && InIndexOrder(MissedOrder(a, b, y, z))
  {
    var made := MissedOrder(a, b, y, z);
    forall p: Port
      ensures Uses(made, p) == if p == a || p == z then [0, 1] else if p == b || p == y then [0] else []
    {
      UsesSnoc([], made[0], p);
      UsesSnoc([made[0]], made[1], p);
      UsesSnoc([made[0], made[1]], made[2], p);
      assert made == [made[0], made[1]] + [made[2]] && [made[0], made[1]] == [made[0]] + [made[1]];
    }
  }
}
