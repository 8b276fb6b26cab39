/** When the sorted pass binds every port: a condition on the connections and their places in the list. */
module PortOrder {
  import opened Cycles
  import opened PortBinding

  // ----- the condition

  /** Every port's indices start at zero and have no gaps. */
  ghost predicate Contiguous(cs: seq<Connection>) {
    forall c :: c in cs ==> 0 <= c.from.index && forall j :: 0 <= j < c.from.index ==> HasEnd(cs, End(c.from.port, j))
  }

  ghost predicate HasEnd(cs: seq<Connection>, e: End) {
    exists c :: c in cs && c.from == e
  }

  predicate EndBefore(x: End, y: End) {
    x.port == y.port && x.index < y.index
  }

  /** d is a predecessor of c: it uses one of c's ports at a lower index. */
  predicate Precedes(d: Connection, c: Connection) {
    EndBefore(d.from, c.from) || EndBefore(d.from, c.to) || EndBefore(d.to, c.from) || EndBefore(d.to, c.to)
  }

  /** c waits for d. */
  function WaitsFor(): (Connection, Connection) -> bool {
    (c: Connection, d: Connection) => Precedes(d, c)
  }

  ghost function Where(cs: seq<Connection>, c: Connection): (i: nat)
    requires c in cs
    ensures i < |cs| && cs[i] == c
  {
    var i :| 0 <= i < |cs| && cs[i] == c;
    i
  }

  /** The places of the two directions of a connection. */
  ghost function Lo(cs: seq<Connection>, c: Connection): (i: nat)
    requires BothWays(cs) && c in cs
    ensures i < |cs|
  {
    if Where(cs, c) < Where(cs, Reverse(c)) then Where(cs, c) else Where(cs, Reverse(c))
  }

  ghost function Hi(cs: seq<Connection>, c: Connection): (i: nat)
    requires BothWays(cs) && c in cs
    ensures i < |cs|
  {
    if Where(cs, c) < Where(cs, Reverse(c)) then Where(cs, Reverse(c)) else Where(cs, c)
  }

  /** A chain of connections, each waiting for the next, whose first is not yet made after place `at`:
      each has a place after the first place of the one before, and the last has both. */
  ghost predicate Waits(cs: seq<Connection>, at: nat, ch: seq<Connection>)
    requires BothWays(cs)
    decreases |ch|
  {
    && ch != [] && ch[0] in cs && at < Hi(cs, ch[0])
    && if |ch| == 1 then at < Lo(cs, ch[0])
       else Precedes(ch[1], ch[0]) && Waits(cs, Lo(cs, ch[0]), ch[1..])
  }

  /** A chain that starts after the last place of c, which waits for it. */
  ghost predicate Blocked(cs: seq<Connection>, c: Connection, ch: seq<Connection>)
    requires BothWays(cs)
  {
    c in cs && ch != [] && Precedes(ch[0], c) && Waits(cs, Hi(cs, c), ch)
  }

  ghost predicate NoneBlocked(cs: seq<Connection>)
    requires BothWays(cs)
  {
    forall c: Connection, ch: seq<Connection> :: !Blocked(cs, c, ch)
  }

  // ----- the pass, place by place

  /** A list without duplicates, self-links or shared ends, and a start with nothing made. */
  ghost predicate Ready(start: Progress, cs: seq<Connection>) {
    && BothWays(cs) && Distinct(cs) && NoSelfLinks(cs) && OnePeer(cs)
    && Counted(start.next, cs) && Good(start, cs) && start.made == []
  }

  ghost function Until(start: Progress, cs: seq<Connection>, i: nat): Progress
    requires Counted(start.next, cs) && i <= |cs|
  {
    CountedPrefix(start.next, cs, i);
    Pass(start, cs[..i])
  }

  lemma CountedPrefix(next: map<Port, int>, cs: seq<Connection>, i: nat)
    requires Counted(next, cs) && i <= |cs|
    ensures Counted(next, cs[..i])
  {}

  predicate MadeBy(p: Progress, c: Connection) {
    c in p.made || Reverse(c) in p.made
  }

  /** Is c made, in either direction, when the first i places have been tried? */
  ghost predicate MadeAt(start: Progress, cs: seq<Connection>, i: nat, c: Connection)
    requires Counted(start.next, cs) && i <= |cs|
  {
    MadeBy(Until(start, cs, i), c)
  }

  ghost predicate AllPrecedingMade(p: Progress, cs: seq<Connection>, c: Connection) {
    forall d :: d in cs && Precedes(d, c) ==> MadeBy(p, d)
  }

  lemma UntilGood(start: Progress, cs: seq<Connection>, i: nat)
    requires Ready(start, cs) && i <= |cs|
    ensures Good(Until(start, cs, i), cs) && Until(start, cs, i).next.Keys == start.next.Keys
  {
    CountedPrefix(start.next, cs, i);
    PassGood(start, cs[..i], cs);
  }

  lemma UntilNext(start: Progress, cs: seq<Connection>, i: nat)
    requires Counted(start.next, cs) && i < |cs|
    ensures Until(start, cs, i).next.Keys == start.next.Keys
    ensures cs[i].from.port in start.next && cs[i].to.port in start.next
    ensures Until(start, cs, i + 1) == Try(Until(start, cs, i), cs[i])
  {
    PassNext(start, cs, i);
  }

  lemma ReverseTwice(c: Connection)
    ensures Reverse(Reverse(c)) == c
    ensures forall d :: Precedes(d, Reverse(c)) == Precedes(d, c) && Precedes(Reverse(d), c) == Precedes(d, c)
  {}

  /** A port's counter is at an end's index exactly when the lower ends are used and it is not. */
  lemma CounterAt(p: Progress, cs: seq<Connection>, c: Connection)
    requires Good(p, cs) && OnePeer(cs) && BothWays(cs) && Contiguous(cs) && c in cs
    requires c.from.port in p.next && !MadeBy(p, c)
    requires forall d :: d in cs && EndBefore(d.from, c.from) ==> MadeBy(p, d)
    ensures p.next[c.from.port] == c.from.index
  {
    var n := |Uses(p.made, c.from.port)|;
    assert 0 <= c.from.index;
    if 0 < c.from.index {
      var e := End(c.from.port, c.from.index - 1);
      assert HasEnd(cs, e);
      var d :| d in cs && d.from == e;
      assert MadeBy(p, d);
      MadeIsPassed(p, d);
    }
    if c.from.index < n { PassedIsMade(p, c, cs); }
  }

  /** A counter at an end's index means that the lower ends are used. */
  lemma LowerAreMade(p: Progress, cs: seq<Connection>, e: End, d: Connection)
    requires Good(p, cs) && OnePeer(cs) && BothWays(cs) && Contiguous(cs) && d in cs
    requires e.port in p.next && p.next[e.port] == e.index && EndBefore(d.from, e)
    ensures MadeBy(p, d)
  {
    PassedIsMade(p, d, cs);
  }

  /** A connection is made at its place exactly when it was made before or nothing it waits for is
      missing. */
  lemma TryMakes(p: Progress, cs: seq<Connection>, c: Connection)
    requires Good(p, cs) && OnePeer(cs) && BothWays(cs) && Contiguous(cs) && c in cs
    requires c.from.port in p.next && c.to.port in p.next
    ensures MadeBy(Try(p, c), c) <==> MadeBy(p, c) || AllPrecedingMade(p, cs, c)
  {
    hide Good, OnePeer, Contiguous;
    ReverseTwice(c);
    assert Reverse(c) in cs;
    if !MadeBy(p, c) {
      if AllPrecedingMade(p, cs, c) {
        CounterAt(p, cs, c);
        CounterAt(p, cs, Reverse(c));
      }
      if p.next[c.from.port] == c.from.index && p.next[c.to.port] == c.to.index {
        forall d | d in cs && Precedes(d, c) ensures MadeBy(p, d) {
          ReverseTwice(d);
          assert Reverse(d) in cs;
          if EndBefore(d.from, c.from) { LowerAreMade(p, cs, c.from, d); }
          else if EndBefore(d.from, c.to) { LowerAreMade(p, cs, c.to, d); }
          else if EndBefore(d.to, c.from) { LowerAreMade(p, cs, c.from, Reverse(d)); }
          else { LowerAreMade(p, cs, c.to, Reverse(d)); }
        }
      }
    }
  }

  lemma TryKeeps(p: Progress, c: Connection, d: Connection)
    requires c.from.port in p.next && c.to.port in p.next
    ensures MadeBy(p, d) ==> MadeBy(Try(p, c), d)
    ensures MadeBy(Try(p, c), d) && !MadeBy(p, d) ==> d == c || d == Reverse(c)
  {
    ReverseTwice(d);
  }

  /** One place of the list. */
  lemma Place(start: Progress, cs: seq<Connection>, i: nat, d: Connection)
    requires Ready(start, cs) && i < |cs|
    ensures MadeAt(start, cs, i, d) ==> MadeAt(start, cs, i + 1, d)
    ensures MadeAt(start, cs, i + 1, d) && !MadeAt(start, cs, i, d) ==> d == cs[i] || d == Reverse(cs[i])
  {
    hide Good, Try, MadeBy;
    UntilNext(start, cs, i);
    TryKeeps(Until(start, cs, i), cs[i], d);
  }

  lemma OwnPlace(start: Progress, cs: seq<Connection>, i: nat)
    requires Ready(start, cs) && Contiguous(cs) && i < |cs|
    ensures MadeAt(start, cs, i + 1, cs[i])
            <==> MadeAt(start, cs, i, cs[i]) || AllPrecedingMade(Until(start, cs, i), cs, cs[i])
  {
    hide Good, Try, MadeBy, AllPrecedingMade, Contiguous;
    UntilNext(start, cs, i);
    UntilGood(start, cs, i);
    TryMakes(Until(start, cs, i), cs, cs[i]);
  }

  lemma {:induction false} StaysMade(start: Progress, cs: seq<Connection>, i: nat, j: nat, d: Connection)
    requires Ready(start, cs) && i <= j <= |cs| && MadeAt(start, cs, i, d)
    ensures MadeAt(start, cs, j, d)
    decreases j
  {
    hide Ready, MadeAt;
    ReadyCounted(start, cs);
    if i < j {
      StaysMade(start, cs, i, j - 1, d);
      Place(start, cs, j - 1, d);
    }
  }

  lemma ReadyCounted(start: Progress, cs: seq<Connection>)
    requires Ready(start, cs)
    ensures Counted(start.next, cs) && BothWays(cs)
  {}

  /** Nothing changes for a connection between its places. */
  lemma {:induction false} OnlyAtPlaces(start: Progress, cs: seq<Connection>, i: nat, j: nat, c: Connection)
    requires Ready(start, cs) && i <= j <= |cs|
    requires forall k :: i <= k < j ==> cs[k] != c && cs[k] != Reverse(c)
    ensures MadeAt(start, cs, i, c) <==> MadeAt(start, cs, j, c)
    decreases j
  {
    hide Ready, MadeAt;
    ReadyCounted(start, cs);
    ReverseTwice(c);
    if i < j {
      OnlyAtPlaces(start, cs, i, j - 1, c);
      Place(start, cs, j - 1, c);
    }
  }

  lemma PlacesAre(cs: seq<Connection>, c: Connection)
    requires BothWays(cs) && Distinct(cs) && NoSelfLinks(cs) && c in cs
    ensures Lo(cs, c) < Hi(cs, c)
    ensures forall k :: 0 <= k < |cs| && (cs[k] == c || cs[k] == Reverse(c)) ==> k == Lo(cs, c) || k == Hi(cs, c)
    ensures cs[Lo(cs, c)] == c || cs[Lo(cs, c)] == Reverse(c)
    ensures cs[Hi(cs, c)] == c || cs[Hi(cs, c)] == Reverse(c)
  {
    assert c != Reverse(c);
  }

  lemma ReadyPlaces(start: Progress, cs: seq<Connection>, c: Connection)
    requires Ready(start, cs) && c in cs
    ensures Counted(start.next, cs) && BothWays(cs)
    ensures Lo(cs, c) < Hi(cs, c)
    ensures forall k :: 0 <= k < |cs| && (cs[k] == c || cs[k] == Reverse(c)) ==> k == Lo(cs, c) || k == Hi(cs, c)
  {
    PlacesAre(cs, c);
  }

  /** The two places decide: made after a place exactly when made before or nothing is missing. */
  lemma AtPlace(start: Progress, cs: seq<Connection>, c: Connection, k: nat)
    requires Ready(start, cs) && Contiguous(cs) && c in cs && k < |cs| && (cs[k] == c || cs[k] == Reverse(c))
    ensures MadeAt(start, cs, k + 1, c)
            <==> MadeAt(start, cs, k, c) || AllPrecedingMade(Until(start, cs, k), cs, c)
  {
    ReverseTwice(c);
    OwnPlace(start, cs, k);
  }

  lemma NotMadeBeforeLo(start: Progress, cs: seq<Connection>, c: Connection, i: nat)
    requires Ready(start, cs) && c in cs && i <= Lo(cs, c)
    ensures !MadeAt(start, cs, i, c)
  {
    PlacesAre(cs, c);
    StartMadeNone(start, cs, c);
    OnlyAtPlaces(start, cs, 0, i, c);
  }

  lemma StartMadeNone(start: Progress, cs: seq<Connection>, c: Connection)
    requires Ready(start, cs)
    ensures !MadeAt(start, cs, 0, c)
  {
    assert cs[..0] == [];
  }

  /** Not made after the first place means not made before the second. */
  lemma NotMadeBetween(start: Progress, cs: seq<Connection>, c: Connection, i: nat)
    requires Ready(start, cs) && c in cs && i <= Hi(cs, c) && !MadeAt(start, cs, Lo(cs, c) + 1, c)
    ensures !MadeAt(start, cs, i, c)
  {
    hide *;
    ReadyPlaces(start, cs, c);
    if i <= Lo(cs, c) { NotMadeBeforeLo(start, cs, c, i); } else { OnlyAtPlaces(start, cs, Lo(cs, c) + 1, i, c); }
  }

  /** Not made after the second place means never made. */
  lemma NotMadeAfterHi(start: Progress, cs: seq<Connection>, c: Connection)
    requires Ready(start, cs) && c in cs && !MadeAt(start, cs, Hi(cs, c) + 1, c)
    ensures !MadeAt(start, cs, |cs|, c)
  {
    hide *;
    ReadyPlaces(start, cs, c);
    OnlyAtPlaces(start, cs, Hi(cs, c) + 1, |cs|, c);
  }

  // ----- what waits is not made

  lemma {:induction false} WaitsNotMade(start: Progress, cs: seq<Connection>, at: nat, ch: seq<Connection>)
    requires Ready(start, cs) && Contiguous(cs) && Waits(cs, at, ch)
    ensures at < |cs| && !MadeAt(start, cs, at + 1, ch[0])
    decreases |ch|
  {
    hide Good, Contiguous, MadeAt, Until, AllPrecedingMade, Lo, Hi;
    var c := ch[0];
    if |ch| == 1 {
      NotMadeBeforeLo(start, cs, c, at + 1);
    } else {
      WaitsNotMade(start, cs, Lo(cs, c), ch[1..]);
      WaitingNotMade(start, cs, c, Lo(cs, c), ch[1]);
      NotMadeBetween(start, cs, c, at + 1);
    }
  }

  /** A connection is not made at a place when something it waits for is not, and was not made before. */
  lemma WaitingNotMade(start: Progress, cs: seq<Connection>, c: Connection, k: nat, d: Connection)
    requires Ready(start, cs) && Contiguous(cs) && c in cs && d in cs && Precedes(d, c)
    requires k == Lo(cs, c) || (k == Hi(cs, c) && !MadeAt(start, cs, Lo(cs, c) + 1, c))
    requires !MadeAt(start, cs, k + 1, d)
    ensures !MadeAt(start, cs, k + 1, c)
  {
    hide Good, Contiguous;
    PlacesAre(cs, c);
    Place(start, cs, k, d);
    NotMadeBeforeLo(start, cs, c, Lo(cs, c));
    if k == Hi(cs, c) { NotMadeBetween(start, cs, c, k); }
    AtPlace(start, cs, c, k);
  }

  lemma BlockedNotMade(start: Progress, cs: seq<Connection>, c: Connection, ch: seq<Connection>)
    requires Ready(start, cs) && Contiguous(cs) && Blocked(cs, c, ch)
    ensures !MadeAt(start, cs, |cs|, c)
  {
    hide Good, Contiguous, MadeAt, Until;
    var d := ch[0];
    WaitsNotMade(start, cs, Hi(cs, c), ch);
    PlacesAre(cs, c);
    if MadeAt(start, cs, Lo(cs, c) + 1, d) { StaysMade(start, cs, Lo(cs, c) + 1, Hi(cs, c) + 1, d); }
    WaitingNotMade(start, cs, c, Lo(cs, c), d);
    WaitingNotMade(start, cs, c, Hi(cs, c), d);
    NotMadeAfterHi(start, cs, c);
  }

  lemma {:induction false} CyclicNotMade(start: Progress, cs: seq<Connection>, c: Connection, i: nat)
    requires Ready(start, cs) && Contiguous(cs) && i <= |cs|
    requires LeadsToCycle(WaitsFor(), Members(cs), c)
    ensures !MadeAt(start, cs, i, c)
    decreases i
  {
    hide Good, Contiguous, Ready, MadeAt, Until, LeadsToCycle;
    ReadyCounted(start, cs);
    if i == 0 {
      StartMadeNone(start, cs, c);
    } else {
      var d := LeadsOn(WaitsFor(), Members(cs), c);
      CyclicNotMade(start, cs, c, i - 1);
      CyclicNotMade(start, cs, d, i - 1);
      ReverseTwice(c);
      Place(start, cs, i - 1, c);
      if cs[i - 1] == c || cs[i - 1] == Reverse(c) {
        AtPlace(start, cs, c, i - 1);
        MissingPreceding(start, cs, i - 1, c, d);
      }
    }
  }

  lemma MissingPreceding(start: Progress, cs: seq<Connection>, i: nat, c: Connection, d: Connection)
    requires Counted(start.next, cs) && i <= |cs| && d in cs && Precedes(d, c) && !MadeAt(start, cs, i, d)
    ensures !AllPrecedingMade(Until(start, cs, i), cs, c)
  {}

  // ----- what is not made waits

  /** A connection that is made late heads a chain. */
  lemma {:induction false} LateWaits(start: Progress, cs: seq<Connection>, at: nat, c: Connection, end: nat)
    returns (ch: seq<Connection>)
    requires Ready(start, cs) && Contiguous(cs) && c in cs && at + 1 <= end <= |cs|
    requires !MadeAt(start, cs, at + 1, c) && MadeAt(start, cs, end, c)
    ensures ch != [] && ch[0] == c && Waits(cs, at, ch)
    decreases end
  {
    hide Good, Contiguous, MadeAt, Until;
    var lo, hi := Lo(cs, c), Hi(cs, c);
    PlacesAre(cs, c);
    MadeNeedsPlace(start, cs, at, c, end);
    if at < lo {
      ch := [c];
    } else {
      if MadeAt(start, cs, lo + 1, c) { StaysMade(start, cs, lo + 1, at + 1, c); }
      MadeAtSecond(start, cs, c, end);
      var d := MissingAt(start, cs, c, lo);
      NeededMade(start, cs, c, hi, d);
      var rest := LateWaits(start, cs, lo, d, hi);
      ch := [c] + rest;
      assert ch[1..] == rest;
    }
  }

  /** It has a place after `at`. */
  lemma MadeNeedsPlace(start: Progress, cs: seq<Connection>, at: nat, c: Connection, end: nat)
    requires Ready(start, cs) && c in cs && at + 1 <= end <= |cs|
    requires !MadeAt(start, cs, at + 1, c) && MadeAt(start, cs, end, c)
    ensures at < Hi(cs, c)
    ensures Lo(cs, c) <= at ==> Hi(cs, c) < end
  {
    hide *;
    ReadyPlaces(start, cs, c);
    var hi := Hi(cs, c);
    if hi <= at { OnlyAtPlaces(start, cs, at + 1, end, c); }
    if Lo(cs, c) <= at && end <= hi { OnlyAtPlaces(start, cs, at + 1, end, c); }
  }

  /** Not made at its first place, it is made at its second. */
  lemma MadeAtSecond(start: Progress, cs: seq<Connection>, c: Connection, end: nat)
    requires Ready(start, cs) && c in cs && Hi(cs, c) < end <= |cs|
    requires !MadeAt(start, cs, Lo(cs, c) + 1, c) && MadeAt(start, cs, end, c)
    ensures !MadeAt(start, cs, Hi(cs, c), c) && MadeAt(start, cs, Hi(cs, c) + 1, c)
  {
    hide *;
    ReadyPlaces(start, cs, c);
    NotMadeBetween(start, cs, c, Hi(cs, c));
    OnlyAtPlaces(start, cs, Hi(cs, c) + 1, end, c);
  }

  /** What is missing when a connection is not made at one of its places. */
  lemma MissingAt(start: Progress, cs: seq<Connection>, c: Connection, k: nat) returns (d: Connection)
    requires Ready(start, cs) && Contiguous(cs) && c in cs && (k == Lo(cs, c) || k == Hi(cs, c))
    requires !MadeAt(start, cs, k + 1, c)
    ensures d in cs && Precedes(d, c) && !MadeAt(start, cs, k + 1, d)
  {
    hide Good, Contiguous;
    PlacesAre(cs, c);
    AtPlace(start, cs, c, k);
    d :| d in cs && Precedes(d, c) && !MadeBy(Until(start, cs, k), d);
    ReverseTwice(c);
    ReverseTwice(d);
    Place(start, cs, k, d);
  }

  /** What a connection waits for is there when it is made. */
  lemma NeededMade(start: Progress, cs: seq<Connection>, c: Connection, k: nat, d: Connection)
    requires Ready(start, cs) && Contiguous(cs) && c in cs && k == Hi(cs, c) && d in cs && Precedes(d, c)
    requires !MadeAt(start, cs, k, c) && MadeAt(start, cs, k + 1, c)
    ensures MadeAt(start, cs, k, d)
  {
    hide Good, Contiguous;
    PlacesAre(cs, c);
    AtPlace(start, cs, c, k);
  }

  ghost function Missing(start: Progress, cs: seq<Connection>): set<Connection>
    requires Counted(start.next, cs)
  {
    set c | c in cs && !MadeAt(start, cs, |cs|, c)
  }

  /** Something missing means a cycle or a blocked connection. */
  lemma MissingMeansBlocked(start: Progress, cs: seq<Connection>)
    requires Ready(start, cs) && Contiguous(cs) && Missing(start, cs) != {}
    ensures !Acyclic(WaitsFor(), Members(cs)) || !NoneBlocked(cs)
  {
    hide Good, Contiguous, MadeAt, LeadsToCycle, Acyclic, Waits;
    var u, e := Missing(start, cs), WaitsFor();
    if NoSink(e, u) {
      var c :| c in u;
      NoSinkLeads(e, u, c);
      LeadsInSuperset(e, u, Members(cs), c);
      AcyclicMeansNoneLeads(e, Members(cs));
    } else {
      var c :| c in u && !HasNext(e, u, c);
      if MadeAt(start, cs, Hi(cs, c) + 1, c) { StaysMade(start, cs, Hi(cs, c) + 1, |cs|, c); }
      var d := MissingAt(start, cs, c, Hi(cs, c));
      assert e(c, d) && d !in u;
      var ch := LateWaits(start, cs, Hi(cs, c), d, |cs|);
      assert Blocked(cs, c, ch);
    }
  }

  // ----- the characterisation

  lemma AllMadeIsOnce(start: Progress, cs: seq<Connection>)
    requires Ready(start, cs)
    ensures OncePerConnection(Pass(start, cs).made, cs) <==> Missing(start, cs) == {}
  {
    UntilGood(start, cs, |cs|);
    assert cs[..|cs|] == cs;
    var p := Pass(start, cs);
    if OncePerConnection(p.made, cs) {
      forall c | c in cs ensures MadeAt(start, cs, |cs|, c) {}
      assert Missing(start, cs) == {};
    }
    if Missing(start, cs) == {} {
      forall c | c in cs ensures c in p.made <==> Reverse(c) !in p.made {
        ReverseTwice(c);
        assert c !in Missing(start, cs);
        assert MadeBy(p, c);
      }
    }
  }

  /** When every connection is made, every port's indices are used from zero on. */
  lemma AllMadeIsContiguous(p: Progress, cs: seq<Connection>)
    requires Good(p, cs) && BothWays(cs) && OncePerConnection(p.made, cs)
    ensures Contiguous(cs)
  {
    forall c | c in cs
      ensures 0 <= c.from.index && forall j :: 0 <= j < c.from.index ==> HasEnd(cs, End(c.from.port, j))
    {
      ReverseTwice(c);
      MadeIsUsed(p.made, if c in p.made then c else Reverse(c));
      var u := Uses(p.made, c.from.port);
      var n :| 0 <= n < |u| && u[n] == c.from.index;
      assert n == c.from.index;
      forall j | 0 <= j < c.from.index ensures HasEnd(cs, End(c.from.port, j)) {
        assert u[j] == j;
        var d := UsedIsMade(p.made, End(c.from.port, j));
        assert d in cs && Reverse(d) in cs;
        assert d.from == End(c.from.port, j) || Reverse(d).from == End(c.from.port, j);
      }
    }
  }

  /** The pass over a list makes every connection if and only if the indices of every port are contiguous,
      no connections wait for each other in a cycle, and no chain blocks a connection. */
  lemma PassCompletes(start: Progress, cs: seq<Connection>)
    requires Ready(start, cs)
    ensures OncePerConnection(Pass(start, cs).made, cs)
            <==> Contiguous(cs) && Acyclic(WaitsFor(), Members(cs)) && NoneBlocked(cs)
  {
    hide Good, Contiguous, OncePerConnection, Acyclic, LeadsToCycle, MadeAt, Blocked;
    var p, e := Pass(start, cs), WaitsFor();
    AllMadeIsOnce(start, cs);
    UntilGood(start, cs, |cs|);
    assert cs[..|cs|] == cs;
    if OncePerConnection(p.made, cs) {
      AllMadeIsContiguous(p, cs);
      NothingMissing(start, cs);
      forall c | c in Members(cs) ensures !LeadsToCycle(e, Members(cs), c) {
        if LeadsToCycle(e, Members(cs), c) {
          CyclicNotMade(start, cs, c, |cs|);
        }
      }
      AcyclicMeansNoneLeads(e, Members(cs));
      forall c: Connection, ch: seq<Connection> ensures !Blocked(cs, c, ch) {
        if Blocked(cs, c, ch) {
          BlockedIn(cs, c, ch);
          BlockedNotMade(start, cs, c, ch);
        }
      }
    } else if Contiguous(cs) {
      MissingMeansBlocked(start, cs);
    }
  }

  lemma NothingMissing(start: Progress, cs: seq<Connection>)
    requires Counted(start.next, cs) && Missing(start, cs) == {}
    ensures forall c :: c in Members(cs) ==> c in cs && MadeAt(start, cs, |cs|, c)
  {
    forall c | c in cs ensures MadeAt(start, cs, |cs|, c) {
      assert c !in Missing(start, cs);
    }
  }

  lemma BlockedIn(cs: seq<Connection>, c: Connection, ch: seq<Connection>)
    requires BothWays(cs) && Blocked(cs, c, ch)
    ensures c in cs
  {}

  // ----- for the program's lists

  lemma {:induction false} CountOnce(cs: seq<Connection>, c: Connection)
    requires Distinct(cs)
    ensures multiset(cs)[c] <= 1
  {
    if cs != [] {
      var init := cs[..|cs| - 1];
      assert cs == init + [cs[|cs| - 1]];
      CountOnce(init, c);
      if c == cs[|cs| - 1] { assert c !in init; }
    }
  }

  lemma StaysDistinct(a: seq<Connection>, b: seq<Connection>)
    requires Reordering(a, b) && Distinct(b)
    ensures Distinct(a)
  {
    forall i, j | 0 <= i < j < |a| ensures a[i] != a[j] {
      var x, y := a[..i + 1], a[i + 1..];
      assert a == x + y;
      assert a[i] in x && a[j] in y by { assert x[i] == a[i] && y[j - i - 1] == a[j]; }
      CountOnce(b, a[i]);
      assert multiset(a)[a[i]] == multiset(x)[a[i]] + multiset(y)[a[i]];
    }
  }

  /** The port binder binds every connection if and only if every port's indices are contiguous, the
      connections do not wait for each other in a cycle, and no chain blocks one of them. */
  lemma BinderCompletes(connections: seq<Connection>, sorted: seq<Connection>)
    requires BothWays(connections) && Distinct(connections) && NoSelfLinks(connections) && OnePeer(connections)
    requires Reordering(sorted, connections)
    ensures Counted(Zeros(connections), sorted) && BothWays(sorted)
    ensures OncePerConnection(Pass(Start(connections), sorted).made, connections)
            <==> Contiguous(connections) && Acyclic(WaitsFor(), Members(connections)) && NoneBlocked(sorted)
  {
    hide Good, Acyclic, Waits, Zeros;
    SameMembers(sorted, connections);
    AllCounted(sorted, connections);
    StartGood(connections);
    StaysDistinct(sorted, connections);
    GoodForSame(Start(connections), connections, sorted);
    assert Members(sorted) == Members(connections);
    SameContiguous(sorted, connections);
    PassCompletes(Start(connections), sorted);
  }

  lemma GoodForSame(p: Progress, a: seq<Connection>, b: seq<Connection>)
    requires Good(p, a) && forall c :: c in a <==> c in b
    ensures Good(p, b)
  {}

  lemma SameContiguous(a: seq<Connection>, b: seq<Connection>)
    requires forall c :: c in a <==> c in b
    ensures Contiguous(a) <==> Contiguous(b)
  {
    forall e: End ensures HasEnd(a, e) <==> HasEnd(b, e) {
      if HasEnd(a, e) { var c :| c in a && c.from == e; assert c in b; }
      if HasEnd(b, e) { var c :| c in b && c.from == e; assert c in a; }
    }
  }
}
