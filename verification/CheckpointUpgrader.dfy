/** Checkpoint migration: upgraders that depend on tags are applied in rounds until every known tag is
    present or no tag that is left can be applied.  What is left then leads to a cycle. */
module CheckpointUpgrader {
  import opened Cycles
  import opened Wrappers

  /** A tag is identified by its name. */
  datatype Tag = Tag(name: string)

  /** An upgrader script after the checks of its constructor. */
  datatype Upgrader = Upgrader(tag: Tag, depends: seq<Tag>, fwdDepends: seq<Tag>, legacyVersion: Option<nat>)

  datatype LoadError = LegacyGap | NoForwardTag(tag: Tag) | NoSuchTag(tag: Tag)

  /** What processing one checkpoint ends in. */
  datatype Outcome =
    | Migrated(tags: set<Tag>, applied: seq<Tag>, change: bool)
    | Stuck(remaining: set<Tag>)
    | UnknownVersion
    | NoVersion

  // ----- dependency graphs

  type Graph = map<Tag, set<Tag>>

  function Deps(g: Graph, t: Tag): set<Tag> {
    if t in g then g[t] else {}
  }

  /** a depends on b. */
  function DependsOn(g: Graph): (Tag, Tag) -> bool {
    (a: Tag, b: Tag) => b in Deps(g, a)
  }

  /** Tags that lead to a cycle are never ready while all of them are missing. */
  lemma LeadingNotReady(g: Graph, missing: set<Tag>, tags: set<Tag>, t: Tag)
    requires LeadsToCycle(DependsOn(g), missing, t)
    requires forall u :: u in missing && LeadsToCycle(DependsOn(g), missing, u) ==> u !in tags
    ensures !(Deps(g, t) <= tags)
  {
    var d := LeadsOn(DependsOn(g), missing, t);
  }

  // ----- what a correct order of application is

  ghost predicate NoDuplicates(s: seq<Tag>) {
    forall i, j :: 0 <= i < j < |s| ==> s[i] != s[j]
  }

  function Elements(s: seq<Tag>): set<Tag> {
    set t | t in s
  }

  /** Everything an applied tag depends on was present at the start or applied before it. */
  ghost predicate Ordered(g: Graph, start: set<Tag>, applied: seq<Tag>) {
    forall k :: 0 <= k < |applied| ==> Deps(g, applied[k]) <= start + Elements(applied[..k])
  }

  lemma OrderedSnoc(g: Graph, start: set<Tag>, applied: seq<Tag>, t: Tag)
    requires Ordered(g, start, applied) && Deps(g, t) <= start + Elements(applied)
    requires NoDuplicates(applied) && t !in Elements(applied)
    ensures Ordered(g, start, applied + [t]) && NoDuplicates(applied + [t])
    ensures Elements(applied + [t]) == Elements(applied) + {t}
  {
    var a := applied + [t];
    forall k | 0 <= k < |a| ensures Deps(g, a[k]) <= start + Elements(a[..k]) {
      if k < |applied| { assert a[..k] == applied[..k]; } else { assert a[..k] == applied; }
    }
  }

  // ----- the loaded upgraders as values

  /** The class-level dictionaries point at loaded upgraders. */
  ghost predicate Indexes(ups: seq<Upgrader>, byTag: map<Tag, nat>, legacy: map<nat, nat>) {
    && (forall t :: t in byTag ==> byTag[t] < |ups| && ups[byTag[t]].tag == t)
    && (forall v :: v in legacy ==>
          legacy[v] < |ups| && ups[legacy[v]].legacyVersion == Some(v) && ups[legacy[v]].tag in byTag)
  }

  /** Legacy versions 2 to v are all present. */
  predicate Chained(legacy: map<nat, nat>, v: nat) {
    forall u :: 2 <= u <= v ==> u in legacy
  }

  /** The dependencies of upgrader k once its legacy version is linked to the one before. */
  function Linked(ups: seq<Upgrader>, legacy: map<nat, nat>, k: nat): seq<Tag>
    requires k < |ups| && forall v :: v in legacy ==> legacy[v] < |ups|
  {
    match ups[k].legacyVersion
    case None => ups[k].depends
    case Some(v) =>
      if 3 <= v && Chained(legacy, v) && legacy[v] == k then [ups[legacy[v - 1]].tag] else ups[k].depends
  }

  /** With versions 2 to v at hand, the script of version v depends on that of version v - 1 and nothing else; a
      script without a version, or behind a gap, keeps its own dependencies. */
  lemma LinkedMeans(ups: seq<Upgrader>, byTag: map<Tag, nat>, legacy: map<nat, nat>, v: nat)
    requires Indexes(ups, byTag, legacy) && 3 <= v && v in legacy
    ensures (forall u :: 2 <= u <= v ==> u in legacy) ==>
              Linked(ups, legacy, legacy[v]) == [ups[legacy[v - 1]].tag]
    ensures !(forall u :: 2 <= u <= v ==> u in legacy) ==> Linked(ups, legacy, legacy[v]) == ups[legacy[v]].depends
    ensures forall k :: 0 <= k < |ups| && ups[k].legacyVersion.None? ==> Linked(ups, legacy, k) == ups[k].depends
  {}

  /** All upgraders with their legacy links. */
  function LinkedAll(ups: seq<Upgrader>, legacy: map<nat, nat>): seq<Upgrader>
    requires forall v :: v in legacy ==> legacy[v] < |ups|
  {
    seq(|ups|, k requires 0 <= k < |ups| => ups[k].(depends := Linked(ups, legacy, k)))
  }

  /** Where the last script with each tag is. */
  function TagIndex(files: seq<Upgrader>): map<Tag, nat> {
    if files == [] then map[]
    else TagIndex(files[..|files| - 1])[files[|files| - 1].tag := |files| - 1]
  }

  /** Where the last script with each legacy version is. */
  function LegacyIndex(files: seq<Upgrader>): map<nat, nat> {
    if files == [] then map[]
    else
      var before, last := LegacyIndex(files[..|files| - 1]), files[|files| - 1];
      if last.legacyVersion.Some? then before[last.legacyVersion.value := |files| - 1] else before
  }

  lemma IndexNone()
    ensures TagIndex([]) == map[] && LegacyIndex([]) == map[]
  {}

  lemma IndexNext(files: seq<Upgrader>, n: nat)
    requires n < |files|
    ensures TagIndex(files[..n + 1]) == TagIndex(files[..n])[files[n].tag := n]
    ensures LegacyIndex(files[..n + 1])
         == if files[n].legacyVersion.Some? then LegacyIndex(files[..n])[files[n].legacyVersion.value := n]
            else LegacyIndex(files[..n])
  {
    assert files[..n + 1][..n] == files[..n] && files[..n + 1][n] == files[n];
  }

  function LinkedBelow(ups: seq<Upgrader>, legacy: map<nat, nat>, limit: nat, k: nat): seq<Tag>
    requires k < |ups| && forall v :: v in legacy ==> legacy[v] < |ups|
  {
    if ups[k].legacyVersion.Some? && ups[k].legacyVersion.value < limit then Linked(ups, legacy, k) else ups[k].depends
  }

  /** Those of the tags in `done` whose upgraders list t as a forward dependency. */
  function Forwarders(ups: seq<Upgrader>, byTag: map<Tag, nat>, done: set<Tag>, t: Tag): set<Tag>
    requires done <= byTag.Keys && forall u :: u in byTag ==> byTag[u] < |ups|
  {
    set u | u in done && t in ups[byTag[u]].fwdDepends
  }

  lemma ForwardersMore(ups: seq<Upgrader>, byTag: map<Tag, nat>, done: set<Tag>, t: Tag, tag: Tag)
    requires done <= byTag.Keys && tag in byTag && forall u :: u in byTag ==> byTag[u] < |ups|
    ensures Forwarders(ups, byTag, done + {tag}, t)
         == Forwarders(ups, byTag, done, t) + if t in Elements(ups[byTag[tag]].fwdDepends) then {tag} else {}
  {
    var was, now, fwd := Forwarders(ups, byTag, done, t), Forwarders(ups, byTag, done + {tag}, t), ups[byTag[tag]].fwdDepends;
    assert t in Elements(fwd) <==> t in fwd;
    forall u ensures u in now <==> u in was + if t in Elements(fwd) then {tag} else {} {}
  }

  function GraphOf(ups: seq<Upgrader>, byTag: map<Tag, nat>): (g: Graph)
    requires forall t :: t in byTag ==> byTag[t] < |ups|
    ensures g.Keys == byTag.Keys
  {
    map t | t in byTag :: Elements(ups[byTag[t]].depends)
  }

  /** Two lists of upgraders that differ only in dependencies. */
  ghost predicate SameBut(ups: seq<Upgrader>, ups': seq<Upgrader>) {
    |ups| == |ups'| && forall k :: 0 <= k < |ups| ==> ups'[k] == ups[k].(depends := ups'[k].depends)
  }

  ghost predicate LinkedUpTo(ups: seq<Upgrader>, cur: seq<Upgrader>, byTag: map<Tag, nat>, legacy: map<nat, nat>, i: nat) {
    && Indexes(ups, byTag, legacy) && Indexes(cur, byTag, legacy) && SameBut(ups, cur)
    && 3 <= i && (3 < i ==> Chained(legacy, i - 1))
    && forall k :: 0 <= k < |ups| ==> cur[k].depends == LinkedBelow(ups, legacy, i, k)
  }

  lemma LinkStart(ups: seq<Upgrader>, byTag: map<Tag, nat>, legacy: map<nat, nat>)
    requires Indexes(ups, byTag, legacy)
    ensures LinkedUpTo(ups, ups, byTag, legacy, 3)
  {}

  lemma LinkFacts(ups: seq<Upgrader>, cur: seq<Upgrader>, byTag: map<Tag, nat>, legacy: map<nat, nat>, i: nat)
    requires LinkedUpTo(ups, cur, byTag, legacy, i) && i in legacy
    ensures 3 <= i && Indexes(cur, byTag, legacy) && SameBut(ups, cur)
    ensures i - 1 in legacy <==> i != 3 || 2 in legacy
    ensures 3 < i ==> 2 in legacy && 3 in legacy
  {}

  lemma LinkStep(ups: seq<Upgrader>, cur: seq<Upgrader>, byTag: map<Tag, nat>, legacy: map<nat, nat>, i: nat)
    requires LinkedUpTo(ups, cur, byTag, legacy, i) && i in legacy && i - 1 in legacy
    ensures legacy[i] < |cur| && legacy[i - 1] < |cur|
    ensures Indexes(cur, byTag, legacy)
    ensures var k := legacy[i];
            LinkedUpTo(ups, cur[k := cur[k].(depends := [cur[legacy[i - 1]].tag])], byTag, legacy, i + 1)
  {
    hide Indexes, Linked, LinkedBelow, Chained;
    ChainedNext(legacy, i);
    OneMoreLink(ups, byTag, legacy, i);
    IndexesUpdate(cur, legacy[i], [cur[legacy[i - 1]].tag], byTag, legacy);
  }

  lemma ChainedNext(legacy: map<nat, nat>, i: nat)
    requires 3 <= i && i in legacy && i - 1 in legacy && (3 < i ==> Chained(legacy, i - 1))
    ensures Chained(legacy, i)
  {}

  lemma IndexesUpdate(ups: seq<Upgrader>, k: nat, d: seq<Tag>, byTag: map<Tag, nat>, legacy: map<nat, nat>)
    requires Indexes(ups, byTag, legacy) && k < |ups|
    ensures Indexes(ups[k := ups[k].(depends := d)], byTag, legacy)
  {
    var next := ups[k := ups[k].(depends := d)];
    assert forall j :: 0 <= j < |ups| ==> next[j].tag == ups[j].tag && next[j].legacyVersion == ups[j].legacyVersion;
  }

  lemma OneMoreLink(ups: seq<Upgrader>, byTag: map<Tag, nat>, legacy: map<nat, nat>, i: nat)
    requires Indexes(ups, byTag, legacy) && 3 <= i && i in legacy && Chained(legacy, i)
    ensures legacy[i] < |ups| && i - 1 in legacy && legacy[i - 1] < |ups|
    ensures forall j :: 0 <= j < |ups| ==>
              LinkedBelow(ups, legacy, i + 1, j) ==
              if j == legacy[i] then [ups[legacy[i - 1]].tag] else LinkedBelow(ups, legacy, i, j)
  {}

  lemma LinkEnd(ups: seq<Upgrader>, cur: seq<Upgrader>, byTag: map<Tag, nat>, legacy: map<nat, nat>, i: nat)
    requires LinkedUpTo(ups, cur, byTag, legacy, i) && i !in legacy
    ensures Indexes(cur, byTag, legacy) && SameBut(ups, cur)
    ensures 3 in legacy ==> 2 in legacy
    ensures forall k :: 0 <= k < |cur| ==> cur[k].depends == Linked(ups, legacy, k)
  {
    forall k | 0 <= k < |ups| ensures cur[k].depends == Linked(ups, legacy, k) {
      match ups[k].legacyVersion
      case None =>
      case Some(v) => assert i <= v ==> !Chained(legacy, v);
    }
  }

  /** One forward dependency of `tag`: upgrader k gains it. */
  function Gain(ups: seq<Upgrader>, k: nat, tag: Tag): seq<Upgrader>
    requires k < |ups|
  {
    ups[k := ups[k].(depends := ups[k].depends + [tag])]
  }

  /** The dependency sets after `tag` was passed to the upgraders named in `to`. */
  ghost predicate Passed(ups: seq<Upgrader>, cur: seq<Upgrader>, byTag: map<Tag, nat>, tag: Tag, to: set<Tag>) {
    && SameBut(ups, cur)
    && (forall t :: t in byTag ==> byTag[t] < |ups| && ups[byTag[t]].tag == t)
    && forall t :: t in byTag ==>
         Elements(cur[byTag[t]].depends) == Elements(ups[byTag[t]].depends) + if t in to then {tag} else {}
  }

  lemma PassOne(ups: seq<Upgrader>, cur: seq<Upgrader>, byTag: map<Tag, nat>, tag: Tag, to: set<Tag>, fd: Tag)
    requires Passed(ups, cur, byTag, tag, to) && fd in byTag
    ensures byTag[fd] < |cur| && Passed(ups, Gain(cur, byTag[fd], tag), byTag, tag, to + {fd})
  {
    var k := byTag[fd];
    var next := Gain(cur, k, tag);
    forall t | t in byTag
      ensures Elements(next[byTag[t]].depends) == Elements(ups[byTag[t]].depends) + if t in to + {fd} then {tag} else {}
    {
      if byTag[t] == k {
        assert t == fd;
        ElementsSnoc(cur[k].depends, tag);
      }
    }
  }

  lemma ElementsSnoc(s: seq<Tag>, t: Tag)
    ensures Elements(s + [t]) == Elements(s) + {t}
  {}

  lemma NothingGained(ups: seq<Upgrader>)
    ensures SameBut(ups, ups)
  {}

  lemma GainKeeps(ups: seq<Upgrader>, cur: seq<Upgrader>, byTag: map<Tag, nat>, legacy: map<nat, nat>, k: nat, tag: Tag)
    requires Indexes(cur, byTag, legacy) && SameBut(ups, cur) && k < |cur|
    ensures Indexes(Gain(cur, k, tag), byTag, legacy) && SameBut(ups, Gain(cur, k, tag))
  {}

  lemma ElementsTake(s: seq<Tag>, n: nat)
    requires n < |s|
    ensures Elements(s[..n + 1]) == Elements(s[..n]) + {s[n]} && s[n] in Elements(s)
    ensures Elements(s[..|s|]) == Elements(s) && Elements(s[..0]) == {}
  {
    assert s[..n + 1] == s[..n] + [s[n]];
    assert s[..|s|] == s;
  }

  // ----- the registry

  class Registry {
    var upgraders: seq<Upgrader>
    var byTag: map<Tag, nat>
    var legacy: map<nat, nat>
    var tagSet: set<Tag>

    constructor ()
      ensures Valid() && upgraders == [] && byTag == map[] && legacy == map[]
    {
      upgraders, tagSet, byTag, legacy := [], {}, map[], map[];
    }

    ghost predicate Valid()
      reads this
    {
      tagSet == byTag.Keys && Indexes(upgraders, byTag, legacy)
    }

    /** Who depends on whom, as the upgraders' lists say now. */
    ghost function Dependencies(): Graph
      requires Valid()
      reads this
    {
      GraphOf(upgraders, byTag)
    }

    /** Every dependency names a loaded upgrader. */
    ghost predicate Audited()
      reads this
    {
      Valid() && forall t :: t in byTag ==> Elements(upgraders[byTag[t]].depends) <= tagSet
    }

    /** The constructor of an upgrader script: the last script with a tag or legacy version wins. */
    method Add(u: Upgrader)
      requires Valid()
      modifies this
      ensures Valid() && upgraders == old(upgraders) + [u]
      ensures byTag == old(byTag)[u.tag := |old(upgraders)|]
      ensures legacy == if u.legacyVersion.Some? then old(legacy)[u.legacyVersion.value := |old(upgraders)|] else old(legacy)
    {
      var i := |upgraders|;
      upgraders := upgraders + [u];
      tagSet := tagSet + {u.tag};
      if u.legacyVersion.Some? { legacy := legacy[u.legacyVersion.value := i]; }
      byTag := byTag[u.tag := i];
    }

    /** Makes legacy version 3, 4, ... depend on the version before, up to the first missing one. */
    method LinkLegacy() returns (gap: bool)
      requires Valid()
      modifies this`upgraders
      ensures Valid() && SameBut(old(upgraders), upgraders)
      ensures gap <==> 3 in legacy && 2 !in legacy
      ensures !gap ==> forall k :: 0 <= k < |upgraders| ==> upgraders[k].depends == Linked(old(upgraders), legacy, k)
    {
      hide Indexes, LinkedUpTo, Linked, Chained;
      gap := false;
      ghost var ups := upgraders;
      ghost var pending := legacy.Keys;
      LinkStart(ups, byTag, legacy);
      var i := 3;
      while i in legacy
        invariant 3 <= i && LinkedUpTo(ups, upgraders, byTag, legacy, i)
        invariant pending <= legacy.Keys && forall v :: v in legacy && i <= v ==> v in pending
        decreases pending
      {
        LinkFacts(ups, upgraders, byTag, legacy, i);
        if i - 1 !in legacy {
          gap := true;
          return;
        }
        LinkStep(ups, upgraders, byTag, legacy, i);
        var k := legacy[i];
        upgraders := upgraders[k := upgraders[k].(depends := [upgraders[legacy[i - 1]].tag])];
        pending := pending - {i};
        i := i + 1;
      }
      LinkEnd(ups, upgraders, byTag, legacy, i);
    }

    /** Makes the upgrader with this tag a dependency of everything it names as a forward one. */
    method PassForward(tag: Tag) returns (error: Option<LoadError>)
      requires Valid() && tag in byTag
      modifies this`upgraders
      ensures error != Some(LegacyGap)
      ensures Valid() && SameBut(old(upgraders), upgraders)
      ensures error.None? <==> Elements(old(upgraders)[byTag[tag]].fwdDepends) <= tagSet
      ensures error.None? ==>
                Passed(old(upgraders), upgraders, byTag, tag, Elements(old(upgraders)[byTag[tag]].fwdDepends))
    {
      hide Passed, Elements, Gain, SameBut;
      ghost var ups := upgraders;
      var fwd := upgraders[byTag[tag]].fwdDepends;
      NothingGained(ups);
      PassNone(ups, byTag, tag, fwd);
      for n := 0 to |fwd|
        invariant Valid() && SameBut(ups, upgraders)
        invariant Elements(fwd[..n]) <= tagSet
        invariant Passed(ups, upgraders, byTag, tag, Elements(fwd[..n]))
      {
        var fd := fwd[n];
        ElementsTake(fwd, n);
        if fd !in byTag {
          assert !(Elements(fwd) <= tagSet);
          return Some(NoForwardTag(fd));
        }
        PassOne(ups, upgraders, byTag, tag, Elements(fwd[..n]), fd);
        GainKeeps(ups, upgraders, byTag, legacy, byTag[fd], tag);
        upgraders := Gain(upgraders, byTag[fd], tag);
      }
      assert fwd[..|fwd|] == fwd;
      error := None;
    }

    /** Passes one upgrader's forward dependencies on, then audits its own dependencies. */
    method AuditOne(tag: Tag) returns (error: Option<LoadError>)
      requires Valid() && tag in byTag
      modifies this`upgraders
      ensures error != Some(LegacyGap)
      ensures Valid() && SameBut(old(upgraders), upgraders)
      ensures error.None? <==> Elements(upgraders[byTag[tag]].fwdDepends) <= tagSet
                               && Elements(upgraders[byTag[tag]].depends) <= tagSet
      ensures Elements(upgraders[byTag[tag]].fwdDepends) <= tagSet ==>
                Passed(old(upgraders), upgraders, byTag, tag, Elements(upgraders[byTag[tag]].fwdDepends))
    {
      hide Passed, Elements;
      error := PassForward(tag);
      if error.Some? {
        return;
      }
      var deps := upgraders[byTag[tag]].depends;
      ghost var after := upgraders;
      PassNone(after, byTag, tag, deps);
      for n := 0 to |deps|
        invariant upgraders == after && Elements(deps[..n]) <= tagSet
      {
        ElementsTake(deps, n);
        if deps[n] !in byTag {
          return Some(NoSuchTag(deps[n]));
        }
      }
      assert deps[..|deps|] == deps;
    }

    /** Resolves all forward dependencies and audits every upgrader, in any order. */
    method Audit() returns (error: Option<LoadError>)
      requires Valid()
      modifies this`upgraders
      ensures Valid() && SameBut(old(upgraders), upgraders)
      ensures error.None? <==> WellNamed(old(upgraders), byTag)
      ensures error != Some(LegacyGap)
      ensures error.None? ==> Audited() && Resolved(old(upgraders), upgraders, byTag, tagSet)
    {
      hide Elements, Passed, SameBut, Indexes, Resolved, NamesKnown;
      ghost var ups := upgraders;
      IndexFacts(ups, byTag, legacy);
      var rest := byTag.Keys;
      ResolvedNone(ups, byTag);
      assert tagSet - rest == {};
      while rest != {}
        invariant rest <= byTag.Keys && Valid()
        invariant Resolved(ups, upgraders, byTag, tagSet - rest) && SameBut(ups, upgraders)
        invariant forall u :: u in tagSet - rest ==> NamesKnown(ups, byTag, u)
        decreases rest
      {
        var tag :| tag in rest;
        ghost var cur, done := upgraders, tagSet - rest;
        error := AuditOne(tag);
        AuditVerdict(ups, cur, upgraders, byTag, done, tag);
        if error.Some? {
          return;
        }
        ResolvedMore(ups, cur, upgraders, byTag, done, tag);
        rest := rest - {tag};
        assert tagSet - rest == done + {tag};
      }
      assert tagSet - rest == tagSet;
      error := None;
      ResolvedKnown(ups, upgraders, byTag);
    }

    /** Loads every script in the order found, then links and audits.  Afterwards a tag depends on what
        its script names, on the legacy version before it, and on every tag that names it as a forward
        dependency. */
    method LoadAll(files: seq<Upgrader>) returns (error: Option<LoadError>)
      requires Valid() && upgraders == [] && byTag == map[] && legacy == map[]
      modifies this
      ensures Valid() && byTag == TagIndex(files) && legacy == LegacyIndex(files)
      ensures forall v :: v in legacy ==> legacy[v] < |files|
      ensures error == Some(LegacyGap) <==> 3 in legacy && 2 !in legacy
      ensures error.None? <==> !(3 in legacy && 2 !in legacy) && WellNamed(LinkedAll(files, legacy), byTag)
      ensures error.None? ==> Audited() && Resolved(LinkedAll(files, legacy), upgraders, byTag, tagSet)
    {
      hide Elements, Resolved, WellNamed, NamesKnown, Linked, TagIndex, LegacyIndex;
      IndexNone();
      for n := 0 to |files|
        invariant Valid() && upgraders == files[..n]
        invariant byTag == TagIndex(files[..n]) && legacy == LegacyIndex(files[..n])
      {
        IndexNext(files, n);
        Add(files[n]);
      }
      assert files[..|files|] == files;
      var gap := LinkLegacy();
      if gap {
        return Some(LegacyGap);
      }
      assert upgraders == LinkedAll(files, legacy);
      error := Audit();
    }

    /** Are all dependencies of a tag present? */
    method Ready(tag: Tag, tags: set<Tag>) returns (r: bool)
      requires Valid() && tag in byTag
      ensures r <==> Deps(Dependencies(), tag) <= tags
    {
      var deps := upgraders[byTag[tag]].depends;
      for n := 0 to |deps|
        invariant forall k :: 0 <= k < n ==> deps[k] in tags
      {
        if deps[n] !in tags {
          assert deps[n] in Elements(deps);
          return false;
        }
      }
      r := true;
    }

    /** The tags of a round: everything still to apply whose dependencies are present. */
    method ReadySet(toApply: set<Tag>, tags: set<Tag>) returns (ready: set<Tag>)
      requires Valid() && toApply <= tagSet
      ensures ready <= toApply
      ensures forall t :: t in toApply ==> (t in ready <==> Deps(Dependencies(), t) <= tags)
    {
      ready := {};
      var scan := toApply;
      while scan != {}
        invariant scan <= toApply && ready <= toApply - scan
        invariant forall t :: t in toApply - scan ==> (t in ready <==> Deps(Dependencies(), t) <= tags)
        decreases scan
      {
        var t :| t in scan;
        var r := Ready(t, tags);
        if r { ready := ready + {t}; }
        scan := scan - {t};
      }
    }

    /** The migration loop, from the tags a checkpoint starts with.  What it cannot apply is what depends,
        directly or not, on a cycle of missing tags. */
    method Migrate(start: set<Tag>, change0: bool) returns (outcome: Outcome)
      requires Audited()
      ensures outcome.Migrated? || outcome.Stuck?
      ensures outcome.Migrated? <==> Acyclic(DependsOn(Dependencies()), tagSet - start)
      ensures outcome.Migrated? ==>
                && outcome.tags == start + tagSet
                && NoDuplicates(outcome.applied) && Elements(outcome.applied) == tagSet - start
                && Ordered(Dependencies(), start, outcome.applied)
                && (outcome.change <==> change0 || outcome.applied != [])
      ensures outcome.Stuck? ==>
                forall t :: t in outcome.remaining <==>
                  t in tagSet - start && LeadsToCycle(DependsOn(Dependencies()), tagSet - start, t)
    {
      hide Indexes, Elements, Ordered, Acyclic, LeadsToCycle;
      ghost var g := Dependencies();
      ghost var missing := tagSet - start;
      var tags, applied, change := start, [], change0;
      var toApply := tagSet - start;
      NothingApplied(g, start);
      AcyclicMeansNoneLeads(DependsOn(g), missing);
      while toApply != {}
        invariant toApply == tagSet - tags && tags == start + Elements(applied)
        invariant Elements(applied) == missing - toApply
        invariant NoDuplicates(applied) && Ordered(g, start, applied)
        invariant change <==> change0 || applied != []
        invariant AllLeadingLeft(g, missing, toApply)
        decreases toApply
      {
        var ready := ReadySet(toApply, tags);
        if ready == {} {
          AuditedDeps();
          StuckMeansLeading(g, toApply, tags, tagSet, missing);
          return Stuck(toApply);
        }
        LeadingStaysLeft(g, missing, toApply, tags, ready);
        ghost var before, done := tags, applied;
        var todo := ready;
        while todo != {}
          invariant todo <= ready
          invariant tags == start + Elements(applied)
          invariant Elements(applied) == Elements(done) + (ready - todo)
          invariant before == start + Elements(done) && before <= tags
          invariant NoDuplicates(applied) && Ordered(g, start, applied)
          invariant change <==> change0 || applied != []
          decreases todo
        {
          var tag :| tag in todo;
          OrderedSnoc(g, start, applied, tag);
          tags := tags + {tag};
          applied := applied + [tag];
          change := true;
          todo := todo - {tag};
        }
        toApply := toApply - ready;
      }
      outcome := Migrated(tags, applied, change);
    }

    lemma AuditedDeps()
      requires Audited()
      ensures forall t :: t in tagSet ==> Deps(Dependencies(), t) <= tagSet
    {}

    /** The tags that legacy version v stands for, as far as they are known. */
    ghost function LegacyTags(v: int): set<Tag>
      requires Valid()
      reads this
    {
      set u | u in legacy && 2 <= u <= v :: upgraders[legacy[u]].tag
    }

    /** The tags a checkpoint starts with. */
    ghost function StartTags(cptVer: Option<int>, versionTags: Option<set<Tag>>): set<Tag>
      requires Valid()
      reads this
    {
      if cptVer.Some? then LegacyTags(cptVer.value) else if versionTags.Some? then versionTags.value else {}
    }

    /** process_file: a checkpoint gives its tags or an old linear version number.  It is migrated if and
        only if the dependencies among the missing tags have no cycle; a checkpoint that has all tags is
        left alone. */
    method ProcessFile(cptVer: Option<int>, versionTags: Option<set<Tag>>) returns (outcome: Outcome)
      requires Audited()
      ensures outcome.NoVersion? <==> cptVer.None? && versionTags.None?
      ensures outcome.UnknownVersion? <==> cptVer.Some? && exists v :: 2 <= v <= cptVer.value && v !in legacy
      ensures var start := StartTags(cptVer, versionTags);
              && (outcome.Migrated? || outcome.Stuck? ==>
                    (outcome.Migrated? <==> Acyclic(DependsOn(Dependencies()), tagSet - start)))
              && (outcome.Stuck? ==>
                    forall t :: t in outcome.remaining <==>
                      t in tagSet - start && LeadsToCycle(DependsOn(Dependencies()), tagSet - start, t))
              && (outcome.Migrated? ==>
                    && outcome.tags == start + tagSet
                    && NoDuplicates(outcome.applied) && Elements(outcome.applied) == tagSet - start
                    && Ordered(Dependencies(), start, outcome.applied)
                    && (outcome.change <==> cptVer.Some? || !(tagSet <= start)))
      ensures cptVer.None? && versionTags.Some? && tagSet <= versionTags.value ==>
                outcome == Migrated(versionTags.value, [], false)
    {
      hide Indexes, Elements, Ordered, Acyclic, NoDuplicates, LeadsToCycle;
      var tags, change := {}, false;
      if cptVer.Some? {
        var i := 2;
        LegacyTagsNone();
        while i < cptVer.value + 1
          invariant 2 <= i && (i <= cptVer.value + 1 || i == 2)
          invariant forall v :: 2 <= v < i ==> v in legacy
          invariant tags == LegacyTags(i - 1)
          decreases cptVer.value + 1 - i
        {
          if i !in legacy {
            return UnknownVersion;
          }
          LegacyTag(i);
          LegacyTagsNext(i);
          tags := tags + {upgraders[legacy[i]].tag};
          i := i + 1;
        }
        if cptVer.value < 2 { LegacyTagsFew(cptVer.value); }
        change := true;
      } else if versionTags.Some? {
        tags := versionTags.value;
      } else {
        return NoVersion;
      }
      DifferenceEmpty(tagSet, tags);
      AcyclicEmpty(Dependencies());
      outcome := Migrate(tags, change);
      if outcome.Migrated? {
        NoneApplied(outcome.applied);
      }
    }

    lemma LegacyTagsNone()
      requires Valid()
      ensures LegacyTags(1) == {}
    {}

    lemma LegacyTagsFew(v: int)
      requires Valid() && v < 2
      ensures LegacyTags(v) == LegacyTags(1)
    {}

    lemma LegacyTagsNext(v: nat)
      requires Valid() && 2 <= v && v in legacy
      ensures legacy[v] < |upgraders| && LegacyTags(v) == LegacyTags(v - 1) + {upgraders[legacy[v]].tag}
    {
      var was, now := LegacyTags(v - 1), LegacyTags(v);
      forall t | t in now ensures t in was || t == upgraders[legacy[v]].tag {
        var u :| u in legacy && 2 <= u <= v && t == upgraders[legacy[u]].tag;
        assert u == v || (2 <= u <= v - 1);
      }
    }

    lemma LegacyTag(v: nat)
      requires Valid() && v in legacy
      ensures legacy[v] < |upgraders| && upgraders[legacy[v]].tag in tagSet
    {}
  }

  lemma DifferenceEmpty(a: set<Tag>, b: set<Tag>)
    ensures a - b == {} <==> a <= b
  {
    if a <= b {
      assert a - b == {};
    } else {
      var t :| t in a && t !in b;
      assert t in a - b;
    }
  }

  lemma NoneApplied(applied: seq<Tag>)
    ensures Elements(applied) == {} <==> applied == []
  {
    if applied != [] { assert applied[0] in Elements(applied); }
  }

  lemma NothingApplied(g: Graph, start: set<Tag>)
    ensures Elements([]) == {} && Ordered(g, start, [])
  {}

  lemma AcyclicEmpty(g: Graph)
    ensures Acyclic(DependsOn(g), {})
  {
    AcyclicMeansNoneLeads(DependsOn(g), {});
  }

  /** Every missing tag that leads to a cycle of missing tags is still to be applied. */
  ghost predicate AllLeadingLeft(g: Graph, missing: set<Tag>, toApply: set<Tag>) {
    forall t :: t in missing && LeadsToCycle(DependsOn(g), missing, t) ==> t in toApply
  }

  /** When nothing is ready, everything left leads to a cycle, and something is left. */
  lemma StuckMeansLeading(g: Graph, toApply: set<Tag>, tags: set<Tag>, all: set<Tag>, missing: set<Tag>)
    requires toApply != {} && toApply == all - tags && toApply <= missing && AllLeadingLeft(g, missing, toApply)
    requires forall t :: t in all ==> Deps(g, t) <= all
    requires forall t :: t in toApply ==> !(Deps(g, t) <= tags)
    ensures forall t :: t in toApply <==> t in missing && LeadsToCycle(DependsOn(g), missing, t)
    ensures !Acyclic(DependsOn(g), missing)
  {
    hide LeadsToCycle, Acyclic;
    var e := DependsOn(g);
    forall t | t in toApply ensures HasNext(e, toApply, t) {
      var d :| d in Deps(g, t) && d !in tags;
      assert d in toApply && e(t, d);
    }
    forall t | t in toApply ensures LeadsToCycle(e, missing, t) {
      NoSinkLeads(e, toApply, t);
      LeadsInSuperset(e, toApply, missing, t);
    }
    AcyclicMeansNoneLeads(e, missing);
    var t :| t in toApply;
    assert t in missing && LeadsToCycle(e, missing, t);
  }

  /** No round applies a tag that leads to a cycle. */
  lemma LeadingStaysLeft(g: Graph, missing: set<Tag>, toApply: set<Tag>, tags: set<Tag>, ready: set<Tag>)
    requires AllLeadingLeft(g, missing, toApply) && toApply !! tags
    requires forall t :: t in ready ==> Deps(g, t) <= tags
    ensures AllLeadingLeft(g, missing, toApply - ready)
  {
    hide LeadsToCycle;
    forall t | t in missing && LeadsToCycle(DependsOn(g), missing, t) ensures t in toApply - ready {
      LeadingNotReady(g, missing, tags, t);
    }
  }

  // ----- the audit on values

  /** Does upgrader u name only loaded tags? */
  ghost predicate NamesKnown(ups: seq<Upgrader>, byTag: map<Tag, nat>, u: Tag)
    requires u in byTag ==> byTag[u] < |ups|
  {
    u in byTag && Elements(ups[byTag[u]].fwdDepends) <= byTag.Keys && Elements(ups[byTag[u]].depends) <= byTag.Keys
  }

  ghost predicate WellNamed(ups: seq<Upgrader>, byTag: map<Tag, nat>) {
    forall u :: u in byTag ==> byTag[u] < |ups| && NamesKnown(ups, byTag, u)
  }

  /** Dependencies after the forward dependencies of the tags in `done` were passed on. */
  ghost predicate Resolved(ups: seq<Upgrader>, cur: seq<Upgrader>, byTag: map<Tag, nat>, done: set<Tag>) {
    && |ups| == |cur|
    && (forall t :: t in byTag ==> byTag[t] < |ups|)
    && done <= byTag.Keys
    && forall t :: t in byTag ==>
         Elements(cur[byTag[t]].depends)
         == Elements(ups[byTag[t]].depends) + Forwarders(ups, byTag, done, t)
  }

  lemma IndexFacts(ups: seq<Upgrader>, byTag: map<Tag, nat>, legacy: map<nat, nat>)
    requires Indexes(ups, byTag, legacy)
    ensures forall t :: t in byTag ==> byTag[t] < |ups|
  {}

  lemma ResolvedNone(ups: seq<Upgrader>, byTag: map<Tag, nat>)
    requires forall t :: t in byTag ==> byTag[t] < |ups|
    ensures Resolved(ups, ups, byTag, {}) && SameBut(ups, ups)
  {}

  lemma ResolvedMore(ups: seq<Upgrader>, cur: seq<Upgrader>, next: seq<Upgrader>, byTag: map<Tag, nat>, done: set<Tag>, tag: Tag)
    requires Resolved(ups, cur, byTag, done) && tag in byTag && SameBut(ups, cur) && SameBut(cur, next)
    requires Passed(cur, next, byTag, tag, Elements(next[byTag[tag]].fwdDepends))
    ensures Resolved(ups, next, byTag, done + {tag})
  {
    hide Elements, Forwarders;
    assert next[byTag[tag]].fwdDepends == cur[byTag[tag]].fwdDepends == ups[byTag[tag]].fwdDepends;
    forall t | t in byTag
      ensures Elements(next[byTag[t]].depends)
           == Elements(ups[byTag[t]].depends) + Forwarders(ups, byTag, done + {tag}, t)
    {
      ForwardersMore(ups, byTag, done, t, tag);
    }
  }

  /** The audit of one tag fails exactly when the tag itself named something unknown. */
  lemma AuditVerdict(ups: seq<Upgrader>, cur: seq<Upgrader>, next: seq<Upgrader>, byTag: map<Tag, nat>, done: set<Tag>, tag: Tag)
    requires Resolved(ups, cur, byTag, done) && tag in byTag && SameBut(ups, cur) && SameBut(cur, next)
    requires Elements(next[byTag[tag]].fwdDepends) <= byTag.Keys ==>
               Passed(cur, next, byTag, tag, Elements(next[byTag[tag]].fwdDepends))
    ensures SameBut(ups, next)
    ensures NamesKnown(ups, byTag, tag)
            <==> Elements(next[byTag[tag]].fwdDepends) <= byTag.Keys && Elements(next[byTag[tag]].depends) <= byTag.Keys
  {
    var k := byTag[tag];
    assert next[k].fwdDepends == cur[k].fwdDepends == ups[k].fwdDepends;
  }

  lemma ResolvedKnown(ups: seq<Upgrader>, cur: seq<Upgrader>, byTag: map<Tag, nat>)
    requires Resolved(ups, cur, byTag, byTag.Keys) && WellNamed(ups, byTag)
    ensures |ups| == |cur| && forall t :: t in byTag ==> byTag[t] < |ups| && Elements(cur[byTag[t]].depends) <= byTag.Keys
  {}

  lemma PassNone(ups: seq<Upgrader>, byTag: map<Tag, nat>, tag: Tag, s: seq<Tag>)
    requires forall t :: t in byTag ==> byTag[t] < |ups| && ups[byTag[t]].tag == t
    ensures Elements(s[..0]) == {} && Passed(ups, ups, byTag, tag, Elements(s[..0]))
  {}
}
