/** Combining checkpoints: every checkpoint's memory pages are appended to one file, its physical
    addresses are moved by the pages before it, and its processor sections get its number.  The
    merged configuration gets the latest tick of all. */
module CheckpointAggregator {
  import opened Text
  import opened Wrappers

  const PAGE: nat := 4096

  datatype Value = Number(n: int) | Raw(text: string)
  datatype Section = Section(name: string, items: map<string, Value>)
  datatype Checkpoint = Checkpoint(config: seq<Section>, memory: seq<Byte>)
  datatype Merged = Merged(config: seq<Section>, memory: seq<Byte>)

  // ----- section names

  predicate StartsWithCpu(s: string) {
    |s| >= 3 && s[0] == 'c' && s[1] == 'p' && s[2] == 'u'
  }

  predicate MentionsCpu(s: string) {
    s != [] && (StartsWithCpu(s) || MentionsCpu(s[1..]))
  }

  /** The tag put behind every "cpu". */
  function Rename(s: string, tag: string): string {
    if s == [] then []
    else if StartsWithCpu(s) then s[..3] + tag + Rename(s[3..], tag)
    else [s[0]] + Rename(s[1..], tag)
  }

  function Zeros(n: nat): (s: string)
    ensures |s| == n && AllDigits(s)
  {
    if n == 0 then "" else Zeros(n - 1) + "0"
  }

  /** The checkpoint's number, padded to the width of the largest one. */
  function Tag(i: nat, n: nat): string
    requires i < n
  {
    var d, width := Decimal(i), |Decimal(n - 1)|;
    Zeros(if |d| < width then width - |d| else 0) + d
  }

  lemma {:induction false} DecimalGrows(a: nat, b: nat)
    requires a <= b
    ensures |Decimal(a)| <= |Decimal(b)|
  {
    if 10 <= a { DecimalGrows(a / 10, b / 10); }
  }

  lemma {:induction false} ZerosValue(n: nat, d: string)
    requires AllDigits(d)
    ensures DigitsValue(Zeros(n) + d) == DigitsValue(d)
    decreases n, |d|
  {
    var s := Zeros(n) + d;
    if d != [] {
      assert s[..|s| - 1] == Zeros(n) + d[..|d| - 1];
      ZerosValue(n, d[..|d| - 1]);
    } else if n != 0 {
      assert s[..|s| - 1] == Zeros(n - 1) + [];
      ZerosValue(n - 1, []);
    }
  }

  /** All tags have one width, and different numbers have different tags. */
  lemma TagsDiffer(i: nat, j: nat, n: nat)
    requires i < n && j < n
    ensures |Tag(i, n)| == |Tag(j, n)|
    ensures Tag(i, n) == Tag(j, n) ==> i == j
  {
    hide Decimal;
    DecimalGrows(i, n - 1);
    DecimalGrows(j, n - 1);
    DecimalValue(i);
    DecimalValue(j);
    ZerosValue(|Decimal(n - 1)| - |Decimal(i)|, Decimal(i));
    ZerosValue(|Decimal(n - 1)| - |Decimal(j)|, Decimal(j));
  }

  lemma RenameHead(s: string, tag: string)
    requires s != []
    ensures Rename(s, tag) != [] && Rename(s, tag)[0] == s[0]
  {}

  lemma RenameStart(s: string, tag: string)
    ensures StartsWithCpu(Rename(s, tag)) <==> StartsWithCpu(s)
  {
    if s != [] && !StartsWithCpu(s) {
      var r := Rename(s, tag);
      assert r == [s[0]] + Rename(s[1..], tag);
      if |s| > 1 {
        RenameHead(s[1..], tag);
        if s[1] != 'c' && |s| > 2 {
          assert Rename(s[1..], tag) == [s[1]] + Rename(s[2..], tag);
          RenameHead(s[2..], tag);
        }
      }
    }
  }

  /** A renamed section name determines the name and, if it mentions a cpu, the tag. */
  lemma {:induction false} RenameInjective(s: string, a: string, t: string, b: string)
    requires Rename(s, a) == Rename(t, b) && |a| == |b|
    ensures s == t && (MentionsCpu(s) ==> a == b)
    decreases |s|
  {
    var r := Rename(s, a);
    RenameStart(s, a);
    RenameStart(t, b);
    if s != [] { RenameHead(s, a); }
    if t != [] { RenameHead(t, b); }
    if s != [] && StartsWithCpu(s) {
      assert r[3..] == a + Rename(s[3..], a) && r[3..] == b + Rename(t[3..], b);
      assert a == r[3..][..|a|] && b == r[3..][..|a|];
      assert Rename(s[3..], a) == r[3..][|a|..] && Rename(t[3..], b) == r[3..][|a|..];
      RenameInjective(s[3..], a, t[3..], b);
      assert s == s[..3] + s[3..] && t == t[..3] + t[3..] && s[..3] == t[..3];
    } else if s != [] {
      assert Rename(s[1..], a) == r[1..] && Rename(t[1..], b) == r[1..];
      RenameInjective(s[1..], a, t[1..], b);
      assert s == [s[0]] + s[1..] && t == [t[0]] + t[1..];
    }
  }

  lemma {:induction false} RenameKeepsCpu(s: string, tag: string)
    requires MentionsCpu(s)
    ensures MentionsCpu(Rename(s, tag))
  {
    RenameStart(s, tag);
    if !StartsWithCpu(s) {
      RenameKeepsCpu(s[1..], tag);
      assert Rename(s, tag)[1..] == Rename(s[1..], tag);
    }
  }

  // ----- what is read from a checkpoint

  const SYSTEM: string := "system"
  const GLOBALS: string := "Globals"
  const STORE: string := "system.physmem.store0"

  predicate IsNumber(items: map<string, Value>, key: string) {
    key in items && items[key].Number?
  }

  predicate PagesGiven(s: Section) {
    s.name == SYSTEM && IsNumber(s.items, "pagePtr") && 0 <= s.items["pagePtr"].n
  }

  /** What the script can read without an exception: section names differ, there is a page count,
      and ticks and physical addresses are numbers. */
  ghost predicate Readable(c: Checkpoint) {
    && DistinctNames(c.config)
    && (exists k :: 0 <= k < |c.config| && PagesGiven(c.config[k]))
    && forall k :: 0 <= k < |c.config| ==> Convertible(c.config[k])
  }

  predicate Convertible(s: Section) {
    if MentionsCpu(s.name) then "paddr" in s.items ==> IsNumber(s.items, "paddr")
    else s.name == GLOBALS ==> IsNumber(s.items, "curTick")
  }

  ghost predicate DistinctNames(ss: seq<Section>) {
    forall i, j :: 0 <= i < j < |ss| ==> ss[i].name != ss[j].name
  }

  function Pages(config: seq<Section>): nat {
    if config == [] then 0
    else if PagesGiven(config[0]) then config[0].items["pagePtr"].n else Pages(config[1..])
  }

  function PagesBefore(cpts: seq<Checkpoint>, k: nat): nat
    requires k <= |cpts|
  {
    if k == 0 then 0 else PagesBefore(cpts, k - 1) + Pages(cpts[k - 1].config)
  }

  // ----- the merged configuration

  /** The name ends in "workload", any character, "FdMap256". */
  predicate IsFdMap(name: string) {
    |name| >= 17 && name[|name| - 17..|name| - 9] == "workload" && name[|name| - 8..] == "FdMap256"
  }

  function Move(key: string, v: Value, base: nat): Value {
    if key == "paddr" && v.Number? then Number(v.n + PAGE * base) else v
  }

  function Moved(items: map<string, Value>, base: nat): map<string, Value> {
    map k | k in items :: Move(k, items[k], base)
  }

  /** A processor section of checkpoint i, moved by the pages of the checkpoints before it. */
  function CpuSection(s: Section, i: nat, n: nat, base: nat): Section
    requires i < n
  {
    var items := Moved(s.items, base);
    Section(Rename(s.name, Tag(i, n)), if IsFdMap(s.name) then items["M5_pid" := Number(i)] else items)
  }

  function Entry(s: Section, i: nat, n: nat, base: nat): seq<Section>
    requires i < n
  {
    if MentionsCpu(s.name) then [CpuSection(s, i, n, base)]
    else if s.name == SYSTEM || s.name == GLOBALS then []
    else if i == n - 1 then [s] else []
  }

  function Entries(config: seq<Section>, i: nat, n: nat, base: nat): seq<Section>
    requires i < n
  {
    if config == [] then []
    else Entries(config[..|config| - 1], i, n, base) + Entry(config[|config| - 1], i, n, base)
  }

  /** The sections of the first k checkpoints. */
  function AllEntries(cpts: seq<Checkpoint>, k: nat): seq<Section>
    requires k <= |cpts|
  {
    if k == 0 then [] else AllEntries(cpts, k - 1) + Entries(cpts[k - 1].config, k - 1, |cpts|, PagesBefore(cpts, k - 1))
  }

  function Later(s: Section, tick: int): int {
    if !MentionsCpu(s.name) && s.name == GLOBALS && IsNumber(s.items, "curTick") && tick < s.items["curTick"].n
    then s.items["curTick"].n else tick
  }

  function MaxTick(config: seq<Section>, tick: int): int {
    if config == [] then tick else Later(config[|config| - 1], MaxTick(config[..|config| - 1], tick))
  }

  function MaxTickOf(cpts: seq<Checkpoint>, k: nat): int
    requires k <= |cpts|
  {
    if k == 0 then 0 else MaxTick(cpts[k - 1].config, MaxTickOf(cpts, k - 1))
  }

  /** tick is 0 or the greatest number of ticks that any Globals section gives, whichever is greater. */
  ghost predicate LatestTick(cpts: seq<Checkpoint>, tick: int) {
    && 0 <= tick
    && (forall i, k :: 0 <= i < |cpts| && 0 <= k < |cpts[i].config| ==> NotAfter(cpts[i].config[k], tick))
    && (tick == 0 || exists i, k :: 0 <= i < |cpts| && 0 <= k < |cpts[i].config| && GivesTick(cpts[i].config[k], tick))
  }

  predicate GivesTick(s: Section, tick: int) {
    s.name == "Globals" && "curTick" in s.items && s.items["curTick"] == Number(tick)
  }

  predicate NotAfter(s: Section, tick: int) {
    s.name == "Globals" && IsNumber(s.items, "curTick") ==> s.items["curTick"].n <= tick
  }

  lemma LaterMeans(s: Section, tick: int)
    ensures var t := Later(s, tick); tick <= t && NotAfter(s, t) && (t == tick || GivesTick(s, t))
  {
    FixedNames();
  }

  /** The tick after a configuration: the greatest of those in it and the one before. */
  lemma {:induction false} MaxTickMeans(config: seq<Section>, tick: int)
    ensures var t := MaxTick(config, tick);
            && tick <= t && (forall k :: 0 <= k < |config| ==> NotAfter(config[k], t))
            && (t == tick || exists k :: 0 <= k < |config| && GivesTick(config[k], t))
  {
    hide Later, GivesTick;
    if config != [] {
      var init, last := config[..|config| - 1], config[|config| - 1];
      MaxTickMeans(init, tick);
      LaterMeans(last, MaxTick(init, tick));
      assert config == init + [last];
      var t := MaxTick(config, tick);
      if t != tick && !GivesTick(last, t) {
        var k :| 0 <= k < |init| && GivesTick(init[k], t);
        assert config[k] == init[k];
      }
      forall k | 0 <= k < |config| ensures NotAfter(config[k], t) {
        if k < |init| { assert config[k] == init[k] && NotAfter(init[k], MaxTick(init, tick)); }
      }
    }
  }

  lemma {:induction false} MaxTickOfMeans(cpts: seq<Checkpoint>, k: nat)
    requires k <= |cpts|
    ensures LatestTick(cpts[..k], MaxTickOf(cpts, k))
  {
    hide GivesTick, MaxTick;
    if k != 0 {
      MaxTickOfMeans(cpts, k - 1);
      var before, t := MaxTickOf(cpts, k - 1), MaxTickOf(cpts, k);
      MaxTickMeans(cpts[k - 1].config, before);
      forall i, j | 0 <= i < k && 0 <= j < |cpts[i].config| ensures NotAfter(cpts[..k][i].config[j], t) {
        if i < k - 1 { assert NotAfter(cpts[..k - 1][i].config[j], before); }
      }
      if t == before {
        if t != 0 {
          var i, j :| 0 <= i < k - 1 && 0 <= j < |cpts[..k - 1][i].config| && GivesTick(cpts[..k - 1][i].config[j], t);
          assert cpts[..k][i] == cpts[..k - 1][i];
        }
      } else {
        var j :| 0 <= j < |cpts[k - 1].config| && GivesTick(cpts[k - 1].config[j], t);
        assert cpts[..k][k - 1] == cpts[k - 1];
      }
    }
  }

  /** The range size is set in the section of the memory store. */
  function SetRange(ss: seq<Section>, size: nat): seq<Section> {
    if ss == [] then [] else
      var s := ss[|ss| - 1];
      SetRange(ss[..|ss| - 1], size)
      + [if s.name == STORE then Section(s.name, s.items["range_size" := Number(size)]) else s]
  }

  function SystemSection(pages: nat, count: nat): Section {
    Section(SYSTEM, map["pagePtr" := Number(pages), "nextPID" := Number(count)])
  }

  function GlobalsSection(tick: int): Section {
    Section(GLOBALS, map["curTick" := Number(tick)])
  }

  // ----- the merged memory

  function Least(a: nat, b: nat): nat {
    if a < b then a else b
  }

  /** Reading stops early when the file is shorter than its pages. */
  function Image(c: Checkpoint): seq<Byte> {
    c.memory[..Least(PAGE * Pages(c.config), |c.memory|)]
  }

  function Images(cpts: seq<Checkpoint>, k: nat): seq<Byte>
    requires k <= |cpts|
  {
    if k == 0 then [] else Images(cpts, k - 1) + Image(cpts[k - 1])
  }

  /** The filler is the character zero, not the number. */
  const FILLER: Byte := 48

  function Filler(n: nat): seq<Byte> {
    seq(n, _ => FILLER)
  }

  /** The pages added until the memory has the wanted size. */
  function Padding(pages: nat, size: nat): (k: nat)
    ensures size <= 4096 * (pages + k)
    ensures k > 0 ==> 4096 * (pages + k - 1) < size
  {
    if size <= PAGE * pages then 0 else (size - PAGE * pages + PAGE - 1) / PAGE
  }

  function Combine(cpts: seq<Checkpoint>, memorySize: nat): Merged
    requires |cpts| > 0
  {
    var n, pages := |cpts|, PagesBefore(cpts, |cpts|);
    var padding := Padding(pages, memorySize);
    Merged(
      AllEntries(cpts, n - 1)
      + SetRange(Entries(cpts[n - 1].config, n - 1, n, PagesBefore(cpts, n - 1)), PAGE * (pages + padding))
      + [SystemSection(pages, n), GlobalsSection(MaxTickOf(cpts, n))],
      Images(cpts, n) + Filler(PAGE * padding))
  }

  // ----- moved addresses follow their pages

  ghost predicate Complete(c: Checkpoint) {
    PAGE * Pages(c.config) <= |c.memory|
  }

  /** The memory file has as many bytes as the page count says if and only if no image is short. */
  lemma {:induction false} ImagesSize(cpts: seq<Checkpoint>, k: nat)
    requires k <= |cpts|
    ensures |Images(cpts, k)| <= 4096 * PagesBefore(cpts, k)
    ensures |Images(cpts, k)| == 4096 * PagesBefore(cpts, k) <==> forall i :: 0 <= i < k ==> Complete(cpts[i])
  {
    if k != 0 {
      ImagesSize(cpts, k - 1);
      assert PAGE * PagesBefore(cpts, k) == PAGE * PagesBefore(cpts, k - 1) + PAGE * Pages(cpts[k - 1].config);
      assert |Image(cpts[k - 1])| == Least(PAGE * Pages(cpts[k - 1].config), |cpts[k - 1].memory|);
    }
  }

  lemma {:induction false} ImagesGrow(cpts: seq<Checkpoint>, i: nat, k: nat, a: nat)
    requires i <= k <= |cpts| && a < |Images(cpts, i)|
    ensures a < |Images(cpts, k)| && Images(cpts, k)[a] == Images(cpts, i)[a]
  {
    if i != k { ImagesGrow(cpts, i, k - 1, a); }
  }

  /** Address `a` of checkpoint i is found 4096 bytes further on for every page before. */
  lemma AddressFollowsPage(cpts: seq<Checkpoint>, memorySize: nat, i: nat, a: nat)
    requires i < |cpts| && forall j :: 0 <= j < i ==> Complete(cpts[j])
    requires a < 4096 * Pages(cpts[i].config) && a < |cpts[i].memory|
    ensures var memory, b := Combine(cpts, memorySize).memory, a + 4096 * PagesBefore(cpts, i);
            b < |memory| && memory[b] == cpts[i].memory[a]
  {
    hide Pages, Padding, AllEntries, SetRange, Entries, MaxTickOf, SystemSection, GlobalsSection;
    ImagesSize(cpts, i);
    ImagesSize(cpts, i + 1);
    var b := a + PAGE * PagesBefore(cpts, i);
    assert Images(cpts, i + 1) == Images(cpts, i) + Image(cpts[i]);
    ImagesGrow(cpts, i + 1, |cpts|, b);
  }

  // ----- where the sections go

  lemma {:induction false} EntriesHold(config: seq<Section>, i: nat, n: nat, base: nat, k: nat)
    requires i < n && k < |config|
    ensures forall e :: e in Entry(config[k], i, n, base) ==> e in Entries(config, i, n, base)
  {
    hide Entry;
    if k < |config| - 1 { EntriesHold(config[..|config| - 1], i, n, base, k); }
  }

  lemma {:induction false} EntriesFrom(config: seq<Section>, i: nat, n: nat, base: nat, e: Section) returns (k: nat)
    requires i < n && e in Entries(config, i, n, base)
    ensures k < |config| && e in Entry(config[k], i, n, base)
  {
    hide Entry;
    if e in Entry(config[|config| - 1], i, n, base) {
      k := |config| - 1;
    } else {
      k := EntriesFrom(config[..|config| - 1], i, n, base, e);
    }
  }

  lemma {:induction false} AllEntriesHold(cpts: seq<Checkpoint>, k: nat, i: nat)
    requires i < k <= |cpts|
    ensures forall e :: e in Entries(cpts[i].config, i, |cpts|, PagesBefore(cpts, i)) ==> e in AllEntries(cpts, k)
  {
    hide Entries;
    if i < k - 1 { AllEntriesHold(cpts, k - 1, i); }
  }

  lemma {:induction false} SetRangeAt(ss: seq<Section>, size: nat)
    ensures |SetRange(ss, size)| == |ss|
    ensures forall i :: 0 <= i < |ss| ==>
      SetRange(ss, size)[i] == if ss[i].name == STORE then Section(ss[i].name, ss[i].items["range_size" := Number(size)]) else ss[i]
  {
    if ss != [] { SetRangeAt(ss[..|ss| - 1], size); }
  }

  lemma FixedNames()
    ensures !MentionsCpu(SYSTEM) && !MentionsCpu(GLOBALS) && !MentionsCpu(STORE)
    ensures SYSTEM != GLOBALS && STORE != SYSTEM && STORE != GLOBALS
  {
    NoC(SYSTEM);
    NoC(GLOBALS);
    NoC(STORE);
    assert |SYSTEM| == 6 && |GLOBALS| == 7 && |STORE| == 21;
  }

  lemma {:induction false} NoC(s: string)
    requires Without(s, 'c')
    ensures !MentionsCpu(s)
  {
    if s != [] { NoC(s[1..]); }
  }

  /** A processor section of any checkpoint is in the merged configuration under its new name, and
      the physical address in it leads to the byte it led to before. */
  lemma {:induction false} PaddrFollowsPage(cpts: seq<Checkpoint>, memorySize: nat, i: nat, k: nat)
    requires i < |cpts| && forall j :: 0 <= j < i ==> Complete(cpts[j])
    requires k < |cpts[i].config| && MentionsCpu(cpts[i].config[k].name) && IsNumber(cpts[i].config[k].items, "paddr")
    requires 0 <= cpts[i].config[k].items["paddr"].n < 4096 * Pages(cpts[i].config)
    requires cpts[i].config[k].items["paddr"].n < |cpts[i].memory|
    ensures var s, merged := cpts[i].config[k], Combine(cpts, memorySize);
            var moved := CpuSection(s, i, |cpts|, PagesBefore(cpts, i));
            && moved in merged.config
            && IsNumber(moved.items, "paddr")
            && 0 <= moved.items["paddr"].n < |merged.memory|
            && merged.memory[moved.items["paddr"].n] == cpts[i].memory[s.items["paddr"].n]
  {
    hide Entries, Combine, CpuSection, Complete, Pages, PagesBefore, MentionsCpu, Entry;
    var s, n, base := cpts[i].config[k], |cpts|, PagesBefore(cpts, i);
    var moved := CpuSection(s, i, n, base);
    MovedAddress(s, i, n, base);
    AddressFollowsPage(cpts, memorySize, i, s.items["paddr"].n);
    CpuEntry(s, i, n, base);
    EntriesHold(cpts[i].config, i, n, base, k);
    SectionsKept(cpts, memorySize, i, moved);
  }

  lemma MovedAddress(s: Section, i: nat, n: nat, base: nat)
    requires i < n && IsNumber(s.items, "paddr") && MentionsCpu(s.name)
    ensures var moved := CpuSection(s, i, n, base);
            IsNumber(moved.items, "paddr") && moved.items["paddr"].n == s.items["paddr"].n + PAGE * base
    ensures "paddr" in s.items && CpuSection(s, i, n, base).name != STORE
  {
    hide Tag, Rename, IsFdMap, MentionsCpu;
    assert |"paddr"| != |"M5_pid"|;
    RenameKeepsCpu(s.name, Tag(i, n));
    FixedNames();
  }

  lemma CpuEntry(s: Section, i: nat, n: nat, base: nat)
    requires i < n && MentionsCpu(s.name)
    ensures Entry(s, i, n, base) == [CpuSection(s, i, n, base)]
  {}

  lemma {:induction false} SectionsKept(cpts: seq<Checkpoint>, memorySize: nat, i: nat, e: Section)
    requires i < |cpts| && e in Entries(cpts[i].config, i, |cpts|, PagesBefore(cpts, i)) && e.name != STORE
    ensures e in Combine(cpts, memorySize).config
  {
    hide Entries, SetRange, PagesBefore, AllEntries, Images, MaxTickOf;
    var n := |cpts|;
    if i < n - 1 {
      AllEntriesHold(cpts, n - 1, i);
    } else {
      var pages := PagesBefore(cpts, n);
      var ss, size := Entries(cpts[i].config, i, n, PagesBefore(cpts, i)), PAGE * (pages + Padding(pages, memorySize));
      SetRangeAt(ss, size);
      var k :| 0 <= k < |ss| && ss[k] == e;
      assert SetRange(ss, size)[k] == e;
    }
  }

  /** Every processor section of every checkpoint is in the merged configuration, under its new name; so is every
      other section of the last checkpoint as it was, but for the two that are written anew and the memory store. */
  lemma {:induction false} SectionsMerged(cpts: seq<Checkpoint>, memorySize: nat, i: nat, k: nat)
    requires i < |cpts| && k < |cpts[i].config|
    ensures var s, config := cpts[i].config[k], Combine(cpts, memorySize).config;
            && (MentionsCpu(s.name) ==> CpuSection(s, i, |cpts|, PagesBefore(cpts, i)) in config)
            && (!MentionsCpu(s.name) && i == |cpts| - 1 && s.name !in ["system", "Globals", "system.physmem.store0"]
                ==> s in config)
  {
    hide Combine, Entries, Rename, Tag, PagesBefore, Moved, IsFdMap, MentionsCpu;
    var s, base := cpts[i].config[k], PagesBefore(cpts, i);
    EntriesHold(cpts[i].config, i, |cpts|, base, k);
    if MentionsCpu(s.name) {
      RenameKeepsCpu(s.name, Tag(i, |cpts|));
      FixedNames();
      SectionsKept(cpts, memorySize, i, CpuSection(s, i, |cpts|, base));
    } else if s in Entry(s, i, |cpts|, base) && s.name != STORE {
      SectionsKept(cpts, memorySize, i, s);
    }
  }

  // ----- section names never collide

  /** A name that checkpoint i's processor sections, or the last one's other sections, can get. */
  ghost predicate NameOf(name: string, cpts: seq<Checkpoint>, i: nat)
    requires i < |cpts|
  {
    || (MentionsCpu(name) && exists k :: 0 <= k < |cpts[i].config| && Renamed(name, cpts[i].config[k].name, i, |cpts|))
    || (!MentionsCpu(name) && i == |cpts| - 1 && name != SYSTEM && name != GLOBALS)
  }

  ghost predicate Renamed(name: string, original: string, i: nat, n: nat)
    requires i < n
  {
    MentionsCpu(original) && name == Rename(original, Tag(i, n))
  }

  lemma EntryName(s: Section, i: nat, n: nat, base: nat, e: Section)
    requires i < n && e in Entry(s, i, n, base)
    ensures MentionsCpu(s.name) ==> MentionsCpu(e.name) && Renamed(e.name, s.name, i, n)
    ensures !MentionsCpu(s.name) ==> e.name == s.name && i == n - 1 && s.name != SYSTEM && s.name != GLOBALS
  {
    hide MentionsCpu, Tag, Moved, IsFdMap;
    if MentionsCpu(s.name) { RenameKeepsCpu(s.name, Tag(i, n)); }
  }

  lemma EntriesNames(cpts: seq<Checkpoint>, i: nat, base: nat)
    requires i < |cpts|
    ensures forall e :: e in Entries(cpts[i].config, i, |cpts|, base) ==> NameOf(e.name, cpts, i)
  {
    hide Entries, Entry, MentionsCpu, Renamed;
    forall e | e in Entries(cpts[i].config, i, |cpts|, base) ensures NameOf(e.name, cpts, i) {
      var k := EntriesFrom(cpts[i].config, i, |cpts|, base, e);
      EntryName(cpts[i].config[k], i, |cpts|, base, e);
    }
  }

  /** Names of different checkpoints differ. */
  lemma NamesApart(name: string, cpts: seq<Checkpoint>, i: nat, j: nat)
    requires i < j < |cpts| && NameOf(name, cpts, i)
    ensures !NameOf(name, cpts, j)
  {
    hide MentionsCpu, Rename, Tag;
    if NameOf(name, cpts, j) {
      var k :| 0 <= k < |cpts[i].config| && Renamed(name, cpts[i].config[k].name, i, |cpts|);
      var l :| 0 <= l < |cpts[j].config| && Renamed(name, cpts[j].config[l].name, j, |cpts|);
      TagsDiffer(i, j, |cpts|);
      RenameInjective(cpts[i].config[k].name, Tag(i, |cpts|), cpts[j].config[l].name, Tag(j, |cpts|));
    }
  }

  /** Within a checkpoint, different sections keep different names. */
  lemma EntryNamesDiffer(s: Section, t: Section, i: nat, n: nat, base: nat, d: Section, e: Section)
    requires i < n && s.name != t.name && d in Entry(s, i, n, base) && e in Entry(t, i, n, base)
    ensures d.name != e.name
  {
    hide MentionsCpu, Entry, Rename, Tag;
    EntryName(s, i, n, base, d);
    EntryName(t, i, n, base, e);
    if MentionsCpu(s.name) && MentionsCpu(t.name) && d.name == e.name {
      RenameInjective(s.name, Tag(i, n), t.name, Tag(i, n));
    }
  }

  lemma {:induction false} EntriesDistinct(config: seq<Section>, i: nat, n: nat, base: nat)
    requires i < n && DistinctNames(config)
    ensures DistinctNames(Entries(config, i, n, base))
  {
    hide Entry;
    if config != [] {
      var init, s := config[..|config| - 1], config[|config| - 1];
      EntriesDistinct(init, i, n, base);
      var before, last := Entries(init, i, n, base), Entry(s, i, n, base);
      EntryShort(s, i, n, base);
      forall d, e | d in before && e in last ensures d.name != e.name {
        var k := EntriesFrom(init, i, n, base, d);
        EntryNamesDiffer(init[k], s, i, n, base, d, e);
      }
      DistinctJoin(before, last);
    }
  }

  lemma EntryShort(s: Section, i: nat, n: nat, base: nat)
    requires i < n
    ensures DistinctNames(Entry(s, i, n, base))
  {}

  lemma DistinctJoin(a: seq<Section>, b: seq<Section>)
    requires DistinctNames(a) && DistinctNames(b)
    requires forall d, e :: d in a && e in b ==> d.name != e.name
    ensures DistinctNames(a + b)
  {
    var c := a + b;
    forall i, j | 0 <= i < j < |c| ensures c[i].name != c[j].name {
      if i < |a| && |a| <= j { assert a[i] in a && b[j - |a|] in b; }
    }
  }

  lemma {:induction false} AllEntriesDistinct(cpts: seq<Checkpoint>, k: nat)
    requires k <= |cpts| && forall i :: 0 <= i < |cpts| ==> DistinctNames(cpts[i].config)
    ensures DistinctNames(AllEntries(cpts, k))
    ensures forall e :: e in AllEntries(cpts, k) ==> exists i :: 0 <= i < k && NameOf(e.name, cpts, i)
  {
    hide Entries, NameOf;
    if k != 0 {
      var i, base := k - 1, PagesBefore(cpts, k - 1);
      AllEntriesDistinct(cpts, i);
      EntriesDistinct(cpts[i].config, i, |cpts|, base);
      EntriesNames(cpts, i, base);
      var before, last := AllEntries(cpts, i), Entries(cpts[i].config, i, |cpts|, base);
      forall d, e | d in before && e in last ensures d.name != e.name {
        var j :| 0 <= j < i && NameOf(d.name, cpts, j);
        NamesApart(d.name, cpts, j, i);
      }
      DistinctJoin(before, last);
    }
  }

  /** No two sections of the merged file share a name, so the simulator reads every one of them. */
  lemma MergedNamesDistinct(cpts: seq<Checkpoint>, memorySize: nat)
    requires |cpts| > 0 && forall i :: 0 <= i < |cpts| ==> DistinctNames(cpts[i].config)
    ensures DistinctNames(Combine(cpts, memorySize).config)
  {
    hide Entries, NameOf, AllEntries, SetRange, MentionsCpu, Images, MaxTickOf;
    var n, all := |cpts|, AllEntries(cpts, |cpts|);
    var pages := PagesBefore(cpts, n);
    var last, size := Entries(cpts[n - 1].config, n - 1, n, PagesBefore(cpts, n - 1)), PAGE * (pages + Padding(pages, memorySize));
    AllEntriesDistinct(cpts, n);
    AllEntriesLast(cpts);
    SetRangeAt(last, size);
    var init: seq<Section> := AllEntries(cpts, n - 1);
    var ranged: seq<Section> := SetRange(last, size);
    var front := init + ranged;
    assert |front| == |all| && forall i :: 0 <= i < |all| ==> front[i].name == all[i].name;
    var tail := [SystemSection(pages, n), GlobalsSection(MaxTickOf(cpts, n))];
    FixedNames();
    forall d, e | d in front && e in tail ensures d.name != e.name {
      var x :| 0 <= x < |front| && front[x] == d;
      assert all[x] in all;
      var i :| 0 <= i < n && NameOf(all[x].name, cpts, i);
      NotReserved(d.name, cpts, i);
    }
    DistinctJoin(front, tail);
  }

  lemma AllEntriesLast(cpts: seq<Checkpoint>)
    requires |cpts| > 0
    ensures AllEntries(cpts, |cpts|) == AllEntries(cpts, |cpts| - 1)
                                      + Entries(cpts[|cpts| - 1].config, |cpts| - 1, |cpts|, PagesBefore(cpts, |cpts| - 1))
  {}

  lemma NotReserved(name: string, cpts: seq<Checkpoint>, i: nat)
    requires i < |cpts| && NameOf(name, cpts, i)
    ensures name != SYSTEM && name != GLOBALS
  {
    FixedNames();
  }

  // ----- what the merged files say

  /** The page count of a configuration whose section names differ is the one in its system section. */
  lemma {:induction false} PagesMeans(config: seq<Section>, k: nat, p: nat)
    requires DistinctNames(config) && k < |config| && config[k].name == "system"
    requires "pagePtr" in config[k].items && config[k].items["pagePtr"] == Number(p)
    ensures Pages(config) == p
  {
    if k != 0 {
      assert config[0].name != config[k].name;
      PagesMeans(config[1..], k - 1, p);
    }
  }

  /** The memory size in bytes: the fewest pages that hold all the checkpoints' pages and the wanted size. */
  function RangeSize(cpts: seq<Checkpoint>, memorySize: nat): (size: nat)
    ensures memorySize <= size && 4096 * PagesBefore(cpts, |cpts|) <= size
    ensures size == 4096 * PagesBefore(cpts, |cpts|) || size < memorySize + 4096
    ensures size % 4096 == 0
  {
    var pages := PagesBefore(cpts, |cpts|);
    4096 * (pages + Padding(pages, memorySize))
  }

  lemma ClosingSections(cpts: seq<Checkpoint>, memorySize: nat)
    requires |cpts| > 0
    ensures var config, tick := Combine(cpts, memorySize).config, MaxTickOf(cpts, |cpts|);
            && 2 <= |config| && LatestTick(cpts, tick)
            && config[|config| - 1] == Section("Globals", map["curTick" := Number(tick)])
            && config[|config| - 2]
               == Section("system", map["pagePtr" := Number(PagesBefore(cpts, |cpts|)), "nextPID" := Number(|cpts|)])
  {
    hide AllEntries, SetRange, Entries, PagesBefore, MaxTickOf, Images, Padding, LatestTick;
    MaxTickOfMeans(cpts, |cpts|);
    assert cpts[..|cpts|] == cpts;
  }

  predicate HasRange(e: Section, size: nat) {
    e.name == "system.physmem.store0" ==> "range_size" in e.items && e.items["range_size"] == Number(size)
  }

  lemma RangeSet(ss: seq<Section>, size: nat)
    ensures forall e :: e in SetRange(ss, size) ==> HasRange(e, size)
  {
    SetRangeAt(ss, size);
    hide SetRange;
    forall e | e in SetRange(ss, size) ensures HasRange(e, size) {
      var k :| 0 <= k < |SetRange(ss, size)| && SetRange(ss, size)[k] == e;
      assert ss[k].name == e.name;
    }
  }

  lemma {:induction false} NoEarlyStore(cpts: seq<Checkpoint>, e: Section)
    requires |cpts| > 0 && forall i :: 0 <= i < |cpts| ==> DistinctNames(cpts[i].config)
    requires e in AllEntries(cpts, |cpts| - 1)
    ensures e.name != "system.physmem.store0"
  {
    hide AllEntries, NameOf, DistinctNames, MentionsCpu;
    AllEntriesDistinct(cpts, |cpts| - 1);
    var i :| 0 <= i < |cpts| - 1 && NameOf(e.name, cpts, i);
    NotLast(e.name, cpts, i);
    FixedNames();
  }

  /** The range size is set in the section of the memory store, wherever that is. */
  lemma StoreRange(cpts: seq<Checkpoint>, memorySize: nat)
    requires |cpts| > 0 && forall i :: 0 <= i < |cpts| ==> DistinctNames(cpts[i].config)
    ensures forall e :: e in Combine(cpts, memorySize).config ==> HasRange(e, RangeSize(cpts, memorySize))
  {
    hide Combine, AllEntries, SetRange, Entries, Images, MaxTickOf, Padding, PagesBefore, DistinctNames, HasRange;
    CombineIs(cpts, memorySize);
    var n, size := |cpts|, RangeSize(cpts, memorySize);
    var last := Entries(cpts[n - 1].config, n - 1, n, PagesBefore(cpts, n - 1));
    RangeSet(last, size);
    ClosingNames(PagesBefore(cpts, n), n, MaxTickOf(cpts, n), size);
    forall e | e in AllEntries(cpts, n - 1) ensures HasRange(e, size) {
      NoEarlyStore(cpts, e);
      OtherName(e, size);
    }
  }

  lemma OtherName(e: Section, size: nat)
    requires e.name != "system.physmem.store0"
    ensures HasRange(e, size)
  {}

  lemma ClosingNames(pages: nat, count: nat, tick: int, size: nat)
    ensures HasRange(SystemSection(pages, count), size) && HasRange(GlobalsSection(tick), size)
  {
    FixedNames();
  }

  lemma NotLast(name: string, cpts: seq<Checkpoint>, i: nat)
    requires i < |cpts| - 1 && NameOf(name, cpts, i)
    ensures MentionsCpu(name)
  {
    hide MentionsCpu, Renamed;
  }

  lemma MergedSize(cpts: seq<Checkpoint>, memorySize: nat)
    requires |cpts| > 0
    ensures (forall i :: 0 <= i < |cpts| ==> Complete(cpts[i])) ==>
              |Combine(cpts, memorySize).memory| == RangeSize(cpts, memorySize)
  {
    hide AllEntries, SetRange, Entries, PagesBefore, MaxTickOf, Images, Padding, Complete;
    ImagesSize(cpts, |cpts|);
  }

  // ----- what the names say

  lemma {:induction false} MentionsAfter(a: string, b: string)
    ensures MentionsCpu(a + "cpu" + b)
  {
    var s := a + "cpu" + b;
    if a != [] {
      assert s[1..] == a[1..] + "cpu" + b;
      MentionsAfter(a[1..], b);
    }
  }

  lemma {:induction false} FirstCpu(s: string) returns (a: string, b: string)
    requires MentionsCpu(s)
    ensures s == a + "cpu" + b
  {
    if StartsWithCpu(s) {
      a, b := "", s[3..];
    } else {
      a, b := FirstCpu(s[1..]);
      a := [s[0]] + a;
    }
  }

  /** Mentioning a cpu is containing these three letters in a row. */
  lemma MentionsMeans(s: string)
    ensures MentionsCpu(s) <==> exists a: string, b: string :: s == a + "cpu" + b
  {
    hide MentionsCpu;
    if MentionsCpu(s) { var a, b := FirstCpu(s); }
    if a: string, b: string :| s == a + "cpu" + b { MentionsAfter(a, b); }
  }

  lemma RenameFirst(s: string, tag: string)
    requires s != [] && !StartsWithCpu(s)
    ensures Rename(s, tag) == [s[0]] + Rename(s[1..], tag)
  {}

  lemma RenameNone(tag: string)
    ensures Rename([], tag) == []
  {}

  lemma RenameCpu(s: string, tag: string)
    requires StartsWithCpu(s)
    ensures Rename(s, tag) == s[..3] + tag + Rename(s[3..], tag)
  {}

  /** A name without a cpu keeps itself, and the first cpu of any other gets the tag behind it. */
  lemma {:induction false} RenameMeans(a: string, b: string, tag: string)
    requires !MentionsCpu(a + "cp")
    ensures Rename(a, tag) == a
    ensures Rename(a + "cpu" + b, tag) == a + "cpu" + tag + Rename(b, tag)
  {
    hide Rename;
    var s := a + "cpu" + b;
    if a == [] {
      assert s[..3] == "cpu" && s[3..] == b;
      RenameNone(tag);
      RenameCpu(s, tag);
    } else {
      assert s[0] == a[0] && s[1..] == a[1..] + "cpu" + b;
      assert (a + "cp")[1..] == a[1..] + "cp";
      assert StartsWithCpu(s) ==> StartsWithCpu(a + "cp");
      RenameFirst(s, tag);
      RenameFirst(a, tag);
      RenameMeans(a[1..], b, tag);
      assert a == [a[0]] + a[1..];
    }
  }

  /** A tag is the checkpoint's number with zeros in front, as wide as the largest number. */
  lemma TagMeans(i: nat, n: nat)
    requires i < n
    ensures AllDigits(Tag(i, n)) && DigitsValue(Tag(i, n)) == i && |Tag(i, n)| == |Decimal(n - 1)|
    ensures n == 12 && i == 3 ==> Tag(i, n) == "03"
  {
    DecimalGrows(i, n - 1);
    DecimalValue(i);
    ZerosValue(|Decimal(n - 1)| - |Decimal(i)|, Decimal(i));
  }

  /** A processor section keeps its items, but for the address, which moves by 4096 bytes for every page before,
      and the process number of a file-descriptor section. */
  lemma CpuSectionMeans(s: Section, i: nat, n: nat, base: nat)
    requires i < n
    ensures var moved, fds := CpuSection(s, i, n, base), exists p: string, c: char :: s.name == p + "workload" + [c] + "FdMap256";
            && (forall k :: k in s.items && k != "paddr" && !(fds && k == "M5_pid") ==> k in moved.items && moved.items[k] == s.items[k])
            && (IsNumber(s.items, "paddr") ==> "paddr" in moved.items && moved.items["paddr"] == Number(s.items["paddr"].n + 4096 * base))
            && (fds ==> "M5_pid" in moved.items && moved.items["M5_pid"] == Number(i))
            && (forall k :: k in moved.items ==> k in s.items || (fds && k == "M5_pid"))
  {
    hide Tag, Rename;
    assert |"paddr"| != |"M5_pid"|;
    FdMapMeans(s.name);
  }

  lemma FdMapMeans(name: string)
    ensures IsFdMap(name) <==> exists p: string, c: char :: name == p + "workload" + [c] + "FdMap256"
  {
    if IsFdMap(name) {
      var m := |name|;
      assert name == name[..m - 17] + "workload" + [name[m - 9]] + "FdMap256";
    }
    if p: string, c: char :| name == p + "workload" + [c] + "FdMap256" {
      var m := |name|;
      assert name[m - 17..m - 9] == "workload" && name[m - 8..] == "FdMap256";
    }
  }

  // ----- the script

  /** config.sections() and config.items() of one checkpoint, moved into the merged configuration. */
  method MergeSections(config: seq<Section>, i: nat, n: nat, base: nat, tick0: int)
    returns (merged: seq<Section>, tick: int)
    requires i < n && forall k :: 0 <= k < |config| ==> Convertible(config[k])
    ensures merged == Entries(config, i, n, base) && tick == MaxTick(config, tick0)
    ensures tick0 <= tick && forall k :: 0 <= k < |config| && config[k].name == "Globals" ==>
              "curTick" in config[k].items && config[k].items["curTick"].Number? && config[k].items["curTick"].n <= tick
    ensures tick == tick0 || exists k :: 0 <= k < |config| && config[k].name == "Globals"
                                         && "curTick" in config[k].items && config[k].items["curTick"] == Number(tick)
  {
    MaxTickMeans(config, tick0);
    FixedNames();
    hide Entries, MaxTick, MentionsCpu, Tag, Rename, IsFdMap, Moved;
    merged, tick := [], tick0;
    EntriesStart(i, n, base, tick0);
    for k := 0 to |config|
      invariant merged == Entries(config[..k], i, n, base) && tick == MaxTick(config[..k], tick0)
    {
      var s := config[k];
      EntriesNext(config, k, i, n, base, tick0);
      if MentionsCpu(s.name) {
        var items := MoveItems(s.items, base);
        if IsFdMap(s.name) {
          items := items["M5_pid" := Number(i)];
        }
        merged := merged + [Section(Rename(s.name, Tag(i, n)), items)];
      } else if s.name == SYSTEM {
      } else if s.name == GLOBALS {
        if s.items["curTick"].n > tick {
          tick := s.items["curTick"].n;
        }
      } else if i == n - 1 {
        merged := merged + [s];
      }
    }
    assert config[..|config|] == config;
  }

  lemma EntriesStart(i: nat, n: nat, base: nat, tick: int)
    requires i < n
    ensures Entries([], i, n, base) == [] && MaxTick([], tick) == tick
  {}

  lemma EntriesNext(config: seq<Section>, k: nat, i: nat, n: nat, base: nat, tick: int)
    requires i < n && k < |config|
    ensures config[..0] == []
    ensures Entries(config[..k + 1], i, n, base) == Entries(config[..k], i, n, base) + Entry(config[k], i, n, base)
    ensures MaxTick(config[..k + 1], tick) == Later(config[k], MaxTick(config[..k], tick))
    ensures SYSTEM != GLOBALS
  {
    hide Entry, Later;
    FixedNames();
    assert config[..k + 1][..k] == config[..k] && config[..k + 1][k] == config[k];
  }

  method MoveItems(items: map<string, Value>, base: nat) returns (moved: map<string, Value>)
    requires "paddr" in items ==> items["paddr"].Number?
    ensures moved == Moved(items, base)
  {
    moved := map[];
    var keys := items.Keys;
    while keys != {}
      invariant keys <= items.Keys
      invariant moved.Keys == items.Keys - keys
      invariant forall k :: k in moved ==> moved[k] == Move(k, items[k], base)
      decreases keys
    {
      var key :| key in keys;
      if key == "paddr" {
        moved := moved[key := Number(items[key].n + PAGE * base)];
      } else {
        moved := moved[key := items[key]];
      }
      keys := keys - {key};
    }
  }

  /** The memory loop of one checkpoint: one page at a time, until the pages are copied. */
  method CopyPages(memory: seq<Byte>, pages: nat) returns (copied: seq<Byte>)
    ensures copied == memory[..if 4096 * pages < |memory| then 4096 * pages else |memory|]
  {
    copied := [];
    var x, pos := 0, 0;
    while x < pages
      invariant 0 <= x <= pages && pos == Least(PAGE * x, |memory|) && copied == memory[..pos]
    {
      var end := Least(pos + PAGE, |memory|);
      copied := copied + memory[pos..end];
      pos := end;
      x := x + 1;
    }
  }

  method ReadPages(config: seq<Section>) returns (pages: nat)
    requires exists k :: 0 <= k < |config| && PagesGiven(config[k])
    ensures pages == Pages(config)
  {
    var i := 0;
    while !PagesGiven(config[i])
      invariant 0 <= i < |config| && Pages(config) == Pages(config[i..])
      invariant exists k :: i <= k < |config| && PagesGiven(config[k])
      decreases |config| - i
    {
      assert config[i..][0] == config[i] && config[i..][1..] == config[i + 1..];
      i := i + 1;
    }
    pages := config[i].items["pagePtr"].n;
  }

  ghost predicate HasStore(cpts: seq<Checkpoint>)
    requires |cpts| > 0
  {
    exists s :: s in cpts[|cpts| - 1].config && s.name == STORE
  }

  /** The loop over the checkpoints: everything but the padding and the closing sections. */
  method MergeAll(cpts: seq<Checkpoint>)
    returns (config: seq<Section>, merged: seq<Section>, pagePtr: nat, tick: int, memory: seq<Byte>)
    requires |cpts| > 0 && forall i :: 0 <= i < |cpts| ==> Readable(cpts[i])
    ensures var n := |cpts|;
            && config == AllEntries(cpts, n - 1)
            && merged == Entries(cpts[n - 1].config, n - 1, n, PagesBefore(cpts, n - 1))
            && pagePtr == PagesBefore(cpts, n) && tick == MaxTickOf(cpts, n) && memory == Images(cpts, n)
  {
    hide Entries, MaxTick, Pages, DistinctNames, Convertible, PagesGiven;
    config, memory, merged := [], [], [];
    pagePtr, tick := 0, 0;
    for i := 0 to |cpts|
      invariant pagePtr == PagesBefore(cpts, i) && tick == MaxTickOf(cpts, i) && memory == Images(cpts, i)
      invariant i < |cpts| ==> config == AllEntries(cpts, i)
      invariant i == |cpts| ==> config == AllEntries(cpts, i - 1)
                                && merged == Entries(cpts[i - 1].config, i - 1, i, PagesBefore(cpts, i - 1))
    {
      merged, tick := MergeSections(cpts[i].config, i, |cpts|, pagePtr, tick);
      if i != |cpts| - 1 {
        config := config + merged;
      }
      var pages := ReadPages(cpts[i].config);
      pagePtr := pagePtr + pages;
      var copied := CopyPages(cpts[i].memory, pages);
      memory := memory + copied;
    }
  }

  /** Pages of filler until the file has the wanted size. */
  method Pad(memory0: seq<Byte>, pages: nat, memorySize: nat) returns (memory: seq<Byte>, pagePtr: nat)
    ensures pagePtr == pages + Padding(pages, memorySize)
    ensures memory == memory0 + Filler(PAGE * Padding(pages, memorySize))
    ensures |memory| == |memory0| + 4096 * (pagePtr - pages)
    ensures forall k :: |memory0| <= k < |memory| ==> memory[k] == 48
  {
    memory, pagePtr := memory0, pages;
    var fileSize := PAGE * pagePtr;
    ghost var k := 0;
    FillerPage(k);
    while fileSize < memorySize
      invariant fileSize == PAGE * (pages + k) && pagePtr == pages + k
      invariant memory == memory0 + Filler(PAGE * k)
      invariant k <= Padding(pages, memorySize)
    {
      FillerPage(k);
      memory := memory + Filler(PAGE);
      fileSize := fileSize + PAGE;
      pagePtr := pagePtr + 1;
      k := k + 1;
    }
    assert k == Padding(pages, memorySize);
  }

  lemma FillerPage(k: nat)
    ensures Filler(PAGE * k) + Filler(PAGE) == Filler(PAGE * (k + 1))
    ensures Filler(PAGE * 0) == []
  {}

  method SetRangeIn(ss: seq<Section>, size: nat) returns (r: seq<Section>)
    ensures r == SetRange(ss, size)
  {
    r := [];
    for i := 0 to |ss|
      invariant r == SetRange(ss[..i], size)
    {
      assert ss[..i + 1][..i] == ss[..i];
      r := r + [if ss[i].name == STORE then Section(STORE, ss[i].items["range_size" := Number(size)]) else ss[i]];
    }
    assert ss[..|ss|] == ss;
  }

  /** aggregate: what is written to the configuration and memory files. */
  method Aggregate(cpts: seq<Checkpoint>, memorySize: nat) returns (config: seq<Section>, memory: seq<Byte>)
    requires |cpts| > 0 && HasStore(cpts) && forall i :: 0 <= i < |cpts| ==> Readable(cpts[i])
    ensures Merged(config, memory) == Combine(cpts, memorySize)
    ensures DistinctNames(config)
    ensures 2 <= |config|
    ensures exists tick :: LatestTick(cpts, tick) && config[|config| - 1] == Section("Globals", map["curTick" := Number(tick)])
    ensures config[|config| - 2]
         == Section("system", map["pagePtr" := Number(PagesBefore(cpts, |cpts|)), "nextPID" := Number(|cpts|)])
    ensures forall e :: e in config ==> HasRange(e, RangeSize(cpts, memorySize))
    ensures (forall i :: 0 <= i < |cpts| ==> Complete(cpts[i])) ==> |memory| == RangeSize(cpts, memorySize)
  {
    hide *;
    CombineIs(cpts, memorySize);
    ClosingSections(cpts, memorySize);
    AllDistinct(cpts);
    StoreRange(cpts, memorySize);
    MergedSize(cpts, memorySize);
    MergedNamesDistinct(cpts, memorySize);
    var merged, pages, tick;
    config, merged, pages, tick, memory := MergeAll(cpts);
    var closing := [SystemSection(pages, |cpts|), GlobalsSection(tick)];
    var pagePtr;
    memory, pagePtr := Pad(memory, pages, memorySize);
    merged := SetRangeIn(merged, PAGE * pagePtr);
    config := config + merged + closing;
  }

  lemma {:induction false} CombineIs(cpts: seq<Checkpoint>, memorySize: nat)
    requires |cpts| > 0
    ensures var n, pages := |cpts|, PagesBefore(cpts, |cpts|);
            var padding := Padding(pages, memorySize);
            Combine(cpts, memorySize) == Merged(
              AllEntries(cpts, n - 1)
              + SetRange(Entries(cpts[n - 1].config, n - 1, n, PagesBefore(cpts, n - 1)), PAGE * (pages + padding))
              + [SystemSection(pages, n), GlobalsSection(MaxTickOf(cpts, n))],
              Images(cpts, n) + Filler(PAGE * padding))
  {
    hide Entries, AllEntries, SetRange, PagesBefore, MaxTickOf, Images, SystemSection, GlobalsSection, Filler, Padding;
  }

  lemma AllDistinct(cpts: seq<Checkpoint>)
    requires forall i :: 0 <= i < |cpts| ==> Readable(cpts[i])
    ensures forall i :: 0 <= i < |cpts| ==> DistinctNames(cpts[i].config)
  {}
}
