/** The text form of an instruction dependency record.

    The printer is that of the decoding script, the line parser that of the encoding script; what one
    writes the other reads back for the records that the text form can carry: loads and stores with
    address, size and flags, and computations without. */
module TraceText {
  import opened Text
  import opened Wrappers

  // numbers of the record types in the message definition
  const INVALID: nat := 0
  const LOAD: nat := 1
  const STORE: nat := 2
  const COMP: nat := 3

  /** The fields of an instruction record; `kind` is the number of its type. */
  datatype Record = Record(seqNum: nat, kind: nat, pAddr: Option<nat>, size: Option<nat>, flags: Option<nat>,
                           robDep: seq<nat>, compDelay: nat, regDep: seq<nat>,
                           weight: Option<nat>, pc: Option<nat>, vAddr: Option<nat>, asid: Option<nat>)

  datatype Error = UnsupportedType | InvalidType | BadNumber | OutOfRange | MissingField | BadSections

  const WORD32: nat := 0x1_0000_0000
  const WORD64: nat := 0x1_0000_0000_0000_0000

  predicate Fits(o: Option<nat>, limit: nat) {
    o.Some? ==> o.value < limit
  }

  predicate AllFit(s: seq<nat>, limit: nat) {
    forall i :: 0 <= i < |s| ==> s[i] < limit
  }

  /** Every field holds a value of its declared width, as any record does. */
  predicate Typed(r: Record) {
    && r.seqNum < WORD64 && r.compDelay < WORD64
    && AllFit(r.robDep, WORD64) && AllFit(r.regDep, WORD64)
    && Fits(r.pAddr, WORD64) && Fits(r.size, WORD32) && Fits(r.flags, WORD32)
    && Fits(r.weight, WORD32) && Fits(r.pc, WORD64) && Fits(r.vAddr, WORD64) && Fits(r.asid, WORD32)
  }

  function TypeName(kind: nat): Option<string> {
    if kind == INVALID then Some("INVALID")
    else if kind == LOAD then Some("LOAD")
    else if kind == STORE then Some("STORE")
    else if kind == COMP then Some("COMP")
    else None
  }

  function TypeNumber(name: string): Option<nat> {
    if name == "INVALID" then Some(INVALID)
    else if name == "LOAD" then Some(LOAD)
    else if name == "STORE" then Some(STORE)
    else if name == "COMP" then Some(COMP)
    else None
  }

  predicate IsMemory(kind: nat) {
    kind == LOAD || kind == STORE
  }

  // ----- printing

  function Optional(o: Option<nat>): seq<string> {
    match o case None => [] case Some(n) => [Decimal(n)]
  }

  function OrElse(o: Option<nat>, default: nat): nat {
    match o case None => default case Some(n) => n
  }

  /** The comma-separated items of the first section. */
  function Items(r: Record): seq<string>
    requires TypeName(r.kind).Some?
  {
    [Decimal(r.seqNum), Decimal(OrElse(r.pc, 0)), Decimal(OrElse(r.weight, 1)), TypeName(r.kind).value]
    + Optional(r.pAddr) + Optional(r.size) + Optional(r.flags) + [Decimal(r.compDelay)]
  }

  /** Each dependency behind its own comma. */
  function DepText(deps: seq<nat>): string {
    if deps == [] then "" else DepText(deps[..|deps| - 1]) + "," + Decimal(deps[|deps| - 1])
  }

  function Line(r: Record): Result<string, Error> {
    if TypeName(r.kind).None? then Err(UnsupportedType)
    else Ok(Join(Items(r), ',') + ":" + DepText(r.robDep) + ":" + DepText(r.regDep) + "\n")
  }

  method WriteDeps(out0: string, deps: seq<nat>) returns (out: string)
    ensures out == out0 + DepText(deps)
  {
    out := out0;
    for i := 0 to |deps|
      invariant out == out0 + DepText(deps[..i])
    {
      assert deps[..i + 1][..i] == deps[..i];
      out := out + "," + Decimal(deps[i]);
    }
    assert deps[..|deps|] == deps;
  }

  /** Writes one more item of the first section. */
  method WriteItem(out0: string, n: string, ghost before: string, ghost items: seq<string>) returns (out: string)
    requires |items| > 0 && out0 == before + Join(items, ',')
    ensures out == before + Join(items + [n], ',')
  {
    JoinSnoc(items, n, ',');
    out := out0 + "," + n;
  }

  /** Writes an optional field when it is present. */
  method WriteOptional(out0: string, o: Option<nat>, ghost before: string, ghost items: seq<string>) returns (out: string)
    requires |items| > 0 && out0 == before + Join(items, ',')
    ensures out == before + Join(items + Optional(o), ',')
  {
    out := out0;
    if o.Some? {
      out := WriteItem(out, Decimal(o.value), before, items);
    } else {
      assert items + [] == items;
    }
  }

  /** The body of the decoding loop: writes one record, piece by piece. */
  method WriteRecord(out0: string, r: Record) returns (res: Result<string, Error>)
    ensures res == match Line(r) case Ok(line) => Ok(out0 + line) case Err(e) => Err(e)
  {
    hide Join, Decimal, DepText, TypeName, Items, Optional, Line;
    Defaults();
    LineIs(r);
    JoinSingle(Decimal(r.seqNum));
    ghost var items := [Decimal(r.seqNum)];
    var out := out0 + Decimal(r.seqNum);
    out := WriteItem(out, if r.pc.Some? then Decimal(r.pc.value) else "0", out0, items);
    items := items + [Decimal(OrElse(r.pc, 0))];
    out := WriteItem(out, if r.weight.Some? then Decimal(r.weight.value) else "1", out0, items);
    items := items + [Decimal(OrElse(r.weight, 1))];
    if TypeName(r.kind).None? {
      return Err(UnsupportedType);
    }
    out := WriteItem(out, TypeName(r.kind).value, out0, items);
    items := items + [TypeName(r.kind).value];
    out := WriteOptional(out, r.pAddr, out0, items);
    items := items + Optional(r.pAddr);
    out := WriteOptional(out, r.size, out0, items);
    items := items + Optional(r.size);
    out := WriteOptional(out, r.flags, out0, items);
    items := items + Optional(r.flags);
    out := WriteItem(out, Decimal(r.compDelay), out0, items);
    items := items + [Decimal(r.compDelay)];
    assert items == Items(r);
    out := out + ":";
    out := WriteDeps(out, r.robDep);
    out := out + ":";
    out := WriteDeps(out, r.regDep);
    out := out + "\n";
    assert out == out0 + (Join(Items(r), ',') + ":" + DepText(r.robDep) + ":" + DepText(r.regDep) + "\n");
    res := Ok(out);
  }

  /** The line item by item, in the order of writing. */
  lemma LineIs(r: Record)
    ensures Line(r) == if TypeName(r.kind).None? then Err(UnsupportedType)
                       else Ok(Join(Items(r), ',') + ":" + DepText(r.robDep) + ":" + DepText(r.regDep) + "\n")
    ensures TypeName(r.kind).Some? ==>
              Items(r) == [Decimal(r.seqNum)] + [Decimal(OrElse(r.pc, 0))] + [Decimal(OrElse(r.weight, 1))]
                          + [TypeName(r.kind).value] + Optional(r.pAddr) + Optional(r.size) + Optional(r.flags)
                          + [Decimal(r.compDelay)]
  {
    hide Join, Decimal, DepText, TypeName, Optional;
  }

  lemma Defaults()
    ensures Decimal(0) == "0" && Decimal(1) == "1"
  {}

  lemma JoinSingle(s: string)
    ensures Join([s], ',') == s
  {}

  // ----- parsing

  /** int(...) or long(...) and the assignment to an unsigned field of the given width. */
  function Number(s: string, suffix: bool, limit: nat): Result<nat, Error> {
    match ParseInt(s, suffix)
    case None => Err(BadNumber)
    case Some(n) => if 0 <= n < limit then Ok(n) else Err(OutOfRange)
  }

  function Long(s: string, limit: nat): Result<nat, Error> {
    Number(s, true, limit)
  }

  function Int(s: string, limit: nat): Result<nat, Error> {
    Number(s, false, limit)
  }

  function Item(items: seq<string>, i: nat): Result<string, Error> {
    if i < |items| then Ok(items[i]) else Err(MissingField)
  }

  /** The non-empty items of a dependency section. */
  function Deps(items: seq<string>): Result<seq<nat>, Error> {
    if items == [] then Ok([])
    else
      var before :- Deps(items[..|items| - 1]);
      var last := items[|items| - 1];
      if last == "" then Ok(before) else var n :- Long(last, WORD64); Ok(before + [n])
  }

  function Parse(line: string): Result<Record, Error> {
    var sections := Split(Strip(line), ':');
    if |sections| != 3 then Err(BadSections)
    else
      var items := Split(sections[0], ',');
      var seqNum :- Long(items[0], WORD64);
      var s1 :- Item(items, 1);
      var pc :- Long(s1, WORD64);
      var s2 :- Item(items, 2);
      var weight :- Long(s2, WORD32);
      var name :- Item(items, 3);
      if TypeNumber(name).None? then Err(UnsupportedType)
      else if TypeNumber(name) == Some(INVALID) then Err(InvalidType)
      else
        var kind := TypeNumber(name).value;
        var mem :- Memory(items, kind);
        var rob :- Deps(Split(Strip(sections[1]), ','));
        var reg :- Deps(Split(sections[2], ','));
        Ok(Record(seqNum, kind, mem.0, mem.1, mem.2, rob, mem.3, reg, Some(weight), Some(pc), None, None))
  }

  /** Address, size and flags for loads and stores only, then the delay. */
  function Memory(items: seq<string>, kind: nat): Result<(Option<nat>, Option<nat>, Option<nat>, nat), Error>
    requires 4 <= |items|
  {
    if IsMemory(kind) then
      if |items| < 8 then Err(MissingField)
      else
        var pAddr :- Long(items[4], WORD64);
        var size :- Int(items[5], WORD32);
        var flags :- Int(items[6], WORD32);
        var delay :- Long(items[7], WORD64);
        Ok((Some(pAddr), Some(size), Some(flags), delay))
    else
      var s :- Item(items, 4);
      var delay :- Long(s, WORD64);
      Ok((None, None, None, delay))
  }

  /** One dependency loop of the encoding script. */
  method ParseDeps(items: seq<string>) returns (res: Result<seq<nat>, Error>)
    ensures res == Deps(items)
  {
    var deps := [];
    for i := 0 to |items|
      invariant Deps(items[..i]) == Ok(deps)
    {
      assert items[..i + 1][..i] == items[..i];
      if items[i] != "" {
        var n := Long(items[i], WORD64);
        if n.Err? {
          DepsFail(items, i + 1);
          return Err(n.error);
        }
        deps := deps + [n.value];
      }
    }
    assert items[..|items|] == items;
    res := Ok(deps);
  }

  /** The first bad dependency decides the error. */
  lemma {:induction false} DepsFail(items: seq<string>, k: nat)
    requires k <= |items| && Deps(items[..k]).Err?
    ensures Deps(items) == Deps(items[..k])
    decreases |items| - k
  {
    if k == |items| {
      assert items[..k] == items;
    } else {
      assert items[..k + 1][..k] == items[..k];
      DepsFail(items, k + 1);
    }
  }

  /** The body of the encoding loop. */
  method ParseLine(line: string) returns (res: Result<Record, Error>)
    ensures res == Parse(line)
  {
    var sections := Split(Strip(line), ':');
    if |sections| != 3 { return Err(BadSections); }
    var items := Split(sections[0], ',');
    var seqNum :- Long(items[0], WORD64);
    var s :- Item(items, 1);
    var pc :- Long(s, WORD64);
    s :- Item(items, 2);
    var weight :- Long(s, WORD32);
    s :- Item(items, 3);
    var kind := TypeNumber(s);
    if kind.None? { return Err(UnsupportedType); }
    if kind.value == INVALID { return Err(InvalidType); }
    var mem :- Memory(items, kind.value);
    var rob := ParseDeps(Split(Strip(sections[1]), ','));
    if rob.Err? { return Err(rob.error); }
    var reg := ParseDeps(Split(sections[2], ','));
    if reg.Err? { return Err(reg.error); }
    res := Ok(Record(seqNum, kind.value, mem.0, mem.1, mem.2, rob.value, mem.3, reg.value, Some(weight), Some(pc), None, None));
  }

  // ----- round trip

  /** The record with the defaults the printer fills in. */
  function WithDefaults(r: Record): Record {
    r.(pc := Some(OrElse(r.pc, 0)), weight := Some(OrElse(r.weight, 1)))
  }

  /** A record the text form can carry: a load or store with address, size and flags, or a
      computation without them; no virtual address and no address space. */
  predicate Carried(r: Record) {
    && (IsMemory(r.kind) || r.kind == COMP)
    && r.pAddr.Some? == r.size.Some? == r.flags.Some? == IsMemory(r.kind)
    && r.vAddr.None? && r.asid.None?
  }

  predicate Clean(s: string) {
    Without(s, ',') && Without(s, ':') && NoSpace(s)
  }

  predicate AllClean(parts: seq<string>) {
    forall i :: 0 <= i < |parts| ==> Clean(parts[i])
  }

  lemma DecimalIsClean(n: nat)
    ensures Clean(Decimal(n))
  {
    DecimalClean(n, ',');
    DecimalClean(n, ':');
  }

  lemma ItemsClean(r: Record)
    requires TypeName(r.kind).Some?
    ensures AllClean(Items(r))
  {
    DecimalIsClean(r.seqNum);
    DecimalIsClean(OrElse(r.pc, 0));
    DecimalIsClean(OrElse(r.weight, 1));
    DecimalIsClean(r.compDelay);
    OptionalClean(r.pAddr);
    OptionalClean(r.size);
    OptionalClean(r.flags);
    assert Clean(TypeName(r.kind).value);
  }

  lemma OptionalClean(o: Option<nat>)
    ensures AllClean(Optional(o))
  {
    if o.Some? { DecimalIsClean(o.value); }
  }

  /** A dependency section: an empty item, then one item per dependency. */
  function DepItems(deps: seq<nat>): seq<string> {
    [""] + seq(|deps|, i requires 0 <= i < |deps| => Decimal(deps[i]))
  }

  lemma {:induction false} DepTextJoin(deps: seq<nat>)
    ensures DepText(deps) == Join(DepItems(deps), ',')
  {
    if deps == [] {
      assert DepItems(deps) == [""];
    } else {
      var init, last := deps[..|deps| - 1], deps[|deps| - 1];
      DepTextJoin(init);
      JoinSnoc(DepItems(init), Decimal(last), ',');
      assert DepItems(deps) == DepItems(init) + [Decimal(last)];
    }
  }

  lemma DepItemsClean(deps: seq<nat>)
    ensures AllClean(DepItems(deps))
  {
    forall i | 0 <= i < |DepItems(deps)| ensures Clean(DepItems(deps)[i]) {
      if i > 0 { DecimalIsClean(deps[i - 1]); }
    }
  }

  /** Printing a dependency list of any length and splitting it again keeps the list and its order. */
  lemma {:induction false} DepsRoundTrip(deps: seq<nat>)
    requires AllFit(deps, WORD64)
    ensures Deps(DepItems(deps)) == Ok(deps)
  {
    hide ParseInt, Number, Decimal;
    var items := DepItems(deps);
    if deps == [] {
      assert items == [""] && items[..0] == [];
    } else {
      var init, last := deps[..|deps| - 1], deps[|deps| - 1];
      DepsRoundTrip(init);
      NumberRoundTrip(last, WORD64);
      assert items[..|items| - 1] == DepItems(init);
      assert deps == init + [last];
    }
  }

  lemma DepSection(deps: seq<nat>)
    requires AllFit(deps, WORD64)
    ensures Deps(Split(DepText(deps), ',')) == Ok(deps) && Deps(Split(Strip(DepText(deps)), ',')) == Ok(deps)
    ensures Without(DepText(deps), ':') && NoSpace(DepText(deps))
  {
    DepItemsClean(deps);
    DepTextJoin(deps);
    SplitJoin(DepItems(deps), ',');
    JoinWithout(DepItems(deps), ',', ':');
    JoinNoSpace(DepItems(deps), ',');
    StripNothing(DepText(deps));
    DepsRoundTrip(deps);
  }

  /** The three sections of a printed line come back as they were written. */
  lemma LineSections(r: Record)
    requires Line(r).Ok? && Typed(r)
    ensures Split(Strip(Line(r).value), ':') == [Join(Items(r), ','), DepText(r.robDep), DepText(r.regDep)]
    ensures Split(Join(Items(r), ','), ',') == Items(r)
  {
    var a, b, c := Join(Items(r), ','), DepText(r.robDep), DepText(r.regDep);
    ItemsClean(r);
    SplitJoin(Items(r), ',');
    JoinWithout(Items(r), ',', ':');
    JoinNoSpace(Items(r), ',');
    DepSection(r.robDep);
    DepSection(r.regDep);
    SectionsSplit(a, b, c);
  }

  lemma SectionsSplit(a: string, b: string, c: string)
    requires Without(a, ':') && Without(b, ':') && Without(c, ':')
    requires NoSpace(a) && NoSpace(b) && NoSpace(c)
    ensures Split(Strip(a + ":" + b + ":" + c + "\n"), ':') == [a, b, c]
  {
    var body := a + ":" + b + ":" + c;
    assert NoSpace(body);
    hide NoSpace;
    StripNothing(body);
    JoinThree(a, b, c, ':');
    assert body == Join([a, b, c], ':');
    SplitJoin([a, b, c], ':');
  }

  lemma NumberRoundTrip(n: nat, limit: nat)
    requires n < limit
    ensures Long(Decimal(n), limit) == Ok(n) && Int(Decimal(n), limit) == Ok(n)
  {
    assert Numeral(n) == Decimal(n);
    NumeralRoundTrip(n, true);
    NumeralRoundTrip(n, false);
  }

  lemma TypeRoundTrip(kind: nat)
    requires TypeName(kind).Some?
    ensures TypeNumber(TypeName(kind).value) == Some(kind)
  {}

  /** What parsing a printed line amounts to. */
  lemma ParsePrinted(r: Record)
    requires Line(r).Ok? && Typed(r)
    ensures Parse(Line(r).value) ==
            if r.kind == INVALID then Err(InvalidType)
            else match Memory(Items(r), r.kind)
                 case Err(e) => Err(e)
                 case Ok(mem) => Ok(Record(r.seqNum, r.kind, mem.0, mem.1, mem.2, r.robDep, mem.3, r.regDep,
                                           Some(OrElse(r.weight, 1)), Some(OrElse(r.pc, 0)), None, None))
  {
    hide Split, Strip, Join, Decimal, Long, Int, Deps, DepText, TypeName, TypeNumber, Memory, Line;
    LineSections(r);
    DepSection(r.robDep);
    DepSection(r.regDep);
    ItemsHead(r);
    NumberRoundTrip(r.seqNum, WORD64);
    NumberRoundTrip(OrElse(r.pc, 0), WORD64);
    NumberRoundTrip(OrElse(r.weight, 1), WORD32);
    TypeRoundTrip(r.kind);
  }

  lemma ItemsHead(r: Record)
    requires Line(r).Ok?
    ensures TypeName(r.kind).Some? && |Items(r)| >= 5
    ensures Items(r)[0] == Decimal(r.seqNum) && Items(r)[1] == Decimal(OrElse(r.pc, 0))
    ensures Items(r)[2] == Decimal(OrElse(r.weight, 1)) && Items(r)[3] == TypeName(r.kind).value
  {}

  /** A printed line parses back to the record, with the defaults filled in, if and only if the text
      form can carry the record. */
  lemma TextRoundTrip(r: Record)
    requires Typed(r)
    ensures Line(r).Ok? && Parse(Line(r).value) == Ok(WithDefaults(r)) <==> Carried(r)
  {
    if Line(r).Ok? {
      ParsePrinted(r);
      MemoryItems(r);
    }
  }

  /** The memory items parse back exactly when all or none are there, as the type wants. */
  lemma MemoryItems(r: Record)
    requires TypeName(r.kind).Some? && Typed(r)
    ensures Memory(Items(r), r.kind) == Ok((r.pAddr, r.size, r.flags, r.compDelay))
            <==> r.pAddr.Some? == r.size.Some? == r.flags.Some? == IsMemory(r.kind)
  {
    hide Long, Int, Decimal, TypeName;
    NumberRoundTrip(r.compDelay, WORD64);
    if r.pAddr.Some? { NumberRoundTrip(r.pAddr.value, WORD64); }
    if r.size.Some? { NumberRoundTrip(r.size.value, WORD32); }
    if r.flags.Some? { NumberRoundTrip(r.flags.value, WORD32); }
  }

  // ----- the lines that are read

  /** Does the text give a number from 0 to below the limit? */
  predicate Reads(s: string, suffix: bool, limit: nat) {
    ParseInt(s, suffix).Some? && 0 <= ParseInt(s, suffix).value < limit
  }

  predicate DepsRead(items: seq<string>) {
    forall i :: 0 <= i < |items| ==> items[i] == "" || Reads(items[i], true, 0x1_0000_0000_0000_0000)
  }

  lemma {:induction false} DepsAccepted(items: seq<string>)
    ensures Deps(items).Ok? <==> DepsRead(items)
  {
    hide ParseInt;
    if items != [] {
      var init := items[..|items| - 1];
      DepsAccepted(init);
      assert forall i :: 0 <= i < |init| ==> items[i] == init[i];
    }
  }

  /** The delay behind the type, and before it address, size and flags of a load or store. */
  predicate MemoryReads(items: seq<string>)
    requires 4 <= |items|
  {
    if items[3] == "COMP" then 5 <= |items| && Reads(items[4], true, 0x1_0000_0000_0000_0000)
    else
      && items[3] in ["LOAD", "STORE"] && 8 <= |items|
      && Reads(items[4], true, 0x1_0000_0000_0000_0000) && Reads(items[5], false, 0x1_0000_0000)
      && Reads(items[6], false, 0x1_0000_0000) && Reads(items[7], true, 0x1_0000_0000_0000_0000)
  }

  /** Sequence number, program counter and weight in front. */
  predicate ItemsRead(items: seq<string>) {
    && 4 <= |items| && MemoryReads(items)
    && Reads(items[0], true, 0x1_0000_0000_0000_0000) && Reads(items[1], true, 0x1_0000_0000_0000_0000)
    && Reads(items[2], true, 0x1_0000_0000)
  }

  lemma MemoryAccepted(items: seq<string>)
    requires 4 <= |items|
    ensures TypeNumber(items[3]).Some? && TypeNumber(items[3]).value != 0 && Memory(items, TypeNumber(items[3]).value).Ok?
       <==> MemoryReads(items)
  {
    hide ParseInt;
  }

  /** A line is read if and only if it has three sections, the right items with numbers in range in the first, and in
      the others nothing but numbers in range and empty items. */
  lemma ParseAccepts(line: string)
    ensures Parse(line).Ok? <==>
            var sections := Split(Strip(line), ':');
            && |sections| == 3 && ItemsRead(Split(sections[0], ','))
            && DepsRead(Split(Strip(sections[1]), ',')) && DepsRead(Split(sections[2], ','))
  {
    hide ParseInt, Split, Strip, MemoryReads, TypeNumber, Memory, Deps, DepsRead;
    var sections := Split(Strip(line), ':');
    if |sections| == 3 {
      var items := Split(sections[0], ',');
      if 4 <= |items| { MemoryAccepted(items); }
      DepsAccepted(Split(Strip(sections[1]), ','));
      DepsAccepted(Split(sections[2], ','));
    }
  }

  // ----- lines in full

  /** The names by number, in both directions. */
  lemma TypeNames(kind: nat)
    ensures TypeName(kind) == if kind < 4 then Some(["INVALID", "LOAD", "STORE", "COMP"][kind]) else None
    ensures kind < 4 ==> TypeNumber(["INVALID", "LOAD", "STORE", "COMP"][kind]) == Some(kind)
    ensures IsMemory(kind) <==> kind == 1 || kind == 2
  {}

  /** The line of a load: sequence number, program counter, weight, type, address, size, flags, delay, then the order
      and the register dependencies. */
  lemma LoadLine()
    ensures var load := Record(7, 1, Some(64), Some(8), Some(3), [5, 6], 10, [4], None, Some(9), None, None);
            && Line(load) == Ok("7,9,1,LOAD,64,8,3,10:,5,6:,4\n")
            && Parse("7,9,1,LOAD,64,8,3,10:,5,6:,4\n") == Ok(load.(weight := Some(1)))
  {
    var load := Record(7, 1, Some(64), Some(8), Some(3), [5, 6], 10, [4], None, Some(9), None, None);
    LoadItems(load);
    DepExample();
    hide Join, Decimal, DepText, Items, TypeName, Parse;
    TypeNames(1);
    assert "7,9,1,LOAD,64,8,3,10" + ":" + ",5,6" + ":" + ",4" + "\n" == "7,9,1,LOAD,64,8,3,10:,5,6:,4\n";
    TextRoundTrip(load);
  }

  /** The line of a computation without optional fields: counter 0, weight 1. */
  lemma CompLine()
    ensures Line(Record(7, 3, None, None, None, [], 8, [], None, None, None, None)) == Ok("7,0,1,COMP,8::\n")
  {
    var comp := Record(7, 3, None, None, None, [], 8, [], None, None, None, None);
    SmallNumbers();
    Defaults();
    hide Decimal, Join;
    assert Items(comp) == ["7", "0", "1", "COMP", "8"];
    hide Items;
    JoinThree("7", "0", "1", ',');
    JoinSnoc(["7", "0", "1"], "COMP", ',');
    assert ["7", "0", "1"] + ["COMP"] == ["7", "0", "1", "COMP"];
    JoinSnoc(["7", "0", "1", "COMP"], "8", ',');
    assert ["7", "0", "1", "COMP"] + ["8"] == ["7", "0", "1", "COMP", "8"];
    assert "7" + "," + "0" + "," + "1" + "," + "COMP" + "," + "8" == "7,0,1,COMP,8";
    assert "7,0,1,COMP,8" + ":" + "" + ":" + "" + "\n" == "7,0,1,COMP,8::\n";
  }

  lemma DepExample()
    ensures DepText([5, 6]) == ",5,6" && DepText([4]) == ",4"
  {
    assert [5, 6][..1] == [5] && [5][..0] == [] && [4][..0] == [];
    assert Decimal(4) == "4" && Decimal(5) == "5" && Decimal(6) == "6";
    hide Decimal;
    assert DepText([5]) == "" + "," + "5";
  }

  lemma LoadItems(load: Record)
    requires load == Record(7, 1, Some(64), Some(8), Some(3), [5, 6], 10, [4], None, Some(9), None, None)
    ensures Join(Items(load), ',') == "7,9,1,LOAD,64,8,3,10"
  {
    SmallNumbers();
    hide Decimal, Join;
    assert Items(load) == ["7", "9", "1", "LOAD", "64", "8", "3", "10"];
    hide *;
    JoinEight("7", "9", "1", "LOAD", "64", "8", "3", "10");
    EightWords();
  }

  lemma SmallNumbers()
    ensures Decimal(7) == "7" && Decimal(9) == "9" && Decimal(1) == "1" && Decimal(64) == "64"
    ensures Decimal(8) == "8" && Decimal(3) == "3" && Decimal(10) == "10"
  {}

  lemma EightWords()
    ensures "7" + "," + "9" + "," + "1" + "," + "LOAD" + "," + "64" + "," + "8" + "," + "3" + "," + "10"
         == "7,9,1,LOAD,64,8,3,10"
  {
    assert "7" + "," + "9" + "," + "1" == "7,9,1";
    assert "7,9,1" + "," + "LOAD" + "," + "64" == "7,9,1,LOAD,64";
    assert "7,9,1,LOAD,64" + "," + "8" + "," + "3" + "," + "10" == "7,9,1,LOAD,64,8,3,10";
  }

  lemma JoinEight(a: string, b: string, c: string, d: string, e: string, f: string, g: string, h: string)
    ensures Join([a, b, c, d, e, f, g, h], ',')
         == a + "," + b + "," + c + "," + d + "," + e + "," + f + "," + g + "," + h
  {
    hide Join;
    JoinThree(a, b, c, ',');
    JoinSnoc([a, b, c], d, ',');
    assert [a, b, c] + [d] == [a, b, c, d];
    JoinSnoc([a, b, c, d], e, ',');
    assert [a, b, c, d] + [e] == [a, b, c, d, e];
    JoinSnoc([a, b, c, d, e], f, ',');
    assert [a, b, c, d, e] + [f] == [a, b, c, d, e, f];
    JoinSnoc([a, b, c, d, e, f], g, ',');
    assert [a, b, c, d, e, f] + [g] == [a, b, c, d, e, f, g];
    JoinSnoc([a, b, c, d, e, f, g], h, ',');
    assert [a, b, c, d, e, f, g] + [h] == [a, b, c, d, e, f, g, h];
  }
}
