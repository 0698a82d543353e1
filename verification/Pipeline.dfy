/**
 From DWARF line records to the symbol file: the line filter, the sweep and the writer in the order in
 which they run, and what holds of the file they produce together.
 */
module Pipeline {
  import opened Intervals
  import opened Symbols
  import opened LineSweep
  import opened LineAssignment
  import opened LineFilter
  import opened SymbolFile
  import opened Sorting

  /** The sweep leaves a function with lines in address order, each beginning in one of its ranges. */
  lemma ShareIsPlaced(f: Function, lines: seq<Line>, got: seq<Line>)
    requires FullShare(f, lines, got)
    ensures InOrderOfAddress(got) && Placed(f.ranges, got)
  {
    forall i | 0 <= i < |got|
      ensures PlacedFrom(f.ranges, 0, got[i])
    {
      assert got[i] in got && IsPieceOf(f, lines, got[i]);
      var r, l :| r in f.ranges && l in lines && PieceFor(r, l) && got[i] == Cut(r, l);
      var k :| 0 <= k < |f.ranges| && f.ranges[k] == r;
      assert Holds(f.ranges[k], got[i]);
    }
  }

  lemma {:induction false} HeldMembers(lines: seq<Line>, r: Span, l: Line)
    ensures l in Held(lines, r) <==> l in lines && Holds(r, l)
  {
    if lines != [] {
      HeldMembers(lines[..|lines| - 1], r, l);
      assert lines == lines[..|lines| - 1] + [lines[|lines| - 1]];
    }
  }

  lemma {:induction false} GroupedMembers(c: Context, f: Function, lines: seq<Line>, k: nat, x: Record)
    requires k <= |f.ranges|
    ensures x in Grouped(c, f, lines, k)
      <==> exists j | k <= j < |f.ranges| ::
             x == RangeRecord(c, f, f.ranges[j]) || x in LineRecords(c, Shown(lines, f.ranges[j]))
    decreases |f.ranges| - k
  {
    hide Shown, RangeRecord, LineRecords;
    if k < |f.ranges| {
      GroupedMembers(c, f, lines, k + 1, x);
      var r := f.ranges[k];
      assert x in Grouped(c, f, lines, k)
        <==> x == RangeRecord(c, f, r) || x in LineRecords(c, Shown(lines, r)) || x in Grouped(c, f, lines, k + 1);
    }
  }

  lemma RecordsMembers(c: Context, lines: seq<Line>, x: Record)
    ensures x in LineRecords(c, lines) <==> exists l :: l in lines && x == RecordOf(c, l)
  {
    if x in LineRecords(c, lines) {
      var k :| 0 <= k < |lines| && LineRecords(c, lines)[k] == x;
      assert lines[k] in lines && x == RecordOf(c, lines[k]);
    }
    if l :| l in lines && x == RecordOf(c, l) {
      var k :| 0 <= k < |lines| && lines[k] == l;
      assert LineRecords(c, lines)[k] == x;
    }
  }

  /** The piece of some source line of the unit that begins in some range of `f` not ending at the top. */
  ghost predicate IsPieceRecord(c: Context, f: Function, lines: seq<Line>, x: Record) {
    exists r, l :: r in f.ranges && l in lines && PieceFor(r, l) && !EndsAtTop(r) && x == RecordOf(c, Cut(r, l))
  }

  /** The line records written for a function are exactly its pieces of the unit's lines. */
  lemma {:induction false} WrittenPieces(c: Context, f: Function, lines: seq<Line>, x: Record)
    requires FullShare(f, lines, f.lines) && Layered(f.ranges) && NoneWraps(f.ranges) && x.LineRecord?
    ensures x in Emit(c, f, f.lines, 0, 0) <==> IsPieceRecord(c, f, lines, x)
  {
    hide Emit, Grouped, Shown, RecordOf, LineRecords, FullShare, RangeRecord, Meets, Cut, Layered, NoneWraps, Placed,
      InOrderOfAddress;
    ShareIsPlaced(f, lines, f.lines);
    TidyIsGrouped(c, f);
    GroupedMembers(c, f, f.lines, 0, x);
    RangesAreNoLines(c, f);
    if x in Grouped(c, f, f.lines, 0) {
      var j :| 0 <= j < |f.ranges| && x in LineRecords(c, Shown(f.lines, f.ranges[j]));
      ShownIsPiece(c, f, lines, j, x);
    }
    if r, l :| r in f.ranges && l in lines && PieceFor(r, l) && !EndsAtTop(r) && x == RecordOf(c, Cut(r, l)) {
      PieceIsShown(c, f, lines, r, l);
      var j :| 0 <= j < |f.ranges| && f.ranges[j] == r;
    }
  }

  lemma RangesAreNoLines(c: Context, f: Function)
    ensures forall r :: !RangeRecord(c, f, r).LineRecord?
  {
  }

  lemma PieceIsShown(c: Context, f: Function, lines: seq<Line>, r: Span, l: Line)
    requires FullShare(f, lines, f.lines) && r in f.ranges && l in lines && PieceFor(r, l) && !EndsAtTop(r)
    ensures RecordOf(c, Cut(r, l)) in LineRecords(c, Shown(f.lines, r))
  {
    hide RecordOf, LineRecords;
    HeldMembers(f.lines, r, Cut(r, l));
    RecordsMembers(c, Shown(f.lines, r), RecordOf(c, Cut(r, l)));
  }

  lemma ShownIsPiece(c: Context, f: Function, lines: seq<Line>, j: nat, x: Record)
    requires FullShare(f, lines, f.lines) && Layered(f.ranges) && NoneWraps(f.ranges) && j < |f.ranges|
    requires x in LineRecords(c, Shown(f.lines, f.ranges[j]))
    ensures IsPieceRecord(c, f, lines, x)
  {
    hide Held, RecordOf;
    RecordsMembers(c, Shown(f.lines, f.ranges[j]), x);
    var p :| p in Shown(f.lines, f.ranges[j]) && x == RecordOf(c, p);
    HeldMembers(f.lines, f.ranges[j], p);
    assert p in f.lines && IsPieceOf(f, lines, p);
    var r, l :| r in f.ranges && l in lines && PieceFor(r, l) && p == Cut(r, l);
    HolderIsUnique(f.ranges, f.ranges[j], r, p);
  }

  lemma HolderIsUnique(ranges: seq<Span>, r: Span, s: Span, l: Line)
    requires Layered(ranges) && r in ranges && s in ranges && Holds(r, l) && Holds(s, l)
    ensures r == s
  {
    var i :| 0 <= i < |ranges| && ranges[i] == r;
    var j :| 0 <= j < |ranges| && ranges[j] == s;
    LayeredOrder(ranges, i, j);
    LayeredOrder(ranges, j, i);
  }

  lemma {:induction false} FunctionRecordsMembers(c: Context, functions: seq<Function>, x: Record)
    ensures x in FunctionRecords(c, functions) <==> exists f :: f in functions && x in Emit(c, f, f.lines, 0, 0)
  {
    hide Emit;
    if functions != [] {
      var init, last := functions[..|functions| - 1], functions[|functions| - 1];
      FunctionRecordsMembers(c, init, x);
      assert functions == init + [last];
    }
  }

  lemma NoOtherLineRecords(files: seq<File>, cited: seq<Line>, n: nat, externs: seq<Extern>, load: Address)
    requires n <= |files|
    ensures forall x | x in FileRecords(files, cited, n) :: x.FileRecord?
    ensures forall x | x in PublicRecords(externs, load) :: x.PublicRecord?
  {
  }

  predicate SameKey(f: Function, g: Function) { f.address == g.address && f.name == g.name }

  /** No function of the module has this address and name. */
  ghost predicate KeyFree(functions: seq<Function>, f: Function) { forall g | g in functions :: !SameKey(g, f) }

  ghost predicate FirstAt(functions: seq<Function>, f: Function, i: nat) {
    i < |functions| && functions[i] == f && forall j | 0 <= j < i :: !SameKey(functions[j], f)
  }

  /** The first function in the list with its address and name. */
  ghost predicate FirstOfKey(functions: seq<Function>, f: Function) { exists i: nat :: FirstAt(functions, f, i) }

  /** The module has a place for the function. */
  ghost predicate Accepted(m: Module, f: Function)
    reads m
  {
    m.InModule(f.address) && KeyFree(m.functions, f)
  }

  /** A function as the writer needs it: disjoint ranges in order, and each line in one of them, in order. */
  ghost predicate Tidy(f: Function)
    reads f
  {
    Layered(f.ranges) && NoneWraps(f.ranges) && InOrderOfAddress(f.lines) && Placed(f.ranges, f.lines)
  }

  /** The FUNC and line records of all functions, each line under the range it begins in. */
  function GroupedAll(c: Context, functions: seq<Function>): seq<Record>
    reads functions
  {
    if functions == [] then []
    else
      var f := functions[|functions| - 1];
      GroupedAll(c, functions[..|functions| - 1]) + Grouped(c, f, f.lines, 0)
  }

  lemma {:induction false} AllGrouped(c: Context, functions: seq<Function>)
    requires forall f | f in functions :: Tidy(f)
    ensures FunctionRecords(c, functions) == GroupedAll(c, functions)
  {
    hide Emit, Grouped;
    if functions != [] {
      var f := functions[|functions| - 1];
      AllGrouped(c, functions[..|functions| - 1]);
      TidyIsGrouped(c, f);
    }
  }

  function AllGroupedItems(functions: seq<Function>): seq<Item>
    reads functions
  {
    if functions == [] then []
    else
      var f := functions[|functions| - 1];
      AllGroupedItems(functions[..|functions| - 1]) + GroupedItems(f, f.lines, 0)
  }

  /** A reader of the records finds each function's ranges, and under each the lines that begin in it. */
  lemma {:induction false} AllGroupedSay(c: Context, functions: seq<Function>)
    ensures AllSay(GroupedAll(c, functions), AllGroupedItems(functions), c.loadAddress)
  {
    hide AllSay, Grouped, GroupedItems;
    if functions == [] {
      NothingSaid(c.loadAddress);
    } else {
      var init, f := functions[..|functions| - 1], functions[|functions| - 1];
      AllGroupedSay(c, init);
      GroupedSays(c, f, f.lines, 0);
      SaysJoined(GroupedAll(c, init), AllGroupedItems(init), Grouped(c, f, f.lines, 0), GroupedItems(f, f.lines, 0),
                 c.loadAddress);
    }
  }

  /** The record of a piece of the unit's lines in a function that the module took in. */
  ghost predicate OfUnit(c: Context, functions: seq<Function>, taken: seq<Function>, lines: seq<Line>, x: Record) {
    exists f :: f in functions && f in taken && IsPieceRecord(c, f, lines, x)
  }

  ghost predicate OfEarlier(c: Context, functions: seq<Function>, x: Record)
    reads functions
  {
    exists f :: f in functions && x in Grouped(c, f, f.lines, 0)
  }

  /** The id in the record of each piece is that of a FILE record that names its file. */
  ghost predicate FilesNamed(c: Context, f: Function, lines: seq<Line>, out: seq<Record>) {
    forall r, l | r in f.ranges && l in lines && PieceFor(r, l) ::
      FileRecord(RecordOf(c, Cut(r, l)).id, l.file.name) in out
  }

  /**
   A compilation unit whose lines and functions have been read and not yet brought together, and a module
   that may hold functions of earlier units and may be restricted to certain addresses.
   */
  ghost predicate Ready(reader: DwarfLineToModule, unit: DwarfCUToModule, m: Module)
    reads reader, unit, m, m.functions, unit.functions
  {
    && reader.Valid() && reader.given == [] && unit.lines == reader.lines
    && PairwiseApart(Extents(unit.lines))
    && NoRangeWraps(unit.functions) && DisjointRanges(unit.functions)
    && (forall f | f in unit.functions :: f.lines == [] && f.name != "" && Layered(f.ranges) && f !in m.functions)
    && reader.target == m && reader.Bound()
    && m.Valid() && (forall f | f in m.functions :: Tidy(f))
  }

  /** The sweep over the lines that the filter recorded. */
  method AssignUnit(reader: DwarfLineToModule, unit: DwarfCUToModule)
    requires reader.Valid() && reader.given == [] && unit.lines == reader.lines && PairwiseApart(Extents(unit.lines))
    requires NoRangeWraps(unit.functions) && DisjointRanges(unit.functions)
    requires forall f | f in unit.functions :: f.lines == []
    modifies unit, unit.reporter, set f | f in unit.functions
    ensures forall f | f in old(unit.functions) :: FullShare(f, old(unit.lines), f.lines)
    ensures multiset(unit.functions) == multiset(old(unit.functions))
    ensures forall f :: f in unit.functions <==> f in old(unit.functions)
    ensures forall i, j | 0 <= i < j < |unit.functions| :: unit.functions[i] != unit.functions[j]
  {
    hide FullShare, Kept, OnChain, OpenEnd, RightWarnings;
    KeptAreSound(reader.history, |reader.history|);
    assert unit.lines == Kept(reader.history, |reader.history|);
    ghost var lines, functions := unit.lines, unit.functions;
    var _, _, _ := unit.AssignLinesToFunctions();
    SameFunctions(functions, unit.functions);
    forall f | f in functions
      ensures FullShare(f, unit.lines, f.lines)
    {
      assert f in unit.functions && f.lines[0..] == f.lines;
    }
    SharesOfSameLines(functions, lines, unit.lines);
  }

  /**
   One unit on its way into the symbol file.  Of the functions it accepts the module gains the first of each
   address and name, in the order that sorting leaves; its file has the
   lines of every function under the range each begins in; the line records of the unit's functions are
   exactly the pieces in which the recorded lines meet their ranges; the file of each is named.
   */
  method Symbolize(reader: DwarfLineToModule, unit: DwarfCUToModule, m: Module)
    returns (out: seq<Record>, ghost c: Context)
    requires Ready(reader, unit, m)
    modifies unit, unit.reporter, m, set f | f in unit.functions, set f | f in m.files
    ensures m.Valid() && c == Context(m.files, AllLines(m.functions), m.loadAddress)
    ensures multiset(unit.functions) == multiset(old(unit.functions))
    ensures forall f ::
      f in m.functions <==>
      f in old(m.functions) || (f in old(unit.functions) && FirstOfKey(unit.functions, f) && old(Accepted(m, f)))
    ensures forall f | f in m.functions :: Tidy(f)
    ensures forall f | f in old(unit.functions) :: FullShare(f, old(unit.lines), f.lines)
    ensures out == FileOf(m, c)
    ensures forall x: Record | x.LineRecord? ::
      x in out <==> OfUnit(c, old(unit.functions), m.functions, old(unit.lines), x) || OfEarlier(c, old(m.functions), x)
    ensures forall f | f in old(unit.functions) && f in m.functions :: FilesNamed(c, f, old(unit.lines), out)
  {
    hide FullShare, Layered, Tidy, FileOf, Kept, OnChain, OpenEnd;
    ghost var lines := unit.lines;
    KeptFiles(reader.history, |reader.history|, m.files);
    assert lines == Kept(reader.history, |reader.history|);
    AssignUnit(reader, unit);
    out, c := WriteUnit(unit.functions, lines, m);
  }

  function FileOf(m: Module, c: Context): seq<Record>
    reads m, m.functions
  {
    [ModuleRecord(m.os, m.architecture, m.identifier, m.name)]
    + (if m.codeId == "" then [] else [CodeIdRecord(m.codeId)])
    + (FileRecords(m.files, c.cited, |m.files|) + GroupedAll(c, m.functions) + PublicRecords(m.externs, m.loadAddress))
  }

  /** What is written when the functions have their lines. */
  method WriteUnit(functions: seq<Function>, ghost lines: seq<Line>, m: Module)
    returns (out: seq<Record>, ghost c: Context)
    requires m.Valid() && forall f | f in m.functions :: Tidy(f)
    requires forall i, j | 0 <= i < j < |functions| :: functions[i] != functions[j]
    requires forall f | f in functions :: f.name != "" && Layered(f.ranges) && NoneWraps(f.ranges) && f !in m.functions
    requires forall f | f in functions :: FullShare(f, lines, f.lines)
    requires forall l | l in lines :: l.file in m.files
    modifies m`functions, m`externs, set f | f in m.files
    ensures m.Valid() && c == Context(m.files, AllLines(m.functions), m.loadAddress)
    ensures forall f ::
      f in m.functions <==>
      f in old(m.functions) || (f in functions && FirstOfKey(functions, f) && old(Accepted(m, f)))
    ensures forall f | f in m.functions :: Tidy(f)
    ensures out == FileOf(m, c)
    ensures forall x: Record | x.LineRecord? ::
      x in out <==> OfUnit(c, functions, m.functions, lines, x) || OfEarlier(c, old(m.functions), x)
    ensures forall f | f in functions && f in m.functions :: FilesNamed(c, f, lines, out)
  {
    hide FullShare, Layered, NoneWraps, Tidy, FileOf, AllSay, FunctionItems, SymbolItems;
    ghost var earlier := m.functions;
    PiecesKeepFiles(functions, lines, m.files);
    AddAll(functions, m);
    c := Context(m.files, AllLines(m.functions), m.loadAddress);
    out := m.Write(AllSymbolData);
    SharesAreTidy(functions, lines);
    AllGrouped(c, m.functions);
    assert out == FileOf(m, c) by { FileIs(m, c, out); }
    FileIsRight(m, functions, earlier, lines, c, out);
  }

  lemma FileIs(m: Module, c: Context, out: seq<Record>)
    requires FunctionRecords(c, m.functions) == GroupedAll(c, m.functions)
    requires out == [ModuleRecord(m.os, m.architecture, m.identifier, m.name)]
                    + (if m.codeId == "" then [] else [CodeIdRecord(m.codeId)])
                    + (FileRecords(m.files, c.cited, |m.files|) + FunctionRecords(c, m.functions)
                       + PublicRecords(m.externs, m.loadAddress))
    ensures out == FileOf(m, c)
  {
  }

  lemma SharesAreTidy(functions: seq<Function>, lines: seq<Line>)
    requires forall f | f in functions :: FullShare(f, lines, f.lines) && Layered(f.ranges) && NoneWraps(f.ranges)
    ensures forall f | f in functions :: Tidy(f)
  {
    forall f | f in functions
      ensures Tidy(f)
    {
      ShareIsPlaced(f, lines, f.lines);
    }
  }

  lemma PiecesKeepFiles(functions: seq<Function>, lines: seq<Line>, files: seq<File>)
    requires forall f | f in functions :: FullShare(f, lines, f.lines)
    requires forall l | l in lines :: l.file in files
    ensures forall f, p | f in functions && p in f.lines :: p.file in files
  {
    forall f, p | f in functions && p in f.lines
      ensures p.file in files
    {
      assert IsPieceOf(f, lines, p);
    }
  }

  lemma SharesOfSameLines(functions: seq<Function>, lines: seq<Line>, sorted: seq<Line>)
    requires multiset(lines) == multiset(sorted)
    requires forall f | f in functions :: FullShare(f, sorted, f.lines)
    ensures forall f | f in functions :: FullShare(f, lines, f.lines)
  {
    forall l
      ensures l in lines <==> l in sorted
    {
      SameMembers(lines, sorted, l);
    }
    forall f | f in functions
      ensures FullShare(f, lines, f.lines)
    {
      forall p | p in f.lines
        ensures IsPieceOf(f, lines, p)
      {
        assert IsPieceOf(f, sorted, p);
      }
    }
  }

  lemma SameFunctions(before: seq<Function>, after: seq<Function>)
    requires multiset(before) == multiset(after) && DisjointRanges(before)
    ensures forall f :: f in before <==> f in after
    ensures forall i, j | 0 <= i < j < |after| :: after[i] != after[j]
  {
    Rearranged(before, after, (f: Function, g: Function) => f != g);
    forall f
      ensures f in before <==> f in after
    {
      SameMembers(before, after, f);
    }
  }

  lemma FirstSnoc(functions: seq<Function>, k: nat, f: Function)
    requires k < |functions| && forall i, j | 0 <= i < j < |functions| :: functions[i] != functions[j]
    ensures FirstOfKey(functions[..k + 1], f) <==>
      FirstOfKey(functions[..k], f) || (f == functions[k] && forall j | 0 <= j < k :: !SameKey(functions[j], f))
  {
    var before, after := functions[..k], functions[..k + 1];
    assert after == before + [functions[k]];
    if i: nat :| FirstAt(before, f, i) {
      assert FirstAt(after, f, i);
    }
    if i: nat :| FirstAt(after, f, i) {
      assert i < k ==> FirstAt(before, f, i);
    }
    if f == functions[k] && forall j | 0 <= j < k :: !SameKey(functions[j], f) {
      assert FirstAt(after, f, k);
    }
  }

  /** Some function with the key of `f` is the first of it. */
  lemma {:induction false} FirstExists(functions: seq<Function>, f: Function, j: nat) returns (i: nat)
    requires j < |functions| && SameKey(functions[j], f)
    ensures i <= j && SameKey(functions[i], f) && FirstAt(functions, functions[i], i)
    decreases j
  {
    if k: nat :| k < j && SameKey(functions[k], f) {
      i := FirstExists(functions, f, k);
    } else {
      i := j;
    }
  }

  /** Of each address and name that occurs exactly one function is the first. */
  lemma OneOfEachKey(functions: seq<Function>, f: Function)
    requires f in functions
    ensures exists g :: g in functions && SameKey(g, f) && FirstOfKey(functions, g)
    ensures forall g, h | FirstOfKey(functions, g) && FirstOfKey(functions, h) && SameKey(g, f) && SameKey(h, f) ::
      g == h
  {
    var j: nat :| j < |functions| && functions[j] == f;
    var i := FirstExists(functions, f, j);
    assert FirstOfKey(functions, functions[i]);
  }

  /** Whether the next function finds its key free depends on the module as it was and on those before it. */
  lemma KeyFreeNow(now: seq<Function>, was: seq<Function>, before: seq<Function>, f: Function)
    requires forall g | g in now :: g in was || FirstOfKey(before, g)
    requires forall g | g in was :: g in now
    requires forall g | g in before && SameKey(g, f) && FirstOfKey(before, g) && KeyFree(was, g) :: g in now
    ensures KeyFree(now, f) <==> KeyFree(was, f) && forall j | 0 <= j < |before| :: !SameKey(before[j], f)
  {
    if KeyFree(was, f) {
      if j: nat :| j < |before| && SameKey(before[j], f) {
        var i := FirstExists(before, f, j);
        assert FirstOfKey(before, before[i]) && KeyFree(was, before[i]);
      }
    }
    forall g | g in now && KeyFree(was, f) && forall j | 0 <= j < |before| :: !SameKey(before[j], f)
      ensures !SameKey(g, f)
    {
      if FirstOfKey(before, g) {
        var i: nat :| FirstAt(before, g, i);
      }
    }
  }

  /** Module::AddFunctions. */
  method AddAll(functions: seq<Function>, m: Module)
    requires m.Valid()
    requires forall i, j | 0 <= i < j < |functions| :: functions[i] != functions[j]
    requires forall f | f in functions :: f.name != "" && f !in m.functions
    requires forall f | f in functions :: forall l | l in f.lines :: l.file in m.files
    modifies m`functions, m`externs
    ensures m.Valid()
    ensures forall f ::
      f in m.functions <==>
      f in old(m.functions) || (f in functions && FirstOfKey(functions, f) && old(Accepted(m, f)))
  {
    hide KeyFree, FirstOfKey;
    NoFirst();
    for k := 0 to |functions|
      invariant m.Valid()
      invariant forall f ::
        f in m.functions <==>
        f in old(m.functions) || (f in functions && FirstOfKey(functions[..k], f) && old(Accepted(m, f)))
    {
      var f := functions[k];
      forall g
        ensures FirstOfKey(functions[..k + 1], g) <==>
          FirstOfKey(functions[..k], g) || (g == f && forall j | 0 <= j < k :: !SameKey(functions[j], f))
      {
        FirstSnoc(functions, k, g);
      }
      FirstIsMember(functions[..k]);
      if m.InModule(f.address) {
        KeyFreeNow(m.functions, old(m.functions), functions[..k], f);
      }
      ghost var before := m.functions;
      m.AddFunction(f);
      Joins(before, f, m.functions);
      KeyFreeIff(before, f);
    }
    assert functions[..|functions|] == functions;
    FirstIsMember(functions);
  }

  lemma KeyFreeIff(functions: seq<Function>, f: Function)
    ensures KeyFree(functions, f) <==> !exists g :: g in functions && g.address == f.address && g.name == f.name
  {
    if !KeyFree(functions, f) {
      var g :| g in functions && SameKey(g, f);
    }
  }

  lemma NoFirst()
    ensures forall f :: !FirstOfKey([], f)
  {
  }

  lemma FirstIsMember(functions: seq<Function>)
    ensures forall f | FirstOfKey(functions, f) :: f in functions
  {
  }

  lemma Joins(before: seq<Function>, f: Function, after: seq<Function>)
    ensures multiset(after) == multiset(before) + multiset{f} ==> forall g :: g in after <==> g in before || g == f
  {
    if multiset(after) == multiset(before) + multiset{f} {
      forall g
        ensures g in after <==> g in before || g == f
      {
        assert g in after <==> g in multiset(after);
        assert g in before <==> g in multiset(before);
      }
    }
  }

  lemma FileIsRight(m: Module, functions: seq<Function>, earlier: seq<Function>, lines: seq<Line>, c: Context,
                    out: seq<Record>)
    requires m.Valid() && c == Context(m.files, AllLines(m.functions), m.loadAddress)
    requires forall f | f in m.functions :: f in earlier || f in functions
    requires forall f | f in earlier :: f in m.functions && Tidy(f) && f !in functions
    requires forall f | f in functions :: FullShare(f, lines, f.lines) && Layered(f.ranges) && NoneWraps(f.ranges)
    requires FunctionRecords(c, m.functions) == GroupedAll(c, m.functions) && out == FileOf(m, c)
    ensures forall x: Record | x.LineRecord? ::
      x in out <==> OfUnit(c, functions, m.functions, lines, x) || OfEarlier(c, earlier, x)
    ensures forall f | f in functions && f in m.functions :: FilesNamed(c, f, lines, out)
  {
    hide FullShare, Emit, Grouped, Layered, NoneWraps, IsPieceRecord, FileRecords, PublicRecords, FunctionRecords, Tidy,
      GroupedAll;
    NoOtherLineRecords(m.files, c.cited, |m.files|, m.externs, m.loadAddress);
    forall x: Record | x.LineRecord?
      ensures x in out <==> OfUnit(c, functions, m.functions, lines, x) || OfEarlier(c, earlier, x)
    {
      FunctionRecordsMembers(c, m.functions, x);
      assert x in out <==> x in FunctionRecords(c, m.functions);
      forall f | f in functions
        ensures x in Emit(c, f, f.lines, 0, 0) <==> IsPieceRecord(c, f, lines, x)
      {
        WrittenPieces(c, f, lines, x);
      }
      forall f | f in earlier
        ensures Emit(c, f, f.lines, 0, 0) == Grouped(c, f, f.lines, 0)
      {
        TidyIsGrouped(c, f);
      }
    }
    forall f | f in functions && f in m.functions
      ensures FilesNamed(c, f, lines, out)
    {
      forall r, l | r in f.ranges && l in lines && PieceFor(r, l)
        ensures FileRecord(RecordOf(c, Cut(r, l)).id, l.file.name) in out
      {
        PieceIsNamed(m, f, lines, c, r, l);
      }
    }
  }

  lemma TidyIsGrouped(c: Context, f: Function)
    requires Tidy(f)
    ensures Emit(c, f, f.lines, 0, 0) == Grouped(c, f, f.lines, 0)
  {
    assert CursorAt(f.ranges, f.lines, 0, 0);
    EmitGroups(c, f, f.lines, 0, 0);
  }

  lemma PieceIsNamed(m: Module, f: Function, lines: seq<Line>, c: Context, r: Span, l: Line)
    requires m.Valid() && c == Context(m.files, AllLines(m.functions), m.loadAddress)
    requires f in m.functions && FullShare(f, lines, f.lines) && r in f.ranges && l in lines && PieceFor(r, l)
    ensures FileRecord(RecordOf(c, Cut(r, l)).id, l.file.name) in FileRecords(m.files, c.cited, |m.files|)
  {
    AllLinesOf(m.functions, f, Cut(r, l));
    LineFileIsNamed(m.files, c.cited, Cut(r, l));
  }
}
