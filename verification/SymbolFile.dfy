/**
 Module: the symbol table of one binary and the symbol file written from it.  Files and functions are
 kept in their map order; the file is a sequence of records.
 */
module SymbolFile {
  import opened Intervals
  import opened Symbols
  import opened Sorting

  // ----- Names, compared as std::string compares them

  predicate Less(a: string, b: string) {
    b != "" && (a == "" || a[0] < b[0] || (a[0] == b[0] && Less(a[1..], b[1..])))
  }

  /** A proper prefix, or smaller at the first place where they differ. */
  lemma {:induction false} LessIs(a: string, b: string)
    ensures Less(a, b) <==> a < b || exists k: nat :: FirstLower(a, b, k)
  {
    if a != "" && b != "" && a[0] == b[0] {
      LessIs(a[1..], b[1..]);
      PrefixOfRest(a, b);
      FirstLowerInRest(a, b);
    } else if a != "" && b != "" && a[0] < b[0] {
      assert FirstLower(a, b, 0);
    }
  }

  ghost predicate FirstLower(a: string, b: string, k: nat) {
    k < |a| && k < |b| && (forall i | 0 <= i < k :: a[i] == b[i]) && a[k] < b[k]
  }

  lemma PrefixOfRest(a: string, b: string)
    requires a != "" && b != "" && a[0] == b[0]
    ensures a < b <==> a[1..] < b[1..]
  {
    assert a == [a[0]] + a[1..] && b == [b[0]] + b[1..];
  }

  lemma FirstLowerInRest(a: string, b: string)
    requires a != "" && b != "" && a[0] == b[0]
    ensures (exists k: nat :: FirstLower(a, b, k)) <==> exists k: nat :: FirstLower(a[1..], b[1..], k)
  {
    if k: nat :| FirstLower(a[1..], b[1..], k) {
      assert forall i | 0 < i < k + 1 :: a[i] == a[1..][i - 1] && b[i] == b[1..][i - 1];
      assert FirstLower(a, b, k + 1);
    }
    if k: nat :| FirstLower(a, b, k) {
      assert FirstLower(a[1..], b[1..], k - 1);
    }
  }

  lemma {:induction false} LessIsStrict(a: string, b: string)
    ensures Less(a, b) ==> a != b && !Less(b, a)
  {
    if a != "" && b != "" && a[0] == b[0] {
      LessIsStrict(a[1..], b[1..]);
    }
  }

  lemma {:induction false} LessIsTotal(a: string, b: string)
    ensures Less(a, b) || a == b || Less(b, a)
  {
    if a != "" && b != "" && a[0] == b[0] {
      LessIsTotal(a[1..], b[1..]);
      assert a == [a[0]] + a[1..] && b == [b[0]] + b[1..];
    }
  }

  lemma {:induction false} LessIsTransitive(a: string, b: string, c: string)
    requires Less(a, b) && Less(b, c)
    ensures Less(a, c)
  {
    if a != "" && a[0] == b[0] == c[0] {
      LessIsTransitive(a[1..], b[1..], c[1..]);
    }
  }

  /** A map's order: strictly ascending by name. */
  ghost predicate ByName(files: seq<File>) { forall i, j | 0 <= i < j < |files| :: Less(files[i].name, files[j].name) }

  lemma NamesDiffer(files: seq<File>, i: nat, j: nat)
    requires ByName(files) && i < j < |files|
    ensures files[i] != files[j] && files[i].name != files[j].name
  {
    LessIsStrict(files[i].name, files[j].name);
  }

  // ----- Source ids

  function AllLines(functions: seq<Function>): seq<Line>
    reads functions
  {
    if functions == [] then [] else AllLines(functions[..|functions| - 1]) + functions[|functions| - 1].lines
  }

  predicate Cited(lines: seq<Line>, file: File) { exists i :: 0 <= i < |lines| && lines[i].file == file }

  function CountCited(files: seq<File>, lines: seq<Line>, k: nat): (n: nat)
    requires k <= |files|
    ensures n <= k
  {
    if k == 0 then 0 else CountCited(files, lines, k - 1) + if Cited(lines, files[k - 1]) then 1 else 0
  }

  /** The number of cited files before it in name order; -1 for a file nobody cites. */
  function IdOf(files: seq<File>, lines: seq<Line>, k: nat): int
    requires k < |files|
  {
    if Cited(lines, files[k]) then CountCited(files, lines, k) else -1
  }

  lemma {:induction false} CountGrows(files: seq<File>, lines: seq<Line>, j: nat, k: nat)
    requires j <= k <= |files|
    ensures CountCited(files, lines, j) <= CountCited(files, lines, k)
    decreases k
  {
    if j < k {
      CountGrows(files, lines, j, k - 1);
    }
  }

  /** Cited files are numbered in name order without a gap or a repetition. */
  lemma {:induction false} IdsAreOrdered(files: seq<File>, lines: seq<Line>, j: nat, k: nat)
    requires j < k < |files| && Cited(lines, files[j]) && Cited(lines, files[k])
    ensures 0 <= IdOf(files, lines, j) < IdOf(files, lines, k) < CountCited(files, lines, |files|)
  {
    CountGrows(files, lines, j + 1, k);
    CountGrows(files, lines, k + 1, |files|);
  }

  lemma {:induction false} EveryIdIsUsed(files: seq<File>, lines: seq<Line>, n: nat, id: nat)
    requires n <= |files| && id < CountCited(files, lines, n)
    ensures exists k: nat :: k < n && Cited(lines, files[k]) && IdOf(files, lines, k) == id
  {
    if Cited(lines, files[n - 1]) && CountCited(files, lines, n - 1) == id {
      assert IdOf(files, lines, n - 1) == id;
    } else {
      EveryIdIsUsed(files, lines, n - 1, id);
    }
  }

  /** The id of a file among the first `n`. */
  function FileId(files: seq<File>, lines: seq<Line>, n: nat, file: File): int
    requires n <= |files|
  {
    if n == 0 then -1 else if files[n - 1] == file then IdOf(files, lines, n - 1) else FileId(files, lines, n - 1, file)
  }

  lemma {:induction false} FileIdAt(files: seq<File>, lines: seq<Line>, n: nat, k: nat)
    requires ByName(files) && k < n <= |files|
    ensures FileId(files, lines, n, files[k]) == IdOf(files, lines, k)
  {
    if k < n - 1 {
      NamesDiffer(files, k, n - 1);
      FileIdAt(files, lines, n - 1, k);
    }
  }

  // ----- The records of one function

  datatype Record =
    | ModuleRecord(os: string, architecture: string, identifier: string, name: string)
    | CodeIdRecord(codeId: string)
    | FileRecord(id: int, name: string)
    | FuncRecord(address: Address, size: Address, parameterSize: Address, name: string)
    | LineRecord(address: Address, size: Address, number: int, id: int)
    | PublicRecord(address: Address, name: string)

  /** What the records of a function depend on: the files, every cited line, the load address. */
  datatype Context = Context(files: seq<File>, cited: seq<Line>, loadAddress: Address)

  function RangeRecord(c: Context, f: Function, r: Span): Record {
    FuncRecord(Minus(r.address, c.loadAddress), r.size, f.parameterSize, f.name)
  }

  function RecordOf(c: Context, l: Line): Record {
    LineRecord(Minus(l.extent.address, c.loadAddress), l.extent.size, l.number,
               FileId(c.files, c.cited, |c.files|, l.file))
  }

  function LineRecords(c: Context, lines: seq<Line>): seq<Record> {
    seq(|lines|, k requires 0 <= k < |lines| => RecordOf(c, lines[k]))
  }

  /** The range test of Write, with the end of the range in 64 bits. */
  predicate InCode(r: Span, a: Address) { r.address <= a < Plus(r.address, r.size) }

  function Taken(lines: seq<Line>, l: nat, r: Span): (m: nat)
    requires l <= |lines|
    ensures l <= m <= |lines|
    decreases |lines| - l
  {
    if l < |lines| && InCode(r, lines[l].extent.address) then Taken(lines, l + 1, r) else l
  }

  /** What the two nested loops write from range `k` and line `l` on. */
  function Emit(c: Context, f: Function, lines: seq<Line>, k: nat, l: nat): seq<Record>
    requires k <= |f.ranges| && l <= |lines|
    decreases |f.ranges| - k
  {
    if k == |f.ranges| then []
    else
      var m := Taken(lines, l, f.ranges[k]);
      [RangeRecord(c, f, f.ranges[k])] + LineRecords(c, lines[l..m]) + Emit(c, f, lines, k + 1, m)
  }

  // ----- What they should be: under each range, the lines that begin in it

  predicate Holds(r: Span, l: Line) { r.address <= l.extent.address < End(r) }

  function Held(lines: seq<Line>, r: Span): seq<Line> {
    if lines == [] then []
    else Held(lines[..|lines| - 1], r) + if Holds(r, lines[|lines| - 1]) then [lines[|lines| - 1]] else []
  }

  /** The end of this range is one past the last address. */
  predicate EndsAtTop(r: Span) { End(r) == MODULUS }

  function Shown(lines: seq<Line>, r: Span): seq<Line> { if EndsAtTop(r) then [] else Held(lines, r) }

  function Grouped(c: Context, f: Function, lines: seq<Line>, k: nat): seq<Record>
    requires k <= |f.ranges|
    decreases |f.ranges| - k
  {
    if k == |f.ranges| then []
    else
      [RangeRecord(c, f, f.ranges[k])] + LineRecords(c, Shown(lines, f.ranges[k])) + Grouped(c, f, lines, k + 1)
  }

  function AllShown(lines: seq<Line>, ranges: seq<Span>): seq<Line> {
    if ranges == [] then [] else AllShown(lines, ranges[..|ranges| - 1]) + Shown(lines, ranges[|ranges| - 1])
  }

  ghost predicate NoneWraps(ranges: seq<Span>) { forall k | 0 <= k < |ranges| :: End(ranges[k]) <= MODULUS }

  ghost predicate InOrderOfAddress(lines: seq<Line>) {
    forall i, j | 0 <= i < j < |lines| :: lines[i].extent.address <= lines[j].extent.address
  }

  /** The line begins in a range at or after the `k`th. */
  ghost predicate PlacedFrom(ranges: seq<Span>, k: nat, l: Line) {
    exists j :: k <= j < |ranges| && Holds(ranges[j], l)
  }

  ghost predicate Placed(ranges: seq<Span>, lines: seq<Line>) {
    forall i | 0 <= i < |lines| :: PlacedFrom(ranges, 0, lines[i])
  }

  lemma {:induction false} HeldIsSlice(lines: seq<Line>, r: Span, l: nat, m: nat)
    requires l <= m <= |lines|
    requires forall i | 0 <= i < |lines| :: Holds(r, lines[i]) <==> l <= i < m
    ensures Held(lines, r) == lines[l..m]
  {
    if lines != [] {
      var n := |lines| - 1;
      var init := lines[..n];
      assert forall i | 0 <= i < n :: init[i] == lines[i];
      if l < m == |lines| {
        HeldIsSlice(init, r, l, n);
        assert lines[l..m] == init[l..n] + [lines[n]];
      } else if m < |lines| {
        HeldIsSlice(init, r, l, m);
        assert lines[l..m] == init[l..m];
      } else {
        HeldIsSlice(init, r, n, n);
      }
    }
  }

  lemma {:induction false} TakenIsHeld(lines: seq<Line>, l: nat, r: Span)
    requires l <= |lines| && End(r) < MODULUS && InOrderOfAddress(lines)
    requires forall i | 0 <= i < l :: !Holds(r, lines[i])
    requires forall i | l <= i < |lines| :: r.address <= lines[i].extent.address
    ensures forall i | 0 <= i < |lines| :: Holds(r, lines[i]) <==> l <= i < Taken(lines, l, r)
    ensures Held(lines, r) == lines[l..Taken(lines, l, r)]
  {
    TakenStops(lines, l, r);
    var m := Taken(lines, l, r);
    forall i | 0 <= i < |lines|
      ensures Holds(r, lines[i]) <==> l <= i < m
    {
      if m < i {
        assert lines[m].extent.address <= lines[i].extent.address;
      }
    }
    HeldIsSlice(lines, r, l, m);
  }

  lemma {:induction false} TakenStops(lines: seq<Line>, l: nat, r: Span)
    requires l <= |lines|
    ensures var m := Taken(lines, l, r);
      && (forall i | l <= i < m :: InCode(r, lines[i].extent.address))
      && (m < |lines| ==> !InCode(r, lines[m].extent.address))
    decreases |lines| - l
  {
    if l < |lines| && InCode(r, lines[l].extent.address) {
      TakenStops(lines, l + 1, r);
    }
  }

  /** The cursor: lines before it lie before range `k`, the others begin in range `k` or later. */
  ghost predicate CursorAt(ranges: seq<Span>, lines: seq<Line>, k: nat, l: nat) {
    && k <= |ranges| && l <= |lines|
    && (forall i, j | 0 <= i < l && k <= j < |ranges| :: lines[i].extent.address < ranges[j].address)
    && (forall i | l <= i < |lines| :: PlacedFrom(ranges, k, lines[i]))
  }

  lemma CursorMoves(ranges: seq<Span>, lines: seq<Line>, k: nat, l: nat)
    requires Layered(ranges) && NoneWraps(ranges) && InOrderOfAddress(lines)
    requires CursorAt(ranges, lines, k, l) && k < |ranges| && !EndsAtTop(ranges[k])
    ensures CursorAt(ranges, lines, k + 1, Taken(lines, l, ranges[k]))
    ensures Held(lines, ranges[k]) == lines[l..Taken(lines, l, ranges[k])]
  {
    var r, m := ranges[k], Taken(lines, l, ranges[k]);
    forall i | l <= i < |lines|
      ensures r.address <= lines[i].extent.address
    {
      var j :| k <= j < |ranges| && Holds(ranges[j], lines[i]);
      LayeredOrder(ranges, k, j);
    }
    TakenIsHeld(lines, l, r);
    forall i, j | 0 <= i < m && k + 1 <= j < |ranges|
      ensures lines[i].extent.address < ranges[j].address
    {
      LayeredOrder(ranges, k, j);
    }
    forall i | m <= i < |lines|
      ensures PlacedFrom(ranges, k + 1, lines[i])
    {
      assert !Holds(r, lines[i]);
      var j :| k <= j < |ranges| && Holds(ranges[j], lines[i]);
    }
  }

  /** A range that ends at the top of the address space is the last one. */
  lemma TopIsLast(ranges: seq<Span>, k: nat)
    requires Layered(ranges) && k < |ranges| && EndsAtTop(ranges[k])
    ensures k == |ranges| - 1
  {
    if k + 1 < |ranges| {
      LayeredOrder(ranges, k, k + 1);
    }
  }

  /** One pass with a shared cursor writes under each range the lines that begin in it. */
  lemma {:induction false} EmitGroups(c: Context, f: Function, lines: seq<Line>, k: nat, l: nat)
    requires Layered(f.ranges) && NoneWraps(f.ranges) && InOrderOfAddress(lines) && CursorAt(f.ranges, lines, k, l)
    ensures Emit(c, f, lines, k, l) == Grouped(c, f, lines, k)
    decreases |f.ranges| - k
  {
    hide Held, Taken;
    if k < |f.ranges| {
      var r := f.ranges[k];
      if EndsAtTop(r) {
        TopIsLast(f.ranges, k);
        NothingTaken(lines, l, r);
      } else {
        CursorMoves(f.ranges, lines, k, l);
        EmitGroups(c, f, lines, k + 1, Taken(lines, l, r));
      }
    }
  }

  lemma NothingTaken(lines: seq<Line>, l: nat, r: Span)
    requires l <= |lines| && EndsAtTop(r)
    ensures Taken(lines, l, r) == l && lines[l..l] == Shown(lines, r)
  {
  }

  // ----- Nothing is lost

  /** Lines that begin before `end`, when the ranges in front of it hold them all. */
  lemma {:induction false} ShownIsPrefix(lines: seq<Line>, ranges: seq<Span>, n: nat)
    requires Layered(ranges) && NoneWraps(ranges) && InOrderOfAddress(lines) && Placed(ranges, lines)
    requires n <= |ranges| && forall k | 0 <= k < n :: !EndsAtTop(ranges[k])
    ensures exists l: nat :: CursorAt(ranges, lines, n, l) && AllShown(lines, ranges[..n]) == lines[..l]
  {
    hide Held, Taken, PlacedFrom;
    if n == 0 {
      assert CursorAt(ranges, lines, 0, 0);
    } else {
      ShownIsPrefix(lines, ranges, n - 1);
      var l: nat :| CursorAt(ranges, lines, n - 1, l) && AllShown(lines, ranges[..n - 1]) == lines[..l];
      var m := Taken(lines, l, ranges[n - 1]);
      CursorMoves(ranges, lines, n - 1, l);
      assert ranges[..n][..n - 1] == ranges[..n - 1];
      assert lines[..l] + lines[l..m] == lines[..m];
    }
  }

  /** Every line is written exactly once, unless it begins in a range that ends at the top. */
  lemma {:induction false} AllShownIff(lines: seq<Line>, ranges: seq<Span>)
    requires Layered(ranges) && NoneWraps(ranges) && InOrderOfAddress(lines) && Placed(ranges, lines)
    ensures AllShown(lines, ranges) == lines
      <==> forall i, k | 0 <= i < |lines| && 0 <= k < |ranges| && EndsAtTop(ranges[k]) :: !Holds(ranges[k], lines[i])
  {
    if k :| 0 <= k < |ranges| && EndsAtTop(ranges[k]) {
      TopIsLast(ranges, k);
      LastDoesNotCount(lines, ranges, k);
    } else {
      ShownIsPrefix(lines, ranges, |ranges|);
      assert ranges[..|ranges|] == ranges;
      var l: nat :| CursorAt(ranges, lines, |ranges|, l) && AllShown(lines, ranges) == lines[..l];
      assert l < |lines| ==> PlacedFrom(ranges, |ranges|, lines[l]);
    }
  }

  /** The last sixteen bytes of the address space as a range, and a line of four bytes in it. */
  lemma TopRangeLosesLine(c: Context, f: Function, l: Line)
    requires f.ranges == [Span(MODULUS - 16, 16)] && l.extent == Span(MODULUS - 8, 4)
    ensures Layered(f.ranges) && NoneWraps(f.ranges) && InOrderOfAddress([l]) && Placed(f.ranges, [l])
    ensures Emit(c, f, [l], 0, 0) == [RangeRecord(c, f, f.ranges[0])]
    ensures AllShown([l], f.ranges) == []
  {
    var r := f.ranges[0];
    assert Holds(r, l) && PlacedFrom(f.ranges, 0, [l][0]);
    assert Taken([l], 0, r) == 0;
    assert LineRecords(c, [l][0..0]) == [] && Emit(c, f, [l], 1, 0) == [];
    assert AllShown([l], []) == [] && f.ranges[..0] == [];
  }

  lemma {:induction false} LastDoesNotCount(lines: seq<Line>, ranges: seq<Span>, k: nat)
    requires Layered(ranges) && NoneWraps(ranges) && InOrderOfAddress(lines) && Placed(ranges, lines)
    requires k == |ranges| - 1 && EndsAtTop(ranges[k])
    ensures AllShown(lines, ranges) == lines <==> forall i | 0 <= i < |lines| :: !Holds(ranges[k], lines[i])
  {
    forall j | 0 <= j < k
      ensures !EndsAtTop(ranges[j])
    {
      LayeredOrder(ranges, j, k);
    }
    ShownIsPrefix(lines, ranges, k);
    var l: nat :| CursorAt(ranges, lines, k, l) && AllShown(lines, ranges[..k]) == lines[..l];
    assert AllShown(lines, ranges) == lines[..l];
    forall i | 0 <= i < |lines|
      ensures Holds(ranges[k], lines[i]) <==> l <= i
    {
      if l <= i {
        assert PlacedFrom(ranges, k, lines[i]);
      } else {
        assert lines[i].extent.address < ranges[k].address;
      }
    }
    if l == |lines| {
      assert lines[..l] == lines;
    }
  }

  // ----- The whole file

  function FileRecords(files: seq<File>, cited: seq<Line>, n: nat): seq<Record>
    requires n <= |files|
  {
    if n == 0 then []
    else
      FileRecords(files, cited, n - 1)
      + if Cited(cited, files[n - 1]) then [FileRecord(IdOf(files, cited, n - 1), files[n - 1].name)] else []
  }

  /** FILE records carry the ids 0, 1, 2 and so on. */
  lemma {:induction false} FileRecordsAreNumbered(files: seq<File>, cited: seq<Line>, n: nat)
    requires n <= |files|
    ensures |FileRecords(files, cited, n)| == CountCited(files, cited, n)
    ensures forall i | 0 <= i < |FileRecords(files, cited, n)| ::
      FileRecords(files, cited, n)[i].FileRecord? && FileRecords(files, cited, n)[i].id == i
  {
    if n > 0 {
      FileRecordsAreNumbered(files, cited, n - 1);
    }
  }

  /** The id in a line record is that of the FILE record that names the line's file. */
  lemma {:induction false} LineFileIsNamed(files: seq<File>, cited: seq<Line>, l: Line)
    requires ByName(files) && l in cited && l.file in files
    ensures FileRecord(FileId(files, cited, |files|, l.file), l.file.name) in FileRecords(files, cited, |files|)
  {
    var k :| 0 <= k < |files| && files[k] == l.file;
    var i :| 0 <= i < |cited| && cited[i] == l;
    assert Cited(cited, files[k]);
    FileIdAt(files, cited, |files|, k);
    FileRecordOf(files, cited, |files|, k);
  }

  lemma {:induction false} FileRecordOf(files: seq<File>, cited: seq<Line>, n: nat, k: nat)
    requires k < n <= |files| && Cited(cited, files[k])
    ensures FileRecord(IdOf(files, cited, k), files[k].name) in FileRecords(files, cited, n)
  {
    if k < n - 1 {
      FileRecordOf(files, cited, n - 1, k);
    }
  }

  function FunctionRecords(c: Context, functions: seq<Function>): seq<Record>
    reads functions
  {
    if functions == [] then []
    else
      var f := functions[|functions| - 1];
      FunctionRecords(c, functions[..|functions| - 1]) + Emit(c, f, f.lines, 0, 0)
  }

  /** A PUBLIC symbol. */
  datatype Extern = Extern(address: Address, name: string)

  function PublicRecords(externs: seq<Extern>, loadAddress: Address): seq<Record> {
    seq(|externs|, k requires 0 <= k < |externs| =>
      PublicRecord(Minus(externs[k].address, loadAddress), externs[k].name))
  }

  // ----- What a reader of the file finds

  /** What a record stands for: a range of a function, a line under it, or a symbol. */
  datatype Item = RangeItem(f: Function, range: Span) | LineItem(line: Line) | SymbolItem(symbol: Extern)

  /** The record says this of the item, its address being taken from the load address. */
  predicate Says(x: Record, item: Item, load: Address) {
    match item
    case RangeItem(f, r) =>
      && x.FuncRecord? && Plus(x.address, load) == r.address && x.size == r.size
      && x.parameterSize == f.parameterSize && x.name == f.name
    case LineItem(l) =>
      && x.LineRecord? && Plus(x.address, load) == l.extent.address && x.size == l.extent.size && x.number == l.number
    case SymbolItem(e) => x.PublicRecord? && Plus(x.address, load) == e.address && x.name == e.name
  }

  /** The records say the items, one for one and in order. */
  ghost predicate AllSay(xs: seq<Record>, items: seq<Item>, load: Address) {
    |xs| == |items| && forall i | 0 <= i < |xs| :: Says(xs[i], items[i], load)
  }

  lemma SaysJoined(xs: seq<Record>, items: seq<Item>, ys: seq<Record>, more: seq<Item>, load: Address)
    requires AllSay(xs, items, load) && AllSay(ys, more, load)
    ensures AllSay(xs + ys, items + more, load)
  {
    hide Says;
  }

  function LineItems(lines: seq<Line>): seq<Item> {
    seq(|lines|, k requires 0 <= k < |lines| => LineItem(lines[k]))
  }

  /** Every range of the function from the `k`th on, each followed by the lines written under it. */
  function ItemsFrom(f: Function, lines: seq<Line>, k: nat, l: nat): seq<Item>
    requires k <= |f.ranges| && l <= |lines|
    decreases |f.ranges| - k
  {
    if k == |f.ranges| then []
    else
      var m := Taken(lines, l, f.ranges[k]);
      [RangeItem(f, f.ranges[k])] + LineItems(lines[l..m]) + ItemsFrom(f, lines, k + 1, m)
  }

  /** The same with the lines that begin in each range. */
  function GroupedItems(f: Function, lines: seq<Line>, k: nat): seq<Item>
    requires k <= |f.ranges|
    decreases |f.ranges| - k
  {
    if k == |f.ranges| then []
    else [RangeItem(f, f.ranges[k])] + LineItems(Shown(lines, f.ranges[k])) + GroupedItems(f, lines, k + 1)
  }

  function FunctionItems(functions: seq<Function>): seq<Item>
    reads functions
  {
    if functions == [] then []
    else
      var f := functions[|functions| - 1];
      FunctionItems(functions[..|functions| - 1]) + ItemsFrom(f, f.lines, 0, 0)
  }

  function SymbolItems(externs: seq<Extern>): seq<Item> {
    seq(|externs|, k requires 0 <= k < |externs| => SymbolItem(externs[k]))
  }

  lemma RangeSays(c: Context, f: Function, r: Span)
    ensures AllSay([RangeRecord(c, f, r)], [RangeItem(f, r)], c.loadAddress)
  {
  }

  lemma LinesSay(c: Context, lines: seq<Line>)
    ensures AllSay(LineRecords(c, lines), LineItems(lines), c.loadAddress)
  {
  }

  lemma {:induction false} EmitSays(c: Context, f: Function, lines: seq<Line>, k: nat, l: nat)
    requires k <= |f.ranges| && l <= |lines|
    ensures AllSay(Emit(c, f, lines, k, l), ItemsFrom(f, lines, k, l), c.loadAddress)
    decreases |f.ranges| - k
  {
    hide AllSay, RangeRecord, LineRecords, LineItems, Taken;
    if k == |f.ranges| {
      NothingSaid(c.loadAddress);
    } else {
      var r, load := f.ranges[k], c.loadAddress;
      var m := Taken(lines, l, r);
      RangeSays(c, f, r);
      LinesSay(c, lines[l..m]);
      EmitSays(c, f, lines, k + 1, m);
      SaysJoined([RangeRecord(c, f, r)], [RangeItem(f, r)], LineRecords(c, lines[l..m]), LineItems(lines[l..m]), load);
      SaysJoined([RangeRecord(c, f, r)] + LineRecords(c, lines[l..m]), [RangeItem(f, r)] + LineItems(lines[l..m]),
                 Emit(c, f, lines, k + 1, m), ItemsFrom(f, lines, k + 1, m), load);
    }
  }

  lemma NothingSaid(load: Address)
    ensures AllSay([], [], load)
  {
  }

  /** The records grouped by range say each range once, and under it its lines. */
  lemma {:induction false} GroupedSays(c: Context, f: Function, lines: seq<Line>, k: nat)
    requires k <= |f.ranges|
    ensures AllSay(Grouped(c, f, lines, k), GroupedItems(f, lines, k), c.loadAddress)
    decreases |f.ranges| - k
  {
    hide AllSay, RangeRecord, LineRecords, LineItems, Shown;
    if k == |f.ranges| {
      NothingSaid(c.loadAddress);
    } else {
      var r, load := f.ranges[k], c.loadAddress;
      var shown := Shown(lines, r);
      RangeSays(c, f, r);
      LinesSay(c, shown);
      GroupedSays(c, f, lines, k + 1);
      SaysJoined([RangeRecord(c, f, r)], [RangeItem(f, r)], LineRecords(c, shown), LineItems(shown), load);
      SaysJoined([RangeRecord(c, f, r)] + LineRecords(c, shown), [RangeItem(f, r)] + LineItems(shown),
                 Grouped(c, f, lines, k + 1), GroupedItems(f, lines, k + 1), load);
    }
  }

  lemma {:induction false} FunctionsSay(c: Context, functions: seq<Function>)
    ensures AllSay(FunctionRecords(c, functions), FunctionItems(functions), c.loadAddress)
  {
    hide AllSay, Emit, ItemsFrom;
    if functions == [] {
      NothingSaid(c.loadAddress);
    } else {
      var init, f := functions[..|functions| - 1], functions[|functions| - 1];
      FunctionsSay(c, init);
      EmitSays(c, f, f.lines, 0, 0);
      SaysJoined(FunctionRecords(c, init), FunctionItems(init), Emit(c, f, f.lines, 0, 0),
                 ItemsFrom(f, f.lines, 0, 0), c.loadAddress);
    }
  }

  lemma SymbolsSay(externs: seq<Extern>, load: Address)
    ensures AllSay(PublicRecords(externs, load), SymbolItems(externs), load)
  {
  }

  lemma WholeFileSays(c: Context, functions: seq<Function>, externs: seq<Extern>, before: seq<Record>,
                      out: seq<Record>)
    requires out == before + (FunctionRecords(c, functions) + PublicRecords(externs, c.loadAddress))
    ensures var start := |out| - |FunctionItems(functions)| - |externs|;
      0 <= start && AllSay(out[start..], FunctionItems(functions) + SymbolItems(externs), c.loadAddress)
  {
    hide Says, FunctionRecords, PublicRecords, FunctionItems;
    var load := c.loadAddress;
    FunctionsSay(c, functions);
    SymbolsSay(externs, load);
    SaysJoined(FunctionRecords(c, functions), FunctionItems(functions), PublicRecords(externs, load),
               SymbolItems(externs), load);
    assert out[|before|..] == FunctionRecords(c, functions) + PublicRecords(externs, load);
  }

  /** The FILE records name the cited files, the `i`th the one with `i` cited files before it. */
  lemma {:induction false} FileRecordsName(files: seq<File>, cited: seq<Line>, n: nat, i: nat)
    requires n <= |files| && i < CountCited(files, cited, n)
    ensures |FileRecords(files, cited, n)| == CountCited(files, cited, n)
    ensures exists k: nat :: k < n && Cited(cited, files[k]) && CountCited(files, cited, k) == i
                             && FileRecords(files, cited, n)[i] == FileRecord(i, files[k].name)
  {
    hide Cited;
    FileRecordsAreNumbered(files, cited, n);
    FileRecordsAreNumbered(files, cited, n - 1);
    if i < CountCited(files, cited, n - 1) {
      FileRecordsName(files, cited, n - 1, i);
    }
  }

  lemma {:induction false} AllLinesOf(functions: seq<Function>, f: Function, l: Line)
    requires f in functions && l in f.lines
    ensures l in AllLines(functions)
  {
    if f != functions[|functions| - 1] {
      AllLinesOf(functions[..|functions| - 1], f, l);
    }
  }

  lemma {:induction false} AllLinesFrom(functions: seq<Function>, l: Line)
    requires l in AllLines(functions)
    ensures exists f :: f in functions && l in f.lines
  {
    if l !in functions[|functions| - 1].lines {
      AllLinesFrom(functions[..|functions| - 1], l);
    }
  }

  lemma FilesDiffer(files: seq<File>)
    requires ByName(files)
    ensures forall i, j | 0 <= i < j < |files| :: files[i] != files[j]
  {
    forall i, j | 0 <= i < j < |files|
      ensures files[i] != files[j]
    {
      NamesDiffer(files, i, j);
    }
  }

  lemma CitedGrows(lines: seq<Line>, l: Line, file: File)
    ensures Cited(lines + [l], file) <==> Cited(lines, file) || l.file == file
  {
    assert (lines + [l])[|lines|] == l;
    if i :| 0 <= i < |lines| && lines[i].file == file {
      assert (lines + [l])[i].file == file;
    }
  }

  lemma FileFits(files: seq<File>, k: nat, f: File)
    requires ByName(files) && k <= |files|
    requires forall i | 0 <= i < k :: Less(files[i].name, f.name)
    requires k < |files| ==> !Less(files[k].name, f.name) && files[k].name != f.name
    ensures ByName(files[..k] + [f] + files[k..])
    ensures multiset(files[..k] + [f] + files[k..]) == multiset(files) + multiset{f}
    ensures forall g | g in files :: g in files[..k] + [f] + files[k..] && g.name != f.name
  {
    var all := files[..k] + [f] + files[k..];
    forall j | k <= j < |files|
      ensures Less(f.name, files[j].name)
    {
      LessIsTotal(files[k].name, f.name);
      if k < j {
        LessIsTransitive(f.name, files[k].name, files[j].name);
      }
    }
    forall i | 0 <= i < |files|
      ensures files[i].name != f.name
    {
      LessIsStrict(files[i].name, f.name);
      LessIsStrict(f.name, files[i].name);
    }
    InsertedMultiset(files, k, f);
    forall i, j | 0 <= i < j < |all|
      ensures Less(all[i].name, all[j].name)
    {
      assert k < i ==> all[i] == files[i - 1];
      assert k < j ==> all[j] == files[j - 1];
    }
    forall g | g in files
      ensures g in all
    {
      var i :| 0 <= i < |files| && files[i] == g;
      assert all[if i < k then i else i + 1] == g;
    }
  }

  lemma FunctionLessIsOrder(f: Function, g: Function, h: Function)
    ensures FunctionLess(f, g) ==> !FunctionLess(g, f) && !(f.address == g.address && f.name == g.name)
    ensures !FunctionLess(f, g) && !FunctionLess(g, f) ==> f.address == g.address && f.name == g.name
    ensures FunctionLess(f, g) && FunctionLess(g, h) ==> FunctionLess(f, h)
  {
    LessIsStrict(f.name, g.name);
    LessIsTotal(f.name, g.name);
    if Less(f.name, g.name) && Less(g.name, h.name) {
      LessIsTransitive(f.name, g.name, h.name);
    }
  }

  lemma FunctionFits(functions: seq<Function>, k: nat, f: Function)
    requires FunctionsInOrder(functions) && k <= |functions|
    requires forall i | 0 <= i < k :: FunctionLess(functions[i], f)
    requires k < |functions| ==> FunctionLess(f, functions[k])
    ensures FunctionsInOrder(functions[..k] + [f] + functions[k..])
    ensures multiset(functions[..k] + [f] + functions[k..]) == multiset(functions) + multiset{f}
    ensures forall g | g in functions :: !(g.address == f.address && g.name == f.name)
  {
    hide FunctionLess;
    var all := functions[..k] + [f] + functions[k..];
    forall j | k <= j < |functions|
      ensures FunctionLess(f, functions[j])
    {
      if k < j {
        FunctionLessIsOrder(f, functions[k], functions[j]);
      }
    }
    forall i | 0 <= i < |functions|
      ensures !(functions[i].address == f.address && functions[i].name == f.name)
    {
      FunctionLessIsOrder(functions[i], f, f);
      FunctionLessIsOrder(f, functions[i], f);
    }
    InsertedMultiset(functions, k, f);
    forall i, j | 0 <= i < j < |all|
      ensures FunctionLess(all[i], all[j])
    {
      assert k < i ==> all[i] == functions[i - 1];
      assert k < j ==> all[j] == functions[j - 1];
    }
  }

  lemma FunctionFound(functions: seq<Function>, k: nat, f: Function)
    requires k < |functions| && !FunctionLess(functions[k], f) && !FunctionLess(f, functions[k])
    ensures functions[k] in functions && functions[k].address == f.address && functions[k].name == f.name
  {
    FunctionLessIsOrder(f, functions[k], f);
  }

  lemma InsertedLines(functions: seq<Function>, k: nat, f: Function)
    requires k <= |functions|
    ensures forall l | l in AllLines(functions[..k] + [f] + functions[k..]) :: l in AllLines(functions) || l in f.lines
  {
    var all := functions[..k] + [f] + functions[k..];
    forall l | l in AllLines(all)
      ensures l in AllLines(functions) || l in f.lines
    {
      AllLinesFrom(all, l);
      var g :| g in all && l in g.lines;
      if g != f {
        assert g in functions;
        AllLinesOf(functions, g, l);
      }
    }
  }

  lemma ExternsWithout(externs: seq<Extern>, k: nat, rest: seq<Extern>)
    requires ExternsInOrder(externs) && k < |externs| && rest == externs[..k] + externs[k + 1..]
    ensures ExternsInOrder(rest)
    ensures forall e :: e in rest <==> e in externs && e.address != externs[k].address
  {
    forall e | e in externs && e.address != externs[k].address
      ensures e in rest
    {
      var i :| 0 <= i < |externs| && externs[i] == e;
      assert rest[if i < k then i else i - 1] == e;
    }
  }

  datatype SymbolData = AllSymbolData | NoCfi | OnlyCfi

  class Module {
    const os: string
    const architecture: string
    const identifier: string
    const name: string
    const codeId: string
    var loadAddress: Address
    var addressRanges: seq<Span>
    var files: seq<File>
    var functions: seq<Function>
    var externs: seq<Extern>

    /** The maps are in order, and every line's file is one of the module's. */
    ghost predicate Valid()
      reads this, functions
    {
      && ByName(files)
      && FunctionsInOrder(functions)
      && ExternsInOrder(externs)
      && (forall l | l in AllLines(functions) :: l.file in files)
    }

    constructor (os: string, architecture: string, identifier: string, name: string, codeId: string)
      ensures Valid() && files == [] && functions == [] && externs == [] && addressRanges == [] && loadAddress == 0
      ensures this.os == os && this.architecture == architecture && this.identifier == identifier
      ensures this.name == name && this.codeId == codeId
    {
      this.os, this.architecture, this.identifier, this.name, this.codeId := os, architecture, identifier, name, codeId;
      loadAddress, addressRanges, files, functions, externs := 0, [], [], [], [];
    }

    /** The file of that name, made if there is none. */
    method FindFile(name: string) returns (file: File)
      requires Valid()
      modifies this`files
      ensures Valid() && file in files && file.name == name
      ensures if exists f :: f in old(files) && f.name == name then files == old(files)
              else fresh(file) && file.sourceId == -1 && multiset(files) == multiset(old(files)) + multiset{file}
      ensures forall f :: f in files <==> f in old(files) || f == file
    {
      var k := 0;
      while k < |files| && Less(files[k].name, name)
        invariant 0 <= k <= |files|
        invariant forall i | 0 <= i < k :: Less(files[i].name, name)
      {
        k := k + 1;
      }
      if k == |files| || files[k].name != name {
        file := new File(name);
        FileFits(files, k, file);
        files := files[..k] + [file] + files[k..];
      } else {
        file := files[k];
      }
    }

    ghost predicate InModule(a: Address)
      reads this
    {
      addressRanges == [] || exists k :: 0 <= k < |addressRanges| && InCode(addressRanges[k], a)
    }

    method AddressIsInModule(a: Address) returns (b: bool)
      ensures b <==> InModule(a)
      ensures b <==> addressRanges == []
                     || exists r :: r in addressRanges
                                    && r.address <= a < (r.address + r.size) % 0x1_0000_0000_0000_0000
    {
      if addressRanges == [] {
        return true;
      }
      for k := 0 to |addressRanges|
        invariant forall i | 0 <= i < k :: !InCode(addressRanges[i], a)
      {
        if InCode(addressRanges[k], a) {
          return true;
        }
      }
      return false;
    }

    /** The PUBLIC symbol that a function at `a` replaces, if any. */
    ghost predicate Replaced(e: Extern, a: Address)
      reads this
    {
      || e.address == a
      || (architecture == "arm" && a % 2 == 0 && e.address == a + 1 && forall x | x in externs :: x.address != a)
    }

    method FindExtern(a: Address) returns (k: nat)
      requires ExternsInOrder(externs)
      ensures k <= |externs|
      ensures k < |externs| ==> externs[k].address == a
      ensures k == |externs| ==> forall e | e in externs :: e.address != a
    {
      k := 0;
      while k < |externs| && externs[k].address != a
        invariant 0 <= k <= |externs| && forall i | 0 <= i < k :: externs[i].address != a
      {
        k := k + 1;
      }
    }

    /** A function takes the place of the PUBLIC symbol at its address; an equal function stays. */
    method AddFunction(f: Function)
      requires Valid() && f.name != "" && forall l | l in f.lines :: l.file in files
      modifies this`functions, this`externs
      ensures Valid()
      ensures !InModule(f.address) ==> functions == old(functions) && externs == old(externs)
      ensures InModule(f.address) ==>
        && (forall e :: e in externs <==>
              && e in old(externs) && e.address != f.address
              && !(architecture == "arm" && f.address % 2 == 0 && e.address == f.address + 1
                   && forall x | x in old(externs) :: x.address != f.address))
        && (if exists g :: g in old(functions) && g.address == f.address && g.name == f.name
            then functions == old(functions)
            else multiset(functions) == multiset(old(functions)) + multiset{f})
    {
      var inside := AddressIsInModule(f.address);
      if !inside {
        return;
      }
      DropExtern(f.address);
      var k := 0;
      while k < |functions| && FunctionLess(functions[k], f)
        invariant 0 <= k <= |functions|
        invariant forall i | 0 <= i < k :: FunctionLess(functions[i], f)
      {
        k := k + 1;
      }
      if k == |functions| || FunctionLess(f, functions[k]) {
        FunctionFits(functions, k, f);
        InsertedLines(functions, k, f);
        functions := functions[..k] + [f] + functions[k..];
      } else {
        FunctionFound(functions, k, f);
      }
    }

    method DropExtern(a: Address)
      requires ExternsInOrder(externs)
      modifies this`externs
      ensures ExternsInOrder(externs)
      ensures forall e :: e in externs <==> e in old(externs) && !old(Replaced(e, a))
    {
      var k := FindExtern(a);
      if k == |externs| && architecture == "arm" && a % 2 == 0 {
        k := FindExtern(a + 1);
      }
      if k < |externs| {
        var rest := externs[..k] + externs[k + 1..];
        ExternsWithout(externs, k, rest);
        externs := rest;
      }
    }

    /** The first PUBLIC symbol at an address stays. */
    method AddExtern(e: Extern)
      requires Valid()
      modifies this`externs
      ensures Valid()
      ensures if InModule(e.address) && forall x | x in old(externs) :: x.address != e.address
              then forall x :: x in externs <==> x in old(externs) || x == e
              else externs == old(externs)
    {
      var inside := AddressIsInModule(e.address);
      if !inside {
        return;
      }
      var k := 0;
      while k < |externs| && externs[k].address < e.address
        invariant 0 <= k <= |externs| && forall i | 0 <= i < k :: externs[i].address < e.address
      {
        k := k + 1;
      }
      if k == |externs| || e.address < externs[k].address {
        externs := externs[..k] + [e] + externs[k..];
      }
    }

    /** Marks the files cited by one function. */
    method MarkLines(f: Function, ghost seen: seq<Line>)
      requires Marked(files, seen) && forall l | l in f.lines :: l.file in files
      modifies set f | f in files
      ensures Marked(files, seen + f.lines)
    {
      assert seen + f.lines[..0] == seen;
      for j := 0 to |f.lines|
        invariant Marked(files, seen + f.lines[..j])
      {
        ghost var now := seen + f.lines[..j];
        assert f.lines[j] in f.lines;
        forall k | 0 <= k < |files|
          ensures Cited(now + [f.lines[j]], files[k]) <==> Cited(now, files[k]) || f.lines[j].file == files[k]
        {
          CitedGrows(now, f.lines[j], files[k]);
        }
        f.lines[j].file.sourceId := 0;
        assert seen + f.lines[..j + 1] == now + [f.lines[j]];
      }
      assert f.lines[..|f.lines|] == f.lines;
    }

    method AssignSourceIds()
      requires Valid()
      modifies set f | f in files
      ensures Valid()
      ensures forall k | 0 <= k < |files| :: files[k].sourceId == IdOf(files, AllLines(functions), k)
      ensures forall f | f in files && !Cited(AllLines(functions), f) :: f.sourceId == -1
    {
      hide ByName, FunctionsInOrder, ExternsInOrder, Cited, CountCited, AllLines;
      for i := 0 to |files|
        invariant forall k | 0 <= k < i :: files[k].sourceId == -1
      {
        files[i].sourceId := -1;
      }
      NothingMarked(files);
      MarkCited();
      NumberFiles(AllLines(functions));
    }

    /** Marks the files that lines cite. */
    method MarkCited()
      requires ByName(files) && Marked(files, []) && forall l | l in AllLines(functions) :: l.file in files
      modifies set f | f in files
      ensures Marked(files, AllLines(functions))
    {
      hide ByName, Cited, Marked;
      ghost var seen: seq<Line> := [];
      for i := 0 to |functions|
        invariant seen == AllLines(functions[..i]) && Marked(files, seen)
      {
        assert functions[..i + 1][..i] == functions[..i];
        forall l | l in functions[i].lines
          ensures l.file in files
        {
          AllLinesOf(functions, functions[i], l);
        }
        MarkLines(functions[i], seen);
        seen := seen + functions[i].lines;
      }
      assert functions[..|functions|] == functions;
    }

    /** Numbers the marked files in name order. */
    method NumberFiles(ghost seen: seq<Line>)
      requires ByName(files) && Marked(files, seen)
      modifies set f | f in files
      ensures forall k | 0 <= k < |files| :: files[k].sourceId == IdOf(files, seen, k)
    {
      hide ByName, Cited;
      FilesDiffer(files);
      var next := 0;
      for i := 0 to |files|
        invariant next == CountCited(files, seen, i)
        invariant forall k | 0 <= k < i :: files[k].sourceId == IdOf(files, seen, k)
        invariant forall k | i <= k < |files| :: files[k].sourceId == if Cited(seen, files[k]) then 0 else -1
      {
        if files[i].sourceId == 0 {
          files[i].sourceId := next;
          next := next + 1;
        }
      }
    }

    /** The FUNC records of one function, each followed by its lines. */
    method WriteFunction(f: Function, ghost cited: seq<Line>) returns (out: seq<Record>)
      requires ByName(files) && forall l | l in f.lines :: l.file in files
      requires forall k | 0 <= k < |files| :: files[k].sourceId == IdOf(files, cited, k)
      ensures out == Emit(Context(files, cited, loadAddress), f, f.lines, 0, 0)
    {
      hide ByName, IdOf, FileId, Taken;
      ghost var c := Context(files, cited, loadAddress);
      out := [];
      var l := 0;
      for k := 0 to |f.ranges|
        invariant l <= |f.lines| && out + Emit(c, f, f.lines, k, l) == Emit(c, f, f.lines, 0, 0)
      {
        var r := f.ranges[k];
        ghost var start, before := l, out;
        out := out + [FuncRecord(Minus(r.address, loadAddress), r.size, f.parameterSize, f.name)];
        TakenFrom(f.lines, l, r);
        while l < |f.lines| && r.address <= f.lines[l].extent.address < Plus(r.address, r.size)
          invariant start <= l <= |f.lines| && Taken(f.lines, l, r) == Taken(f.lines, start, r)
          invariant out == before + [RangeRecord(c, f, r)] + LineRecords(c, f.lines[start..l])
        {
          var line := f.lines[l];
          assert line in f.lines;
          FileIdIs(files, cited, line.file);
          out := out + [LineRecord(Minus(line.extent.address, loadAddress), line.extent.size, line.number,
                                   line.file.sourceId)];
          TakenFrom(f.lines, l, r);
          RecordsSnoc(c, f.lines, start, l);
          l := l + 1;
        }
        TakenFrom(f.lines, l, r);
        EmitOnce(c, f, f.lines, k, start, before);
      }
    }

    /** The symbol file, without call frame information. */
    method Write(symbolData: SymbolData) returns (out: seq<Record>)
      requires Valid()
      modifies set f | f in files
      ensures Valid()
      ensures var cited := AllLines(functions);
        out == [ModuleRecord(os, architecture, identifier, name)]
               + (if codeId == "" then [] else [CodeIdRecord(codeId)])
               + (if symbolData == OnlyCfi then []
                  else FileRecords(files, cited, |files|)
                       + FunctionRecords(Context(files, cited, loadAddress), functions)
                       + PublicRecords(externs, loadAddress))
      // A reader finds every range of every function, the lines under each, and every symbol, in order.
      ensures symbolData != OnlyCfi ==>
        var start := |out| - |FunctionItems(functions)| - |externs|;
        0 <= start && AllSay(out[start..], FunctionItems(functions) + SymbolItems(externs), loadAddress)
    {
      hide ByName, FunctionsInOrder, ExternsInOrder, AllLines, IdOf, FileRecords, FunctionRecords, PublicRecords;
      out := [ModuleRecord(os, architecture, identifier, name)];
      if codeId != "" {
        out := out + [CodeIdRecord(codeId)];
      }
      hide AllSay, FunctionItems, SymbolItems;
      if symbolData != OnlyCfi {
        AssignSourceIds();
        var fileRecords := WriteFiles(AllLines(functions));
        var functionRecords := WriteFunctions();
        var publicRecords := WritePublics();
        ghost var before := out + fileRecords;
        out := out + (fileRecords + functionRecords + publicRecords);
        assert out == before + (functionRecords + publicRecords);
        WholeFileSays(Context(files, AllLines(functions), loadAddress), functions, externs, before, out);
      }
    }

    method WritePublics() returns (out: seq<Record>)
      ensures out == PublicRecords(externs, loadAddress)
    {
      out := [];
      for k := 0 to |externs|
        invariant out == PublicRecords(externs[..k], loadAddress)
      {
        out := out + [PublicRecord(Minus(externs[k].address, loadAddress), externs[k].name)];
      }
      assert externs[..|externs|] == externs;
    }

    method WriteFiles(ghost cited: seq<Line>) returns (out: seq<Record>)
      requires forall k | 0 <= k < |files| :: files[k].sourceId == IdOf(files, cited, k)
      ensures out == FileRecords(files, cited, |files|)
    {
      out := [];
      for k := 0 to |files|
        invariant out == FileRecords(files, cited, k)
      {
        if files[k].sourceId >= 0 {
          out := out + [FileRecord(files[k].sourceId, files[k].name)];
        }
      }
    }

    method WriteFunctions() returns (out: seq<Record>)
      requires Valid()
      requires forall k | 0 <= k < |files| :: files[k].sourceId == IdOf(files, AllLines(functions), k)
      ensures out == FunctionRecords(Context(files, AllLines(functions), loadAddress), functions)
    {
      hide IdOf, Emit;
      out := [];
      ghost var c := Context(files, AllLines(functions), loadAddress);
      for k := 0 to |functions|
        invariant out == FunctionRecords(c, functions[..k])
      {
        forall l | l in functions[k].lines
          ensures l.file in files
        {
          AllLinesOf(functions, functions[k], l);
        }
        var records := WriteFunction(functions[k], AllLines(functions));
        assert functions[..k + 1][..k] == functions[..k];
        out := out + records;
      }
      assert functions[..|functions|] == functions;
    }
  }

  lemma TakenFrom(lines: seq<Line>, l: nat, r: Span)
    requires l <= |lines|
    ensures Taken(lines, l, r)
      == if l < |lines| && InCode(r, lines[l].extent.address) then Taken(lines, l + 1, r) else l
  {
  }

  lemma {:induction false} FileIdIs(files: seq<File>, cited: seq<Line>, file: File)
    requires ByName(files) && file in files
    requires forall k | 0 <= k < |files| :: files[k].sourceId == IdOf(files, cited, k)
    ensures file.sourceId == FileId(files, cited, |files|, file)
  {
    var k :| 0 <= k < |files| && files[k] == file;
    FileIdAt(files, cited, |files|, k);
  }

  lemma RecordsSnoc(c: Context, lines: seq<Line>, a: nat, l: nat)
    requires a <= l < |lines|
    ensures LineRecords(c, lines[a..l + 1]) == LineRecords(c, lines[a..l]) + [RecordOf(c, lines[l])]
  {
  }

  lemma EmitOnce(c: Context, f: Function, lines: seq<Line>, k: nat, l: nat, before: seq<Record>)
    requires k < |f.ranges| && l <= |lines|
    ensures var m := Taken(lines, l, f.ranges[k]);
      before + Emit(c, f, lines, k, l)
      == before + [RangeRecord(c, f, f.ranges[k])] + LineRecords(c, lines[l..m]) + Emit(c, f, lines, k + 1, m)
  {
    hide Taken, LineRecords;
  }

  lemma NothingMarked(files: seq<File>)
    requires forall k | 0 <= k < |files| :: files[k].sourceId == -1
    ensures Marked(files, [])
  {
  }

  ghost predicate FunctionsInOrder(functions: seq<Function>) {
    forall i, j | 0 <= i < j < |functions| :: FunctionLess(functions[i], functions[j])
  }

  /** FunctionCompare. */
  predicate FunctionLess(f: Function, g: Function) {
    if f.address == g.address then Less(f.name, g.name) else f.address < g.address
  }

  ghost predicate ExternsInOrder(externs: seq<Extern>) {
    forall i, j | 0 <= i < j < |externs| :: externs[i].address < externs[j].address
  }

  ghost predicate Marked(files: seq<File>, seen: seq<Line>)
    reads files
  {
    forall k | 0 <= k < |files| :: files[k].sourceId == if Cited(seen, files[k]) then 0 else -1
  }

  // ----- Ranges on their way in

  /** DwarfRangeListHandler: collects the ranges of a DWARF range list and leaves them sorted. */
  class DwarfRangeListHandler {
    var ranges: seq<Span>
    ghost var added: multiset<Span>

    constructor ()
      ensures ranges == [] && added == multiset{}
    {
      ranges, added := [], multiset{};
    }

    method AddRange(begin: Address, end: Address)
      requires multiset(ranges) == added
      modifies this
      ensures ranges == old(ranges) + [Span(begin, Minus(end, begin))]
      ensures multiset(ranges) == added == old(added) + multiset{Span(begin, Minus(end, begin))}
    {
      ranges, added := ranges + [Span(begin, Minus(end, begin))], added + multiset{Span(begin, Minus(end, begin))};
    }

    method Finish()
      requires multiset(ranges) == added
      modifies this`ranges
      ensures multiset(ranges) == added && Ascending(ranges)
      ensures AllSound(old(ranges)) && PairwiseApart(old(ranges)) ==> Layered(ranges) && NoneWraps(ranges)
    {
      ghost var before := ranges;
      ranges := Sort(ranges, (r: Span) => r.address);
      SortedRanges(before, ranges);
    }
  }

  lemma SortedRanges(before: seq<Span>, after: seq<Span>)
    requires multiset(before) == multiset(after) && SortedBy(after, (r: Span) => r.address)
    ensures Ascending(after)
    ensures AllSound(before) && PairwiseApart(before) ==> Layered(after) && NoneWraps(after)
  {
    var key := (r: Span) => r.address;
    forall i, j | 0 <= i < j < |after|
      ensures after[i].address <= after[j].address
    {
      assert key(after[i]) <= key(after[j]);
    }
    if AllSound(before) && PairwiseApart(before) {
      Rearranged(before, after, (r: Span, s: Span) => Apart(r, s));
      forall i | 0 <= i < |after|
        ensures Sound(after[i])
      {
        SameMembers(before, after, after[i]);
      }
      SortedApartIsLayered(after);
    }
  }
}
