/**
 DwarfLineToModule: which of the line records handed over by the DWARF reader are kept.  Linkers leave
 behind runs of lines for code they dropped, relocated to address zero; the filter recognises such a
 run by its first line and drops it as long as each line begins where the previous one ended.
 */
module LineFilter {
  import opened Arithmetic
  import opened Intervals
  import opened Symbols
  import opened SymbolFile

  /** One AddLine call of nonzero length, with the file its number stood for at the time. */
  datatype Call = Call(address: Address, length: Address, file: File?, number: int)

  /** The part of the length that fits below the end of the address space. */
  function Clipped(c: Call): Address
    requires c.length != 0
  {
    if c.address == 0 then c.length else Min(c.length, MODULUS - c.address)
  }

  /** One past the last byte of the clipped line; never an address when it abuts the end of the space. */
  function EndOf(c: Call): int
    requires c.length != 0
  {
    c.address + Clipped(c)
  }

  ghost predicate Nonempty(h: seq<Call>) { forall i | 0 <= i < |h| :: h[i].length != 0 }

  predicate Abuts(h: seq<Call>, m: nat)
    requires 0 < m < |h| && h[m - 1].length != 0
  {
    h[m].address == EndOf(h[m - 1])
  }

  /** Consecutive lines `k` to `i` each begin where the previous one ended, and line `k` begins at zero. */
  ghost predicate ChainFrom(h: seq<Call>, k: nat, i: nat)
    requires Nonempty(h)
  {
    && k <= i < |h| && h[k].address == 0
    && (forall m: nat | k < m <= i :: Abuts(h, m))
  }

  ghost predicate OnChain(h: seq<Call>, i: nat)
    requires Nonempty(h)
  {
    exists k: nat :: ChainFrom(h, k, i)
  }

  /** The lines that should be recorded for the first `n` calls. */
  ghost function Kept(h: seq<Call>, n: nat): seq<Line>
    requires Nonempty(h) && n <= |h|
  {
    if n == 0 then []
    else
      Kept(h, n - 1)
      + if OnChain(h, n - 1) || h[n - 1].file == null then []
        else [Line(Span(h[n - 1].address, Clipped(h[n - 1])), h[n - 1].file, h[n - 1].number)]
  }

  lemma ChainShorter(h: seq<Call>, c: Call, k: nat, i: nat)
    requires Nonempty(h) && c.length != 0 && i < |h|
    requires k <= i && (h + [c])[k].address == 0
    requires forall m: nat | k < m <= i :: Nonempty(h + [c]) && Abuts(h + [c], m)
    ensures ChainFrom(h, k, i)
  {
    forall m: nat | k < m <= i
      ensures Abuts(h, m)
    {
      assert Abuts(h + [c], m);
    }
  }

  lemma ChainGrows(h: seq<Call>, c: Call)
    requires Nonempty(h) && c.length != 0
    ensures Nonempty(h + [c])
    ensures OnChain(h + [c], |h|)
      <==> c.address == 0 || (h != [] && OnChain(h, |h| - 1) && c.address == EndOf(h[|h| - 1]))
  {
    var g := h + [c];
    if c.address == 0 {
      assert ChainFrom(g, |h|, |h|);
    }
    if h != [] && OnChain(h, |h| - 1) && c.address == EndOf(h[|h| - 1]) {
      var k: nat :| ChainFrom(h, k, |h| - 1);
      forall m: nat | k < m <= |h|
        ensures Abuts(g, m)
      {
        assert m < |h| ==> Abuts(h, m);
      }
      assert ChainFrom(g, k, |h|);
    }
    if OnChain(g, |h|) && c.address != 0 {
      var k: nat :| ChainFrom(g, k, |h|);
      assert Abuts(g, |h|);
      ChainShorter(h, c, k, |h| - 1);
    }
  }

  lemma ChainSame(h: seq<Call>, c: Call, i: nat)
    requires Nonempty(h) && c.length != 0 && i < |h|
    ensures Nonempty(h + [c]) && (OnChain(h + [c], i) <==> OnChain(h, i))
  {
    var g := h + [c];
    assert Nonempty(g);
    if k: nat :| ChainFrom(h, k, i) {
      forall m: nat | k < m <= i
        ensures Abuts(g, m)
      {
        assert Abuts(h, m);
      }
      assert ChainFrom(g, k, i);
    }
    if k: nat :| ChainFrom(g, k, i) {
      ChainShorter(h, c, k, i);
    }
  }

  lemma {:induction false} KeptSame(h: seq<Call>, c: Call, n: nat)
    requires Nonempty(h) && c.length != 0 && n <= |h|
    ensures Nonempty(h + [c]) && Kept(h + [c], n) == Kept(h, n)
  {
    if n > 0 {
      KeptSame(h, c, n - 1);
      ChainSame(h, c, n - 1);
      assert (h + [c])[n - 1] == h[n - 1];
    }
  }

  /** Whatever was handed over, the sweep's precondition on lines is met. */
  lemma {:induction false} KeptAreSound(h: seq<Call>, n: nat)
    requires Nonempty(h) && n <= |h|
    ensures AllSound(Extents(Kept(h, n)))
  {
    if n > 0 {
      KeptAreSound(h, n - 1);
      var before, after := Kept(h, n - 1), Kept(h, n);
      forall i | 0 <= i < |after|
        ensures Sound(Extents(after)[i])
      {
        if i < |before| {
          assert Extents(after)[i] == Extents(before)[i];
        }
      }
    }
  }

  predicate IsKept(h: seq<Call>, i: nat, onChain: bool, l: Line)
    requires i < |h| && h[i].length != 0
  {
    !onChain && h[i].file != null && l == Line(Span(h[i].address, Clipped(h[i])), h[i].file, h[i].number)
  }

  /** A line is kept exactly when it is the line of a call on no chain whose file is defined. */
  lemma {:induction false} KeptExactly(h: seq<Call>, n: nat, l: Line)
    requires Nonempty(h) && n <= |h|
    ensures l in Kept(h, n) <==> exists i: nat :: i < n && IsKept(h, i, OnChain(h, i), l)
  {
    if n > 0 {
      KeptExactly(h, n - 1, l);
      assert IsKept(h, n - 1, OnChain(h, n - 1), l) ==> l in Kept(h, n);
      if l in Kept(h, n) && l !in Kept(h, n - 1) {
        assert IsKept(h, n - 1, OnChain(h, n - 1), l);
      }
    }
  }

  /** What `omitted_line_end_` should hold after the calls `h`. */
  ghost function OpenEnd(h: seq<Call>): Address
    requires Nonempty(h)
  {
    if h != [] && OnChain(h, |h| - 1) && EndOf(h[|h| - 1]) < MODULUS then EndOf(h[|h| - 1]) else 0
  }

  /** The comparison with `omitted_line_end_` decides chain membership of the next call. */
  lemma OneMoreCall(h: seq<Call>, c: Call)
    requires Nonempty(h) && c.length != 0
    ensures var g, omit := h + [c], c.address == 0 || c.address == OpenEnd(h);
      && Nonempty(g)
      && (OnChain(g, |h|) <==> omit)
      && OpenEnd(g) == (if omit then Plus(c.address, Clipped(c)) else 0)
      && Kept(g, |g|) == Kept(h, |h|)
                         + if omit || c.file == null then []
                           else [Line(Span(c.address, Clipped(c)), c.file, c.number)]
  {
    ChainGrows(h, c);
    KeptSame(h, c, |h|);
  }

  const FILE_NUMBERS := 0x1_0000_0000
  const HIGHEST_NUMBER := 0x7FFF_FFFF

  /** A signed file number as the key of the table. */
  function Key(fileNum: int): int { if fileNum < 0 then fileNum + FILE_NUMBERS else fileNum }

  predicate PathIsAbsolute(path: string) { path != "" && path[0] == '/' }

  /** The path, or the two joined by one slash if it is relative. */
  function ExpandPath(path: string, base: string): (r: string)
    ensures PathIsAbsolute(r) <==> PathIsAbsolute(path) || PathIsAbsolute(base)
  {
    if PathIsAbsolute(path) || base == "" then path
    else base + (if base[|base| - 1] == '/' then "" else "/") + path
  }

  /** A relative path behind a directory: the directory, one slash between them, and the path. */
  lemma OneSlashBetween(path: string, base: string)
    requires !PathIsAbsolute(path) && base != ""
    ensures var r := ExpandPath(path, base);
      && base <= r && |path| < |r| && r[|r| - |path|..] == path && r[|r| - |path| - 1] == '/'
      && |r| == |base| + |path| + if base[|base| - 1] == '/' then 0 else 1
  {
  }

  lemma SomePaths()
    ensures ExpandPath("a.c", "/src") == "/src/a.c" && ExpandPath("a.c", "/src/") == "/src/a.c"
    ensures ExpandPath("/a.c", "/src") == "/a.c" && ExpandPath("a.c", "") == "a.c"
  {
  }

  /** The files recorded with the kept lines are those of the calls. */
  lemma {:induction false} KeptFiles(h: seq<Call>, n: nat, files: seq<File>)
    requires Nonempty(h) && n <= |h|
    requires forall c: Call | c in h :: c.file == null || c.file in files
    ensures forall l | l in Kept(h, n) :: l.file in files
  {
    if n > 0 {
      KeptFiles(h, n - 1, files);
      assert h[n - 1] in h;
    }
  }

  class DwarfLineToModule {
    const target: Module
    const compilationDir: string
    var directories: map<nat, string>
    var lines: seq<Line>
    var files: map<int, File?>
    var highestFileNumber: int
    var omittedLineEnd: Address
    var warnedBadFileNumber: bool
    var warnedBadDirectoryNumber: bool
    ghost var given: seq<Line>
    ghost var history: seq<Call>

    ghost predicate Valid()
      reads this
    {
      && Nonempty(history)
      && lines == given + Kept(history, |history|)
      && omittedLineEnd == OpenEnd(history)
      && -1 <= highestFileNumber <= HIGHEST_NUMBER
      && (forall k | k in files && files[k] != null :: k <= highestFileNumber || HIGHEST_NUMBER < k)
    }

    /** Every file, bound now or when a call came, is one of the module's. */
    ghost predicate Bound()
      reads this, target`files
    {
      && (forall k | k in files && files[k] != null :: files[k] in target.files)
      && (forall c: Call | c in history :: c.file == null || c.file in target.files)
    }

    constructor (target: Module, compilationDir: string, lines: seq<Line>)
      ensures Valid() && given == lines && this.lines == lines && history == [] && files == map[]
      ensures this.target == target && this.compilationDir == compilationDir && directories == map[]
      ensures Bound()
    {
      this.target, this.compilationDir, directories := target, compilationDir, map[];
      this.lines, given, history := lines, lines, [];
      files, highestFileNumber, omittedLineEnd := map[], -1, 0;
      warnedBadFileNumber, warnedBadDirectoryNumber := false, false;
    }

    /** Number zero is the compilation directory and cannot be redefined. */
    method DefineDir(name: string, dirNum: nat)
      modifies this`directories
      ensures directories
        == if dirNum == 0 then old(directories) else old(directories)[dirNum := ExpandPath(name, compilationDir)]
    {
      if dirNum != 0 {
        directories := directories[dirNum := ExpandPath(name, compilationDir)];
      }
    }

    function DirectoryOf(dirNum: nat): string
      reads this
    {
      if dirNum == 0 then compilationDir else if dirNum in directories then directories[dirNum] else ""
    }

    method NumberFor(fileNum: int) returns (n: int)
      requires -0x8000_0000 <= fileNum <= HIGHEST_NUMBER && -1 <= highestFileNumber
      requires fileNum == -1 ==> highestFileNumber < HIGHEST_NUMBER
      modifies this`highestFileNumber
      ensures highestFileNumber
        == if fileNum == -1 then old(highestFileNumber) + 1 else Max(old(highestFileNumber), fileNum)
      ensures n == if fileNum == -1 then highestFileNumber else Key(fileNum)
    {
      n := fileNum;
      if n == -1 {
        highestFileNumber := highestFileNumber + 1;
        n := highestFileNumber;
      } else if n > highestFileNumber {
        highestFileNumber := n;
      }
      n := Key(n);
    }

    method DirectoryFor(dirNum: nat) returns (dirName: string)
      modifies this`warnedBadDirectoryNumber
      ensures dirName == DirectoryOf(dirNum)
      ensures warnedBadDirectoryNumber
        == (old(warnedBadDirectoryNumber) || (dirNum != 0 && dirNum !in directories))
    {
      dirName := "";
      if dirNum == 0 {
        dirName := compilationDir;
      } else if dirNum in directories {
        dirName := directories[dirNum];
      } else {
        warnedBadDirectoryNumber := true;
      }
    }

    /**
     Binds a file number, or the next unused one for -1, to the module's file of the full name.  A number
     handed out this way never takes over the file of another number.
     */
    method DefineFile(name: string, fileNum: int, dirNum: nat)
      requires Valid() && Bound() && target.Valid() && -0x8000_0000 <= fileNum <= HIGHEST_NUMBER
      requires fileNum == -1 ==> highestFileNumber < HIGHEST_NUMBER
      modifies this`files, this`highestFileNumber, this`warnedBadDirectoryNumber, target`files
      ensures Valid() && Bound() && target.Valid()
      ensures highestFileNumber
        == if fileNum == -1 then old(highestFileNumber) + 1 else Max(old(highestFileNumber), fileNum)
      ensures var n := if fileNum == -1 then highestFileNumber else fileNum + if fileNum < 0 then 0x1_0000_0000 else 0;
        && n in files && files[n] != null && files == old(files)[n := files[n]]
        && files[n].name == ExpandPath(name, if dirNum == 0 then compilationDir
                                             else if dirNum in directories then directories[dirNum] else "")
      ensures fileNum == -1 && highestFileNumber in old(files) ==> old(files)[highestFileNumber] == null
      ensures forall f | f in old(target.files) :: f in target.files
      ensures forall f | f in target.files :: f in old(target.files) || f.name == ExpandPath(name, DirectoryOf(dirNum))
      ensures warnedBadDirectoryNumber
        == (old(warnedBadDirectoryNumber) || (dirNum != 0 && dirNum !in directories))
    {
      hide Kept, OpenEnd, Nonempty, ExpandPath, AllLines, ByName, FunctionsInOrder, ExternsInOrder;
      var n := NumberFor(fileNum);
      var dirName := DirectoryFor(dirNum);
      var file := target.FindFile(ExpandPath(name, dirName));
      files := files[n := file];
    }

    /** Numbers of one full name share one file, so it gets one FILE record. */
    lemma SameFileIff(j: int, k: int)
      requires Bound() && ByName(target.files) && j in files && k in files && files[j] != null && files[k] != null
      ensures files[j] == files[k] <==> files[j].name == files[k].name
    {
      var a: nat :| a < |target.files| && target.files[a] == files[j];
      var b: nat :| b < |target.files| && target.files[b] == files[k];
      if a != b {
        NamesDiffer(target.files, if a < b then a else b, if a < b then b else a);
      }
    }

    method AddLine(address: Address, length: Address, fileNum: int, lineNum: int)
      requires Valid() && 0 <= fileNum < FILE_NUMBERS
      modifies this`lines, this`files, this`omittedLineEnd, this`warnedBadFileNumber, this`history
      ensures Valid() && (old(Bound()) ==> Bound())
      ensures history == old(history)
        + if length == 0 then []
          else [Call(address, length, if fileNum in old(files) then old(files)[fileNum] else null, lineNum)]
      ensures warnedBadFileNumber
        == (old(warnedBadFileNumber)
            || (length != 0 && !OnChain(history, |history| - 1) && history[|history| - 1].file == null))
      // Looking a number up does not bind it.
      ensures forall k :: (k in files && files[k] != null) <==> (k in old(files) && old(files)[k] != null)
      ensures forall k | k in old(files) :: k in files && files[k] == old(files)[k]
    {
      hide Kept, OpenEnd, OnChain;
      if length == 0 {
        return;
      }
      ghost var c := Call(address, length, if fileNum in files then files[fileNum] else null, lineNum);
      OneMoreCall(history, c);
      history := history + [c];

      var size := length;
      if Plus(address, size) < address {
        size := Minus(0, address);
      }
      assert size == Clipped(c);
      if address == 0 || address == omittedLineEnd {
        omittedLineEnd := Plus(address, size);
        return;
      }
      omittedLineEnd := 0;
      if fileNum !in files {
        files := files[fileNum := null];
      }
      var file := files[fileNum];
      if file == null {
        warnedBadFileNumber := true;
        return;
      }
      lines := lines + [Line(Span(address, size), file, lineNum)];
    }
  }
}
