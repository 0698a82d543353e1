/**
 DwarfCUToModule::AssignLinesToFunctions: one pass over the sorted ranges and the sorted lines that
 cuts each line at range boundaries, gives the pieces to the functions and warns about gaps.
 */
module LineSweep {
  import opened Arithmetic
  import opened Intervals
  import opened Symbols

  datatype FunctionRange = FunctionRange(extent: Span, owner: Function)

  function Spans(ranges: seq<FunctionRange>): seq<Span> {
    seq(|ranges|, k requires 0 <= k < |ranges| => ranges[k].extent)
  }

  function OwnerList(ranges: seq<FunctionRange>): seq<Function> {
    seq(|ranges|, k requires 0 <= k < |ranges| => ranges[k].owner)
  }

  ghost function Owners(ranges: seq<FunctionRange>): set<Function> { set r | r in ranges :: r.owner }

  // ----- What the sweep should produce

  /** The part of `l` inside `r`, with the line's file and number. */
  function Cut(r: Span, l: Line): Line
    requires Meets(r, l.extent)
  {
    Line(Span(Start(r, l.extent), Stop(r, l.extent) - Start(r, l.extent)), l.file, l.number)
  }

  /** What the piece `p` adds to the lines of `f`. */
  function LineOf(f: Function, ranges: seq<FunctionRange>, lines: seq<Line>, p: Pair): seq<Line> {
    if PieceBelow(Spans(ranges), Extents(lines), MAX_ADDRESS, p) && ranges[p.0].owner == f
    then [Cut(ranges[p.0].extent, lines[p.1])]
    else []
  }

  /** The lines that `f` gets from the pieces `ps`, in order. */
  function LinesOf(f: Function, ranges: seq<FunctionRange>, lines: seq<Line>, ps: seq<Pair>): seq<Line> {
    if ps == [] then [] else LinesOf(f, ranges, lines, ps[..|ps| - 1]) + LineOf(f, ranges, lines, ps[|ps| - 1])
  }

  lemma LinesOfSnoc(f: Function, ranges: seq<FunctionRange>, lines: seq<Line>, ps: seq<Pair>, p: Pair)
    ensures LinesOf(f, ranges, lines, ps + [p]) == LinesOf(f, ranges, lines, ps) + LineOf(f, ranges, lines, p)
  {
    assert (ps + [p])[..|ps|] == ps;
  }

  /** `s` without the elements that repeat their predecessor. */
  function Runs<T(==)>(s: seq<T>): seq<T> {
    if |s| < 2 then s
    else if s[|s| - 1] == s[|s| - 2] then Runs(s[..|s| - 1])
    else Runs(s[..|s| - 1]) + [s[|s| - 1]]
  }

  lemma RunsSnoc<T>(s: seq<T>, x: T)
    ensures Runs(s + [x]) == if s != [] && s[|s| - 1] == x then Runs(s) else Runs(s) + [x]
  {
    assert (s + [x])[..|s|] == s;
  }

  /** No `x` comes back after something else. */
  ghost predicate Unbroken<T>(s: seq<T>, x: T) {
    forall i, j, k | 0 <= i < j < k < |s| && s[i] == x && s[k] == x :: s[j] == x
  }

  lemma {:induction false} RunsProperties<T>(s: seq<T>)
    ensures forall x :: x in Runs(s) <==> x in s
    ensures s != [] ==> Runs(s) != [] && Runs(s)[|Runs(s)| - 1] == s[|s| - 1]
    ensures forall i | 0 <= i < |Runs(s)| - 1 :: Runs(s)[i] != Runs(s)[i + 1]
  {
    if |s| >= 2 {
      var s' := s[..|s| - 1];
      RunsProperties(s');
      assert s == s' + [s[|s| - 1]];
    }
  }

  lemma RunsMember<T>(s: seq<T>, x: T)
    ensures x in Runs(s) <==> x in s
  {
    RunsProperties(s);
  }

  /** Dropping what repeats its predecessor leaves one `x` exactly when nothing else comes between. */
  lemma {:induction false} RunsOnceIff<T>(s: seq<T>, x: T)
    ensures multiset(Runs(s))[x] <= 1 <==> Unbroken(s, x)
  {
    if |s| >= 2 {
      var s', last := s[..|s| - 1], s[|s| - 1];
      RunsOnceIff(s', x);
      RunsMember(s', x);
      assert x in Runs(s') <==> multiset(Runs(s'))[x] > 0;
      UnbrokenSnoc(s', last, x);
      assert s == s' + [last];
    }
  }

  lemma UnbrokenSnoc<T>(s: seq<T>, last: T, x: T)
    requires s != []
    ensures Unbroken(s + [last], x) <==> Unbroken(s, x) && (last == s[|s| - 1] || last != x || x !in s)
  {
    var t := s + [last];
    if Unbroken(t, x) {
      forall i, j, k | 0 <= i < j < k < |s| && s[i] == x && s[k] == x
        ensures s[j] == x
      {
        assert t[i] == x && t[k] == x && t[j] == s[j];
      }
      if last == x && x in s {
        var i := At(s, x);
        assert t[i] == x && t[|s| - 1] == s[|s| - 1] && t[|s|] == x;
      }
    }
  }

  ghost function Pick<T>(s: seq<T>, ks: seq<nat>): (p: seq<T>)
    requires forall k | k in ks :: k < |s|
    ensures |p| == |ks|
  {
    seq(|ks|, n requires 0 <= n < |ks| => assert ks[n] in ks; s[ks[n]])
  }

  lemma PickSnoc<T>(s: seq<T>, ks: seq<nat>, k: nat)
    requires k < |s| && forall k | k in ks :: k < |s|
    ensures forall k' | k' in ks + [k] :: k' < |s|
    ensures Pick(s, ks + [k]) == Pick(s, ks) + [s[k]]
  {
  }

  /** The pieces, the gapped ranges and the stray lines met so far. */
  datatype Found = Found(ps: seq<Pair>, bare: seq<nat>, stray: seq<nat>)

  ghost predicate Exact(rs: seq<Span>, ls: seq<Span>, found: Found, c: int) {
    && PiecesBelow(rs, ls, found.ps, c)
    && BareListed(rs, ls, found.bare, c)
    && StrayListed(rs, ls, found.stray, c)
  }

  /** Every range against every line, and every byte against every span. */
  ghost function NaiveSearch(rs: seq<Span>, ls: seq<Span>): Found {
    Found(AllPairs(rs, ls, |rs|), BareRanges(rs, ls, |rs|), StrayLines(rs, ls, |ls|))
  }

  function Extended(rs: seq<Span>, ls: seq<Span>, ri: nat, lj: nat, c: int, found: Found): Found {
    Found(if Inside(rs, ri, c) && Inside(ls, lj, c) then found.ps + [(ri, lj)] else found.ps,
          Noted(found.bare, ri, Inside(rs, ri, c) && !Inside(ls, lj, c)),
          Noted(found.stray, lj, StrayNow(rs, ls, ri, lj, c, found.ps)))
  }

  // ----- What the sweep remembers, and how it relates to the heap

  datatype Memory = Memory(lineUsed: int, functionCited: Function?, lineCited: int)

  /** The heap before the sweep. */
  datatype Before = Before(given: map<Function, seq<Line>>, functions: seq<Function>, lines: seq<Line>)

  function LastOf(ks: seq<nat>): int { if ks == [] then -1 else ks[|ks| - 1] }

  ghost predicate Reported(ranges: seq<FunctionRange>, lines: seq<Line>, before: Before, found: Found, memory: Memory,
                           functions: seq<Function>, reported: seq<Line>) {
    && (forall k | k in found.bare :: k < |ranges|)
    && (forall k | k in found.stray :: k < |lines|)
    && functions == before.functions + Runs(Pick(OwnerList(ranges), found.bare))
    && reported == before.lines + Pick(lines, found.stray)
    && LastOf(found.bare) < |ranges|
    && memory.functionCited == (if found.bare == [] then null else ranges[LastOf(found.bare)].owner)
    && memory.lineCited == LastOf(found.stray)
  }

  ghost predicate Given(ranges: seq<FunctionRange>, lines: seq<Line>, before: Before, ps: seq<Pair>)
    reads Owners(ranges)
  {
    forall f | f in Owners(ranges) :: f in before.given && f.lines == before.given[f] + LinesOf(f, ranges, lines, ps)
  }

  ghost predicate Recorded(ranges: seq<FunctionRange>, lines: seq<Line>, reporter: Reporter, before: Before,
                           found: Found, memory: Memory)
    reads reporter, Owners(ranges)
  {
    && Given(ranges, lines, before, found.ps)
    && memory.lineUsed == LastLine(found.ps)
    && Reported(ranges, lines, before, found, memory, reporter.uncoveredFunctions, reporter.uncoveredLines)
  }

  lemma CiteFunction(ranges: seq<FunctionRange>, lines: seq<Line>, before: Before, found: Found, memory: Memory,
                     functions: seq<Function>, reported: seq<Line>, ri: nat)
    requires Reported(ranges, lines, before, found, memory, functions, reported) && ri < |ranges|
    ensures Reported(ranges, lines, before, found.(bare := Noted(found.bare, ri, true)),
                     memory.(functionCited := ranges[ri].owner),
                     if ranges[ri].owner != memory.functionCited then functions + [ranges[ri].owner] else functions,
                     reported)
  {
    hide Pick, Runs;
    if LastOf(found.bare) != ri {
      assert forall i | 0 <= i < |found.bare| :: found.bare[i] in found.bare;
      RunsPicked(OwnerList(ranges), found.bare, ri);
      assert OwnerList(ranges)[ri] == ranges[ri].owner;
    }
  }

  lemma RunsPicked<T>(s: seq<T>, ks: seq<nat>, k: nat)
    requires k < |s| && forall i | 0 <= i < |ks| :: ks[i] < |s|
    ensures forall k' | k' in ks + [k] :: k' < |s|
    ensures Runs(Pick(s, ks + [k]))
         == Runs(Pick(s, ks)) + if ks != [] && s[ks[|ks| - 1]] == s[k] then [] else [s[k]]
  {
    PickSnoc(s, ks, k);
    RunsSnoc(Pick(s, ks), s[k]);
  }

  lemma CiteLine(ranges: seq<FunctionRange>, lines: seq<Line>, before: Before, found: Found, memory: Memory,
                 functions: seq<Function>, reported: seq<Line>, lj: nat)
    requires Reported(ranges, lines, before, found, memory, functions, reported)
    requires lj < |lines| && lj != memory.lineCited
    ensures Reported(ranges, lines, before, found.(stray := Noted(found.stray, lj, true)),
                     memory.(lineCited := lj), functions, reported + [lines[lj]])
  {
    PickSnoc(lines, found.stray, lj);
  }

  function Wrapped(n: int): Address
    requires 0 <= n <= MODULUS
  {
    if n == MODULUS then 0 else n
  }

  /** What the arithmetic of the source yields where a line and a range overlap. */
  lemma OverlapArithmetic(r: Span, l: Span, c: Address)
    requires Sound(r) && Sound(l) && r.address <= c < End(r) && l.address <= c < End(l)
    ensures var next := Plus(c, Min(Minus(r.size, Minus(c, r.address)), Minus(l.size, Minus(c, l.address))));
      && next == Wrapped(Stop(r, l))
      && Minus(next, c) == Stop(r, l) - c
  {
  }

  /** The position of the two iterators and of the moving point. */
  ghost predicate AtStop(rs: seq<Span>, ls: seq<Span>, ri: nat, lj: nat, c: int) {
    && AllSound(rs) && AllSound(ls)
    && c < MAX_ADDRESS && (ri < |rs| || lj < |ls|)
    && Positioned(rs, ri, c) && Positioned(ls, lj, c)
  }

  // ----- What the sweep does whatever overlaps

  /** A piece handed to a function. */
  datatype Handed = Handed(owner: Function, line: Line)

  predicate Part(s: Span, t: Span) { t.address <= s.address && End(s) <= End(t) }

  /** A nonempty part of a range of its owner and of a line, with the file and number of that line. */
  predicate FragmentOf(r: FunctionRange, l: Line, h: Handed) {
    && h.owner == r.owner && h.line.file == l.file && h.line.number == l.number
    && Sound(h.line.extent) && Part(h.line.extent, r.extent) && Part(h.line.extent, l.extent)
  }

  ghost predicate Fragment(ranges: seq<FunctionRange>, lines: seq<Line>, h: Handed) {
    exists i, j | 0 <= i < |ranges| && 0 <= j < |lines| :: FragmentOf(ranges[i], lines[j], h)
  }

  function HandedSpans(out: seq<Handed>): seq<Span> {
    seq(|out|, k requires 0 <= k < |out| => out[k].line.extent)
  }

  /**
   The bytes below `c` that are in some range and in some line are handed out, each once and as part of a
   range and a line that it is in, and no other bytes are.
   */
  ghost predicate Shared(ranges: seq<FunctionRange>, lines: seq<Line>, out: seq<Handed>, c: int) {
    && (forall k | 0 <= k < |out| :: Fragment(ranges, lines, out[k]))
    && Layered(HandedSpans(out))
    && (c < MAX_ADDRESS ==> forall k | 0 <= k < |out| :: End(HandedSpans(out)[k]) <= c)
    && (forall b: int | 0 <= b < c ::
          Covers(HandedSpans(out), b) <==> Covers(Spans(ranges), b) && Covers(Extents(lines), b))
  }

  /** What is handed to `f`, in order. */
  function LinesFor(f: Function, out: seq<Handed>): seq<Line> {
    if out == [] then []
    else
      LinesFor(f, out[..|out| - 1])
      + if out[|out| - 1].owner == f then [out[|out| - 1].line] else []
  }

  ghost predicate HandedOver(ranges: seq<FunctionRange>, before: Before, out: seq<Handed>)
    reads Owners(ranges)
  {
    forall f | f in Owners(ranges) :: f in before.given && f.lines == before.given[f] + LinesFor(f, out)
  }

  /** The piece that begins here. */
  function PieceAt(r: Span, l: Line, c: Address): Line
    requires c < Stop(r, l.extent) <= MODULUS && r.address <= c
  {
    Line(Span(c, Stop(r, l.extent) - c), l.file, l.number)
  }

  /** What this stop hands out. */
  function HandedNow(ranges: seq<FunctionRange>, lines: seq<Line>, ri: nat, lj: nat, c: Address): seq<Handed>
    requires AtStop(Spans(ranges), Extents(lines), ri, lj, c)
  {
    if Inside(Spans(ranges), ri, c) && Inside(Extents(lines), lj, c)
    then [Handed(ranges[ri].owner, PieceAt(ranges[ri].extent, lines[lj], c))] else []
  }

  lemma HandedIsFragment(ranges: seq<FunctionRange>, lines: seq<Line>, ri: nat, lj: nat, c: Address)
    requires AtStop(Spans(ranges), Extents(lines), ri, lj, c)
    ensures forall h | h in HandedNow(ranges, lines, ri, lj, c) :: Fragment(ranges, lines, h)
  {
    assert ri < |ranges| ==> Sound(Spans(ranges)[ri]);
    assert lj < |lines| ==> Sound(Extents(lines)[lj]);
    if Inside(Spans(ranges), ri, c) && Inside(Extents(lines), lj, c) {
      assert FragmentOf(ranges[ri], lines[lj], HandedNow(ranges, lines, ri, lj, c)[0]);
    }
  }

  /** Up to the next transition a byte is covered iff this one is. */
  lemma CoveredAlike(ss: seq<Span>, k: nat, c: int, n: int, b: int)
    requires AllSound(ss) && Ascending(ss) && Positioned(ss, k, c) && c <= b < n
    requires k < |ss| ==> n <= (if Inside(ss, k, c) then End(ss[k]) else ss[k].address)
    ensures Covers(ss, b) <==> Inside(ss, k, c)
  {
    if Covers(ss, b) {
      var i :| 0 <= i < |ss| && ss[i].address <= b < End(ss[i]);
    }
  }

  lemma SharedGrows(ranges: seq<FunctionRange>, lines: seq<Line>, out: seq<Handed>, ri: nat, lj: nat, c: Address,
                    n: int)
    requires AtStop(Spans(ranges), Extents(lines), ri, lj, c)
    requires Ascending(Spans(ranges)) && Ascending(Extents(lines))
    requires NextTransition(Spans(ranges), Extents(lines), ri, lj, c, n) && n <= MODULUS
    requires Shared(ranges, lines, out, c)
    ensures Shared(ranges, lines, out + HandedNow(ranges, lines, ri, lj, c), Min(n, MAX_ADDRESS))
  {
    hide Fragment;
    var rs, ls, now := Spans(ranges), Extents(lines), HandedNow(ranges, lines, ri, lj, c);
    HandedIsFragment(ranges, lines, ri, lj, c);
    var before, after := HandedSpans(out), HandedSpans(out + now);
    assert after == before + HandedSpans(now);
    assert forall h | h in now :: h.line.extent.address == c && End(h.line.extent) == n;
    forall b: int | 0 <= b < Min(n, MAX_ADDRESS)
      ensures Covers(after, b) <==> Covers(rs, b) && Covers(ls, b)
    {
      CoversJoined(before, HandedSpans(now), b);
      if b < c {
        assert Covers(before, b) <==> Covers(rs, b) && Covers(ls, b);
      } else {
        CoveredAlike(rs, ri, c, n, b);
        CoveredAlike(ls, lj, c, n, b);
        if now != [] {
          assert HandedSpans(now)[0] == now[0].line.extent;
        }
      }
    }
  }

  lemma CoversJoined(ss: seq<Span>, ts: seq<Span>, b: int)
    ensures Covers(ss + ts, b) <==> Covers(ss, b) || Covers(ts, b)
  {
    if i :| 0 <= i < |ss| && ss[i].address <= b < End(ss[i]) {
      assert (ss + ts)[i] == ss[i];
    }
    if i :| 0 <= i < |ts| && ts[i].address <= b < End(ts[i]) {
      assert (ss + ts)[|ss| + i] == ts[i];
    }
  }

  lemma SharedAtFirst(ranges: seq<FunctionRange>, lines: seq<Line>, c: int)
    requires Ascending(Spans(ranges)) && Ascending(Extents(lines))
    requires ranges != [] ==> c <= Spans(ranges)[0].address
    requires lines != [] ==> c <= Extents(lines)[0].address
    requires ranges == [] && lines == [] ==> c == MAX_ADDRESS
    ensures Shared(ranges, lines, [], c)
  {
  }

  lemma SharedAtLast(ranges: seq<FunctionRange>, lines: seq<Line>, out: seq<Handed>, c: int)
    requires Shared(ranges, lines, out, c) && c < MAX_ADDRESS
    requires Positioned(Spans(ranges), |ranges|, c) && Positioned(Extents(lines), |lines|, c)
    ensures Shared(ranges, lines, out, MAX_ADDRESS)
  {
    hide Fragment;
    assert |HandedSpans(out)| == |out|;
    forall b: int | c <= b
      ensures !Covers(HandedSpans(out), b) && !Covers(Spans(ranges), b)
    {
    }
  }

  lemma LinesForMore(f: Function, out: seq<Handed>, h: Handed)
    ensures LinesFor(f, out + [h]) == LinesFor(f, out) + if h.owner == f then [h.line] else []
  {
    assert (out + [h])[..|out|] == out;
  }

  // ----- The warnings, whatever overlaps

  /** The byte is in a range of `f` and in no line. */
  ghost predicate BareOwner(ranges: seq<FunctionRange>, lines: seq<Line>, f: Function, b: int) {
    exists i | 0 <= i < |ranges| :: ranges[i].owner == f && BareByte(ranges[i].extent, Extents(lines), b)
  }

  /** The line holds the byte, and is reported or ends where a range begins. */
  ghost predicate Answered(ranges: seq<FunctionRange>, l: Line, reported: seq<Line>, b: int) {
    && l.extent.address <= b < End(l.extent)
    && (l in reported || exists i | 0 <= i < |ranges| :: ranges[i].extent.address == End(l.extent))
  }

  /** Who is cited has a byte in no line, and of each such byte below `c` an owner is cited. */
  ghost predicate CitedRight(ranges: seq<FunctionRange>, lines: seq<Line>, cited: seq<Function>, c: int) {
    && (forall f | f in cited :: exists b: int :: BareOwner(ranges, lines, f, b))
    && (forall b: int | 0 <= b < c && Covers(Spans(ranges), b) && !Covers(Extents(lines), b) ::
          exists f :: f in cited && BareOwner(ranges, lines, f, b))
  }

  /** What is reported has a byte in no range, and each such byte below `c` is answered for. */
  ghost predicate ReportedRight(ranges: seq<FunctionRange>, lines: seq<Line>, reported: seq<Line>, c: int) {
    && (forall l | l in reported :: l in lines && exists b: int :: BareByte(l.extent, Spans(ranges), b))
    && (forall b: int | 0 <= b < c && Covers(Extents(lines), b) && !Covers(Spans(ranges), b) ::
          exists l :: l in lines && Answered(ranges, l, reported, b))
  }

  ghost predicate Warned(ranges: seq<FunctionRange>, lines: seq<Line>, before: Before, functions: seq<Function>,
                         reported: seq<Line>, memory: Memory, c: int) {
    && before.functions <= functions && before.lines <= reported
    && CitedRight(ranges, lines, functions[|before.functions|..], c)
    && ReportedRight(ranges, lines, reported[|before.lines|..], c)
    && (memory.functionCited == null || memory.functionCited in functions[|before.functions|..])
    && (memory.lineCited == -1
        || (0 <= memory.lineCited < |lines| && lines[memory.lineCited] in reported[|before.lines|..]))
  }

  /** The function this stop cites, if it does. */
  predicate Cites(ranges: seq<FunctionRange>, lines: seq<Line>, ri: nat, lj: nat, c: int) {
    Inside(Spans(ranges), ri, c) && !Inside(Extents(lines), lj, c)
  }

  predicate Strays(ranges: seq<FunctionRange>, lines: seq<Line>, ri: nat, lj: nat, c: int) {
    !Inside(Spans(ranges), ri, c) && Inside(Extents(lines), lj, c)
  }

  /** The tail of the line last used is forgiven if the next range begins where the line ends. */
  predicate Pardons(ranges: seq<FunctionRange>, lines: seq<Line>, ri: nat, lj: nat, memory: Memory)
    requires lj < |lines|
  {
    ri < |ranges| && lj == memory.lineUsed
    && Minus(ranges[ri].extent.address, lines[lj].extent.address) == lines[lj].extent.size
  }

  lemma CitedMore(ranges: seq<FunctionRange>, lines: seq<Line>, cited: seq<Function>, ri: nat, lj: nat, c: Address,
                  n: int, more: seq<Function>)
    requires AtStop(Spans(ranges), Extents(lines), ri, lj, c)
    requires Ascending(Spans(ranges)) && Ascending(Extents(lines))
    requires NextTransition(Spans(ranges), Extents(lines), ri, lj, c, n)
    requires CitedRight(ranges, lines, cited, c)
    requires more == [] || (Cites(ranges, lines, ri, lj, c) && more == [ranges[ri].owner])
    requires Cites(ranges, lines, ri, lj, c) ==> ranges[ri].owner in cited + more
    ensures CitedRight(ranges, lines, cited + more, n)
  {
    var rs, ls := Spans(ranges), Extents(lines);
    forall b: int | c <= b < n
      ensures Covers(rs, b) <==> Inside(rs, ri, c)
      ensures Covers(ls, b) <==> Inside(ls, lj, c)
    {
      CoveredAlike(rs, ri, c, n, b);
      CoveredAlike(ls, lj, c, n, b);
    }
    if Cites(ranges, lines, ri, lj, c) {
      forall b: int | c <= b < n
        ensures BareOwner(ranges, lines, ranges[ri].owner, b)
      {
        assert rs[ri] == ranges[ri].extent && BareByte(ranges[ri].extent, ls, b);
      }
      assert BareOwner(ranges, lines, ranges[ri].owner, c);
    }
    forall b: int | 0 <= b < n && Covers(rs, b) && !Covers(ls, b)
      ensures exists f :: f in cited + more && BareOwner(ranges, lines, f, b)
    {
      if b < c {
        var f :| f in cited && BareOwner(ranges, lines, f, b);
        assert f in cited + more;
      } else {
        assert ranges[ri].owner in cited + more;
      }
    }
  }

  lemma ReportedMore(ranges: seq<FunctionRange>, lines: seq<Line>, reported: seq<Line>, ri: nat, lj: nat, c: Address,
                     n: int, memory: Memory, more: seq<Line>)
    requires AtStop(Spans(ranges), Extents(lines), ri, lj, c)
    requires Ascending(Spans(ranges)) && Ascending(Extents(lines))
    requires NextTransition(Spans(ranges), Extents(lines), ri, lj, c, n)
    requires ReportedRight(ranges, lines, reported, c)
    requires more == [] || (Strays(ranges, lines, ri, lj, c) && more == [lines[lj]])
    requires Strays(ranges, lines, ri, lj, c) ==>
      lines[lj] in reported + more || Pardons(ranges, lines, ri, lj, memory)
    ensures ReportedRight(ranges, lines, reported + more, n)
  {
    var rs, ls := Spans(ranges), Extents(lines);
    forall b: int | c <= b < n
      ensures Covers(rs, b) <==> Inside(rs, ri, c)
      ensures Covers(ls, b) <==> Inside(ls, lj, c)
    {
      CoveredAlike(rs, ri, c, n, b);
      CoveredAlike(ls, lj, c, n, b);
    }
    if Strays(ranges, lines, ri, lj, c) {
      assert ls[lj] == lines[lj].extent && Sound(ls[lj]);
      assert BareByte(lines[lj].extent, rs, c);
      forall b: int | c <= b < n
        ensures Answered(ranges, lines[lj], reported + more, b)
      {
        if lines[lj] !in reported + more {
          assert Sound(rs[ri]) && rs[ri] == ranges[ri].extent;
          assert ranges[ri].extent.address == End(lines[lj].extent);
        }
      }
    }
    forall b: int | 0 <= b < n && Covers(ls, b) && !Covers(rs, b)
      ensures exists l :: l in lines && Answered(ranges, l, reported + more, b)
    {
      if b < c {
        var l :| l in lines && Answered(ranges, l, reported, b);
        assert Answered(ranges, l, reported + more, b);
      } else {
        assert lines[lj] in lines && Answered(ranges, lines[lj], reported + more, b);
      }
    }
  }

  lemma WarnedMore(ranges: seq<FunctionRange>, lines: seq<Line>, before: Before, functions: seq<Function>,
                   reported: seq<Line>, memory: Memory, ri: nat, lj: nat, c: Address, n: int,
                   functions': seq<Function>, reported': seq<Line>, memory': Memory)
    requires AtStop(Spans(ranges), Extents(lines), ri, lj, c)
    requires Ascending(Spans(ranges)) && Ascending(Extents(lines))
    requires NextTransition(Spans(ranges), Extents(lines), ri, lj, c, n)
    requires Warned(ranges, lines, before, functions, reported, memory, c)
    requires WarnsNow(ranges, lines, ri, lj, c, functions, reported, memory, functions', reported', memory')
    ensures Warned(ranges, lines, before, functions', reported', memory', n)
  {
    hide CitedRight, ReportedRight, NextTransition, AtStop;
    var f, l := |before.functions|, |before.lines|;
    var cited, moreF := functions[f..], functions'[|functions|..];
    var lines', moreL := reported[l..], reported'[|reported|..];
    assert functions'[f..] == cited + moreF && reported'[l..] == lines' + moreL;
    CitedMore(ranges, lines, cited, ri, lj, c, n, moreF);
    ReportedMore(ranges, lines, lines', ri, lj, c, n, memory, moreL);
  }

  /** What this stop adds to the two lists of warnings, and remembers. */
  ghost predicate WarnsNow(ranges: seq<FunctionRange>, lines: seq<Line>, ri: nat, lj: nat, c: int,
                           functions: seq<Function>, reported: seq<Line>, memory: Memory,
                           functions': seq<Function>, reported': seq<Line>, memory': Memory) {
    && (if Cites(ranges, lines, ri, lj, c)
        then memory'.functionCited == ranges[ri].owner
             && functions' == functions + if ranges[ri].owner != memory.functionCited then [ranges[ri].owner] else []
        else functions' == functions && memory'.functionCited == memory.functionCited)
    && (if Strays(ranges, lines, ri, lj, c) && lj != memory.lineCited && !Pardons(ranges, lines, ri, lj, memory)
        then reported' == reported + [lines[lj]] && memory'.lineCited == lj
        else reported' == reported && memory'.lineCited == memory.lineCited)
  }

  lemma WarnedAtFirst(ranges: seq<FunctionRange>, lines: seq<Line>, before: Before, c: int)
    requires Ascending(Spans(ranges)) && Ascending(Extents(lines))
    requires ranges != [] ==> c <= Spans(ranges)[0].address
    requires lines != [] ==> c <= Extents(lines)[0].address
    ensures Warned(ranges, lines, before, before.functions, before.lines, Memory(-1, null, -1), c)
  {
  }

  lemma WarnedAtLast(ranges: seq<FunctionRange>, lines: seq<Line>, before: Before, functions: seq<Function>,
                     reported: seq<Line>, memory: Memory, c: int)
    requires Warned(ranges, lines, before, functions, reported, memory, c)
    requires Positioned(Spans(ranges), |ranges|, c) && Positioned(Extents(lines), |lines|, c)
    ensures Warned(ranges, lines, before, functions, reported, memory, MAX_ADDRESS)
  {
    forall b: int | c <= b
      ensures !Covers(Spans(ranges), b) && !Covers(Extents(lines), b)
    {
    }
  }

  lemma WarnedBelow(ranges: seq<FunctionRange>, lines: seq<Line>, before: Before, functions: seq<Function>,
                    reported: seq<Line>, memory: Memory, c: int, d: int)
    requires Warned(ranges, lines, before, functions, reported, memory, c) && d <= c
    ensures Warned(ranges, lines, before, functions, reported, memory, d)
  {
  }

  // ----- The sweep

  /**
   The first half of an iteration: which of the four states the byte at `current` is in, the line or
   warning that follows from it, and the next transition.
   */
  method Visit(ranges: seq<FunctionRange>, lines: seq<Line>, reporter: Reporter, ri: nat, lj: nat, current: Address,
               memory: Memory, ghost before: Before, ghost found: Found)
    returns (next: Address, memory': Memory, ghost n: int)
    requires AtStop(Spans(ranges), Extents(lines), ri, lj, current)
    modifies reporter, Owners(ranges)
    ensures NextTransition(Spans(ranges), Extents(lines), ri, lj, current, n) && n <= MODULUS && next == Wrapped(n)
    ensures forall f | f in Owners(ranges) ::
      f.lines == old(f.lines) + LinesFor(f, HandedNow(ranges, lines, ri, lj, current))
    ensures WarnsNow(ranges, lines, ri, lj, current, old(reporter.uncoveredFunctions), old(reporter.uncoveredLines),
                     memory, reporter.uncoveredFunctions, reporter.uncoveredLines, memory')
    ensures (old(Recorded(ranges, lines, reporter, before, found, memory))
             && AtTransition(Spans(ranges), Extents(lines), ri, lj, current)) ==>
      Recorded(ranges, lines, reporter, before,
               Extended(Spans(ranges), Extents(lines), ri, lj, current, found), memory')
  {
    memory' := memory;
    if ri < |ranges| && current >= ranges[ri].extent.address {
      var range := ranges[ri];
      if lj < |lines| && current >= lines[lj].extent.address {
        next := GivePiece(ranges, lines, ri, lj, current, before, found.ps);
        memory' := memory.(lineUsed := lj);
        n := Stop(range.extent, lines[lj].extent);
      } else {
        memory' := WarnFunction(ranges, lines, reporter, ri, memory, before, found);
        if lj < |lines| && Within(range.extent, lines[lj].extent.address) {
          next := lines[lj].extent.address;
          n := next;
        } else {
          next := Plus(range.extent.address, range.extent.size);
          n := End(range.extent);
        }
      }
    } else {
      if lj < |lines| && current >= lines[lj].extent.address {
        var line := lines[lj];
        memory' := WarnLine(ranges, lines, reporter, ri, lj, current, memory, before, found);
        if ri < |ranges| && Within(line.extent, ranges[ri].extent.address) {
          next := ranges[ri].extent.address;
          n := next;
        } else {
          next := Plus(line.extent.address, line.extent.size);
          n := End(line.extent);
        }
      } else if ri < |ranges| && lj < |lines| {
        next := Min(ranges[ri].extent.address, lines[lj].extent.address);
        n := next;
      } else if ri < |ranges| {
        next := ranges[ri].extent.address;
        n := next;
      } else {
        next := lines[lj].extent.address;
        n := next;
      }
    }
  }

  /** Covered by both: cut the line here and give the piece to the owner of the range. */
  method GivePiece(ranges: seq<FunctionRange>, lines: seq<Line>, ri: nat, lj: nat, current: Address,
                   ghost before: Before, ghost ps: seq<Pair>)
    returns (next: Address)
    requires AtStop(Spans(ranges), Extents(lines), ri, lj, current)
    requires Inside(Spans(ranges), ri, current) && Inside(Extents(lines), lj, current)
    modifies Owners(ranges)`lines
    ensures next == Wrapped(Stop(ranges[ri].extent, lines[lj].extent))
    ensures forall f | f in Owners(ranges) ::
      f.lines == old(f.lines) + LinesFor(f, HandedNow(ranges, lines, ri, lj, current))
    ensures AtTransition(Spans(ranges), Extents(lines), ri, lj, current) && old(Given(ranges, lines, before, ps)) ==>
      Given(ranges, lines, before, ps + [(ri, lj)])
  {
    var piece: Line;
    next, piece := CutHere(ranges[ri].extent, lines[lj], current);
    ghost var was := map f | f in Owners(ranges) :: f.lines;
    ranges[ri].owner.lines := ranges[ri].owner.lines + [piece];
    HandedOne(ranges, lines, ri, lj, current, piece);
    if AtTransition(Spans(ranges), Extents(lines), ri, lj, current) && old(Given(ranges, lines, before, ps)) {
      assert PieceBelow(Spans(ranges), Extents(lines), MAX_ADDRESS, (ri, lj));
      GivenSnoc(ranges, lines, before, ps, (ri, lj), was);
    }
  }

  lemma HandedOne(ranges: seq<FunctionRange>, lines: seq<Line>, ri: nat, lj: nat, c: Address, piece: Line)
    requires AtStop(Spans(ranges), Extents(lines), ri, lj, c)
    requires Inside(Spans(ranges), ri, c) && Inside(Extents(lines), lj, c)
    requires piece == PieceAt(ranges[ri].extent, lines[lj], c)
    ensures forall f: Function | f in Owners(ranges) ::
      LinesFor(f, HandedNow(ranges, lines, ri, lj, c)) == if f == ranges[ri].owner then [piece] else []
  {
    forall f: Function | f in Owners(ranges)
      ensures LinesFor(f, HandedNow(ranges, lines, ri, lj, c)) == if f == ranges[ri].owner then [piece] else []
    {
      LinesForMore(f, [], Handed(ranges[ri].owner, piece));
      assert [] + [Handed(ranges[ri].owner, piece)] == HandedNow(ranges, lines, ri, lj, c);
    }
  }

  lemma {:induction false} GivenSnoc(ranges: seq<FunctionRange>, lines: seq<Line>, before: Before, ps: seq<Pair>,
                                     p: Pair, was: map<Function, seq<Line>>)
    requires PieceBelow(Spans(ranges), Extents(lines), MAX_ADDRESS, p)
    requires forall f | f in Owners(ranges) ::
      && f in before.given && f in was
      && was[f] == before.given[f] + LinesOf(f, ranges, lines, ps)
      && f.lines == if f == ranges[p.0].owner then was[f] + [Cut(ranges[p.0].extent, lines[p.1])] else was[f]
    ensures Given(ranges, lines, before, ps + [p])
  {
    hide LinesOf, LineOf, PieceBelow;
    forall f | f in Owners(ranges)
      ensures f.lines == before.given[f] + LinesOf(f, ranges, lines, ps + [p])
    {
      PieceFalls(f, ranges, lines, p);
      LinesOfSnoc(f, ranges, lines, ps, p);
      Assoc(before.given[f], LinesOf(f, ranges, lines, ps), LineOf(f, ranges, lines, p));
    }
  }

  lemma PieceFalls(f: Function, ranges: seq<FunctionRange>, lines: seq<Line>, p: Pair)
    requires PieceBelow(Spans(ranges), Extents(lines), MAX_ADDRESS, p)
    ensures LineOf(f, ranges, lines, p)
      == if f == ranges[p.0].owner then [Cut(ranges[p.0].extent, lines[p.1])] else []
  {
  }

  lemma Assoc<T>(a: seq<T>, b: seq<T>, c: seq<T>)
    ensures a + b + c == a + (b + c)
  {
  }

  /** The piece of `line` that begins here and ends with the range or the line, and where that is. */
  method CutHere(range: Span, line: Line, current: Address) returns (next: Address, piece: Line)
    requires Sound(range) && Sound(line.extent)
    requires range.address <= current < End(range) && line.extent.address <= current < End(line.extent)
    ensures next == Wrapped(Stop(range, line.extent))
    ensures piece == Line(Span(current, Stop(range, line.extent) - current), line.file, line.number)
    ensures current <= Start(range, line.extent) ==> piece == Cut(range, line)
  {
    OverlapArithmetic(range, line.extent, current);
    var rangeLeft := Minus(range.size, Minus(current, range.address));
    var lineLeft := Minus(line.extent.size, Minus(current, line.extent.address));
    next := Plus(current, Min(rangeLeft, lineLeft));
    piece := Line(Span(current, Minus(next, current)), line.file, line.number);
  }

  /** Covered by a range only: warn about its function, unless that was the last one warned about. */
  method WarnFunction(ranges: seq<FunctionRange>, lines: seq<Line>, reporter: Reporter, ri: nat, memory: Memory,
                      ghost before: Before, ghost found: Found)
    returns (memory': Memory)
    requires ri < |ranges|
    modifies reporter`uncoveredFunctions
    ensures memory' == memory.(functionCited := ranges[ri].owner)
    ensures reporter.uncoveredFunctions == old(reporter.uncoveredFunctions)
      + if ranges[ri].owner != memory.functionCited then [ranges[ri].owner] else []
    ensures old(Recorded(ranges, lines, reporter, before, found, memory)) ==>
      Recorded(ranges, lines, reporter, before, found.(bare := Noted(found.bare, ri, true)), memory')
  {
    ghost var start := Recorded(ranges, lines, reporter, before, found, memory);
    if start {
      CiteFunction(ranges, lines, before, found, memory, reporter.uncoveredFunctions, reporter.uncoveredLines, ri);
    }
    memory' := memory;
    if ranges[ri].owner != memory.functionCited {
      reporter.UncoveredFunction(ranges[ri].owner);
      memory' := memory.(functionCited := ranges[ri].owner);
    }
  }

  /** Covered by a line only: warn about it once, unless its tail is forgiven. */
  method WarnLine(ranges: seq<FunctionRange>, lines: seq<Line>, reporter: Reporter, ri: nat, lj: nat, current: Address,
                  memory: Memory, ghost before: Before, ghost found: Found)
    returns (memory': Memory)
    requires AtStop(Spans(ranges), Extents(lines), ri, lj, current)
    requires !Inside(Spans(ranges), ri, current) && Inside(Extents(lines), lj, current)
    modifies reporter`uncoveredLines
    ensures var warns := lj != memory.lineCited && !Pardons(ranges, lines, ri, lj, memory);
      && memory' == (if warns then memory.(lineCited := lj) else memory)
      && reporter.uncoveredLines == old(reporter.uncoveredLines) + if warns then [lines[lj]] else []
    ensures old(Recorded(ranges, lines, reporter, before, found, memory)) ==>
      Recorded(ranges, lines, reporter, before,
               found.(stray := Noted(found.stray, lj,
                                     StrayNow(Spans(ranges), Extents(lines), ri, lj, current, found.ps))),
               memory')
  {
    ghost var start := Recorded(ranges, lines, reporter, before, found, memory);
    if start && lj != memory.lineCited {
      CiteLine(ranges, lines, before, found, memory, reporter.uncoveredFunctions, reporter.uncoveredLines, lj);
    }
    memory' := memory;
    if lj != memory.lineCited
       && !(ri < |ranges| && lj == memory.lineUsed
            && Minus(ranges[ri].extent.address, lines[lj].extent.address) == lines[lj].extent.size) {
      reporter.UncoveredLine(lines[lj]);
      memory' := memory.(lineCited := lj);
    }
  }

  /** The second half of an iteration: drop the ranges that are over by `next`. */
  method SkipRanges(ranges: seq<FunctionRange>, ri: nat, next: Address) returns (ri': nat)
    requires AllSound(Spans(ranges)) && ri <= |ranges|
    requires forall i | 0 <= i < ri :: End(Spans(ranges)[i]) <= next
    ensures ri <= ri' && Positioned(Spans(ranges), ri', next)
  {
    ri' := ri;
    while ri' != |ranges| && next >= ranges[ri'].extent.address && !Within(ranges[ri'].extent, next)
      invariant ri <= ri' <= |ranges|
      invariant forall i | 0 <= i < ri' :: End(Spans(ranges)[i]) <= next
    {
      assert Sound(Spans(ranges)[ri']);
      ri' := ri' + 1;
    }
  }

  method SkipLines(lines: seq<Line>, lj: nat, next: Address) returns (lj': nat)
    requires AllSound(Extents(lines)) && lj <= |lines|
    requires forall j | 0 <= j < lj :: End(Extents(lines)[j]) <= next
    ensures lj <= lj' && Positioned(Extents(lines), lj', next)
  {
    lj' := lj;
    while lj' != |lines| && next >= lines[lj'].extent.address && !Within(lines[lj'].extent, next)
      invariant lj <= lj' <= |lines|
      invariant forall j | 0 <= j < lj' :: End(Extents(lines)[j]) <= next
    {
      assert Sound(Extents(lines)[lj']);
      lj' := lj' + 1;
    }
  }

  /** What is known at the top of the loop about disjoint ranges and disjoint lines. */
  ghost predicate Tracked(rs: seq<Span>, ls: seq<Span>, ri: nat, lj: nat, c: int, found: Found) {
    AtTransition(rs, ls, ri, lj, c) && Exact(rs, ls, found, c)
  }

  lemma ExactExtended(rs: seq<Span>, ls: seq<Span>, ri: nat, lj: nat, c: int, n: int, found: Found)
    requires AtStop(rs, ls, ri, lj, c) && Layered(rs) && Layered(ls) && Tracked(rs, ls, ri, lj, c, found)
    requires NextTransition(rs, ls, ri, lj, c, n)
    ensures Exact(rs, ls, Extended(rs, ls, ri, lj, c, found), Min(n, MAX_ADDRESS))
  {
    ExtendAll(rs, ls, ri, lj, c, n, Min(n, MAX_ADDRESS), found.ps, found.bare, found.stray);
  }

  lemma OverMore(ranges: seq<FunctionRange>, lines: seq<Line>, ri: nat, lj: nat, c: Address, out: seq<Handed>,
                 before: Before, was: map<Function, seq<Line>>)
    requires AtStop(Spans(ranges), Extents(lines), ri, lj, c)
    requires forall f | f in Owners(ranges) ::
      && f in before.given && f in was && was[f] == before.given[f] + LinesFor(f, out)
      && f.lines == was[f] + LinesFor(f, HandedNow(ranges, lines, ri, lj, c))
    ensures HandedOver(ranges, before, out + HandedNow(ranges, lines, ri, lj, c))
  {
    var now := HandedNow(ranges, lines, ri, lj, c);
    hide HandedNow, AtStop;
    forall f | f in Owners(ranges)
      ensures f.lines == before.given[f] + LinesFor(f, out + now)
    {
      if now == [] {
        assert out + now == out;
      } else {
        LinesForMore(f, out, now[0]);
        LinesForMore(f, [], now[0]);
        assert now == [now[0]] == [] + [now[0]];
      }
      Assoc(before.given[f], LinesFor(f, out), LinesFor(f, now));
    }
  }

  /** The first half of an iteration, with what it adds to the two accounts of the sweep. */
  method VisitAndNote(ranges: seq<FunctionRange>, lines: seq<Line>, reporter: Reporter, ri: nat, lj: nat,
                      current: Address, memory: Memory, ghost before: Before, ghost found: Found,
                      ghost out: seq<Handed>)
    returns (next: Address, memory': Memory, ghost n: int, ghost found': Found, ghost out': seq<Handed>)
    requires AtStop(Spans(ranges), Extents(lines), ri, lj, current)
    modifies reporter, Owners(ranges)
    ensures NextTransition(Spans(ranges), Extents(lines), ri, lj, current, n) && n <= MODULUS && next == Wrapped(n)
    ensures Ascending(Spans(ranges)) && Ascending(Extents(lines)) && Shared(ranges, lines, out, current) ==>
      Shared(ranges, lines, out', Min(n, MAX_ADDRESS))
    ensures old(HandedOver(ranges, before, out)) ==> HandedOver(ranges, before, out')
    ensures
      (Ascending(Spans(ranges)) && Ascending(Extents(lines))
       && old(Warned(ranges, lines, before, reporter.uncoveredFunctions, reporter.uncoveredLines, memory, current))) ==>
      Warned(ranges, lines, before, reporter.uncoveredFunctions, reporter.uncoveredLines, memory', Min(n, MAX_ADDRESS))
    ensures
      (Layered(Spans(ranges)) && Layered(Extents(lines))
       && Tracked(Spans(ranges), Extents(lines), ri, lj, current, found)
       && old(Recorded(ranges, lines, reporter, before, found, memory))) ==>
      Recorded(ranges, lines, reporter, before, found', memory')
      && Exact(Spans(ranges), Extents(lines), found', Min(n, MAX_ADDRESS))
  {
    hide Recorded, Exact, Layered, Extended, Shared, HandedNow, LinesFor, NextTransition, Warned, WarnsNow;
    ghost var functions, reported := reporter.uncoveredFunctions, reporter.uncoveredLines;
    ghost var rs, ls := Spans(ranges), Extents(lines);
    ghost var was, over := map f | f in Owners(ranges) :: f.lines, HandedOver(ranges, before, out);
    next, memory', n := Visit(ranges, lines, reporter, ri, lj, current, memory, before, found);
    found', out' := Extended(rs, ls, ri, lj, current, found), out + HandedNow(ranges, lines, ri, lj, current);
    if Ascending(rs) && Ascending(ls) && Warned(ranges, lines, before, functions, reported, memory, current) {
      WarnedMore(ranges, lines, before, functions, reported, memory, ri, lj, current, n,
                 reporter.uncoveredFunctions, reporter.uncoveredLines, memory');
      WarnedBelow(ranges, lines, before, reporter.uncoveredFunctions, reporter.uncoveredLines, memory', n,
                  Min(n, MAX_ADDRESS));
    }
    if over {
      OverMore(ranges, lines, ri, lj, current, out, before, was);
    }
    if Ascending(rs) && Ascending(ls) && Shared(ranges, lines, out, current) {
      SharedGrows(ranges, lines, out, ri, lj, current, n);
    }
    if Layered(rs) && Layered(ls) && Tracked(rs, ls, ri, lj, current, found) {
      ExactExtended(rs, ls, ri, lj, current, n, found);
    }
  }

  /** One iteration; `more` says whether the loop goes on, from `next`. */
  method Iterate(ranges: seq<FunctionRange>, lines: seq<Line>, reporter: Reporter, ri: nat, lj: nat, current: Address,
                 memory: Memory, ghost before: Before, ghost found: Found, ghost out: seq<Handed>)
    returns (more: bool, next: Address, ri': nat, lj': nat, memory': Memory, ghost found': Found,
             ghost out': seq<Handed>)
    requires AtStop(Spans(ranges), Extents(lines), ri, lj, current)
    modifies reporter, Owners(ranges)
    ensures more ==>
      && current < next < MAX_ADDRESS
      && next in Endpoints(Spans(ranges)) + Endpoints(Extents(lines))
      && Positioned(Spans(ranges), ri', next) && Positioned(Extents(lines), lj', next)
    ensures Ascending(Spans(ranges)) && Ascending(Extents(lines)) && Shared(ranges, lines, out, current) ==>
      Shared(ranges, lines, out', if more then next else MAX_ADDRESS)
    ensures old(HandedOver(ranges, before, out)) ==> HandedOver(ranges, before, out')
    ensures
      (Ascending(Spans(ranges)) && Ascending(Extents(lines))
       && old(Warned(ranges, lines, before, reporter.uncoveredFunctions, reporter.uncoveredLines, memory, current))) ==>
      Warned(ranges, lines, before, reporter.uncoveredFunctions, reporter.uncoveredLines, memory',
             if more then next else MAX_ADDRESS)
    ensures
      (Layered(Spans(ranges)) && Layered(Extents(lines))
       && Tracked(Spans(ranges), Extents(lines), ri, lj, current, found)
       && old(Recorded(ranges, lines, reporter, before, found, memory))) ==>
      && Recorded(ranges, lines, reporter, before, found', memory')
      && if more then Tracked(Spans(ranges), Extents(lines), ri', lj', next, found')
         else Exact(Spans(ranges), Extents(lines), found', MAX_ADDRESS)
  {
    hide Recorded, Exact, Layered, Shared, HandedOver, Warned;
    ghost var rs, ls := Spans(ranges), Extents(lines);
    ghost var tidy := Layered(rs) && Layered(ls) && Tracked(rs, ls, ri, lj, current, found);
    assert ri < |ranges| ==> current < ranges[ri].extent.address || Within(ranges[ri].extent, current);
    assert lj < |lines| ==> current < lines[lj].extent.address || Within(lines[lj].extent, current);

    ghost var n: int;
    next, memory', n, found', out' :=
      VisitAndNote(ranges, lines, reporter, ri, lj, current, memory, before, found, out);

    // Past the end of the address space, or at the tombstone that some producers use.
    if next == 0 || next == MAX_ADDRESS {
      more, ri', lj' := false, ri, lj;
      return;
    }
    ri' := SkipRanges(ranges, ri, next);
    lj' := SkipLines(lines, lj, next);
    NextIsEndpoint(rs, ls, ri, lj, current, n);
    if tidy {
      TransitionKept(rs, ls, ri, lj, current, n, ri', lj');
    }
    assert next > current;
    more := true;
  }

  /** The beginning of the first line or range, whichever is earlier. */
  method FirstTransition(ranges: seq<FunctionRange>, lines: seq<Line>) returns (current: Address)
    requires ranges != [] || lines != []
    requires AllSound(Spans(ranges)) && AllSound(Extents(lines))
    requires Ascending(Spans(ranges)) && Ascending(Extents(lines))
    ensures Positioned(Spans(ranges), 0, current) && Positioned(Extents(lines), 0, current)
    ensures Tracked(Spans(ranges), Extents(lines), 0, 0, current, Found([], [], []))
    ensures current in Endpoints(Spans(ranges)) + Endpoints(Extents(lines))
    ensures ranges != [] ==> current <= ranges[0].extent.address
    ensures lines != [] ==> current <= lines[0].extent.address
  {
    if ranges != [] && lines != [] {
      current := Min(ranges[0].extent.address, lines[0].extent.address);
    } else if lines != [] {
      current := lines[0].extent.address;
    } else {
      current := ranges[0].extent.address;
    }
    FirstStop(Spans(ranges), Extents(lines), current);
  }

  /**
   The whole loop.  Whatever the overlaps, it stops only at begins and ends of spans, ever higher, and hands
   out every byte that is in a range and in a line exactly once, to the owner of such a range;
   with disjoint ranges and disjoint lines it finds exactly what there is to find.
   */
  method Sweep(ranges: seq<FunctionRange>, lines: seq<Line>, reporter: Reporter, ghost before: Before)
    returns (ghost stops: seq<int>, ghost found: Found, memory: Memory, ghost out: seq<Handed>)
    requires AllSound(Spans(ranges)) && AllSound(Extents(lines))
    requires Ascending(Spans(ranges)) && Ascending(Extents(lines))
    requires Recorded(ranges, lines, reporter, before, Found([], [], []), Memory(-1, null, -1))
    modifies reporter, Owners(ranges)
    ensures Stops(Spans(ranges), Extents(lines), stops) && |stops| <= 2 * (|ranges| + |lines|)
    ensures Shared(ranges, lines, out, MAX_ADDRESS) && HandedOver(ranges, before, out)
    ensures Warned(ranges, lines, before, reporter.uncoveredFunctions, reporter.uncoveredLines, memory, MAX_ADDRESS)
    ensures Layered(Spans(ranges)) && Layered(Extents(lines)) ==>
      && Exact(Spans(ranges), Extents(lines), found, MAX_ADDRESS)
      && found == NaiveSearch(Spans(ranges), Extents(lines))
      && Recorded(ranges, lines, reporter, before, found, memory)
  {
    hide Shared, HandedOver, Warned;
    stops, found, memory, out := SweepLoop(ranges, lines, reporter, before);
    StopsAreFew(Spans(ranges), Extents(lines), stops);
    if Layered(Spans(ranges)) && Layered(Extents(lines)) {
      PiecesAreAllPairs(Spans(ranges), Extents(lines), found.ps);
      GapsAreNaive(Spans(ranges), Extents(lines), found.bare, found.stray);
    }
  }

  lemma HandedNothing(ranges: seq<FunctionRange>, lines: seq<Line>, reporter: Reporter, before: Before)
    requires Recorded(ranges, lines, reporter, before, Found([], [], []), Memory(-1, null, -1))
    ensures HandedOver(ranges, before, [])
    ensures reporter.uncoveredFunctions == before.functions && reporter.uncoveredLines == before.lines
  {
  }

  lemma TrackedToEnd(rs: seq<Span>, ls: seq<Span>, c: int, found: Found)
    requires AllSound(rs) && AllSound(ls) && Tracked(rs, ls, |rs|, |ls|, c, found) && c < MAX_ADDRESS
    requires Positioned(rs, |rs|, c) && Positioned(ls, |ls|, c)
    ensures Exact(rs, ls, found, MAX_ADDRESS)
  {
    NothingLeft(rs, ls, c, MAX_ADDRESS, found.ps, found.bare, found.stray);
  }

  lemma PlaceInBounds(ss: seq<Span>, k: nat, c: int)
    requires Positioned(ss, k, c)
    ensures k <= |ss|
  {
  }

  lemma TrackedAtTop(rs: seq<Span>, ls: seq<Span>, found: Found)
    requires Tracked(rs, ls, 0, 0, MAX_ADDRESS, found)
    ensures Exact(rs, ls, found, MAX_ADDRESS)
  {
  }

  method SweepLoop(ranges: seq<FunctionRange>, lines: seq<Line>, reporter: Reporter, ghost before: Before)
    returns (ghost stops: seq<int>, ghost found: Found, memory: Memory, ghost out: seq<Handed>)
    requires AllSound(Spans(ranges)) && AllSound(Extents(lines))
    requires Ascending(Spans(ranges)) && Ascending(Extents(lines))
    requires Recorded(ranges, lines, reporter, before, Found([], [], []), Memory(-1, null, -1))
    modifies reporter, Owners(ranges)
    ensures Stops(Spans(ranges), Extents(lines), stops)
    ensures Shared(ranges, lines, out, MAX_ADDRESS) && HandedOver(ranges, before, out)
    ensures Warned(ranges, lines, before, reporter.uncoveredFunctions, reporter.uncoveredLines, memory, MAX_ADDRESS)
    ensures Layered(Spans(ranges)) && Layered(Extents(lines)) ==>
      && Exact(Spans(ranges), Extents(lines), found, MAX_ADDRESS)
      && Recorded(ranges, lines, reporter, before, found, memory)
  {
    ghost var rs, ls := Spans(ranges), Extents(lines);
    ghost var tidy := Layered(rs) && Layered(ls);
    hide Shared, HandedOver, Recorded, Tracked, Layered, Positioned, Endpoints, Warned;
    stops, found, out := [], Found([], [], []), [];
    memory := Memory(-1, null, -1);
    HandedNothing(ranges, lines, reporter, before);

    // An iterator at its end stands for the source's null pointer.
    var ri: nat, lj: nat := 0, 0;
    if ri == |ranges| && lj == |lines| {
      NothingYet(rs, ls, MAX_ADDRESS);
      SharedAtFirst(ranges, lines, MAX_ADDRESS);
      WarnedAtFirst(ranges, lines, before, MAX_ADDRESS);
      return;
    }
    var current := FirstTransition(ranges, lines);
    SharedAtFirst(ranges, lines, current);
    WarnedAtFirst(ranges, lines, before, current);
    if current == MAX_ADDRESS {
      TrackedAtTop(rs, ls, found);
      return;
    }

    while ri < |ranges| || lj < |lines|
      invariant current < MAX_ADDRESS
      invariant Positioned(rs, ri, current) && Positioned(ls, lj, current)
      invariant Stops(rs, ls, stops) && (stops != [] ==> stops[|stops| - 1] < current)
      invariant current in Endpoints(rs) + Endpoints(ls)
      invariant tidy ==> Tracked(rs, ls, ri, lj, current, found)
      invariant tidy ==> Recorded(ranges, lines, reporter, before, found, memory)
      invariant Shared(ranges, lines, out, current) && HandedOver(ranges, before, out)
      invariant Warned(ranges, lines, before, reporter.uncoveredFunctions, reporter.uncoveredLines, memory, current)
      decreases MODULUS - current
    {
      StopAdded(rs, ls, stops, current);
      stops := stops + [current];
      var more: bool;
      var next: Address;
      more, next, ri, lj, memory, found, out :=
        Iterate(ranges, lines, reporter, ri, lj, current, memory, before, found, out);
      if !more {
        return;
      }
      current := next;
    }
    PlaceInBounds(rs, ri, current);
    PlaceInBounds(ls, lj, current);
    SharedAtLast(ranges, lines, out, current);
    WarnedAtLast(ranges, lines, before, reporter.uncoveredFunctions, reporter.uncoveredLines, memory, current);
    if tidy {
      TrackedToEnd(rs, ls, current, found);
    }
  }
}
