/**
 AssignLinesToFunctions from unsorted input to finished functions, stated without reference to the
 order in which the sweep works.
 */
module LineAssignment {
  import opened Intervals
  import opened Symbols
  import opened Sorting
  import opened LineSweep

  // ----- The feeder: every nonempty range of every function

  function RangesOf(f: Function, k: nat): seq<FunctionRange>
    requires k <= |f.ranges|
  {
    if k == 0 then []
    else RangesOf(f, k - 1) + if f.ranges[k - 1].size != 0 then [FunctionRange(f.ranges[k - 1], f)] else []
  }

  function Collect(functions: seq<Function>, n: nat): seq<FunctionRange>
    requires n <= |functions|
  {
    if n == 0 then [] else Collect(functions, n - 1) + RangesOf(functions[n - 1], |functions[n - 1].ranges|)
  }

  lemma {:induction false} RangesOfMembers(f: Function, k: nat)
    requires k <= |f.ranges|
    ensures forall r :: r in RangesOf(f, k) <==> r.owner == f && r.extent.size != 0 && r.extent in f.ranges[..k]
  {
    if k > 0 {
      RangesOfMembers(f, k - 1);
      assert f.ranges[..k] == f.ranges[..k - 1] + [f.ranges[k - 1]];
    }
  }

  /** Collecting loses no nonempty range and invents none. */
  lemma {:induction false} CollectMembers(functions: seq<Function>, n: nat)
    requires n <= |functions|
    ensures forall r ::
      r in Collect(functions, n) <==> r.owner in functions[..n] && r.extent.size != 0 && r.extent in r.owner.ranges
  {
    if n > 0 {
      var f := functions[n - 1];
      CollectMembers(functions, n - 1);
      RangesOfMembers(f, |f.ranges|);
      assert f.ranges[..|f.ranges|] == f.ranges;
      assert functions[..n] == functions[..n - 1] + [f];
    }
  }

  lemma RangeIsOwn(f: Function, k: nat, r: FunctionRange)
    requires k <= |f.ranges| && r in RangesOf(f, k)
    ensures r.owner == f && r.extent.size != 0 && r.extent in f.ranges[..k] && r.extent in f.ranges
  {
    RangesOfMembers(f, k);
  }

  lemma RangeIsCollected(functions: seq<Function>, n: nat, r: FunctionRange)
    requires n <= |functions| && r in Collect(functions, n)
    ensures r.owner in functions[..n] && r.extent.size != 0 && r.extent in r.owner.ranges
  {
    CollectMembers(functions, n);
  }

  method FillSortedFunctionRanges(functions: seq<Function>) returns (sorted: seq<FunctionRange>)
    ensures multiset(sorted) == multiset(Collect(functions, |functions|))
    ensures Ascending(Spans(sorted))
  {
    var all: seq<FunctionRange> := [];
    for n := 0 to |functions|
      invariant all == Collect(functions, n)
    {
      var f := functions[n];
      ghost var start := all;
      for k := 0 to |f.ranges|
        invariant all == start + RangesOf(f, k)
      {
        if f.ranges[k].size != 0 {
          all := all + [FunctionRange(f.ranges[k], f)];
        }
      }
    }
    sorted := Sort(all, (r: FunctionRange) => r.extent.address);
    SortedIsAscending(sorted);
  }

  lemma SortedIsAscending(ranges: seq<FunctionRange>)
    requires SortedBy(ranges, (r: FunctionRange) => r.extent.address)
    ensures Ascending(Spans(ranges))
  {
    var key := (r: FunctionRange) => r.extent.address;
    forall i, j | 0 <= i < j < |ranges|
      ensures Spans(ranges)[i].address <= Spans(ranges)[j].address
    {
      assert key(ranges[i]) <= key(ranges[j]);
    }
  }

  lemma SortedLinesAscend(lines: seq<Line>)
    requires SortedBy(lines, (l: Line) => l.extent.address)
    ensures Ascending(Extents(lines))
  {
    var key := (l: Line) => l.extent.address;
    forall i, j | 0 <= i < j < |lines|
      ensures Extents(lines)[i].address <= Extents(lines)[j].address
    {
      assert key(lines[i]) <= key(lines[j]);
    }
  }

  // ----- What each function, and each warning list, must come to

  predicate PieceFor(r: Span, l: Line) {
    r.size != 0 && Meets(r, l.extent) && Start(r, l.extent) < MAX_ADDRESS
  }

  ghost predicate IsPieceOf(f: Function, lines: seq<Line>, p: Line) {
    exists r, l :: r in f.ranges && l in lines && PieceFor(r, l) && p == Cut(r, l)
  }

  /** `got` is every piece that falls to `f`, in address order, and nothing else. */
  ghost predicate FullShare(f: Function, lines: seq<Line>, got: seq<Line>) {
    && Climbing(got)
    && (forall p | p in got :: IsPieceOf(f, lines, p))
    && (forall r, l | r in f.ranges && l in lines && PieceFor(r, l) :: Cut(r, l) in got)
  }

  /** Some byte of `f` below the tombstone address is in no line. */
  ghost predicate Gapped(f: Function, lines: seq<Line>) {
    exists r, b: int :: r in f.ranges && BareByte(r, Extents(lines), b) && b < MAX_ADDRESS
  }

  /** Some byte of `l` below the tombstone address is in no range, and is not forgiven. */
  ghost predicate Stray(functions: seq<Function>, l: Line) {
    exists b: int :: StrayByte(Spans(Collect(functions, |functions|)), l.extent, b) && b < MAX_ADDRESS
  }

  /** The owners of the ranges with a byte below the tombstone address in no line, range by range. */
  ghost function GappedOwners(ranges: seq<FunctionRange>, lines: seq<Line>): seq<Function> {
    Pick(OwnerList(ranges), BareRanges(Spans(ranges), Extents(lines), |ranges|))
  }

  /** The warnings that the gapped ranges lead to: none for a range after one of the same function. */
  ghost function Citations(ranges: seq<FunctionRange>, lines: seq<Line>): seq<Function> {
    Runs<Function>(GappedOwners(ranges, lines))
  }

  /**
   What is reported: for functions, the gapped ranges in address order, one warning for each stretch of
   ranges of one function; for lines, the stray ones in address order.
   */
  ghost predicate RightWarnings(functions: seq<Function>, ranges: seq<FunctionRange>, lines: seq<Line>,
                                cited: seq<Function>, reported: seq<Line>) {
    && cited == Citations(ranges, lines)
    && (forall f | f in cited :: f in functions)
    && (forall f | f in functions :: f in cited <==> Gapped(f, lines))
    && Climbing(reported)
    && (forall l | l in reported :: l in lines)
    && (forall l | l in lines :: l in reported <==> Stray(functions, l))
  }

  /** The ranges are those of the functions, whatever their order. */
  ghost predicate RangesOfAll(ranges: seq<FunctionRange>, functions: seq<Function>) {
    && (forall r | r in ranges :: r.owner in functions && r.extent.size != 0 && r.extent in r.owner.ranges)
    && (forall f, s | f in functions && s in f.ranges && s.size != 0 :: FunctionRange(s, f) in ranges)
  }

  lemma {:induction false} LinesOfMembers(f: Function, ranges: seq<FunctionRange>, lines: seq<Line>, ps: seq<Pair>)
    ensures forall l | l in LinesOf(f, ranges, lines, ps) ::
      exists k :: 0 <= k < |ps| && l in LineOf(f, ranges, lines, ps[k])
    ensures forall k, l | 0 <= k < |ps| && l in LineOf(f, ranges, lines, ps[k]) :: l in LinesOf(f, ranges, lines, ps)
  {
    if ps != [] {
      var ps' := ps[..|ps| - 1];
      LinesOfMembers(f, ranges, lines, ps');
      forall l | l in LinesOf(f, ranges, lines, ps)
        ensures exists k :: 0 <= k < |ps| && l in LineOf(f, ranges, lines, ps[k])
      {
        if l in LinesOf(f, ranges, lines, ps') {
          var k :| 0 <= k < |ps'| && l in LineOf(f, ranges, lines, ps'[k]);
          assert ps[k] == ps'[k];
        } else {
          assert l in LineOf(f, ranges, lines, ps[|ps| - 1]);
        }
      }
      forall k, l | 0 <= k < |ps| && l in LineOf(f, ranges, lines, ps[k])
        ensures l in LinesOf(f, ranges, lines, ps)
      {
        if k < |ps'| {
          assert ps'[k] == ps[k];
        }
      }
    }
  }

  ghost predicate Climbing(got: seq<Line>) {
    forall i, j | 0 <= i < j < |got| :: got[i].extent.address < got[j].extent.address
  }

  lemma {:induction false} LinesOfAscend(f: Function, ranges: seq<FunctionRange>, lines: seq<Line>, ps: seq<Pair>)
    requires InOrder(Spans(ranges), Extents(lines), ps)
    ensures Climbing(LinesOf(f, ranges, lines, ps))
  {
    if ps != [] {
      var ps' := ps[..|ps| - 1];
      LinesOfAscend(f, ranges, lines, ps');
      LinesOfMembers(f, ranges, lines, ps');
      var before, last := LinesOf(f, ranges, lines, ps'), LineOf(f, ranges, lines, ps[|ps| - 1]);
      forall l | l in before && last != []
        ensures l.extent.address < last[0].extent.address
      {
        var k :| 0 <= k < |ps'| && l in LineOf(f, ranges, lines, ps'[k]);
        assert ps[k] == ps'[k];
        assert StartOf(Spans(ranges), Extents(lines), ps[k]) < StartOf(Spans(ranges), Extents(lines), ps[|ps| - 1]);
      }
      if last != [] {
        ClimbingSnoc(before, last[0]);
      }
    }
  }

  lemma ClimbingSnoc(got: seq<Line>, l: Line)
    requires Climbing(got) && forall k | k in got :: k.extent.address < l.extent.address
    ensures Climbing(got + [l])
  {
    assert forall i | 0 <= i < |got| :: got[i] in got;
  }

  lemma ShareIsFull(f: Function, functions: seq<Function>, ranges: seq<FunctionRange>, lines: seq<Line>, ps: seq<Pair>)
    requires f in functions && RangesOfAll(ranges, functions)
    requires PiecesBelow(Spans(ranges), Extents(lines), ps, MAX_ADDRESS)
    ensures FullShare(f, lines, LinesOf(f, ranges, lines, ps))
  {
    var got := LinesOf(f, ranges, lines, ps);
    LinesOfAscend(f, ranges, lines, ps);
    LinesOfMembers(f, ranges, lines, ps);
    forall p | p in got
      ensures IsPieceOf(f, lines, p)
    {
      var k :| 0 <= k < |ps| && p in LineOf(f, ranges, lines, ps[k]);
      var (i, j) := ps[k];
      assert ranges[i] in ranges && lines[j] in lines;
      assert PieceFor(ranges[i].extent, lines[j]) && p == Cut(ranges[i].extent, lines[j]);
    }
    forall r, l | r in f.ranges && l in lines && PieceFor(r, l)
      ensures Cut(r, l) in got
    {
      assert FunctionRange(r, f) in ranges;
      var i :| 0 <= i < |ranges| && ranges[i] == FunctionRange(r, f);
      var j :| 0 <= j < |lines| && lines[j] == l;
      assert PieceBelow(Spans(ranges), Extents(lines), MAX_ADDRESS, (i, j));
      var k :| 0 <= k < |ps| && ps[k] == (i, j);
      assert Cut(r, l) in LineOf(f, ranges, lines, ps[k]);
    }
  }

  lemma PickMembers<T>(s: seq<T>, ks: seq<nat>)
    requires forall k | k in ks :: k < |s|
    ensures forall k | k in ks :: s[k] in Pick(s, ks)
    ensures forall x | x in Pick(s, ks) :: x in s
  {
    forall k | k in ks
      ensures s[k] in Pick(s, ks)
    {
      var n := At(ks, k);
      assert Pick(s, ks)[n] == s[k];
    }
    forall x | x in Pick(s, ks)
      ensures x in s
    {
      var k := PickedFrom(s, ks, x);
    }
  }

  lemma PickedFrom<T>(s: seq<T>, ks: seq<nat>, x: T) returns (k: nat)
    requires forall k | k in ks :: k < |s|
    requires x in Pick(s, ks)
    ensures k in ks && s[k] == x
  {
    var n := At(Pick(s, ks), x);
    k := ks[n];
  }

  lemma SameSpans(ss: seq<Span>, tt: seq<Span>, l: Span, b: int)
    requires forall s | s in ss :: s in tt
    requires forall t | t in tt :: t in ss
    ensures StrayByte(ss, l, b) <==> StrayByte(tt, l, b)
  {
    OneWay(ss, tt, l, b);
    OneWay(tt, ss, l, b);
  }

  lemma OneWay(ss: seq<Span>, tt: seq<Span>, l: Span, b: int)
    requires forall s | s in ss :: s in tt
    requires forall t | t in tt :: t in ss
    ensures Covers(ss, b) ==> Covers(tt, b)
    ensures Forgiven(ss, l, b) ==> Forgiven(tt, l, b)
  {
    if Covers(ss, b) {
      var i :| 0 <= i < |ss| && ss[i].address <= b < End(ss[i]);
      assert ss[i] in ss;
      var j := At(tt, ss[i]);
    }
    if Forgiven(ss, l, b) {
      var u :| 0 <= u < |ss| && Meets(ss[u], l);
      var e :| 0 <= e < |ss| && ss[e].address == End(l);
      assert ss[u] in ss && ss[e] in ss;
      var u' := At(tt, ss[u]);
      var e' := At(tt, ss[e]);
      forall k | 0 <= k < |tt|
        ensures !(b < tt[k].address < End(l))
      {
        assert tt[k] in tt;
        var k' := At(ss, tt[k]);
      }
    }
  }

  lemma SpanIn(ranges: seq<FunctionRange>, r: FunctionRange)
    requires r in ranges
    ensures r.extent in Spans(ranges)
  {
    var i := At(ranges, r);
    assert Spans(ranges)[i] == r.extent;
  }

  lemma SpanFrom(ranges: seq<FunctionRange>, s: Span) returns (r: FunctionRange)
    requires s in Spans(ranges)
    ensures r in ranges && r.extent == s
  {
    var i := At(Spans(ranges), s);
    r := ranges[i];
  }

  lemma SpansOfAll(ranges: seq<FunctionRange>, functions: seq<Function>)
    requires RangesOfAll(ranges, functions)
    ensures forall s | s in Spans(ranges) :: s in Spans(Collect(functions, |functions|))
    ensures forall s | s in Spans(Collect(functions, |functions|)) :: s in Spans(ranges)
  {
    var all := Collect(functions, |functions|);
    assert functions[..|functions|] == functions;
    forall s | s in Spans(ranges)
      ensures s in Spans(all)
    {
      var r := SpanFrom(ranges, s);
      CollectMembers(functions, |functions|);
      SpanIn(all, r);
    }
    forall s | s in Spans(all)
      ensures s in Spans(ranges)
    {
      var r := SpanFrom(all, s);
      RangeIsCollected(functions, |functions|, r);
      assert FunctionRange(r.extent, r.owner) in ranges;
      SpanIn(ranges, r);
    }
  }

  lemma CitedFunctionsRight(functions: seq<Function>, ranges: seq<FunctionRange>, lines: seq<Line>, bare: seq<nat>)
    requires RangesOfAll(ranges, functions)
    requires BareListed(Spans(ranges), Extents(lines), bare, MAX_ADDRESS)
    ensures var cited := Runs<Function>(Pick(OwnerList(ranges), bare));
      && (forall f | f in cited :: f in functions)
      && (forall f | f in functions :: f in cited <==> Gapped(f, lines))
  {
    var cited := Runs<Function>(Pick(OwnerList(ranges), bare));
    RunsProperties(Pick(OwnerList(ranges), bare));
    PickMembers(OwnerList(ranges), bare);
    forall f | f in cited
      ensures f in functions && Gapped(f, lines)
    {
      RunsMember(Pick(OwnerList(ranges), bare), f);
      var k := PickedFrom(OwnerList(ranges), bare, f);
      assert ranges[k] in ranges;
      assert BareBelow(Spans(ranges), Extents(lines), k, MAX_ADDRESS);
    }
    forall f | f in functions && Gapped(f, lines)
      ensures f in cited
    {
      var r, b: int :| r in f.ranges && BareByte(r, Extents(lines), b) && b < MAX_ADDRESS;
      assert FunctionRange(r, f) in ranges;
      var i := At(ranges, FunctionRange(r, f));
      assert BareByte(Spans(ranges)[i], Extents(lines), b);
      assert i in bare && OwnerList(ranges)[i] == f;
    }
  }

  lemma StrayMeansStray(functions: seq<Function>, ranges: seq<FunctionRange>, lines: seq<Line>, k: nat)
    requires RangesOfAll(ranges, functions) && k < |lines|
    ensures StrayBelow(Spans(ranges), Extents(lines), k, MAX_ADDRESS) <==> Stray(functions, lines[k])
  {
    SpansOfAll(ranges, functions);
    var here, all := Spans(ranges), Spans(Collect(functions, |functions|));
    if StrayBelow(here, Extents(lines), k, MAX_ADDRESS) {
      var b: int :| StrayByte(here, Extents(lines)[k], b) && b < MAX_ADDRESS;
      SameSpans(here, all, lines[k].extent, b);
    }
    if Stray(functions, lines[k]) {
      var b: int :| StrayByte(all, lines[k].extent, b) && b < MAX_ADDRESS;
      SameSpans(here, all, lines[k].extent, b);
      assert StrayByte(here, Extents(lines)[k], b);
    }
  }

  lemma ReportedLinesRight(functions: seq<Function>, ranges: seq<FunctionRange>, lines: seq<Line>, stray: seq<nat>)
    requires RangesOfAll(ranges, functions)
    requires AllSound(Extents(lines)) && Layered(Extents(lines))
    requires StrayListed(Spans(ranges), Extents(lines), stray, MAX_ADDRESS)
    ensures var reported := Pick(lines, stray);
      && Climbing(reported)
      && (forall l | l in reported :: l in lines)
      && (forall l | l in lines :: l in reported <==> Stray(functions, l))
  {
    var reported := Pick(lines, stray);
    PickMembers(lines, stray);
    PickedLinesClimb(lines, stray);
    forall l | l in lines
      ensures l in reported <==> Stray(functions, l)
    {
      if l in reported {
        var k := PickedFrom(lines, stray, l);
        StrayMeansStray(functions, ranges, lines, k);
      }
      if Stray(functions, l) {
        var k := At(lines, l);
        StrayMeansStray(functions, ranges, lines, k);
        assert k in stray;
      }
    }
  }

  lemma PickedLinesClimb(lines: seq<Line>, stray: seq<nat>)
    requires AllSound(Extents(lines)) && Layered(Extents(lines)) && Increasing(stray)
    requires forall k | k in stray :: k < |lines|
    ensures Climbing(Pick(lines, stray))
  {
    var reported := Pick(lines, stray);
    forall i, j | 0 <= i < j < |reported|
      ensures reported[i].extent.address < reported[j].extent.address
    {
      assert stray[i] in stray && stray[j] in stray;
      LayeredOrder(Extents(lines), stray[i], stray[j]);
      assert Sound(Extents(lines)[stray[i]]);
    }
  }

  // ----- Disjointness of unsorted input

  ghost predicate DisjointRanges(functions: seq<Function>) {
    && (forall i, j | 0 <= i < j < |functions| :: functions[i] != functions[j])
    && (forall f | f in functions :: OwnApart(f))
    && (forall f, g | f in functions && g in functions && f != g :: EachApart(f, g))
  }

  ghost predicate OwnApart(f: Function) {
    forall a, b | 0 <= a < b < |f.ranges| && f.ranges[a].size != 0 && f.ranges[b].size != 0 ::
      Apart(f.ranges[a], f.ranges[b])
  }

  ghost predicate EachApart(f: Function, g: Function) {
    forall r, s | r in f.ranges && s in g.ranges && r.size != 0 && s.size != 0 :: Apart(r, s)
  }

  lemma ApartJoin(a: seq<FunctionRange>, b: seq<FunctionRange>)
    requires PairwiseApart(Spans(a)) && PairwiseApart(Spans(b))
    requires forall i, j | 0 <= i < |a| && 0 <= j < |b| :: Apart(a[i].extent, b[j].extent)
    ensures PairwiseApart(Spans(a + b))
  {
    var ss, sa, sb := Spans(a + b), Spans(a), Spans(b);
    forall i, j | 0 <= i < j < |ss|
      ensures Apart(ss[i], ss[j])
    {
      assert i < |a| ==> ss[i] == sa[i] && ss[i] == a[i].extent;
      assert j < |a| ==> ss[j] == sa[j];
      assert |a| <= i ==> ss[i] == sb[i - |a|];
      assert |a| <= j ==> ss[j] == sb[j - |a|] && ss[j] == b[j - |a|].extent;
    }
  }

  lemma {:induction false} OwnRangesApart(f: Function, k: nat)
    requires k <= |f.ranges| && OwnApart(f)
    ensures PairwiseApart(Spans(RangesOf(f, k)))
  {
    if k > 0 {
      OwnRangesApart(f, k - 1);
      var before := RangesOf(f, k - 1);
      RangesOfMembers(f, k - 1);
      forall i | 0 <= i < |before| && f.ranges[k - 1].size != 0
        ensures Apart(before[i].extent, f.ranges[k - 1])
      {
        RangeIsOwn(f, k - 1, before[i]);
        var a := At(f.ranges[..k - 1], before[i].extent);
      }
      if f.ranges[k - 1].size != 0 {
        ApartJoin(before, [FunctionRange(f.ranges[k - 1], f)]);
      } else {
        assert RangesOf(f, k) == before;
      }
    }
  }

  lemma AcrossFunctions(functions: seq<Function>, n: nat, r: FunctionRange, s: FunctionRange)
    requires n < |functions| && DisjointRanges(functions)
    requires r in Collect(functions, n) && s in RangesOf(functions[n], |functions[n].ranges|)
    ensures Apart(r.extent, s.extent)
  {
    RangeIsCollected(functions, n, r);
    RangeIsOwn(functions[n], |functions[n].ranges|, s);
    var a := At(functions[..n], r.owner);
    assert functions[a] != functions[n];
    assert EachApart(functions[a], functions[n]);
  }

  lemma {:induction false} CollectedApart(functions: seq<Function>, n: nat)
    requires n <= |functions| && DisjointRanges(functions)
    ensures PairwiseApart(Spans(Collect(functions, n)))
  {
    if n > 0 {
      var f := functions[n - 1];
      CollectedApart(functions, n - 1);
      OwnRangesApart(f, |f.ranges|);
      var before, own := Collect(functions, n - 1), RangesOf(f, |f.ranges|);
      forall i, j | 0 <= i < |before| && 0 <= j < |own|
        ensures Apart(before[i].extent, own[j].extent)
      {
        AcrossFunctions(functions, n - 1, before[i], own[j]);
      }
      ApartJoin(before, own);
    }
  }

  // ----- Sorting keeps what the sweep needs

  ghost predicate NoRangeWraps(functions: seq<Function>) {
    forall f, r | f in functions && r in f.ranges :: End(r) <= MODULUS
  }

  lemma ResortedLines(before: seq<Line>, after: seq<Line>)
    requires multiset(before) == multiset(after) && SortedBy(after, (l: Line) => l.extent.address)
    requires AllSound(Extents(before))
    ensures AllSound(Extents(after)) && Ascending(Extents(after))
    ensures PairwiseApart(Extents(before)) ==> Layered(Extents(after))
  {
    SortedLinesAscend(after);
    forall i | 0 <= i < |after|
      ensures Sound(Extents(after)[i])
    {
      SameMembers(before, after, after[i]);
      var k := At(before, after[i]);
      assert Sound(Extents(before)[k]);
    }
    if PairwiseApart(Extents(before)) {
      var apart := (l: Line, m: Line) => Apart(l.extent, m.extent);
      forall i, j | 0 <= i < j < |before|
        ensures apart(before[i], before[j]) && apart(before[j], before[i])
      {
        assert Apart(Extents(before)[i], Extents(before)[j]);
      }
      Rearranged(before, after, apart);
      forall i, j | 0 <= i < j < |after|
        ensures Apart(Extents(after)[i], Extents(after)[j])
      {
        assert apart(after[i], after[j]);
      }
      SortedApartIsLayered(Extents(after));
    }
  }

  lemma ResortedFunctions(before: seq<Function>, after: seq<Function>)
    requires multiset(before) == multiset(after)
    ensures forall f :: f in before <==> f in after
    ensures NoRangeWraps(before) ==> NoRangeWraps(after)
    ensures DisjointRanges(before) ==> DisjointRanges(after)
  {
    forall f
      ensures f in before <==> f in after
    {
      SameMembers(before, after, f);
    }
    if DisjointRanges(before) {
      var apart := (f: Function, g: Function) => f != g;
      Rearranged(before, after, apart);
      assert forall i, j | 0 <= i < j < |after| :: apart(after[i], after[j]);
    }
  }

  lemma CollectedAndSorted(functions: seq<Function>, sorted: seq<FunctionRange>)
    requires NoRangeWraps(functions)
    requires multiset(sorted) == multiset(Collect(functions, |functions|)) && Ascending(Spans(sorted))
    ensures AllSound(Spans(sorted)) && RangesOfAll(sorted, functions)
    ensures |sorted| == |Collect(functions, |functions|)|
    ensures DisjointRanges(functions) ==> Layered(Spans(sorted))
  {
    var all := Collect(functions, |functions|);
    assert |multiset(sorted)| == |multiset(all)|;
    assert functions[..|functions|] == functions;
    CollectMembers(functions, |functions|);
    forall r
      ensures r in sorted <==> r in all
    {
      SameMembers(sorted, all, r);
    }
    forall i | 0 <= i < |sorted|
      ensures Sound(Spans(sorted)[i])
    {
      assert sorted[i] in sorted;
    }
    if DisjointRanges(functions) {
      CollectedApart(functions, |functions|);
      RearrangedRanges(all, sorted);
      SortedApartIsLayered(Spans(sorted));
    }
  }

  lemma RearrangedRanges(all: seq<FunctionRange>, sorted: seq<FunctionRange>)
    requires multiset(sorted) == multiset(all) && PairwiseApart(Spans(all))
    ensures PairwiseApart(Spans(sorted))
  {
    var apart := (r: FunctionRange, s: FunctionRange) => Apart(r.extent, s.extent);
    forall i, j | 0 <= i < j < |all|
      ensures apart(all[i], all[j]) && apart(all[j], all[i])
    {
      assert Apart(Spans(all)[i], Spans(all)[j]);
    }
    Rearranged(all, sorted, apart);
    forall i, j | 0 <= i < j < |sorted|
      ensures Apart(Spans(sorted)[i], Spans(sorted)[j])
    {
      assert apart(sorted[i], sorted[j]);
    }
  }

  lemma {:induction false} NoRangeNoLines(f: Function, ranges: seq<FunctionRange>, lines: seq<Line>, ps: seq<Pair>)
    requires f !in Owners(ranges)
    ensures LinesOf(f, ranges, lines, ps) == []
  {
    if ps != [] {
      NoRangeNoLines(f, ranges, lines, ps[..|ps| - 1]);
    }
  }

  /** What the found pieces and gaps mean for the functions. */
  lemma Outcome(functions: seq<Function>, sorted: seq<FunctionRange>, lines: seq<Line>, found: Found)
    requires RangesOfAll(sorted, functions)
    requires AllSound(Extents(lines)) && Layered(Extents(lines))
    requires Exact(Spans(sorted), Extents(lines), found, MAX_ADDRESS)
    requires found.bare == BareRanges(Spans(sorted), Extents(lines), |sorted|)
    ensures forall f | f in functions :: FullShare(f, lines, LinesOf(f, sorted, lines, found.ps))
    ensures forall f | f !in Owners(sorted) :: LinesOf(f, sorted, lines, found.ps) == []
    ensures RightWarnings(functions, sorted, lines, Runs<Function>(Pick(OwnerList(sorted), found.bare)),
                          Pick(lines, found.stray))
  {
    forall f | f in functions
      ensures FullShare(f, lines, LinesOf(f, sorted, lines, found.ps))
    {
      ShareIsFull(f, functions, sorted, lines, found.ps);
    }
    forall f | f !in Owners(sorted)
      ensures LinesOf(f, sorted, lines, found.ps) == []
    {
      NoRangeNoLines(f, sorted, lines, found.ps);
    }
    CitedFunctionsRight(functions, sorted, lines, found.bare);
    ReportedLinesRight(functions, sorted, lines, found.stray);
  }

  // ----- How often a function is cited

  ghost predicate GapAt(ranges: seq<FunctionRange>, lines: seq<Line>, i: nat)
    requires i < |ranges|
  {
    BareBelow(Spans(ranges), Extents(lines), i, MAX_ADDRESS)
  }

  /** In address order, no gapped range of another function lies between two gapped ranges of `f`. */
  ghost predicate Uninterrupted(ranges: seq<FunctionRange>, lines: seq<Line>, f: Function) {
    forall i: nat, j: nat, k: nat | i < j < k < |ranges|
      && GapAt(ranges, lines, i) && GapAt(ranges, lines, j) && GapAt(ranges, lines, k)
      && ranges[i].owner == f && ranges[k].owner == f :: ranges[j].owner == f
  }

  ghost predicate UnbrokenAmong<T>(s: seq<T>, ks: seq<nat>, x: T)
    requires forall k | k in ks :: k < |s|
  {
    forall i, j, k | i in ks && j in ks && k in ks && i < j < k && s[i] == x && s[k] == x :: s[j] == x
  }

  lemma PickedUnbroken<T>(s: seq<T>, ks: seq<nat>, x: T)
    requires Increasing(ks) && forall k | k in ks :: k < |s|
    ensures Unbroken(Pick(s, ks), x) <==> UnbrokenAmong(s, ks, x)
  {
    var p := Pick(s, ks);
    if UnbrokenAmong(s, ks, x) {
      forall a, b, c | 0 <= a < b < c < |p| && p[a] == x && p[c] == x
        ensures p[b] == x
      {
        assert ks[a] in ks && ks[b] in ks && ks[c] in ks;
      }
    }
    if Unbroken(p, x) {
      forall i, j, k | i in ks && j in ks && k in ks && i < j < k && s[i] == x && s[k] == x
        ensures s[j] == x
      {
        var a := At(ks, i);
        var b := At(ks, j);
        var c := At(ks, k);
        assert a < b < c && p[a] == x && p[c] == x && p[b] == s[j];
      }
    }
  }

  lemma PickedOnceIff<T>(s: seq<T>, ks: seq<nat>, x: T)
    requires Increasing(ks) && forall k | k in ks :: k < |s|
    ensures multiset(Runs(Pick(s, ks)))[x] <= 1 <==> UnbrokenAmong(s, ks, x)
  {
    RunsOnceIff(Pick(s, ks), x);
    PickedUnbroken(s, ks, x);
  }

  lemma AmongGaps(ranges: seq<FunctionRange>, lines: seq<Line>, ks: seq<nat>, f: Function)
    requires forall k | k in ks :: k < |ranges|
    requires forall i: nat | i < |ranges| :: i in ks <==> GapAt(ranges, lines, i)
    ensures UnbrokenAmong<Function>(OwnerList(ranges), ks, f) <==> Uninterrupted(ranges, lines, f)
  {
    hide GapAt;
    var owners := OwnerList(ranges);
    if UnbrokenAmong<Function>(owners, ks, f) {
      forall i: nat, j: nat, k: nat | i < j < k < |ranges|
        && GapAt(ranges, lines, i) && GapAt(ranges, lines, j) && GapAt(ranges, lines, k)
        && ranges[i].owner == f && ranges[k].owner == f
        ensures ranges[j].owner == f
      {
        assert owners[i] == f && owners[k] == f && owners[j] == ranges[j].owner;
      }
    }
    if Uninterrupted(ranges, lines, f) {
      forall i, j, k | i in ks && j in ks && k in ks && i < j < k && owners[i] == f && owners[k] == f
        ensures owners[j] == f
      {
        assert GapAt(ranges, lines, i) && GapAt(ranges, lines, j) && GapAt(ranges, lines, k);
      }
    }
  }

  /** A function is cited at most once exactly when its gaps are not interrupted by those of another. */
  lemma CitedOnceIff(ranges: seq<FunctionRange>, lines: seq<Line>, f: Function)
    ensures multiset(Citations(ranges, lines))[f] <= 1 <==> Uninterrupted(ranges, lines, f)
  {
    hide BareRanges, Unbroken, UnbrokenAmong, Uninterrupted;
    var ks := BareRanges(Spans(ranges), Extents(lines), |ranges|);
    BareRangesExact(Spans(ranges), Extents(lines), |ranges|);
    PickedOnceIff<Function>(OwnerList(ranges), ks, f);
    AmongGaps(ranges, lines, ks, f);
  }

  lemma SpansCount(ranges: seq<FunctionRange>)
    ensures |Spans(ranges)| == |ranges|
  {
  }

  /** Two ranges of one function around a range of another, and no line anywhere. */
  ghost predicate Interleaved(f: Function, g: Function) {
    f != g && f.ranges == [Span(100, 10), Span(300, 10)] && g.ranges == [Span(200, 10)]
  }

  function Of(address: Address, f: Function): FunctionRange { FunctionRange(Span(address, 10), f) }

  lemma InterleavedRanges(f: Function, g: Function)
    requires Interleaved(f, g)
    ensures Collect([f, g], 2) == [Of(100, f), Of(300, f), Of(200, g)]
    ensures Collect([g, f], 2) == [Of(200, g), Of(100, f), Of(300, f)]
  {
    assert RangesOf(f, 1) == [Of(100, f)];
    assert RangesOf(f, 2) == [Of(100, f), Of(300, f)];
    assert RangesOf(g, 1) == [Of(200, g)];
    assert Collect([f, g], 1) == [Of(100, f), Of(300, f)];
    assert Collect([g, f], 1) == [Of(200, g)];
  }

  lemma ThreeInOrder(ranges: seq<FunctionRange>, a: FunctionRange, b: FunctionRange, c: FunctionRange)
    requires multiset(ranges) == multiset{a, b, c} && Ascending(Spans(ranges))
    requires a.extent.address < b.extent.address < c.extent.address
    ensures ranges == [a, b, c]
  {
    assert |multiset(ranges)| == 3;
    assert ranges == [ranges[0], ranges[1], ranges[2]];
    assert ranges[0] in multiset(ranges) && ranges[1] in multiset(ranges) && ranges[2] in multiset(ranges);
    assert Spans(ranges)[0].address <= Spans(ranges)[1].address <= Spans(ranges)[2].address;
  }

  lemma GapsOfThree(a: FunctionRange, b: FunctionRange, c: FunctionRange)
    requires a.extent == Span(100, 10) && b.extent == Span(200, 10) && c.extent == Span(300, 10)
    ensures GappedOwners([a, b, c], []) == [a.owner, b.owner, c.owner]
  {
    var rs, ls := Spans([a, b, c]), Extents([]);
    assert BareByte(rs[0], ls, 100) && BareByte(rs[1], ls, 200) && BareByte(rs[2], ls, 300);
    assert BareBelow(rs, ls, 0, MAX_ADDRESS) && BareBelow(rs, ls, 1, MAX_ADDRESS) && BareBelow(rs, ls, 2, MAX_ADDRESS);
    assert BareRanges(rs, ls, 1) == [0];
    assert BareRanges(rs, ls, 2) == [0, 1];
    assert BareRanges(rs, ls, 3) == [0, 1, 2];
  }

  /** The function around the other is cited twice, once for each of its ranges. */
  lemma CitedTwice(f: Function, g: Function, ranges: seq<FunctionRange>)
    requires Interleaved(f, g) && Ascending(Spans(ranges))
    requires multiset(ranges) == multiset(Collect([f, g], 2)) || multiset(ranges) == multiset(Collect([g, f], 2))
    ensures Citations(ranges, []) == [f, g, f]
  {
    hide Collect, GappedOwners, Ascending;
    InterleavedRanges(f, g);
    ThreeInOrder(ranges, Of(100, f), Of(200, g), Of(300, f));
    GapsOfThree(Of(100, f), Of(200, g), Of(300, f));
    assert [f, g, f][..2] == [f, g];
    assert Runs<Function>([f, g]) == [f, g];
  }

  // ----- The whole of AssignLinesToFunctions

  /** What the sweep may change. */
  ghost function Snapshot(functions: seq<Function>, reporter: Reporter): Before
    reads functions, reporter
  {
    Before(map f | f in functions :: f.lines, reporter.uncoveredFunctions, reporter.uncoveredLines)
  }

  /** Every function has its full share behind what it had, and exactly the right warnings were added. */
  ghost predicate Delivered(functions: seq<Function>, ranges: seq<FunctionRange>, lines: seq<Line>,
                            reporter: Reporter, before: Before)
    reads functions, reporter
  {
    && (forall f | f in functions ::
          f in before.given && before.given[f] <= f.lines && FullShare(f, lines, f.lines[|before.given[f]|..]))
    && before.functions <= reporter.uncoveredFunctions
    && before.lines <= reporter.uncoveredLines
    && RightWarnings(functions, ranges, lines, reporter.uncoveredFunctions[|before.functions|..],
                     reporter.uncoveredLines[|before.lines|..])
  }

  lemma NothingRecorded(ranges: seq<FunctionRange>, lines: seq<Line>, reporter: Reporter, before: Before)
    requires forall f | f in Owners(ranges) :: f in before.given && before.given[f] == f.lines
    requires before.functions == reporter.uncoveredFunctions && before.lines == reporter.uncoveredLines
    ensures Recorded(ranges, lines, reporter, before, Found([], [], []), Memory(-1, null, -1))
  {
  }

  lemma SweepDelivers(functions: seq<Function>, ranges: seq<FunctionRange>, lines: seq<Line>, reporter: Reporter,
                      before: Before, found: Found, memory: Memory)
    requires RangesOfAll(ranges, functions) && AllSound(Extents(lines)) && Layered(Extents(lines))
    requires Exact(Spans(ranges), Extents(lines), found, MAX_ADDRESS)
    requires found == NaiveSearch(Spans(ranges), Extents(lines))
    requires Recorded(ranges, lines, reporter, before, found, memory)
    requires forall f | f in functions :: f in before.given && (f !in Owners(ranges) ==> f.lines == before.given[f])
    ensures Delivered(functions, ranges, lines, reporter, before)
  {
    hide Exact, RangesOfAll, FullShare, RightWarnings, Layered;
    SpansCount(ranges);
    Outcome(functions, ranges, lines, found);
    forall f | f in functions
      ensures before.given[f] <= f.lines && FullShare(f, lines, f.lines[|before.given[f]|..])
    {
      var got := LinesOf(f, ranges, lines, found.ps);
      assert f.lines == before.given[f] + got;
      assert f.lines[|before.given[f]|..] == got;
    }
    var cited, reported := Citations(ranges, lines), Pick(lines, found.stray);
    assert reporter.uncoveredFunctions[|before.functions|..] == cited;
    assert reporter.uncoveredLines[|before.lines|..] == reported;
  }

  /** A function without ranges gets nothing, and the others what is handed to them. */
  lemma HandedToAll(functions: seq<Function>, ranges: seq<FunctionRange>, lines: seq<Line>, before: Before,
                    out: seq<Handed>)
    requires Shared(ranges, lines, out, MAX_ADDRESS) && HandedOver(ranges, before, out)
    requires forall f | f in functions :: f in before.given && (f !in Owners(ranges) ==> f.lines == before.given[f])
    ensures forall f | f in functions :: f.lines == before.given[f] + LinesFor(f, out)
  {
    forall f | f in functions && f !in Owners(ranges)
      ensures LinesFor(f, out) == []
    {
      forall k | 0 <= k < |out|
        ensures out[k].owner != f
      {
        assert Fragment(ranges, lines, out[k]);
      }
      NothingFor(f, out);
    }
  }

  lemma {:induction false} NothingFor(f: Function, out: seq<Handed>)
    requires forall k | 0 <= k < |out| :: out[k].owner != f
    ensures LinesFor(f, out) == []
  {
    if out != [] {
      NothingFor(f, out[..|out| - 1]);
    }
  }

  class DwarfCUToModule {
    var functions: seq<Function>
    var lines: seq<Line>
    const reporter: Reporter

    constructor (functions: seq<Function>, lines: seq<Line>, reporter: Reporter)
      ensures this.functions == functions && this.lines == lines && this.reporter == reporter
    {
      this.functions, this.lines, this.reporter := functions, lines, reporter;
    }

    method AssignLinesToFunctions()
      returns (ghost stops: seq<int>, ghost sorted: seq<FunctionRange>, ghost out: seq<Handed>)
      requires AllSound(Extents(lines)) && NoRangeWraps(functions)
      modifies this, reporter, set f | f in functions
      ensures multiset(functions) == old(multiset(functions)) && SortedBy(functions, (f: Function) => f.address)
      ensures multiset(lines) == old(multiset(lines)) && Ascending(Extents(lines))
      // No hang: at most two stops for each nonempty range and each line, whatever overlaps.
      ensures |stops| <= 2 * (|Collect(functions, |functions|)| + |lines|)
      // The nonempty ranges in the order of the sweep.
      ensures multiset(sorted) == multiset(Collect(functions, |functions|)) && Ascending(Spans(sorted))
      // Whatever overlaps: every byte in a range and in a line goes out once, to the owner of such a range.
      ensures Shared(sorted, lines, out, MAX_ADDRESS)
      ensures forall f | f in functions :: f in old(functions) && f.lines == old(f.lines) + LinesFor(f, out)
      // Whatever overlaps: warnings are only given for bytes in a range or line alone, and for each of these.
      ensures old(reporter.uncoveredFunctions) <= reporter.uncoveredFunctions
      ensures CitedRight(sorted, lines, reporter.uncoveredFunctions[|old(reporter.uncoveredFunctions)|..], MAX_ADDRESS)
      ensures old(reporter.uncoveredLines) <= reporter.uncoveredLines
      ensures ReportedRight(sorted, lines, reporter.uncoveredLines[|old(reporter.uncoveredLines)|..], MAX_ADDRESS)
      ensures old(DisjointRanges(functions) && PairwiseApart(Extents(lines))) ==>
        Delivered(functions, sorted, lines, reporter, old(Snapshot(functions, reporter)))
    {
      hide DisjointRanges, PairwiseApart, Layered, AllSound, Ascending, NaiveSearch, Exact, Recorded, RangesOfAll,
        Shared, HandedOver, LinesFor, CitedRight, ReportedRight;
      var all := SortEverything();
      sorted := all;
      ghost var before := old(Snapshot(functions, reporter));
      NothingRecorded(all, lines, reporter, before);
      ghost var found: Found;
      var memory: Memory;
      stops, found, memory, out := Sweep(all, lines, reporter, before);
      HandedToAll(functions, all, lines, before, out);
      if old(DisjointRanges(functions) && PairwiseApart(Extents(lines))) {
        SweepDelivers(functions, all, lines, reporter, before, found, memory);
      }
    }

    method SortEverything() returns (sorted: seq<FunctionRange>)
      requires AllSound(Extents(lines)) && NoRangeWraps(functions)
      modifies this
      ensures multiset(functions) == old(multiset(functions)) && SortedBy(functions, (f: Function) => f.address)
      ensures multiset(lines) == old(multiset(lines))
      ensures AllSound(Extents(lines)) && Ascending(Extents(lines))
      ensures AllSound(Spans(sorted)) && Ascending(Spans(sorted)) && RangesOfAll(sorted, functions)
      ensures multiset(sorted) == multiset(Collect(functions, |functions|))
      ensures |sorted| == |Collect(functions, |functions|)|
      ensures Owners(sorted) <= (set f | f in functions)
      ensures forall f :: f in old(functions) <==> f in functions
      ensures old(DisjointRanges(functions) && PairwiseApart(Extents(lines))) ==>
        Layered(Spans(sorted)) && Layered(Extents(lines))
    {
      functions := Sort(functions, (f: Function) => f.address);
      lines := Sort(lines, (l: Line) => l.extent.address);
      sorted := FillSortedFunctionRanges(functions);
      ResortedLines(old(lines), lines);
      ResortedFunctions(old(functions), functions);
      CollectedAndSorted(functions, sorted);
    }
  }
}
