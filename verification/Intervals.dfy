/**
 The geometry behind the line/function sweep: spans of a 64-bit address space, the pieces where two
 sorted families of spans meet, and what stays true while a point moves over them from one
 transition to the next.  Nothing here knows about functions, source lines or warnings.
 */
module Intervals {
  import opened Arithmetic

  const MODULUS := 0x1_0000_0000_0000_0000
  const MAX_ADDRESS := 0xFFFF_FFFF_FFFF_FFFF

  /** Module::Address, a uint64_t. */
  type Address = a: int | 0 <= a < MODULUS

  datatype Span = Span(address: Address, size: Address)

  /** Unsigned 64-bit addition and subtraction, with wrap-around. */
  function Plus(a: Address, b: Address): Address { if a + b < MODULUS then a + b else a + b - MODULUS }

  function Minus(a: Address, b: Address): Address { if b <= a then a - b else a - b + MODULUS }

  /** One past the last byte, as an unbounded integer. */
  function End(s: Span): int { s.address + s.size }

  /** Nonempty, and not wrapping past the end of the address space. */
  predicate Sound(s: Span) { 0 < s.size && End(s) <= MODULUS }

  ghost predicate AllSound(ss: seq<Span>) { forall i | 0 <= i < |ss| :: Sound(ss[i]) }

  ghost predicate Ascending(ss: seq<Span>) { forall i, j | 0 <= i < j < |ss| :: ss[i].address <= ss[j].address }

  predicate Apart(s: Span, t: Span) { End(s) <= t.address || End(t) <= s.address }

  ghost predicate PairwiseApart(ss: seq<Span>) { forall i, j | 0 <= i < j < |ss| :: Apart(ss[i], ss[j]) }

  /** In address order and pairwise disjoint. */
  ghost predicate Layered(ss: seq<Span>) { forall i, j | 0 <= i < j < |ss| :: End(ss[i]) <= ss[j].address }

  /** The range test of the source: one unsigned subtraction and one comparison. */
  predicate Within(s: Span, a: Address) { Minus(a, s.address) < s.size }

  lemma WithinIsMembership(s: Span, a: Address)
    requires End(s) <= MODULUS
    ensures Within(s, a) <==> s.address <= a < End(s)
  {
  }

  lemma SortedApartIsLayered(ss: seq<Span>)
    requires AllSound(ss) && Ascending(ss) && PairwiseApart(ss)
    ensures Layered(ss)
  {
    forall i, j | 0 <= i < j < |ss|
      ensures End(ss[i]) <= ss[j].address
    {
      assert Apart(ss[i], ss[j]) && ss[i].address <= ss[j].address;
      assert Sound(ss[j]);
    }
  }

  lemma LayeredOrder(ss: seq<Span>, i: nat, j: nat)
    requires Layered(ss) && i < |ss| && j < |ss|
    ensures i < j ==> End(ss[i]) <= ss[j].address
  {
  }

  // ----- Pieces: where a range and a line meet

  type Pair = (nat, nat)

  function Start(s: Span, t: Span): int { Max(s.address, t.address) }

  function Stop(s: Span, t: Span): int { Min(End(s), End(t)) }

  predicate Meets(s: Span, t: Span) { Start(s, t) < Stop(s, t) }

  ghost predicate Covers(ss: seq<Span>, b: int) { exists i | 0 <= i < |ss| :: ss[i].address <= b < End(ss[i]) }

  predicate InBounds(rs: seq<Span>, ls: seq<Span>, p: Pair) { p.0 < |rs| && p.1 < |ls| }

  function StartOf(rs: seq<Span>, ls: seq<Span>, p: Pair): int
    requires InBounds(rs, ls, p)
  {
    Start(rs[p.0], ls[p.1])
  }

  /** `p` names a nonempty intersection that begins below `c`. */
  predicate PieceBelow(rs: seq<Span>, ls: seq<Span>, c: int, p: Pair) {
    InBounds(rs, ls, p) && Meets(rs[p.0], ls[p.1]) && StartOf(rs, ls, p) < c
  }

  /** `ps` names pairs in bounds, in strict address order of what they start. */
  ghost predicate InOrder(rs: seq<Span>, ls: seq<Span>, ps: seq<Pair>) {
    && (forall k | 0 <= k < |ps| :: InBounds(rs, ls, ps[k]))
    && (forall k, m | 0 <= k < m < |ps| :: StartOf(rs, ls, ps[k]) < StartOf(rs, ls, ps[m]))
  }

  /** `ps` lists exactly the pieces beginning below `c`, in address order. */
  ghost predicate PiecesBelow(rs: seq<Span>, ls: seq<Span>, ps: seq<Pair>, c: int) {
    && (forall k | 0 <= k < |ps| :: PieceBelow(rs, ls, c, ps[k]))
    && InOrder(rs, ls, ps)
    && (forall p: Pair | PieceBelow(rs, ls, c, p) :: p in ps)
  }

  /** A byte of `rs[i]` below `c` that no line covers. */
  ghost predicate BareBelow(rs: seq<Span>, ls: seq<Span>, i: nat, c: int)
    requires i < |rs|
  {
    exists b: int :: BareByte(rs[i], ls, b) && b < c
  }

  ghost predicate BareByte(s: Span, ss: seq<Span>, b: int) { s.address <= b < End(s) && !Covers(ss, b) }

  /**
   The tail of a line after its last range is forgiven when some of the line was used and a range
   begins exactly where the line ends: alignment padding that the compiler charged to the line.
   */
  ghost predicate Forgiven(rs: seq<Span>, l: Span, b: int) {
    && (exists i | 0 <= i < |rs| :: Meets(rs[i], l))
    && (exists i | 0 <= i < |rs| :: rs[i].address == End(l))
    && (forall i | 0 <= i < |rs| :: !(b < rs[i].address < End(l)))
  }

  ghost predicate StrayByte(rs: seq<Span>, l: Span, b: int) { BareByte(l, rs, b) && !Forgiven(rs, l, b) }

  /** A byte of `ls[j]` below `c` that no range covers and that is not forgiven. */
  ghost predicate StrayBelow(rs: seq<Span>, ls: seq<Span>, j: nat, c: int)
    requires j < |ls|
  {
    exists b: int :: StrayByte(rs, ls[j], b) && b < c
  }

  ghost predicate Increasing(ks: seq<nat>) { forall i, j | 0 <= i < j < |ks| :: ks[i] < ks[j] }

  /** `ks` lists exactly the ranges with a bare byte below `c`. */
  ghost predicate BareListed(rs: seq<Span>, ls: seq<Span>, ks: seq<nat>, c: int) {
    && Increasing(ks)
    && (forall k | k in ks :: k < |rs|)
    && (forall i: nat | i < |rs| :: i in ks <==> BareBelow(rs, ls, i, c))
  }

  ghost predicate StrayListed(rs: seq<Span>, ls: seq<Span>, ks: seq<nat>, c: int) {
    && Increasing(ks)
    && (forall k | k in ks :: k < |ls|)
    && (forall j: nat | j < |ls| :: j in ks <==> StrayBelow(rs, ls, j, c))
  }

  // ----- The moving point

  /** Everything before `k` is over by `c`, and `ss[k]` is not: the loop's first invariant. */
  ghost predicate Positioned(ss: seq<Span>, k: nat, c: int) {
    && k <= |ss|
    && (forall i | 0 <= i < k :: End(ss[i]) <= c)
    && (k < |ss| ==> c < End(ss[k]))
  }

  /** The loop's second invariant, in the form the pieces need: no piece is already under way at `c`. */
  ghost predicate AtTransition(rs: seq<Span>, ls: seq<Span>, ri: nat, lj: nat, c: int) {
    ri < |rs| && lj < |ls| ==> c <= Start(rs[ri], ls[lj])
  }

  predicate Inside(ss: seq<Span>, k: nat, c: int) { k < |ss| && ss[k].address <= c }

  /** No span begins or ends strictly between `c` and `m`. */
  ghost predicate Quiet(ss: seq<Span>, k: nat, c: int, m: int) {
    && (forall i | k < i < |ss| :: m <= ss[i].address)
    && (k < |ss| ==> if Inside(ss, k, c) then m <= End(ss[k]) else m <= ss[k].address)
  }

  /** `n` is the first begin or end of a current span after `c`. */
  ghost predicate NextTransition(rs: seq<Span>, ls: seq<Span>, ri: nat, lj: nat, c: int, n: int) {
    && c < n
    && (ri < |rs| || lj < |ls|)
    && (ri < |rs| ==> n <= (if Inside(rs, ri, c) then End(rs[ri]) else rs[ri].address))
    && (lj < |ls| ==> n <= (if Inside(ls, lj, c) then End(ls[lj]) else ls[lj].address))
    && ( || (ri < |rs| && n == (if Inside(rs, ri, c) then End(rs[ri]) else rs[ri].address))
         || (lj < |ls| && n == (if Inside(ls, lj, c) then End(ls[lj]) else ls[lj].address)))
  }

  lemma NextIsQuiet(ss: seq<Span>, k: nat, c: int, m: int)
    requires AllSound(ss) && Layered(ss) && k <= |ss|
    requires k < |ss| ==> m <= (if Inside(ss, k, c) then End(ss[k]) else ss[k].address)
    ensures Quiet(ss, k, c, m)
  {
    forall i | k < i < |ss|
      ensures m <= ss[i].address
    {
      assert Sound(ss[k]) && End(ss[k]) <= ss[i].address;
    }
  }

  lemma TransitionKept(rs: seq<Span>, ls: seq<Span>, ri: nat, lj: nat, c: int, n: int, ri': nat, lj': nat)
    requires AllSound(rs) && AllSound(ls) && Layered(rs) && Layered(ls)
    requires NextTransition(rs, ls, ri, lj, c, n)
    requires ri <= ri' && lj <= lj' && Positioned(rs, ri', n) && Positioned(ls, lj', n)
    ensures AtTransition(rs, ls, ri', lj', n)
  {
    if ri' < |rs| && lj' < |ls| {
      if n == (if Inside(rs, ri, c) then End(rs[ri]) else rs[ri].address) {
        assert ri < ri' ==> End(rs[ri]) <= rs[ri'].address;
      } else {
        assert lj < lj' ==> End(ls[lj]) <= ls[lj'].address;
      }
    }
  }

  /** What holds of both families between two transitions. */
  ghost predicate Strip(rs: seq<Span>, ls: seq<Span>, ri: nat, lj: nat, c: int, m: int) {
    && c < m
    && Positioned(rs, ri, c) && Positioned(ls, lj, c)
    && Quiet(rs, ri, c, m) && Quiet(ls, lj, c, m)
    && AtTransition(rs, ls, ri, lj, c)
  }

  /** A span that has a byte in a quiet strip is the current one, and covers the whole strip. */
  lemma OnlyCurrent(ss: seq<Span>, k: nat, c: int, m: int, i: nat, b: int)
    requires Positioned(ss, k, c) && Quiet(ss, k, c, m)
    requires i < |ss| && c <= b < m && ss[i].address <= b < End(ss[i])
    ensures i == k && Inside(ss, k, c) && m <= End(ss[k])
  {
  }

  lemma CoverIsConstant(ss: seq<Span>, k: nat, c: int, m: int, b: int)
    requires Positioned(ss, k, c) && Quiet(ss, k, c, m) && c <= b < m
    ensures Covers(ss, b) <==> Inside(ss, k, c)
  {
    if Covers(ss, b) {
      var i :| 0 <= i < |ss| && ss[i].address <= b < End(ss[i]);
      OnlyCurrent(ss, k, c, m, i, b);
    }
    if Inside(ss, k, c) {
      assert ss[k].address <= b < End(ss[k]);
    }
  }

  /** The piece, if any, that begins in the strip is the one at `c`. */
  lemma PieceInStrip(rs: seq<Span>, ls: seq<Span>, ri: nat, lj: nat, c: int, m: int, p: Pair)
    requires Strip(rs, ls, ri, lj, c, m)
    requires PieceBelow(rs, ls, m, p) && !PieceBelow(rs, ls, c, p)
    ensures p == (ri, lj) && Inside(rs, ri, c) && Inside(ls, lj, c) && StartOf(rs, ls, p) == c
  {
    var b := StartOf(rs, ls, p);
    OnlyCurrent(rs, ri, c, m, p.0, b);
    OnlyCurrent(ls, lj, c, m, p.1, b);
  }

  lemma ExtendPieces(rs: seq<Span>, ls: seq<Span>, ri: nat, lj: nat, c: int, m: int, ps: seq<Pair>, ps': seq<Pair>)
    requires Strip(rs, ls, ri, lj, c, m) && PiecesBelow(rs, ls, ps, c)
    requires ps' == if Inside(rs, ri, c) && Inside(ls, lj, c) then ps + [(ri, lj)] else ps
    ensures PiecesBelow(rs, ls, ps', m)
  {
    forall p: Pair | PieceBelow(rs, ls, m, p)
      ensures p in ps'
    {
      if !PieceBelow(rs, ls, c, p) {
        PieceInStrip(rs, ls, ri, lj, c, m, p);
        assert ps'[|ps|] == p;
      } else {
        assert p in ps;
      }
    }
    forall k | 0 <= k < |ps'|
      ensures PieceBelow(rs, ls, m, ps'[k])
    {
      if k < |ps| {
        assert PieceBelow(rs, ls, c, ps[k]);
      }
    }
    forall k, n | 0 <= k < n < |ps'|
      ensures StartOf(rs, ls, ps'[k]) < StartOf(rs, ls, ps'[n])
    {
      assert PieceBelow(rs, ls, c, ps[k]);
      if n < |ps| {
        assert StartOf(rs, ls, ps[k]) < StartOf(rs, ls, ps[n]);
      }
    }
  }

  lemma BareStep(rs: seq<Span>, ls: seq<Span>, ri: nat, lj: nat, c: int, m: int, i: nat)
    requires Strip(rs, ls, ri, lj, c, m) && i < |rs|
    ensures BareBelow(rs, ls, i, m)
       <==> BareBelow(rs, ls, i, c) || (i == ri && Inside(rs, ri, c) && !Inside(ls, lj, c))
  {
    if BareBelow(rs, ls, i, m) && !BareBelow(rs, ls, i, c) {
      var b :| BareByte(rs[i], ls, b) && b < m;
      OnlyCurrent(rs, ri, c, m, i, b);
      CoverIsConstant(ls, lj, c, m, b);
    }
    if i == ri && Inside(rs, ri, c) && !Inside(ls, lj, c) {
      CoverIsConstant(ls, lj, c, m, c);
      assert BareByte(rs[i], ls, c);
    }
    if BareBelow(rs, ls, i, c) {
      var b :| BareByte(rs[i], ls, b) && b < c;
      assert b < m;
    }
  }

  /** A range or line can only be listed once its bytes have been reached. */
  lemma ListedSoFar(ss: seq<Span>, k: nat, c: int, i: nat, b: int)
    requires AllSound(ss) && Layered(ss) && Positioned(ss, k, c)
    requires i < |ss| && ss[i].address <= b < c
    ensures i <= k
  {
    if k < |ss| {
      LayeredOrder(ss, k, i);
    }
  }

  function Noted(ks: seq<nat>, k: nat, seen: bool): seq<nat> {
    if seen && (ks == [] || ks[|ks| - 1] != k) then ks + [k] else ks
  }

  lemma NotedKeepsOrder(ks: seq<nat>, k: nat, seen: bool)
    requires Increasing(ks) && forall i | i in ks :: i <= k
    ensures Increasing(Noted(ks, k, seen))
    ensures forall i :: i in Noted(ks, k, seen) <==> i in ks || (seen && i == k)
  {
    var ks' := Noted(ks, k, seen);
    if |ks'| > |ks| {
      assert ks'[|ks|] == k;
      assert ks != [] ==> ks[|ks| - 1] in ks;
      forall i | 0 <= i < |ks|
        ensures ks[i] < k
      {
        assert ks[i] in ks;
      }
    }
  }

  lemma ExtendBare(rs: seq<Span>, ls: seq<Span>, ri: nat, lj: nat, c: int, m: int, ks: seq<nat>)
    requires AllSound(rs) && Layered(rs)
    requires Strip(rs, ls, ri, lj, c, m) && BareListed(rs, ls, ks, c)
    ensures BareListed(rs, ls, Noted(ks, ri, Inside(rs, ri, c) && !Inside(ls, lj, c)), m)
  {
    forall i | i in ks
      ensures i <= ri
    {
      assert BareBelow(rs, ls, i, c);
      var b :| BareByte(rs[i], ls, b) && b < c;
      ListedSoFar(rs, ri, c, i, b);
    }
    NotedKeepsOrder(ks, ri, Inside(rs, ri, c) && !Inside(ls, lj, c));
    forall i: nat | i < |rs| {
      BareStep(rs, ls, ri, lj, c, m, i);
    }
  }

  /** The source's test for forgiveness at `c`, when only a line covers `c`. */
  predicate ForgivenTest(rs: seq<Span>, ls: seq<Span>, ri: nat, lj: nat, lastUsed: int)
    requires lj < |ls|
  {
    ri < |rs| && lj == lastUsed && rs[ri].address == End(ls[lj])
  }

  /** The last piece's line, or -1. */
  function LastLine(ps: seq<Pair>): int { if ps == [] then -1 else ps[|ps| - 1].1 }

  /** The current line is the last one used exactly when a piece of it begins before `c`. */
  lemma LastLineIsUsed(rs: seq<Span>, ls: seq<Span>, ri: nat, lj: nat, c: int, ps: seq<Pair>)
    requires AllSound(ls) && Layered(ls) && Positioned(ls, lj, c) && PiecesBelow(rs, ls, ps, c)
    requires Inside(ls, lj, c)
    ensures LastLine(ps) == lj <==> exists i: nat :: PieceBelow(rs, ls, c, (i, lj))
  {
    if LastLine(ps) == lj {
      assert PieceBelow(rs, ls, c, ps[|ps| - 1]);
      assert ps[|ps| - 1] == (ps[|ps| - 1].0, lj);
    }
    if i: nat :| PieceBelow(rs, ls, c, (i, lj)) {
      var k :| 0 <= k < |ps| && ps[k] == (i, lj);
      var last := ps[|ps| - 1];
      assert PieceBelow(rs, ls, c, last);
      assert StartOf(rs, ls, ps[k]) <= StartOf(rs, ls, last);
      LayeredOrder(ls, last.1, lj);
      LayeredOrder(ls, lj, last.1);
    }
  }

  /** The test in the source decides forgiveness of every byte of the strip. */
  lemma ForgivenTestCorrect(rs: seq<Span>, ls: seq<Span>, ri: nat, lj: nat, c: int, m: int, ps: seq<Pair>, b: int)
    requires AllSound(rs) && AllSound(ls) && Layered(rs) && Layered(ls)
    requires Strip(rs, ls, ri, lj, c, m) && PiecesBelow(rs, ls, ps, c)
    requires !Inside(rs, ri, c) && Inside(ls, lj, c) && c <= b < m
    ensures Forgiven(rs, ls[lj], b) <==> ForgivenTest(rs, ls, ri, lj, LastLine(ps))
  {
    LastLineIsUsed(rs, ls, ri, lj, c, ps);
    forall i | 0 <= i < |rs|
      ensures i < ri ==> rs[i].address < c
      ensures ri <= i ==> rs[ri].address <= rs[i].address && m <= rs[i].address
    {
      assert Sound(rs[i]);
      if ri < i {
        assert End(rs[ri]) <= rs[i].address && Sound(rs[ri]);
      }
    }
    if Forgiven(rs, ls[lj], b) {
      var u :| 0 <= u < |rs| && Meets(rs[u], ls[lj]);
      assert PieceBelow(rs, ls, c, (u, lj));
      var e :| 0 <= e < |rs| && rs[e].address == End(ls[lj]);
      assert !(b < rs[ri].address < End(ls[lj]));
    }
    if ForgivenTest(rs, ls, ri, lj, LastLine(ps)) {
      var u: nat :| PieceBelow(rs, ls, c, (u, lj));
      assert Meets(rs[u], ls[lj]);
    }
  }

  lemma StrayStep(rs: seq<Span>, ls: seq<Span>, ri: nat, lj: nat, c: int, m: int, ps: seq<Pair>, j: nat)
    requires AllSound(rs) && AllSound(ls) && Layered(rs) && Layered(ls)
    requires Strip(rs, ls, ri, lj, c, m) && PiecesBelow(rs, ls, ps, c) && j < |ls|
    ensures StrayBelow(rs, ls, j, m)
       <==> || StrayBelow(rs, ls, j, c)
            || (j == lj && !Inside(rs, ri, c) && Inside(ls, lj, c) && !ForgivenTest(rs, ls, ri, lj, LastLine(ps)))
  {
    if StrayBelow(rs, ls, j, m) && !StrayBelow(rs, ls, j, c) {
      var b :| StrayByte(rs, ls[j], b) && b < m;
      OnlyCurrent(ls, lj, c, m, j, b);
      CoverIsConstant(rs, ri, c, m, b);
      ForgivenTestCorrect(rs, ls, ri, lj, c, m, ps, b);
    }
    if j == lj && !Inside(rs, ri, c) && Inside(ls, lj, c) && !ForgivenTest(rs, ls, ri, lj, LastLine(ps)) {
      CoverIsConstant(rs, ri, c, m, c);
      ForgivenTestCorrect(rs, ls, ri, lj, c, m, ps, c);
      assert StrayByte(rs, ls[j], c);
    }
    if StrayBelow(rs, ls, j, c) {
      var b :| StrayByte(rs, ls[j], b) && b < c;
      assert b < m;
    }
  }

  predicate StrayNow(rs: seq<Span>, ls: seq<Span>, ri: nat, lj: nat, c: int, ps: seq<Pair>) {
    !Inside(rs, ri, c) && Inside(ls, lj, c) && !ForgivenTest(rs, ls, ri, lj, LastLine(ps))
  }

  lemma ExtendStray(rs: seq<Span>, ls: seq<Span>, ri: nat, lj: nat, c: int, m: int, ps: seq<Pair>, ks: seq<nat>)
    requires AllSound(rs) && AllSound(ls) && Layered(rs) && Layered(ls)
    requires Strip(rs, ls, ri, lj, c, m) && PiecesBelow(rs, ls, ps, c) && StrayListed(rs, ls, ks, c)
    ensures StrayListed(rs, ls, Noted(ks, lj, StrayNow(rs, ls, ri, lj, c, ps)), m)
  {
    forall j | j in ks
      ensures j <= lj
    {
      assert StrayBelow(rs, ls, j, c);
      var b :| StrayByte(rs, ls[j], b) && b < c;
      ListedSoFar(ls, lj, c, j, b);
    }
    NotedKeepsOrder(ks, lj, StrayNow(rs, ls, ri, lj, c, ps));
    forall j: nat | j < |ls| {
      StrayStep(rs, ls, ri, lj, c, m, ps, j);
    }
  }

  /** Once both families are over, or from any point on when nothing begins below `m`, no more can happen. */
  lemma NothingLeft(rs: seq<Span>, ls: seq<Span>, c: int, m: int, ps: seq<Pair>, bare: seq<nat>, stray: seq<nat>)
    requires AllSound(rs) && AllSound(ls) && c <= m
    requires forall i | 0 <= i < |rs| :: End(rs[i]) <= c || m <= rs[i].address
    requires forall j | 0 <= j < |ls| :: End(ls[j]) <= c || m <= ls[j].address
    requires PiecesBelow(rs, ls, ps, c) && BareListed(rs, ls, bare, c) && StrayListed(rs, ls, stray, c)
    ensures PiecesBelow(rs, ls, ps, m) && BareListed(rs, ls, bare, m) && StrayListed(rs, ls, stray, m)
  {
    forall i: nat | i < |rs|
      ensures BareBelow(rs, ls, i, m) <==> BareBelow(rs, ls, i, c)
    {
      if BareBelow(rs, ls, i, c) {
        var b :| BareByte(rs[i], ls, b) && b < c;
        assert b < m;
      }
    }
    forall j: nat | j < |ls|
      ensures StrayBelow(rs, ls, j, m) <==> StrayBelow(rs, ls, j, c)
    {
      if StrayBelow(rs, ls, j, c) {
        var b :| StrayByte(rs, ls[j], b) && b < c;
        assert b < m;
      }
    }
    forall p: Pair | PieceBelow(rs, ls, m, p)
      ensures PieceBelow(rs, ls, c, p)
    {
    }
    forall k | 0 <= k < |ps|
      ensures PieceBelow(rs, ls, m, ps[k])
    {
      assert PieceBelow(rs, ls, c, ps[k]);
    }
  }

  /** Before anything begins, nothing is listed. */
  lemma NothingYet(rs: seq<Span>, ls: seq<Span>, c: int)
    requires forall i | 0 <= i < |rs| :: c <= rs[i].address
    requires forall j | 0 <= j < |ls| :: c <= ls[j].address
    ensures PiecesBelow(rs, ls, [], c) && BareListed(rs, ls, [], c) && StrayListed(rs, ls, [], c)
  {
  }

  /** The first stop is the earliest begin. */
  lemma FirstStop(rs: seq<Span>, ls: seq<Span>, c: int)
    requires AllSound(rs) && AllSound(ls) && Ascending(rs) && Ascending(ls)
    requires rs != [] ==> c <= rs[0].address
    requires ls != [] ==> c <= ls[0].address
    requires (rs != [] && c == rs[0].address) || (ls != [] && c == ls[0].address)
    ensures PiecesBelow(rs, ls, [], c) && BareListed(rs, ls, [], c) && StrayListed(rs, ls, [], c)
    ensures Positioned(rs, 0, c) && Positioned(ls, 0, c) && AtTransition(rs, ls, 0, 0, c)
    ensures c in Endpoints(rs) + Endpoints(ls)
  {
    NothingYet(rs, ls, c);
    if rs != [] {
      EndpointsOf(rs, 0);
    }
    if ls != [] {
      EndpointsOf(ls, 0);
    }
  }

  lemma NextIsEndpoint(rs: seq<Span>, ls: seq<Span>, ri: nat, lj: nat, c: int, n: int)
    requires NextTransition(rs, ls, ri, lj, c, n)
    ensures n in Endpoints(rs) + Endpoints(ls)
  {
    if ri < |rs| {
      EndpointsOf(rs, ri);
    }
    if lj < |ls| {
      EndpointsOf(ls, lj);
    }
  }

  /** One iteration, for all three lists at once. */
  lemma ExtendAll(rs: seq<Span>, ls: seq<Span>, ri: nat, lj: nat, c: int, n: int, m: int,
                  ps: seq<Pair>, bare: seq<nat>, stray: seq<nat>)
    requires AllSound(rs) && AllSound(ls) && Layered(rs) && Layered(ls)
    requires Positioned(rs, ri, c) && Positioned(ls, lj, c) && AtTransition(rs, ls, ri, lj, c)
    requires NextTransition(rs, ls, ri, lj, c, n) && c < m <= n
    requires PiecesBelow(rs, ls, ps, c) && BareListed(rs, ls, bare, c) && StrayListed(rs, ls, stray, c)
    ensures PiecesBelow(rs, ls, if Inside(rs, ri, c) && Inside(ls, lj, c) then ps + [(ri, lj)] else ps, m)
    ensures BareListed(rs, ls, Noted(bare, ri, Inside(rs, ri, c) && !Inside(ls, lj, c)), m)
    ensures StrayListed(rs, ls, Noted(stray, lj, StrayNow(rs, ls, ri, lj, c, ps)), m)
  {
    NextIsQuiet(rs, ri, c, m);
    NextIsQuiet(ls, lj, c, m);
    ExtendPieces(rs, ls, ri, lj, c, m, ps, if Inside(rs, ri, c) && Inside(ls, lj, c) then ps + [(ri, lj)] else ps);
    ExtendBare(rs, ls, ri, lj, c, m, bare);
    ExtendStray(rs, ls, ri, lj, c, m, ps, stray);
  }

  // ----- The naive reference: every range against every line

  /** The pieces of `r` with the first `j` lines, by trying each line. */
  function PiecesWith(rs: seq<Span>, ls: seq<Span>, i: nat, j: nat): seq<Pair>
    requires i < |rs| && j <= |ls|
  {
    if j == 0 then []
    else PiecesWith(rs, ls, i, j - 1) + if PieceBelow(rs, ls, MAX_ADDRESS, (i, j - 1)) then [(i, j - 1)] else []
  }

  /** The pieces of the first `i` ranges, by trying every range against every line. */
  function AllPairs(rs: seq<Span>, ls: seq<Span>, i: nat): seq<Pair>
    requires i <= |rs|
  {
    if i == 0 then [] else AllPairs(rs, ls, i - 1) + PiecesWith(rs, ls, i - 1, |ls|)
  }

  lemma {:induction false} PiecesWithExact(rs: seq<Span>, ls: seq<Span>, i: nat, j: nat)
    requires AllSound(ls) && Layered(ls) && i < |rs| && j <= |ls|
    ensures forall p: Pair ::
      p in PiecesWith(rs, ls, i, j) <==> PieceBelow(rs, ls, MAX_ADDRESS, p) && p.0 == i && p.1 < j
    ensures InOrder(rs, ls, PiecesWith(rs, ls, i, j))
  {
    if j > 0 {
      PiecesWithExact(rs, ls, i, j - 1);
      var before := PiecesWith(rs, ls, i, j - 1);
      forall k | 0 <= k < |before| && PieceBelow(rs, ls, MAX_ADDRESS, (i, j - 1))
        ensures StartOf(rs, ls, before[k]) < StartOf(rs, ls, (i, j - 1))
      {
        assert before[k] in before;
        LayeredOrder(ls, before[k].1, j - 1);
      }
    }
  }

  lemma {:induction false} AllPairsExact(rs: seq<Span>, ls: seq<Span>, i: nat)
    requires AllSound(rs) && AllSound(ls) && Layered(rs) && Layered(ls) && i <= |rs|
    ensures forall p: Pair :: p in AllPairs(rs, ls, i) <==> PieceBelow(rs, ls, MAX_ADDRESS, p) && p.0 < i
    ensures InOrder(rs, ls, AllPairs(rs, ls, i))
  {
    hide InOrder, PieceBelow, Layered, AllSound, PiecesWith;
    NoPairs(rs, ls);
    PiecesInBounds(rs, ls);
    if i > 0 {
      AllPairsExact(rs, ls, i - 1);
      PiecesWithExact(rs, ls, i - 1, |ls|);
      PairsJoined(rs, ls, i - 1, AllPairs(rs, ls, i - 1), PiecesWith(rs, ls, i - 1, |ls|));
    }
  }

  lemma PiecesInBounds(rs: seq<Span>, ls: seq<Span>)
    ensures forall p: Pair | PieceBelow(rs, ls, MAX_ADDRESS, p) :: p.1 < |ls|
  {
  }

  lemma NoPairs(rs: seq<Span>, ls: seq<Span>)
    ensures InOrder(rs, ls, [])
  {
  }

  lemma PairsJoined(rs: seq<Span>, ls: seq<Span>, i: nat, before: seq<Pair>, here: seq<Pair>)
    requires Layered(rs) && InOrder(rs, ls, before) && InOrder(rs, ls, here)
    requires forall p | p in before :: PieceBelow(rs, ls, MAX_ADDRESS, p) && p.0 < i
    requires forall p | p in here :: PieceBelow(rs, ls, MAX_ADDRESS, p) && p.0 == i
    ensures InOrder(rs, ls, before + here)
  {
    forall k, n | 0 <= k < |before| && 0 <= n < |here|
      ensures StartOf(rs, ls, before[k]) < StartOf(rs, ls, here[n])
    {
      assert before[k] in before && here[n] in here;
      LayeredOrder(rs, before[k].0, i);
    }
  }

  lemma At<T>(s: seq<T>, x: T) returns (i: nat)
    requires x in s
    ensures i < |s| && s[i] == x
  {
    i :| i < |s| && s[i] == x;
  }

  lemma NoMembers<T>(s: seq<T>, t: seq<T>)
    requires forall x | x in t :: x in s
    ensures s == [] ==> t == []
  {
    if t != [] {
      assert t[0] in s;
    }
  }

  lemma LastIsGreatest(rs: seq<Span>, ls: seq<Span>, ps: seq<Pair>, p: Pair)
    requires InOrder(rs, ls, ps) && p in ps
    ensures p == ps[|ps| - 1] || StartOf(rs, ls, p) < StartOf(rs, ls, ps[|ps| - 1])
  {
    var k :| 0 <= k < |ps| && ps[k] == p;
  }

  lemma SameLast(rs: seq<Span>, ls: seq<Span>, ps: seq<Pair>, qs: seq<Pair>)
    requires InOrder(rs, ls, ps) && InOrder(rs, ls, qs) && ps != [] && qs != []
    requires ps[|ps| - 1] in qs && qs[|qs| - 1] in ps
    ensures ps[|ps| - 1] == qs[|qs| - 1]
  {
    LastIsGreatest(rs, ls, ps, qs[|qs| - 1]);
    LastIsGreatest(rs, ls, qs, ps[|ps| - 1]);
  }

  ghost predicate Same(ps: seq<Pair>, qs: seq<Pair>) {
    && (forall p | p in ps :: p in qs)
    && (forall p | p in qs :: p in ps)
  }

  lemma InitsAgree(rs: seq<Span>, ls: seq<Span>, ps: seq<Pair>, qs: seq<Pair>, ps': seq<Pair>, qs': seq<Pair>)
    requires InOrder(rs, ls, ps) && InOrder(rs, ls, qs) && ps != [] && qs != []
    requires ps[|ps| - 1] == qs[|qs| - 1] && Same(ps, qs)
    requires ps' == ps[..|ps| - 1] && qs' == qs[..|qs| - 1]
    ensures Same(ps', qs')
  {
    forall p | p in ps'
      ensures p in qs'
    {
      InitOfInOrder(rs, ls, ps, p);
      InitOfInOrder(rs, ls, qs, p);
    }
    forall p | p in qs'
      ensures p in ps'
    {
      InitOfInOrder(rs, ls, ps, p);
      InitOfInOrder(rs, ls, qs, p);
    }
  }

  /** Lists in strict address order with the same members are the same list. */
  lemma {:induction false} InOrderUnique(rs: seq<Span>, ls: seq<Span>, ps: seq<Pair>, qs: seq<Pair>)
    requires InOrder(rs, ls, ps) && InOrder(rs, ls, qs) && Same(ps, qs)
    ensures ps == qs
    decreases |ps|
  {
    hide InOrder;
    NoMembers(ps, qs);
    if ps != [] {
      assert ps[0] in qs;
      var ps', qs' := ps[..|ps| - 1], qs[..|qs| - 1];
      assert ps[|ps| - 1] in ps && qs[|qs| - 1] in qs;
      SameLast(rs, ls, ps, qs);
      InitsAgree(rs, ls, ps, qs, ps', qs');
      InitStays(rs, ls, ps);
      InitStays(rs, ls, qs);
      InOrderUnique(rs, ls, ps', qs');
      assert ps == ps' + [ps[|ps| - 1]] && qs == qs' + [qs[|qs| - 1]];
    }
  }

  lemma InitStays(rs: seq<Span>, ls: seq<Span>, ps: seq<Pair>)
    requires ps != [] && InOrder(rs, ls, ps)
    ensures InOrder(rs, ls, ps[..|ps| - 1])
  {
  }

  lemma InitOfInOrder(rs: seq<Span>, ls: seq<Span>, ps: seq<Pair>, p: Pair)
    requires ps != [] && InOrder(rs, ls, ps)
    ensures p in ps[..|ps| - 1] <==> p in ps && p != ps[|ps| - 1]
  {
    var a := |ps| - 1;
    if p in ps[..a] {
      var k :| 0 <= k < a && ps[..a][k] == p;
      assert ps[k] == p;
      assert StartOf(rs, ls, ps[k]) < StartOf(rs, ls, ps[a]);
    }
  }

  /** A list of the pieces below the tombstone address, in address order, is the naive list. */
  lemma PiecesAreAllPairs(rs: seq<Span>, ls: seq<Span>, ps: seq<Pair>)
    requires AllSound(rs) && AllSound(ls) && Layered(rs) && Layered(ls)
    requires PiecesBelow(rs, ls, ps, MAX_ADDRESS)
    ensures ps == AllPairs(rs, ls, |rs|)
  {
    AllPairsExact(rs, ls, |rs|);
    InOrderUnique(rs, ls, ps, AllPairs(rs, ls, |rs|));
  }

  /** The ranges among the first `i` with a bare byte, by looking at each. */
  ghost function BareRanges(rs: seq<Span>, ls: seq<Span>, i: nat): (ks: seq<nat>)
    requires i <= |rs|
    ensures forall k | k in ks :: k < i
  {
    if i == 0 then []
    else BareRanges(rs, ls, i - 1) + if BareBelow(rs, ls, i - 1, MAX_ADDRESS) then [i - 1] else []
  }

  /** The lines among the first `j` with a stray byte, by looking at each. */
  ghost function StrayLines(rs: seq<Span>, ls: seq<Span>, j: nat): (ks: seq<nat>)
    requires j <= |ls|
    ensures forall k | k in ks :: k < j
  {
    if j == 0 then []
    else StrayLines(rs, ls, j - 1) + if StrayBelow(rs, ls, j - 1, MAX_ADDRESS) then [j - 1] else []
  }

  lemma {:induction false} BareRangesExact(rs: seq<Span>, ls: seq<Span>, i: nat)
    requires i <= |rs|
    ensures Increasing(BareRanges(rs, ls, i))
    ensures forall k: nat | k < i :: k in BareRanges(rs, ls, i) <==> BareBelow(rs, ls, k, MAX_ADDRESS)
  {
    if i > 0 {
      BareRangesExact(rs, ls, i - 1);
      AppendIncreasing(BareRanges(rs, ls, i - 1), i - 1);
    }
  }

  lemma {:induction false} StrayLinesExact(rs: seq<Span>, ls: seq<Span>, j: nat)
    requires j <= |ls|
    ensures Increasing(StrayLines(rs, ls, j))
    ensures forall k: nat | k < j :: k in StrayLines(rs, ls, j) <==> StrayBelow(rs, ls, k, MAX_ADDRESS)
  {
    if j > 0 {
      StrayLinesExact(rs, ls, j - 1);
      AppendIncreasing(StrayLines(rs, ls, j - 1), j - 1);
    }
  }

  lemma AppendIncreasing(ks: seq<nat>, k: nat)
    requires Increasing(ks) && forall i | i in ks :: i < k
    ensures Increasing(ks + [k])
  {
    assert forall n | 0 <= n < |ks| :: ks[n] in ks;
  }

  /** Increasing lists with the same members are the same list. */
  lemma {:induction false} IncreasingUnique(ks: seq<nat>, ms: seq<nat>)
    requires Increasing(ks) && Increasing(ms)
    requires forall k :: k in ks <==> k in ms
    ensures ks == ms
    decreases |ks|
  {
    NoMembers(ks, ms);
    if ks != [] {
      assert ks[0] in ms && ms[0] in ks;
      FirstIsLeast(ks, ms[0]);
      FirstIsLeast(ms, ks[0]);
      forall k
        ensures k in ks[1..] <==> k in ms[1..]
      {
        TailOfIncreasing(ks, k);
        TailOfIncreasing(ms, k);
      }
      IncreasingUnique(ks[1..], ms[1..]);
      assert ks == [ks[0]] + ks[1..] && ms == [ms[0]] + ms[1..];
    }
  }

  lemma FirstIsLeast(ks: seq<nat>, k: nat)
    requires Increasing(ks) && k in ks
    ensures ks[0] <= k
  {
  }

  lemma TailOfIncreasing(ks: seq<nat>, k: nat)
    requires ks != [] && Increasing(ks)
    ensures k in ks[1..] <==> k in ks && k != ks[0]
  {
    if k in ks[1..] {
      var n :| 0 <= n < |ks| - 1 && ks[1..][n] == k;
      assert ks[0] < ks[n + 1];
    }
  }

  /** The lists of gaps below the tombstone address are the naive ones. */
  lemma GapsAreNaive(rs: seq<Span>, ls: seq<Span>, bare: seq<nat>, stray: seq<nat>)
    requires BareListed(rs, ls, bare, MAX_ADDRESS) && StrayListed(rs, ls, stray, MAX_ADDRESS)
    ensures bare == BareRanges(rs, ls, |rs|) && stray == StrayLines(rs, ls, |ls|)
  {
    BareRangesExact(rs, ls, |rs|);
    StrayLinesExact(rs, ls, |ls|);
    IncreasingUnique(bare, BareRanges(rs, ls, |rs|));
    IncreasingUnique(stray, StrayLines(rs, ls, |ls|));
  }

  // ----- The linear cost: the point only ever stops at begins and ends of spans

  /** All begins and ends, as unbounded integers. */
  function Endpoints(ss: seq<Span>): seq<int> {
    if ss == [] then [] else [ss[0].address, End(ss[0])] + Endpoints(ss[1..])
  }

  lemma {:induction false} EndpointsOf(ss: seq<Span>, i: nat)
    requires i < |ss|
    ensures ss[i].address in Endpoints(ss) && End(ss[i]) in Endpoints(ss)
  {
    if i == 0 {
      assert Endpoints(ss)[0] == ss[0].address && Endpoints(ss)[1] == End(ss[0]);
    } else {
      EndpointsOf(ss[1..], i - 1);
      assert ss[1..][i - 1] == ss[i];
    }
  }

  lemma {:induction false} EndpointsCount(ss: seq<Span>)
    ensures |Endpoints(ss)| == 2 * |ss|
  {
    if ss != [] {
      EndpointsCount(ss[1..]);
    }
  }

  /** The stops of the point: strictly upward, through endpoints only. */
  ghost predicate Stops(rs: seq<Span>, ls: seq<Span>, cs: seq<int>) {
    && (forall k, m | 0 <= k < m < |cs| :: cs[k] < cs[m])
    && (forall k | 0 <= k < |cs| :: cs[k] in Endpoints(rs) + Endpoints(ls))
  }

  lemma StopAdded(rs: seq<Span>, ls: seq<Span>, cs: seq<int>, c: int)
    requires Stops(rs, ls, cs) && (cs != [] ==> cs[|cs| - 1] < c)
    requires c in Endpoints(rs) + Endpoints(ls)
    ensures Stops(rs, ls, cs + [c])
  {
  }

  lemma {:induction false} SetOfSeq(xs: seq<int>)
    ensures |set x | x in xs| <= |xs|
  {
    if xs != [] {
      SetOfSeq(xs[1..]);
      assert (set x | x in xs) == {xs[0]} + set x | x in xs[1..];
    }
  }

  lemma {:induction false} SetOfClimb(xs: seq<int>)
    requires forall k, m | 0 <= k < m < |xs| :: xs[k] < xs[m]
    ensures |set x | x in xs| == |xs|
  {
    if xs != [] {
      SetOfClimb(xs[1..]);
      assert (set x | x in xs) == {xs[0]} + set x | x in xs[1..];
      assert xs[0] !in xs[1..];
    }
  }

  lemma SubsetSize(a: set<int>, b: set<int>)
    requires a <= b
    ensures |a| <= |b|
  {
    assert b == a + (b - a);
  }

  /** At most two stops for each range and each line. */
  lemma StopsAreFew(rs: seq<Span>, ls: seq<Span>, cs: seq<int>)
    requires Stops(rs, ls, cs)
    ensures |cs| <= 2 * (|rs| + |ls|)
  {
    var es := Endpoints(rs) + Endpoints(ls);
    EndpointsCount(rs);
    EndpointsCount(ls);
    SetOfClimb(cs);
    SetOfSeq(es);
    SubsetSize(set c | c in cs, set e | e in es);
  }
}
