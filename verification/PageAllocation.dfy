/**
 PageAllocator: a bump allocator over runs of pages taken from the kernel.  Each run begins with a
 header that links it to the run taken before it.  Null pointers are 0; the outcome of mmap is a
 parameter, 0 standing for failure.
 */
module PageAllocation {

  const SIZE_MODULUS := 0x1_0000_0000_0000_0000

  /** sizeof(PageHeader): a pointer and a count. */
  const HEADER := 16

  datatype Header = Header(next: nat, numPages: nat)

  datatype Run = Run(base: nat, pages: nat)

  datatype Block = Block(start: nat, size: nat)

  // ----- Arithmetic

  lemma Ceiling(total: nat, ps: nat, pages: nat)
    requires ps > 0 && total > 0 && pages == (total + ps - 1) / ps
    ensures pages > 0 && total <= ps * pages < total + ps
  {
    assert total + ps - 1 == ps * pages + (total + ps - 1) % ps;
    assert ps * pages > 0;
  }

  lemma Distribute(ps: nat, a: nat, b: nat)
    ensures Size(ps, a + b) == Size(ps, a) + Size(ps, b)
  {
  }

  lemma OffsetModulo(ps: nat, slack: nat)
    requires slack < ps
    ensures (ps - slack) % ps == if slack == 0 then 0 else ps - slack
  {
    if slack == 0 {
      assert ps % ps == 0;
    } else {
      SmallModulo(ps - slack, ps);
    }
  }

  lemma SmallModulo(a: nat, m: nat)
    requires a < m
    ensures a % m == a
  {
  }

  // ----- The width of size_t

  /** The page count as computed in 64 bits. */
  function PagesFor(bytes: nat, ps: nat): nat
    requires ps > 0
  {
    ((bytes + HEADER + ps - 1) % SIZE_MODULUS) / ps
  }

  function Wrap(x: int): nat { x % SIZE_MODULUS }

  /** The rounding sum does not wrap. */
  predicate Representable(bytes: nat, ps: nat) { bytes + HEADER + ps - 1 < SIZE_MODULUS }

  lemma QuotientBound(a: nat, b: nat)
    requires b > 0
    ensures b * (a / b) <= a
  {
    assert a == b * (a / b) + a % b;
  }

  /** The pages asked for hold the header and the block exactly when the rounding sum does not wrap. */
  lemma EnoughPagesIff(bytes: nat, ps: nat)
    requires 0 < bytes < SIZE_MODULUS && HEADER < ps < 0x8000_0000
    ensures HEADER + bytes <= ps * PagesFor(bytes, ps) <==> Representable(bytes, ps)
  {
    var sum := bytes + HEADER + ps - 1;
    if sum < SIZE_MODULUS {
      SmallModulo(sum, SIZE_MODULUS);
      Ceiling(bytes + HEADER, ps, PagesFor(bytes, ps));
    } else {
      assert sum % SIZE_MODULUS == sum - SIZE_MODULUS;
      QuotientBound(sum - SIZE_MODULUS, ps);
    }
  }

  // ----- Runs and blocks

  function Size(ps: nat, pages: nat): nat { ps * pages }

  function Top(ps: nat, r: Run): nat { r.base + Size(ps, r.pages) }

  predicate RunsApart(ps: nat, r: Run, s: Run) { Top(ps, r) <= s.base || Top(ps, s) <= r.base }

  predicate Inside(ps: nat, b: Block, r: Run) { r.base + HEADER <= b.start && b.start + b.size <= Top(ps, r) }

  predicate BlocksApart(b: Block, c: Block) { b.start + b.size <= c.start || c.start + c.size <= b.start }

  function SumPages(runs: seq<Run>): nat { if runs == [] then 0 else runs[0].pages + SumPages(runs[1..]) }

  function SumSizes(blocks: seq<Block>): nat {
    if blocks == [] then 0 else SumSizes(blocks[..|blocks| - 1]) + blocks[|blocks| - 1].size
  }

  /** The mapped runs, newest first, none at null, none overlapping. */
  ghost predicate GoodRuns(ps: nat, runs: seq<Run>) {
    && (forall i | 0 <= i < |runs| :: runs[i].base != 0 && runs[i].pages > 0)
    && (forall i, j | 0 <= i < j < |runs| :: RunsApart(ps, runs[i], runs[j]))
  }

  ghost predicate GoodBlocks(ps: nat, runs: seq<Run>, blocks: seq<Block>) {
    && (forall i | 0 <= i < |blocks| :: blocks[i].size > 0 && InSomeRun(ps, runs, blocks[i]))
    && (forall i, j | 0 <= i < j < |blocks| :: BlocksApart(blocks[i], blocks[j]))
  }

  ghost predicate InSomeRun(ps: nat, runs: seq<Run>, b: Block) { exists k :: 0 <= k < |runs| && Inside(ps, b, runs[k]) }

  /** The headers in memory link the runs, newest first. */
  ghost predicate Linked(memory: map<nat, Header>, last: nat, runs: seq<Run>) {
    && last == BaseAt(runs, 0)
    && (forall i | 0 <= i < |runs| :: LinkAt(memory, runs, i))
  }

  function BaseAt(runs: seq<Run>, i: nat): nat { if i < |runs| then runs[i].base else 0 }

  predicate LinkAt(memory: map<nat, Header>, runs: seq<Run>, i: nat)
    requires i < |runs|
  {
    runs[i].base in memory && memory[runs[i].base] == Header(BaseAt(runs, i + 1), runs[i].pages)
  }

  /** No block in any mapped run overlaps the header of any run. */
  lemma BlocksMissHeaders(ps: nat, runs: seq<Run>, blocks: seq<Block>, i: nat, k: nat)
    requires HEADER < ps && GoodRuns(ps, runs) && GoodBlocks(ps, runs, blocks) && i < |blocks| && k < |runs|
    ensures BlocksApart(blocks[i], Block(runs[k].base, HEADER))
  {
    hide Size;
    assert InSomeRun(ps, runs, blocks[i]);
    var m :| 0 <= m < |runs| && Inside(ps, blocks[i], runs[m]);
    HeaderFits(ps, runs[k].pages);
    if m < k {
      assert RunsApart(ps, runs[m], runs[k]);
    } else if k < m {
      assert RunsApart(ps, runs[k], runs[m]);
    }
  }

  lemma HeaderFits(ps: nat, pages: nat)
    requires pages > 0
    ensures ps <= Size(ps, pages)
  {
    Distribute(ps, 1, pages - 1);
  }

  /** A new run keeps the old blocks where they are. */
  lemma BlocksKeptByRun(ps: nat, runs: seq<Run>, r: Run, blocks: seq<Block>)
    requires GoodBlocks(ps, runs, blocks)
    ensures GoodBlocks(ps, [r] + runs, blocks)
  {
    forall i | 0 <= i < |blocks|
      ensures InSomeRun(ps, [r] + runs, blocks[i])
    {
      assert InSomeRun(ps, runs, blocks[i]);
      var k :| 0 <= k < |runs| && Inside(ps, blocks[i], runs[k]);
      assert ([r] + runs)[k + 1] == runs[k];
    }
  }

  /** Blocks of older runs miss everything in a new one. */
  lemma BlocksMissRun(ps: nat, runs: seq<Run>, r: Run, blocks: seq<Block>, b: Block)
    requires GoodBlocks(ps, runs, blocks) && Inside(ps, b, r)
    requires forall k | 0 <= k < |runs| :: RunsApart(ps, r, runs[k])
    ensures forall i | 0 <= i < |blocks| :: BlocksApart(blocks[i], b)
  {
    forall i | 0 <= i < |blocks|
      ensures BlocksApart(blocks[i], b)
    {
      assert InSomeRun(ps, runs, blocks[i]);
      var k :| 0 <= k < |runs| && Inside(ps, blocks[i], runs[k]);
      assert RunsApart(ps, r, runs[k]);
    }
  }

  lemma {:induction false} BlockAdded(ps: nat, runs: seq<Run>, blocks: seq<Block>, b: Block)
    requires GoodBlocks(ps, runs, blocks) && b.size > 0 && InSomeRun(ps, runs, b)
    requires forall i | 0 <= i < |blocks| :: BlocksApart(blocks[i], b)
    ensures GoodBlocks(ps, runs, blocks + [b]) && SumSizes(blocks + [b]) == SumSizes(blocks) + b.size
  {
    assert (blocks + [b])[..|blocks|] == blocks;
  }

  // ----- The allocator

  ghost predicate MissesAll(blocks: seq<Block>, b: Block) { forall i | 0 <= i < |blocks| :: BlocksApart(blocks[i], b) }

  predicate FreshRun(ps: nat, runs: seq<Run>, r: Run) {
    r.base != 0 && r.pages > 0 && forall k | 0 <= k < |runs| :: RunsApart(ps, r, runs[k])
  }

  lemma LastPageEnds(ps: nat, r: Run)
    requires r.pages > 0
    ensures r.base + Size(ps, r.pages - 1) + ps == Top(ps, r)
  {
    Distribute(ps, r.pages - 1, 1);
  }

  /** The block right after the header of a new run, and the rest of the run's last page. */
  lemma RunHolds(ps: nat, bytes: nat, r: Run)
    requires HEADER < ps < 0x8000_0000 && 0 < bytes && Representable(bytes, ps) && r.pages == PagesFor(bytes, ps)
    ensures r.pages > 0 && 0 <= Size(ps, r.pages) - (bytes + HEADER) < ps
    ensures Inside(ps, Block(r.base + HEADER, bytes), r)
  {
    SmallModulo(bytes + HEADER + ps - 1, SIZE_MODULUS);
    Ceiling(bytes + HEADER, ps, r.pages);
  }

  lemma LinkedGrows(ps: nat, memory: map<nat, Header>, last: nat, runs: seq<Run>, r: Run)
    requires ps > 0 && Linked(memory, last, runs) && GoodRuns(ps, runs) && FreshRun(ps, runs, r)
    ensures Linked(memory[r.base := Header(last, r.pages)], r.base, [r] + runs)
    ensures GoodRuns(ps, [r] + runs) && SumPages([r] + runs) == r.pages + SumPages(runs)
  {
    hide Size;
    var all, m := [r] + runs, memory[r.base := Header(last, r.pages)];
    assert all[1..] == runs;
    forall i | 0 <= i < |runs|
      ensures runs[i].base != r.base
    {
      assert RunsApart(ps, r, runs[i]);
      HeaderFits(ps, r.pages);
      HeaderFits(ps, runs[i].pages);
    }
    forall i | 0 <= i < |all|
      ensures LinkAt(m, all, i)
    {
      assert BaseAt(all, i + 1) == BaseAt(runs, i);
      if i > 0 {
        assert all[i] == runs[i - 1];
        assert LinkAt(memory, runs, i - 1);
      }
    }
    assert Linked(m, r.base, all);
    forall i, j | 0 <= i < j < |all|
      ensures RunsApart(ps, all[i], all[j])
    {
      assert all[j] == runs[j - 1];
      if i > 0 {
        assert all[i] == runs[i - 1];
      }
    }
  }

  lemma MissesOneMore(blocks: seq<Block>, b: Block, free: Block)
    requires MissesAll(blocks, free) && BlocksApart(b, free)
    ensures MissesAll(blocks + [b], free)
  {
    forall i | 0 <= i < |blocks + [b]|
      ensures BlocksApart((blocks + [b])[i], free)
    {
      if i < |blocks| {
        assert (blocks + [b])[i] == blocks[i];
      }
    }
  }

  /** A block carved off the front of the free end of the newest run. */
  lemma BlockInPage(ps: nat, runs: seq<Run>, blocks: seq<Block>, start: nat, bytes: nat, room: nat)
    requires GoodBlocks(ps, runs, blocks) && runs != [] && 0 < bytes <= room
    requires Inside(ps, Block(start, room), runs[0]) && MissesAll(blocks, Block(start, room))
    ensures GoodBlocks(ps, runs, blocks + [Block(start, bytes)])
    ensures SumSizes(blocks + [Block(start, bytes)]) == SumSizes(blocks) + bytes
    ensures MissesAll(blocks + [Block(start, bytes)], Block(start + bytes, room - bytes))
  {
    hide Size;
    var b, free := Block(start, bytes), Block(start + bytes, room - bytes);
    forall i | 0 <= i < |blocks|
      ensures BlocksApart(blocks[i], b) && BlocksApart(blocks[i], free)
    {
      assert BlocksApart(blocks[i], Block(start, room));
    }
    assert Inside(ps, b, runs[0]);
    BlockAdded(ps, runs, blocks, b);
    MissesOneMore(blocks, b, free);
  }

  /** A block at the start of a new run is good, and the rest of that run is free. */
  lemma BlockInNewRun(ps: nat, runs: seq<Run>, blocks: seq<Block>, r: Run, bytes: nat)
    requires HEADER < ps < 0x8000_0000 && 0 < bytes && Representable(bytes, ps) && r.pages == PagesFor(bytes, ps)
    requires GoodBlocks(ps, runs, blocks) && FreshRun(ps, runs, r)
    ensures var b := Block(r.base + HEADER, bytes);
      && GoodBlocks(ps, [r] + runs, blocks + [b])
      && SumSizes(blocks + [b]) == SumSizes(blocks) + bytes
      && Inside(ps, b, r)
      && MissesAll(blocks + [b], Block(b.start + bytes, Size(ps, r.pages) - (bytes + HEADER)))
  {
    hide Size;
    var b := Block(r.base + HEADER, bytes);
    RunHolds(ps, bytes, r);
    var free := Block(b.start + bytes, Size(ps, r.pages) - (bytes + HEADER));
    BlocksKeptByRun(ps, runs, r, blocks);
    BlocksMissRun(ps, runs, r, blocks, b);
    assert InSomeRun(ps, [r] + runs, b) by {
      assert ([r] + runs)[0] == r;
    }
    BlockAdded(ps, [r] + runs, blocks, b);
    assert Inside(ps, free, r);
    BlocksMissRun(ps, runs, r, blocks, free);
    MissesOneMore(blocks, b, free);
  }

  /** Unmapping the newest of the remaining runs leaves the headers of the others. */
  lemma LinkedShrinks(ps: nat, memory: map<nat, Header>, runs: seq<Run>, i: nat)
    requires ps > 0 && GoodRuns(ps, runs) && i < |runs| && Linked(memory, runs[i].base, runs[i..])
    ensures LinkAt(memory, runs[i..], 0)
    ensures var end := Top(ps, runs[i]);
      Linked(map a | a in memory && !(runs[i].base <= a < end) :: memory[a], memory[runs[i].base].next, runs[i + 1..])
  {
    hide Size;
    var rest := runs[i..];
    assert LinkAt(memory, rest, 0);
    forall k | 0 < k < |rest|
      ensures !(runs[i].base <= rest[k].base < Top(ps, runs[i]))
    {
      assert rest[k] == runs[i + k];
      assert RunsApart(ps, runs[i], runs[i + k]);
      HeaderFits(ps, runs[i + k].pages);
    }
    var after := runs[i + 1..];
    var m := map a | a in memory && !(runs[i].base <= a < Top(ps, runs[i])) :: memory[a];
    forall k | 0 <= k < |after|
      ensures LinkAt(m, after, k)
    {
      assert after[k] == rest[k + 1] && BaseAt(after, k + 1) == BaseAt(rest, k + 2);
      assert LinkAt(memory, rest, k + 1);
    }
    assert Linked(m, BaseAt(rest, 1), after);
  }

  lemma SmallIsRepresentable(bytes: nat, ps: nat)
    requires bytes <= ps < 0x8000_0000
    ensures Representable(bytes, ps)
  {
  }

  /** The block behind the header fits into the pages exactly when the rounding sum does not wrap. */
  lemma EnoughPages(ps: nat, bytes: nat, r: Run)
    requires 0 < bytes < SIZE_MODULUS && HEADER < ps < 0x8000_0000 && r.pages == PagesFor(bytes, ps)
    ensures Inside(ps, Block(r.base + HEADER, bytes), r) <==> Representable(bytes, ps)
  {
    EnoughPagesIff(bytes, ps);
  }

  lemma NothingWraps(ps: nat, bytes: nat, pages: nat)
    requires HEADER < ps < 0x8000_0000 && Representable(bytes, ps)
    requires 0 <= Size(ps, pages) - (bytes + HEADER) < ps
    ensures Wrap(ps - Wrap(Wrap(Size(ps, pages)) - Wrap(bytes + HEADER))) == ps - (Size(ps, pages) - (bytes + HEADER))
  {
    hide Size;
    SmallModulo(bytes + HEADER, SIZE_MODULUS);
    SmallModulo(Size(ps, pages), SIZE_MODULUS);
    SmallModulo(Size(ps, pages) - (bytes + HEADER), SIZE_MODULUS);
    SmallModulo(ps - (Size(ps, pages) - (bytes + HEADER)), SIZE_MODULUS);
  }

  /** Where the free end of a new run begins and what is left of its last page. */
  lemma RestOfRun(ps: nat, bytes: nat, r: Run, offset: nat)
    requires HEADER < ps < 0x8000_0000 && 0 < bytes && Representable(bytes, ps) && r.pages == PagesFor(bytes, ps)
    requires offset == Wrap(ps - Wrap(Wrap(Size(ps, r.pages)) - Wrap(bytes + HEADER))) % ps
    ensures var slack := Size(ps, r.pages) - (bytes + HEADER);
      && r.pages > 0 && 0 <= slack < ps
      && offset == (if slack == 0 then 0 else ps - slack)
      && r.base + Size(ps, r.pages - 1) + ps == r.base + HEADER + bytes + slack
  {
    hide Size, Wrap;
    RunHolds(ps, bytes, r);
    NothingWraps(ps, bytes, r.pages);
    OffsetModulo(ps, Size(ps, r.pages) - (bytes + HEADER));
    LastPageEnds(ps, r);
  }

  lemma FreshIs(ps: nat, runs: seq<Run>, r: Run)
    requires FreshRun(ps, runs, r)
    ensures r.base != 0 && r.pages > 0
  {
  }

  class PageAllocator {
    const pageSize: nat
    var last: nat
    var currentPage: nat
    var pageOffset: nat
    var pagesAllocated: nat
    var memory: map<nat, Header>
    ghost var runs: seq<Run>
    ghost var blocks: seq<Block>
    ghost var abandoned: nat

    /** The unused end of the current page. */
    ghost function Tail(): int
      reads this
    {
      if currentPage == 0 then 0 else pageSize - pageOffset
    }

    ghost predicate GoodPage()
      reads this
    {
      if currentPage == 0 then pageOffset == 0
      else
        && runs != [] && runs[0].pages > 0
        && currentPage == runs[0].base + Size(pageSize, runs[0].pages - 1)
        && 0 < pageOffset < pageSize
        && runs[0].base + HEADER <= currentPage + pageOffset
        && MissesAll(blocks, Block(currentPage + pageOffset, pageSize - pageOffset))
    }

    /** Every page is accounted for; less is abandoned than is handed out. */
    ghost predicate Accounted()
      reads this
    {
      && pagesAllocated == SumPages(runs)
      && Size(pageSize, pagesAllocated) == SumSizes(blocks) + HEADER * |runs| + abandoned + Tail()
      && abandoned <= SumSizes(blocks)
    }

    ghost predicate Valid()
      reads this
    {
      && HEADER < pageSize < 0x8000_0000
      && Linked(memory, last, runs)
      && GoodRuns(pageSize, runs)
      && GoodBlocks(pageSize, runs, blocks)
      && GoodPage()
      && Accounted()
    }

    constructor (pageSize: nat)
      requires HEADER < pageSize < 0x8000_0000
      ensures Valid() && this.pageSize == pageSize && runs == [] && blocks == []
    {
      this.pageSize := pageSize;
      last, currentPage, pageOffset, pagesAllocated, memory := 0, 0, 0, 0, map[];
      runs, blocks, abandoned := [], [], 0;
    }

    /**
     Returns a block of `bytes` bytes, or null when nothing is asked for or the kernel refuses.  The
     kernel's answer to a request for pages is `mapped`.
     */
    method Alloc(bytes: nat, mapped: nat) returns (ret: nat)
      requires Valid() && bytes < SIZE_MODULUS
      requires bytes > 0 && mapped != 0 ==> FreshRun(pageSize, runs, Run(mapped, PagesFor(bytes, pageSize)))
      modifies this
      ensures ret == 0 <==> bytes == 0 || (mapped == 0 && old(Tail()) < bytes)
      ensures ret == 0 ==> unchanged(this)
      ensures ret != 0 ==> blocks == old(blocks) + [Block(ret, bytes)]
      // Pages are taken only when the current page has no room.
      ensures ret != 0 && old(Tail()) >= bytes ==> runs == old(runs) && ret == old(currentPage + pageOffset)
      ensures ret != 0 && old(Tail()) < bytes ==> Took(ret, bytes, mapped, old(runs))
      // What is left of a page stays for the next blocks.
      ensures ret != 0 && old(Tail()) >= bytes ==> Tail() == old(Tail()) - bytes
      ensures ret != 0 && old(Tail()) < bytes && Representable(bytes, pageSize) ==>
        Tail() == Size(pageSize, PagesFor(bytes, pageSize)) - (HEADER + bytes)
      // The allocator stays sound, and the block lies in its run, unless rounding up wraps around.
      ensures ret == 0 || Representable(bytes, pageSize) ==> Valid() && Thrifty()
      ensures ret != 0 ==> runs != [] && (BlockFits(ret, bytes) <==> Representable(bytes, pageSize))
    {
      hide Size, Representable, PagesFor, Linked, GoodRuns, GoodBlocks, MissesAll, SumSizes, SumPages, FreshRun;
      if bytes == 0 {
        return 0;
      }
      if currentPage != 0 && pageSize - pageOffset >= bytes {
        ret := currentPage + pageOffset;
        SmallIsRepresentable(bytes, pageSize);
        LastPageEnds(pageSize, runs[0]);
        BlockInPage(pageSize, runs, blocks, ret, bytes, pageSize - pageOffset);
        blocks := blocks + [Block(ret, bytes)];
        pageOffset := pageOffset + bytes;
        if pageOffset == pageSize {
          pageOffset, currentPage := 0, 0;
        }
        return;
      }
      ret := AllocPages(bytes, mapped);
    }

    /** The second half of Alloc, when the current page has no room. */
    method AllocPages(bytes: nat, mapped: nat) returns (ret: nat)
      requires Valid() && 0 < bytes < SIZE_MODULUS && Tail() < bytes
      requires mapped != 0 ==> FreshRun(pageSize, runs, Run(mapped, PagesFor(bytes, pageSize)))
      modifies this
      ensures ret == 0 <==> mapped == 0
      ensures ret == 0 ==> unchanged(this)
      ensures ret != 0 ==> blocks == old(blocks) + [Block(ret, bytes)] && Took(ret, bytes, mapped, old(runs))
      ensures ret != 0 && Representable(bytes, pageSize) ==>
        Valid() && Tail() == Size(pageSize, PagesFor(bytes, pageSize)) - (HEADER + bytes)
      ensures ret != 0 ==> runs != [] && (BlockFits(ret, bytes) <==> Representable(bytes, pageSize))
    {
      hide Size, Representable, PagesFor, Wrap, Linked, GoodRuns, GoodBlocks, MissesAll, SumSizes, SumPages, FreshRun;
      ghost var tail := Tail();
      var pages := PagesFor(bytes, pageSize);
      ret := GetNPages(pages, mapped);
      if ret == 0 {
        return;
      }
      ghost var r := Run(ret, pages);
      FreshIs(pageSize, old(runs), r);
      EnoughPages(pageSize, bytes, r);
      var offset := Wrap(pageSize - Wrap(Wrap(Size(pageSize, pages)) - Wrap(bytes + HEADER))) % pageSize;
      if Representable(bytes, pageSize) {
        RestOfRun(pageSize, bytes, r, offset);
      }
      pageOffset := offset;
      currentPage := if pageOffset != 0 then ret + Size(pageSize, pages - 1) else 0;
      blocks := blocks + [Block(ret + HEADER, bytes)];
      abandoned := abandoned + tail;
      if Representable(bytes, pageSize) {
        LinkedGrows(pageSize, old(memory), old(last), old(runs), r);
        BlockInNewRun(pageSize, old(runs), old(blocks), r, bytes);
        assert GoodPage();
        assert Accounted() by {
          Distribute(pageSize, old(pagesAllocated), pages);
        }
      }
      ret := ret + HEADER;
    }

    ghost predicate Took(ret: nat, bytes: nat, mapped: nat, before: seq<Run>)
      reads this
    {
      pageSize > 0 && runs == [Run(mapped, PagesFor(bytes, pageSize))] + before && ret == mapped + HEADER
    }

    ghost predicate BlockFits(ret: nat, bytes: nat)
      requires runs != []
      reads this
    {
      Inside(pageSize, Block(ret, bytes), runs[0])
    }

    /** Pages held: at most twice what was handed out, a header for each mapping, and one page. */
    ghost predicate Thrifty()
      reads this
    {
      Size(pageSize, pagesAllocated) <= 2 * SumSizes(blocks) + HEADER * |runs| + pageSize
    }

    method GetNPages(numPages: nat, mapped: nat) returns (a: nat)
      modifies this`last, this`pagesAllocated, this`memory, this`runs
      ensures a == mapped
      ensures a == 0 ==> unchanged(this)
      ensures a != 0 ==>
        && runs == [Run(a, numPages)] + old(runs)
        && last == a
        && memory == old(memory)[a := Header(old(last), numPages)]
        && pagesAllocated == old(pagesAllocated) + numPages
    {
      if mapped == 0 {
        return 0;
      }
      memory := memory[mapped := Header(last, numPages)];
      last := mapped;
      pagesAllocated := pagesAllocated + numPages;
      runs := [Run(mapped, numPages)] + runs;
      return mapped;
    }

    /** Whether `p` lies in a mapped run. */
    method OwnsPointer(p: nat) returns (owned: bool)
      requires Valid()
      ensures owned <==> exists k :: 0 <= k < |runs| && runs[k].base <= p < Top(pageSize, runs[k])
    {
      hide Size, Representable, PagesFor;
      var header := last;
      ghost var i := 0;
      while header != 0
        invariant 0 <= i <= |runs| && header == BaseAt(runs, i)
        invariant forall k | 0 <= k < i :: !(runs[k].base <= p < Top(pageSize, runs[k]))
        decreases |runs| - i
      {
        assert LinkAt(memory, runs, i);
        if p >= header && p < header + Size(pageSize, memory[header].numPages) {
          return true;
        }
        header := memory[header].next;
        i := i + 1;
      }
      return false;
    }

    /** Unmaps every run exactly once; `unmapped` records the calls to munmap. */
    method FreeAll() returns (unmapped: seq<Run>)
      requires Valid()
      modifies this`memory
      ensures unmapped == runs && SumPages(unmapped) == pagesAllocated
      ensures forall a, k | a in memory && 0 <= k < |runs| :: !(runs[k].base <= a < Top(pageSize, runs[k]))
    {
      hide Size, Representable, PagesFor;
      unmapped := [];
      var cur := last;
      ghost var i := 0;
      while cur != 0
        invariant 0 <= i <= |runs| && cur == BaseAt(runs, i)
        invariant unmapped == runs[..i]
        invariant Linked(memory, cur, runs[i..])
        invariant forall a, k | a in memory && 0 <= k < i :: !(runs[k].base <= a < Top(pageSize, runs[k]))
        decreases |runs| - i
      {
        assert LinkAt(memory, runs[i..], 0);
        var next := memory[cur].next;
        var end := cur + Size(pageSize, memory[cur].numPages);
        assert runs[i..][0] == runs[i];
        LinkedShrinks(pageSize, memory, runs, i);
        unmapped := unmapped + [Run(cur, memory[cur].numPages)];
        memory := map a | a in memory && !(cur <= a < end) :: memory[a];
        cur := next;
        i := i + 1;
      }
      assert runs[..i] == runs;
    }
  }
}
