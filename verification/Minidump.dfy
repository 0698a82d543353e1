/**
 The minidump file writer: regions handed out one after another in a growing file, each filled through
 its own handle.  The file is a sequence of bytes; the outcomes of ftruncate and write are parameters.
 */
module Minidump {
  import opened ByteStrings

  const RVA_MODULUS := 0x1_0000_0000
  const INVALID_RVA := RVA_MODULUS - 1

  /** How the file grows: in steps of at least a page, or, where ftruncate is broken, only by writes. */
  datatype Platform = Platform(pageSize: nat, workaround: bool)

  datatype Dump = Dump(position: nat, size: nat, file: seq<byte>)

  datatype Region = Region(start: nat, size: nat)

  function Aligned(n: nat): nat { (n + 7) / 8 * 8 }

  lemma AlignedIs(n: nat)
    ensures n <= Aligned(n) < n + 8 && Aligned(n) % 8 == 0
  {
  }

  /** ftruncate. */
  function Resized(file: seq<byte>, n: nat): (r: seq<byte>)
    ensures |r| == n
  {
    if n <= |file| then file[..n] else file + Zeros(n - |file|)
  }

  /** lseek and write: a gap between the end of the file and the data reads as zeros. */
  function Written(file: seq<byte>, at: nat, data: seq<byte>): seq<byte> {
    if data == [] then file
    else
      var f := if |file| < at + |data| then Resized(file, at + |data|) else file;
      f[..at] + data + f[at + |data|..]
  }

  /** Bytes a region occupies in the file. */
  function Footprint(p: Platform, n: nat): nat { if p.workaround then n else Aligned(n) }

  /** The dump after Allocate; `grown` says whether ftruncate succeeds when it is needed. */
  function Allocated(p: Platform, d: Dump, n: nat, grown: bool): (Dump, nat) {
    var taken := Footprint(p, n);
    var next := (d.position + taken % RVA_MODULUS) % RVA_MODULUS;
    if p.workaround then (Dump(next, d.size + n, d.file), d.position)
    else if d.position + taken <= d.size then (Dump(next, d.size, d.file), d.position)
    else if !grown then (d, INVALID_RVA)
    else
      var size := d.size + if taken < p.pageSize then p.pageSize else taken;
      (Dump(next, size, Resized(d.file, size)), d.position)
  }

  /** The dump after Copy; the kernel accepts the first `wrote` bytes. */
  function Copied(d: Dump, at: nat, data: seq<byte>, wrote: nat): (Dump, bool)
    requires wrote <= |data|
  {
    if |data| + at > d.size then (d, false) else (d.(file := Written(d.file, at, data[..wrote])), wrote == |data|)
  }

  function Truncated(p: Platform, d: Dump): seq<byte> { if p.workaround then d.file else Resized(d.file, d.position) }

  lemma ResizedAt(file: seq<byte>, n: nat, k: nat)
    requires k < n
    ensures Resized(file, n)[k] == if k < |file| then file[k] else 0
  {
  }

  /** A gap that a write leaves reads as zeros. */
  lemma GapIsZero(file: seq<byte>, at: nat, data: seq<byte>, k: nat)
    requires data != [] && |file| <= k < at
    ensures k < |Written(file, at, data)| && Written(file, at, data)[k] == 0
  {
    ResizedAt(file, at + |data|, k);
  }

  /** The file grows only when it must, by a page or by what is asked for, whichever is more. */
  lemma GrowsByAPage(p: Platform, d: Dump, n: nat, grown: bool)
    requires !p.workaround
    ensures var (e, rva) := Allocated(p, d, n, grown);
      var short := d.position + Aligned(n) > d.size;
      && (!short ==> e.size == d.size && e.file == d.file && rva == d.position)
      && (short && !grown ==> e == d && rva == 0xFFFF_FFFF)
      && (short && grown ==>
            && rva == d.position && |e.file| == e.size && e.size - d.size >= p.pageSize && e.size - d.size >= n
            && (e.size - d.size == p.pageSize || e.size - d.size < n + 8))
  {
    hide Resized;
    AlignedIs(n);
  }

  /** In 32 bits, the next position is past the bytes taken. */
  lemma PositionMoves(p: Platform, d: Dump, n: nat, grown: bool)
    requires d.position + Footprint(p, n) < 0x1_0000_0000
    ensures var (e, rva) := Allocated(p, d, n, grown);
      e != d || rva == d.position ==>
        if p.workaround then e.position == d.position + n && e.size == d.size + n && e.file == d.file
        else d.position + n <= e.position < d.position + n + 8 && (e.position - d.position) % 8 == 0
  {
    hide Resized;
    AlignedIs(n);
    var taken := Footprint(p, n);
    assert taken % RVA_MODULUS == taken && (d.position + taken) % RVA_MODULUS == d.position + taken;
  }

  lemma WrittenAt(file: seq<byte>, at: nat, data: seq<byte>, k: nat)
    ensures k < |file| ==> k < |Written(file, at, data)|
    ensures k < |file| && !(at <= k < at + |data|) ==> Written(file, at, data)[k] == file[k]
    ensures at <= k < at + |data| ==> k < |Written(file, at, data)| && Written(file, at, data)[k] == data[k - at]
    ensures |file| <= |Written(file, at, data)|
    ensures |Written(file, at, data)| <= |file| || |Written(file, at, data)| == at + |data|
  {
  }

  // ----- Runs: any number of live handles, used in any order

  datatype Op =
    | Allocate(n: nat, grown: bool)
    | Write(handle: nat, offset: nat, data: seq<byte>, wrote: nat)

  /**
   `regions` are the successful allocations, oldest first; `images` records for each the last byte written
   at each offset through its handle.
   */
  datatype World = World(dump: Dump, regions: seq<Region>, images: seq<map<nat, byte>>)

  /** What callers of the writer respect: sizes are positive, copies in bounds, the file below 4 GiB. */
  predicate Allowed(p: Platform, w: World, op: Op) {
    match op
    case Allocate(n, _) => n > 0 && w.dump.position + Footprint(p, n) < RVA_MODULUS
    case Write(h, offset, data, wrote) =>
      h < |w.regions| && data != [] && offset + |data| <= w.regions[h].size && wrote <= |data|
  }

  function Noted(image: map<nat, byte>, offset: nat, data: seq<byte>): map<nat, byte> {
    if data == [] then image
    else Noted(image, offset, data[..|data| - 1])[offset + |data| - 1 := data[|data| - 1]]
  }

  lemma {:induction false} NotedAt(image: map<nat, byte>, offset: nat, data: seq<byte>)
    ensures forall k :: k in Noted(image, offset, data) <==> k in image || offset <= k < offset + |data|
    ensures forall k | offset <= k < offset + |data| :: Noted(image, offset, data)[k] == data[k - offset]
    ensures forall k | k in image && !(offset <= k < offset + |data|) :: Noted(image, offset, data)[k] == image[k]
  {
    if data != [] {
      NotedAt(image, offset, data[..|data| - 1]);
    }
  }

  function Step(p: Platform, w: World, op: Op): World
    requires |w.images| == |w.regions| && Allowed(p, w, op)
  {
    match op
    case Allocate(n, grown) =>
      var (d, rva) := Allocated(p, w.dump, n, grown);
      if rva == INVALID_RVA then w else World(d, w.regions + [Region(rva, n)], w.images + [map[]])
    case Write(h, offset, data, wrote) =>
      var (d, ok) := Copied(w.dump, w.regions[h].start + offset, data, wrote);
      World(d, w.regions, w.images[h := Noted(w.images[h], offset, data[..wrote])])
  }

  /** `r` is followed by the region at or after `end`. */
  predicate Before(p: Platform, r: Region, end: nat) { r.start + Footprint(p, r.size) <= end }

  ghost predicate GoodRegions(p: Platform, d: Dump, regions: seq<Region>) {
    && (forall i | 0 <= i < |regions| ::
          regions[i].size > 0 && Before(p, regions[i], d.position) && (!p.workaround ==> regions[i].start % 8 == 0))
    && (forall i, j | 0 <= i < j < |regions| :: Before(p, regions[i], regions[j].start))
  }

  predicate GoodDump(p: Platform, d: Dump) {
    && d.position < RVA_MODULUS
    && d.position <= d.size
    && (!p.workaround ==> d.position % 8 == 0)
    && (if p.workaround then d.position == d.size else d.size == 0 || |d.file| == d.size)
  }

  /** Every byte written through the handle is in the file, where the region says. */
  ghost predicate ReadsBack(file: seq<byte>, r: Region, image: map<nat, byte>) {
    forall k | k in image :: k < r.size && r.start + k < |file| && file[r.start + k] == image[k]
  }

  ghost predicate Sound(p: Platform, w: World) {
    && GoodDump(p, w.dump)
    && |w.images| == |w.regions|
    && GoodRegions(p, w.dump, w.regions)
    && (forall h | 0 <= h < |w.regions| :: ReadsBack(w.dump.file, w.regions[h], w.images[h]))
  }

  /** A new region starts where the last one ended, inside the file. */
  lemma {:induction false} AllocationKeeps(p: Platform, w: World, n: nat, grown: bool)
    requires Sound(p, w) && Allowed(p, w, Allocate(n, grown))
    ensures Sound(p, Step(p, w, Allocate(n, grown)))
    ensures Allocated(p, w.dump, n, grown).1 == INVALID_RVA
      <==> !grown && !p.workaround && w.dump.position + Aligned(n) > w.dump.size
  {
    AlignedIs(n);
    var d, taken := w.dump, Footprint(p, n);
    assert d.position % RVA_MODULUS == d.position && taken % RVA_MODULUS == taken;
    assert (d.position + taken) % RVA_MODULUS == d.position + taken;
    var (e, rva) := Allocated(p, d, n, grown);
    if rva != INVALID_RVA {
      var after := Step(p, w, Allocate(n, grown));
      EightsAdd(d.position, taken);
      RegionAdded(p, d, e, w.regions, Region(rva, n));
      forall h | 0 <= h < |after.regions|
        ensures ReadsBack(e.file, after.regions[h], after.images[h])
      {
        if h < |w.regions| {
          assert ReadsBack(d.file, w.regions[h], w.images[h]);
        }
      }
    }
  }

  /** The next region starts past this one exactly when the sum fits in 32 bits. */
  lemma NextRegionFollowsIff(p: Platform, d: Dump, n: nat)
    requires d.position < RVA_MODULUS
    ensures Before(p, Region(d.position, n), Allocated(p, d, n, true).0.position)
      <==> d.position + Footprint(p, n) < RVA_MODULUS
  {
    hide Resized;
    var taken := Footprint(p, n);
    assert d.position + taken < RVA_MODULUS ==> taken % RVA_MODULUS == taken;
  }

  lemma EightsAdd(a: nat, b: nat)
    ensures a % 8 == 0 && b % 8 == 0 ==> (a + b) % 8 == 0
  {
  }

  lemma RegionAdded(p: Platform, d: Dump, e: Dump, regions: seq<Region>, r: Region)
    requires GoodRegions(p, d, regions) && r.start == d.position && r.size > 0 && (!p.workaround ==> r.start % 8 == 0)
    requires e.position == d.position + Footprint(p, r.size)
    ensures GoodRegions(p, e, regions + [r])
  {
    hide Footprint;
    var all := regions + [r];
    forall i | 0 <= i < |all|
      ensures all[i].size > 0 && Before(p, all[i], e.position) && (!p.workaround ==> all[i].start % 8 == 0)
    {
      if i < |regions| {
        assert all[i] == regions[i] && Before(p, regions[i], d.position);
      }
    }
    forall i, j | 0 <= i < j < |all|
      ensures Before(p, all[i], all[j].start)
    {
      assert all[i] == regions[i] && Before(p, regions[i], d.position);
      if j < |regions| {
        assert all[j] == regions[j] && Before(p, regions[i], regions[j].start);
      }
    }
  }

  /** Different regions share no byte. */
  lemma RegionsApart(p: Platform, d: Dump, regions: seq<Region>, g: nat, h: nat)
    requires GoodRegions(p, d, regions) && g < |regions| && h < |regions| && g != h
    ensures regions[g].start + regions[g].size <= regions[h].start
         || regions[h].start + regions[h].size <= regions[g].start
  {
    AlignedIs(regions[g].size);
    AlignedIs(regions[h].size);
    if g < h {
      assert Before(p, regions[g], regions[h].start);
    } else {
      assert Before(p, regions[h], regions[g].start);
    }
  }

  /** A region and its footprint lie inside the writer's size. */
  lemma RegionFits(p: Platform, w: World, h: nat)
    requires Sound(p, w) && h < |w.regions|
    ensures w.regions[h].start + w.regions[h].size <= w.dump.position <= w.dump.size
  {
    AlignedIs(w.regions[h].size);
    assert Before(p, w.regions[h], w.dump.position);
  }

  /** A copy within one region changes no byte of another. */
  lemma CopyStaysApart(p: Platform, w: World, h: nat, offset: nat, data: seq<byte>, g: nat, k: nat)
    requires Sound(p, w) && h < |w.regions| && offset + |data| <= w.regions[h].size
    requires g < |w.regions| && g != h && k < w.regions[g].size && w.regions[g].start + k < |w.dump.file|
    ensures var at, file := w.regions[g].start + k, Written(w.dump.file, w.regions[h].start + offset, data);
      at < |file| && file[at] == w.dump.file[at]
  {
    RegionsApart(p, w.dump, w.regions, g, h);
    WrittenAt(w.dump.file, w.regions[h].start + offset, data, w.regions[g].start + k);
  }

  lemma {:induction false} ImageFollows(p: Platform, w: World, h: nat, offset: nat, part: seq<byte>, g: nat)
    requires Sound(p, w) && h < |w.regions| && g < |w.regions| && offset + |part| <= w.regions[h].size
    ensures ReadsBack(Written(w.dump.file, w.regions[h].start + offset, part), w.regions[g],
                      if g == h then Noted(w.images[h], offset, part) else w.images[g])
  {
    hide Written, Noted, GoodRegions, GoodDump;
    var at := w.regions[h].start + offset;
    var file := Written(w.dump.file, at, part);
    assert ReadsBack(w.dump.file, w.regions[g], w.images[g]);
    if g == h {
      NotedAt(w.images[h], offset, part);
      forall k | k in Noted(w.images[h], offset, part)
        ensures k < w.regions[h].size && w.regions[h].start + k < |file|
        ensures file[w.regions[h].start + k] == Noted(w.images[h], offset, part)[k]
      {
        WrittenAt(w.dump.file, at, part, w.regions[h].start + k);
      }
    } else {
      forall k | k in w.images[g]
        ensures w.regions[g].start + k < |file| && file[w.regions[g].start + k] == w.images[g][k]
      {
        CopyStaysApart(p, w, h, offset, part, g, k);
      }
    }
  }

  /** A copy within a region passes the bounds check, so it fails only if the kernel falls short. */
  lemma {:induction false} WriteKeeps(p: Platform, w: World, h: nat, offset: nat, data: seq<byte>, wrote: nat)
    requires Sound(p, w) && Allowed(p, w, Write(h, offset, data, wrote))
    ensures Sound(p, Step(p, w, Write(h, offset, data, wrote)))
    ensures Copied(w.dump, w.regions[h].start + offset, data, wrote).1 <==> wrote == |data|
  {
    hide Written, Footprint, GoodRegions, Noted;
    RegionFits(p, w, h);
    var part, after := data[..wrote], Step(p, w, Write(h, offset, data, wrote));
    WrittenAt(w.dump.file, w.regions[h].start + offset, part, 0);
    forall g | 0 <= g < |w.regions|
      ensures ReadsBack(after.dump.file, w.regions[g], after.images[g])
    {
      ImageFollows(p, w, h, offset, part, g);
    }
    SameRegions(p, w.dump, after.dump, w.regions);
  }

  lemma SameRegions(p: Platform, d: Dump, e: Dump, regions: seq<Region>)
    requires GoodRegions(p, d, regions) && d.position == e.position
    ensures GoodRegions(p, e, regions)
  {
    forall i | 0 <= i < |regions|
      ensures Before(p, regions[i], e.position)
    {
      assert Before(p, regions[i], d.position);
    }
  }

  lemma StepKeeps(p: Platform, w: World, op: Op)
    requires Sound(p, w) && Allowed(p, w, op)
    ensures Sound(p, Step(p, w, op))
  {
    match op
    case Allocate(n, grown) => AllocationKeeps(p, w, n, grown);
    case Write(h, offset, data, wrote) => WriteKeeps(p, w, h, offset, data, wrote);
  }

  ghost predicate AllAllowed(p: Platform, w: World, ops: seq<Op>)
    requires Sound(p, w)
    decreases |ops|
  {
    ops == [] || (Allowed(p, w, ops[0]) && (StepKeeps(p, w, ops[0]); AllAllowed(p, Step(p, w, ops[0]), ops[1..])))
  }

  ghost function Run(p: Platform, w: World, ops: seq<Op>): (r: World)
    requires Sound(p, w) && AllAllowed(p, w, ops)
    ensures Sound(p, r)
    decreases |ops|
  {
    if ops == [] then w else
      StepKeeps(p, w, ops[0]);
      Run(p, Step(p, w, ops[0]), ops[1..])
  }

  /** A writer that is given a file, which may have contents; its size is not asked for. */
  function Start(contents: seq<byte>): World { World(Dump(0, 0, contents), [], []) }

  lemma TruncationKeeps(p: Platform, w: World, h: nat)
    requires Sound(p, w) && h < |w.regions|
    ensures ReadsBack(Truncated(p, w.dump), w.regions[h], w.images[h])
  {
    RegionFits(p, w, h);
    assert ReadsBack(w.dump.file, w.regions[h], w.images[h]);
  }

  /** After any run and Close, each region reads back the last bytes written through its handle. */
  lemma ClosedReadsBack(p: Platform, contents: seq<byte>, ops: seq<Op>, h: nat)
    requires AllAllowed(p, Start(contents), ops) && h < |Run(p, Start(contents), ops).regions|
    ensures var w := Run(p, Start(contents), ops); ReadsBack(Truncated(p, w.dump), w.regions[h], w.images[h])
  {
    TruncationKeeps(p, Run(p, Start(contents), ops), h);
  }

  lemma HandleFits(p: Platform, w: World, h: nat)
    requires Sound(p, w) && h < |w.regions|
    ensures w.regions[h].start + w.regions[h].size <= w.dump.position < RVA_MODULUS && |w.images| == |w.regions|
  {
    RegionFits(p, w, h);
  }

  /** No handle has written another byte where `part` goes. */
  ghost predicate Harmless(w: World, at: nat, part: seq<byte>)
    requires |w.images| == |w.regions|
  {
    forall h, k | 0 <= h < |w.regions| && k in w.images[h] && at <= w.regions[h].start + k < at + |part| ::
      w.images[h][k] == part[w.regions[h].start + k - at]
  }

  /** A copy made outside its handle's region, or through a handle that has none. */
  lemma StrayCopyKeepsIff(p: Platform, w: World, at: nat, data: seq<byte>, wrote: nat)
    requires Sound(p, w) && wrote <= |data|
    ensures Sound(p, World(Copied(w.dump, at, data, wrote).0, w.regions, w.images))
      <==> at + |data| > w.dump.size || Harmless(w, at, data[..wrote])
  {
    hide Written, GoodRegions;
    var e, part := Copied(w.dump, at, data, wrote).0, data[..wrote];
    SameRegions(p, w.dump, e, w.regions);
    if at + |data| <= w.dump.size {
      WrittenAt(w.dump.file, at, part, 0);
      forall h, k | 0 <= h < |w.regions| && k in w.images[h]
        ensures Overlaid(w, at, part, e.file, h, k)
      {
        assert ReadsBack(w.dump.file, w.regions[h], w.images[h]);
        WrittenAt(w.dump.file, at, part, w.regions[h].start + k);
      }
      HarmlessReadsBack(w, at, part, e.file);
    }
  }

  /** The file holds the noted byte, or the one that `part` puts over it. */
  predicate Overlaid(w: World, at: nat, part: seq<byte>, file: seq<byte>, h: nat, k: nat)
    requires h < |w.regions| == |w.images| && k in w.images[h]
  {
    var i := w.regions[h].start + k;
    && k < w.regions[h].size
    && i < |file|
    && file[i] == if at <= i < at + |part| then part[i - at] else w.images[h][k]
  }

  lemma HarmlessReadsBack(w: World, at: nat, part: seq<byte>, file: seq<byte>)
    requires |w.images| == |w.regions|
    requires forall h, k | 0 <= h < |w.regions| && k in w.images[h] :: Overlaid(w, at, part, file, h, k)
    ensures Harmless(w, at, part)
      <==> forall h | 0 <= h < |w.regions| :: ReadsBack(file, w.regions[h], w.images[h])
  {
    if forall h | 0 <= h < |w.regions| :: ReadsBack(file, w.regions[h], w.images[h]) {
      forall h, k | 0 <= h < |w.regions| && k in w.images[h] && at <= w.regions[h].start + k < at + |part|
        ensures w.images[h][k] == part[w.regions[h].start + k - at]
      {
        assert Overlaid(w, at, part, file, h, k);
        assert ReadsBack(file, w.regions[h], w.images[h]);
      }
    }
  }

  /** So it is harmless to let go of a handle whose allocation failed, or one made after the last allocation. */
  lemma PastIsHarmless(p: Platform, w: World, at: nat, part: seq<byte>)
    requires Sound(p, w) && w.dump.position <= at
    ensures Harmless(w, at, part)
  {
    hide GoodRegions;
    forall h, k | 0 <= h < |w.regions| && k in w.images[h]
      ensures w.regions[h].start + k < at
    {
      RegionFits(p, w, h);
      assert ReadsBack(w.dump.file, w.regions[h], w.images[h]);
    }
  }

  // ----- The writer and its handles

  class MinidumpFileWriter {
    const platform: Platform
    var isOpen: bool
    var position: nat
    var size: nat
    var file: seq<byte>
    ghost var regions: seq<Region>
    ghost var images: seq<map<nat, byte>>

    ghost function Value(): Dump
      reads this
    {
      Dump(position, size, file)
    }

    ghost function Snapshot(): World
      reads this
    {
      World(Value(), regions, images)
    }

    ghost predicate Valid()
      reads this
    {
      isOpen && Sound(platform, Snapshot())
    }

    /** A writer on a newly created file, or on a descriptor of a file with contents. */
    constructor (platform: Platform, contents: seq<byte>)
      ensures Valid() && Snapshot() == Start(contents) && this.platform == platform
    {
      this.platform := platform;
      isOpen, position, size, file := true, 0, 0, contents;
      regions, images := [], [];
    }

    method Allocate(n: nat, grown: bool) returns (rva: nat)
      requires isOpen && n > 0 && position < RVA_MODULUS
      modifies this`position, this`size, this`file
      ensures (Value(), rva) == Allocated(platform, old(Value()), n, grown)
    {
      if platform.workaround {
        size := size + n;
        rva := position;
        position := (position + n % RVA_MODULUS) % RVA_MODULUS;
        return;
      }
      var aligned := (n + 7) / 8 * 8;
      if position + aligned > size {
        var growth := aligned;
        if growth < platform.pageSize {
          growth := platform.pageSize;
        }
        var newSize := size + growth;
        if !grown {
          return INVALID_RVA;
        }
        file := Resized(file, newSize);
        size := newSize;
      }
      rva := position;
      position := (position + aligned % RVA_MODULUS) % RVA_MODULUS;
    }

    /** The kernel takes the first `wrote` bytes. */
    method Copy(at: nat, src: seq<byte>, wrote: nat) returns (ok: bool)
      requires isOpen && src != [] && wrote <= |src|
      modifies this`file
      ensures (Value(), ok) == Copied(old(Value()), at, src, wrote)
    {
      if |src| + at > size {
        return false;
      }
      file := Written(file, at, src[..wrote]);
      return wrote == |src|;
    }

    /** Cuts the file to what was allocated; `cut` and `closed` are the outcomes of ftruncate and close. */
    method Close(cut: bool, closed: bool) returns (ok: bool)
      modifies this`isOpen, this`file
      ensures ok <==> !old(isOpen) || ((cut || platform.workaround) && closed)
      ensures isOpen == (old(isOpen) && !cut && !platform.workaround)
      ensures old(isOpen) && cut && !platform.workaround ==>
        |file| == position && forall k | 0 <= k < position :: file[k] == if k < |old(file)| then old(file)[k] else 0
      ensures !old(isOpen) || !cut || platform.workaround ==> file == old(file)
      ensures old(Valid()) ==> forall h | 0 <= h < |regions| :: ReadsBack(file, regions[h], images[h])
    {
      if !isOpen {
        return true;
      }
      ghost var w := Snapshot();
      forall h | 0 <= h < |regions| && Valid()
        ensures ReadsBack(Truncated(platform, Value()), regions[h], images[h])
      {
        TruncationKeeps(platform, w, h);
      }
      if !platform.workaround {
        if !cut {
          return false;
        }
        file := Resized(file, position);
      }
      isOpen := false;
      return closed;
    }
  }

  class UntypedMDRVA {
    const writer: MinidumpFileWriter
    var position: nat
    var size: nat
    ghost var index: nat

    /** The handle of the writer's region `index`. */
    ghost predicate Live()
      reads this, writer
    {
      writer.Valid() && index < |writer.regions| && writer.regions[index] == Region(position, size)
    }

    predicate Inside(at: nat, n: nat)
      reads this
    {
      position <= at && at + n <= position + size
    }

    constructor (writer: MinidumpFileWriter)
      ensures this.writer == writer && position == writer.position && size == 0
    {
      this.writer, position, size := writer, writer.position, 0;
    }

    method Allocate(n: nat, grown: bool) returns (ok: bool)
      requires writer.isOpen && writer.position < RVA_MODULUS && n > 0 && size == 0
      modifies this, writer
      ensures (writer.Value(), position) == Allocated(writer.platform, old(writer.Value()), n, grown)
      ensures size == n && writer.isOpen && (ok <==> position != INVALID_RVA)
      ensures old(writer.Valid() && Allowed(writer.platform, writer.Snapshot(), Op.Allocate(n, grown))) ==>
        && writer.Snapshot() == Step(writer.platform, old(writer.Snapshot()), Op.Allocate(n, grown))
        && (if ok then Live() && index == |old(writer.regions)| else writer.Valid())
    {
      ghost var p, w, op := writer.platform, writer.Snapshot(), Op.Allocate(n, grown);
      size := n;
      position := writer.Allocate(n, grown);
      ok := position != INVALID_RVA;
      if ok {
        index := |writer.regions|;
        writer.regions, writer.images := writer.regions + [Region(position, n)], writer.images + [map[]];
      }
      if Sound(p, w) && Allowed(p, w, op) {
        AllocationKeeps(p, w, n, grown);
      }
    }

    method Copy(at: nat, src: seq<byte>, wrote: nat) returns (ok: bool)
      requires writer.isOpen && src != [] && wrote <= |src| && at + |src| <= position + size
      modifies writer`file, writer`images
      ensures (writer.Value(), ok) == Copied(old(writer.Value()), at, src, wrote)
      ensures old(Live()) && position <= at ==>
        && Live() && (ok <==> wrote == |src|)
        && writer.Snapshot() == Step(writer.platform, old(writer.Snapshot()), Write(index, at - position, src, wrote))
    {
      ok := Send(at, src, wrote);
    }

    /** The copy, without the assertion that it stays below the end of this region. */
    method Send(at: nat, src: seq<byte>, wrote: nat) returns (ok: bool)
      requires writer.isOpen && src != [] && wrote <= |src|
      modifies writer`file, writer`images
      ensures (writer.Value(), ok) == Copied(old(writer.Value()), at, src, wrote)
      ensures old(Live()) && Inside(at, |src|) ==>
        && Live() && (ok <==> wrote == |src|)
        && writer.Snapshot() == Step(writer.platform, old(writer.Snapshot()), Write(index, at - position, src, wrote))
      ensures old(writer.Valid()) && !(old(Live()) && Inside(at, |src|)) ==>
        && writer.images == old(writer.images)
        && (writer.Valid() <==> at + |src| > writer.size || Harmless(old(writer.Snapshot()), at, src[..wrote]))
    {
      hide Sound, Written, Noted, Harmless;
      ghost var p, w, live := writer.platform, writer.Snapshot(), Live() && Inside(at, |src|);
      ok := writer.Copy(at, src, wrote);
      if live {
        WriteKeeps(p, w, index, at - position, src, wrote);
        HandleFits(p, w, index);
        writer.images := writer.images[index := Noted(writer.images[index], at - position, src[..wrote])];
      } else if Sound(p, w) {
        StrayCopyKeepsIff(p, w, at, src, wrote);
      }
    }
  }

  datatype AllocationState = Unallocated | SingleObject | Array | SingleObjectWithArray

  /** A handle for objects whose image in the file takes `objectSize` bytes. */
  class TypedMDRVA {
    const mdrva: UntypedMDRVA
    const objectSize: nat
    var data: seq<byte>
    var allocationState: AllocationState

    predicate Valid()
      reads this
    {
      |data| == objectSize > 0
    }

    ghost predicate Live()
      reads this, mdrva, mdrva.writer
    {
      && Valid()
      && mdrva.Live()
      && allocationState != Unallocated
      && (allocationState != Array ==> objectSize <= mdrva.size)
    }

    constructor (writer: MinidumpFileWriter, data: seq<byte>)
      requires data != []
      ensures Valid() && fresh(mdrva) && mdrva.writer == writer && mdrva.position == writer.position && mdrva.size == 0
      ensures objectSize == |data| && this.data == data && allocationState == Unallocated
    {
      objectSize, this.data, allocationState := |data|, data, Unallocated;
      mdrva := new UntypedMDRVA(writer);
    }

    /** What the three forms of allocation share. */
    method AllocateBytes(n: nat, grown: bool) returns (ok: bool)
      requires Ready() && n > 0
      modifies mdrva, mdrva.writer
      ensures Obtained(old(mdrva.writer.Snapshot()), old(mdrva.writer.isOpen), n, grown, ok)
    {
      ok := mdrva.Allocate(n, grown);
    }

    predicate Ready()
      reads this, mdrva, mdrva.writer
    {
      Valid() && mdrva.writer.isOpen && mdrva.writer.position < RVA_MODULUS && mdrva.size == 0
    }

    /** The handle after `n` bytes were asked for of the writer as it was, with or without success. */
    ghost predicate Obtained(w: World, open: bool, n: nat, grown: bool, ok: bool)
      reads this, mdrva, mdrva.writer
    {
      var p := mdrva.writer.platform;
      && (mdrva.writer.Value(), mdrva.position) == Allocated(p, w.dump, n, grown)
      && mdrva.size == n && mdrva.writer.isOpen && (ok <==> mdrva.position != INVALID_RVA)
      && (open && Sound(p, w) && Allowed(p, w, Allocate(n, grown)) ==>
            && mdrva.writer.Valid()
            && mdrva.writer.Snapshot() == Step(p, w, Allocate(n, grown))
            && (ok ==> mdrva.Live()))
    }

    /** An object, followed by `additional` bytes. */
    method AllocateObject(additional: nat, grown: bool) returns (ok: bool)
      requires Ready()
      modifies this`allocationState, mdrva, mdrva.writer
      ensures allocationState == SingleObject
      ensures Obtained(old(mdrva.writer.Snapshot()), old(mdrva.writer.isOpen), objectSize + additional, grown, ok)
    {
      allocationState := SingleObject;
      ok := AllocateBytes(objectSize + additional, grown);
    }

    method AllocateArray(count: nat, grown: bool) returns (ok: bool)
      requires Ready() && count > 0
      modifies this`allocationState, mdrva, mdrva.writer
      ensures allocationState == Array
      ensures Obtained(old(mdrva.writer.Snapshot()), old(mdrva.writer.isOpen), objectSize * count, grown, ok)
    {
      allocationState := Array;
      ok := AllocateBytes(objectSize * count, grown);
    }

    method AllocateObjectAndArray(count: nat, length: nat, grown: bool) returns (ok: bool)
      requires Ready() && count > 0 && length > 0
      modifies this`allocationState, mdrva, mdrva.writer
      ensures allocationState == SingleObjectWithArray
      ensures Obtained(old(mdrva.writer.Snapshot()), old(mdrva.writer.isOpen), objectSize + count * length, grown, ok)
    {
      allocationState := SingleObjectWithArray;
      ok := AllocateBytes(objectSize + count * length, grown);
    }

    /** Stores an element of the array. */
    method CopyIndex(index: nat, item: seq<byte>, wrote: nat) returns (ok: bool)
      requires Valid() && mdrva.writer.isOpen && allocationState == Array && |item| == objectSize && wrote <= |item|
      modifies mdrva.writer`file, mdrva.writer`images
      ensures Stored(old(mdrva.writer.Snapshot()), objectSize * index, item, wrote, ok)
    {
      ok := CopyTo(objectSize * index, item, wrote);
    }

    /** Stores a piece behind the object; `index` counts pieces of this length. */
    method CopyIndexAfterObject(index: nat, src: seq<byte>, wrote: nat) returns (ok: bool)
      requires Valid() && mdrva.writer.isOpen && allocationState == SingleObjectWithArray && src != [] && wrote <= |src|
      modifies mdrva.writer`file, mdrva.writer`images
      ensures Stored(old(mdrva.writer.Snapshot()), objectSize + index * |src|, src, wrote, ok)
    {
      ok := CopyTo(objectSize + index * |src|, src, wrote);
    }

    /** The writer after a copy to this offset, of which the handle does not check that it lies in its region. */
    ghost predicate Stored(w: World, offset: nat, src: seq<byte>, wrote: nat, ok: bool)
      requires wrote <= |src| && src != []
      reads this, mdrva, mdrva.writer
    {
      var p, at := mdrva.writer.platform, (mdrva.position + offset) % RVA_MODULUS;
      && (mdrva.writer.Value(), ok) == Copied(w.dump, at, src, wrote)
      && (Holds(w) && offset + |src| <= mdrva.size ==>
            && mdrva.Live() && (ok <==> wrote == |src|)
            && mdrva.writer.Snapshot() == Step(p, w, Write(mdrva.index, offset, src, wrote)))
      && (Sound(p, w) && !(Holds(w) && mdrva.Inside(at, |src|)) ==>
            && mdrva.writer.images == w.images
            && (mdrva.writer.Valid() <==> at + |src| > w.dump.size || Harmless(w, at, src[..wrote])))
    }

    /** The writer had a region for this handle. */
    ghost predicate Holds(w: World)
      reads this, mdrva, mdrva.writer
    {
      && Sound(mdrva.writer.platform, w)
      && mdrva.index < |w.regions| && w.regions[mdrva.index] == Region(mdrva.position, mdrva.size)
    }

    /** The address is narrowed to 32 bits. */
    method CopyTo(offset: nat, src: seq<byte>, wrote: nat) returns (ok: bool)
      requires mdrva.writer.isOpen && src != [] && wrote <= |src|
      modifies mdrva.writer`file, mdrva.writer`images
      ensures Stored(old(mdrva.writer.Snapshot()), offset, src, wrote, ok)
    {
      hide Sound, Step, Written, Noted, Harmless;
      ghost var w := mdrva.writer.Snapshot();
      if Holds(w) && offset + |src| <= mdrva.size {
        HandleFits(mdrva.writer.platform, w, mdrva.index);
        assert (mdrva.position + offset) % RVA_MODULUS == mdrva.position + offset;
      }
      ok := mdrva.Send((mdrva.position + offset) % RVA_MODULUS, src, wrote);
    }

    /** Stores the object at the start of the region, or where the handle was made if it has none. */
    method Flush(wrote: nat) returns (ok: bool)
      requires Valid() && mdrva.writer.isOpen && mdrva.position < RVA_MODULUS && wrote <= objectSize
      modifies mdrva.writer`file, mdrva.writer`images
      ensures Stored(old(mdrva.writer.Snapshot()), 0, data, wrote, ok)
    {
      ok := CopyTo(0, data, wrote);
    }

    /** The destructor: every handle but an array's stores its object, even if it was never allocated. */
    method Dispose(wrote: nat)
      requires Valid() && mdrva.writer.isOpen && mdrva.position < RVA_MODULUS && wrote <= objectSize
      modifies mdrva.writer`file, mdrva.writer`images
      ensures allocationState == Array ==> mdrva.writer.Snapshot() == old(mdrva.writer.Snapshot())
      ensures allocationState != Array ==> exists ok :: Stored(old(mdrva.writer.Snapshot()), 0, data, wrote, ok)
      ensures old(mdrva.writer.Valid()) && mdrva.position >= mdrva.writer.position ==>
        mdrva.writer.Valid() && mdrva.writer.images == old(mdrva.writer.images)
    {
      hide Sound, Step, Written, Noted, Harmless;
      if allocationState != Array {
        ghost var p, w := mdrva.writer.platform, mdrva.writer.Snapshot();
        var ok := Flush(wrote);
        assert Stored(w, 0, data, wrote, ok);
        if Sound(p, w) && mdrva.position >= w.dump.position {
          PastIsHarmless(p, w, mdrva.position, data[..wrote]);
          if Holds(w) {
            HandleFits(p, w, mdrva.index);
          }
        }
      }
    }
  }

  predicate ReadsAs(file: seq<byte>, r: Region, data: seq<byte>) {
    r.size == |data| && r.start + r.size <= |file| && file[r.start..r.start + r.size] == data
  }

  lemma WholeImage(file: seq<byte>, r: Region, data: seq<byte>)
    requires data != [] && r.size == |data| && ReadsBack(file, r, Noted(map[], 0, data))
    ensures ReadsAs(file, r, data)
  {
    NotedAt(map[], 0, data);
    assert r.size - 1 in Noted(map[], 0, data);
    forall k | 0 <= k < |data|
      ensures r.start + k < |file| && file[r.start + k] == data[k]
    {
      assert k in Noted(map[], 0, data);
    }
  }

  /** Dumps a piece of memory; on success it can be read back at the location returned. */
  method WriteMemory(writer: MinidumpFileWriter, src: seq<byte>, grown: bool, wrote: nat)
    returns (ok: bool, location: Region)
    requires writer.isOpen && writer.position < RVA_MODULUS && src != [] && wrote <= |src|
    modifies writer
    ensures var (d, rva) := Allocated(writer.platform, old(writer.Value()), |src|, grown);
      if rva == INVALID_RVA then !ok && writer.Value() == d
      else (writer.Value(), ok) == Copied(d, rva, src, wrote) && (ok ==> location == Region(rva, |src| % RVA_MODULUS))
    ensures old(writer.Valid() && Allowed(writer.platform, writer.Snapshot(), Allocate(|src|, grown))) ==>
      && writer.Valid()
      && (ok ==> ReadsAs(writer.file, location, src) && writer.regions == old(writer.regions) + [location])
  {
    hide Written, Resized, Noted, GoodRegions, GoodDump, Harmless;
    ghost var fits := writer.Valid() && Allowed(writer.platform, writer.Snapshot(), Allocate(|src|, grown));
    location := Region(0, 0);
    var mem := new UntypedMDRVA(writer);
    ok := mem.Allocate(|src|, grown);
    if ok {
      ok := mem.Copy(mem.position, src, wrote);
      if !ok {
        return;
      }
      location := Region(mem.position, mem.size % RVA_MODULUS);
      if fits {
        assert src[..wrote] == src;
        assert ReadsBack(writer.file, writer.regions[mem.index], writer.images[mem.index]);
        WholeImage(writer.file, location, src);
      }
    }
  }
}
