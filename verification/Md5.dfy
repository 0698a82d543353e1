/**
 MD5Context: hashing a message that arrives in pieces.  The reference takes one byte at a time; it shows
 that how the message is cut into pieces leaves no trace in the context.
 */
module Md5 {
  import opened ByteStrings
  import opened Md5Compression

  const WORD := 0x1_0000_0000
  const COUNT := 0x1_0000_0000_0000_0000
  const BLOCK := 64

  /** A context as a value: hash words, number of bits modulo 2^64, block under construction. */
  datatype State = State(hash: Hash, bits: nat, block: seq<byte>)

  predicate Proper(s: State) { s.bits < COUNT && |s.block| == BLOCK }

  function Position(bits: nat): (p: nat)
    ensures p < BLOCK
  {
    bits / 8 % BLOCK
  }

  /** The bit count after `n` more bytes. */
  function Counted(bits: nat, n: nat): (c: nat)
    ensures c < COUNT
  {
    (bits + 8 * n) % COUNT
  }

  /** Four bytes of memory read as a little-endian word. */
  function Word(b0: byte, b1: byte, b2: byte, b3: byte): bv32 {
    (b0 as bv32) | ((b1 as bv32) << 8) | ((b2 as bv32) << 16) | ((b3 as bv32) << 24)
  }

  function Words(block: seq<byte>): (w: seq<bv32>)
    requires |block| == BLOCK
    ensures |w| == 16
  {
    seq(16, k requires 0 <= k < 16 => Word(block[4 * k], block[4 * k + 1], block[4 * k + 2], block[4 * k + 3]))
  }

  function CompressBlock(h: Hash, block: seq<byte>): Hash
    requires |block| == BLOCK
  {
    Compress(h, Words(block))
  }

  /** Byte `i` of a word, low-order byte first: section 2 of RFC 1321. */
  function WordByte(w: bv32, i: nat): bv32
    requires i < 4
  {
    if i == 0 then w % 0x100 else if i == 1 then w / 0x100 % 0x100
    else if i == 2 then w / 0x1_0000 % 0x100 else w / 0x100_0000
  }

  lemma WordIs(a: byte, b: byte, c: byte, d: byte)
    ensures var w := Word(a, b, c, d);
      && WordByte(w, 0) == a as bv32 && WordByte(w, 1) == b as bv32
      && WordByte(w, 2) == c as bv32 && WordByte(w, 3) == d as bv32
  {
  }

  /** The words of a block hold its bytes in order. */
  lemma {:induction false} WordsHoldBytes(block: seq<byte>, k: nat, i: nat)
    requires |block| == BLOCK && k < 16 && i < 4
    ensures WordByte(Words(block)[k], i) == block[4 * k + i] as bv32
  {
    hide Word, WordByte;
    WordIs(block[4 * k], block[4 * k + 1], block[4 * k + 2], block[4 * k + 3]);
    var w := Words(block)[k];
    if i == 0 {
      assert WordByte(w, 0) == block[4 * k] as bv32;
    } else if i == 1 {
      assert WordByte(w, 1) == block[4 * k + 1] as bv32;
    } else if i == 2 {
      assert WordByte(w, 2) == block[4 * k + 2] as bv32;
    }
  }

  // ----- The reference: one byte at a time

  function Absorb(s: State, x: byte): (r: State)
    requires Proper(s)
    ensures Proper(r)
  {
    var p := Position(s.bits);
    var block := s.block[p := x];
    State(if p == BLOCK - 1 then CompressBlock(s.hash, block) else s.hash, Counted(s.bits, 1), block)
  }

  function AbsorbAll(s: State, data: seq<byte>): (r: State)
    requires Proper(s)
    ensures Proper(r)
  {
    if data == [] then s else Absorb(AbsorbAll(s, data[..|data| - 1]), data[|data| - 1])
  }

  /** Two pieces leave the context one piece would have left, byte for byte. */
  lemma {:induction false} AbsorbAppend(s: State, a: seq<byte>, b: seq<byte>)
    requires Proper(s)
    ensures AbsorbAll(AbsorbAll(s, a), b) == AbsorbAll(s, a + b)
  {
    if b == [] {
      assert a + b == a;
    } else {
      AbsorbAppend(s, a, b[..|b| - 1]);
      assert (a + b)[..|a + b| - 1] == a + b[..|b| - 1];
    }
  }

  function AbsorbPieces(s: State, pieces: seq<seq<byte>>): (r: State)
    requires Proper(s)
    ensures Proper(r)
    decreases |pieces|
  {
    if pieces == [] then s else AbsorbPieces(AbsorbAll(s, pieces[0]), pieces[1..])
  }

  function Joined(pieces: seq<seq<byte>>): seq<byte> {
    if pieces == [] then [] else pieces[0] + Joined(pieces[1..])
  }

  /** However the message is cut, the context is the same. */
  lemma {:induction false} PiecesDoNotMatter(s: State, pieces: seq<seq<byte>>)
    requires Proper(s)
    ensures AbsorbPieces(s, pieces) == AbsorbAll(s, Joined(pieces))
    decreases |pieces|
  {
    if pieces != [] {
      PiecesDoNotMatter(AbsorbAll(s, pieces[0]), pieces[1..]);
      AbsorbAppend(s, pieces[0], Joined(pieces[1..]));
    }
  }

  // ----- What the reference computes

  lemma RemainderIs(x: nat, m: nat, q: nat, r: nat)
    requires r < m && x == m * q + r
    ensures x % m == r
  {
    var q', r' := x / m, x % m;
    assert x == m * q' + r';
    if q < q' {
      Times(m, q + 1, q');
    } else if q' < q {
      Times(m, q' + 1, q);
    }
  }

  lemma Times(m: nat, a: nat, b: nat)
    requires a <= b
    ensures m * a <= m * b && m * a + m == m * (a + 1)
  {
  }

  lemma PositionMoves(bits: nat)
    requires bits < COUNT
    ensures Position(Counted(bits, 1)) == (Position(bits) + 1) % BLOCK
  {
    if bits + 8 < COUNT {
      RemainderIs(bits + 8, COUNT, 0, bits + 8);
      assert (bits + 8) / 8 == bits / 8 + 1;
      NextPosition(bits / 8);
    } else {
      RemainderIs(bits + 8, COUNT, 1, bits + 8 - COUNT);
      assert (bits + 8 - COUNT) / 8 == 0 && bits / 8 == 0x1FFF_FFFF_FFFF_FFFF;
      RemainderIs(bits / 8, BLOCK, 0x7F_FFFF_FFFF_FFFF, BLOCK - 1);
    }
  }

  lemma NextPosition(q: nat)
    ensures (q + 1) % BLOCK == (q % BLOCK + 1) % BLOCK
  {
    var wraps := if q % BLOCK == BLOCK - 1 then 1 else 0;
    RemainderIs(q + 1, BLOCK, q / BLOCK + wraps, q % BLOCK + 1 - BLOCK * wraps);
  }

  lemma NothingCounted(bits: nat)
    requires bits < COUNT
    ensures Counted(bits, 0) == bits
  {
  }

  lemma CountMoves(bits: nat, n: nat)
    requires n > 0
    ensures Counted(Counted(bits, n - 1), 1) == Counted(bits, n)
  {
  }

  /** Bytes that stay within the block under construction, possibly completing it. */
  lemma {:induction false} WithinBlock(s: State, data: seq<byte>)
    requires Proper(s) && Position(s.bits) + |data| <= BLOCK
    ensures var p := Position(s.bits);
      var r := AbsorbAll(s, data);
      && r.block == s.block[..p] + data + s.block[p + |data|..]
      && r.hash == (if p + |data| == BLOCK then CompressBlock(s.hash, r.block) else s.hash)
      && r.bits == Counted(s.bits, |data|)
      && Position(r.bits) == (p + |data|) % BLOCK
  {
    hide CompressBlock, Position, Counted;
    var p := Position(s.bits);
    if data == [] {
      NothingCounted(s.bits);
      assert s.block[..p] + data + s.block[p..] == s.block;
    } else {
      var shorter, x := data[..|data| - 1], data[|data| - 1];
      WithinBlock(s, shorter);
      var m := AbsorbAll(s, shorter);
      PositionMoves(m.bits);
      CountMoves(s.bits, |data|);
      StoreNext(s.block, p, shorter, x);
      assert shorter + [x] == data;
      assert m.block[p + |shorter| := x] == s.block[..p] + data + s.block[p + |data|..];
      assert (p + |shorter|) % BLOCK == p + |shorter|;
    }
  }

  lemma StoreNext(block: seq<byte>, p: nat, d: seq<byte>, x: byte)
    requires p + |d| < |block|
    ensures (block[..p] + d + block[p + |d|..])[p + |d| := x] == block[..p] + (d + [x]) + block[p + |d| + 1..]
  {
  }

  /** The hash of the complete blocks of a message. */
  function HashBlocks(h: Hash, data: seq<byte>): Hash
    decreases |data|
  {
    if |data| < BLOCK then h else HashBlocks(CompressBlock(h, data[..BLOCK]), data[BLOCK..])
  }

  /**
   From a block boundary: the hash is the fold of the compression function over the complete blocks,
   the count has advanced by eight bits a byte, and the block under construction begins with the rest.
   */
  lemma {:induction false} AbsorbedBlocks(s: State, data: seq<byte>)
    requires Proper(s) && Position(s.bits) == 0
    ensures var r, rest := AbsorbAll(s, data), |data| % BLOCK;
      && r.hash == HashBlocks(s.hash, data)
      && r.bits == Counted(s.bits, |data|)
      && r.block[..rest] == data[|data| - rest..]
      && Position(r.bits) == rest
    decreases |data|
  {
    hide CompressBlock, Position, Counted, AbsorbAll;
    if |data| < BLOCK {
      WithinBlock(s, data);
      assert |data| % BLOCK == |data|;
    } else {
      var first, others := data[..BLOCK], data[BLOCK..];
      var m := AbsorbAll(s, first);
      WithinBlock(s, first);
      assert m.block == first;
      AbsorbedBlocks(m, others);
      AbsorbAppend(s, first, others);
      assert first + others == data;
      CountAdds(s.bits, |others|);
      SameRest(data);
    }
  }

  lemma SameRest(data: seq<byte>)
    requires BLOCK <= |data|
    ensures |data[BLOCK..]| % BLOCK == |data| % BLOCK
    ensures var rest := |data| % BLOCK; data[BLOCK..][|data| - BLOCK - rest..] == data[|data| - rest..]
  {
    assert (|data| - BLOCK) % BLOCK == |data| % BLOCK;
  }

  lemma CountAdds(bits: nat, n: nat)
    ensures Counted(Counted(bits, BLOCK), n) == Counted(bits, n + BLOCK)
  {
  }

  // ----- Finishing, as written

  function ByteOf(n: nat, k: nat): byte
    requires k < 4
  {
    (n / (if k == 0 then 1 else if k == 1 then 0x100 else if k == 2 then 0x1_0000 else 0x100_0000) % 0x100) as byte
  }

  /** A count word as memory. */
  function Bytes(n: nat): (b: seq<byte>)
    ensures |b| == 4
  {
    [ByteOf(n, 0), ByteOf(n, 1), ByteOf(n, 2), ByteOf(n, 3)]
  }

  function WordBytes(w: bv32): (b: seq<byte>)
    ensures |b| == 4
  {
    [(w & 0xFF) as byte, ((w >> 8) & 0xFF) as byte, ((w >> 16) & 0xFF) as byte, ((w >> 24) & 0xFF) as byte]
  }

  function HashBytes(h: Hash): (b: seq<byte>)
    ensures |b| == 16
  {
    WordBytes(h.a) + WordBytes(h.b) + WordBytes(h.c) + WordBytes(h.d)
  }

  function Register(h: Hash, j: nat): bv32 {
    if j == 0 then h.a else if j == 1 then h.b else if j == 2 then h.c else h.d
  }

  lemma WordBytesIs(w: bv32)
    ensures var b := WordBytes(w);
      && b[0] as bv32 == WordByte(w, 0) && b[1] as bv32 == WordByte(w, 1)
      && b[2] as bv32 == WordByte(w, 2) && b[3] as bv32 == WordByte(w, 3)
  {
  }

  /** The digest is the four registers in order, each low-order byte first. */
  lemma {:induction false} HashBytesAre(h: Hash, j: nat)
    requires j < 4
    ensures var b, w := HashBytes(h), Register(h, j);
      && b[4 * j] as bv32 == WordByte(w, 0) && b[4 * j + 1] as bv32 == WordByte(w, 1)
      && b[4 * j + 2] as bv32 == WordByte(w, 2) && b[4 * j + 3] as bv32 == WordByte(w, 3)
  {
    hide WordBytes, WordByte;
    WordBytesIs(Register(h, j));
    RegisterAt(h, j);
  }

  lemma RegisterAt(h: Hash, j: nat)
    requires j < 4
    ensures var b, w := HashBytes(h), WordBytes(Register(h, j));
      b[4 * j] == w[0] && b[4 * j + 1] == w[1] && b[4 * j + 2] == w[2] && b[4 * j + 3] == w[3]
  {
    hide WordBytes;
  }

  /** A count word in memory, low-order byte first. */
  lemma {:induction false} BytesOfSum(a: nat, b: nat, c: nat, d: nat)
    requires a < 0x100 && b < 0x100 && c < 0x100 && d < 0x100
    ensures Bytes(a + 0x100 * b + 0x1_0000 * c + 0x100_0000 * d) == [a as byte, b as byte, c as byte, d as byte]
  {
    Digits(a, b, c, d);
  }

  lemma Digits(a: nat, b: nat, c: nat, d: nat)
    requires a < 0x100 && b < 0x100 && c < 0x100 && d < 0x100
    ensures var n := a + 0x100 * b + 0x1_0000 * c + 0x100_0000 * d;
      n % 0x100 == a && n / 0x100 % 0x100 == b && n / 0x1_0000 % 0x100 == c && n / 0x100_0000 % 0x100 == d
  {
    var n := a + 0x100 * b + 0x1_0000 * c + 0x100_0000 * d;
    RemainderIs(n, 0x100, b + 0x100 * c + 0x1_0000 * d, a);
    RemainderIs(n, 0x1_0000, c + 0x100 * d, a + 0x100 * b);
    RemainderIs(n, 0x100_0000, d, a + 0x100 * b + 0x1_0000 * c);
    RemainderIs(b + 0x100 * c + 0x1_0000 * d, 0x100, c + 0x100 * d, b);
    RemainderIs(c + 0x100 * d, 0x100, d, c);
  }

  function Over(block: seq<byte>, at: nat, data: seq<byte>): (r: seq<byte>)
    requires at + |data| <= |block|
    ensures |r| == |block|
  {
    block[..at] + data + block[at + |data|..]
  }

  /** The block with the marker and zeros after `p` bytes of data, up to byte `to`. */
  function Marked(block: seq<byte>, p: nat, to: nat): (r: seq<byte>)
    requires p < to <= |block|
    ensures |r| == |block|
  {
    Over(block, p, [0x80] + Zeros(to - p - 1))
  }

  /** Both count words, the second over the last three bytes of the first, inside the data. */
  function Stamped(block: seq<byte>, bits: nat): (r: seq<byte>)
    requires |block| == BLOCK
    ensures |r| == BLOCK
  {
    Over(Over(block, 14, Bytes(bits % WORD)), 15, Bytes(bits / WORD))
  }

  const LENGTH_AT := 56

  /** The block compressed last, and the hash before it. */
  function LastBlock(s: State): (r: seq<byte>)
    requires Proper(s)
    ensures |r| == BLOCK
  {
    var p := Position(s.bits);
    var padded := if p < LENGTH_AT then Marked(s.block, p, LENGTH_AT)
                  else Over(Marked(s.block, p, BLOCK), 0, Zeros(LENGTH_AT));
    Stamped(padded, s.bits)
  }

  function HashBeforeLast(s: State): Hash
    requires Proper(s)
  {
    var p := Position(s.bits);
    if p < LENGTH_AT then s.hash else CompressBlock(s.hash, Marked(s.block, p, BLOCK))
  }

  function Digest(s: State): seq<byte>
    requires Proper(s)
  {
    HashBytes(CompressBlock(HashBeforeLast(s), LastBlock(s)))
  }

  /** From equal contexts the digest does not depend on how the message is cut. */
  lemma DigestOfPieces(s: State, pieces: seq<seq<byte>>)
    requires Proper(s)
    ensures Digest(AbsorbPieces(s, pieces)) == Digest(AbsorbAll(s, Joined(pieces)))
  {
    PiecesDoNotMatter(s, pieces);
  }

  /** The byte at `k` of the block under construction reaches the last block. */
  predicate Reaches(p: nat, k: nat) {
    if p < LENGTH_AT then (k < p && !(14 <= k < 19)) || LENGTH_AT <= k else LENGTH_AT <= k < p
  }

  lemma MarkedByte(block: seq<byte>, p: nat, to: nat, k: nat)
    requires p < to <= |block| && k < |block|
    ensures Marked(block, p, to)[k] == if k < p || to <= k then block[k] else if k == p then 0x80 else 0
  {
  }

  lemma CoveredByte(block: seq<byte>, n: nat, k: nat)
    requires n <= |block| && k < |block|
    ensures Over(block, 0, Zeros(n))[k] == if k < n then 0 else block[k]
  {
  }

  /** The last block byte by byte. */
  lemma LastBlockByte(s: State, k: nat)
    requires Proper(s) && k < BLOCK
    ensures var p := Position(s.bits);
      LastBlock(s)[k] ==
      if k == 14 then Bytes(s.bits % WORD)[0]
      else if 15 <= k < 19 then Bytes(s.bits / WORD)[k - 15]
      else if Reaches(p, k) then s.block[k]
      else if k == p then 0x80 else 0
  {
    hide Bytes, Position, Marked, Stamped, Over;
    var p := Position(s.bits);
    if p < LENGTH_AT {
      MarkedByte(s.block, p, LENGTH_AT, k);
      StampedByte(Marked(s.block, p, LENGTH_AT), s.bits, k);
    } else {
      var marked := Marked(s.block, p, BLOCK);
      MarkedByte(s.block, p, BLOCK, k);
      CoveredByte(marked, LENGTH_AT, k);
      StampedByte(Over(marked, 0, Zeros(LENGTH_AT)), s.bits, k);
    }
  }

  lemma StampedByte(block: seq<byte>, bits: nat, k: nat)
    requires |block| == BLOCK && k < BLOCK
    ensures Stamped(block, bits)[k] ==
      if k == 14 then Bytes(bits % WORD)[0] else if 15 <= k < 19 then Bytes(bits / WORD)[k - 15] else block[k]
  {
    hide Bytes;
  }

  /** What the last block depends on: in short, neither the bytes under the count words nor all of the data. */
  lemma LastBlockDependsOn(s: State, t: State)
    requires Proper(s) && Proper(t) && s.bits == t.bits
    ensures LastBlock(s) == LastBlock(t)
      <==> forall k: nat | k < BLOCK && Reaches(Position(s.bits), k) :: s.block[k] == t.block[k]
  {
    hide Bytes, Position, LastBlock;
    var p := Position(s.bits);
    forall k: nat | k < BLOCK
      ensures LastBlock(s)[k] == LastBlock(t)[k] <==> (Reaches(p, k) ==> s.block[k] == t.block[k])
    {
      LastBlockByte(s, k);
      LastBlockByte(t, k);
    }
    if forall k: nat | k < BLOCK && Reaches(p, k) :: s.block[k] == t.block[k] {
      assert LastBlock(s) == LastBlock(t);
    }
  }

  /** Everything that finishing puts through the compression function. */
  function Finishing(s: State): seq<byte>
    requires Proper(s)
  {
    var p := Position(s.bits);
    (if p < LENGTH_AT then [] else Marked(s.block, p, BLOCK)) + LastBlock(s)
  }

  lemma DigestCompresses(s: State)
    requires Proper(s)
    ensures Digest(s) == HashBytes(HashBlocks(s.hash, Finishing(s)))
  {
    hide HashBytes, CompressBlock, LastBlock, Marked, Position;
    var p, f, last := Position(s.bits), Finishing(s), LastBlock(s);
    assert HashBlocks(HashBeforeLast(s), last) == CompressBlock(HashBeforeLast(s), last) by {
      assert last[..BLOCK] == last && last[BLOCK..] == [];
    }
    if p < LENGTH_AT {
      assert f == last;
    } else {
      assert f[..BLOCK] == Marked(s.block, p, BLOCK) && f[BLOCK..] == last;
    }
  }

  /** The byte at `k` of the block under construction makes a difference to finishing. */
  predicate Matters(p: nat, k: nat) { if p < LENGTH_AT then Reaches(p, k) else k < p }

  /**
   Exactly what finishing depends on.  With fewer than 56 bytes in the block these are the data outside the
   five bytes that the count words cover, and eight bytes of an earlier block; with more, the data.
   */
  lemma FinishingDependsOn(s: State, t: State)
    requires Proper(s) && Proper(t) && s.bits == t.bits
    ensures Finishing(s) == Finishing(t)
      <==> forall k: nat | k < BLOCK && Matters(Position(s.bits), k) :: s.block[k] == t.block[k]
  {
    hide Position, LastBlock, Marked;
    var p := Position(s.bits);
    LastBlockDependsOn(s, t);
    if p < LENGTH_AT {
      assert Finishing(s) == LastBlock(s) && Finishing(t) == LastBlock(t);
      assert forall k: nat | k < BLOCK :: Matters(p, k) == Reaches(p, k);
    } else {
      assert forall k: nat | k < BLOCK :: Reaches(p, k) ==> k < p;
      var a, b := Marked(s.block, p, BLOCK), Marked(t.block, p, BLOCK);
      MarkedDependsOn(s.block, t.block, p);
      assert Finishing(s)[..BLOCK] == a && Finishing(t)[..BLOCK] == b;
      assert Finishing(s)[BLOCK..] == LastBlock(s) && Finishing(t)[BLOCK..] == LastBlock(t);
    }
  }

  lemma MarkedDependsOn(a: seq<byte>, b: seq<byte>, p: nat)
    requires |a| == |b| == BLOCK && p < BLOCK
    ensures Marked(a, p, BLOCK) == Marked(b, p, BLOCK) <==> forall k: nat | k < p :: a[k] == b[k]
  {
    hide Marked;
    forall k: nat | k < BLOCK
      ensures Marked(a, p, BLOCK)[k] == Marked(b, p, BLOCK)[k] <==> (k < p ==> a[k] == b[k])
    {
      MarkedByte(a, p, BLOCK, k);
      MarkedByte(b, p, BLOCK, k);
    }
    if forall k: nat | k < p :: a[k] == b[k] {
      assert Marked(a, p, BLOCK) == Marked(b, p, BLOCK);
    }
  }

  /** Messages that differ only under the count words of their last block have one digest. */
  lemma SameDigest(s: State, head: seq<byte>, x: seq<byte>, y: seq<byte>)
    requires Proper(s) && Position(AbsorbAll(s, head).bits) == 0 && |x| == |y| < LENGTH_AT
    requires forall k | 0 <= k < |x| && !(14 <= k < 19) :: x[k] == y[k]
    ensures Digest(AbsorbAll(s, head + x)) == Digest(AbsorbAll(s, head + y))
  {
    hide Position, CompressBlock, AbsorbAll, Digest, Counted;
    AbsorbAppend(s, head, x);
    AbsorbAppend(s, head, y);
    var m := AbsorbAll(s, head);
    ShortPiece(m, x);
    ShortPiece(m, y);
    SameInBlock(AbsorbAll(m, x), AbsorbAll(m, y), x, y, m.block);
  }

  lemma ShortPiece(s: State, x: seq<byte>)
    requires Proper(s) && Position(s.bits) == 0 && |x| < BLOCK
    ensures var r := AbsorbAll(s, x);
      r.hash == s.hash && r.bits == Counted(s.bits, |x|) && r.block == x + s.block[|x|..] && Position(r.bits) == |x|
  {
    hide Position, CompressBlock, AbsorbAll, Counted;
    WithinBlock(s, x);
    assert |x| % BLOCK == |x|;
    assert s.block[..0] + x + s.block[|x|..] == x + s.block[|x|..];
  }

  lemma SameInBlock(a: State, b: State, x: seq<byte>, y: seq<byte>, block: seq<byte>)
    requires Proper(a) && Proper(b) && a.hash == b.hash && a.bits == b.bits && |block| == BLOCK
    requires |x| == |y| < LENGTH_AT && Position(a.bits) == |x|
    requires a.block == x + block[|x|..] && b.block == y + block[|x|..]
    requires forall k | 0 <= k < |x| && !(14 <= k < 19) :: x[k] == y[k]
    ensures Digest(a) == Digest(b)
  {
    hide Position, CompressBlock, LastBlock, HashBytes;
    LastBlockDependsOn(a, b);
    forall k: nat | k < BLOCK && Reaches(|x|, k)
      ensures a.block[k] == b.block[k]
    {
    }
  }

  /** Two messages of twenty bytes that differ in byte 15 and have one digest, whatever the block held before. */
  lemma TwoMessagesOneDigest(block: seq<byte>)
    requires |block| == BLOCK
    ensures var s := State(Hash(0x67452301, 0xefcdab89, 0x98badcfe, 0x10325476), 0, block);
      var x, y := Zeros(20), Zeros(20)[15 := 1];
      x[15] != y[15] && Digest(AbsorbAll(s, x)) == Digest(AbsorbAll(s, y))
  {
    hide AbsorbAll, Digest;
    var s := State(Hash(0x67452301, 0xefcdab89, 0x98badcfe, 0x10325476), 0, block);
    var x, y := Zeros(20), Zeros(20)[15 := 1];
    AbsorbNothing(s, x);
    assert x[..0] == [] && [] + x == x && [] + y == y;
    SameDigest(s, [], x, y);
  }

  // ----- The context

  /** Twice 32 bits with a carry count modulo 2^64. */
  lemma CounterSplit(bits0: nat, bits1: nat, len: nat)
    requires bits0 < WORD && bits1 < WORD && len < COUNT
    ensures var low := (bits0 + len % WORD * 8 % WORD) % WORD;
      var carried := if low < bits0 then (bits1 + 1) % WORD else bits1;
      low + WORD * ((carried + len / 0x2000_0000) % WORD) == Counted(bits0 + WORD * bits1, len)
  {
    var q, r := len / 0x2000_0000, len % 0x2000_0000;
    ShiftedLow(len);
    var carry := if bits0 + 8 * r < WORD then 0 else 1;
    var low := bits0 + 8 * r - carry * WORD;
    RemainderIs(bits0 + 8 * r, WORD, carry, low);
    HighWord(bits1, carry, q);
    WholeCount(bits0 + WORD * bits1 + 8 * len, low, bits1 + carry + q);
  }

  lemma ShiftedLow(len: nat)
    ensures len % WORD * 8 % WORD == 8 * (len % 0x2000_0000)
  {
    var r := len % WORD;
    assert len == WORD * (len / WORD) + r;
    RemainderIs(len, 0x2000_0000, 8 * (len / WORD) + r / 0x2000_0000, r % 0x2000_0000);
    RemainderIs(8 * r, WORD, r / 0x2000_0000, 8 * (r % 0x2000_0000));
  }

  lemma WholeCount(total: nat, low: nat, high: nat)
    requires low < WORD && total == low + WORD * high
    ensures total % COUNT == low + WORD * (high % WORD)
  {
    RemainderIs(total, COUNT, high / WORD, low + WORD * (high % WORD));
  }

  lemma HighWord(bits1: nat, carry: nat, q: nat)
    requires bits1 < WORD && carry <= 1
    ensures (if carry == 1 then (bits1 + 1) % WORD + q else bits1 + q) % WORD == (bits1 + carry + q) % WORD
  {
    if carry == 1 && bits1 == WORD - 1 {
      RemainderIs(bits1 + 1 + q, WORD, 1 + q / WORD, q % WORD);
    }
  }

  lemma PositionOfLow(bits0: nat, bits1: nat)
    requires bits0 < WORD
    ensures bits0 / 8 % BLOCK == Position(bits0 + WORD * bits1)
  {
    assert (bits0 + WORD * bits1) / 8 == bits0 / 8 + 0x2000_0000 * bits1;
    RemainderIs(bits0 / 8 + 0x2000_0000 * bits1, BLOCK, bits0 / 8 / BLOCK + 0x80_0000 * bits1, bits0 / 8 % BLOCK);
  }

  lemma {:induction false} CountOf(s: State, data: seq<byte>)
    requires Proper(s)
    ensures AbsorbAll(s, data).bits == Counted(s.bits, |data|)
  {
    hide Counted, CompressBlock, Position;
    if data == [] {
      NothingCounted(s.bits);
    } else {
      CountOf(s, data[..|data| - 1]);
      CountMoves(s.bits, |data|);
    }
  }

  lemma AbsorbNothing(s: State, data: seq<byte>)
    requires Proper(s)
    ensures AbsorbAll(s, data[..0]) == s
  {
  }

  /** From a block boundary, at most one more block. */
  lemma Further(s: State, data: seq<byte>, o: nat, n: nat)
    requires Proper(s) && o + n <= |data| && n <= BLOCK && Position(AbsorbAll(s, data[..o]).bits) == 0
    ensures var m, r := AbsorbAll(s, data[..o]), AbsorbAll(s, data[..o + n]);
      && r.block == Over(m.block, 0, data[o..o + n])
      && r.hash == (if n == BLOCK then CompressBlock(m.hash, r.block) else m.hash)
      && r.bits == Counted(s.bits, o + n)
      && Position(r.bits) == n % BLOCK
  {
    hide CompressBlock, Position, Counted, AbsorbAll;
    AbsorbAppend(s, data[..o], data[o..o + n]);
    assert data[..o] + data[o..o + n] == data[..o + n];
    WithinBlock(AbsorbAll(s, data[..o]), data[o..o + n]);
    CountOf(s, data[..o + n]);
  }

  lemma OverTwice(block: seq<byte>, at: nat, a: seq<byte>, b: seq<byte>)
    requires at + |a| + |b| <= |block|
    ensures Over(Over(block, at, a), at + |a|, b) == Over(block, at, a + b)
  {
  }

  lemma OverAll(block: seq<byte>, data: seq<byte>)
    requires |block| == |data|
    ensures Over(block, 0, data) == data
  {
  }

  lemma CountWords(bits0: nat, bits1: nat)
    requires bits0 < WORD
    ensures (bits0 + WORD * bits1) % WORD == bits0 && (bits0 + WORD * bits1) / WORD == bits1
  {
    RemainderIs(bits0 + WORD * bits1, WORD, bits1, bits0);
  }

  class MD5Context {
    var buf: Hash
    var bits0: nat
    var bits1: nat
    const input: array<byte>

    ghost predicate Valid()
      reads this, input
    {
      input.Length == BLOCK && bits0 < WORD && bits1 < WORD
    }

    ghost function Value(): (s: State)
      requires Valid()
      reads this, input
      ensures Proper(s)
    {
      State(buf, Bits(), input[..])
    }

    ghost function Bits(): (n: nat)
      requires bits0 < WORD && bits1 < WORD
      reads this
      ensures n < COUNT
    {
      bits0 + WORD * bits1
    }

    /** Counts `len` more bytes; `t` is the number of bytes already in the block. */
    method CountBytes(len: nat) returns (t: nat)
      requires Valid() && len < COUNT
      modifies this`bits0, this`bits1
      ensures Valid() && Bits() == Counted(old(Bits()), len) && t == Position(old(Bits()))
    {
      t := bits0;
      CounterSplit(bits0, bits1, len);
      PositionOfLow(bits0, bits1);
      bits0 := (t + len % WORD * 8 % WORD) % WORD;
      if bits0 < t {
        bits1 := (bits1 + 1) % WORD;
      }
      bits1 := (bits1 + len / 0x2000_0000) % WORD;
      t := t / 8 % BLOCK;
    }

    /** MD5Init; the block keeps whatever memory held. */
    constructor (input: array<byte>)
      requires input.Length == BLOCK
      ensures this.input == input && Valid()
      ensures Value() == State(Hash(0x67452301, 0xefcdab89, 0x98badcfe, 0x10325476), 0, input[..])
    {
      this.input := input;
      buf := Hash(0x67452301, 0xefcdab89, 0x98badcfe, 0x10325476);
      bits0, bits1 := 0, 0;
    }

    /** memcpy into the block. */
    method Put(at: nat, data: seq<byte>)
      requires Valid() && at + |data| <= BLOCK
      modifies input
      ensures input[..] == Over(old(input[..]), at, data)
    {
      forall k | 0 <= k < |data| {
        input[at + k] := data[k];
      }
    }

    method MD5Transform()
      requires Valid()
      modifies this`buf
      ensures buf == CompressBlock(old(buf), input[..])
    {
      buf := Transform(buf, Words(input[..]));
    }

    method MD5Update(data: seq<byte>)
      requires Valid() && |data| < COUNT
      modifies this, input
      ensures Valid() && Value() == AbsorbAll(old(Value()), data)
    {
      hide CompressBlock, Position, Counted, AbsorbAll;
      ghost var s := Value();
      var t := CountBytes(|data|);
      AbsorbNothing(s, data);

      var o := 0;
      if t != 0 {
        if |data| < BLOCK - t {
          Put(t, data);
          WithinBlock(s, data);
          return;
        }
        Put(t, data[..BLOCK - t]);
        WithinBlock(s, data[..BLOCK - t]);
        MD5Transform();
        o := BLOCK - t;
      }
      while |data| - o >= BLOCK
        invariant Valid() && 0 <= o <= |data|
        invariant Position(AbsorbAll(s, data[..o]).bits) == 0
        invariant AbsorbAll(s, data[..o]).hash == buf && AbsorbAll(s, data[..o]).block == input[..]
        invariant Bits() == Counted(s.bits, |data|)
      {
        Put(0, data[o..o + BLOCK]);
        MD5Transform();
        Further(s, data, o, BLOCK);
        o := o + BLOCK;
      }
      Put(0, data[o..]);
      Further(s, data, o, |data| - o);
      assert data[..|data|] == data;
    }

    /** The digest as written; the context is cleared. */
    method MD5Final() returns (digest: seq<byte>)
      requires Valid()
      modifies this, input
      ensures digest == Digest(old(Value()))
      ensures Valid() && Value() == State(Hash(0, 0, 0, 0), 0, Zeros(BLOCK))
    {
      hide CompressBlock, Position, Bytes, HashBytes, Zeros, Over;
      PositionOfLow(bits0, bits1);
      CountWords(bits0, bits1);
      var count := bits0 / 8 % BLOCK;
      var p := count;
      Put(p, [0x80]);
      p := p + 1;
      count := BLOCK - 1 - count;
      if count < 8 {
        Put(p, Zeros(count));
        OverTwice(old(input[..]), p - 1, [0x80], Zeros(count));
        MD5Transform();
        Put(0, Zeros(LENGTH_AT));
      } else {
        Put(p, Zeros(count - 8));
        OverTwice(old(input[..]), p - 1, [0x80], Zeros(count - 8));
      }
      Put(14, Bytes(bits0));
      Put(15, Bytes(bits1));
      MD5Transform();
      digest := HashBytes(buf);
      ghost var last := input[..];
      buf, bits0, bits1 := Hash(0, 0, 0, 0), 0, 0;
      Put(0, Zeros(BLOCK));
      OverAll(last, Zeros(BLOCK));
    }
  }
}
