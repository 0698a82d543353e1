/**
 The compression function of MD5: the unrolled form with its simplified round functions, against the
 definition in section 3.4 of RFC 1321.
 */
module Md5Compression {

  datatype Hash = Hash(a: bv32, b: bv32, c: bv32, d: bv32)

  // ----- Section 3.4 of RFC 1321

  /** The auxiliary functions F, G, H and I. */
  function Auxiliary(i: nat, x: bv32, y: bv32, z: bv32): bv32 {
    if i < 16 then (x & y) | (!x & z)
    else if i < 32 then (x & z) | (y & !z)
    else if i < 48 then x ^ y ^ z
    else y ^ (x | !z)
  }

  /** The word of the block that operation `i` reads. */
  function WordAt(i: nat): (k: nat)
    ensures k < 16
  {
    if i < 16 then i else if i < 32 then (5 * i + 1) % 16 else if i < 48 then (3 * i + 5) % 16 else 7 * i % 16
  }

  function ShiftAt(i: nat): (s: bv32)
    ensures 0 < s < 32
  {
    var column := i % 4;
    if i < 16 then if column == 0 then 7 else if column == 1 then 12 else if column == 2 then 17 else 22
    else if i < 32 then if column == 0 then 5 else if column == 1 then 9 else if column == 2 then 14 else 20
    else if i < 48 then if column == 0 then 4 else if column == 1 then 11 else if column == 2 then 16 else 23
    else if column == 0 then 6 else if column == 1 then 10 else if column == 2 then 15 else 21
  }

  /** The table built from the sine function. */
  function SineAt(i: nat): bv32 {
    if i < 16 then Sine1(i) else if i < 32 then Sine2(i) else if i < 48 then Sine3(i) else Sine4(i)
  }

  function Sine1(i: nat): bv32 {
    match i
    case 0 => 0xd76aa478
    case 1 => 0xe8c7b756
    case 2 => 0x242070db
    case 3 => 0xc1bdceee
    case 4 => 0xf57c0faf
    case 5 => 0x4787c62a
    case 6 => 0xa8304613
    case 7 => 0xfd469501
    case 8 => 0x698098d8
    case 9 => 0x8b44f7af
    case 10 => 0xffff5bb1
    case 11 => 0x895cd7be
    case 12 => 0x6b901122
    case 13 => 0xfd987193
    case 14 => 0xa679438e
    case _ => 0x49b40821
  }

  function Sine2(i: nat): bv32 {
    match i
    case 16 => 0xf61e2562
    case 17 => 0xc040b340
    case 18 => 0x265e5a51
    case 19 => 0xe9b6c7aa
    case 20 => 0xd62f105d
    case 21 => 0x02441453
    case 22 => 0xd8a1e681
    case 23 => 0xe7d3fbc8
    case 24 => 0x21e1cde6
    case 25 => 0xc33707d6
    case 26 => 0xf4d50d87
    case 27 => 0x455a14ed
    case 28 => 0xa9e3e905
    case 29 => 0xfcefa3f8
    case 30 => 0x676f02d9
    case _ => 0x8d2a4c8a
  }

  function Sine3(i: nat): bv32 {
    match i
    case 32 => 0xfffa3942
    case 33 => 0x8771f681
    case 34 => 0x6d9d6122
    case 35 => 0xfde5380c
    case 36 => 0xa4beea44
    case 37 => 0x4bdecfa9
    case 38 => 0xf6bb4b60
    case 39 => 0xbebfbc70
    case 40 => 0x289b7ec6
    case 41 => 0xeaa127fa
    case 42 => 0xd4ef3085
    case 43 => 0x04881d05
    case 44 => 0xd9d4d039
    case 45 => 0xe6db99e5
    case 46 => 0x1fa27cf8
    case _ => 0xc4ac5665
  }

  function Sine4(i: nat): bv32 {
    match i
    case 48 => 0xf4292244
    case 49 => 0x432aff97
    case 50 => 0xab9423a7
    case 51 => 0xfc93a039
    case 52 => 0x655b59c3
    case 53 => 0x8f0ccc92
    case 54 => 0xffeff47d
    case 55 => 0x85845dd1
    case 56 => 0x6fa87e4f
    case 57 => 0xfe2ce6e0
    case 58 => 0xa3014314
    case 59 => 0x4e0811a1
    case 60 => 0xf7537e82
    case 61 => 0xbd3af235
    case 62 => 0x2ad7d2bb
    case _ => 0xeb86d391
  }

  /** Addition of words, modulo 2^32. */
  function Plus(x: bv32, y: bv32): bv32 { x + y }

  function Sum(a: bv32, f: bv32, word: bv32, sine: bv32): bv32 { a + f + word + sine }

  function Rotate(w: bv32, s: bv32): bv32
    requires 0 < s < 32
  {
    (w << s) | (w >> (32 - s))
  }

  function Operated(h: Hash, f: bv32, word: bv32, sine: bv32, s: bv32): bv32
    requires 0 < s < 32
  {
    Plus(h.b, Rotate(Sum(h.a, f, word, sine), s))
  }

  /** The registers after the operation, renamed so that the next one works on `a` again. */
  function Operation(i: nat, h: Hash, x: seq<bv32>): Hash
    requires |x| == 16
  {
    Hash(h.d, Operated(h, Auxiliary(i, h.b, h.c, h.d), x[WordAt(i)], SineAt(i), ShiftAt(i)), h.b, h.c)
  }

  function Operations(h: Hash, x: seq<bv32>, n: nat): Hash
    requires |x| == 16
  {
    if n == 0 then h else Operation(n - 1, Operations(h, x, n - 1), x)
  }

  function Compress(h: Hash, x: seq<bv32>): Hash
    requires |x| == 16
  {
    var r := Operations(h, x, 64);
    Hash(Plus(h.a, r.a), Plus(h.b, r.b), Plus(h.c, r.c), Plus(h.d, r.d))
  }

  // ----- The same said otherwise

  /** F chooses between two bits by the third. */
  lemma {:induction false} FIs(x: bv32, y: bv32, z: bv32)
    ensures Auxiliary(0, x, y, z) == z ^ (x & (y ^ z))
  {
  }

  lemma {:induction false} GIs(x: bv32, y: bv32, z: bv32)
    ensures Auxiliary(16, x, y, z) == y ^ (z & (x ^ y))
  {
  }

  /** H is the parity of three bits. */
  lemma {:induction false} HIs(x: bv32, y: bv32, z: bv32)
    ensures Auxiliary(32, x, y, z) == (x & !y & !z) | (!x & y & !z) | (!x & !y & z) | (x & y & z)
  {
  }

  lemma {:induction false} IIs(x: bv32, y: bv32, z: bv32)
    ensures Auxiliary(48, x, y, z) == (y & !x & z) | (!y & (x | !z))
  {
  }

  /** Sixteen operations use each. */
  lemma OneForEachRound(i: nat, x: bv32, y: bv32, z: bv32)
    requires i < 64
    ensures Auxiliary(i, x, y, z) == Auxiliary(i / 16 * 16, x, y, z)
  {
  }

  // The rotations of each round, as rotations of the language.

  lemma {:induction false} Rotations1(w: bv32)
    ensures Rotate(w, 7) == w.RotateLeft(7)
    ensures Rotate(w, 12) == w.RotateLeft(12)
    ensures Rotate(w, 17) == w.RotateLeft(17)
    ensures Rotate(w, 22) == w.RotateLeft(22)
  {
  }

  lemma {:induction false} Rotations2(w: bv32)
    ensures Rotate(w, 5) == w.RotateLeft(5)
    ensures Rotate(w, 9) == w.RotateLeft(9)
    ensures Rotate(w, 14) == w.RotateLeft(14)
    ensures Rotate(w, 20) == w.RotateLeft(20)
  {
  }

  lemma {:induction false} Rotations3(w: bv32)
    ensures Rotate(w, 4) == w.RotateLeft(4)
    ensures Rotate(w, 11) == w.RotateLeft(11)
    ensures Rotate(w, 16) == w.RotateLeft(16)
    ensures Rotate(w, 23) == w.RotateLeft(23)
  {
  }

  lemma {:induction false} Rotations4(w: bv32)
    ensures Rotate(w, 6) == w.RotateLeft(6)
    ensures Rotate(w, 10) == w.RotateLeft(10)
    ensures Rotate(w, 15) == w.RotateLeft(15)
    ensures Rotate(w, 21) == w.RotateLeft(21)
  {
  }

  lemma {:induction false} SumInAnyOrder(a: bv32, f: bv32, word: bv32, sine: bv32)
    ensures Sum(a, f, word, sine) == word + sine + f + a
  {
  }

  lemma {:induction false} PlusIs(x: bv32, y: bv32)
    ensures Plus(x, y) == y + x
  {
  }

  /** a = ((a + f + X[k] + T[i]) <<< s) + b. */
  lemma {:induction false} OperatedIs(h: Hash, f: bv32, word: bv32, sine: bv32, s: bv32)
    requires 0 < s < 32
    ensures Operated(h, f, word, sine, s) == Plus(Rotate(Sum(h.a, f, word, sine), s), h.b)
  {
    hide Rotate, Sum, Plus;
    Commutes(h.b, Rotate(Sum(h.a, f, word, sine), s));
  }

  /** Each register is increased by what it was before the block. */
  lemma {:induction false} CompressAdds(h: Hash, x: seq<bv32>)
    requires |x| == 16
    ensures var last := Operations(h, x, 64);
      Compress(h, x) == Hash(Plus(last.a, h.a), Plus(last.b, h.b), Plus(last.c, h.c), Plus(last.d, h.d))
  {
    hide Operations, Plus;
    var last := Operations(h, x, 64);
    Commutes(h.a, last.a);
    Commutes(h.b, last.b);
    Commutes(h.c, last.c);
    Commutes(h.d, last.d);
  }

  // ----- The code

  function F1(x: bv32, y: bv32, z: bv32): bv32 { z ^ (x & (y ^ z)) }

  function F2(x: bv32, y: bv32, z: bv32): bv32 { F1(z, x, y) }

  function F3(x: bv32, y: bv32, z: bv32): bv32 { x ^ y ^ z }

  function F4(x: bv32, y: bv32, z: bv32): bv32 { y ^ (x | !z) }

  function CodeSum(w: bv32, f: bv32, word: bv32, constant: bv32): bv32 { w + (f + (word + constant)) }

  /** `data` of the macro is a word of the block plus a constant. */
  function Step(f: bv32, w: bv32, x: bv32, word: bv32, constant: bv32, s: bv32): bv32
    requires 0 < s < 32
  {
    Plus(Rotate(CodeSum(w, f, word, constant), s), x)
  }

  function Chosen(i: nat, x: bv32, y: bv32, z: bv32): bv32 {
    if i < 16 then F1(x, y, z) else if i < 32 then F2(x, y, z) else if i < 48 then F3(x, y, z) else F4(x, y, z)
  }

  /** The shortened round functions are the ones of the standard. */
  lemma RoundFunctions(x: bv32, y: bv32, z: bv32)
    ensures F1(x, y, z) == (x & y) | (!x & z)
    ensures F2(x, y, z) == (x & z) | (y & !z)
  {
  }

  lemma StepOperates(h: Hash, f: bv32, word: bv32, sine: bv32, s: bv32)
    requires 0 < s < 32
    ensures Step(f, h.a, h.b, word, sine, s) == Operated(h, f, word, sine, s)
  {
    hide Rotate, Plus, Sum, CodeSum;
    SumsAgree(h.a, f, word, sine);
    Commutes(h.b, Rotate(Sum(h.a, f, word, sine), s));
  }

  lemma SumsAgree(a: bv32, f: bv32, word: bv32, constant: bv32)
    ensures CodeSum(a, f, word, constant) == Sum(a, f, word, constant)
  {
  }

  lemma Commutes(x: bv32, y: bv32)
    ensures Plus(x, y) == Plus(y, x)
  {
  }

  lemma ChosenIsAuxiliary(i: nat, x: bv32, y: bv32, z: bv32)
    ensures Chosen(i, x, y, z) == Auxiliary(i, x, y, z)
  {
    hide F1, F2;
    RoundFunctions(x, y, z);
  }

  predicate Entry(i: nat, k: nat, t: bv32, s: bv32) { WordAt(i) == k && SineAt(i) == t && ShiftAt(i) == s }

  /** One unrolled step is one operation of the standard. */
  lemma OneStep(h: Hash, x: seq<bv32>, i: nat, now: Hash, k: nat, t: bv32, s: bv32)
    requires |x| == 16 && Operations(h, x, i) == now && k < 16 && 0 < s < 32 && Entry(i, k, t, s)
    ensures var w := Step(Chosen(i, now.b, now.c, now.d), now.a, now.b, x[k], t, s);
      Operations(h, x, i + 1) == Hash(now.d, w, now.b, now.c)
  {
    hide SineAt, WordAt, ShiftAt, Step, Operated, Plus, Chosen, Auxiliary;
    ChosenIsAuxiliary(i, now.b, now.c, now.d);
    StepOperates(now, Auxiliary(i, now.b, now.c, now.d), x[WordAt(i)], SineAt(i), ShiftAt(i));
  }

  lemma Table1Early()
    ensures Entry(0, 0, 0xd76aa478, 7)
    ensures Entry(1, 1, 0xe8c7b756, 12)
    ensures Entry(2, 2, 0x242070db, 17)
    ensures Entry(3, 3, 0xc1bdceee, 22)
    ensures Entry(4, 4, 0xf57c0faf, 7)
    ensures Entry(5, 5, 0x4787c62a, 12)
    ensures Entry(6, 6, 0xa8304613, 17)
    ensures Entry(7, 7, 0xfd469501, 22)
  {
  }

  lemma Table1Late()
    ensures Entry(8, 8, 0x698098d8, 7)
    ensures Entry(9, 9, 0x8b44f7af, 12)
    ensures Entry(10, 10, 0xffff5bb1, 17)
    ensures Entry(11, 11, 0x895cd7be, 22)
    ensures Entry(12, 12, 0x6b901122, 7)
    ensures Entry(13, 13, 0xfd987193, 12)
    ensures Entry(14, 14, 0xa679438e, 17)
    ensures Entry(15, 15, 0x49b40821, 22)
  {
  }

  method Round1(start: Hash, x: seq<bv32>, ghost h: Hash) returns (r: Hash)
    requires |x| == 16 && start == Operations(h, x, 0)
    ensures r == Operations(h, x, 16)
  {
    hide Operations, Step, Plus, F1, F2, F3, F4, Entry, WordAt, SineAt, ShiftAt;
    Table1Early();
    Table1Late();
    var a, b, c, d := start.a, start.b, start.c, start.d;
    OneStep(h, x, 0, Hash(a, b, c, d), 0, 0xd76aa478, 7);
    a := Step(F1(b, c, d), a, b, x[0], 0xd76aa478, 7);
    OneStep(h, x, 1, Hash(d, a, b, c), 1, 0xe8c7b756, 12);
    d := Step(F1(a, b, c), d, a, x[1], 0xe8c7b756, 12);
    OneStep(h, x, 2, Hash(c, d, a, b), 2, 0x242070db, 17);
    c := Step(F1(d, a, b), c, d, x[2], 0x242070db, 17);
    OneStep(h, x, 3, Hash(b, c, d, a), 3, 0xc1bdceee, 22);
    b := Step(F1(c, d, a), b, c, x[3], 0xc1bdceee, 22);
    OneStep(h, x, 4, Hash(a, b, c, d), 4, 0xf57c0faf, 7);
    a := Step(F1(b, c, d), a, b, x[4], 0xf57c0faf, 7);
    OneStep(h, x, 5, Hash(d, a, b, c), 5, 0x4787c62a, 12);
    d := Step(F1(a, b, c), d, a, x[5], 0x4787c62a, 12);
    OneStep(h, x, 6, Hash(c, d, a, b), 6, 0xa8304613, 17);
    c := Step(F1(d, a, b), c, d, x[6], 0xa8304613, 17);
    OneStep(h, x, 7, Hash(b, c, d, a), 7, 0xfd469501, 22);
    b := Step(F1(c, d, a), b, c, x[7], 0xfd469501, 22);
    OneStep(h, x, 8, Hash(a, b, c, d), 8, 0x698098d8, 7);
    a := Step(F1(b, c, d), a, b, x[8], 0x698098d8, 7);
    OneStep(h, x, 9, Hash(d, a, b, c), 9, 0x8b44f7af, 12);
    d := Step(F1(a, b, c), d, a, x[9], 0x8b44f7af, 12);
    OneStep(h, x, 10, Hash(c, d, a, b), 10, 0xffff5bb1, 17);
    c := Step(F1(d, a, b), c, d, x[10], 0xffff5bb1, 17);
    OneStep(h, x, 11, Hash(b, c, d, a), 11, 0x895cd7be, 22);
    b := Step(F1(c, d, a), b, c, x[11], 0x895cd7be, 22);
    OneStep(h, x, 12, Hash(a, b, c, d), 12, 0x6b901122, 7);
    a := Step(F1(b, c, d), a, b, x[12], 0x6b901122, 7);
    OneStep(h, x, 13, Hash(d, a, b, c), 13, 0xfd987193, 12);
    d := Step(F1(a, b, c), d, a, x[13], 0xfd987193, 12);
    OneStep(h, x, 14, Hash(c, d, a, b), 14, 0xa679438e, 17);
    c := Step(F1(d, a, b), c, d, x[14], 0xa679438e, 17);
    OneStep(h, x, 15, Hash(b, c, d, a), 15, 0x49b40821, 22);
    b := Step(F1(c, d, a), b, c, x[15], 0x49b40821, 22);
    r := Hash(a, b, c, d);
  }

  lemma Table2Early()
    ensures Entry(16, 1, 0xf61e2562, 5)
    ensures Entry(17, 6, 0xc040b340, 9)
    ensures Entry(18, 11, 0x265e5a51, 14)
    ensures Entry(19, 0, 0xe9b6c7aa, 20)
    ensures Entry(20, 5, 0xd62f105d, 5)
    ensures Entry(21, 10, 0x02441453, 9)
    ensures Entry(22, 15, 0xd8a1e681, 14)
    ensures Entry(23, 4, 0xe7d3fbc8, 20)
  {
  }

  lemma Table2Late()
    ensures Entry(24, 9, 0x21e1cde6, 5)
    ensures Entry(25, 14, 0xc33707d6, 9)
    ensures Entry(26, 3, 0xf4d50d87, 14)
    ensures Entry(27, 8, 0x455a14ed, 20)
    ensures Entry(28, 13, 0xa9e3e905, 5)
    ensures Entry(29, 2, 0xfcefa3f8, 9)
    ensures Entry(30, 7, 0x676f02d9, 14)
    ensures Entry(31, 12, 0x8d2a4c8a, 20)
  {
  }

  method Round2(start: Hash, x: seq<bv32>, ghost h: Hash) returns (r: Hash)
    requires |x| == 16 && start == Operations(h, x, 16)
    ensures r == Operations(h, x, 32)
  {
    hide Operations, Step, Plus, F1, F2, F3, F4, Entry, WordAt, SineAt, ShiftAt;
    Table2Early();
    Table2Late();
    var a, b, c, d := start.a, start.b, start.c, start.d;
    OneStep(h, x, 16, Hash(a, b, c, d), 1, 0xf61e2562, 5);
    a := Step(F2(b, c, d), a, b, x[1], 0xf61e2562, 5);
    OneStep(h, x, 17, Hash(d, a, b, c), 6, 0xc040b340, 9);
    d := Step(F2(a, b, c), d, a, x[6], 0xc040b340, 9);
    OneStep(h, x, 18, Hash(c, d, a, b), 11, 0x265e5a51, 14);
    c := Step(F2(d, a, b), c, d, x[11], 0x265e5a51, 14);
    OneStep(h, x, 19, Hash(b, c, d, a), 0, 0xe9b6c7aa, 20);
    b := Step(F2(c, d, a), b, c, x[0], 0xe9b6c7aa, 20);
    OneStep(h, x, 20, Hash(a, b, c, d), 5, 0xd62f105d, 5);
    a := Step(F2(b, c, d), a, b, x[5], 0xd62f105d, 5);
    OneStep(h, x, 21, Hash(d, a, b, c), 10, 0x02441453, 9);
    d := Step(F2(a, b, c), d, a, x[10], 0x02441453, 9);
    OneStep(h, x, 22, Hash(c, d, a, b), 15, 0xd8a1e681, 14);
    c := Step(F2(d, a, b), c, d, x[15], 0xd8a1e681, 14);
    OneStep(h, x, 23, Hash(b, c, d, a), 4, 0xe7d3fbc8, 20);
    b := Step(F2(c, d, a), b, c, x[4], 0xe7d3fbc8, 20);
    OneStep(h, x, 24, Hash(a, b, c, d), 9, 0x21e1cde6, 5);
    a := Step(F2(b, c, d), a, b, x[9], 0x21e1cde6, 5);
    OneStep(h, x, 25, Hash(d, a, b, c), 14, 0xc33707d6, 9);
    d := Step(F2(a, b, c), d, a, x[14], 0xc33707d6, 9);
    OneStep(h, x, 26, Hash(c, d, a, b), 3, 0xf4d50d87, 14);
    c := Step(F2(d, a, b), c, d, x[3], 0xf4d50d87, 14);
    OneStep(h, x, 27, Hash(b, c, d, a), 8, 0x455a14ed, 20);
    b := Step(F2(c, d, a), b, c, x[8], 0x455a14ed, 20);
    OneStep(h, x, 28, Hash(a, b, c, d), 13, 0xa9e3e905, 5);
    a := Step(F2(b, c, d), a, b, x[13], 0xa9e3e905, 5);
    OneStep(h, x, 29, Hash(d, a, b, c), 2, 0xfcefa3f8, 9);
    d := Step(F2(a, b, c), d, a, x[2], 0xfcefa3f8, 9);
    OneStep(h, x, 30, Hash(c, d, a, b), 7, 0x676f02d9, 14);
    c := Step(F2(d, a, b), c, d, x[7], 0x676f02d9, 14);
    OneStep(h, x, 31, Hash(b, c, d, a), 12, 0x8d2a4c8a, 20);
    b := Step(F2(c, d, a), b, c, x[12], 0x8d2a4c8a, 20);
    r := Hash(a, b, c, d);
  }

  lemma Table3Early()
    ensures Entry(32, 5, 0xfffa3942, 4)
    ensures Entry(33, 8, 0x8771f681, 11)
    ensures Entry(34, 11, 0x6d9d6122, 16)
    ensures Entry(35, 14, 0xfde5380c, 23)
    ensures Entry(36, 1, 0xa4beea44, 4)
    ensures Entry(37, 4, 0x4bdecfa9, 11)
    ensures Entry(38, 7, 0xf6bb4b60, 16)
    ensures Entry(39, 10, 0xbebfbc70, 23)
  {
  }

  lemma Table3Late()
    ensures Entry(40, 13, 0x289b7ec6, 4)
    ensures Entry(41, 0, 0xeaa127fa, 11)
    ensures Entry(42, 3, 0xd4ef3085, 16)
    ensures Entry(43, 6, 0x04881d05, 23)
    ensures Entry(44, 9, 0xd9d4d039, 4)
    ensures Entry(45, 12, 0xe6db99e5, 11)
    ensures Entry(46, 15, 0x1fa27cf8, 16)
    ensures Entry(47, 2, 0xc4ac5665, 23)
  {
  }

  method Round3(start: Hash, x: seq<bv32>, ghost h: Hash) returns (r: Hash)
    requires |x| == 16 && start == Operations(h, x, 32)
    ensures r == Operations(h, x, 48)
  {
    hide Operations, Step, Plus, F1, F2, F3, F4, Entry, WordAt, SineAt, ShiftAt;
    Table3Early();
    Table3Late();
    var a, b, c, d := start.a, start.b, start.c, start.d;
    OneStep(h, x, 32, Hash(a, b, c, d), 5, 0xfffa3942, 4);
    a := Step(F3(b, c, d), a, b, x[5], 0xfffa3942, 4);
    OneStep(h, x, 33, Hash(d, a, b, c), 8, 0x8771f681, 11);
    d := Step(F3(a, b, c), d, a, x[8], 0x8771f681, 11);
    OneStep(h, x, 34, Hash(c, d, a, b), 11, 0x6d9d6122, 16);
    c := Step(F3(d, a, b), c, d, x[11], 0x6d9d6122, 16);
    OneStep(h, x, 35, Hash(b, c, d, a), 14, 0xfde5380c, 23);
    b := Step(F3(c, d, a), b, c, x[14], 0xfde5380c, 23);
    OneStep(h, x, 36, Hash(a, b, c, d), 1, 0xa4beea44, 4);
    a := Step(F3(b, c, d), a, b, x[1], 0xa4beea44, 4);
    OneStep(h, x, 37, Hash(d, a, b, c), 4, 0x4bdecfa9, 11);
    d := Step(F3(a, b, c), d, a, x[4], 0x4bdecfa9, 11);
    OneStep(h, x, 38, Hash(c, d, a, b), 7, 0xf6bb4b60, 16);
    c := Step(F3(d, a, b), c, d, x[7], 0xf6bb4b60, 16);
    OneStep(h, x, 39, Hash(b, c, d, a), 10, 0xbebfbc70, 23);
    b := Step(F3(c, d, a), b, c, x[10], 0xbebfbc70, 23);
    OneStep(h, x, 40, Hash(a, b, c, d), 13, 0x289b7ec6, 4);
    a := Step(F3(b, c, d), a, b, x[13], 0x289b7ec6, 4);
    OneStep(h, x, 41, Hash(d, a, b, c), 0, 0xeaa127fa, 11);
    d := Step(F3(a, b, c), d, a, x[0], 0xeaa127fa, 11);
    OneStep(h, x, 42, Hash(c, d, a, b), 3, 0xd4ef3085, 16);
    c := Step(F3(d, a, b), c, d, x[3], 0xd4ef3085, 16);
    OneStep(h, x, 43, Hash(b, c, d, a), 6, 0x04881d05, 23);
    b := Step(F3(c, d, a), b, c, x[6], 0x04881d05, 23);
    OneStep(h, x, 44, Hash(a, b, c, d), 9, 0xd9d4d039, 4);
    a := Step(F3(b, c, d), a, b, x[9], 0xd9d4d039, 4);
    OneStep(h, x, 45, Hash(d, a, b, c), 12, 0xe6db99e5, 11);
    d := Step(F3(a, b, c), d, a, x[12], 0xe6db99e5, 11);
    OneStep(h, x, 46, Hash(c, d, a, b), 15, 0x1fa27cf8, 16);
    c := Step(F3(d, a, b), c, d, x[15], 0x1fa27cf8, 16);
    OneStep(h, x, 47, Hash(b, c, d, a), 2, 0xc4ac5665, 23);
    b := Step(F3(c, d, a), b, c, x[2], 0xc4ac5665, 23);
    r := Hash(a, b, c, d);
  }

  lemma Table4Early()
    ensures Entry(48, 0, 0xf4292244, 6)
    ensures Entry(49, 7, 0x432aff97, 10)
    ensures Entry(50, 14, 0xab9423a7, 15)
    ensures Entry(51, 5, 0xfc93a039, 21)
    ensures Entry(52, 12, 0x655b59c3, 6)
    ensures Entry(53, 3, 0x8f0ccc92, 10)
    ensures Entry(54, 10, 0xffeff47d, 15)
    ensures Entry(55, 1, 0x85845dd1, 21)
  {
  }

  lemma Table4Late()
    ensures Entry(56, 8, 0x6fa87e4f, 6)
    ensures Entry(57, 15, 0xfe2ce6e0, 10)
    ensures Entry(58, 6, 0xa3014314, 15)
    ensures Entry(59, 13, 0x4e0811a1, 21)
    ensures Entry(60, 4, 0xf7537e82, 6)
    ensures Entry(61, 11, 0xbd3af235, 10)
    ensures Entry(62, 2, 0x2ad7d2bb, 15)
    ensures Entry(63, 9, 0xeb86d391, 21)
  {
  }

  method Round4(start: Hash, x: seq<bv32>, ghost h: Hash) returns (r: Hash)
    requires |x| == 16 && start == Operations(h, x, 48)
    ensures r == Operations(h, x, 64)
  {
    hide Operations, Step, Plus, F1, F2, F3, F4, Entry, WordAt, SineAt, ShiftAt;
    Table4Early();
    Table4Late();
    var a, b, c, d := start.a, start.b, start.c, start.d;
    OneStep(h, x, 48, Hash(a, b, c, d), 0, 0xf4292244, 6);
    a := Step(F4(b, c, d), a, b, x[0], 0xf4292244, 6);
    OneStep(h, x, 49, Hash(d, a, b, c), 7, 0x432aff97, 10);
    d := Step(F4(a, b, c), d, a, x[7], 0x432aff97, 10);
    OneStep(h, x, 50, Hash(c, d, a, b), 14, 0xab9423a7, 15);
    c := Step(F4(d, a, b), c, d, x[14], 0xab9423a7, 15);
    OneStep(h, x, 51, Hash(b, c, d, a), 5, 0xfc93a039, 21);
    b := Step(F4(c, d, a), b, c, x[5], 0xfc93a039, 21);
    OneStep(h, x, 52, Hash(a, b, c, d), 12, 0x655b59c3, 6);
    a := Step(F4(b, c, d), a, b, x[12], 0x655b59c3, 6);
    OneStep(h, x, 53, Hash(d, a, b, c), 3, 0x8f0ccc92, 10);
    d := Step(F4(a, b, c), d, a, x[3], 0x8f0ccc92, 10);
    OneStep(h, x, 54, Hash(c, d, a, b), 10, 0xffeff47d, 15);
    c := Step(F4(d, a, b), c, d, x[10], 0xffeff47d, 15);
    OneStep(h, x, 55, Hash(b, c, d, a), 1, 0x85845dd1, 21);
    b := Step(F4(c, d, a), b, c, x[1], 0x85845dd1, 21);
    OneStep(h, x, 56, Hash(a, b, c, d), 8, 0x6fa87e4f, 6);
    a := Step(F4(b, c, d), a, b, x[8], 0x6fa87e4f, 6);
    OneStep(h, x, 57, Hash(d, a, b, c), 15, 0xfe2ce6e0, 10);
    d := Step(F4(a, b, c), d, a, x[15], 0xfe2ce6e0, 10);
    OneStep(h, x, 58, Hash(c, d, a, b), 6, 0xa3014314, 15);
    c := Step(F4(d, a, b), c, d, x[6], 0xa3014314, 15);
    OneStep(h, x, 59, Hash(b, c, d, a), 13, 0x4e0811a1, 21);
    b := Step(F4(c, d, a), b, c, x[13], 0x4e0811a1, 21);
    OneStep(h, x, 60, Hash(a, b, c, d), 4, 0xf7537e82, 6);
    a := Step(F4(b, c, d), a, b, x[4], 0xf7537e82, 6);
    OneStep(h, x, 61, Hash(d, a, b, c), 11, 0xbd3af235, 10);
    d := Step(F4(a, b, c), d, a, x[11], 0xbd3af235, 10);
    OneStep(h, x, 62, Hash(c, d, a, b), 2, 0x2ad7d2bb, 15);
    c := Step(F4(d, a, b), c, d, x[2], 0x2ad7d2bb, 15);
    OneStep(h, x, 63, Hash(b, c, d, a), 9, 0xeb86d391, 21);
    b := Step(F4(c, d, a), b, c, x[9], 0xeb86d391, 21);
    r := Hash(a, b, c, d);
  }

  lemma NoOperations(h: Hash, x: seq<bv32>)
    requires |x| == 16
    ensures Operations(h, x, 0) == h
  {
  }

  /** The unrolled code computes the compression function of the standard. */
  method Transform(buf: Hash, x: seq<bv32>) returns (r: Hash)
    requires |x| == 16
    ensures r == Compress(buf, x)
  {
    hide Operations, Plus;
    NoOperations(buf, x);
    var h := Round1(buf, x, buf);
    h := Round2(h, x, buf);
    h := Round3(h, x, buf);
    h := Round4(h, x, buf);
    r := Hash(Plus(buf.a, h.a), Plus(buf.b, h.b), Plus(buf.c, h.c), Plus(buf.d, h.d));
  }
}
