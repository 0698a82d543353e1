/**
 What the six converters are to do, said in numbers and without their code: the encoding forms of section
 3.9 of the Unicode Standard by division and remainder, which pieces of a source are read, what stands for
 each in the target, and why a call stops.
 */
module UtfMeaning {
  import opened Chunking
  import opened Utf
  import opened UtfLaws

  // ----- Encoding forms in numbers

  predicate IsHigh(u: bv32) { 0xD800 <= u <= 0xDBFF }

  predicate IsLow(u: bv32) { 0xDC00 <= u <= 0xDFFF }

  predicate IsScalar(v: bv32) { v <= 0xD7FF || 0xE000 <= v <= 0x10FFFF }

  function InUtf8(v: bv32): seq<bv32> {
    if v <= 0x7F then [v]
    else if v <= 0x7FF then [192 + v / 64, 128 + v % 64]
    else if v <= 0xFFFF then [224 + v / 4096, 128 + v / 64 % 64, 128 + v % 64]
    else [240 + v / 262144, 128 + v / 4096 % 64, 128 + v / 64 % 64, 128 + v % 64]
  }

  function HighHalf(v: bv32): bv32 { 0xD800 + (v - 0x10000) / 1024 }

  function LowHalf(v: bv32): bv32 { 0xDC00 + (v - 0x10000) % 1024 }

  function InUtf16(v: bv32): seq<bv32> { if v <= 0xFFFF then [v] else [HighHalf(v), LowHalf(v)] }

  lemma Leads(v: bv32)
    ensures v <= 0x7FF ==> Lead2(v) == 192 + v / 64
    ensures v <= 0xFFFF ==> Lead3(v) == 224 + v / 4096
    ensures v <= 0x10FFFF ==> Lead4(v) == 240 + v / 262144
  {
  }

  lemma Tails(v: bv32)
    ensures Tail0(v) == 128 + v % 64
    ensures Tail1(v) == 128 + v / 64 % 64
    ensures Tail2(v) == 128 + v / 4096 % 64
  {
  }

  lemma BytesInNumbers(v: bv32)
    requires v <= 0x10FFFF
    ensures Bytes(v) == InUtf8(v)
  {
    hide Lead2, Lead3, Lead4, Tail0, Tail1, Tail2;
    Leads(v);
    Tails(v);
  }

  lemma HalvesInNumbers(v: bv32)
    requires 0x10000 <= v <= 0x10FFFF
    ensures HighOf(v) == HighHalf(v) && LowOf(v) == LowHalf(v)
  {
  }

  lemma WordsInNumbers(v: bv32)
    requires v <= 0x10FFFF
    ensures Words(v) == InUtf16(v)
  {
    hide HighOf, LowOf, HighHalf, LowHalf;
    if v > 0xFFFF {
      HalvesInNumbers(v);
    }
  }

  lemma PairInNumbers(hi: bv32, lo: bv32)
    requires IsHigh(hi) && IsLow(lo)
    ensures var v := Paired(hi, lo);
      0x10000 <= v <= 0x10FFFF && hi == HighHalf(v) && lo == LowHalf(v)
  {
  }

  // ----- What is read

  /** Some units at the head of a source, and the value they stand for. */
  datatype Piece = Piece(units: seq<bv32>, value: bv32)

  predicate IsTail(b: bv32) { 0x80 <= b <= 0xBF }

  function AfterED(b: bv32, c: bv32): bv32 { 0xD000 + (b - 0x80) * 64 + (c - 0x80) }

  function AfterF4(b: bv32, c: bv32, d: bv32): bv32 { 0x100000 + (b - 0x80) * 4096 + (c - 0x80) * 64 + (d - 0x80) }

  /** ED or F4 before a byte below 80, with what the arithmetic makes of it. */
  predicate Slips(s: seq<bv32>, v: bv32) {
    || (|s| == 3 && s[0] == 0xED && s[1] < 0x80 && IsTail(s[2]) && v == AfterED(s[1], s[2]))
    || (|s| == 4 && s[0] == 0xF4 && s[1] < 0x80 && IsTail(s[2]) && IsTail(s[3]) && v == AfterF4(s[1], s[2], s[3]))
  }

  /** The shortest form of a scalar value, or a sequence that slips through. */
  predicate Sequence8(s: seq<bv32>, v: bv32) {
    (IsScalar(v) && s == InUtf8(v)) || Slips(s, v)
  }

  /** A surrogate that is half of no pair, as far as can be seen. */
  predicate Lone(s: seq<bv32>) {
    s != [] && (IsLow(s[0]) || (IsHigh(s[0]) && |s| > 1 && !IsLow(s[1])))
  }

  /** The source begins with this piece. */
  predicate Begins(k: Kind, flags: Flags, s: seq<bv32>, p: Piece) {
    && p.units <= s
    && match k
       case U32toU16 | U32toU8 => p.units == [p.value] && (flags.Strict? ==> !IsHigh(p.value) && !IsLow(p.value))
       case U16toU32 | U16toU8 =>
         (IsScalar(p.value) && p.units == InUtf16(p.value)) || (flags.Lenient? && Lone(s) && p == Piece([s[0]], s[0]))
       case U8toU16 | U8toU32 => Sequence8(p.units, p.value)
  }

  /** How many bytes the first one announces, itself included. */
  function Announced(b: bv32): nat {
    if b <= 0xBF then 1 else if b <= 0xDF then 2 else if b <= 0xEF then 3
    else if b <= 0xF7 then 4 else if b <= 0xFB then 5 else 6
  }

  /** Nothing can be read from the source, and why. */
  ghost predicate Refused(k: Kind, flags: Flags, s: seq<bv32>, why: Result) {
    && s != []
    && match k
       case U32toU16 | U32toU8 => flags.Strict? && (IsHigh(s[0]) || IsLow(s[0])) && why == SourceIllegal
       case U16toU32 | U16toU8 =>
         || (IsHigh(s[0]) && |s| == 1 && why == SourceExhausted)
         || (flags.Strict? && Lone(s) && why == SourceIllegal)
       case U8toU16 | U8toU32 =>
         if Announced(s[0]) > |s| then why == SourceExhausted
         else why == SourceIllegal && forall v :: !Sequence8(s[..Announced(s[0])], v)
  }

  /** Units of the width of the source. */
  predicate Sized(k: Kind, s: seq<bv32>) {
    match k
    case U16toU32 | U16toU8 => forall i | 0 <= i < |s| :: s[i] <= 0xFFFF
    case U8toU16 | U8toU32 => forall i | 0 <= i < |s| :: s[i] <= 0xFF
    case _ => true
  }

  // ----- What is written

  /** What stands for a value in the target. */
  function InTarget(k: Kind, flags: Flags, v: bv32): seq<bv32> {
    match k
    case U32toU16 =>
      if v > 0x10FFFF then (if flags.Strict? then [] else [0xFFFD])
      else if IsHigh(v) || IsLow(v) then [0xFFFD]
      else InUtf16(v)
    case U32toU8 => if v > 0x10FFFF then [0xEF, 0xBF, 0xBD] else InUtf8(v)
    case U16toU8 => InUtf8(v)
    case U8toU16 => InUtf16(v)
    case U16toU32 | U8toU32 => [v]
  }

  /** Room without which the value is not taken; one unit even if nothing is written. */
  function Needed(k: Kind, flags: Flags, v: bv32): nat {
    if InTarget(k, flags, v) == [] then 1 else |InTarget(k, flags, v)|
  }

  /** The value is no code point, which the call remembers. */
  predicate Remembered(k: Kind, flags: Flags, v: bv32) {
    v > 0x10FFFF && (k == U32toU8 || (k == U32toU16 && flags.Strict?))
  }

  // ----- One step

  lemma UncheckedThreeIs(b: bv32, c: bv32)
    requires b < 0x80 && IsTail(c)
    ensures Sum3(0xED, b, c) == AfterED(b, c)
  {
  }

  lemma UncheckedFourIs(b: bv32, c: bv32, d: bv32)
    requires b < 0x80 && IsTail(c) && IsTail(d)
    ensures Sum4(0xF4, b, c, d) == AfterF4(b, c, d)
  {
  }

  lemma AnnouncedIs(b: bv32)
    ensures Announced(b) == Trailing(b) + 1
  {
  }

  lemma ShortestIsLegal(v: bv32)
    requires IsScalar(v)
    ensures var s := InUtf8(v); s != [] && Legal(s) && v == Decoded(s) && |s| == Announced(s[0])
  {
    hide Decoded, Legal, Bytes, InUtf8, Trailing, Announced;
    BytesInNumbers(v);
    BytesDecode(v);
    EncodeLength(F8, v);
    AnnouncedIs(InUtf8(v)[0]);
  }

  lemma SlipsIsUnchecked(s: seq<bv32>, v: bv32)
    ensures Slips(s, v) <==> Unchecked(s) && v == Decoded(s)
    ensures Slips(s, v) ==> 3 <= |s| == Announced(s[0])
  {
    hide Decoded, Sum3, Sum4, AfterED, AfterF4;
    if |s| == 3 && s[0] == 0xED && s[1] < 0x80 && IsTail(s[2]) {
      DecodedIsSum(s);
      UncheckedThreeIs(s[1], s[2]);
    } else if |s| == 4 && s[0] == 0xF4 && s[1] < 0x80 && IsTail(s[2]) && IsTail(s[3]) {
      DecodedIsSum(s);
      UncheckedFourIs(s[1], s[2], s[3]);
    }
  }

  lemma ScalarDecoded(s: seq<bv32>)
    requires s != [] && Legal(s)
    ensures IsScalar(Decoded(s)) && (Table37(s) <==> s == InUtf8(Decoded(s)))
  {
    hide Decoded, Legal, Table37, Bytes, InUtf8;
    LegalDecodes(s);
    BytesInNumbers(Decoded(s));
  }

  /** Exactly these sequences are accepted, with these values. */
  lemma SequenceIsLegal(s: seq<bv32>, v: bv32)
    ensures Sequence8(s, v) <==> s != [] && Legal(s) && v == Decoded(s)
    ensures Sequence8(s, v) ==> |s| == Announced(s[0])
  {
    hide Decoded, Slips, Unchecked, Table37, InUtf8, Announced, IsScalar;
    SlipsIsUnchecked(s, v);
    if IsScalar(v) {
      ShortestIsLegal(v);
    }
    if s != [] && Legal(s) {
      ScalarDecoded(s);
    }
  }

  /** The step takes this piece and puts what stands for it. */
  predicate Takes(k: Kind, flags: Flags, e: Step<bv32>, p: Piece) {
    e == Emit(|p.units|, InTarget(k, flags, p.value), Needed(k, flags, p.value), Remembered(k, flags, p.value))
  }

  /** The step is right: it takes what the source begins with, or stops for the reason there is. */
  ghost predicate StepRight(k: Kind, flags: Flags, s: seq<bv32>, e: Step<bv32>) {
    && (e.Emit? ==> exists p :: Begins(k, flags, s, p))
    && (forall p | Begins(k, flags, s, p) :: Takes(k, flags, e, p))
    && (e.Halt? ==> Refused(k, flags, s, e.why) && e.need == if k == U32toU16 then 1 else 0)
    && (forall why | Refused(k, flags, s, why) :: e.Halt? && e.why == why)
  }

  lemma TargetLength(v: bv32)
    ensures |InUtf8(0xFFFD)| == 3 && InUtf8(0xFFFD) == [0xEF, 0xBF, 0xBD]
    ensures 1 <= |InUtf8(v)| && 1 <= |InUtf16(v)| <= 2
  {
  }

  lemma Only32(k: Kind, flags: Flags, s: seq<bv32>, p: Piece)
    requires s != [] && (k == U32toU16 || k == U32toU8)
    ensures Begins(k, flags, s, p)
      <==> p == Piece([s[0]], s[0]) && (flags.Strict? ==> !IsHigh(s[0]) && !IsLow(s[0]))
  {
    if p.units == [p.value] && p.units <= s {
      assert s[0] == p.units[0];
    }
  }

  lemma Take32to16(flags: Flags, s: seq<bv32>)
    requires s != []
    ensures var e := StepFn(U32toU16, flags)(s);
      if flags.Strict? && (IsHigh(s[0]) || IsLow(s[0])) then e == Halt(SourceIllegal, 1)
      else Takes(U32toU16, flags, e, Piece([s[0]], s[0]))
  {
    hide InUtf16, Words;
    if s[0] <= 0x10FFFF {
      WordsInNumbers(s[0]);
      WordsLength(s[0]);
    }
  }

  lemma Take32to8(flags: Flags, s: seq<bv32>)
    requires s != []
    ensures var e := StepFn(U32toU8, flags)(s);
      if flags.Strict? && (IsHigh(s[0]) || IsLow(s[0])) then e == Halt(SourceIllegal, 0)
      else Takes(U32toU8, flags, e, Piece([s[0]], s[0]))
  {
    hide InUtf8, Bytes;
    TargetLength(s[0]);
    BytesInNumbers(0xFFFD);
    if s[0] <= 0x10FFFF {
      BytesInNumbers(s[0]);
    }
  }

  lemma Right32(k: Kind, flags: Flags, s: seq<bv32>)
    requires s != [] && (k == U32toU16 || k == U32toU8)
    ensures StepRight(k, flags, s, StepFn(k, flags)(s))
  {
    hide StepFn, Takes, Begins;
    if k == U32toU16 {
      Take32to16(flags, s);
    } else {
      Take32to8(flags, s);
    }
    forall p
      ensures Begins(k, flags, s, p)
        <==> p == Piece([s[0]], s[0]) && (flags.Strict? ==> !IsHigh(s[0]) && !IsLow(s[0]))
    {
      Only32(k, flags, s, p);
    }
    TakesEmits(k, flags, StepFn(k, flags)(s), Piece([s[0]], s[0]));
    assert Begins(k, flags, s, Piece([s[0]], s[0]))
      <==> (flags.Strict? ==> !IsHigh(s[0]) && !IsLow(s[0]));
  }

  lemma TakesEmits(k: Kind, flags: Flags, e: Step<bv32>, p: Piece)
    ensures Takes(k, flags, e, p) ==> e.Emit?
  {
  }

  lemma WordsLength(v: bv32)
    ensures |InUtf16(v)| == if v <= 0xFFFF then 1 else 2
    ensures v <= 0xFFFF ==> InUtf16(v) == [v]
  {
  }

  lemma PairReads(v: bv32)
    requires 0x10000 <= v <= 0x10FFFF
    ensures IsHigh(HighHalf(v)) && IsLow(LowHalf(v)) && Paired(HighHalf(v), LowHalf(v)) == v
  {
    hide Paired, HighOf, LowOf, HighHalf, LowHalf;
    HalvesInNumbers(v);
    PairIsPair(v);
    PairDecodes(v);
  }

  lemma SurrogatesAlike(u: bv32)
    ensures High(u) == IsHigh(u) && Low(u) == IsLow(u)
  {
  }

  lemma UnitIsScalar(u: bv32)
    ensures u <= 0xFFFF && !IsHigh(u) && !IsLow(u) <==> IsScalar(u) && u <= 0xFFFF
    ensures !(IsHigh(u) && IsLow(u))
  {
  }

  lemma TwoUnits(v: bv32)
    requires IsScalar(v)
    ensures if v <= 0xFFFF then InUtf16(v) == [v] && !IsHigh(v) && !IsLow(v)
            else InUtf16(v) == [HighHalf(v), LowHalf(v)] && IsHigh(HighHalf(v)) && IsLow(LowHalf(v))
                 && Paired(HighHalf(v), LowHalf(v)) == v
  {
    hide Paired, HighHalf, LowHalf;
    if v > 0xFFFF {
      PairReads(v);
    }
  }

  lemma PairIsScalar(hi: bv32, lo: bv32)
    requires IsHigh(hi) && IsLow(lo)
    ensures IsScalar(Paired(hi, lo)) && InUtf16(Paired(hi, lo)) == [hi, lo]
  {
    hide Paired, HighHalf, LowHalf;
    PairInNumbers(hi, lo);
  }

  /** What a source of 16-bit units begins with is what is read. */
  lemma Reads16(k: Kind, flags: Flags, s: seq<bv32>, p: Piece)
    requires s != [] && FromUtf16(k) && Sized(k, s)
    ensures Begins(k, flags, s, p)
      <==> ReadUtf16(flags, s) == Got(|p.units|, p.value) && p.units <= s
  {
    if Begins(k, flags, s, p) {
      BegunIsRead(k, flags, s, p);
    }
    if p.units <= s && ReadUtf16(flags, s) == Got(|p.units|, p.value) {
      ReadIsBegun(k, flags, s, p);
    }
  }

  lemma BegunIsRead(k: Kind, flags: Flags, s: seq<bv32>, p: Piece)
    requires s != [] && FromUtf16(k) && Begins(k, flags, s, p)
    ensures ReadUtf16(flags, s) == Got(|p.units|, p.value)
  {
    hide Paired, HighHalf, LowHalf, IsHigh, IsLow, High, Low, IsScalar, InUtf16;
    SurrogatesAlike(s[0]);
    UnitIsScalar(s[0]);
    FirstUnits(s, p.units);
    if IsScalar(p.value) && p.units == InUtf16(p.value) {
      TwoUnits(p.value);
      if |p.units| > 1 {
        SurrogatesAlike(s[1]);
      }
    } else if |s| > 1 {
      SurrogatesAlike(s[1]);
    }
  }

  lemma PairBegins(k: Kind, flags: Flags, s: seq<bv32>)
    requires FromUtf16(k) && |s| > 1 && IsHigh(s[0]) && IsLow(s[1])
    ensures Begins(k, flags, s, Piece([s[0], s[1]], Paired(s[0], s[1])))
  {
    hide Paired, IsHigh, IsLow, IsScalar, InUtf16;
    PairIsScalar(s[0], s[1]);
    assert [s[0], s[1]] <= s;
  }

  lemma UnitBegins(k: Kind, flags: Flags, s: seq<bv32>)
    requires FromUtf16(k) && s != [] && s[0] <= 0xFFFF
    requires (IsHigh(s[0]) || IsLow(s[0])) ==> flags.Lenient? && Lone(s)
    ensures Begins(k, flags, s, Piece([s[0]], s[0]))
  {
    hide IsHigh, IsLow, IsScalar, Lone;
    UnitIsScalar(s[0]);
    assert [s[0]] <= s;
  }

  lemma ReadIsBegun(k: Kind, flags: Flags, s: seq<bv32>, p: Piece)
    requires s != [] && FromUtf16(k) && Sized(k, s)
    requires p.units <= s && ReadUtf16(flags, s) == Got(|p.units|, p.value)
    ensures Begins(k, flags, s, p)
  {
    hide Paired, IsHigh, IsLow, High, Low, Begins;
    SurrogatesAlike(s[0]);
    UnitIsScalar(s[0]);
    if |s| > 1 {
      SurrogatesAlike(s[1]);
    }
    if |p.units| == 2 {
      assert p.units == [s[0], s[1]];
      PairBegins(k, flags, s);
    } else {
      assert p.units == [s[0]];
      UnitBegins(k, flags, s);
    }
  }

  lemma FirstUnits(s: seq<bv32>, t: seq<bv32>)
    requires t <= s
    ensures |t| > 0 ==> s[0] == t[0]
    ensures |t| > 1 ==> s[1] == t[1]
  {
  }

  lemma Refuses16(k: Kind, flags: Flags, s: seq<bv32>, why: Result)
    requires s != [] && FromUtf16(k)
    ensures Refused(k, flags, s, why) <==> ReadUtf16(flags, s) == Bad(why)
  {
    hide Paired, IsHigh, IsLow, High, Low;
    SurrogatesAlike(s[0]);
    UnitIsScalar(s[0]);
    if |s| > 1 {
      SurrogatesAlike(s[1]);
    }
  }

  lemma Take16(k: Kind, flags: Flags, s: seq<bv32>, n: nat, v: bv32)
    requires s != [] && FromUtf16(k) && ReadUtf16(flags, s) == Got(n, v) && v <= 0x10FFFF
    ensures StepFn(k, flags)(s) == Emit(n, InTarget(k, flags, v), Needed(k, flags, v), Remembered(k, flags, v))
  {
    hide ReadUtf16, Bytes, InUtf8;
    BytesInNumbers(v);
    TargetLength(v);
  }

  lemma ReadInRange(flags: Flags, s: seq<bv32>, n: nat, v: bv32)
    requires s != [] && s[0] <= 0xFFFF && ReadUtf16(flags, s) == Got(n, v)
    ensures v <= 0x10FFFF && n <= |s|
  {
    hide Paired;
    if |s| > 1 && IsHigh(s[0]) && IsLow(s[1]) {
      PairInNumbers(s[0], s[1]);
    }
  }

  lemma Right16(k: Kind, flags: Flags, s: seq<bv32>)
    requires s != [] && FromUtf16(k) && Sized(k, s)
    ensures StepRight(k, flags, s, StepFn(k, flags)(s))
  {
    hide Begins, Refused, InTarget, Needed, Remembered;
    forall p
      ensures Begins(k, flags, s, p) <==> ReadUtf16(flags, s) == Got(|p.units|, p.value) && p.units <= s
    {
      Reads16(k, flags, s, p);
    }
    forall why
      ensures Refused(k, flags, s, why) <==> ReadUtf16(flags, s) == Bad(why)
    {
      Refuses16(k, flags, s, why);
    }
    ByRead(k, flags, s, ReadUtf16(flags, s)) by {
      if ReadUtf16(flags, s).Got? {
        var r := ReadUtf16(flags, s);
        ReadInRange(flags, s, r.taken, r.ch);
        Take16(k, flags, s, r.taken, r.ch);
      }
    }
  }

  /** From what is read to the whole step. */
  lemma ByRead(k: Kind, flags: Flags, s: seq<bv32>, r: Read)
    requires s != [] && k != U32toU16
    requires forall p :: Begins(k, flags, s, p) <==> r == Got(|p.units|, p.value) && p.units <= s
    requires forall why :: Refused(k, flags, s, why) <==> r == Bad(why)
    requires match r
      case Got(n, v) => n <= |s| && StepFn(k, flags)(s)
        == Emit(n, InTarget(k, flags, v), Needed(k, flags, v), Remembered(k, flags, v))
      case Bad(why) => StepFn(k, flags)(s) == Halt(why, 0)
    ensures StepRight(k, flags, s, StepFn(k, flags)(s))
  {
    hide StepFn, Begins, Refused, InTarget, Needed, Remembered;
    if r.Got? {
      assert Begins(k, flags, s, Piece(s[..r.taken], r.ch));
    }
  }

  predicate FromUtf8(k: Kind) { k == U8toU16 || k == U8toU32 }

  lemma Reads8(k: Kind, flags: Flags, s: seq<bv32>, p: Piece)
    requires s != [] && FromUtf8(k)
    ensures Begins(k, flags, s, p) <==> ReadUtf8(s) == Got(|p.units|, p.value) && p.units <= s
  {
    hide Sequence8, Legal, Decoded, Trailing, Announced;
    SequenceIsLegal(p.units, p.value);
    AnnouncedIs(s[0]);
    if p.units <= s {
      FirstUnits(s, p.units);
      assert p.units == s[..|p.units|];
    }
  }

  lemma Refuses8(k: Kind, flags: Flags, s: seq<bv32>, why: Result)
    requires s != [] && FromUtf8(k)
    ensures Refused(k, flags, s, why) <==> ReadUtf8(s) == Bad(why)
  {
    hide Sequence8, Legal, Decoded, Trailing, Announced;
    AnnouncedIs(s[0]);
    if Announced(s[0]) <= |s| {
      var t := s[..Announced(s[0])];
      forall v
        ensures Sequence8(t, v) <==> t != [] && Legal(t) && v == Decoded(t)
      {
        SequenceIsLegal(t, v);
      }
      if t != [] && Legal(t) {
        assert Sequence8(t, Decoded(t));
      }
    }
  }

  lemma Take8(k: Kind, flags: Flags, s: seq<bv32>, n: nat, v: bv32)
    requires s != [] && FromUtf8(k) && ReadUtf8(s) == Got(n, v) && IsScalar(v)
    ensures StepFn(k, flags)(s) == Emit(n, InTarget(k, flags, v), Needed(k, flags, v), Remembered(k, flags, v))
  {
    hide ReadUtf8, Words, InUtf16;
    WordsInNumbers(v);
    WordsLength(v);
  }

  lemma ReadIsScalar(s: seq<bv32>, n: nat, v: bv32)
    requires s != [] && ReadUtf8(s) == Got(n, v)
    ensures IsScalar(v) && n <= |s|
  {
    hide Legal, Decoded, IsScalar;
    ScalarDecoded(s[..n]);
  }

  lemma Right8(k: Kind, flags: Flags, s: seq<bv32>)
    requires s != [] && FromUtf8(k)
    ensures StepRight(k, flags, s, StepFn(k, flags)(s))
  {
    hide Begins, Refused, InTarget, Needed, Remembered, ReadUtf8;
    forall p
      ensures Begins(k, flags, s, p) <==> ReadUtf8(s) == Got(|p.units|, p.value) && p.units <= s
    {
      Reads8(k, flags, s, p);
    }
    forall why
      ensures Refused(k, flags, s, why) <==> ReadUtf8(s) == Bad(why)
    {
      Refuses8(k, flags, s, why);
    }
    ByRead(k, flags, s, ReadUtf8(s)) by {
      if ReadUtf8(s).Got? {
        var r := ReadUtf8(s);
        ReadIsScalar(s, r.taken, r.ch);
        Take8(k, flags, s, r.taken, r.ch);
      }
    }
  }

  /** Every step of every converter. */
  lemma EveryStep(k: Kind, flags: Flags, s: seq<bv32>)
    requires s != [] && Sized(k, s)
    ensures StepRight(k, flags, s, StepFn(k, flags)(s))
  {
    hide StepRight, StepFn;
    match k
    case U32toU16 | U32toU8 => Right32(k, flags, s);
    case U16toU32 | U16toU8 => Right16(k, flags, s);
    case U8toU16 | U8toU32 => Right8(k, flags, s);
  }

  // ----- Whole calls

  /** The source is read as these pieces, one after the other. */
  predicate Reads(k: Kind, flags: Flags, src: seq<bv32>, ps: seq<Piece>) {
    ps == []
    || (Begins(k, flags, src, ps[0]) && ps[0].units <= src && Reads(k, flags, src[|ps[0].units|..], ps[1..]))
  }

  function AllUnits(ps: seq<Piece>): seq<bv32> { if ps == [] then [] else ps[0].units + AllUnits(ps[1..]) }

  function AllInTarget(k: Kind, flags: Flags, ps: seq<Piece>): seq<bv32> {
    if ps == [] then [] else InTarget(k, flags, ps[0].value) + AllInTarget(k, flags, ps[1..])
  }

  predicate AnyRemembered(k: Kind, flags: Flags, ps: seq<Piece>) {
    exists p :: p in ps && Remembered(k, flags, p.value)
  }

  /** Why a call ends where it does: `rest` is what it has not taken, `left` the room it has not used. */
  ghost predicate EndsRight(k: Kind, flags: Flags, rest: seq<bv32>, left: nat, result: Result, remembered: bool) {
    if rest == [] then result == if remembered then SourceIllegal else OK
    else
      // Only the converter from UTF-32 to UTF-16 looks at the room first.
      var full := k == U32toU16 && left == 0;
      && (result == TargetExhausted
          <==> full || exists p :: Begins(k, flags, rest, p) && Needed(k, flags, p.value) > left)
      && (result == SourceIllegal <==> !full && Refused(k, flags, rest, SourceIllegal))
      && (result == SourceExhausted <==> !full && Refused(k, flags, rest, SourceExhausted))
      && result != OK
  }

  /** The call takes the pieces `ps`, writes what stands for them, and ends as it should. */
  ghost predicate CallRight(k: Kind, flags: Flags, src: seq<bv32>, room: nat, r: Outcome<bv32>, ps: seq<Piece>)
    requires r.taken <= |src| && |r.out| <= room
  {
    && Reads(k, flags, src, ps) && src[..r.taken] == AllUnits(ps) && r.out == AllInTarget(k, flags, ps)
    && r.tainted == AnyRemembered(k, flags, ps)
    && EndsRight(k, flags, src[r.taken..], room - |r.out|, r.result, r.tainted)
  }

  /**
   What a call does, for every converter, source and room: it takes some pieces of the source, writes what
   stands for each of them, and stops at the end or for the reason there is.
   */
  lemma {:induction false} CallMeans(k: Kind, flags: Flags, src: seq<bv32>, room: nat) returns (ps: seq<Piece>)
    requires Sized(k, src)
    ensures Proper(StepFn(k, flags)) && CallRight(k, flags, src, room, Run(StepFn(k, flags), src, room), ps)
    decreases |src|
  {
    hide StepFn, Proper, Run, Begins, CallRight;
    StepsProper(k, flags);
    var step := StepFn(k, flags);
    ps := [];
    if src == [] {
      NothingRun(step, room);
      NothingMeans(k, flags, room);
    } else {
      EveryStep(k, flags, src);
      var e := step(src);
      if Goes(e, room) {
        var p :| Begins(k, flags, src, p);
        BeginsPrefix(k, flags, src, p);
        RunGoes(step, src, room);
        SizedRest(k, src, e.taken);
        var rest := CallMeans(k, flags, src[e.taken..], room - |e.out|);
        ps := [p] + rest;
        GoMeans(k, flags, src, room, p, e, Run(step, src[e.taken..], room - |e.out|), rest);
      } else {
        StopMeans(k, flags, src, room, e);
      }
    }
  }

  lemma NothingMeans(k: Kind, flags: Flags, room: nat)
    ensures CallRight(k, flags, [], room, Outcome(0, [], OK, false), [])
  {
  }

  lemma GoMeans(k: Kind, flags: Flags, src: seq<bv32>, room: nat, p: Piece, e: Step<bv32>, q: Outcome<bv32>,
                rest: seq<Piece>)
    requires Begins(k, flags, src, p) && p.units <= src && Takes(k, flags, e, p) && |e.out| <= room
    requires q.taken <= |src| - e.taken && |q.out| <= room - |e.out|
    requires CallRight(k, flags, src[e.taken..], room - |e.out|, q, rest)
    ensures CallRight(k, flags, src, room, Then(Part(e), q), [p] + rest)
  {
    hide Begins, InTarget, Needed, Remembered, Refused, Reads, AllUnits, AllInTarget, AnyRemembered, EndsRight;
    PiecesJoined(k, flags, src, p, rest);
    DropDrop(src, e.taken, q.taken);
    TakenJoined(src, p.units, q.taken);
    EndsMore(k, flags, src[e.taken..][q.taken..], room - |e.out| - |q.out|, q.result, q.tainted, e.taints);
  }

  lemma TakenJoined(src: seq<bv32>, units: seq<bv32>, n: nat)
    requires units <= src && |units| + n <= |src|
    ensures src[..|units| + n] == units + src[|units|..][..n]
  {
  }

  /** An earlier value to be remembered matters only to a call that would end with OK. */
  lemma EndsMore(k: Kind, flags: Flags, rest: seq<bv32>, left: nat, result: Result, later: bool, earlier: bool)
    requires EndsRight(k, flags, rest, left, result, later)
    ensures EndsRight(k, flags, rest, left, if earlier && result == OK then SourceIllegal else result, earlier || later)
  {
    hide Begins, Needed, Refused;
  }

  lemma SizedRest(k: Kind, s: seq<bv32>, n: nat)
    requires Sized(k, s) && n <= |s|
    ensures Sized(k, s[n..])
  {
  }

  lemma BeginsPrefix(k: Kind, flags: Flags, s: seq<bv32>, p: Piece)
    requires Begins(k, flags, s, p)
    ensures p.units <= s
  {
  }

  lemma PiecesJoined(k: Kind, flags: Flags, src: seq<bv32>, p: Piece, rest: seq<Piece>)
    requires Begins(k, flags, src, p) && p.units <= src && Reads(k, flags, src[|p.units|..], rest)
    ensures var ps := [p] + rest;
      && Reads(k, flags, src, ps) && AllUnits(ps) == p.units + AllUnits(rest)
      && AllInTarget(k, flags, ps) == InTarget(k, flags, p.value) + AllInTarget(k, flags, rest)
      && (AnyRemembered(k, flags, ps) <==> Remembered(k, flags, p.value) || AnyRemembered(k, flags, rest))
  {
    hide Begins, InTarget, Remembered;
    var ps := [p] + rest;
    assert ps[0] == p && ps[1..] == rest;
    assert p in ps && forall q | q in rest :: q in ps;
  }

  lemma StopMeans(k: Kind, flags: Flags, src: seq<bv32>, room: nat, e: Step<bv32>)
    requires src != [] && Proper(StepFn(k, flags)) && e == StepFn(k, flags)(src) && !Goes(e, room)
    requires StepRight(k, flags, src, e)
    ensures var r := Run(StepFn(k, flags), src, room);
      && r.taken == 0 && r.out == [] && CallRight(k, flags, src, room, r, [])
  {
    hide StepFn, Begins, Refused, InTarget, Needed, Remembered, EndsRight;
    var r := Run(StepFn(k, flags), src, room);
    assert Bounded(e, |src|);
    assert src[0..] == src && src[..0] == [];
    StopEnds(k, flags, src, room, e, r.result);
  }

  lemma StopEnds(k: Kind, flags: Flags, src: seq<bv32>, room: nat, e: Step<bv32>, result: Result)
    requires src != [] && StepRight(k, flags, src, e) && !Goes(e, room)
    requires result == if e.Emit? || room < e.need then TargetExhausted else e.why
    requires e.Halt? ==> e.why == SourceExhausted || e.why == SourceIllegal
    ensures EndsRight(k, flags, src, room, result, false)
  {
    hide Begins, Refused, InTarget, Needed, Remembered;
  }

  // ----- In particular

  function AllInUtf16(vs: seq<bv32>): seq<bv32> { if vs == [] then [] else InUtf16(vs[0]) + AllInUtf16(vs[1..]) }

  function AllInUtf8(vs: seq<bv32>): seq<bv32> { if vs == [] then [] else InUtf8(vs[0]) + AllInUtf8(vs[1..]) }

  function Values(ps: seq<Piece>): seq<bv32> { if ps == [] then [] else [ps[0].value] + Values(ps[1..]) }

  lemma {:induction false} StrictPieces(k: Kind, src: seq<bv32>, ps: seq<Piece>)
    requires FromUtf16(k) && Reads(k, Strict, src, ps)
    ensures var vs := Values(ps);
      && (forall i | 0 <= i < |vs| :: IsScalar(vs[i]))
      && AllUnits(ps) == AllInUtf16(vs)
      && AllInTarget(k, Strict, ps) == (if k == U16toU32 then vs else AllInUtf8(vs))
    decreases |ps|
  {
    hide InUtf16, InUtf8, IsScalar;
    if ps != [] {
      StrictPieces(k, src[|ps[0].units|..], ps[1..]);
      assert Values(ps)[1..] == Values(ps[1..]);
    }
  }

  /**
   Strict conversion from UTF-16: what is taken is the UTF-16 of some scalar values, what is written is those
   values in the other form, and the call ends as illegal exactly at a surrogate that is half of no pair.
   */
  lemma StrictFromUtf16(k: Kind, src: seq<bv32>, room: nat) returns (vs: seq<bv32>)
    requires FromUtf16(k) && Sized(k, src)
    ensures Proper(StepFn(k, Strict))
    ensures var r := Run(StepFn(k, Strict), src, room);
      var rest := src[r.taken..];
      && (forall i | 0 <= i < |vs| :: IsScalar(vs[i]))
      && src[..r.taken] == AllInUtf16(vs)
      && r.out == (if k == U16toU32 then vs else AllInUtf8(vs))
      && (r.result == SourceIllegal
          <==> rest != [] && (IsLow(rest[0]) || (IsHigh(rest[0]) && |rest| > 1 && !IsLow(rest[1]))))
      && (r.result == SourceExhausted <==> |rest| == 1 && IsHigh(rest[0]))
      && (r.result == OK <==> rest == [])
  {
    hide StepFn, Run, Begins, Needed, InTarget, AllInUtf16, AllInUtf8, IsScalar;
    var ps := CallMeans(k, Strict, src, room);
    StrictPieces(k, src, ps);
    NothingRemembered(k, Strict, ps);
    vs := Values(ps);
  }

  lemma NothingRemembered(k: Kind, flags: Flags, ps: seq<Piece>)
    requires FromUtf16(k) || FromUtf8(k)
    ensures !AnyRemembered(k, flags, ps)
  {
  }

  /** A lenient one goes past lone surrogates, each written as if it were a character, and is never illegal. */
  lemma LenientFromUtf16(k: Kind, src: seq<bv32>, room: nat) returns (ps: seq<Piece>)
    requires FromUtf16(k) && Sized(k, src)
    ensures Proper(StepFn(k, Lenient))
    ensures var r := Run(StepFn(k, Lenient), src, room);
      && CallRight(k, Lenient, src, room, r, ps) && r.result != SourceIllegal
      && (r.result == SourceExhausted <==> |src| == r.taken + 1 && IsHigh(src[r.taken]))
  {
    hide StepFn, Run, Begins, Needed, InTarget, Reads, AllUnits, AllInTarget;
    ps := CallMeans(k, Lenient, src, room);
    NothingRemembered(k, Lenient, ps);
  }

  /** A call from UTF-8 ends as illegal exactly at a sequence that is all there and is not accepted. */
  lemma FromUtf8Stops(k: Kind, flags: Flags, src: seq<bv32>, room: nat)
    requires FromUtf8(k) && Sized(k, src)
    ensures Proper(StepFn(k, flags))
    ensures var r := Run(StepFn(k, flags), src, room);
      var rest := src[r.taken..];
      && (r.result == SourceIllegal
          <==> rest != [] && Announced(rest[0]) <= |rest| && forall v :: !Sequence8(rest[..Announced(rest[0])], v))
      && (r.result == SourceExhausted <==> rest != [] && Announced(rest[0]) > |rest|)
  {
    hide StepFn, Run, Begins, Needed, InTarget, Reads, AllUnits, AllInTarget, Sequence8, Announced;
    var ps := CallMeans(k, flags, src, room);
    NothingRemembered(k, flags, ps);
  }
}
