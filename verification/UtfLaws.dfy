/** What the converters promise: chunking does not matter, buffers that are big enough, round trips. */
module UtfLaws {
  import opened Chunking
  import opened Utf

  // ----- The steps meet the requirements of the chunking laws

  predicate FromUtf16(k: Kind) { k == U16toU32 || k == U16toU8 }

  lemma BytesLength(ch: bv32)
    ensures 1 <= |Bytes(ch)| <= 4
    ensures ch < 0x10000 ==> |Bytes(ch)| <= 3
  {
  }

  lemma StepBounded(k: Kind, flags: Flags, src: seq<bv32>)
    requires src != []
    ensures Bounded(StepOf(k, flags, src), |src|)
  {
    hide Decoded, Legal, Paired, Words, Bytes, ReadUtf8, ReadUtf16;
    forall n: nat, ch: bv32 | 1 <= n <= |src|
      ensures Bounded(PutWords(flags, n, ch), |src|) && Bounded(PutUtf32(flags, n, ch), |src|)
      ensures Bounded(PutBytes(n, ch), |src|)
    {
      PutsBounded(flags, n, ch, |src|);
    }
    ReadsBounded(flags, src);
  }

  lemma PutsBounded(flags: Flags, n: nat, ch: bv32, available: nat)
    requires 1 <= n <= available
    ensures Bounded(PutWords(flags, n, ch), available) && Bounded(PutUtf32(flags, n, ch), available)
    ensures Bounded(PutBytes(n, ch), available)
  {
    hide Bytes;
    BytesLength(ch);
    BytesLength(REPLACEMENT);
  }

  lemma ReadsBounded(flags: Flags, src: seq<bv32>)
    requires src != []
    ensures ReadUtf16(flags, src).Bad? ==> ReadUtf16(flags, src).why in {SourceExhausted, SourceIllegal}
    ensures ReadUtf8(src).Bad? ==> ReadUtf8(src).why in {SourceExhausted, SourceIllegal}
  {
    hide Decoded, Legal, Paired;
  }

  lemma StepsProper(k: Kind, flags: Flags)
    ensures Proper(StepFn(k, flags))
  {
    forall s: seq<bv32> | |s| > 0
      ensures Bounded(StepFn(k, flags)(s), |s|)
    {
      StepBounded(k, flags, s);
    }
  }

  lemma StepSame(k: Kind, flags: Flags, src: seq<bv32>, more: seq<bv32>)
    requires src != [] && !RanOut(StepOf(k, flags, src))
    ensures StepOf(k, flags, src + more) == StepOf(k, flags, src)
  {
    hide Decoded, Legal, Paired, Bytes, Words;
    var n := Trailing(src[0]) + 1;
    if n <= |src| {
      assert (src + more)[..n] == src[..n];
    }
  }

  lemma StepsStable(k: Kind, flags: Flags)
    ensures Stable(StepFn(k, flags))
  {
    var step := StepFn(k, flags);
    forall s: seq<bv32>, more: seq<bv32> | |s| > 0 && !RanOut(step(s))
      ensures step(s + more) == step(s)
    {
      StepSame(k, flags, s, more);
    }
  }

  function Waits(k: Kind): bv32 -> bool { (u: bv32) => FromUtf16(k) && High(u) }

  lemma StepOfPrefix(k: Kind, flags: Flags, src: seq<bv32>, m: nat)
    requires src != [] && StepOf(k, flags, src).Emit? && StepOf(k, flags, src).taken <= m <= |src| && m > 0
    ensures StepOf(k, flags, src[..m]) ==
      if m == 1 && FromUtf16(k) && High(src[0]) then Halt(SourceExhausted, 0) else StepOf(k, flags, src)
  {
    hide Decoded, Legal, Paired, Bytes, Words;
    var n := Trailing(src[0]) + 1;
    if n <= m {
      assert src[..m][..n] == src[..n];
    }
  }

  lemma StepsLocal(k: Kind, flags: Flags)
    ensures LocalBut(StepFn(k, flags), Waits(k)) && WaitsAlone(StepFn(k, flags), Waits(k))
  {
    var step, waits := StepFn(k, flags), Waits(k);
    forall s: seq<bv32>, m: nat | |s| > 0 && step(s).Emit? && step(s).taken <= m <= |s| && m > 0
      ensures step(s[..m]) == if m == 1 && waits(s[0]) then Halt(SourceExhausted, 0) else step(s)
    {
      StepOfPrefix(k, flags, s, m);
    }
    forall s: seq<bv32> | |s| > 0 && step(s).Emit? && 1 < step(s).taken <= |s|
      ensures !waits(s[step(s).taken - 1])
    {
    }
  }

  /** Units of room per unit of source that always suffice. */
  function Rate(k: Kind): nat {
    match k
    case U32toU16 => 2
    case U32toU8 => 4
    case U16toU8 => 3
    case _ => 1
  }

  // ----- Chunk independence, for every converter

  /** Any sequence of calls amounts to one call with all the input and all the room. */
  lemma ChunksDoNotMatter(k: Kind, flags: Flags, calls: seq<Call<bv32>>)
    ensures Proper(StepFn(k, flags))
    ensures Session(StepFn(k, flags), calls) == Run(StepFn(k, flags), AllInput(calls), AllRoom(calls))
  {
    StepsProper(k, flags);
    StepsStable(k, flags);
    SessionIsOneRun(StepFn(k, flags), calls);
  }

  /** In particular for two calls, with everything that the caller sees. */
  lemma ResumeConverter(k: Kind, flags: Flags, a: seq<bv32>, room: nat, more: seq<bv32>, extra: nat)
    ensures Proper(StepFn(k, flags))
    ensures var r := Run(StepFn(k, flags), a, room);
      Run(StepFn(k, flags), a + more, room + extra)
      == Then(r.(result := OK), Run(StepFn(k, flags), a[r.taken..] + more, room - |r.out| + extra))
  {
    StepsProper(k, flags);
    StepsStable(k, flags);
    Resume(StepFn(k, flags), a, room, more, extra);
  }

  // ----- Decoding of UTF-8

  function Sum2(a: bv32, b: bv32): bv32 { Less(Join(a, b), 1) }

  function Sum3(a: bv32, b: bv32, c: bv32): bv32 { Less(Join(Join(a, b), c), 2) }

  function Sum4(a: bv32, b: bv32, c: bv32, d: bv32): bv32 { Less(Join(Join(Join(a, b), c), d), 3) }

  lemma AccumulatedNext(s: seq<bv32>, n: nat)
    requires n < |s|
    ensures Accumulated(s[..n + 1]) == Join(Accumulated(s[..n]), s[n])
  {
    hide Join;
    assert s[..n + 1][..n] == s[..n];
  }

  lemma JoinFirst(b: bv32)
    ensures Join(0, b) == b
  {
  }

  lemma LessNothing(b: bv32)
    ensures Less(b, 0) == b
  {
  }

  lemma DecodedIsSum(s: seq<bv32>)
    requires 1 <= |s| <= 4
    ensures Decoded(s) ==
      if |s| == 1 then s[0] else if |s| == 2 then Sum2(s[0], s[1])
      else if |s| == 3 then Sum3(s[0], s[1], s[2]) else Sum4(s[0], s[1], s[2], s[3])
  {
    hide Join, Less;
    assert s[..0] == [] && s[..|s|] == s;
    AccumulatedNext(s, 0);
    JoinFirst(s[0]);
    LessNothing(s[0]);
    if |s| >= 2 {
      AccumulatedNext(s, 1);
    }
    if |s| >= 3 {
      AccumulatedNext(s, 2);
    }
    if |s| >= 4 {
      AccumulatedNext(s, 3);
    }
  }

  lemma TwoBytes(a: bv32, b: bv32)
    requires 0xC2 <= a <= 0xDF && Continues(b)
    ensures var v := Sum2(a, b); 0x80 <= v < 0x800 && a == Lead2(v) && b == Tail0(v)
  {
  }

  lemma ThreeBytes(a: bv32, b: bv32, c: bv32)
    requires 0xE0 <= a <= 0xEF && Continues(b) && Continues(c)
    requires (a == 0xE0 ==> 0xA0 <= b) && (a == 0xED ==> b <= 0x9F)
    ensures var v := Sum3(a, b, c);
      0x800 <= v < 0x10000 && !Surrogate(v) && a == Lead3(v) && b == Tail1(v) && c == Tail0(v)
  {
  }

  lemma FourBytes(a: bv32, b: bv32, c: bv32, d: bv32)
    requires 0xF0 <= a <= 0xF4 && Continues(b) && Continues(c) && Continues(d)
    requires (a == 0xF0 ==> 0x90 <= b) && (a == 0xF4 ==> b <= 0x8F)
    ensures var v := Sum4(a, b, c, d);
      0x10000 <= v <= MAX_LEGAL && a == Lead4(v) && b == Tail2(v) && c == Tail1(v) && d == Tail0(v)
  {
  }

  lemma UncheckedThree(b: bv32, c: bv32)
    requires b < 0x80 && Continues(c)
    ensures 0xB000 <= Sum3(0xED, b, c) <= 0xCFFF && Tail1(Sum3(0xED, b, c)) >= 0x80
  {
  }

  lemma UncheckedFour(b: bv32, c: bv32, d: bv32)
    requires b < 0x80 && Continues(c) && Continues(d)
    ensures 0x80000 <= Sum4(0xF4, b, c, d) <= 0xFFFFF && Tail2(Sum4(0xF4, b, c, d)) >= 0x80
  {
  }

  /**
   Everything accepted decodes to a scalar value; what the table admits is the encoding of that value,
   and what is accepted beyond it never is.
   */
  lemma LegalDecodes(s: seq<bv32>)
    requires Legal(s)
    ensures Scalar(Decoded(s))
    ensures Table37(s) <==> Bytes(Decoded(s)) == s
  {
    hide Decoded, Sum2, Sum3, Sum4, Lead2, Lead3, Lead4, Tail0, Tail1, Tail2;
    DecodedIsSum(s);
    if |s| == 2 {
      TwoBytes(s[0], s[1]);
    } else if Unchecked(s) && |s| == 3 {
      UncheckedThree(s[1], s[2]);
    } else if Unchecked(s) {
      UncheckedFour(s[1], s[2], s[3]);
    } else if |s| == 3 {
      ThreeBytes(s[0], s[1], s[2]);
    } else if |s| == 4 {
      FourBytes(s[0], s[1], s[2], s[3]);
    }
  }

  /** Two sequences that are accepted and in no row of Table 3-7. */
  lemma AcceptedOutsideTable()
    ensures var s := [0xED, 0x00, 0x80]; Trailing(s[0]) + 1 == |s| && Legal(s) && !Table37(s)
    ensures var s := [0xF4, 0x00, 0x80, 0x80]; Trailing(s[0]) + 1 == |s| && Legal(s) && !Table37(s)
  {
  }

  lemma StrictStepIsLenient(k: Kind, src: seq<bv32>)
    requires k == U8toU16 || k == U8toU32
    ensures StepFn(k, Strict)(src) == StepFn(k, Lenient)(src)
  {
    hide Decoded, Legal;
    if src != [] && ReadUtf8(src).Got? {
      LegalDecodes(src[..Trailing(src[0]) + 1]);
    }
  }

  /** Strict and lenient decoding of UTF-8 never differ: nothing accepted is a surrogate or too large. */
  lemma StrictIsLenient(k: Kind, src: seq<bv32>, room: nat)
    requires k == U8toU16 || k == U8toU32
    ensures Proper(StepFn(k, Strict)) && Proper(StepFn(k, Lenient))
    ensures Run(StepFn(k, Strict), src, room) == Run(StepFn(k, Lenient), src, room)
  {
    hide StepFn;
    StepsProper(k, Strict);
    StepsProper(k, Lenient);
    forall s: seq<bv32>
      ensures StepFn(k, Strict)(s) == StepFn(k, Lenient)(s)
    {
      StrictStepIsLenient(k, s);
    }
    SameSteps(StepFn(k, Strict), StepFn(k, Lenient), src, room);
  }

  // ----- Encoding forms

  datatype Form = F8 | F16 | F32

  function Encode(form: Form, v: bv32): seq<bv32> {
    match form
    case F8 => Bytes(v)
    case F16 => Words(v)
    case F32 => [v]
  }

  function EncodeAll(form: Form, vs: seq<bv32>): seq<bv32> {
    if vs == [] then [] else Encode(form, vs[0]) + EncodeAll(form, vs[1..])
  }

  function Source(k: Kind): Form {
    match k
    case U32toU16 => F32
    case U32toU8 => F32
    case U16toU32 => F16
    case U16toU8 => F16
    case U8toU16 => F8
    case U8toU32 => F8
  }

  function Target(k: Kind): Form {
    match k
    case U16toU32 => F32
    case U8toU32 => F32
    case U32toU16 => F16
    case U8toU16 => F16
    case U32toU8 => F8
    case U16toU8 => F8
  }

  ghost predicate Scalars(vs: seq<bv32>) { forall i | 0 <= i < |vs| :: Scalar(vs[i]) }

  lemma TwoBytesOf(v: bv32)
    requires 0x80 <= v < 0x800
    ensures 0xC2 <= Lead2(v) <= 0xDF && Continues(Tail0(v))
  {
  }

  lemma TwoBytesSum(v: bv32)
    requires 0x80 <= v < 0x800
    ensures Sum2(Lead2(v), Tail0(v)) == v
  {
  }

  lemma ThreeBytesOf(v: bv32)
    requires 0x800 <= v < 0x10000 && !Surrogate(v)
    ensures 0xE0 <= Lead3(v) <= 0xEF && Continues(Tail1(v)) && Continues(Tail0(v))
    ensures (Lead3(v) == 0xE0 ==> 0xA0 <= Tail1(v)) && (Lead3(v) == 0xED ==> Tail1(v) <= 0x9F)
  {
  }

  lemma ThreeBytesSum(v: bv32)
    requires 0x800 <= v < 0x10000
    ensures Sum3(Lead3(v), Tail1(v), Tail0(v)) == v
  {
  }

  lemma FourBytesOf(v: bv32)
    requires 0x10000 <= v <= MAX_LEGAL
    ensures 0xF0 <= Lead4(v) <= 0xF4 && Continues(Tail2(v)) && Continues(Tail1(v)) && Continues(Tail0(v))
    ensures (Lead4(v) == 0xF0 ==> 0x90 <= Tail2(v)) && (Lead4(v) == 0xF4 ==> Tail2(v) <= 0x8F)
  {
  }

  lemma FourBytesSum(v: bv32)
    requires 0x10000 <= v <= MAX_LEGAL
    ensures Sum4(Lead4(v), Tail2(v), Tail1(v), Tail0(v)) == v
  {
  }

  /** The encoding of a scalar value is well formed, announces its own length and decodes to the value. */
  lemma BytesDecode(v: bv32)
    requires Scalar(v)
    ensures Table37(Bytes(v)) && Legal(Bytes(v))
    ensures Trailing(Bytes(v)[0]) + 1 == |Bytes(v)| && Decoded(Bytes(v)) == v
  {
    hide Decoded, Sum2, Sum3, Sum4, Lead2, Lead3, Lead4, Tail0, Tail1, Tail2;
    DecodedIsSum(Bytes(v));
    if v < 0x80 {
    } else if v < 0x800 {
      TwoBytesOf(v);
      TwoBytesSum(v);
    } else if v < 0x10000 {
      ThreeBytesOf(v);
      ThreeBytesSum(v);
    } else {
      FourBytesOf(v);
      FourBytesSum(v);
    }
  }

  lemma PairIsPair(v: bv32)
    requires 0x10000 <= v <= MAX_LEGAL
    ensures High(HighOf(v)) && Low(LowOf(v))
  {
  }

  lemma PairDecodes(v: bv32)
    requires 0x10000 <= v <= MAX_LEGAL
    ensures Paired(HighOf(v), LowOf(v)) == v
  {
  }

  /** On the encoding of a scalar value, every converter takes all of it and puts the other encoding. */
  lemma StepOnScalar(k: Kind, flags: Flags, v: bv32, rest: seq<bv32>)
    requires Scalar(v)
    ensures var s, t := Encode(Source(k), v), Encode(Target(k), v);
      StepFn(k, flags)(s + rest) == Emit(|s|, t, |t|, false)
  {
    hide Decoded, Legal, HighOf, LowOf, Paired, Lead2, Lead3, Lead4, Tail0, Tail1, Tail2;
    var src := Encode(Source(k), v) + rest;
    match Source(k)
    case F32 =>
    case F16 =>
      if v > MAX_BMP {
        PairIsPair(v);
        PairDecodes(v);
      }
    case F8 =>
      BytesDecode(v);
      assert src[..|Bytes(v)|] == Bytes(v);
  }

  /** Given enough room, a converter turns the one encoding of any scalar values into the other. */
  lemma {:induction false} ConvertsScalars(k: Kind, flags: Flags, vs: seq<bv32>, room: nat)
    requires Scalars(vs) && |EncodeAll(Target(k), vs)| <= room
    ensures Proper(StepFn(k, flags))
    ensures Run(StepFn(k, flags), EncodeAll(Source(k), vs), room)
         == Outcome(|EncodeAll(Source(k), vs)|, EncodeAll(Target(k), vs), OK, false)
    decreases |vs|
  {
    hide Run, StepFn, Encode, Proper;
    StepsProper(k, flags);
    if vs == [] {
      NothingRun(StepFn(k, flags), room);
    } else {
      var s, t, rest := Encode(Source(k), vs[0]), Encode(Target(k), vs[0]), EncodeAll(Source(k), vs[1..]);
      EncodeLength(Source(k), vs[0]);
      StepOnScalar(k, flags, vs[0], rest);
      ConvertsScalars(k, flags, vs[1..], room - |t|);
      RunGoes(StepFn(k, flags), s + rest, room);
      assert (s + rest)[|s|..] == rest;
    }
  }

  lemma EncodeLength(form: Form, v: bv32)
    ensures 1 <= |Encode(form, v)| <= 4
  {
  }

  predicate Inverse(k: Kind, k': Kind) { Source(k') == Target(k) && Target(k') == Source(k) }

  /** There and back again is the identity on all sequences of scalar values. */
  lemma RoundTrip(k: Kind, k': Kind, flags: Flags, flags': Flags, vs: seq<bv32>, room: nat, room': nat)
    requires Inverse(k, k') && Scalars(vs)
    requires |EncodeAll(Target(k), vs)| <= room && |EncodeAll(Source(k), vs)| <= room'
    ensures Proper(StepFn(k, flags)) && Proper(StepFn(k', flags'))
    ensures var src := EncodeAll(Source(k), vs);
      var there := Run(StepFn(k, flags), src, room);
      var back := Run(StepFn(k', flags'), there.out, room');
      && back.out == src
      && there.result == OK && there.taken == |src|
      && back.result == OK && back.taken == |there.out|
  {
    ConvertsScalars(k, flags, vs, room);
    ConvertsScalars(k', flags', vs, room');
  }

  // ----- Two ways from UTF-8 to UTF-16

  lemma SmallStep(flags: Flags, src: seq<bv32>)
    requires src != []
    ensures var s := StepOf(U8toU32, flags, src);
      match s
      case Halt(why, need) => need == 0 && StepOf(U8toU16, flags, src) == Halt(why, 0)
      case Emit(n, out, need, taints) =>
        && |out| == 1 && Scalar(out[0]) && need == 1 && !taints
        && StepOf(U8toU16, flags, src) == Emit(n, Words(out[0]), |Words(out[0])|, false)
        && 1 <= n <= |src| && |Words(out[0])| <= n
  {
    hide Decoded, Legal;
    if ReadUtf8(src).Got? {
      LegalDecodes(src[..Trailing(src[0]) + 1]);
      LongEnough(src[..Trailing(src[0]) + 1]);
    }
  }

  /** A character beyond the BMP takes four bytes. */
  lemma LongEnough(s: seq<bv32>)
    requires Legal(s)
    ensures Decoded(s) > MAX_BMP ==> |s| == 4
  {
    hide Decoded, Sum2, Sum3, Sum4;
    DecodedIsSum(s);
    if |s| == 2 {
      TwoBytes(s[0], s[1]);
    } else if |s| == 3 && Unchecked(s) {
      UncheckedThree(s[1], s[2]);
    } else if |s| == 3 {
      ThreeBytes(s[0], s[1], s[2]);
    }
  }

  ghost predicate Agree(mid: Outcome<bv32>, second: Outcome<bv32>, direct: Outcome<bv32>) {
    && second == Outcome(|mid.out|, direct.out, OK, false)
    && direct.taken == mid.taken && direct.result == mid.result && !direct.tainted && !mid.tainted
  }

  lemma AgreeOnce(mid: Outcome<bv32>, second: Outcome<bv32>, direct: Outcome<bv32>, n: nat, v: bv32, w: seq<bv32>)
    requires Agree(mid, second, direct)
    ensures Agree(Then(Outcome(n, [v], OK, false), mid), Then(Outcome(1, w, OK, false), second),
                  Then(Outcome(n, w, OK, false), direct))
  {
  }

  lemma AgreeNothing(why: Result)
    ensures Agree(Outcome(0, [], why, false), Outcome(0, [], OK, false), Outcome(0, [], why, false))
  {
  }

  lemma WordsStep(flags: Flags, v: bv32, rest: seq<bv32>)
    requires Scalar(v)
    ensures StepFn(U32toU16, flags)([v] + rest) == Emit(1, Words(v), |Words(v)|, false)
  {
  }

  /**
   On any bytes at all, going through UTF-32 gives what the direct conversion gives, and stops at the
   same place for the same reason.
   */
  lemma {:induction false} DirectIsTwoStage(flags: Flags, flags': Flags, src: seq<bv32>, r1: nat, r2: nat, r3: nat)
    requires |src| <= r1 && |src| <= r2 && |src| <= r3
    ensures Proper(StepFn(U8toU32, flags)) && Proper(StepFn(U32toU16, flags')) && Proper(StepFn(U8toU16, flags))
    ensures var mid := Run(StepFn(U8toU32, flags), src, r1);
      Agree(mid, Run(StepFn(U32toU16, flags'), mid.out, r2), Run(StepFn(U8toU16, flags), src, r3))
    decreases |src|
  {
    StepsProper(U8toU32, flags);
    StepsProper(U32toU16, flags');
    StepsProper(U8toU16, flags);
    hide StepOf, Proper, Words, Run, Agree;
    var first, second, direct := StepFn(U8toU32, flags), StepFn(U32toU16, flags'), StepFn(U8toU16, flags);
    if src == [] {
      NothingRun(first, r1);
      NothingRun(second, r2);
      NothingRun(direct, r3);
      AgreeNothing(OK);
    } else {
      SmallStep(flags, src);
      var s := StepOf(U8toU32, flags, src);
      if s.Halt? {
        RunHalts(first, src, r1);
        RunHalts(direct, src, r3);
        NothingRun(second, r2);
        AgreeNothing(s.why);
      } else {
        var v, n, left := s.out[0], s.taken, src[s.taken..];
        var w := Words(v);
        assert s.out == [v];
        DirectIsTwoStage(flags, flags', left, r1 - 1, r2 - |w|, r3 - |w|);
        RunGoes(first, src, r1);
        RunGoes(direct, src, r3);
        var mid := Run(first, left, r1 - 1);
        WordsStep(flags', v, mid.out);
        RunGoes(second, [v] + mid.out, r2);
        assert ([v] + mid.out)[1..] == mid.out;
        AgreeOnce(mid, Run(second, mid.out, r2 - |w|), Run(direct, left, r3 - |w|), n, v, w);
      }
    }
  }

  // ----- Room, taint, and what has been written so far

  /** UTF-16 units are 16 bits wide; the width of the others does not matter here. */
  function UnitFits(k: Kind): bv32 -> bool { (u: bv32) => FromUtf16(k) ==> u <= 0xFFFF }

  lemma StepModest(k: Kind, flags: Flags, src: seq<bv32>)
    requires src != [] && All(src, UnitFits(k))
    ensures Modest(StepOf(k, flags, src), Rate(k))
  {
    hide Decoded, Legal, Paired, Words, Bytes;
    if FromUtf16(k) {
      assert UnitFits(k)(src[0]);
      BytesLength(src[0]);
    }
    if k == U16toU8 && |src| > 1 {
      BytesLength(Paired(src[0], src[1]));
    }
    BytesLength(src[0]);
    BytesLength(REPLACEMENT);
    if k == U8toU16 && ReadUtf8(src).Got? {
      LongEnough(src[..Trailing(src[0]) + 1]);
    }
  }

  /** The stated room is always enough. */
  lemma RoomSuffices(k: Kind, flags: Flags, src: seq<bv32>, room: nat)
    requires All(src, UnitFits(k)) && Rate(k) * |src| <= room
    ensures Proper(StepFn(k, flags)) && Run(StepFn(k, flags), src, room).result != TargetExhausted
  {
    StepsProper(k, flags);
    var step, ok := StepFn(k, flags), UnitFits(k);
    forall s: seq<bv32> | |s| > 0 && All(s, ok)
      ensures Modest(step(s), Rate(k))
    {
      StepModest(k, flags, s);
    }
    EnoughRoom(step, ok, Rate(k), src, room);
  }

  /** Only these conversions can be tainted: by values that are no code points. */
  predicate CanTaint(k: Kind, flags: Flags) { k == U32toU8 || (k == U32toU16 && flags.Strict?) }

  function InRange(k: Kind, flags: Flags): bv32 -> bool { (u: bv32) => CanTaint(k, flags) ==> u <= MAX_LEGAL }

  lemma StepClean(k: Kind, flags: Flags, src: seq<bv32>)
    requires src != [] && All(src, InRange(k, flags))
    ensures StepOf(k, flags, src).Emit? ==> !StepOf(k, flags, src).taints
  {
    hide Decoded, Legal, Paired, Words, Bytes;
    assert InRange(k, flags)(src[0]);
    if k == U8toU32 && ReadUtf8(src).Got? {
      LegalDecodes(src[..Trailing(src[0]) + 1]);
    }
  }

  lemma StepsClean(k: Kind, flags: Flags)
    ensures Clean(StepFn(k, flags), InRange(k, flags))
  {
    hide StepOf, InRange;
    forall s: seq<bv32> | |s| > 0 && All(s, InRange(k, flags))
      ensures StepFn(k, flags)(s).Emit? ==> !StepFn(k, flags)(s).taints
    {
      StepClean(k, flags, s);
    }
  }

  /** The last of two calls ends as the one call that they amount to. */
  ghost predicate SameEnd(k: Kind, flags: Flags, a: seq<bv32>, room: nat, more: seq<bv32>, extra: nat) {
    && Proper(StepFn(k, flags))
    && var r := Run(StepFn(k, flags), a, room);
    && Run(StepFn(k, flags), a + more, room + extra).result
       == Run(StepFn(k, flags), a[r.taken..] + more, room - |r.out| + extra).result
  }

  lemma SameEndIff(k: Kind, flags: Flags, a: seq<bv32>, room: nat, more: seq<bv32>, extra: nat)
    ensures Proper(StepFn(k, flags))
    ensures var r := Run(StepFn(k, flags), a, room);
      SameEnd(k, flags, a, room, more, extra)
      <==> !(r.tainted && Run(StepFn(k, flags), a[r.taken..] + more, room - |r.out| + extra).result == OK)
  {
    hide StepFn, Run, Proper;
    ResumeConverter(k, flags, a, room, more, extra);
  }

  /** UTF-32 is taken unit by unit; strict conversion stops at the first surrogate and nowhere else. */
  lemma Utf32Step(k: Kind, flags: Flags, src: seq<bv32>)
    requires CanTaint(k, flags) && src != []
    ensures var s := StepFn(k, flags)(src);
      if flags.Strict? && Surrogate(src[0]) then s.Halt? && s.why == SourceIllegal
      else s.Emit? && s.taken == 1 && s.need <= 4 && |s.out| <= 4 && s.taints == (src[0] > MAX_LEGAL)
  {
    hide Bytes;
    BytesLength(src[0]);
    BytesLength(REPLACEMENT);
  }

  predicate AnySurrogate(src: seq<bv32>) { exists i :: 0 <= i < |src| && Surrogate(src[i]) }

  predicate AnyTooLarge(src: seq<bv32>) { exists i :: 0 <= i < |src| && src[i] > MAX_LEGAL }

  /** A strict call neither passes a surrogate nor ends well in front of one. */
  lemma {:induction false} SurrogateStops(k: Kind, src: seq<bv32>, room: nat)
    requires CanTaint(k, Strict)
    ensures Proper(StepFn(k, Strict))
    ensures var r := Run(StepFn(k, Strict), src, room);
      !AnySurrogate(src[..r.taken]) && (AnySurrogate(src) ==> r.result != OK)
    decreases |src|
  {
    hide StepFn, Run, Proper, Surrogate;
    StepsProper(k, Strict);
    var step := StepFn(k, Strict);
    if src == [] {
      NothingRun(step, room);
    } else {
      Utf32Step(k, Strict, src);
      if Goes(step(src), room) {
        RunGoes(step, src, room);
        SurrogateStops(k, src[1..], room - |step(src).out|);
        SurrogateFirst(src);
        var rest := Run(step, src[1..], room - |step(src).out|);
        assert src[..1 + rest.taken] == [src[0]] + src[1..][..rest.taken];
        SurrogateFirst(src[..1 + rest.taken]);
      } else {
        NotOk(step, src, room);
      }
    }
  }

  lemma SurrogateFirst(src: seq<bv32>)
    requires src != []
    ensures AnySurrogate(src) <==> Surrogate(src[0]) || AnySurrogate(src[1..])
    ensures AnyTooLarge(src) <==> src[0] > MAX_LEGAL || AnyTooLarge(src[1..])
  {
    hide Surrogate;
    var rest := src[1..];
    assert forall i | 0 <= i < |rest| :: rest[i] == src[i + 1];
    if i :| 0 <= i < |src| && Surrogate(src[i]) {
      assert i > 0 ==> rest[i - 1] == src[i];
    }
    if i :| 0 <= i < |src| && src[i] > MAX_LEGAL {
      assert i > 0 ==> rest[i - 1] == src[i];
    }
  }

  lemma NotOk(step: seq<bv32> -> Step<bv32>, src: seq<bv32>, room: nat)
    requires Proper(step) && src != [] && !Goes(step(src), room)
    ensures Run(step, src, room).result != OK && Run(step, src, room).taken == 0
  {
    assert Bounded(step(src), |src|);
  }

  /** With room for everything a call takes everything, and is tainted by any value that is too large. */
  lemma {:induction false} TakesAll(k: Kind, flags: Flags, src: seq<bv32>, room: nat)
    requires CanTaint(k, flags) && (flags.Strict? ==> !AnySurrogate(src)) && 4 * |src| <= room
    ensures Proper(StepFn(k, flags))
    ensures var r := Run(StepFn(k, flags), src, room); r.taken == |src| && (r.tainted <==> AnyTooLarge(src))
    decreases |src|
  {
    hide StepFn, Run, Proper, Surrogate;
    StepsProper(k, flags);
    var step := StepFn(k, flags);
    if src == [] {
      NothingRun(step, room);
    } else {
      Utf32Step(k, flags, src);
      SurrogateFirst(src);
      RunGoes(step, src, room);
      TakesAll(k, flags, src[1..], room - |step(src).out|);
    }
  }

  /**
   Over all ways of cutting a source in two, the last call ends as one call would, exactly when the
   conversion cannot be tainted, or nothing is too large, or a surrogate stops every call anyway.
   */
  lemma ResultOfLastCallIff(k: Kind, flags: Flags, a: seq<bv32>)
    ensures (forall room: nat, more: seq<bv32>, extra: nat :: SameEnd(k, flags, a, room, more, extra))
      <==> !CanTaint(k, flags) || !AnyTooLarge(a) || (flags.Strict? && AnySurrogate(a))
  {
    hide StepFn, Run, Proper, SameEnd;
    StepsProper(k, flags);
    var step := StepFn(k, flags);
    if !CanTaint(k, flags) || !AnyTooLarge(a) || (flags.Strict? && AnySurrogate(a)) {
      forall room: nat, more: seq<bv32>, extra: nat
        ensures SameEnd(k, flags, a, room, more, extra)
      {
        EndsTheSame(k, flags, a, room, more, extra);
      }
    } else {
      TakesAll(k, flags, a, 4 * |a|);
      SameEndIff(k, flags, a, 4 * |a|, [], 0);
      assert a[|a|..] + [] == [];
      NothingRun(step, 4 * |a| - |Run(step, a, 4 * |a|).out|);
      assert !SameEnd(k, flags, a, 4 * |a|, [], 0);
    }
  }

  lemma EndsTheSame(k: Kind, flags: Flags, a: seq<bv32>, room: nat, more: seq<bv32>, extra: nat)
    requires !CanTaint(k, flags) || !AnyTooLarge(a) || (flags.Strict? && AnySurrogate(a))
    ensures SameEnd(k, flags, a, room, more, extra)
  {
    hide StepFn, Run, Proper, SameEnd, Surrogate;
    StepsProper(k, flags);
    var step := StepFn(k, flags);
    SameEndIff(k, flags, a, room, more, extra);
    if CanTaint(k, flags) && AnyTooLarge(a) {
      var r := Run(step, a, room);
      var left := a[r.taken..] + more;
      SurrogateStops(k, a, room);
      SurrogateLeft(a, r.taken, more);
      SurrogateStops(k, left, room - |r.out| + extra);
    } else {
      assert All(a, InRange(k, flags));
      StepsClean(k, flags);
      NeverTainted(step, InRange(k, flags), a, room);
    }
  }

  lemma SurrogateLeft(a: seq<bv32>, n: nat, more: seq<bv32>)
    requires n <= |a| && AnySurrogate(a) && !AnySurrogate(a[..n])
    ensures AnySurrogate(a[n..] + more)
  {
    hide Surrogate;
    var i :| 0 <= i < |a| && Surrogate(a[i]);
    forall j | 0 <= j < n
      ensures !Surrogate(a[j])
    {
      assert a[..n][j] == a[j];
    }
    assert (a[n..] + more)[i - n] == a[i];
  }

  lemma TaintingSteps(flags: Flags)
    ensures StepFn(U32toU8, flags)([0x41]) == Emit(1, [0x41], 1, false)
    ensures StepFn(U32toU8, flags)([0x110000]) == Emit(1, Bytes(REPLACEMENT), 3, true)
    ensures StepFn(U32toU8, flags)([0x110000, 0x41]) == Emit(1, Bytes(REPLACEMENT), 3, true)
    ensures |Bytes(REPLACEMENT)| == 3
  {
  }

  /** Two calls of which the second ends with OK, and the one call they amount to, which does not. */
  lemma TaintIsSticky(flags: Flags)
    ensures Proper(StepFn(U32toU8, flags))
    ensures var step := StepFn(U32toU8, flags);
      var first := Run(step, [0x110000], 3);
      && first.taken == 1 && first.result == SourceIllegal
      && Run(step, [0x110000][first.taken..] + [0x41], 3 - |first.out| + 6).result == OK
      && Run(step, [0x110000] + [0x41], 3 + 6).result == SourceIllegal
  {
    hide StepFn, Run, Proper, Bytes;
    StepsProper(U32toU8, flags);
    TaintingSteps(flags);
    var step := StepFn(U32toU8, flags);
    var bad: seq<bv32>, good: seq<bv32> := [0x110000], [0x41];
    assert bad[1..] == [] && good[1..] == [] && bad[1..] + good == good;
    assert bad + good == [0x110000, 0x41] && (bad + good)[1..] == good;
    NothingRun(step, 0);
    NothingRun(step, 5);
    RunGoes(step, bad, 3);
    RunGoes(step, good, 6);
    RunGoes(step, bad + good, 9);
    assert Run(step, good, 6).result == OK && Run(step, bad + good, 9).result == SourceIllegal;
  }

  // ----- Taken and written

  /** What a call has written is what converting just the units it has taken writes. */
  ghost predicate InStep(k: Kind, flags: Flags, src: seq<bv32>, room: nat) {
    && Proper(StepFn(k, flags))
    && var r := Run(StepFn(k, flags), src, room);
    && var q := Run(StepFn(k, flags), src[..r.taken], room);
    && q.taken == r.taken && q.out == r.out
  }

  /** It is, but for a lone high surrogate taken last. */
  lemma WrittenSoFar(k: Kind, flags: Flags, src: seq<bv32>, room: nat)
    ensures Proper(StepFn(k, flags))
    ensures var r := Run(StepFn(k, flags), src, room);
      InStep(k, flags, src, room) <==> !(FromUtf16(k) && r.taken > 0 && High(src[r.taken - 1]))
  {
    StepsProper(k, flags);
    StepsLocal(k, flags);
    WrittenIsConverted(StepFn(k, flags), Waits(k), src, room);
  }

  /** Some high surrogate is followed by a unit that is no low one. */
  predicate BrokenPair(src: seq<bv32>) { exists i :: 0 <= i < |src| - 1 && High(src[i]) && !Low(src[i + 1]) }

  lemma BrokenHere(src: seq<bv32>)
    ensures |src| > 1 && High(src[0]) && !Low(src[1]) ==> BrokenPair(src)
  {
    if |src| > 1 && High(src[0]) && !Low(src[1]) {
      assert High(src[0]) && !Low(src[0 + 1]);
    }
  }

  lemma BrokenFirst(src: seq<bv32>, n: nat)
    requires n <= |src| && BrokenPair(src[n..])
    ensures BrokenPair(src)
  {
    var rest := src[n..];
    var i :| 0 <= i < |rest| - 1 && High(rest[i]) && !Low(rest[i + 1]);
    assert src[n + i] == rest[i] && src[n + i + 1] == rest[i + 1];
  }

  lemma ReadsPairs(flags: Flags, src: seq<bv32>)
    requires src != []
    ensures var r := ReadUtf16(flags, src);
      && (r.Got? ==> r.taken <= 2 && (r.taken == 2 ==> |src| > 1 && Low(src[1])))
      && (r.Got? && r.taken == 1 && High(src[0]) ==> flags.Lenient? && |src| > 1 && !Low(src[1]))
      && (flags.Lenient? && |src| > 1 ==> r.Got? && (r.taken == 1 <==> !(High(src[0]) && Low(src[1]))))
  {
    hide Paired;
  }

  lemma Utf16Step(k: Kind, flags: Flags, src: seq<bv32>)
    requires FromUtf16(k) && src != []
    ensures var s, r := StepFn(k, flags)(src), ReadUtf16(flags, src);
      (s.Emit? <==> r.Got?) && (s.Emit? ==> s.taken == r.taken && s.need == |s.out|)
  {
    hide ReadUtf16, Bytes;
    ReplacementBytes();
  }

  lemma ReplacementBytes()
    ensures |Bytes(REPLACEMENT)| == 3
  {
  }

  lemma {:induction false} NoHighLast(k: Kind, flags: Flags, src: seq<bv32>, room: nat)
    requires FromUtf16(k) && (flags.Strict? || !BrokenPair(src))
    ensures Proper(StepFn(k, flags))
    ensures var r := Run(StepFn(k, flags), src, room); r.taken > 0 ==> !High(src[r.taken - 1])
    decreases |src|
  {
    hide StepFn, Run, Proper;
    StepsProper(k, flags);
    var step := StepFn(k, flags);
    if src != [] && Goes(step(src), room) {
      Utf16Step(k, flags, src);
      ReadsPairs(flags, src);
      RunGoes(step, src, room);
      var s := step(src);
      if BrokenPair(src[s.taken..]) {
        BrokenFirst(src, s.taken);
      }
      NoHighLast(k, flags, src[s.taken..], room - |s.out|);
      BrokenHere(src);
    } else {
      RunStops(step, src, room);
    }
  }

  /** With just enough room, a lenient call stops right after a high surrogate that has no partner. */
  lemma {:induction false} StopsAfter(k: Kind, src: seq<bv32>, i: nat) returns (room: nat)
    requires FromUtf16(k) && i + 1 < |src| && High(src[i]) && !Low(src[i + 1])
    ensures Proper(StepFn(k, Lenient)) && Run(StepFn(k, Lenient), src, room).taken == i + 1
    decreases |src|
  {
    hide StepFn, Run, Proper;
    StepsProper(k, Lenient);
    var step := StepFn(k, Lenient);
    var s := step(src);
    Utf16Step(k, Lenient, src);
    ReadsPairs(Lenient, src);
    assert i == 1 ==> !Low(src[1]);
    assert Bounded(s, |src|);
    if i == 0 {
      room := |s.out|;
      RunGoes(step, src, room);
      NoRoomNoStep(step, src[1..]);
    } else {
      var room' := StopsAfter(k, src[s.taken..], i - s.taken);
      room := |s.out| + room';
      RunGoes(step, src, room);
    }
  }

  lemma NoRoomNoStep(step: seq<bv32> -> Step<bv32>, src: seq<bv32>)
    requires Proper(step)
    ensures Run(step, src, 0).taken == 0
  {
    if src != [] {
      assert Bounded(step(src), |src|);
    }
  }

  /**
   Whatever the room, what is written is the conversion of what is taken, exactly when the source is not
   UTF-16, or the conversion is strict, or every high surrogate before another unit has its partner.
   */
  lemma AlwaysInStepIff(k: Kind, flags: Flags, src: seq<bv32>)
    ensures (forall room: nat :: InStep(k, flags, src, room))
      <==> !FromUtf16(k) || flags.Strict? || !BrokenPair(src)
  {
    hide StepFn, Run, InStep;
    if !FromUtf16(k) || flags.Strict? || !BrokenPair(src) {
      forall room: nat
        ensures InStep(k, flags, src, room)
      {
        WrittenSoFar(k, flags, src, room);
        if FromUtf16(k) {
          NoHighLast(k, flags, src, room);
        }
      }
    } else {
      var i :| 0 <= i < |src| - 1 && High(src[i]) && !Low(src[i + 1]);
      var room := StopsAfter(k, src, i);
      WrittenSoFar(k, Lenient, src, room);
      assert !InStep(k, flags, src, room);
    }
  }

  /** A lone high surrogate taken on its own account: the call writes it, the same unit alone waits. */
  lemma OutOfStep()
    ensures !InStep(U16toU32, Lenient, [0xD800, 0x41], 1)
  {
    hide StepFn, Run, InStep;
    assert StepFn(U16toU32, Lenient)([0xD800, 0x41]) == Emit(1, [0xD800], 1, false) by { LoneStep(); }
    StepsProper(U16toU32, Lenient);
    RunGoes(StepFn(U16toU32, Lenient), [0xD800, 0x41], 1);
    NoRoomNoStep(StepFn(U16toU32, Lenient), [0xD800, 0x41][1..]);
    WrittenSoFar(U16toU32, Lenient, [0xD800, 0x41], 1);
  }

  lemma LoneStep()
    ensures StepFn(U16toU32, Lenient)([0xD800, 0x41]) == Emit(1, [0xD800], 1, false)
  {
  }
}
