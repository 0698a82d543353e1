/**
 The six converters as they move through their buffers.  The target is written in place; a pointer that
 runs ahead is put back when the step cannot be completed.
 */
module UtfConverters {
  import opened Chunking
  import opened Utf
  import opened UtfLaws

  // ----- How far a call has come

  /** `s` units taken and `out` written so far; what remains is a conversion of its own. */
  ghost predicate SoFar(step: seq<bv32> -> Step<bv32>, src: seq<bv32>, room: nat, s: nat, out: seq<bv32>,
                        tainted: bool) {
    && Proper(step) && s <= |src| && |out| <= room
    && Run(step, src, room) == Then(Outcome(s, out, OK, tainted), Run(step, src[s..], room - |out|))
  }

  /** The call is over. */
  ghost predicate Converted(k: Kind, flags: Flags, src: seq<bv32>, room: nat, taken: nat, out: seq<bv32>,
                            result: Result) {
    && Proper(StepFn(k, flags))
    && var r := Run(StepFn(k, flags), src, room);
    && r.taken == taken && r.out == out && r.result == result
  }

  /** What one step at the head of the remaining source must do to a target with `room` left. */
  predicate Stepped(e: Step<bv32>, room: nat, go: bool, taken: nat, put: seq<bv32>, was: Result, result: Result) {
    if Goes(e, room) then
      go && taken == e.taken && put == e.out && result == if e.taints then SourceIllegal else was
    else
      !go && taken == 0 && put == [] && result == if e.Emit? || room < e.need then TargetExhausted else e.why
  }

  lemma Begin(k: Kind, flags: Flags, src: seq<bv32>, room: nat)
    ensures Going(k, flags, src, room, 0, [], OK)
  {
    StepsProper(k, flags);
    hide StepFn, Run, Proper;
    assert src[0..] == src;
    ThenNothing(Run(StepFn(k, flags), src, room));
  }

  lemma Advance(step: seq<bv32> -> Step<bv32>, src: seq<bv32>, room: nat, s: nat, out: seq<bv32>, tainted: bool,
                e: Step<bv32>)
    requires SoFar(step, src, room, s, out, tainted) && s < |src|
    requires e == step(src[s..]) && Goes(e, room - |out|)
    ensures 0 < e.taken && s + e.taken <= |src| && |out| + |e.out| <= room
    ensures SoFar(step, src, room, s + e.taken, out + e.out, tainted || e.taints)
  {
    hide Run, Proper;
    RunGoes(step, src[s..], room - |out|);
    DropDrop(src, s, e.taken);
    ThenAssoc(Outcome(s, out, OK, tainted), Part(e), Run(step, src[s + e.taken..], room - |out| - |e.out|));
  }

  /** Stopped by the step at `s`: for want of room if it needed more, otherwise for its own reason. */
  lemma Stopped(k: Kind, flags: Flags, src: seq<bv32>, room: nat, s: nat, out: seq<bv32>, tainted: bool, e: Step<bv32>)
    requires SoFar(StepFn(k, flags), src, room, s, out, tainted) && s < |src|
    requires e == StepFn(k, flags)(src[s..]) && !Goes(e, room - |out|)
    ensures Converted(k, flags, src, room, s, out, if e.Emit? || room - |out| < e.need then TargetExhausted else e.why)
  {
    hide StepFn;
    assert Bounded(e, |src| - s);
  }

  /** Between two rounds: the result is OK, or remembers that something was illegal. */
  ghost predicate Going(k: Kind, flags: Flags, src: seq<bv32>, room: nat, s: nat, out: seq<bv32>, result: Result) {
    (result == OK || result == SourceIllegal) && SoFar(StepFn(k, flags), src, room, s, out, result == SourceIllegal)
  }

  /** After a round that has put `put` the call goes on, or is over. */
  lemma Round(k: Kind, flags: Flags, src: seq<bv32>, room: nat, s0: nat, out: seq<bv32>, was: Result,
              left: nat, go: bool, s: nat, put: seq<bv32>, result: Result)
    requires Going(k, flags, src, room, s0, out, was) && s0 < |src| && s0 <= s && left == room - |out|
    requires Stepped(StepFn(k, flags)(src[s0..]), left, go, s - s0, put, was, result)
    ensures if go then s0 < s <= |src| && Going(k, flags, src, room, s, out + put, result)
            else s == s0 && put == [] && Converted(k, flags, src, room, s, out, result)
  {
    hide StepFn, Run, Proper;
    var step, tainted := StepFn(k, flags), was == SourceIllegal;
    if go {
      Advance(step, src, room, s0, out, tainted, step(src[s0..]));
    } else {
      Stopped(k, flags, src, room, s0, out, tainted, step(src[s0..]));
    }
  }

  lemma Finished(k: Kind, flags: Flags, src: seq<bv32>, room: nat, out: seq<bv32>, result: Result)
    requires Going(k, flags, src, room, |src|, out, result)
    ensures Converted(k, flags, src, room, |src|, out, result)
  {
    hide StepFn;
  }

  // ----- Shared parts

  /** The fall-through checks, from the last byte back to the first. */
  method IsLegalUTF8(source: seq<Utf8>, length: nat) returns (legal: bool)
    requires 1 <= length <= |source| && length == Trailing(source[0]) + 1
    ensures legal == Legal(source[..length])
  {
    if length > 4 {
      return false;
    }
    var p := length;
    if length == 4 {
      p := p - 1;
      if source[p] < 0x80 || source[p] > 0xBF {
        return false;
      }
    }
    if length >= 3 {
      p := p - 1;
      if source[p] < 0x80 || source[p] > 0xBF {
        return false;
      }
    }
    if length >= 2 {
      p := p - 1;
      var a := source[p];
      if a > 0xBF {
        return false;
      }
      if source[0] == 0xE0 {
        if a < 0xA0 { return false; }
      } else if source[0] == 0xED {
        if a > 0x9F { return false; }
      } else if source[0] == 0xF0 {
        if a < 0x90 { return false; }
      } else if source[0] == 0xF4 {
        if a > 0x8F { return false; }
      } else {
        if a < 0x80 { return false; }
      }
    }
    if source[0] >= 0x80 && source[0] < 0xC2 {
      return false;
    }
    if source[0] > 0xF4 {
      return false;
    }
    return true;
  }

  method IsLegalUTF8Sequence(source: seq<Utf8>) returns (legal: bool)
    requires source != []
    ensures legal <==> Trailing(source[0]) + 1 <= |source| && Legal(source[..Trailing(source[0]) + 1])
  {
    var length := Trailing(source[0]) + 1;
    if length > |source| {
      return false;
    }
    legal := IsLegalUTF8(source, length);
  }

  /** Runs `n` bytes together; the loop that the source's fall-through switch unrolls. */
  method Gather(source: seq<Utf8>, s: nat, n: nat) returns (s': nat, ch: bv32)
    requires 1 <= n && s + n <= |source|
    ensures s' == s + n && ch == Decoded(source[s..s + n])
  {
    hide Join, Less;
    ghost var part := source[s..s + n];
    assert part[..0] == [];
    ch, s' := 0, s;
    while s' < s + n
      invariant s <= s' <= s + n
      invariant ch == Accumulated(part[..s' - s])
    {
      AccumulatedNext(part, s' - s);
      ch := Join(ch, source[s']);
      s' := s' + 1;
    }
    assert part[..n] == part;
    ch := Less(ch, n - 1);
  }

  /** One character of UTF-16, with the pointer where the source leaves it. */
  method ReadWord(source: seq<Utf16>, s: nat, flags: Flags) returns (stop: Result, s': nat, ch: bv32)
    requires s < |source|
    ensures match ReadUtf16(flags, source[s..])
      case Bad(why) => stop == why && s' == s
      case Got(n, c) => stop == OK && s' == s + n && ch == c
  {
    hide Paired;
    stop, s', ch := OK, s + 1, source[s];
    if High(ch) {
      if s' < |source| {
        var ch2: bv32 := source[s'];
        if Low(ch2) {
          ch := Paired(ch, ch2);
          s' := s' + 1;
        } else if flags == Strict {
          s' := s' - 1;
          stop := SourceIllegal;
        }
      } else {
        s' := s' - 1;
        stop := SourceExhausted;
      }
    } else if flags == Strict {
      if Low(ch) {
        s' := s' - 1;
        stop := SourceIllegal;
      }
    }
  }

  /** One character of UTF-8, with the pointer where the source leaves it. */
  method ReadBytes(source: seq<Utf8>, s: nat) returns (stop: Result, s': nat, ch: bv32)
    requires s < |source|
    ensures match ReadUtf8(source[s..])
      case Bad(why) => stop == why && s' == s
      case Got(n, c) => stop == OK && s' == s + n && ch == c
  {
    hide Legal, Decoded;
    stop, s', ch := OK, s, 0;
    var extraBytesToRead := Trailing(source[s']);
    if s' + extraBytesToRead >= |source| {
      return SourceExhausted, s', ch;
    }
    assert source[s..][..extraBytesToRead + 1] == source[s..s + extraBytesToRead + 1];
    var legal := IsLegalUTF8(source[s'..], extraBytesToRead + 1);
    if !legal {
      return SourceIllegal, s', ch;
    }
    s', ch := Gather(source, s', extraBytesToRead + 1);
  }

  // ----- Writing UTF-8 from the last byte back

  function FirstByteMark(n: nat): bv32 {
    match n
    case 2 => 0xC0
    case 3 => 0xE0
    case 4 => 0xF0
    case _ => 0x00
  }

  function Masked(ch: bv32): bv32 { (ch | 0x80) & 0xBF }

  function Down(ch: bv32): bv32 { ch >> 6 }

  function Marked(ch: bv32, n: nat): bv32 { (ch | FirstByteMark(n)) & 0xFF }

  lemma MaskedIsByte(ch: bv32)
    ensures Masked(ch) <= 0xFF
  {
  }

  lemma MarkedIsByte(ch: bv32, n: nat)
    ensures Marked(ch, n) <= 0xFF
  {
  }

  lemma MaskedTails(ch: bv32)
    ensures Masked(ch) == Tail0(ch) && Masked(Down(ch)) == Tail1(ch) && Masked(Down(Down(ch))) == Tail2(ch)
  {
  }

  lemma MarkedLeads(ch: bv32)
    ensures ch < 0x80 ==> Marked(ch, 1) == ch
    ensures ch < 0x800 ==> Marked(Down(ch), 2) == Lead2(ch)
    ensures ch < 0x10000 ==> Marked(Down(Down(ch)), 3) == Lead3(ch)
    ensures ch <= MAX_LEGAL ==> Marked(Down(Down(Down(ch))), 4) == Lead4(ch)
  {
  }

  /** How many bytes the character needs, as both writers of UTF-8 decide it. */
  function BytesToWrite(ch: bv32): (n: nat)
    ensures 1 <= n <= 4
  {
    if ch < 0x80 then 1 else if ch < 0x800 then 2 else if ch < 0x10000 then 3 else 4
  }

  /** The first `m` of `n` bytes, as the fall-through switch leaves them: the last one is masked first. */
  function Fallen(ch: bv32, n: nat, m: nat): seq<bv32> {
    if m <= 1 then [Marked(ch, n)] else Fallen(Down(ch), n, m - 1) + [Masked(ch)]
  }

  lemma FallenAreBytes(c: bv32)
    requires c <= MAX_LEGAL
    ensures Fallen(c, BytesToWrite(c), BytesToWrite(c)) == Bytes(c)
  {
    MaskedTails(c);
    MarkedLeads(c);
    hide Masked, Down, Marked, Tail0, Tail1, Tail2, Lead2, Lead3, Lead4;
    var n := BytesToWrite(c);
    var c1 := Down(c);
    var c2 := Down(c1);
    var c3 := Down(c2);
    assert Fallen(c3, n, 1) == [Marked(c3, n)] && Fallen(c2, n, 1) == [Marked(c2, n)];
    assert Fallen(c1, n, 1) == [Marked(c1, n)];
    assert Fallen(c2, n, 2) == [Marked(c3, n), Masked(c2)] && Fallen(c1, n, 2) == [Marked(c2, n), Masked(c1)];
    assert Fallen(c1, n, 3) == [Marked(c3, n), Masked(c2), Masked(c1)];
  }

  method WriteBytes(target: array<Utf8>, start: nat, c: bv32)
    requires start + BytesToWrite(c) <= target.Length && c <= MAX_LEGAL
    modifies target
    ensures target[start..start + BytesToWrite(c)] == Bytes(c)
    ensures target[..start] == old(target[..start])
    ensures target[start + BytesToWrite(c)..] == old(target[start + BytesToWrite(c)..])
  {
    hide Masked, Down, Marked, Bytes, BytesToWrite, Fallen;
    FallenAreBytes(c);
    var n := BytesToWrite(c);
    ghost var all := Fallen(c, n, n);
    var t, ch := start + n, c;
    if n >= 4 {
      t, ch := PutMasked(target, start, t, ch, n, all);
    }
    if n >= 3 {
      t, ch := PutMasked(target, start, t, ch, n, all);
    }
    if n >= 2 {
      t, ch := PutMasked(target, start, t, ch, n, all);
    }
    PutMarked(target, start, t, ch, n, all);
  }

  /** The bytes before `t` are still to come. */
  ghost predicate Filled(target: array<Utf8>, start: nat, t: nat, ch: bv32, n: nat, all: seq<bv32>)
    reads target
  {
    start < t <= start + n <= target.Length && all == Fallen(ch, n, t - start) + target[t..start + n]
  }

  /** One case of the switch: a continuation byte in front of those already put. */
  method PutMasked(target: array<Utf8>, ghost start: nat, t: nat, ch: bv32, ghost n: nat, ghost all: seq<bv32>)
    returns (t': nat, ch': bv32)
    requires start + 1 < t && Filled(target, start, t, ch, n, all)
    modifies target
    ensures t' == t - 1 && Filled(target, start, t', ch', n, all)
    ensures target[..t'] == old(target[..t']) && target[start + n..] == old(target[start + n..])
  {
    hide Masked, Down, Marked;
    ghost var put := target[t..start + n];
    t' := t - 1;
    MaskedIsByte(ch);
    target[t'] := Masked(ch);
    ch' := Down(ch);
    assert target[t'..start + n] == [Masked(ch)] + put;
    assert Fallen(ch', n, t' - start) + ([Masked(ch)] + put) == Fallen(ch, n, t - start) + put;
  }

  /** The last case: the lead byte. */
  method PutMarked(target: array<Utf8>, start: nat, t: nat, ch: bv32, n: nat, ghost all: seq<bv32>)
    requires t == start + 1 && Filled(target, start, t, ch, n, all)
    modifies target
    ensures target[start..start + n] == all
    ensures target[..start] == old(target[..start]) && target[start + n..] == old(target[start + n..])
  {
    hide Marked;
    MarkedIsByte(ch, n);
    ghost var put := target[t..start + n];
    target[t - 1] := Marked(ch, n);
    assert target[start..start + n] == [Marked(ch, n)] + put;
  }

  // ----- One round of each loop

  lemma ValueOf32to16(flags: Flags, src: seq<bv32>)
    requires src != []
    ensures var ch := src[0];
      StepFn(U32toU16, flags)(src) ==
        if ch <= MAX_BMP then
          if !Surrogate(ch) then Emit(1, [ch], 1, false)
          else if flags == Strict then Halt(SourceIllegal, 1) else Emit(1, [REPLACEMENT], 1, false)
        else if ch <= MAX_LEGAL then Emit(1, [HighOf(ch), LowOf(ch)], 2, false)
        else if flags == Strict then Emit(1, [], 1, true) else Emit(1, [REPLACEMENT], 1, false)
  {
  }

  lemma ValueOf32to8(flags: Flags, src: seq<bv32>)
    requires src != []
    ensures var ch := src[0];
      StepFn(U32toU8, flags)(src) ==
        if flags == Strict && Surrogate(ch) then Halt(SourceIllegal, 0)
        else if ch > MAX_LEGAL then Emit(1, Bytes(REPLACEMENT), BytesToWrite(REPLACEMENT), true)
        else Emit(1, Bytes(ch), BytesToWrite(ch), false)
    ensures |Bytes(src[0])| == BytesToWrite(src[0]) && |Bytes(REPLACEMENT)| == BytesToWrite(REPLACEMENT)
  {
  }

  /** A character that no valid source can yield is written as the replacement character. */
  function Repaired(ch: bv32): (c: bv32)
    ensures c <= MAX_LEGAL
  {
    if ch > MAX_LEGAL then REPLACEMENT else ch
  }

  lemma ValueOf16to8(flags: Flags, src: seq<bv32>)
    requires src != []
    ensures StepFn(U16toU8, flags)(src) ==
      match ReadUtf16(flags, src)
      case Bad(why) => Halt(why, 0)
      case Got(n, ch) =>
        Emit(n, Bytes(Repaired(ch)), BytesToWrite(Repaired(ch)), false)
  {
    hide ReadUtf16, Lead2, Lead3, Lead4, Tail0, Tail1, Tail2;
  }

  lemma ValueOf8to16(flags: Flags, src: seq<bv32>)
    requires src != []
    ensures StepFn(U8toU16, flags)(src) ==
      match ReadUtf8(src)
      case Bad(why) => Halt(why, 0)
      case Got(n, ch) =>
        if ch <= MAX_BMP && !Surrogate(ch) then Emit(n, [ch], 1, false)
        else if MAX_BMP < ch <= MAX_LEGAL then Emit(n, [HighOf(ch), LowOf(ch)], 2, false)
        else if flags == Strict then Halt(SourceIllegal, 1)
        else Emit(n, [REPLACEMENT], 1, false)
  {
    hide ReadUtf8, HighOf, LowOf;
  }

  lemma ValueOf8to32(flags: Flags, src: seq<bv32>)
    requires src != []
    ensures StepFn(U8toU32, flags)(src) ==
      match ReadUtf8(src)
      case Bad(why) => Halt(why, 0)
      case Got(n, ch) =>
        if ch > MAX_LEGAL then Emit(n, [REPLACEMENT], 1, true)
        else if !Surrogate(ch) then Emit(n, [ch], 1, false)
        else if flags == Strict then Halt(SourceIllegal, 1)
        else Emit(n, [REPLACEMENT], 1, false)
  {
    hide ReadUtf8;
  }

  function PutHigh(ch: bv32): bv32 { ((ch - 0x10000) >> 10) + 0xD800 }

  function PutLow(ch: bv32): bv32 { ((ch - 0x10000) & 0x3FF) + 0xDC00 }

  lemma PutPair(ch: bv32)
    requires 0x10000 <= ch <= MAX_LEGAL
    ensures PutHigh(ch) == HighOf(ch) && PutHigh(ch) <= 0xFFFF
    ensures PutLow(ch) == LowOf(ch) && PutLow(ch) <= 0xFFFF
  {
  }

  /** All bytes of a character or, if they do not fit, none. */
  method PutBytes(target: array<Utf8>, t: nat, ch: bv32) returns (fits: bool, t': nat)
    requires t <= target.Length && ch <= MAX_LEGAL && |Bytes(ch)| == BytesToWrite(ch)
    modifies target
    ensures fits <==> BytesToWrite(ch) <= target.Length - t
    ensures t <= t' <= target.Length && target[t..t'] == if fits then Bytes(ch) else []
    ensures target[..t] == old(target[..t]) && target[t'..] == old(target[t'..])
  {
    hide Bytes, BytesToWrite;
    var bytesToWrite := BytesToWrite(ch);
    t' := t + bytesToWrite;
    if t' > target.Length {
      return false, t' - bytesToWrite;
    }
    WriteBytes(target, t' - bytesToWrite, ch);
    fits := true;
  }

  method Round32to16(source: seq<Utf32>, s: nat, target: array<Utf16>, t: nat, flags: Flags, was: Result)
    returns (go: bool, s': nat, t': nat, result: Result)
    requires s < |source| && t <= target.Length
    modifies target
    ensures s <= s' && t <= t' <= target.Length
    ensures Stepped(StepFn(U32toU16, flags)(source[s..]), target.Length - t, go, s' - s, target[t..t'], was, result)
    ensures target[..t] == old(target[..t]) && target[t'..] == old(target[t'..])
  {
    ValueOf32to16(flags, source[s..]);
    hide StepFn, PutHigh, PutLow, HighOf, LowOf;
    go, s', t', result := true, s, t, was;
    if t' >= target.Length {
      return false, s', t', TargetExhausted;
    }
    var ch := source[s'];
    s' := s' + 1;
    if ch <= MAX_BMP {
      if Surrogate(ch) {
        if flags == Strict {
          return false, s' - 1, t', SourceIllegal;
        } else {
          target[t'] := REPLACEMENT;
          t' := t' + 1;
        }
      } else {
        target[t'] := ch;
        t' := t' + 1;
      }
    } else if ch > MAX_LEGAL {
      if flags == Strict {
        result := SourceIllegal;
      } else {
        target[t'] := REPLACEMENT;
        t' := t' + 1;
      }
    } else {
      if t' + 1 >= target.Length {
        return false, s' - 1, t', TargetExhausted;
      }
      PutPair(ch);
      target[t'] := PutHigh(ch);
      t' := t' + 1;
      target[t'] := PutLow(ch);
      t' := t' + 1;
    }
  }

  method Round16to32(source: seq<Utf16>, s: nat, target: array<Utf32>, t: nat, flags: Flags, was: Result)
    returns (go: bool, s': nat, t': nat, result: Result)
    requires s < |source| && t <= target.Length
    modifies target
    ensures s <= s' && t <= t' <= target.Length
    ensures Stepped(StepFn(U16toU32, flags)(source[s..]), target.Length - t, go, s' - s, target[t..t'], was, result)
    ensures target[..t] == old(target[..t]) && target[t'..] == old(target[t'..])
  {
    hide Paired;
    go, s', t', result := true, s, t, was;
    var ch: bv32;
    result, s', ch := ReadWord(source, s', flags);
    if result != OK {
      return false, s', t', result;
    }
    if t' >= target.Length {
      return false, s, t', TargetExhausted;
    }
    target[t'] := ch;
    t' := t' + 1;
    result := was;
  }

  method Round16to8(source: seq<Utf16>, s: nat, target: array<Utf8>, t: nat, flags: Flags, was: Result)
    returns (go: bool, s': nat, t': nat, result: Result)
    requires s < |source| && t <= target.Length
    modifies target
    ensures s <= s' && t <= t' <= target.Length
    ensures Stepped(StepFn(U16toU8, flags)(source[s..]), target.Length - t, go, s' - s, target[t..t'], was, result)
    ensures target[..t] == old(target[..t]) && target[t'..] == old(target[t'..])
  {
    ValueOf16to8(flags, source[s..]);
    hide StepFn, ReadUtf16, Bytes, BytesToWrite, Repaired;
    go, s', t', result := true, s, t, was;
    var ch: bv32;
    result, s', ch := ReadWord(source, s', flags);
    if result != OK {
      return false, s', t', result;
    }
    ch := Repaired(ch);
    go, t' := PutBytes(target, t', ch);
    if !go {
      return false, s, t', TargetExhausted;
    }
    result := was;
  }

  method Round32to8(source: seq<Utf32>, s: nat, target: array<Utf8>, t: nat, flags: Flags, was: Result)
    returns (go: bool, s': nat, t': nat, result: Result)
    requires s < |source| && t <= target.Length
    modifies target
    ensures s <= s' && t <= t' <= target.Length
    ensures Stepped(StepFn(U32toU8, flags)(source[s..]), target.Length - t, go, s' - s, target[t..t'], was, result)
    ensures target[..t] == old(target[..t]) && target[t'..] == old(target[t'..])
  {
    ValueOf32to8(flags, source[s..]);
    hide StepFn, Bytes, BytesToWrite, Surrogate;
    go, s', t', result := true, s, t, was;
    ghost var e := StepFn(U32toU8, flags)(source[s..]);
    var ch := source[s'];
    s' := s' + 1;
    if flags == Strict {
      if Surrogate(ch) {
        return false, s' - 1, t', SourceIllegal;
      }
    }
    if ch > MAX_LEGAL {
      ch := REPLACEMENT;
      result := SourceIllegal;
    }
    assert e.Emit? && e.taken == 1 && e.out == Bytes(ch) && e.need == |e.out| == BytesToWrite(ch);
    assert result == if e.taints then SourceIllegal else was;
    go, t' := PutBytes(target, t', ch);
    if !go {
      return false, s' - 1, t', TargetExhausted;
    }
  }

  method Round8to16(source: seq<Utf8>, s: nat, target: array<Utf16>, t: nat, flags: Flags, was: Result)
    returns (go: bool, s': nat, t': nat, result: Result)
    requires s < |source| && t <= target.Length
    modifies target
    ensures s <= s' && t <= t' <= target.Length
    ensures Stepped(StepFn(U8toU16, flags)(source[s..]), target.Length - t, go, s' - s, target[t..t'], was, result)
    ensures target[..t] == old(target[..t]) && target[t'..] == old(target[t'..])
  {
    ValueOf8to16(flags, source[s..]);
    hide StepFn, ReadUtf8, PutHigh, PutLow, HighOf, LowOf;
    go, s', t', result := true, s, t, was;
    var ch: bv32;
    result, s', ch := ReadBytes(source, s');
    if result != OK {
      return false, s', t', result;
    }
    result := was;
    if t' >= target.Length {
      return false, s, t', TargetExhausted;
    }
    if ch <= MAX_BMP {
      if Surrogate(ch) {
        if flags == Strict {
          return false, s, t', SourceIllegal;
        } else {
          target[t'] := REPLACEMENT;
          t' := t' + 1;
        }
      } else {
        target[t'] := ch;
        t' := t' + 1;
      }
    } else if ch > MAX_LEGAL {
      if flags == Strict {
        return false, s, t', SourceIllegal;
      } else {
        target[t'] := REPLACEMENT;
        t' := t' + 1;
      }
    } else {
      if t' + 1 >= target.Length {
        return false, s, t', TargetExhausted;
      }
      PutPair(ch);
      target[t'] := PutHigh(ch);
      t' := t' + 1;
      target[t'] := PutLow(ch);
      t' := t' + 1;
    }
  }

  method Round8to32(source: seq<Utf8>, s: nat, target: array<Utf32>, t: nat, flags: Flags, was: Result)
    returns (go: bool, s': nat, t': nat, result: Result)
    requires s < |source| && t <= target.Length
    modifies target
    ensures s <= s' && t <= t' <= target.Length
    ensures Stepped(StepFn(U8toU32, flags)(source[s..]), target.Length - t, go, s' - s, target[t..t'], was, result)
    ensures target[..t] == old(target[..t]) && target[t'..] == old(target[t'..])
  {
    ValueOf8to32(flags, source[s..]);
    hide StepFn, ReadUtf8;
    go, s', t', result := true, s, t, was;
    var ch: bv32;
    result, s', ch := ReadBytes(source, s');
    if result != OK {
      return false, s', t', result;
    }
    result := was;
    if t' >= target.Length {
      return false, s, t', TargetExhausted;
    }
    if ch <= MAX_LEGAL {
      if Surrogate(ch) {
        if flags == Strict {
          return false, s, t', SourceIllegal;
        } else {
          target[t'] := REPLACEMENT;
          t' := t' + 1;
        }
      } else {
        target[t'] := ch;
        t' := t' + 1;
      }
    } else {
      result := SourceIllegal;
      target[t'] := REPLACEMENT;
      t' := t' + 1;
    }
  }

  // ----- The converters

  /**
   A target over time: as it was before the call, before this round and after it.  The round has put
   `after[t0..t]` behind what was written and kept the rest.
   */
  ghost predicate Kept(before: seq<bv32>, between: seq<bv32>, after: seq<bv32>, start: nat, t0: nat, t: nat) {
    && |before| == |between| == |after| && start <= t0 <= t <= |before|
    && between[..start] == before[..start] && between[t0..] == before[t0..]
    && after[..t0] == between[..t0] && after[t..] == between[t..]
  }

  /** What one round does to a call, whatever the converter. */
  lemma Turn(k: Kind, flags: Flags, src: seq<bv32>, before: seq<bv32>, between: seq<bv32>, after: seq<bv32>,
             start: nat, s0: nat, t0: nat, was: Result, go: bool, s: nat, t: nat, result: Result)
    requires Kept(before, between, after, start, t0, t) && s0 < |src| && s0 <= s
    requires Going(k, flags, src, |before| - start, s0, between[start..t0], was)
    requires Stepped(StepFn(k, flags)(src[s0..]), |before| - t0, go, s - s0, after[t0..t], was, result)
    ensures after[..start] == before[..start] && after[t..] == before[t..]
    ensures if go then s0 < s <= |src| && Going(k, flags, src, |before| - start, s, after[start..t], result)
            else s == s0 && t == t0 && Converted(k, flags, src, |before| - start, s, after[start..t], result)
  {
    hide StepFn, Going, Converted, Stepped;
    Round(k, flags, src, |before| - start, s0, between[start..t0], was, |before| - t0, go, s, after[t0..t], result);
    assert after[start..t0] == after[..t0][start..] == between[..t0][start..] == between[start..t0];
    assert after[start..t] == between[start..t0] + after[t0..t];
    assert after[..start] == after[..t0][..start] && between[..start] == between[..t0][..start];
    assert between[t..] == between[t0..][t - t0..] && before[t..] == before[t0..][t - t0..];
  }

  method ConvertUTF32toUTF16(source: seq<Utf32>, target: array<Utf16>, start: nat, flags: Flags)
    returns (taken: nat, written: nat, result: Result)
    requires start <= target.Length
    modifies target
    ensures start + written <= target.Length
    ensures Converted(U32toU16, flags, source, target.Length - start, taken, target[start..start + written], result)
    ensures target[..start] == old(target[..start]) && target[start + written..] == old(target[start + written..])
  {
    hide StepFn, Going, Converted, Stepped;
    ghost var room := target.Length - start;
    var s: nat, t: nat, go := 0, start, true;
    result := OK;
    Begin(U32toU16, flags, source, room);
    assert target[start..t] == [];
    while s < |source|
      invariant s <= |source| && start <= t <= target.Length && go
      invariant target[..start] == old(target[..start]) && target[t..] == old(target[t..])
      invariant Going(U32toU16, flags, source, room, s, target[start..t], result)
    {
      ghost var s0, t0, was, all := s, t, result, target[..];
      go, s, t, result := Round32to16(source, s, target, t, flags, result);
      Turn(U32toU16, flags, source, old(target[..]), all, target[..], start, s0, t0, was, go, s, t, result);
      if !go {
        break;
      }
    }
    if go {
      Finished(U32toU16, flags, source, room, target[start..t], result);
    }
    taken, written := s, t - start;
  }

  method ConvertUTF16toUTF32(source: seq<Utf16>, target: array<Utf32>, start: nat, flags: Flags)
    returns (taken: nat, written: nat, result: Result)
    requires start <= target.Length
    modifies target
    ensures start + written <= target.Length
    ensures Converted(U16toU32, flags, source, target.Length - start, taken, target[start..start + written], result)
    ensures target[..start] == old(target[..start]) && target[start + written..] == old(target[start + written..])
  {
    hide StepFn, Going, Converted, Stepped;
    ghost var room := target.Length - start;
    var s: nat, t: nat, go := 0, start, true;
    result := OK;
    Begin(U16toU32, flags, source, room);
    assert target[start..t] == [];
    while s < |source|
      invariant s <= |source| && start <= t <= target.Length && go
      invariant target[..start] == old(target[..start]) && target[t..] == old(target[t..])
      invariant Going(U16toU32, flags, source, room, s, target[start..t], result)
    {
      ghost var s0, t0, was, all := s, t, result, target[..];
      go, s, t, result := Round16to32(source, s, target, t, flags, result);
      Turn(U16toU32, flags, source, old(target[..]), all, target[..], start, s0, t0, was, go, s, t, result);
      if !go {
        break;
      }
    }
    if go {
      Finished(U16toU32, flags, source, room, target[start..t], result);
    }
    taken, written := s, t - start;
  }

  method ConvertUTF16toUTF8(source: seq<Utf16>, target: array<Utf8>, start: nat, flags: Flags)
    returns (taken: nat, written: nat, result: Result)
    requires start <= target.Length
    modifies target
    ensures start + written <= target.Length
    ensures Converted(U16toU8, flags, source, target.Length - start, taken, target[start..start + written], result)
    ensures target[..start] == old(target[..start]) && target[start + written..] == old(target[start + written..])
  {
    hide StepFn, Going, Converted, Stepped;
    ghost var room := target.Length - start;
    var s: nat, t: nat, go := 0, start, true;
    result := OK;
    Begin(U16toU8, flags, source, room);
    assert target[start..t] == [];
    while s < |source|
      invariant s <= |source| && start <= t <= target.Length && go
      invariant target[..start] == old(target[..start]) && target[t..] == old(target[t..])
      invariant Going(U16toU8, flags, source, room, s, target[start..t], result)
    {
      ghost var s0, t0, was, all := s, t, result, target[..];
      go, s, t, result := Round16to8(source, s, target, t, flags, result);
      Turn(U16toU8, flags, source, old(target[..]), all, target[..], start, s0, t0, was, go, s, t, result);
      if !go {
        break;
      }
    }
    if go {
      Finished(U16toU8, flags, source, room, target[start..t], result);
    }
    taken, written := s, t - start;
  }

  method ConvertUTF8toUTF16(source: seq<Utf8>, target: array<Utf16>, start: nat, flags: Flags)
    returns (taken: nat, written: nat, result: Result)
    requires start <= target.Length
    modifies target
    ensures start + written <= target.Length
    ensures Converted(U8toU16, flags, source, target.Length - start, taken, target[start..start + written], result)
    ensures target[..start] == old(target[..start]) && target[start + written..] == old(target[start + written..])
  {
    hide StepFn, Going, Converted, Stepped;
    ghost var room := target.Length - start;
    var s: nat, t: nat, go := 0, start, true;
    result := OK;
    Begin(U8toU16, flags, source, room);
    assert target[start..t] == [];
    while s < |source|
      invariant s <= |source| && start <= t <= target.Length && go
      invariant target[..start] == old(target[..start]) && target[t..] == old(target[t..])
      invariant Going(U8toU16, flags, source, room, s, target[start..t], result)
    {
      ghost var s0, t0, was, all := s, t, result, target[..];
      go, s, t, result := Round8to16(source, s, target, t, flags, result);
      Turn(U8toU16, flags, source, old(target[..]), all, target[..], start, s0, t0, was, go, s, t, result);
      if !go {
        break;
      }
    }
    if go {
      Finished(U8toU16, flags, source, room, target[start..t], result);
    }
    taken, written := s, t - start;
  }

  method ConvertUTF32toUTF8(source: seq<Utf32>, target: array<Utf8>, start: nat, flags: Flags)
    returns (taken: nat, written: nat, result: Result)
    requires start <= target.Length
    modifies target
    ensures start + written <= target.Length
    ensures Converted(U32toU8, flags, source, target.Length - start, taken, target[start..start + written], result)
    ensures target[..start] == old(target[..start]) && target[start + written..] == old(target[start + written..])
  {
    hide StepFn, Going, Converted, Stepped;
    ghost var room := target.Length - start;
    var s: nat, t: nat, go := 0, start, true;
    result := OK;
    Begin(U32toU8, flags, source, room);
    assert target[start..t] == [];
    while s < |source|
      invariant s <= |source| && start <= t <= target.Length && go
      invariant target[..start] == old(target[..start]) && target[t..] == old(target[t..])
      invariant Going(U32toU8, flags, source, room, s, target[start..t], result)
    {
      ghost var s0, t0, was, all := s, t, result, target[..];
      go, s, t, result := Round32to8(source, s, target, t, flags, result);
      Turn(U32toU8, flags, source, old(target[..]), all, target[..], start, s0, t0, was, go, s, t, result);
      if !go {
        break;
      }
    }
    if go {
      Finished(U32toU8, flags, source, room, target[start..t], result);
    }
    taken, written := s, t - start;
  }

  method ConvertUTF8toUTF32(source: seq<Utf8>, target: array<Utf32>, start: nat, flags: Flags)
    returns (taken: nat, written: nat, result: Result)
    requires start <= target.Length
    modifies target
    ensures start + written <= target.Length
    ensures Converted(U8toU32, flags, source, target.Length - start, taken, target[start..start + written], result)
    ensures target[..start] == old(target[..start]) && target[start + written..] == old(target[start + written..])
  {
    hide StepFn, Going, Converted, Stepped;
    ghost var room := target.Length - start;
    var s: nat, t: nat, go := 0, start, true;
    result := OK;
    Begin(U8toU32, flags, source, room);
    assert target[start..t] == [];
    while s < |source|
      invariant s <= |source| && start <= t <= target.Length && go
      invariant target[..start] == old(target[..start]) && target[t..] == old(target[t..])
      invariant Going(U8toU32, flags, source, room, s, target[start..t], result)
    {
      ghost var s0, t0, was, all := s, t, result, target[..];
      go, s, t, result := Round8to32(source, s, target, t, flags, result);
      Turn(U8toU32, flags, source, old(target[..]), all, target[..], start, s0, t0, was, go, s, t, result);
      if !go {
        break;
      }
    }
    if go {
      Finished(U8toU32, flags, source, room, target[start..t], result);
    }
    taken, written := s, t - start;
  }
}
