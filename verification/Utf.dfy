/**
 The steps of the six UTF converters: what each takes from the source, what it puts into the target, and
 when it stops.  Code units of every width are 32-bit words.
 */
module Utf {
  import opened Chunking

  type Utf8 = u: bv32 | u <= 0xFF
  type Utf16 = u: bv32 | u <= 0xFFFF
  type Utf32 = bv32

  datatype Flags = Strict | Lenient

  datatype Kind = U32toU16 | U16toU32 | U16toU8 | U8toU16 | U32toU8 | U8toU32

  const REPLACEMENT: bv32 := 0xFFFD
  const MAX_BMP: bv32 := 0xFFFF
  const MAX_LEGAL: bv32 := 0x10FFFF

  predicate Surrogate(ch: bv32) { 0xD800 <= ch <= 0xDFFF }

  predicate High(u: bv32) { 0xD800 <= u <= 0xDBFF }

  predicate Low(u: bv32) { 0xDC00 <= u <= 0xDFFF }

  /** A Unicode scalar value: section 3.9 of the Unicode Standard, definition D76. */
  predicate Scalar(ch: bv32) { ch <= MAX_LEGAL && !Surrogate(ch) }

  // ----- Encoding forms, as in Tables 3-5 and 3-6 of the Unicode Standard

  function Lead2(ch: bv32): bv32 { 0xC0 | (ch >> 6) }

  function Lead3(ch: bv32): bv32 { 0xE0 | (ch >> 12) }

  function Lead4(ch: bv32): bv32 { 0xF0 | (ch >> 18) }

  function Tail0(ch: bv32): bv32 { 0x80 | (ch & 0x3F) }

  function Tail1(ch: bv32): bv32 { 0x80 | ((ch >> 6) & 0x3F) }

  function Tail2(ch: bv32): bv32 { 0x80 | ((ch >> 12) & 0x3F) }

  function Bytes(ch: bv32): seq<bv32> {
    if ch < 0x80 then [ch]
    else if ch < 0x800 then [Lead2(ch), Tail0(ch)]
    else if ch < 0x10000 then [Lead3(ch), Tail1(ch), Tail0(ch)]
    else [Lead4(ch), Tail2(ch), Tail1(ch), Tail0(ch)]
  }

  function HighOf(ch: bv32): bv32 { 0xD800 | ((ch - 0x10000) >> 10) }

  function LowOf(ch: bv32): bv32 { 0xDC00 | (ch & 0x3FF) }

  function Words(ch: bv32): seq<bv32> { if ch <= MAX_BMP then [ch] else [HighOf(ch), LowOf(ch)] }

  function Paired(hi: bv32, lo: bv32): bv32 { ((hi - 0xD800) << 10) + (lo - 0xDC00) + 0x10000 }

  // ----- Legality of UTF-8

  /** The number of bytes that the lead byte announces after itself. */
  function Trailing(lead: bv32): nat {
    if lead < 0xC0 then 0 else if lead < 0xE0 then 1 else if lead < 0xF0 then 2
    else if lead < 0xF8 then 3 else if lead < 0xFC then 4 else 5
  }

  predicate Continues(b: bv32) { 0x80 <= b <= 0xBF }

  /** Table 3-7 of the Unicode Standard: the well-formed byte sequences of one character. */
  predicate Table37(s: seq<bv32>) {
    || (|s| == 1 && s[0] <= 0x7F)
    || (|s| == 2 && 0xC2 <= s[0] <= 0xDF && Continues(s[1]))
    || (|s| == 3 && Continues(s[2])
        && (   (s[0] == 0xE0 && 0xA0 <= s[1] <= 0xBF)
            || (0xE1 <= s[0] <= 0xEC && Continues(s[1]))
            || (s[0] == 0xED && 0x80 <= s[1] <= 0x9F)
            || (0xEE <= s[0] <= 0xEF && Continues(s[1]))))
    || (|s| == 4 && Continues(s[2]) && Continues(s[3])
        && (   (s[0] == 0xF0 && 0x90 <= s[1] <= 0xBF)
            || (0xF1 <= s[0] <= 0xF3 && Continues(s[1]))
            || (s[0] == 0xF4 && 0x80 <= s[1] <= 0x8F)))
  }

  /** What the source accepts beyond the table: no lower bound on the second byte after ED and F4. */
  predicate Unchecked(s: seq<bv32>) {
    || (|s| == 3 && s[0] == 0xED && s[1] < 0x80 && Continues(s[2]))
    || (|s| == 4 && s[0] == 0xF4 && s[1] < 0x80 && Continues(s[2]) && Continues(s[3]))
  }

  predicate Legal(s: seq<bv32>) { Table37(s) || Unchecked(s) }

  function Join(ch: bv32, b: bv32): bv32 { (ch << 6) + b }

  /** The bytes run together, six bits apart. */
  function Accumulated(s: seq<bv32>): bv32 {
    if s == [] then 0 else Join(Accumulated(s[..|s| - 1]), s[|s| - 1])
  }

  function Offset(extra: nat): bv32 {
    match extra
    case 0 => 0
    case 1 => 0x00003080
    case 2 => 0x000E2080
    case 3 => 0x03C82080
    case 4 => 0xFA082080
    case _ => 0x82082080
  }

  function Less(ch: bv32, extra: nat): bv32 { ch - Offset(extra) }

  function Decoded(s: seq<bv32>): bv32
    requires s != []
  {
    Less(Accumulated(s), |s| - 1)
  }

  // ----- One step

  /** A character read from UTF-16, or the reason to stop. */
  datatype Read = Got(taken: nat, ch: bv32) | Bad(why: Result)

  function ReadUtf16(flags: Flags, src: seq<bv32>): (r: Read)
    requires src != []
    ensures r.Got? ==> 1 <= r.taken <= |src|
  {
    if High(src[0]) then
      if |src| == 1 then Bad(SourceExhausted)
      else if Low(src[1]) then Got(2, Paired(src[0], src[1]))
      else if flags.Strict? then Bad(SourceIllegal)
      else Got(1, src[0])
    else if flags.Strict? && Low(src[0]) then Bad(SourceIllegal)
    else Got(1, src[0])
  }

  function ReadUtf8(src: seq<bv32>): (r: Read)
    requires src != []
    ensures r.Got? ==> 1 <= r.taken <= |src|
  {
    var n := Trailing(src[0]) + 1;
    if n > |src| then Bad(SourceExhausted)
    else if !Legal(src[..n]) then Bad(SourceIllegal)
    else Got(n, Decoded(src[..n]))
  }

  /** Put `ch` into UTF-16 after reading it from UTF-8. */
  function PutWords(flags: Flags, taken: nat, ch: bv32): Step<bv32> {
    if ch <= MAX_BMP then
      if Surrogate(ch) then
        if flags.Strict? then Halt(SourceIllegal, 1) else Emit(taken, [REPLACEMENT], 1, false)
      else Emit(taken, [ch], 1, false)
    else if ch > MAX_LEGAL then
      if flags.Strict? then Halt(SourceIllegal, 1) else Emit(taken, [REPLACEMENT], 1, false)
    else Emit(taken, Words(ch), 2, false)
  }

  function PutUtf32(flags: Flags, taken: nat, ch: bv32): Step<bv32> {
    if ch > MAX_LEGAL then Emit(taken, [REPLACEMENT], 1, true)
    else if Surrogate(ch) then
      if flags.Strict? then Halt(SourceIllegal, 1) else Emit(taken, [REPLACEMENT], 1, false)
    else Emit(taken, [ch], 1, false)
  }

  function PutBytes(taken: nat, ch: bv32): Step<bv32> {
    if ch > MAX_LEGAL then Emit(taken, Bytes(REPLACEMENT), 3, true)
    else Emit(taken, Bytes(ch), |Bytes(ch)|, false)
  }

  function StepOf(k: Kind, flags: Flags, src: seq<bv32>): Step<bv32>
    requires src != []
  {
    match k
    case U32toU16 =>
      if src[0] > MAX_LEGAL && flags.Strict? then Emit(1, [], 1, true)
      else PutWords(flags, 1, src[0])
    case U32toU8 =>
      if flags.Strict? && Surrogate(src[0]) then Halt(SourceIllegal, 0) else PutBytes(1, src[0])
    case U16toU32 =>
      (match ReadUtf16(flags, src)
       case Bad(why) => Halt(why, 0)
       case Got(n, ch) => Emit(n, [ch], 1, false))
    case U16toU8 =>
      (match ReadUtf16(flags, src)
       case Bad(why) => Halt(why, 0)
       case Got(n, ch) => PutBytes(n, ch).(taints := false))
    case U8toU16 =>
      (match ReadUtf8(src)
       case Bad(why) => Halt(why, 0)
       case Got(n, ch) => PutWords(flags, n, ch))
    case U8toU32 =>
      (match ReadUtf8(src)
       case Bad(why) => Halt(why, 0)
       case Got(n, ch) => PutUtf32(flags, n, ch))
  }

  /** The step as a function of whatever source remains. */
  function StepFn(k: Kind, flags: Flags): seq<bv32> -> Step<bv32> {
    (src: seq<bv32>) => if src == [] then Halt(SourceExhausted, 0) else StepOf(k, flags, src)
  }
}
