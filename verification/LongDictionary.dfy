/**
 LongStringDictionary: long values cut into segments over a small map that holds short strings in a fixed
 number of entries and silently ignores what does not fit.
 */
module LongDictionary {
  import opened Arithmetic
  import opened Options

  /** Characters of a value, without its terminator. */
  const VALUE := 255
  const KEY := 255
  const NUM_ENTRIES := 64
  const SEGMENTS := 10
  const SUFFIX := 4

  type Entries = map<string, string>

  function Suffix(i: nat): string
    requires 1 <= i <= SEGMENTS
  {
    if i == 10 then "__10" else ['_', '_', '0' + (i as char)]
  }

  function Segment(k: string, i: nat): string
    requires 1 <= i <= SEGMENTS
  {
    k + Suffix(i)
  }

  /** The key ends in none of the suffixes kept for segments. */
  ghost predicate Plain(k: string) { forall j: string, i: nat | 1 <= i <= SEGMENTS :: k != Segment(j, i) }

  /** What callers must observe. */
  ghost predicate Proper(k: string) { k != "" && |k| + SUFFIX <= KEY && Plain(k) }

  /** Segment keys tell the key and the number. */
  lemma SegmentsDiffer(j: string, i: nat, k: string, m: nat)
    requires 1 <= i <= SEGMENTS && 1 <= m <= SEGMENTS && Segment(j, i) == Segment(k, m)
    ensures j == k && i == m
  {
    var s := Segment(j, i);
    assert s[|s| - 1] == Suffix(i)[|Suffix(i)| - 1] == Suffix(m)[|Suffix(m)| - 1];
    assert i == m;
    assert s[..|j|] == j && s[..|k|] == k;
  }

  // ----- The map underneath

  function BaseSet(e: Entries, k: string, v: string): Entries {
    if k in e || |e| < NUM_ENTRIES then e[k := v[..Min(|v|, VALUE)]] else e
  }

  function BaseRemove(e: Entries, k: string): Entries { e - {k} }

  // ----- The operations

  /** Removes segments from number `i` up to the first that is missing. */
  function RemoveSegments(e: Entries, k: string, i: nat): Entries
    requires 1 <= i <= SEGMENTS + 1
    decreases SEGMENTS + 1 - i
  {
    if i <= SEGMENTS && Segment(k, i) in e then RemoveSegments(BaseRemove(e, Segment(k, i)), k, i + 1) else e
  }

  function Removed(e: Entries, k: string): Entries {
    if k in e then BaseRemove(e, k) else RemoveSegments(e, k, 1)
  }

  function PutSegments(e: Entries, k: string, v: string, i: nat): Entries
    requires 1 <= i <= SEGMENTS + 1
    decreases SEGMENTS + 1 - i
  {
    if v == "" || i > SEGMENTS then e
    else
      var n := Min(|v|, VALUE);
      PutSegments(BaseSet(e, Segment(k, i), v[..n]), k, v[n..], i + 1)
  }

  function Stored(e: Entries, k: string, v: Option<string>): Entries {
    var e' := Removed(e, k);
    if v.None? then e'
    else if |v.value| <= VALUE then BaseSet(e', k, v.value)
    else PutSegments(e', k, v.value, 1)
  }

  /** The values of segments from number `i` up to the first that is missing. */
  function Gathered(e: Entries, k: string, i: nat): string
    requires 1 <= i <= SEGMENTS + 1
    decreases SEGMENTS + 1 - i
  {
    if i <= SEGMENTS && Segment(k, i) in e then e[Segment(k, i)] + Gathered(e, k, i + 1) else ""
  }

  function Lookup(e: Entries, k: string): string { if k in e then e[k] else Gathered(e, k, 1) }

  predicate Has(e: Entries, k: string) { k in e || Segment(k, 1) in e }

  // ----- The invariant

  /** Whole or in segments, never both; segments without a gap. */
  predicate Tidy(e: Entries, k: string) {
    && !(k in e && Segment(k, 1) in e)
    && (forall i: nat | 1 <= i < SEGMENTS && Segment(k, i + 1) in e :: Segment(k, i) in e)
  }

  ghost predicate Sound(e: Entries) {
    && |e| <= NUM_ENTRIES
    && (forall k | Proper(k) :: Tidy(e, k))
  }

  /** The entries that may hold something of `k`. */
  predicate Family(k: string, x: string) { x == k || exists i: nat :: 1 <= i <= SEGMENTS && x == Segment(k, i) }

  ghost predicate SameExcept(e: Entries, f: Entries, k: string) {
    forall x | !Family(k, x) :: (x in e <==> x in f) && (x in e ==> e[x] == f[x])
  }

  /** Different proper keys share no entry. */
  lemma FamiliesApart(j: string, k: string, x: string)
    requires Proper(j) && Proper(k) && Family(j, x) && Family(k, x)
    ensures j == k
  {
    if x != j && x != k {
      var i: nat :| 1 <= i <= SEGMENTS && x == Segment(j, i);
      var m: nat :| 1 <= m <= SEGMENTS && x == Segment(k, m);
      SegmentsDiffer(j, i, k, m);
    }
  }

  lemma {:induction false} GatheredSame(e: Entries, f: Entries, k: string, i: nat)
    requires 1 <= i <= SEGMENTS + 1
    requires forall x | Family(k, x) :: (x in e <==> x in f) && (x in e ==> e[x] == f[x])
    ensures Gathered(e, k, i) == Gathered(f, k, i)
    decreases SEGMENTS + 1 - i
  {
    if i <= SEGMENTS {
      assert Family(k, Segment(k, i));
      GatheredSame(e, f, k, i + 1);
    }
  }

  /** What an operation on `k` leaves alone for every other key. */
  lemma OthersKept(e: Entries, f: Entries, k: string, j: string)
    requires Proper(k) && Proper(j) && j != k && SameExcept(e, f, k)
    ensures Lookup(e, j) == Lookup(f, j) && (Has(e, j) <==> Has(f, j)) && (Tidy(e, j) ==> Tidy(f, j))
  {
    forall x | Family(j, x)
      ensures (x in e <==> x in f) && (x in e ==> e[x] == f[x])
    {
      if Family(k, x) {
        FamiliesApart(j, k, x);
      }
    }
    assert Family(j, j) && Family(j, Segment(j, 1));
    GatheredSame(e, f, j, 1);
    forall i: nat | 1 <= i < SEGMENTS && Segment(j, i + 1) in f && Tidy(e, j)
      ensures Segment(j, i) in f
    {
      assert Family(j, Segment(j, i)) && Family(j, Segment(j, i + 1));
    }
  }

  /** No segment of `k` from number `i` on. */
  predicate Blank(e: Entries, k: string, i: nat)
    requires 1 <= i
  {
    forall m: nat | i <= m <= SEGMENTS :: Segment(k, m) !in e
  }

  predicate Gapless(e: Entries, k: string, i: nat)
    requires 1 <= i
  {
    forall m: nat | i <= m < SEGMENTS && Segment(k, m + 1) in e :: Segment(k, m) in e
  }

  predicate IsSegmentFrom(k: string, i: nat, x: string)
    requires 1 <= i
  {
    exists m: nat :: i <= m <= SEGMENTS && x == Segment(k, m)
  }

  lemma {:induction false} GaplessBlank(e: Entries, k: string, i: nat)
    requires 1 <= i <= SEGMENTS && Gapless(e, k, i) && Segment(k, i) !in e
    ensures Blank(e, k, i)
    decreases SEGMENTS - i
  {
    if i < SEGMENTS {
      assert Segment(k, i + 1) !in e;
      GaplessBlank(e, k, i + 1);
    }
  }

  lemma {:induction false} SegmentsRemoved(e: Entries, k: string, i: nat)
    requires 1 <= i <= SEGMENTS + 1 && Gapless(e, k, i)
    ensures var f := RemoveSegments(e, k, i);
      && Blank(f, k, i) && |f| <= |e|
      && (forall x | !IsSegmentFrom(k, i, x) :: (x in e <==> x in f) && (x in e ==> e[x] == f[x]))
    decreases SEGMENTS + 1 - i
  {
    if i <= SEGMENTS {
      if Segment(k, i) in e {
        var e' := BaseRemove(e, Segment(k, i));
        forall m: nat | i + 1 <= m <= SEGMENTS
          ensures Segment(k, m) != Segment(k, i)
        {
          if Segment(k, m) == Segment(k, i) {
            SegmentsDiffer(k, m, k, i);
          }
        }
        assert |e'| <= |e| by {
          assert e'.Keys == e.Keys - {Segment(k, i)} && |e'.Keys| == |e'| && |e.Keys| == |e|;
        }
        SegmentsRemoved(e', k, i + 1);
        forall x | !IsSegmentFrom(k, i, x)
          ensures !IsSegmentFrom(k, i + 1, x) && x != Segment(k, i)
        {
        }
        StillGone(e', k, i);
      } else {
        GaplessBlank(e, k, i);
      }
    }
  }

  lemma StillGone(e: Entries, k: string, i: nat)
    requires 1 <= i <= SEGMENTS && Segment(k, i) !in e && Gapless(e, k, i + 1)
    requires var f := RemoveSegments(e, k, i + 1);
      && Blank(f, k, i + 1)
      && (forall x | !IsSegmentFrom(k, i + 1, x) :: (x in e <==> x in f) && (x in e ==> e[x] == f[x]))
    ensures Blank(RemoveSegments(e, k, i + 1), k, i)
  {
    if IsSegmentFrom(k, i + 1, Segment(k, i)) {
      var m: nat :| i + 1 <= m <= SEGMENTS && Segment(k, i) == Segment(k, m);
      SegmentsDiffer(k, i, k, m);
    }
  }

  /** Removal leaves nothing of the key, and everything else. */
  lemma {:induction false} RemovedClears(e: Entries, k: string)
    requires Proper(k) && Tidy(e, k)
    ensures var f := Removed(e, k);
      k !in f && Blank(f, k, 1) && |f| <= |e| && SameExcept(e, f, k)
  {
    hide RemoveSegments;
    if k in e {
      GaplessBlank(e, k, 1);
      assert BaseRemove(e, k).Keys == e.Keys - {k} && |BaseRemove(e, k).Keys| == |BaseRemove(e, k)| && |e.Keys| == |e|;
    } else {
      SegmentsRemoved(e, k, 1);
      KeyIsNoSegment(k);
    }
  }

  lemma KeyIsNoSegment(k: string)
    requires Proper(k)
    ensures !IsSegmentFrom(k, 1, k)
    ensures forall x | !Family(k, x) :: !IsSegmentFrom(k, 1, x) && x != k
  {
  }

  /** How much of a value segments from number `i` on can hold with `free` entries left. */
  function Room(i: nat, free: nat): nat
    requires 1 <= i <= SEGMENTS + 1
  {
    VALUE * Min(SEGMENTS + 1 - i, free)
  }

  lemma RoomStep(i: nat, free: nat)
    requires 1 <= i <= SEGMENTS && free > 0
    ensures Room(i, free) == VALUE + Room(i + 1, free - 1) && Room(i, 0) == 0
  {
  }

  lemma BaseSetNew(e: Entries, x: string, v: string)
    requires x !in e && |v| <= VALUE
    ensures BaseSet(e, x, v) == if |e| < NUM_ENTRIES then e[x := v] else e
    ensures |e| < NUM_ENTRIES ==> |e[x := v]| == |e| + 1
  {
    assert v[..|v|] == v;
    assert e[x := v].Keys == e.Keys + {x} && |e[x := v].Keys| == |e[x := v]| && |e.Keys| == |e|;
  }

  lemma NextBlank(e: Entries, k: string, v: string, i: nat)
    requires 1 <= i <= SEGMENTS && Blank(e, k, i)
    ensures Blank(e[Segment(k, i) := v], k, i + 1) && Blank(e, k, i + 1)
    ensures !IsSegmentFrom(k, i + 1, Segment(k, i))
  {
    forall m: nat | i + 1 <= m <= SEGMENTS
      ensures Segment(k, m) != Segment(k, i)
    {
      if Segment(k, m) == Segment(k, i) {
        SegmentsDiffer(k, m, k, i);
      }
    }
  }

  lemma {:induction false} NothingPut(e: Entries, k: string, v: string, i: nat)
    requires 1 <= i <= SEGMENTS + 1 && |e| >= NUM_ENTRIES && Blank(e, k, i)
    ensures PutSegments(e, k, v, i) == e
    decreases SEGMENTS + 1 - i
  {
    if v != "" && i <= SEGMENTS {
      NothingPut(e, k, v[Min(|v|, VALUE)..], i + 1);
    }
  }

  /** `g` is `e` with segments of `v` put from number `i` on, as far as there are numbers and entries. */
  ghost predicate TakenIn(e: Entries, g: Entries, k: string, v: string, i: nat)
    requires 1 <= i <= SEGMENTS + 1 && |e| <= NUM_ENTRIES
  {
    && |g| <= NUM_ENTRIES && Gapless(g, k, i)
    && Gathered(g, k, i) == v[..Min(|v|, Room(i, NUM_ENTRIES - |e|))]
    && (i <= SEGMENTS ==> (Segment(k, i) in g <==> v != "" && |e| < NUM_ENTRIES))
    && (forall x | !IsSegmentFrom(k, i, x) :: (x in e <==> x in g) && (x in e ==> e[x] == g[x]))
  }

  lemma TakenInMore(e: Entries, g: Entries, k: string, v: string, i: nat)
    requires 1 <= i <= SEGMENTS && |e| < NUM_ENTRIES && Blank(e, k, i) && v != ""
    requires var n := Min(|v|, VALUE);
      var e' := e[Segment(k, i) := v[..n]];
      |e'| == |e| + 1 && TakenIn(e', g, k, v[n..], i + 1)
    ensures TakenIn(e, g, k, v, i)
  {
    hide Room, Gathered, Gapless, Blank, IsSegmentFrom;
    var n := Min(|v|, VALUE);
    NextBlank(e, k, v[..n], i);
    RoomStep(i, NUM_ENTRIES - |e|);
    GatheredOnce(g, k, i);
    var m := Min(|v| - n, Room(i + 1, NUM_ENTRIES - |e| - 1));
    assert v[..n] + v[n..][..m] == v[..n + m];
    GaplessFrom(g, k, i);
    LaterSegments(k, i);
  }

  lemma LaterSegments(k: string, i: nat)
    requires 1 <= i <= SEGMENTS
    ensures forall x | !IsSegmentFrom(k, i, x) :: !IsSegmentFrom(k, i + 1, x) && x != Segment(k, i)
  {
  }

  /** Segments take the value from the front as far as there are numbers and entries. */
  lemma {:induction false} SegmentsPut(e: Entries, k: string, v: string, i: nat)
    requires 1 <= i <= SEGMENTS + 1 && |e| <= NUM_ENTRIES && Blank(e, k, i)
    ensures TakenIn(e, PutSegments(e, k, v, i), k, v, i)
    decreases SEGMENTS + 1 - i
  {
    var g := PutSegments(e, k, v, i);
    if i <= SEGMENTS && v != "" && |e| < NUM_ENTRIES {
      hide BaseSet, Room, Gathered, Gapless;
      var n := Min(|v|, VALUE);
      BaseSetNew(e, Segment(k, i), v[..n]);
      NextBlank(e, k, v[..n], i);
      SegmentsPut(e[Segment(k, i) := v[..n]], k, v[n..], i + 1);
      TakenInMore(e, g, k, v, i);
    } else {
      if v != "" && i <= SEGMENTS {
        NothingPut(e, k, v, i);
      }
      BlankIsGapless(e, k, i);
      NoRoomLeft(NUM_ENTRIES - |e|);
    }
  }

  lemma NoRoomLeft(free: nat)
    ensures Room(SEGMENTS + 1, free) == 0
  {
  }

  lemma BlankIsGapless(e: Entries, k: string, i: nat)
    requires 1 <= i && Blank(e, k, i)
    ensures Gapless(e, k, i)
  {
  }

  lemma GaplessFrom(e: Entries, k: string, i: nat)
    requires 1 <= i && Gapless(e, k, i + 1) && (i <= SEGMENTS ==> Segment(k, i) in e)
    ensures Gapless(e, k, i)
  {
  }

  lemma GatheredOnce(e: Entries, k: string, i: nat)
    requires 1 <= i <= SEGMENTS + 1
    ensures Gathered(e, k, i)
      == if i <= SEGMENTS && Segment(k, i) in e then e[Segment(k, i)] + Gathered(e, k, i + 1) else ""
  {
  }

  // ----- What a caller sees

  /** What is kept of a value when `free` entries are left. */
  function Fitting(v: Option<string>, free: nat): string {
    if v.None? then ""
    else if |v.value| <= VALUE then if free > 0 then v.value else ""
    else v.value[..Min(|v.value|, VALUE * Min(SEGMENTS, free))]
  }

  /** Setting a key stores what fits, and leaves every other key alone. */
  lemma {:induction false} StoredLookup(e: Entries, k: string, v: Option<string>)
    requires Sound(e) && Proper(k)
    ensures var g, free := Stored(e, k, v), NUM_ENTRIES - |Removed(e, k)|;
      && Sound(g) && SameExcept(e, g, k) && free >= 0
      && Lookup(g, k) == Fitting(v, free)
      && (Has(g, k) <==> v.Some? && free > 0)
  {
    hide Removed, PutSegments, BaseSet;
    var f, g := Removed(e, k), Stored(e, k, v);
    RemovedClears(e, k);
    KeyIsNoSegment(k);
    GatheredOnce(g, k, 1);
    BlankIsGapless(f, k, 1);
    if v.Some? {
      if |v.value| <= VALUE {
        BaseSetNew(f, k, v.value);
        assert Blank(g, k, 1) && !IsSegmentFrom(k, 1, k);
        BlankIsGapless(g, k, 1);
      } else {
        SegmentsPut(f, k, v.value, 1);
      }
    }
    StillSound(e, g, k);
  }

  lemma StillSound(e: Entries, g: Entries, k: string)
    requires Sound(e) && Proper(k) && SameExcept(e, g, k) && |g| <= NUM_ENTRIES && Tidy(g, k)
    ensures Sound(g)
  {
    forall j | Proper(j)
      ensures Tidy(g, j)
    {
      if j != k {
        OthersKept(e, g, k, j);
      }
    }
  }

  lemma {:induction false} RemovedLookup(e: Entries, k: string)
    requires Sound(e) && Proper(k)
    ensures Sound(Removed(e, k)) && SameExcept(e, Removed(e, k), k)
    ensures Lookup(Removed(e, k), k) == "" && !Has(Removed(e, k), k)
  {
    RemovedClears(e, k);
    BlankIsGapless(Removed(e, k), k, 1);
    StillSound(e, Removed(e, k), k);
  }

  /** A value as a plain map of this library would keep it. */
  function Cut(v: string): string { v[..Min(|v|, SEGMENTS * VALUE)] }

  function EntriesNeeded(v: string): nat {
    if |v| <= VALUE then 1 else Min(SEGMENTS, (|v| + VALUE - 1) / VALUE)
  }

  /** The value is kept, cut at ten segments, exactly when there are enough free entries. */
  lemma KeptIff(e: Entries, k: string, v: string)
    requires Sound(e) && Proper(k)
    ensures Has(Stored(e, k, Some(v)), k) && Lookup(Stored(e, k, Some(v)), k) == Cut(v)
      <==> |Removed(e, k)| + EntriesNeeded(v) <= NUM_ENTRIES
  {
    hide Sound, Stored, Lookup, Has, Removed;
    StoredLookup(e, k, Some(v));
    var free := NUM_ENTRIES - |Removed(e, k)|;
    if |v| > VALUE {
      assert |Fitting(Some(v), free)| == Min(|v|, VALUE * Min(SEGMENTS, free));
    }
  }

  /** The sizes in numbers: ten segments of 255 characters, keys with two underscores and their number. */
  lemma Limits(k: string, v: string)
    ensures Segment(k, 1) == k + "__1" && Segment(k, 9) == k + "__9" && Segment(k, 10) == k + "__10"
    ensures Cut(v) == if |v| <= 2550 then v else v[..2550]
    ensures EntriesNeeded(v) == if |v| <= 255 then 1 else if |v| > 2295 then 10 else (|v| + 254) / 255
  {
  }

  // ----- Runs

  datatype Op = Set(key: string, value: Option<string>) | Remove(key: string)

  function Step(e: Entries, op: Op): Entries {
    match op
    case Set(k, v) => Stored(e, k, v)
    case Remove(k) => Removed(e, k)
  }

  function PlainStep(m: map<string, string>, op: Op): map<string, string> {
    match op
    case Set(k, v) => if v.Some? then m[k := Cut(v.value)] else m - {k}
    case Remove(k) => m - {k}
  }

  function RunEntries(ops: seq<Op>): Entries {
    if ops == [] then map[] else Step(RunEntries(ops[..|ops| - 1]), ops[|ops| - 1])
  }

  function RunPlain(ops: seq<Op>): map<string, string> {
    if ops == [] then map[] else PlainStep(RunPlain(ops[..|ops| - 1]), ops[|ops| - 1])
  }

  /** Keys are proper, and each value finds enough free entries when it is set. */
  ghost predicate Fits(e: Entries, op: Op) {
    && Proper(op.key)
    && (op.Set? && op.value.Some? ==> |Removed(e, op.key)| + EntriesNeeded(op.value.value) <= NUM_ENTRIES)
  }

  ghost predicate AllFit(ops: seq<Op>) { forall n | 0 <= n < |ops| :: Fits(RunEntries(ops[..n]), ops[n]) }

  /** The dictionary answers as the plain map does. */
  ghost predicate Agrees(e: Entries, m: map<string, string>) {
    forall k | Proper(k) :: (Has(e, k) <==> k in m) && Lookup(e, k) == if k in m then m[k] else ""
  }

  lemma {:induction false} StepAgrees(e: Entries, m: map<string, string>, op: Op)
    requires Sound(e) && Agrees(e, m) && Fits(e, op)
    ensures Sound(Step(e, op)) && Agrees(Step(e, op), PlainStep(m, op))
  {
    hide Sound, Lookup, Has, Stored, Removed, Proper, Tidy;
    var k, f := op.key, Step(e, op);
    match op {
      case Set(_, v) =>
        StoredLookup(e, k, v);
        if v.Some? {
          KeptIff(e, k, v.value);
        }
      case Remove(_) =>
        RemovedLookup(e, k);
    }
    forall j | Proper(j)
      ensures Has(f, j) <==> j in PlainStep(m, op)
      ensures Lookup(f, j) == if j in PlainStep(m, op) then PlainStep(m, op)[j] else ""
    {
      if j != k {
        OthersKept(e, f, k, j);
      }
    }
  }

  /** With room for every value, any run of operations is a run on a plain map of cut values. */
  lemma {:induction false} ActsAsPlainMap(ops: seq<Op>)
    requires AllFit(ops)
    ensures Sound(RunEntries(ops)) && Agrees(RunEntries(ops), RunPlain(ops))
  {
    hide Lookup, Has, Step, PlainStep, Fits;
    if ops == [] {
      EmptyAgrees();
    } else {
      var init := ops[..|ops| - 1];
      forall n | 0 <= n < |init|
        ensures Fits(RunEntries(init[..n]), init[n])
      {
        assert init[..n] == ops[..n];
      }
      ActsAsPlainMap(init);
      StepAgrees(RunEntries(init), RunPlain(init), ops[|ops| - 1]);
    }
  }

  lemma EmptyAgrees()
    ensures Sound(map[]) && Agrees(map[], map[])
  {
  }

  // ----- The class

  class LongStringDictionary {
    var entries: Entries

    constructor ()
      ensures entries == map[] && Sound(entries)
    {
      entries := map[];
    }

    method BaseSetKeyValue(key: string, value: string)
      requires key != "" && |key| <= KEY
      modifies this
      ensures entries == BaseSet(old(entries), key, value)
    {
      if key in entries || |entries| < NUM_ENTRIES {
        entries := entries[key := value[..Min(|value|, VALUE)]];
      }
    }

    method BaseRemoveKey(key: string) returns (found: bool)
      modifies this
      ensures found == (key in old(entries)) && entries == BaseRemove(old(entries), key)
    {
      found := key in entries;
      entries := entries - {key};
    }

    method SetKeyValue(key: string, value: Option<string>)
      requires Sound(entries) && Proper(key)
      modifies this
      ensures Sound(entries) && entries == Stored(old(entries), key, value)
    {
      hide BaseSet, BaseRemove, Sound;
      StoredLookup(entries, key, value);
      var _ := RemoveKey(key);
      if value.None? {
        return;
      }
      if |value.value| <= VALUE {
        BaseSetKeyValue(key, value.value);
        return;
      }
      var remaining := value.value;
      ghost var start := entries;
      for i := 1 to SEGMENTS + 1
        invariant PutSegments(entries, key, remaining, i) == PutSegments(start, key, value.value, 1)
      {
        if remaining == "" {
          return;
        }
        var n := Min(|remaining|, VALUE);
        BaseSetKeyValue(Segment(key, i), remaining[..n]);
        remaining := remaining[n..];
      }
    }

    method RemoveKey(key: string) returns (found: bool)
      requires Sound(entries) && Proper(key)
      modifies this
      ensures Sound(entries) && entries == Removed(old(entries), key)
      ensures found <==> Has(old(entries), key)
    {
      hide BaseRemove, Sound;
      RemovedLookup(entries, key);
      found := BaseRemoveKey(key);
      if found {
        return true;
      }
      NothingLost(old(entries), entries, key);
      var i := 1;
      while i <= SEGMENTS
        invariant 1 <= i <= SEGMENTS + 1
        invariant RemoveSegments(entries, key, i) == RemoveSegments(old(entries), key, 1)
        invariant i == 1 ==> entries == old(entries)
        invariant i > 1 ==> Segment(key, 1) in old(entries)
      {
        ghost var before := entries;
        var removed := BaseRemoveKey(Segment(key, i));
        if !removed {
          NothingLost(before, entries, Segment(key, i));
          break;
        }
        i := i + 1;
      }
      return i != 1;
    }

    method GetValueForKey(key: string) returns (value: string)
      requires key != "" && |key| + SUFFIX <= KEY
      ensures value == Lookup(entries, key)
    {
      if key in entries {
        return entries[key];
      }
      value := "";
      for i := 1 to SEGMENTS + 1
        invariant value + Gathered(entries, key, i) == Gathered(entries, key, 1)
      {
        if Segment(key, i) !in entries {
          return;
        }
        value := value + entries[Segment(key, i)];
      }
    }
  }

  lemma NothingLost(e: Entries, f: Entries, k: string)
    requires k !in e && f == BaseRemove(e, k)
    ensures f == e
  {
  }
}
