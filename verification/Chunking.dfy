/**
 Conversions that go step by step through a source buffer into a target buffer and may stop for want
 of either.  A step is any function of the remaining source; nothing is known here of encodings.
 */
module Chunking {

  datatype Result = OK | SourceExhausted | TargetExhausted | SourceIllegal

  /**
   Either take some units and put some, given that the target has room for `need`, or stop.  A tainted
   step goes on, but the call can no longer end with OK.
   */
  datatype Step<B> =
    | Emit(taken: nat, out: seq<B>, need: nat, taints: bool)
    | Halt(why: Result, need: nat)

  predicate Bounded<B>(s: Step<B>, available: nat) {
    match s
    case Emit(n, out, need, _) => 1 <= n <= available && |out| <= need && 1 <= need
    case Halt(why, need) => why != OK && why != TargetExhausted && (why == SourceExhausted ==> need == 0)
  }

  /** Every step takes something that is there, and says how much room it wants. */
  ghost predicate Proper<A(!new), B>(step: seq<A> -> Step<B>) {
    forall s | |s| > 0 :: Bounded(step(s), |s|)
  }

  /** More input can only change a step that ran out of it. */
  ghost predicate Stable<A(!new), B>(step: seq<A> -> Step<B>) {
    forall s, more | |s| > 0 && !RanOut(step(s)) :: step(s + more) == step(s)
  }

  predicate RanOut<B>(s: Step<B>) { s.Halt? && s.why == SourceExhausted }

  /** How much was taken, what was put, how the call ended, and whether it was tainted on the way. */
  datatype Outcome<B> = Outcome(taken: nat, out: seq<B>, result: Result, tainted: bool)

  /** One part of a conversion followed by the rest. */
  function Then<B>(a: Outcome<B>, b: Outcome<B>): Outcome<B> {
    Outcome(a.taken + b.taken, a.out + b.out, if a.tainted && b.result == OK then SourceIllegal else b.result,
            a.tainted || b.tainted)
  }

  function Part<B>(s: Step<B>): Outcome<B>
    requires s.Emit?
  {
    Outcome(s.taken, s.out, OK, s.taints)
  }

  predicate Goes<B>(s: Step<B>, room: nat) { s.Emit? && s.need <= room }

  /** A whole call: convert as much of `src` as there is room for `room` units. */
  ghost function Run<A(!new), B>(step: seq<A> -> Step<B>, src: seq<A>, room: nat): (r: Outcome<B>)
    requires Proper(step)
    ensures r.taken <= |src| && |r.out| <= room
    decreases |src|
  {
    if |src| == 0 then Outcome(0, [], OK, false)
    else
      var s := step(src);
      assert Bounded(s, |src|);
      if Goes(s, room) then Then(Part(s), Run(step, src[s.taken..], room - |s.out|))
      else Outcome(0, [], if s.Emit? || room < s.need then TargetExhausted else s.why, false)
  }

  lemma RunGoes<A(!new), B>(step: seq<A> -> Step<B>, src: seq<A>, room: nat)
    requires Proper(step) && |src| > 0 && Goes(step(src), room)
    ensures var s := step(src);
      && 1 <= s.taken <= |src| && |s.out| <= room
      && Run(step, src, room) == Then(Part(s), Run(step, src[s.taken..], room - |s.out|))
  {
    assert Bounded(step(src), |src|);
  }

  lemma RunStops<A(!new), B>(step: seq<A> -> Step<B>, src: seq<A>, room: nat)
    requires Proper(step) && (|src| == 0 || !Goes(step(src), room))
    ensures Run(step, src, room).taken == 0 && Run(step, src, room).out == [] && !Run(step, src, room).tainted
  {
  }

  lemma RunHalts<A(!new), B>(step: seq<A> -> Step<B>, src: seq<A>, room: nat)
    requires Proper(step) && |src| > 0 && step(src).Halt? && step(src).need <= room
    ensures Run(step, src, room) == Outcome(0, [], step(src).why, false)
  {
  }

  lemma NothingRun<A(!new), B>(step: seq<A> -> Step<B>, room: nat)
    requires Proper(step)
    ensures Run(step, [], room) == Outcome(0, [], OK, false)
  {
  }

  /** Steps that agree make the same calls. */
  lemma {:induction false} SameSteps<A(!new), B>(step: seq<A> -> Step<B>, other: seq<A> -> Step<B>,
                                                 src: seq<A>, room: nat)
    requires Proper(step) && Proper(other) && forall s :: step(s) == other(s)
    ensures Run(step, src, room) == Run(other, src, room)
    decreases |src|
  {
    hide Run, Proper;
    if |src| > 0 && Goes(step(src), room) {
      RunGoes(step, src, room);
      RunGoes(other, src, room);
      SameSteps(step, other, src[step(src).taken..], room - |step(src).out|);
    } else {
      SameStop(step, other, src, room);
    }
  }

  lemma SameStop<A(!new), B>(step: seq<A> -> Step<B>, other: seq<A> -> Step<B>, src: seq<A>, room: nat)
    requires Proper(step) && Proper(other) && step(src) == other(src) && (|src| == 0 || !Goes(step(src), room))
    ensures Run(step, src, room) == Run(other, src, room)
  {
  }

  lemma ThenAssoc<B>(a: Outcome<B>, b: Outcome<B>, c: Outcome<B>)
    ensures Then(Then(a, b), c) == Then(a, Then(b, c))
  {
    assert a.out + b.out + c.out == a.out + (b.out + c.out);
  }

  lemma ThenNothing<B>(b: Outcome<B>)
    ensures Then(Outcome(0, [], OK, false), b) == b
  {
    assert [] + b.out == b.out;
  }

  lemma DropConcat<A>(a: seq<A>, b: seq<A>, n: nat)
    requires n <= |a|
    ensures (a + b)[n..] == a[n..] + b
  {
  }

  lemma DropDrop<A>(a: seq<A>, n: nat, m: nat)
    requires n + m <= |a|
    ensures a[n..][m..] == a[n + m..]
  {
  }

  lemma StepStays<A(!new), B>(step: seq<A> -> Step<B>, s: seq<A>, more: seq<A>)
    requires Stable(step) && |s| > 0 && !RanOut(step(s))
    ensures step(s + more) == step(s)
  {
  }

  // ----- Resuming

  /**
   Stop anywhere, for any reason, come back with more input and more room: the two calls together are
   one call with all the input and all the room.
   */
  lemma {:induction false} Resume<A(!new), B>(step: seq<A> -> Step<B>, a: seq<A>, room: nat, more: seq<A>, extra: nat)
    requires Proper(step) && Stable(step)
    ensures var r := Run(step, a, room);
      Run(step, a + more, room + extra)
      == Then(r.(result := OK), Run(step, a[r.taken..] + more, room - |r.out| + extra))
    decreases |a|
  {
    hide Run, Proper, Stable;
    var r := Run(step, a, room);
    if |a| == 0 || !Goes(step(a), room) {
      RunStops(step, a, room);
      assert a[0..] + more == a + more;
      ThenNothing(Run(step, a + more, room + extra));
    } else {
      var s := step(a);
      StepStays(step, a, more);
      RunGoes(step, a, room);
      RunGoes(step, a + more, room + extra);
      var a', room' := a[s.taken..], room - |s.out|;
      var rest := Run(step, a', room');
      Resume(step, a', room', more, extra);
      var last := Run(step, a'[rest.taken..] + more, room' - |rest.out| + extra);
      DropConcat(a, more, s.taken);
      DropDrop(a, s.taken, rest.taken);
      Regroup(Part(s), rest, last);
    }
  }

  lemma Regroup<B>(a: Outcome<B>, b: Outcome<B>, c: Outcome<B>)
    ensures Then(Then(a, b).(result := OK), c) == Then(a, Then(b.(result := OK), c))
  {
    ThenAssoc(a, b, c);
    ThenForgets(b, c);
    ThenForgets(Then(a, b), c);
  }

  /** Only whether the first part was tainted matters to the result of the whole. */
  lemma ThenForgets<B>(a: Outcome<B>, b: Outcome<B>)
    ensures Then(a.(result := OK), b) == Then(a, b)
  {
  }

  /** A caller's next call: some input that has arrived since, and some room that has been made. */
  datatype Call<A> = Call(more: seq<A>, extra: nat)

  function AllInput<A>(calls: seq<Call<A>>): seq<A> {
    if |calls| == 0 then [] else AllInput(calls[..|calls| - 1]) + calls[|calls| - 1].more
  }

  function AllRoom<A>(calls: seq<Call<A>>): nat {
    if |calls| == 0 then 0 else AllRoom(calls[..|calls| - 1]) + calls[|calls| - 1].extra
  }

  /** All calls one after the other, each going on from where the previous one stopped. */
  ghost function Session<A(!new), B>(step: seq<A> -> Step<B>, calls: seq<Call<A>>): (r: Outcome<B>)
    requires Proper(step)
    ensures r.taken <= |AllInput(calls)| && |r.out| <= AllRoom(calls)
  {
    if |calls| == 0 then Outcome(0, [], OK, false)
    else
      var earlier, call := calls[..|calls| - 1], calls[|calls| - 1];
      var before := Session(step, earlier);
      Then(before.(result := OK),
           Run(step, AllInput(earlier)[before.taken..] + call.more, AllRoom(earlier) - |before.out| + call.extra))
  }

  /** However a conversion is cut into calls, it is one conversion. */
  lemma {:induction false} SessionIsOneRun<A(!new), B>(step: seq<A> -> Step<B>, calls: seq<Call<A>>)
    requires Proper(step) && Stable(step)
    ensures Session(step, calls) == Run(step, AllInput(calls), AllRoom(calls))
  {
    hide Run, Proper, Stable;
    if |calls| == 0 {
      NothingRun(step, 0);
    } else {
      var earlier, call := calls[..|calls| - 1], calls[|calls| - 1];
      SessionIsOneRun(step, earlier);
      Resume(step, AllInput(earlier), AllRoom(earlier), call.more, call.extra);
    }
  }

  // ----- Taken and written

  /** A step depends only on the units it takes, except where `waits` says that it looked further. */
  ghost predicate LocalBut<A(!new), B>(step: seq<A> -> Step<B>, waits: A -> bool) {
    forall s, m: nat | |s| > 0 && step(s).Emit? && step(s).taken <= m <= |s| && m > 0 ::
      step(s[..m]) == if m == 1 && waits(s[0]) then Halt(SourceExhausted, 0) else step(s)
  }

  /** A unit that waits is never the last of several taken together. */
  ghost predicate WaitsAlone<A(!new), B>(step: seq<A> -> Step<B>, waits: A -> bool) {
    forall s | |s| > 0 && step(s).Emit? && 1 < step(s).taken <= |s| :: !waits(s[step(s).taken - 1])
  }

  lemma LocalAt<A(!new), B>(step: seq<A> -> Step<B>, waits: A -> bool, s: seq<A>, m: nat)
    requires LocalBut(step, waits) && WaitsAlone(step, waits)
    requires |s| > 0 && step(s).Emit? && step(s).taken <= m <= |s| && m > 0
    ensures step(s[..m]) == if m == 1 && waits(s[0]) then Halt(SourceExhausted, 0) else step(s)
    ensures 1 < step(s).taken ==> !waits(s[step(s).taken - 1])
  {
  }

  /**
   Converting just what a call has taken writes just what the call has written, unless the last unit
   taken is one that, on its own, is left waiting for the next.
   */
  lemma {:induction false} WrittenIsConverted<A(!new), B>(step: seq<A> -> Step<B>, waits: A -> bool, src: seq<A>,
                                                          room: nat)
    requires Proper(step) && LocalBut(step, waits) && WaitsAlone(step, waits)
    ensures var r := Run(step, src, room);
      var q := Run(step, src[..r.taken], room);
      (q.taken == r.taken && q.out == r.out) <==> !(r.taken > 0 && waits(src[r.taken - 1]))
    decreases |src|
  {
    hide Run, Proper, LocalBut, WaitsAlone;
    var r := Run(step, src, room);
    var p := src[..r.taken];
    if |src| == 0 || !Goes(step(src), room) {
      RunStops(step, src, room);
      RunStops(step, p, room);
    } else {
      var s := step(src);
      RunGoes(step, src, room);
      var src', room' := src[s.taken..], room - |s.out|;
      var rest := Run(step, src', room');
      WrittenIsConverted(step, waits, src', room');
      LocalAt(step, waits, src, r.taken);
      if r.taken == 1 && waits(src[0]) {
        RunStops(step, p, room);
      } else {
        RunGoes(step, p, room);
        TakeDrop(src, s.taken, rest.taken);
        var q := Run(step, src'[..rest.taken], room');
        SameTail(s.out, q.out, rest.out);
      }
    }
  }

  lemma TakeDrop<A>(a: seq<A>, n: nat, m: nat)
    requires n + m <= |a|
    ensures a[..n + m][n..] == a[n..][..m]
  {
  }

  lemma SameTail<B>(a: seq<B>, b: seq<B>, c: seq<B>)
    ensures a + b == a + c <==> b == c
  {
    if a + b == a + c {
      assert b == (a + b)[|a|..] && c == (a + c)[|a|..];
    }
  }

  // ----- Room and taint

  ghost predicate All<A>(s: seq<A>, ok: A -> bool) { forall i | 0 <= i < |s| :: ok(s[i]) }

  /** On acceptable units no step wants more than `rate` units of room for each unit it takes. */
  ghost predicate Rated<A(!new), B>(step: seq<A> -> Step<B>, ok: A -> bool, rate: nat) {
    forall s | |s| > 0 && All(s, ok) :: Modest(step(s), rate)
  }

  predicate Modest<B>(s: Step<B>, rate: nat) {
    match s
    case Emit(n, _, need, _) => need <= rate * n
    case Halt(_, need) => need <= rate
  }

  lemma {:induction false} EnoughRoom<A(!new), B>(step: seq<A> -> Step<B>, ok: A -> bool, rate: nat, src: seq<A>,
                                                  room: nat)
    requires Proper(step) && Rated(step, ok, rate) && All(src, ok) && rate * |src| <= room
    ensures Run(step, src, room).result != TargetExhausted
    decreases |src|
  {
    if |src| > 0 {
      var s := step(src);
      assert Bounded(s, |src|) && Modest(s, rate);
      if s.Emit? {
        Products(rate, s.taken, |src|);
        EnoughRoom(step, ok, rate, src[s.taken..], room - |s.out|);
      } else {
        Products(rate, 1, |src|);
      }
    }
  }

  lemma Products(rate: nat, n: nat, all: nat)
    requires n <= all
    ensures rate * all == rate * n + rate * (all - n)
    ensures rate * n <= rate * all
  {
    assert rate * (all - n) >= 0;
  }

  /** On acceptable units no step taints the call. */
  ghost predicate Clean<A(!new), B>(step: seq<A> -> Step<B>, ok: A -> bool) {
    forall s | |s| > 0 && All(s, ok) :: step(s).Emit? ==> !step(s).taints
  }

  lemma {:induction false} NeverTainted<A(!new), B>(step: seq<A> -> Step<B>, ok: A -> bool, src: seq<A>, room: nat)
    requires Proper(step) && Clean(step, ok) && All(src, ok)
    ensures !Run(step, src, room).tainted
    decreases |src|
  {
    if |src| > 0 && Goes(step(src), room) {
      assert Bounded(step(src), |src|);
      NeverTainted(step, ok, src[step(src).taken..], room - |step(src).out|);
    }
  }
}
