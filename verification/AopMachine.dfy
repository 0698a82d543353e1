/**
 What the rewritten code does when it runs.  The machine knows labels, jumps, handlers, returns and
 throws; what any other instruction does is left open, and so is the state of the world outside the
 frame.  Of the advice calls that a run makes it is only assumed that they return normally and leave what
 looks to the body as before.
 */
module AopMachine {
  import opened AopTrace
  import opened Options

  type World = int
  type Word = int
  type Locals = map<int, Word>
  type Stack = seq<Word>

  /** Go on, take the `k`-th target of a jump, or throw. */
  datatype Effect =
    | Next(world: World, locals: Locals, stack: Stack)
    | Take(k: nat, world: World, locals: Locals, stack: Stack)
    | Raise(world: World, exception: Word)

  datatype Machine = Machine(act: (Event, World, Locals, Stack) -> Effect, catches: (string, Word, World) -> bool)

  /** `log` lists the instructions executed so far. */
  datatype State =
    | Running(pc: nat, world: World, locals: Locals, stack: Stack, log: seq<Event>)
    | Returned(world: World, result: Option<Word>, log: seq<Event>)
    | Thrown(world: World, exception: Word, log: seq<Event>)
    | Stuck

  // ----- Labels and handlers

  /** Where the label stands, if it does. */
  function Position(code: seq<Event>, l: LabelName): (r: Option<nat>)
    ensures r.Some? ==> r.value < |code|
  {
    if code == [] then None
    else
      var before := Position(code[..|code| - 1], l);
      if before.Some? then before
      else if code[|code| - 1] == Label(l) then Some(|code| - 1)
      else None
  }

  function Handlers(code: seq<Event>): seq<Event> {
    if code == [] then []
    else Handlers(code[..|code| - 1]) + if code[|code| - 1].TryCatch? then [code[|code| - 1]] else []
  }

  predicate Guards(code: seq<Event>, h: Event, pc: nat)
    requires h.TryCatch?
  {
    var b, e := Position(code, h.begin), Position(code, h.end);
    b.Some? && e.Some? && b.value <= pc < e.value
  }

  /** The label of the first handler in the table that guards `pc` and catches the exception. */
  function FirstHandler(m: Machine, code: seq<Event>, hs: seq<Event>, pc: nat, w: World, x: Word): Option<LabelName> {
    if hs == [] then None
    else if hs[0].TryCatch? && Guards(code, hs[0], pc) && m.catches(hs[0].catchType, x, w) then Some(hs[0].handler)
    else FirstHandler(m, code, hs[1..], pc, w, x)
  }

  // ----- Execution

  function GoTo(code: seq<Event>, l: LabelName, w: World, locals: Locals, stack: Stack, log: seq<Event>): State {
    match Position(code, l)
    case None => Stuck
    case Some(pc) => Running(pc, w, locals, stack, log)
  }

  function Throw(m: Machine, code: seq<Event>, pc: nat, w: World, locals: Locals, x: Word, log: seq<Event>): State {
    match FirstHandler(m, code, Handlers(code), pc, w, x)
    case None => Thrown(w, x, log)
    case Some(l) => GoTo(code, l, w, locals, [x], log)
  }

  function Act(m: Machine, code: seq<Event>, e: Event, c: State, log: seq<Event>): State
    requires c.Running?
  {
    match m.act(e, c.world, c.locals, c.stack)
    case Next(w, locals, stack) => Running(c.pc + 1, w, locals, stack, log)
    case Take(k, w, locals, stack) =>
      if e.Jump? && k < |e.targets| then GoTo(code, e.targets[k], w, locals, stack, log) else Stuck
    case Raise(w, x) => Throw(m, code, c.pc, w, c.locals, x, log)
  }

  function Perform(m: Machine, code: seq<Event>, e: Event, c: State): State
    requires c.Running?
  {
    var log := c.log + [e];
    if e == Insn(177) then Returned(c.world, None, log)
    else if Departs(e) && c.stack == [] then Stuck
    else if e == Insn(191) then Throw(m, code, c.pc, c.world, c.locals, c.stack[|c.stack| - 1], log)
    else if Departs(e) then Returned(c.world, Some(c.stack[|c.stack| - 1]), log)
    else if e.Label? || e.TryCatch? then c.(pc := c.pc + 1, log := log)
    else Act(m, code, e, c, log)
  }

  function Step(m: Machine, code: seq<Event>, c: State): State {
    if !c.Running? then c
    else if c.pc >= |code| then Stuck
    else Perform(m, code, code[c.pc], c)
  }

  function Run(m: Machine, code: seq<Event>, c: State, n: nat): State
    decreases n
  {
    if n == 0 then c else Run(m, code, Step(m, code, c), n - 1)
  }

  lemma {:induction false} RunMore(m: Machine, code: seq<Event>, c: State, a: nat, b: nat)
    ensures Run(m, code, c, a + b) == Run(m, code, Run(m, code, c, a), b)
    decreases a
  {
    if a > 0 {
      RunMore(m, code, Step(m, code, c), a - 1, b);
    }
  }

  lemma {:induction false} RunHalted(m: Machine, code: seq<Event>, c: State, n: nat)
    requires !c.Running?
    ensures Run(m, code, c, n) == c
    decreases n
  {
    if n > 0 {
      RunHalted(m, code, c, n - 1);
    }
  }

  // ----- What is assumed of the advice

  /**
   How the body sees two worlds: whether they look alike as a whole, and whether a word in one is the
   object in the other that plays its part.  References need not be equal.
   */
  datatype View = View(same: (World, World) -> bool, twin: (World, World, Word, Word) -> bool)

  predicate Twins(v: View, w: World, x: Word, w': World, x': Word) { v.twin(w, w', x, x') }

  predicate LikeLocals(v: View, w: World, l: Locals, w': World, l': Locals) {
    l.Keys == l'.Keys && forall i | i in l :: Twins(v, w, l[i], w', l'[i])
  }

  predicate LikeStack(v: View, w: World, s: Stack, w': World, s': Stack) {
    |s| == |s'| && forall i | 0 <= i < |s| :: Twins(v, w, s[i], w', s'[i])
  }

  /** The body cannot tell the two frames apart. */
  predicate Like(v: View, w: World, l: Locals, s: Stack, w': World, l': Locals, s': Stack) {
    v.same(w, w') && LikeLocals(v, w, l, w', l') && LikeStack(v, w, s, w', s')
  }

  /** Two effects on frames with the locals `kept` and `kept'`, which a handler would find. */
  predicate Alike(v: View, a: Effect, kept: Locals, b: Effect, kept': Locals) {
    match (a, b)
    case (Next(w, l, s), Next(w', l', s')) => Like(v, w, l, s, w', l', s')
    case (Take(k, w, l, s), Take(k', w', l', s')) => k == k' && Like(v, w, l, s, w', l', s')
    case (Raise(w, x), Raise(w', x')) => Like(v, w, kept, [x], w', kept', [x'])
    case _ => false
  }

  /** The handlers around `pc` take both exceptions or neither. */
  predicate CaughtAlike(m: Machine, body: seq<Event>, pc: nat, w: World, x: Word, w': World, x': Word) {
    forall h | h in Handlers(body) && h.TryCatch? && Guards(body, h, pc) ::
      m.catches(h.catchType, x, w) == m.catches(h.catchType, x', w')
  }

  /** The effect leaves the locals alone and puts `k` words on the stack. */
  predicate Pushes(eff: Effect, l: Locals, s: Stack, k: nat) {
    eff.Next? && eff.locals == l && |eff.stack| == |s| + k && s <= eff.stack
  }

  /**
   The four advice instructions, each on what the one before it left, return normally with the stack
   balanced, and what the last one leaves looks to the body like the frame `w`, `l`, `s`.
   */
  predicate AdviceActs(m: Machine, v: View, point: string, hook: string, w: World, l: Locals, s: Stack,
                       w': World, l': Locals, s': Stack) {
    var made := m.act(TypeInsn(NEW, point), w', l', s');
    && Pushes(made, l', s', 1)
    && var doubled := m.act(Insn(DUP), made.world, l', made.stack);
    && Pushes(doubled, l', s', 2)
    && var initialized := m.act(MethodInsn(INVOKESPECIAL, point, "<init>", "()V"), doubled.world, l', doubled.stack);
    && Pushes(initialized, l', s', 1)
    && var called := m.act(MethodInsn(INVOKEVIRTUAL, point, hook, "()V"), initialized.world, l', initialized.stack);
    && Pushes(called, l', s', 0)
    && Like(v, w, l, s, called.world, l', s')
  }

  // ----- Where the instructions of the body end up

  function Full(point: string, body: seq<Event>): seq<Event> { Prologue(point) + InjectAll(point, body) }

  /** Where what is injected for `body[i]` begins in the rewritten code. */
  function Place(point: string, body: seq<Event>, i: nat): nat
    requires i <= |body|
  {
    4 + |InjectAll(point, body[..i])|
  }

  lemma PlaceNext(point: string, body: seq<Event>, i: nat)
    requires i < |body|
    ensures Place(point, body, i + 1) == Place(point, body, i) + |Inject(point, body[i])|
  {
    assert body[..i + 1] == body[..i] + [body[i]];
    InjectAllSnoc(point, body[..i], body[i]);
  }

  lemma {:induction false} PlaceClimbs(point: string, body: seq<Event>, i: nat, j: nat)
    requires i <= j <= |body|
    ensures Place(point, body, i) + (j - i) <= Place(point, body, j)
  {
    if i < j {
      PlaceClimbs(point, body, i, j - 1);
      PlaceNext(point, body, j - 1);
    }
  }

  lemma PlaceLast(point: string, body: seq<Event>)
    ensures Place(point, body, |body|) == |Full(point, body)|
  {
    assert body[..|body|] == body;
  }

  /** The rewritten code holds, at the place of `i`, what is injected for `body[i]`. */
  lemma InjectedAt(point: string, body: seq<Event>, i: nat)
    requires i < |body|
    ensures var at := Place(point, body, i);
      && at + |Inject(point, body[i])| <= |Full(point, body)|
      && Full(point, body)[at..at + |Inject(point, body[i])|] == Inject(point, body[i])
  {
    var a, b := body[..i], body[i + 1..];
    assert body == a + [body[i]] + b;
    InjectAllSnoc(point, a, body[i]);
    InjectAllConcat(point, a + [body[i]], b);
    Middle(Prologue(point) + InjectAll(point, a), Inject(point, body[i]), InjectAll(point, b));
    Assoc(Prologue(point), InjectAll(point, a), Inject(point, body[i]));
    Assoc(Prologue(point), InjectAll(point, a + [body[i]]), InjectAll(point, b));
  }

  lemma Middle<T>(a: seq<T>, b: seq<T>, c: seq<T>)
    ensures (a + b + c)[|a|..|a| + |b|] == b
  {
  }

  function Shift(r: Option<nat>, n: nat): Option<nat> { if r.Some? then Some(r.value + n) else None }

  lemma {:induction false} PositionConcat(a: seq<Event>, b: seq<Event>, l: LabelName)
    ensures Position(a + b, l) == if Position(a, l).Some? then Position(a, l) else Shift(Position(b, l), |a|)
    decreases |b|
  {
    if b == [] {
      assert a + b == a;
    } else {
      PositionConcat(a, b[..|b| - 1], l);
      assert (a + b)[..|a + b| - 1] == a + b[..|b| - 1];
    }
  }

  lemma NoLabels(es: seq<Event>, l: LabelName)
    requires forall i | 0 <= i < |es| :: !es[i].Label?
    ensures Position(es, l) == None
  {
  }

  lemma PositionOne(point: string, e: Event, l: LabelName)
    ensures Position(Inject(point, e), l) == if e == Label(l) then Some(0) else None
  {
    if e.Label? {
      assert Inject(point, e)[..0] == [];
    } else {
      NoLabels(Inject(point, e), l);
    }
  }

  lemma {:induction false} PositionInjected(point: string, body: seq<Event>, l: LabelName)
    ensures Position(InjectAll(point, body), l).Some? <==> Position(body, l).Some?
    ensures Position(body, l).Some? ==>
      Position(InjectAll(point, body), l).value + 4 == Place(point, body, Position(body, l).value)
  {
    if body != [] {
      var body', e := body[..|body| - 1], body[|body| - 1];
      PositionInjected(point, body', l);
      PositionConcat(InjectAll(point, body'), Inject(point, e), l);
      PositionOne(point, e, l);
      if Position(body', l).Some? {
        PlacePrefix(point, body, Position(body', l).value);
      } else {
        PlacePrefix(point, body, |body'|);
        PlaceLast(point, body');
      }
    }
  }

  lemma PlacePrefix(point: string, body: seq<Event>, i: nat)
    requires i < |body|
    ensures Place(point, body, i) == Place(point, body[..|body| - 1], i)
  {
    assert body[..|body| - 1][..i] == body[..i];
  }

  /** A label of the body stands in the rewritten code at its place. */
  lemma PositionFull(point: string, body: seq<Event>, l: LabelName)
    ensures Position(Full(point, body), l) ==
      match Position(body, l) { case None => None case Some(i) => Some(Place(point, body, i)) }
  {
    PositionInjected(point, body, l);
    PositionConcat(Prologue(point), InjectAll(point, body), l);
    NoLabels(Prologue(point), l);
  }

  lemma {:induction false} HandlersConcat(a: seq<Event>, b: seq<Event>)
    ensures Handlers(a + b) == Handlers(a) + Handlers(b)
    decreases |b|
  {
    if b == [] {
      assert a + b == a;
    } else {
      HandlersConcat(a, b[..|b| - 1]);
      assert (a + b)[..|a + b| - 1] == a + b[..|b| - 1];
    }
  }

  lemma NoHandlers(es: seq<Event>)
    requires forall i | 0 <= i < |es| :: !es[i].TryCatch?
    ensures Handlers(es) == []
  {
  }

  lemma {:induction false} HandlersInjected(point: string, body: seq<Event>)
    ensures Handlers(InjectAll(point, body)) == Handlers(body)
  {
    hide Inject;
    if body != [] {
      var e := body[|body| - 1];
      HandlersInjected(point, body[..|body| - 1]);
      HandlersConcat(InjectAll(point, body[..|body| - 1]), Inject(point, e));
      HandlerInjected(point, e);
    }
  }

  lemma HandlerInjected(point: string, e: Event)
    ensures Handlers(Inject(point, e)) == if e.TryCatch? then [e] else []
  {
    if e.TryCatch? {
      assert Inject(point, e)[..0] == [];
    } else {
      NoHandlers(Inject(point, e));
    }
  }

  lemma HandlersFull(point: string, body: seq<Event>)
    ensures Handlers(Full(point, body)) == Handlers(body)
  {
    HandlersInjected(point, body);
    HandlersConcat(Prologue(point), InjectAll(point, body));
    NoHandlers(Prologue(point));
  }

  /** The place of an instruction itself, after what is injected before it. */
  function Own(point: string, body: seq<Event>, i: nat): nat
    requires i < |body|
  {
    Place(point, body, i) + |Inject(point, body[i])| - 1
  }

  /** Everything injected for an instruction, and the instruction, is guarded as the instruction was. */
  lemma GuardsSame(point: string, body: seq<Event>, h: Event, pc: nat, at: nat)
    requires h.TryCatch? && pc < |body| && Place(point, body, pc) <= at < Place(point, body, pc + 1)
    ensures Guards(Full(point, body), h, at) <==> Guards(body, h, pc)
  {
    PositionFull(point, body, h.begin);
    PositionFull(point, body, h.end);
    var b, e := Position(body, h.begin), Position(body, h.end);
    if b.Some? {
      if b.value <= pc {
        PlaceClimbs(point, body, b.value, pc);
      } else {
        PlaceClimbs(point, body, pc + 1, b.value);
      }
    }
    if e.Some? {
      if e.value <= pc {
        PlaceClimbs(point, body, e.value, pc);
      } else {
        PlaceClimbs(point, body, pc + 1, e.value);
      }
    }
  }

  lemma {:induction false} FirstHandlerSame(m: Machine, point: string, body: seq<Event>, hs: seq<Event>, pc: nat,
                                            at: nat, w: World, x: Word, w': World, x': Word)
    requires pc < |body| && Place(point, body, pc) <= at < Place(point, body, pc + 1)
    requires CaughtAlike(m, body, pc, w, x, w', x') && forall h | h in hs :: h in Handlers(body)
    ensures FirstHandler(m, Full(point, body), hs, at, w', x') == FirstHandler(m, body, hs, pc, w, x)
    decreases |hs|
  {
    if hs != [] {
      hide Guards;
      assert hs[0] in Handlers(body);
      if hs[0].TryCatch? {
        GuardsSame(point, body, hs[0], pc, at);
      }
      FirstHandlerSame(m, point, body, hs[1..], pc, at, w, x, w', x');
    }
  }

  // ----- The simulation

  /** The log of the rewritten code: the injection of what the body has executed. */
  function LogOf(point: string, log: seq<Event>): seq<Event> { Prologue(point) + InjectAll(point, log) }

  predicate LikeResult(v: View, w: World, r: Option<Word>, w': World, r': Option<Word>) {
    r.Some? == r'.Some? && (r.Some? ==> Twins(v, w, r.value, w', r'.value))
  }

  predicate Related(v: View, point: string, body: seq<Event>, c: State, c': State) {
    match c
    case Running(pc, w, l, s, log) =>
      && c'.Running? && pc <= |body| && c'.pc == Place(point, body, pc)
      && Like(v, w, l, s, c'.world, c'.locals, c'.stack) && c'.log == LogOf(point, log)
    case Returned(w, r, log) =>
      && c'.Returned? && v.same(w, c'.world) && LikeResult(v, w, r, c'.world, c'.result)
      && c'.log == LogOf(point, log)
    case Thrown(w, x, log) =>
      && c'.Thrown? && v.same(w, c'.world) && Twins(v, w, x, c'.world, c'.exception) && c'.log == LogOf(point, log)
    case Stuck => c'.Stuck?
  }

  /** Words above the body's stack after `k` advice instructions. */
  function Extra(k: nat): nat { if k == 2 then 2 else if k == 1 || k == 3 then 1 else 0 }

  /** `d` is `k` instructions into the advice that began at `c`. */
  predicate InAdvice(point: string, hook: string, c: State, d: State, k: nat) {
    && c.Running? && d.Running? && k <= 4
    && d.pc == c.pc + k && d.log == c.log + Advice(point, hook)[..k]
    && d.locals == c.locals && c.stack <= d.stack && |d.stack| == |c.stack| + Extra(k)
  }

  lemma RunFour(m: Machine, code: seq<Event>, c: State)
    ensures var c1 := Step(m, code, c); var c2 := Step(m, code, c1); var c3 := Step(m, code, c2);
      && Run(m, code, c, 0) == c && Run(m, code, c, 1) == c1 && Run(m, code, c, 2) == c2
      && Run(m, code, c, 3) == c3 && Run(m, code, c, 4) == Step(m, code, c3)
  {
    var c1 := Step(m, code, c);
    var c2 := Step(m, code, c1);
    var c3 := Step(m, code, c2);
    RunMore(m, code, c, 1, 1);
    RunMore(m, code, c, 2, 1);
    RunMore(m, code, c, 3, 1);
    assert Run(m, code, c, 1) == c1;
    assert Run(m, code, c1, 1) == c2;
    assert Run(m, code, c2, 1) == c3;
    assert Run(m, code, c3, 1) == Step(m, code, c3);
  }

  predicate AdviceAt(point: string, hook: string, code: seq<Event>, pc: nat) {
    pc + 4 <= |code| && code[pc..pc + 4] == Advice(point, hook)
  }

  lemma AdviceAtEach(point: string, hook: string, code: seq<Event>, pc: nat)
    requires AdviceAt(point, hook, code, pc)
    ensures code[pc] == TypeInsn(NEW, point) && code[pc + 1] == Insn(DUP)
    ensures code[pc + 2] == MethodInsn(INVOKESPECIAL, point, "<init>", "()V")
    ensures code[pc + 3] == MethodInsn(INVOKEVIRTUAL, point, hook, "()V")
    ensures Advice(point, hook) == [code[pc], code[pc + 1], code[pc + 2], code[pc + 3]]
  {
    var part := code[pc..pc + 4];
    assert part[0] == code[pc] && part[1] == code[pc + 1] && part[2] == code[pc + 2] && part[3] == code[pc + 3];
  }

  /** One advice instruction, given what it does. */
  lemma AdviceStep(m: Machine, point: string, hook: string, code: seq<Event>, c: State, d: State, k: nat)
    requires InAdvice(point, hook, c, d, k) && k < 4 && AdviceAt(point, hook, code, c.pc)
    requires Pushes(m.act(Advice(point, hook)[k], d.world, d.locals, d.stack), c.locals, c.stack, Extra(k + 1))
    ensures InAdvice(point, hook, c, Step(m, code, d), k + 1)
    ensures Step(m, code, d).world == m.act(Advice(point, hook)[k], d.world, d.locals, d.stack).world
    ensures Step(m, code, d).stack == m.act(Advice(point, hook)[k], d.world, d.locals, d.stack).stack
  {
    AdviceAtEach(point, hook, code, c.pc);
    var advice := Advice(point, hook);
    assert code[d.pc] == advice[k];
    assert advice[..k + 1] == advice[..k] + [advice[k]];
    Assoc(c.log, advice[..k], [advice[k]]);
  }

  /** The four advice instructions, one by one. */
  lemma AdviceRuns(m: Machine, v: View, point: string, hook: string, code: seq<Event>, w: World, l: Locals, s: Stack,
                   c: State)
    requires c.Running? && AdviceAt(point, hook, code, c.pc)
    requires AdviceActs(m, v, point, hook, w, l, s, c.world, c.locals, c.stack)
    ensures var d := Run(m, code, c, 4);
      && d.Running? && Like(v, w, l, s, d.world, d.locals, d.stack)
      && d == c.(pc := c.pc + 4, world := d.world, log := c.log + Advice(point, hook))
    ensures forall k: nat | k <= 4 :: InAdvice(point, hook, c, Run(m, code, c, k), k)
  {
    hide Step, Like;
    RunFour(m, code, c);
    var c1 := Step(m, code, c);
    AdviceStep(m, point, hook, code, c, c, 0);
    var c2 := Step(m, code, c1);
    AdviceStep(m, point, hook, code, c, c1, 1);
    var c3 := Step(m, code, c2);
    AdviceStep(m, point, hook, code, c, c2, 2);
    AdviceStep(m, point, hook, code, c, c3, 3);
    assert Step(m, code, c3).stack == c.stack && Step(m, code, c3).locals == c.locals;
  }

  lemma GoToRelated(v: View, point: string, body: seq<Event>, l: LabelName, w: World, locals: Locals, stack: Stack,
                    w': World, locals': Locals, stack': Stack, log: seq<Event>)
    requires Like(v, w, locals, stack, w', locals', stack')
    ensures Related(v, point, body, GoTo(body, l, w, locals, stack, log),
                    GoTo(Full(point, body), l, w', locals', stack', LogOf(point, log)))
  {
    PositionFull(point, body, l);
  }

  lemma ThrowRelated(m: Machine, v: View, point: string, body: seq<Event>, pc: nat, w: World, locals: Locals, x: Word,
                     w': World, locals': Locals, x': Word, log: seq<Event>)
    requires Like(v, w, locals, [x], w', locals', [x']) && pc < |body| && CaughtAlike(m, body, pc, w, x, w', x')
    ensures Related(v, point, body, Throw(m, body, pc, w, locals, x, log),
                    Throw(m, Full(point, body), Own(point, body, pc), w', locals', x', LogOf(point, log)))
  {
    hide CaughtAlike;
    assert [x][0] == x && [x'][0] == x';
    assert Twins(v, w, [x][0], w', [x'][0]);
    HandlersFull(point, body);
    OwnNext(point, body, pc);
    FirstHandlerSame(m, point, body, Handlers(body), pc, Own(point, body, pc), w, x, w', x');
    match FirstHandler(m, body, Handlers(body), pc, w, x)
    case None =>
    case Some(l) => GoToRelated(v, point, body, l, w, locals, [x], w', locals', [x'], log);
  }

  /** `d` stands at the instruction that `c` is about to execute, with the advice before it done. */
  predicate Ready(v: View, point: string, body: seq<Event>, c: State, d: State) {
    && c.Running? && d.Running? && c.pc < |body| && d.pc == Own(point, body, c.pc)
    && Like(v, c.world, c.locals, c.stack, d.world, d.locals, d.stack)
    && d.log + [body[c.pc]] == LogOf(point, c.log + [body[c.pc]])
  }

  /** What an ordinary instruction does in the two frames looks alike, to the body and to its handlers. */
  predicate ActsAlike(m: Machine, v: View, body: seq<Event>, c: State, d: State)
    requires c.Running? && d.Running? && c.pc < |body|
  {
    var a, b := m.act(body[c.pc], c.world, c.locals, c.stack), m.act(body[c.pc], d.world, d.locals, d.stack);
    && Alike(v, a, c.locals, b, d.locals)
    && (a.Raise? && b.Raise? ==> CaughtAlike(m, body, c.pc, a.world, a.exception, b.world, b.exception))
  }

  /** And so it is for the exception that an athrow takes from the stack. */
  predicate ThrowsAlike(m: Machine, body: seq<Event>, c: State, d: State)
    requires c.Running? && d.Running?
  {
    c.stack != [] && d.stack != [] ==>
      CaughtAlike(m, body, c.pc, c.world, c.stack[|c.stack| - 1], d.world, d.stack[|d.stack| - 1])
  }

  /** Instructions that the machine leaves open. */
  predicate Open(e: Event) { !Departs(e) && !e.Label? && !e.TryCatch? }

  lemma ActRelated(m: Machine, v: View, point: string, body: seq<Event>, c: State, d: State)
    requires Ready(v, point, body, c, d) && ActsAlike(m, v, body, c, d)
    ensures var e := body[c.pc];
      Related(v, point, body, Act(m, body, e, c, c.log + [e]), Act(m, Full(point, body), e, d, d.log + [e]))
  {
    hide Like, CaughtAlike;
    var e := body[c.pc];
    var log := c.log + [e];
    var eff, eff' := m.act(e, c.world, c.locals, c.stack), m.act(e, d.world, d.locals, d.stack);
    assert Alike(v, eff, c.locals, eff', d.locals);
    PlaceNext(point, body, c.pc);
    match eff
    case Next(w, l, s) =>
    case Take(k, w, l, s) =>
      if e.Jump? && k < |e.targets| {
        GoToRelated(v, point, body, e.targets[k], w, l, s, eff'.world, eff'.locals, eff'.stack, log);
      }
    case Raise(w, x) =>
      ThrowRelated(m, v, point, body, c.pc, w, c.locals, x, eff'.world, d.locals, eff'.exception, log);
  }

  lemma OwnNext(point: string, body: seq<Event>, pc: nat)
    requires pc < |body|
    ensures Place(point, body, pc + 1) == Own(point, body, pc) + 1
  {
    PlaceNext(point, body, pc);
  }

  lemma OwnIsSame(point: string, body: seq<Event>, pc: nat)
    requires pc < |body|
    ensures Own(point, body, pc) < |Full(point, body)| && Full(point, body)[Own(point, body, pc)] == body[pc]
  {
    InjectedAt(point, body, pc);
    var e, at := body[pc], Place(point, body, pc);
    assert Inject(point, e)[|Inject(point, e)| - 1] == e;
    assert Full(point, body)[at..at + |Inject(point, e)|][|Inject(point, e)| - 1] == e;
  }

  lemma TopsAlike(v: View, w: World, l: Locals, s: Stack, w': World, l': Locals, s': Stack)
    requires Like(v, w, l, s, w', l', s')
    ensures v.same(w, w') && |s| == |s'|
    ensures s != [] ==>
      var x, x' := s[|s| - 1], s'[|s'| - 1]; Like(v, w, l, [x], w', l', [x']) && Twins(v, w, x, w', x')
  {
  }

  lemma PerformRelated(m: Machine, v: View, point: string, body: seq<Event>, c: State, d: State)
    requires Ready(v, point, body, c, d)
    requires Open(body[c.pc]) ==> ActsAlike(m, v, body, c, d)
    requires body[c.pc] == Insn(191) ==> ThrowsAlike(m, body, c, d)
    ensures Related(v, point, body, Step(m, body, c), Step(m, Full(point, body), d))
  {
    hide Like, ActsAlike, CaughtAlike, Twins, Own, Place, LogOf, Act, Throw, Position;
    var e := body[c.pc];
    OwnIsSame(point, body, c.pc);
    OwnNext(point, body, c.pc);
    TopsAlike(v, c.world, c.locals, c.stack, d.world, d.locals, d.stack);
    if e == Insn(191) && c.stack != [] {
      ThrowRelated(m, v, point, body, c.pc, c.world, c.locals, c.stack[|c.stack| - 1],
                   d.world, d.locals, d.stack[|d.stack| - 1], c.log + [e]);
    } else if Open(e) {
      ActRelated(m, v, point, body, c, d);
    }
  }

  /** How many instructions of the rewritten code one instruction of the body takes. */
  function Cost(point: string, body: seq<Event>, c: State): nat {
    if c.Running? && c.pc < |body| then |Inject(point, body[c.pc])| else 1
  }

  // ----- What is assumed of a run

  /**
   What comes next on either side looks alike: an ordinary instruction acts alike in the two frames, and the
   advice before a return or throw returns normally and leaves a frame like that of the body.
   */
  predicate Smooth(m: Machine, v: View, point: string, body: seq<Event>, c: State, c': State) {
    c.Running? && c'.Running? && c.pc < |body| ==>
      var e, d := body[c.pc], Run(m, Full(point, body), c', 4);
      && (Open(e) ==> ActsAlike(m, v, body, c, c'))
      && (Departs(e) ==>
            AdviceActs(m, v, point, "onAfterMethod", c.world, c.locals, c.stack, c'.world, c'.locals, c'.stack))
      && (e == Insn(191) && d.Running? ==> ThrowsAlike(m, body, c, d))
  }

  /** The next `n` instructions of the body are smooth, each against what is injected for it. */
  predicate SmoothRun(m: Machine, v: View, point: string, body: seq<Event>, c: State, c': State, n: nat)
    decreases n
  {
    n == 0
    || (&& Smooth(m, v, point, body, c, c')
        && SmoothRun(m, v, point, body, Step(m, body, c), Run(m, Full(point, body), c', Cost(point, body, c)), n - 1))
  }

  lemma {:induction false} SmoothFewer(m: Machine, v: View, point: string, body: seq<Event>, c: State, c': State,
                                       k: nat, n: nat)
    requires k <= n && SmoothRun(m, v, point, body, c, c', n)
    ensures SmoothRun(m, v, point, body, c, c', k)
    decreases n
  {
    if k > 0 {
      hide Smooth;
      SmoothFewer(m, v, point, body, Step(m, body, c), Run(m, Full(point, body), c', Cost(point, body, c)),
                  k - 1, n - 1);
    }
  }

  /** A return or throw against the advice and the instruction itself. */
  lemma LeaveRelated(m: Machine, v: View, point: string, body: seq<Event>, c: State, c': State)
    requires Related(v, point, body, c, c') && Smooth(m, v, point, body, c, c')
    requires c.Running? && c.pc < |body| && Departs(body[c.pc])
    ensures Related(v, point, body, Step(m, body, c), Run(m, Full(point, body), c', Cost(point, body, c)))
    ensures forall k: nat | 0 < k < Cost(point, body, c) ::
      InAdvice(point, "onAfterMethod", c', Run(m, Full(point, body), c', k), k)
  {
    hide Step, InjectAll, Place, InAdvice, Like, AdviceActs, ActsAlike, ThrowsAlike;
    var full, e := Full(point, body), body[c.pc];
    InjectAllSnoc(point, c.log, e);
    Assoc(Prologue(point), InjectAll(point, c.log), Inject(point, e));
    InjectedAt(point, body, c.pc);
    AdviceOf(point, full, c'.pc, e);
    AdviceRuns(m, v, point, "onAfterMethod", full, c.world, c.locals, c.stack, c');
    var d := Run(m, full, c', 4);
    Assoc(LogOf(point, c.log), Advice(point, "onAfterMethod"), [e]);
    PerformRelated(m, v, point, body, c, d);
    RunMore(m, full, c', 4, 1);
    assert Run(m, full, d, 1) == Step(m, full, d);
  }

  /** One instruction of the body against what was injected for it. */
  lemma StepRelated(m: Machine, v: View, point: string, body: seq<Event>, c: State, c': State)
    requires Related(v, point, body, c, c') && Smooth(m, v, point, body, c, c')
    ensures Related(v, point, body, Step(m, body, c), Run(m, Full(point, body), c', Cost(point, body, c)))
    ensures forall k: nat | 0 < k < Cost(point, body, c) ::
      InAdvice(point, "onAfterMethod", c', Run(m, Full(point, body), c', k), k)
  {
    var full := Full(point, body);
    if c.Running? && c.pc < |body| {
      var e := body[c.pc];
      if Departs(e) {
        LeaveRelated(m, v, point, body, c, c');
      } else {
        InjectAllSnoc(point, c.log, e);
        Assoc(Prologue(point), InjectAll(point, c.log), Inject(point, e));
        PerformRelated(m, v, point, body, c, c');
        assert Run(m, full, c', 1) == Step(m, full, c');
      }
    } else {
      PlaceLast(point, body);
      assert Run(m, full, c', 1) == Step(m, full, c');
    }
  }

  lemma AdviceOf(point: string, full: seq<Event>, at: nat, e: Event)
    requires Departs(e) && at + 5 <= |full| && full[at..at + 5] == Inject(point, e)
    ensures AdviceAt(point, "onAfterMethod", full, at)
  {
    assert full[at..at + 4] == full[at..at + 5][..4];
  }

  /** Cost of `n` instructions of the body. */
  function TotalCost(m: Machine, point: string, body: seq<Event>, c: State, n: nat): nat
    decreases n
  {
    if n == 0 then 0 else Cost(point, body, c) + TotalCost(m, point, body, Step(m, body, c), n - 1)
  }

  lemma {:induction false} RunRelated(m: Machine, v: View, point: string, body: seq<Event>,
                                      c: State, c': State, n: nat)
    requires Related(v, point, body, c, c') && SmoothRun(m, v, point, body, c, c', n)
    ensures Related(v, point, body, Run(m, body, c, n),
                    Run(m, Full(point, body), c', TotalCost(m, point, body, c, n)))
    decreases n
  {
    hide Related, InAdvice, Step, Full, Smooth, Cost;
    if n > 0 {
      var k := Cost(point, body, c);
      StepRelated(m, v, point, body, c, c');
      RunRelated(m, v, point, body, Step(m, body, c), Run(m, Full(point, body), c', k), n - 1);
      RunMore(m, Full(point, body), c', k, TotalCost(m, point, body, Step(m, body, c), n - 1));
    }
  }

  /** In the rewritten run `d` follows `c'`, which matches `c`, by `k` advice instructions before an exit. */
  predicate Shadows(v: View, point: string, body: seq<Event>, c: State, c': State, d: State, k: nat) {
    && Related(v, point, body, c, c')
    && (k == 0 ==> d == c')
    && (k > 0 ==>
          c.Running? && c.pc < |body| && Departs(body[c.pc]) && InAdvice(point, "onAfterMethod", c', d, k))
  }

  lemma {:induction false} EachShadows(m: Machine, v: View, point: string, body: seq<Event>,
                                       c: State, c': State, k: nat) returns (n: nat, j: nat)
    requires Related(v, point, body, c, c') && SmoothRun(m, v, point, body, c, c', k)
    ensures n <= j <= k
    ensures Shadows(v, point, body, Run(m, body, c, n), Run(m, Full(point, body), c', j),
                    Run(m, Full(point, body), c', k), k - j)
    decreases k
  {
    hide Related, InAdvice, Step, Full, Smooth;
    var cost := Cost(point, body, c);
    n, j := 0, 0;
    if k > 0 {
      StepRelated(m, v, point, body, c, c');
    }
    if k >= cost {
      var full, d := Full(point, body), Run(m, Full(point, body), c', cost);
      SmoothFewer(m, v, point, body, Step(m, body, c), d, k - cost, k - 1);
      n, j := EachShadows(m, v, point, body, Step(m, body, c), d, k - cost);
      RunMore(m, full, c', cost, k - cost);
      RunMore(m, full, c', cost, j);
      n, j := n + 1, j + cost;
    }
  }

  // ----- Whole methods

  function Entry(w: World, locals: Locals): State { Running(0, w, locals, [], []) }

  /**
   What is assumed of the advice and of the machine: the entry advice returns normally and leaves a frame like
   that of the body, and the first `n` instructions of the body are smooth.
   */
  predicate SmoothFrom(m: Machine, v: View, point: string, body: seq<Event>, w: World, l: Locals,
                       w': World, l': Locals, n: nat) {
    && AdviceActs(m, v, point, "onBeforeMethod", w, l, [], w', l', [])
    && SmoothRun(m, v, point, body, Entry(w, l), Run(m, Full(point, body), Entry(w', l'), 4), n)
  }

  /** Four instructions into the rewritten code, the advice has run once and the body begins. */
  lemma Entered(m: Machine, v: View, point: string, body: seq<Event>, w: World, l: Locals, w': World, l': Locals)
    requires AdviceActs(m, v, point, "onBeforeMethod", w, l, [], w', l', [])
    ensures Related(v, point, body, Entry(w, l), Run(m, Full(point, body), Entry(w', l'), 4))
    ensures forall k: nat | k < 4 ::
      InAdvice(point, "onBeforeMethod", Entry(w', l'), Run(m, Full(point, body), Entry(w', l'), k), k)
  {
    hide Step, InAdvice, Like, AdviceActs;
    assert Full(point, body)[0..4] == Prologue(point);
    assert body[..0] == [];
    AdviceRuns(m, v, point, "onBeforeMethod", Full(point, body), w, l, [], Entry(w', l'));
    assert [] + Prologue(point) == LogOf(point, []);
  }

  /**
   After any number of instructions of the original, the rewritten code reaches the matching state:
   locals, stack and result that look the same to the body, and a log that is the injection of the original's.
   */
  lemma RewrittenFollows(m: Machine, v: View, point: string, body: seq<Event>, w: World, l: Locals,
                         w': World, l': Locals, n: nat)
    requires SmoothFrom(m, v, point, body, w, l, w', l', n)
    ensures Related(v, point, body, Run(m, body, Entry(w, l), n),
                    Run(m, Full(point, body), Entry(w', l'), 4 + TotalCost(m, point, body, Entry(w, l), n)))
  {
    hide Related, InAdvice, Step, Full, SmoothRun, AdviceActs, Entry;
    Entered(m, v, point, body, w, l, w', l');
    var c' := Run(m, Full(point, body), Entry(w', l'), 4);
    RunRelated(m, v, point, body, Entry(w, l), c', n);
    RunMore(m, Full(point, body), Entry(w', l'), 4, TotalCost(m, point, body, Entry(w, l), n));
  }

  /**
   Every moment `k` of the rewritten run: inside the entry advice; or matching the original after `n`
   instructions; or, since a moment `j` that did, inside the exit advice of the return or throw to come.
   Inside advice the locals, the stack below at most two more words, and the log are known exactly.
   */
  lemma RewrittenShadows(m: Machine, v: View, point: string, body: seq<Event>, w: World, l: Locals,
                         w': World, l': Locals, k: nat) returns (n: nat, j: nat)
    requires SmoothFrom(m, v, point, body, w, l, w', l', k)
    ensures var full := Full(point, body);
      if k < 4 then InAdvice(point, "onBeforeMethod", Entry(w', l'), Run(m, full, Entry(w', l'), k), k)
      else n + 4 <= j <= k && Shadows(v, point, body, Run(m, body, Entry(w, l), n), Run(m, full, Entry(w', l'), j),
                                      Run(m, full, Entry(w', l'), k), k - j)
  {
    hide Related, InAdvice, Step, Full, SmoothRun, AdviceActs, Entry;
    Entered(m, v, point, body, w, l, w', l');
    n, j := 0, 0;
    if k >= 4 {
      var full := Full(point, body);
      var c' := Run(m, full, Entry(w', l'), 4);
      SmoothFewer(m, v, point, body, Entry(w, l), c', k - 4, k);
      n, j := EachShadows(m, v, point, body, Entry(w, l), c', k - 4);
      RunMore(m, full, Entry(w', l'), 4, k - 4);
      RunMore(m, full, Entry(w', l'), 4, j);
      j := j + 4;
    }
  }

  ghost predicate Halts(m: Machine, code: seq<Event>, c: State) { exists n: nat :: !Run(m, code, c, n).Running? }

  /** Two finished runs have the same outcome, if the original was smooth up to its end. */
  lemma EndsAlike(m: Machine, v: View, point: string, body: seq<Event>, w: World, l: Locals, w': World, l': Locals,
                  n: nat, k: nat)
    requires SmoothFrom(m, v, point, body, w, l, w', l', n)
    requires !Run(m, body, Entry(w, l), n).Running? && !Run(m, Full(point, body), Entry(w', l'), k).Running?
    ensures Related(v, point, body, Run(m, body, Entry(w, l), n), Run(m, Full(point, body), Entry(w', l'), k))
  {
    hide Step, Full, SmoothFrom, Entry, LogOf, TotalCost, Like, LikeResult, Place;
    RewrittenFollows(m, v, point, body, w, l, w', l', n);
    HaltedOnce(m, Full(point, body), Entry(w', l'), k, 4 + TotalCost(m, point, body, Entry(w, l), n));
  }

  /** The rewritten method ends exactly when the original does, and with the same outcome. */
  lemma SameOutcome(m: Machine, v: View, point: string, body: seq<Event>, w: World, l: Locals, w': World, l': Locals)
    requires forall n: nat :: SmoothFrom(m, v, point, body, w, l, w', l', n)
    ensures Halts(m, body, Entry(w, l)) <==> Halts(m, Full(point, body), Entry(w', l'))
    ensures forall n: nat, k: nat |
      !Run(m, body, Entry(w, l), n).Running? && !Run(m, Full(point, body), Entry(w', l'), k).Running? ::
      Related(v, point, body, Run(m, body, Entry(w, l), n), Run(m, Full(point, body), Entry(w', l'), k))
  {
    hide Step, Full, SmoothFrom, Entry, LogOf, TotalCost, Like, LikeResult, Place;
    var c, c', full := Entry(w, l), Entry(w', l'), Full(point, body);
    if n: nat :| !Run(m, body, c, n).Running? {
      RewrittenFollows(m, v, point, body, w, l, w', l', n);
      assert !Run(m, full, c', 4 + TotalCost(m, point, body, c, n)).Running?;
    }
    if k: nat :| !Run(m, full, c', k).Running? {
      var n, j := RewrittenShadows(m, v, point, body, w, l, w', l', k);
      assert !Run(m, body, c, n).Running?;
    }
    forall n: nat, k: nat | !Run(m, body, c, n).Running? && !Run(m, full, c', k).Running?
      ensures Related(v, point, body, Run(m, body, c, n), Run(m, full, c', k))
    {
      EndsAlike(m, v, point, body, w, l, w', l', n, k);
    }
  }

  /** For a body to which only equal words are the same object, matching states hold equal words. */
  lemma MatchingIsEqual(same: (World, World) -> bool, point: string, body: seq<Event>, c: State, c': State)
    requires Related(View(same, (w: World, w': World, x: Word, x': Word) => x == x'), point, body, c, c')
    ensures c.Running? ==> c'.locals == c.locals && c'.stack == c.stack
    ensures c.Returned? ==> c'.result == c.result
    ensures c.Thrown? ==> c'.exception == c.exception
  {
    if c.Running? {
      assert forall i | i in c.locals :: c.locals[i] == c'.locals[i];
      assert c.locals == c'.locals;
      assert forall i | 0 <= i < |c.stack| :: c.stack[i] == c'.stack[i];
    }
  }

  lemma HaltedOnce(m: Machine, code: seq<Event>, c: State, a: nat, b: nat)
    requires !Run(m, code, c, a).Running? && !Run(m, code, c, b).Running?
    ensures Run(m, code, c, a) == Run(m, code, c, b)
  {
    if a <= b {
      RunMore(m, code, c, a, b - a);
      RunHalted(m, code, Run(m, code, c, a), b - a);
    } else {
      RunMore(m, code, c, b, a - b);
      RunHalted(m, code, Run(m, code, c, b), a - b);
    }
  }

  // ----- Counting the advice calls

  function Count(log: seq<Event>, e: Event): nat { multiset(log)[e] }

  function Exits(log: seq<Event>): nat {
    if log == [] then 0 else Exits(log[..|log| - 1]) + if Departs(log[|log| - 1]) then 1 else 0
  }

  function Hook(point: string, hook: string): Event { MethodInsn(182, point, hook, "()V") }

  lemma {:induction false} InjectedCounts(point: string, log: seq<Event>)
    ensures Count(InjectAll(point, log), Hook(point, "onAfterMethod"))
         == Count(log, Hook(point, "onAfterMethod")) + Exits(log)
    ensures Count(InjectAll(point, log), Hook(point, "onBeforeMethod")) == Count(log, Hook(point, "onBeforeMethod"))
  {
    hide Count, Inject, Hook, Departs;
    if log != [] {
      var init, e := log[..|log| - 1], log[|log| - 1];
      InjectedCounts(point, init);
      LastApart(log);
      CountJoined(InjectAll(point, init), Inject(point, e), Hook(point, "onAfterMethod"));
      CountJoined(InjectAll(point, init), Inject(point, e), Hook(point, "onBeforeMethod"));
      CountJoined(init, [e], Hook(point, "onAfterMethod"));
      CountJoined(init, [e], Hook(point, "onBeforeMethod"));
      CountInjected(point, e);
    } else {
      CountNothing(Hook(point, "onAfterMethod"));
      CountNothing(Hook(point, "onBeforeMethod"));
    }
  }

  lemma CountNothing(e: Event)
    ensures Count([], e) == 0
  {
  }

  lemma CountJoined(a: seq<Event>, b: seq<Event>, e: Event)
    ensures Count(a + b, e) == Count(a, e) + Count(b, e)
  {
  }

  lemma CountInjected(point: string, e: Event)
    ensures Count(Inject(point, e), Hook(point, "onAfterMethod"))
         == Count([e], Hook(point, "onAfterMethod")) + if Departs(e) then 1 else 0
    ensures Count(Inject(point, e), Hook(point, "onBeforeMethod")) == Count([e], Hook(point, "onBeforeMethod"))
  {
    CountJoined(Advice(point, "onAfterMethod"), [e], Hook(point, "onAfterMethod"));
    CountJoined(Advice(point, "onAfterMethod"), [e], Hook(point, "onBeforeMethod"));
    CountAdvice(point);
  }

  lemma CountAdvice(point: string)
    ensures Count(Advice(point, "onAfterMethod"), Hook(point, "onAfterMethod")) == 1
    ensures Count(Advice(point, "onAfterMethod"), Hook(point, "onBeforeMethod")) == 0
  {
    assert "onAfterMethod"[2] != "onBeforeMethod"[2];
  }

  lemma LogCounts(point: string, log: seq<Event>)
    ensures Count(LogOf(point, log), Hook(point, "onBeforeMethod")) == Count(log, Hook(point, "onBeforeMethod")) + 1
    ensures Count(LogOf(point, log), Hook(point, "onAfterMethod"))
         == Count(log, Hook(point, "onAfterMethod")) + Exits(log)
    ensures Prologue(point) <= LogOf(point, log)
  {
    InjectedCounts(point, log);
  }

  predicate Ended(c: State) { c.Returned? || c.Thrown? }

  /**
   Over finished runs of the original and of the rewritten method: beyond the calls the body makes itself,
   onBeforeMethod is called once, at the entry, and onAfterMethod once for each return or throw
   instruction executed, caught or not.
   */
  lemma AdviceCounts(m: Machine, v: View, point: string, body: seq<Event>,
                     w: World, l: Locals, w': World, l': Locals, n: nat, k: nat)
    requires SmoothFrom(m, v, point, body, w, l, w', l', n)
    requires Ended(Run(m, body, Entry(w, l), n)) && !Run(m, Full(point, body), Entry(w', l'), k).Running?
    ensures Ended(Run(m, Full(point, body), Entry(w', l'), k))
    ensures var log, log' := Run(m, body, Entry(w, l), n).log, Run(m, Full(point, body), Entry(w', l'), k).log;
      && Prologue(point) <= log'
      && Count(log', Hook(point, "onBeforeMethod")) == Count(log, Hook(point, "onBeforeMethod")) + 1
      && Count(log', Hook(point, "onAfterMethod")) == Count(log, Hook(point, "onAfterMethod")) + Exits(log)
  {
    hide Run, Like, LikeResult, Full, SmoothFrom, Entry, LogOf, Prologue, Count, Exits, Hook;
    EndsAlike(m, v, point, body, w, l, w', l', n, k);
    LogCounts(point, Run(m, body, Entry(w, l), n).log);
  }

  /** How the last step of a run leaves the method. */
  lemma LastStep(m: Machine, code: seq<Event>, c: State)
    requires c.Running? && Ended(Step(m, code, c))
    ensures var d := Step(m, code, c);
      && c.pc < |code| && d.log == c.log + [code[c.pc]]
      && (d.Returned? ==> Departs(code[c.pc]))
      && (d.Thrown? && Departs(code[c.pc]) ==> code[c.pc] == Insn(191))
  {
  }

  lemma {:induction false} LastOfRun(m: Machine, code: seq<Event>, c: State, n: nat)
    requires c.Running? && Ended(Run(m, code, c, n))
    ensures var d := Run(m, code, c, n);
      && d.log != []
      && (d.Returned? ==> Departs(d.log[|d.log| - 1]))
      && (d.Thrown? && Departs(d.log[|d.log| - 1]) ==> d.log[|d.log| - 1] == Insn(191))
    decreases n
  {
    hide Step, Departs;
    var d := Step(m, code, c);
    if d.Running? {
      LastOfRun(m, code, d, n - 1);
    } else {
      RunHalted(m, code, d, n - 1);
      LastStep(m, code, c);
    }
  }

  /**
   Whatever the body: a return always calls onAfterMethod on its way out; an exception does so exactly
   when an athrow of the method itself raises it last, and not when a call or any other instruction does.
   */
  lemma EscapeSkipsAfter(m: Machine, v: View, point: string, body: seq<Event>,
                         w: World, l: Locals, w': World, l': Locals, n: nat, k: nat)
    requires SmoothFrom(m, v, point, body, w, l, w', l', n)
    requires Ended(Run(m, body, Entry(w, l), n)) && !Run(m, Full(point, body), Entry(w', l'), k).Running?
    ensures Ended(Run(m, Full(point, body), Entry(w', l'), k))
    ensures var c, log' := Run(m, body, Entry(w, l), n), Run(m, Full(point, body), Entry(w', l'), k).log;
      && c.log != []
      && var last := |c.log| - 1;
      && Count(log', Hook(point, "onAfterMethod")) - Count(c.log, Hook(point, "onAfterMethod"))
         == Exits(c.log[..last]) + if c.Returned? || c.log[last] == Insn(191) then 1 else 0
  {
    hide Run, Like, LikeResult, Full, SmoothFrom, Count, Hook;
    AdviceCounts(m, v, point, body, w, l, w', l', n, k);
    LastOfRun(m, body, Entry(w, l), n);
  }

  // ----- When the advice throws

  /** The body has no handler for the entry advice: its exceptions end the method before the body begins. */
  lemma EntryAdviceEscapes(m: Machine, point: string, body: seq<Event>, d: State)
    requires d.Running? && d.pc < 4
    requires m.act(Prologue(point)[d.pc], d.world, d.locals, d.stack).Raise?
    ensures var eff := m.act(Prologue(point)[d.pc], d.world, d.locals, d.stack);
      Step(m, Full(point, body), d) == Thrown(eff.world, eff.exception, d.log + [Prologue(point)[d.pc]])
  {
    var full, e := Full(point, body), Prologue(point)[d.pc];
    var eff := m.act(e, d.world, d.locals, d.stack);
    assert full[d.pc] == e;
    NoneGuardsEntry(m, point, body, Handlers(full), d.pc, eff.world, eff.exception);
  }

  lemma {:induction false} NoneGuardsEntry(m: Machine, point: string, body: seq<Event>, hs: seq<Event>, pc: nat,
                                           w: World, x: Word)
    requires pc < 4
    ensures FirstHandler(m, Full(point, body), hs, pc, w, x) == None
    decreases |hs|
  {
    if hs != [] {
      if hs[0].TryCatch? {
        PositionFull(point, body, hs[0].begin);
      }
      NoneGuardsEntry(m, point, body, hs[1..], pc, w, x);
    }
  }

  /** Where an exception goes that instruction `pc` of the body raises. */
  function Destination(m: Machine, body: seq<Event>, pc: nat, w: World, x: Word): Option<LabelName> {
    FirstHandler(m, body, Handlers(body), pc, w, x)
  }

  /**
   The exit advice is inside whatever guards the return or throw that it precedes: its exceptions go to the
   handler that would take them from that instruction itself, and a return may so end up in a handler.
   */
  lemma ExitAdviceIsGuarded(m: Machine, point: string, body: seq<Event>, pc: nat, k: nat, d: State)
    requires pc < |body| && Departs(body[pc]) && k < 4 && d.Running? && d.pc == Place(point, body, pc) + k
    requires m.act(Advice(point, "onAfterMethod")[k], d.world, d.locals, d.stack).Raise?
    ensures var eff := m.act(Advice(point, "onAfterMethod")[k], d.world, d.locals, d.stack);
      var log := d.log + [Advice(point, "onAfterMethod")[k]];
      Step(m, Full(point, body), d) ==
        match Destination(m, body, pc, eff.world, eff.exception)
        case None => Thrown(eff.world, eff.exception, log)
        case Some(l) => GoTo(Full(point, body), l, eff.world, d.locals, [eff.exception], log)
  {
    hide FirstHandler, Handlers, Place;
    var full, advice := Full(point, body), Advice(point, "onAfterMethod");
    var eff := m.act(advice[k], d.world, d.locals, d.stack);
    InjectedAt(point, body, pc);
    PlaceNext(point, body, pc);
    var at := Place(point, body, pc);
    assert full[d.pc] == full[at..at + 5][k] == advice[k];
    HandlersFull(point, body);
    FirstHandlerSame(m, point, body, Handlers(body), pc, d.pc, eff.world, eff.exception, eff.world, eff.exception);
  }

  // ----- Assumptions on the instructions of the body, wherever they may be executed

  /** Frames that look alike to the body stay so, whatever it executes. */
  ghost predicate Blind(m: Machine, v: View, body: seq<Event>) {
    && (forall e, w, l, s, w', l', s' | e in body && Open(e) && Like(v, w, l, s, w', l', s') ::
          Alike(v, m.act(e, w, l, s), l, m.act(e, w', l', s'), l'))
    && (forall h, x, x', w, w' | h in body && h.TryCatch? && v.same(w, w') && Twins(v, w, x, w', x') ::
          m.catches(h.catchType, x, w) == m.catches(h.catchType, x', w'))
  }

  /** The advice leaves any two frames that look alike as they were to the body. */
  ghost predicate ReturnsNormally(m: Machine, v: View, point: string, hook: string) {
    forall w, l, s, w', l', s' | Like(v, w, l, s, w', l', s') :: AdviceActs(m, v, point, hook, w, l, s, w', l', s')
  }

  ghost predicate Invisible(m: Machine, v: View, point: string, body: seq<Event>) {
    && Blind(m, v, body)
    && ReturnsNormally(m, v, point, "onBeforeMethod")
    && ReturnsNormally(m, v, point, "onAfterMethod")
  }

  /** Frames at the beginning of a method. */
  predicate LikeEntry(v: View, w: World, l: Locals, w': World, l': Locals) { Like(v, w, l, [], w', l', []) }

  lemma BlindIsAlike(m: Machine, v: View, body: seq<Event>, c: State, d: State)
    requires Blind(m, v, body) && c.Running? && d.Running? && c.pc < |body|
    requires Like(v, c.world, c.locals, c.stack, d.world, d.locals, d.stack)
    ensures (Open(body[c.pc]) ==> ActsAlike(m, v, body, c, d)) && ThrowsAlike(m, body, c, d)
  {
    hide Guards;
    HandlersAmong(body);
    var e := body[c.pc];
    if Open(e) {
      var a, b := m.act(e, c.world, c.locals, c.stack), m.act(e, d.world, d.locals, d.stack);
      assert Alike(v, a, c.locals, b, d.locals);
      if a.Raise? && b.Raise? {
        assert Twins(v, a.world, [a.exception][0], b.world, [b.exception][0]);
      }
    }
  }

  lemma {:induction false} HandlersAmong(body: seq<Event>)
    ensures forall h | h in Handlers(body) :: h in body
  {
    if body != [] {
      HandlersAmong(body[..|body| - 1]);
    }
  }

  lemma InvisibleIsSmoothNow(m: Machine, v: View, point: string, body: seq<Event>, c: State, c': State)
    requires Invisible(m, v, point, body) && Related(v, point, body, c, c')
    ensures Smooth(m, v, point, body, c, c')
  {
    hide Blind, Like, AdviceActs, ActsAlike, ThrowsAlike, Step, Place;
    if c.Running? && c'.Running? && c.pc < |body| {
      BlindIsAlike(m, v, body, c, c');
      var full := Full(point, body);
      if Departs(body[c.pc]) {
        InjectedAt(point, body, c.pc);
        AdviceOf(point, full, c'.pc, body[c.pc]);
        AdviceRuns(m, v, point, "onAfterMethod", full, c.world, c.locals, c.stack, c');
        BlindIsAlike(m, v, body, c, Run(m, full, c', 4));
      }
    }
  }

  /** If the assumptions hold wherever the body may be, they hold of every run. */
  lemma {:induction false} InvisibleIsSmooth(m: Machine, v: View, point: string, body: seq<Event>, w: World, l: Locals,
                                             w': World, l': Locals, n: nat)
    requires Invisible(m, v, point, body) && LikeEntry(v, w, l, w', l')
    ensures SmoothFrom(m, v, point, body, w, l, w', l', n)
  {
    hide SmoothRun, Like, AdviceActs, Related;
    assert AdviceActs(m, v, point, "onBeforeMethod", w, l, [], w', l', []);
    Entered(m, v, point, body, w, l, w', l');
    InvisibleRunsSmooth(m, v, point, body, Entry(w, l), Run(m, Full(point, body), Entry(w', l'), 4), n);
  }

  lemma {:induction false} InvisibleRunsSmooth(m: Machine, v: View, point: string, body: seq<Event>,
                                               c: State, c': State, n: nat)
    requires Invisible(m, v, point, body) && Related(v, point, body, c, c')
    ensures SmoothRun(m, v, point, body, c, c', n)
    decreases n
  {
    if n > 0 {
      hide Invisible, Related, Smooth, Step, Full;
      InvisibleIsSmoothNow(m, v, point, body, c, c');
      StepRelated(m, v, point, body, c, c');
      InvisibleRunsSmooth(m, v, point, body, Step(m, body, c), Run(m, Full(point, body), c', Cost(point, body, c)),
                          n - 1);
    }
  }

  // ----- The assumptions can be met

  /** The world is the last reference handed out; zero is null. */
  function Allocated(w: World): World { if w < 0 then 1 else w + 1 }

  /** A machine that makes objects and throws when a method is called on null. */
  function ObjectAct(e: Event, w: World, l: Locals, s: Stack): Effect {
    match e
    case TypeInsn(op, _) => if op == NEW then Next(Allocated(w), l, s + [Allocated(w)]) else Next(w, l, s)
    case Insn(op) => if op == DUP && s != [] then Next(w, l, s + [s[|s| - 1]]) else Next(w, l, s)
    case MethodInsn(_, _, _, _) =>
      if s == [] || s[|s| - 1] == 0 then Raise(Allocated(w), Allocated(w)) else Next(w, l, s[..|s| - 1])
    case _ => Next(w, l, s)
  }

  const OBJECTS := Machine(ObjectAct, (t: string, x: Word, w: World) => true)

  /** A body that sees of a reference whether it is null, and not which one it is. */
  const NULLNESS := View((w: World, w': World) => true, (w: World, w': World, x: Word, x': Word) => x == 0 <==> x' == 0)

  lemma ObjectsAreBlind(body: seq<Event>)
    ensures Blind(OBJECTS, NULLNESS, body)
  {
    forall e, w, l, s, w', l', s' | Like(NULLNESS, w, l, s, w', l', s')
      ensures Alike(NULLNESS, ObjectAct(e, w, l, s), l, ObjectAct(e, w', l', s'), l')
    {
      assert s != [] ==> (s[|s| - 1] == 0 <==> s'[|s| - 1] == 0);
    }
  }

  lemma ObjectAdvice(point: string, hook: string, w: World, k: Locals, t: Stack, w': World, l: Locals, s: Stack)
    requires Like(NULLNESS, w, k, t, w', l, s)
    ensures AdviceActs(OBJECTS, NULLNESS, point, hook, w, k, t, w', l, s)
  {
    var x := Allocated(w');
    var once := s + [x];
    var twice := once + [x];
    assert ObjectAct(TypeInsn(NEW, point), w', l, s) == Next(x, l, once);
    assert ObjectAct(Insn(DUP), x, l, once) == Next(x, l, twice);
    assert twice[..|s| + 1] == once && once[..|s|] == s;
    assert ObjectAct(MethodInsn(INVOKESPECIAL, point, "<init>", "()V"), x, l, twice) == Next(x, l, once);
    assert ObjectAct(MethodInsn(INVOKEVIRTUAL, point, hook, "()V"), x, l, once) == Next(x, l, s);
  }

  /** Also where a call on null throws and the rewritten run has other references, for any advice class. */
  lemma InvisibleIsPossible(point: string, body: seq<Event>)
    ensures Invisible(OBJECTS, NULLNESS, point, body)
    ensures forall w, l, hook :: OBJECTS.act(MethodInsn(INVOKEVIRTUAL, point, hook, "()V"), w, l, [0]).Raise?
    ensures OBJECTS.act(TypeInsn(NEW, point), 0, map[], []) != OBJECTS.act(TypeInsn(NEW, point), 1, map[], [])
  {
    hide AdviceActs, Blind, Like;
    ObjectsAreBlind(body);
    forall hook, w, l, s, w', l', s' | Like(NULLNESS, w, l, s, w', l', s')
      ensures AdviceActs(OBJECTS, NULLNESS, point, hook, w, l, s, w', l', s')
    {
      ObjectAdvice(point, hook, w, l, s, w', l', s');
    }
  }

  /** A machine whose advice counts its calls in the world, and whose operations throw at odd counts. */
  function CountingAct(e: Event, w: World, l: Locals, s: Stack): Effect {
    match e
    case TypeInsn(_, _) => Next(w, l, s + [1])
    case Insn(op) => if op == DUP && s != [] then Next(w, l, s + [s[|s| - 1]]) else Next(w, l, s)
    case MethodInsn(_, _, name, _) =>
      Next(if name == "<init>" then w else w + 1, l, if s == [] then [] else s[..|s| - 1])
    case Operation(_, _) => if w % 2 == 1 then Raise(w, 0) else Next(w, l, s)
    case _ => Next(w, l, s)
  }

  const COUNTING := Machine(CountingAct, (t: string, x: Word, w: World) => true)

  const EVERY_WORLD := View((w: World, w': World) => true, (w: World, w': World, x: Word, x': Word) => x == x')

  lemma SameStack(w: World, s: Stack, w': World, s': Stack)
    ensures LikeStack(EVERY_WORLD, w, s, w', s') <==> s == s'
  {
    if LikeStack(EVERY_WORLD, w, s, w', s') {
      assert forall i | 0 <= i < |s| :: Twins(EVERY_WORLD, w, s[i], w', s'[i]);
    }
  }

  lemma CountingAdvice(point: string, hook: string, w: World, k: Locals, t: Stack, w': World, l: Locals, s: Stack)
    requires Like(EVERY_WORLD, w, k, t, w', l, s) && hook != "<init>"
    ensures AdviceActs(COUNTING, EVERY_WORLD, point, hook, w, k, t, w', l, s)
  {
    var once := s + [1];
    var twice := once + [1];
    assert CountingAct(Insn(DUP), w', l, once) == Next(w', l, twice);
    assert twice[..|s| + 1] == once && once[..|s|] == s;
    assert CountingAct(MethodInsn(INVOKESPECIAL, point, "<init>", "()V"), w', l, twice) == Next(w', l, once);
    assert CountingAct(MethodInsn(INVOKEVIRTUAL, point, hook, "()V"), w', l, once) == Next(w' + 1, l, s);
  }

  lemma CountingAlike(e: Event, w: World, l: Locals, s: Stack, w': World, l': Locals, s': Stack)
    requires Open(e) && !e.Operation? && Like(EVERY_WORLD, w, l, s, w', l', s')
    ensures Alike(EVERY_WORLD, CountingAct(e, w, l, s), l, CountingAct(e, w', l', s'), l')
  {
    hide LikeStack;
    SameStack(w, s, w', s');
    var a, b := CountingAct(e, w, l, s), CountingAct(e, w', l', s');
    SameStack(a.world, a.stack, b.world, b.stack);
    LocalsAnywhere(w, l, w', l', a.world, b.world);
  }

  lemma LocalsAnywhere(w: World, l: Locals, w': World, l': Locals, u: World, u': World)
    requires LikeLocals(EVERY_WORLD, w, l, w', l')
    ensures LikeLocals(EVERY_WORLD, u, l, u', l')
  {
    forall i | i in l
      ensures Twins(EVERY_WORLD, u, l[i], u', l'[i])
    {
      assert Twins(EVERY_WORLD, w, l[i], w', l'[i]);
    }
  }

  /** A lasting effect of the advice is no obstacle for a body without the instructions that would see it. */
  lemma UnseenEffect(point: string, body: seq<Event>)
    requires forall e | e in body :: !e.Operation?
    ensures Invisible(COUNTING, EVERY_WORLD, point, body)
  {
    hide Like, Alike, AdviceActs, CountingAct;
    forall e, w, l, s, w', l', s' | e in body && Open(e) && Like(EVERY_WORLD, w, l, s, w', l', s')
      ensures Alike(EVERY_WORLD, COUNTING.act(e, w, l, s), l, COUNTING.act(e, w', l', s'), l')
    {
      CountingAlike(e, w, l, s, w', l', s');
    }
    assert "onBeforeMethod"[0] != "<init>"[0] && "onAfterMethod"[0] != "<init>"[0];
    forall hook, w, l, s, w', l', s' | hook != "<init>" && Like(EVERY_WORLD, w, l, s, w', l', s')
      ensures AdviceActs(COUNTING, EVERY_WORLD, point, hook, w, l, s, w', l', s')
    {
      CountingAdvice(point, hook, w, l, s, w', l', s');
    }
  }

  lemma AdviceCountsUp(v: View, point: string, hook: string, w: World, l: Locals, w': World, l': Locals)
    requires AdviceActs(COUNTING, v, point, hook, w, l, [], w', l', []) && hook != "<init>"
    ensures Like(v, w, l, [], w' + 1, l', [])
  {
    hide Like;
    assert CountingAct(TypeInsn(NEW, point), w', l', []) == Next(w', l', [1]);
    assert CountingAct(Insn(DUP), w', l', [1]) == Next(w', l', [1, 1]);
    assert CountingAct(MethodInsn(INVOKESPECIAL, point, "<init>", "()V"), w', l', [1, 1]) == Next(w', l', [1]);
    assert CountingAct(MethodInsn(INVOKEVIRTUAL, point, hook, "()V"), w', l', [1]) == Next(w' + 1, l', []);
  }

  lemma OperationSees(v: View, e: Event, w: World, l: Locals, w': World, l': Locals)
    requires e.Operation? && Alike(v, CountingAct(e, w, l, []), l, CountingAct(e, w', l', []), l')
    ensures w % 2 == w' % 2
  {
  }

  /** For a body with such an instruction there is no view under which it is invisible. */
  lemma SeenEffect(v: View, point: string, body: seq<Event>, w: World, l: Locals, w': World, l': Locals)
    requires (exists e :: e in body && e.Operation?) && LikeEntry(v, w, l, w', l')
    ensures !Invisible(COUNTING, v, point, body)
  {
    hide Like, Alike, AdviceActs, CountingAct;
    var e :| e in body && e.Operation?;
    assert "onBeforeMethod"[0] != "<init>"[0];
    if Invisible(COUNTING, v, point, body) {
      AdviceCountsUp(v, point, "onBeforeMethod", w, l, w', l');
      OperationSees(v, e, w, l, w', l');
      OperationSees(v, e, w, l, w' + 1, l');
      assert false;
    }
  }
}
