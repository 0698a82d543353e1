/**
 AopTraceMethodVisitor: a filter on the stream of visitor calls that describes one Java method.  A
 method annotated with AopTrace gets a call of the advice at its entry, and one before every
 instruction that returns or throws.
 */
module AopTrace {
  import opened Options

  const ANNOTATION := "Lcom/walker/common/aop/AopTrace;"

  const DUP := 89
  const IRETURN := 172
  const RETURN := 177
  const INVOKEVIRTUAL := 182
  const INVOKESPECIAL := 183
  const NEW := 187
  const ATHROW := 191

  datatype AnnotationValue = TypeValue(internalName: string) | OtherValue

  type LabelName = int

  /** The visitor calls; a `Value` is a call on the annotation visitor returned for `desc`. */
  datatype Event =
    | Annotation(desc: string)
    | Value(desc: string, name: string, value: AnnotationValue)
    | Code
    | Insn(opcode: int)
    | TypeInsn(opcode: int, typeName: string)
    | MethodInsn(opcode: int, owner: string, name: string, desc: string)
    | Label(mark: LabelName)
    | Jump(opcode: int, targets: seq<LabelName>)
    | TryCatch(begin: LabelName, end: LabelName, handler: LabelName, catchType: string)
    | Operation(opcode: int, operands: seq<int>)
    | Finish

  predicate Leaves(e: Event) { e.Insn? && (IRETURN <= e.opcode <= RETURN || e.opcode == ATHROW) }

  /** Make an object of the advice class and call `hook` on it. */
  function Advice(point: string, hook: string): seq<Event> {
    [TypeInsn(NEW, point), Insn(DUP), MethodInsn(INVOKESPECIAL, point, "<init>", "()V"),
     MethodInsn(INVOKEVIRTUAL, point, hook, "()V")]
  }

  /** ireturn, lreturn, freturn, dreturn, areturn, return and athrow: section 6.5 of the JVM Specification. */
  predicate Departs(e: Event) { e.Insn? && e.opcode in {172, 173, 174, 175, 176, 177, 191} }

  /** new, dup, invokespecial and invokevirtual, as the class file has them. */
  function CallOf(point: string, hook: string): seq<Event> {
    [TypeInsn(187, point), Insn(89), MethodInsn(183, point, "<init>", "()V"), MethodInsn(182, point, hook, "()V")]
  }

  lemma LeavesIsDeparts(e: Event)
    ensures Leaves(e) <==> Departs(e)
  {
  }

  /** What is put before each instruction, in numbers. */
  lemma InjectIs(point: string, e: Event)
    ensures Inject(point, e) == (if Departs(e) then CallOf(point, "onAfterMethod") else []) + [e]
    ensures Prologue(point) == CallOf(point, "onBeforeMethod")
  {
  }

  function Prologue(point: string): seq<Event> { Advice(point, "onBeforeMethod") }

  function Inject(point: string, e: Event): seq<Event> {
    if Leaves(e) then Advice(point, "onAfterMethod") + [e] else [e]
  }

  function InjectAll(point: string, es: seq<Event>): seq<Event> {
    if es == [] then [] else InjectAll(point, es[..|es| - 1]) + Inject(point, es[|es| - 1])
  }

  lemma Assoc<T>(a: seq<T>, b: seq<T>, c: seq<T>)
    ensures a + b + c == a + (b + c)
  {
  }

  lemma LastApart<T>(s: seq<T>)
    requires s != []
    ensures s == s[..|s| - 1] + [s[|s| - 1]]
  {
  }

  lemma InjectAllSnoc(point: string, es: seq<Event>, e: Event)
    ensures InjectAll(point, es + [e]) == InjectAll(point, es) + Inject(point, e)
  {
    assert (es + [e])[..|es|] == es;
  }

  lemma {:induction false} InjectAllConcat(point: string, a: seq<Event>, b: seq<Event>)
    ensures InjectAll(point, a + b) == InjectAll(point, a) + InjectAll(point, b)
    decreases |b|
  {
    if b == [] {
      assert a + b == a;
    } else {
      var b', e := b[..|b| - 1], b[|b| - 1];
      InjectAllConcat(point, a, b');
      LastApart(b);
      Assoc(a, b', [e]);
      InjectAllSnoc(point, a + b', e);
      InjectAllSnoc(point, b', e);
      Assoc(InjectAll(point, a), InjectAll(point, b'), Inject(point, e));
    }
  }

  // ----- The filter as a function of the whole stream

  /** The advice class after `e`: the type given for `point` by the trace annotation, if any. */
  function PointAfter(e: Event, point: Option<string>): Option<string> {
    if e.Value? && e.desc == ANNOTATION && e.name == "point" && e.value.TypeValue? then Some(e.value.internalName)
    else point
  }

  function PointAfterAll(es: seq<Event>): Option<string> {
    if es == [] then None else PointAfter(es[|es| - 1], PointAfterAll(es[..|es| - 1]))
  }

  /** The trace annotation is given this class for `point`. */
  predicate NamesPoint(e: Event, p: string) {
    e == Value("Lcom/walker/common/aop/AopTrace;", "point", TypeValue(p))
  }

  ghost predicate LastNamed(es: seq<Event>, p: string, i: nat) {
    i < |es| && NamesPoint(es[i], p) && forall j, q | i < j < |es| :: !NamesPoint(es[j], q)
  }

  /** Injection is on exactly when the trace annotation names a class, and the last one named counts. */
  lemma {:induction false} LastPointCounts(es: seq<Event>)
    ensures PointAfterAll(es).None? <==> forall i, q | 0 <= i < |es| :: !NamesPoint(es[i], q)
    ensures forall p :: PointAfterAll(es) == Some(p) <==> exists i: nat :: LastNamed(es, p, i)
  {
    if es != [] {
      var init, e := es[..|es| - 1], es[|es| - 1];
      LastPointCounts(init);
      assert forall i | 0 <= i < |init| :: es[i] == init[i];
      var named := e.Value? && e.desc == ANNOTATION && e.name == "point" && e.value.TypeValue?;
      assert named ==> NamesPoint(e, e.value.internalName);
      assert !named ==> forall q :: !NamesPoint(e, q);
      forall p
        ensures PointAfterAll(es) == Some(p) <==> exists i: nat :: LastNamed(es, p, i)
      {
        if NamesPoint(e, p) {
          assert LastNamed(es, p, |init|);
        }
        if i: nat :| LastNamed(init, p, i) {
          assert (forall q :: !NamesPoint(e, q)) ==> LastNamed(es, p, i);
        }
        if i: nat :| LastNamed(es, p, i) {
          assert i < |init| ==> LastNamed(init, p, i);
        }
      }
    }
  }

  function Emitted(e: Event, point: Option<string>): seq<Event> {
    match point
    case None => [e]
    case Some(p) => if e == Code then [Code] + Prologue(p) else Inject(p, e)
  }

  function Rewritten(es: seq<Event>): seq<Event> {
    if es == [] then []
    else Rewritten(es[..|es| - 1]) + Emitted(es[|es| - 1], PointAfterAll(es[..|es| - 1]))
  }

  /** The order that a class reader keeps: annotations, then the code, in which neither appears again. */
  predicate WellOrdered(head: seq<Event>, body: seq<Event>) {
    && (forall i | 0 <= i < |head| :: head[i].Annotation? || head[i].Value?)
    && (forall i | 0 <= i < |body| :: !body[i].Annotation? && !body[i].Value? && !body[i].Code?)
  }

  lemma {:induction false} HeadUnchanged(head: seq<Event>)
    requires forall i | 0 <= i < |head| :: head[i].Annotation? || head[i].Value?
    ensures Rewritten(head) == head
  {
    if head != [] {
      var head', e := head[..|head| - 1], head[|head| - 1];
      HeadUnchanged(head');
      LastApart(head);
      RewrittenSnoc(head', e);
      assert Emitted(e, PointAfterAll(head')) == [e];
    }
  }

  /** The rewritten body of a method whose advice class is `point`. */
  function Injected(point: Option<string>, body: seq<Event>): seq<Event> {
    match point
    case None => body
    case Some(p) => InjectAll(p, body)
  }

  lemma RewrittenSnoc(es: seq<Event>, e: Event)
    ensures Rewritten(es + [e]) == Rewritten(es) + Emitted(e, PointAfterAll(es))
    ensures PointAfterAll(es + [e]) == PointAfter(e, PointAfterAll(es))
  {
    assert (es + [e])[..|es|] == es;
  }

  lemma PlainEvent(e: Event, point: Option<string>)
    requires !e.Value? && !e.Code?
    ensures PointAfter(e, point) == point
    ensures Emitted(e, point) == match point { case None => [e] case Some(p) => Inject(p, e) }
  {
  }

  lemma PassedOn(e: Event, point: Option<string>)
    requires !e.Value? && !e.Code? && !Leaves(e)
    ensures PointAfter(e, point) == point && Emitted(e, point) == [e]
  {
  }

  lemma InjectedSnoc(point: Option<string>, es: seq<Event>, e: Event)
    requires !e.Code?
    ensures Injected(point, es + [e]) == Injected(point, es) + Emitted(e, point)
  {
    assert (es + [e])[..|es|] == es;
  }

  lemma {:induction false} BodyRewritten(front: seq<Event>, body: seq<Event>)
    requires forall i | 0 <= i < |body| :: !body[i].Value? && !body[i].Code?
    ensures PointAfterAll(front + body) == PointAfterAll(front)
    ensures Rewritten(front + body) == Rewritten(front) + Injected(PointAfterAll(front), body)
    decreases |body|
  {
    if body == [] {
      assert front + body == front;
    } else {
      var body', e := body[..|body| - 1], body[|body| - 1];
      BodyRewritten(front, body');
      LastApart(body);
      Assoc(front, body', [e]);
      RewrittenSnoc(front + body', e);
      InjectedSnoc(PointAfterAll(front), body', e);
      Assoc(Rewritten(front), Injected(PointAfterAll(front), body'), Emitted(e, PointAfterAll(front)));
    }
  }

  /**
   On a stream in class-reader order the filter changes nothing but the code of an annotated method,
   where it puts the prologue before the first label and the epilogue before each leaving instruction.
   */
  lemma RewrittenMethod(head: seq<Event>, body: seq<Event>)
    requires WellOrdered(head, body)
    ensures Rewritten(head + [Code] + body) == match PointAfterAll(head)
      case None => head + [Code] + body
      case Some(p) => head + [Code] + (Prologue(p) + InjectAll(p, body))
  {
    HeadUnchanged(head);
    RewrittenSnoc(head, Code);
    BodyRewritten(head + [Code], body);
    match PointAfterAll(head)
    case None =>
    case Some(p) =>
      Assoc(head, [Code], Prologue(p));
      Assoc(head + [Code], Prologue(p), InjectAll(p, body));
  }

  // ----- The visitor

  class AopTraceMethodVisitor {
    var needInject: bool
    var pointClassName: string
    var out: seq<Event>        // what the next visitor has been told
    ghost var seen: seq<Event> // what this visitor has been told

    ghost predicate Valid()
      reads this
    {
      && out == Rewritten(seen)
      && PointAfterAll(seen) == if needInject then Some(pointClassName) else None
    }

    constructor ()
      ensures Valid() && seen == []
    {
      needInject, pointClassName, out, seen := false, "", [], [];
    }

    method VisitAnnotationValue(desc: string, name: string, value: AnnotationValue)
      requires Valid()
      modifies this
      ensures Valid() && seen == old(seen) + [Value(desc, name, value)] && out == old(out) + [Value(desc, name, value)]
      ensures if desc == "Lcom/walker/common/aop/AopTrace;" && name == "point" && value.TypeValue?
              then needInject && pointClassName == value.internalName
              else needInject == old(needInject) && pointClassName == old(pointClassName)
    {
      RewrittenSnoc(seen, Value(desc, name, value));
      seen := seen + [Value(desc, name, value)];
      out := out + [Value(desc, name, value)];
      if desc == ANNOTATION {
        if name == "point" && value.TypeValue? {
          pointClassName := value.internalName;
          needInject := true;
        }
      }
    }

    method EmitAdvice(hook: string)
      modifies this`out
      ensures out == old(out) + Advice(pointClassName, hook)
    {
      out := out + [TypeInsn(NEW, pointClassName)];
      out := out + [Insn(DUP)];
      out := out + [MethodInsn(INVOKESPECIAL, pointClassName, "<init>", "()V")];
      out := out + [MethodInsn(INVOKEVIRTUAL, pointClassName, hook, "()V")];
    }

    method VisitCode()
      requires Valid()
      modifies this
      ensures Valid() && seen == old(seen) + [Code] && unchanged(`needInject) && unchanged(`pointClassName)
      ensures out == old(out) + ([Code] + if needInject then CallOf(pointClassName, "onBeforeMethod") else [])
    {
      assert PointAfterAll(seen + [Code]) == PointAfterAll(seen)
        && Rewritten(seen + [Code]) == out + if needInject then [Code] + Prologue(pointClassName) else [Code] by {
        RewrittenSnoc(seen, Code);
      }
      Assoc(out, [Code], Prologue(pointClassName));
      InjectIs(pointClassName, Code);
      hide CallOf, Advice, Prologue;
      seen := seen + [Code];
      out := out + [Code];
      if !needInject {
        return;
      }
      EmitAdvice("onBeforeMethod");
    }

    method VisitInsn(opcode: int)
      requires Valid()
      modifies this
      ensures Valid() && seen == old(seen) + [Insn(opcode)] && unchanged(`needInject) && unchanged(`pointClassName)
      ensures var call := CallOf(pointClassName, "onAfterMethod");
        out == old(out) + ((if needInject && opcode in {172, 173, 174, 175, 176, 177, 191} then call else [])
                           + [Insn(opcode)])
    {
      assert PointAfterAll(seen + [Insn(opcode)]) == PointAfterAll(seen)
        && Rewritten(seen + [Insn(opcode)])
           == out + if needInject then Inject(pointClassName, Insn(opcode)) else [Insn(opcode)] by {
        RewrittenSnoc(seen, Insn(opcode));
        PlainEvent(Insn(opcode), PointAfterAll(seen));
      }
      Assoc(out, Advice(pointClassName, "onAfterMethod"), [Insn(opcode)]);
      seen := seen + [Insn(opcode)];
      if !needInject {
        out := out + [Insn(opcode)];
        return;
      }
      if (opcode >= IRETURN && opcode <= RETURN) || opcode == ATHROW {
        EmitAdvice("onAfterMethod");
      }
      out := out + [Insn(opcode)];
    }

    /** Every other visitor call is passed on as it is. */
    method VisitOther(e: Event)
      requires Valid() && !e.Value? && !e.Code? && !e.Insn?
      modifies this
      ensures Valid() && seen == old(seen) + [e] && out == old(out) + [e]
    {
      assert Rewritten(seen + [e]) == out + [e] && PointAfterAll(seen + [e]) == PointAfterAll(seen) by {
        RewrittenSnoc(seen, e);
        PassedOn(e, PointAfterAll(seen));
      }
      seen := seen + [e];
      out := out + [e];
    }

    /** A class reader drives the visitor over one whole method. */
    method Accept(es: seq<Event>)
      requires Valid() && seen == []
      modifies this
      ensures Valid() && seen == es && out == Rewritten(es)
    {
      for n := 0 to |es|
        invariant Valid() && seen == es[..n]
      {
        assert es[..n + 1] == es[..n] + [es[n]];
        match es[n]
        case Value(desc, name, value) => VisitAnnotationValue(desc, name, value);
        case Code => VisitCode();
        case Insn(opcode) => VisitInsn(opcode);
        case _ => VisitOther(es[n]);
      }
      assert es[..|es|] == es;
    }
  }
}
