/** What compilation does to the assembly, whatever the program computes. */
module CompilerShape {
  import opened Values
  import opened Instructions
  import opened SyntaxTree
  import opened Compiler

  predicate ValidOperand(s: Assembly, o: Operand) {
    o.In? &&
    match o.vector
    case Arguments => o.index < s.argumentCount
    case Captures => o.index < s.captureCount
    case Literals => o.index < |s.literals|
    case Locals => o.index < s.temporaries
  }

  ghost predicate AllValid(s: Assembly, os: seq<Operand>) {
    forall i :: 0 <= i < |os| ==> ValidOperand(s, os[i])
  }

  /** Every placed label is unique and already created; pending labels are created but not placed. */
  ghost predicate Valid(s: Assembly, pending: set<nat>) {
    && UniqueLabels(s.items)
    && (forall i :: 0 <= i < |s.items| && s.items[i].Label? ==> s.items[i].id < s.labels && s.items[i].id !in pending)
    && (forall l :: l in pending ==> l < s.labels)
    && (forall b :: b in s.bindings ==> ValidOperand(s, s.bindings[b]))
  }

  ghost predicate Grown(a: Assembly, b: Assembly) {
    && a.items <= b.items
    && a.literals <= b.literals
    && a.temporaries <= b.temporaries
    && a.labels <= b.labels
    && a.argumentCount == b.argumentCount
    && a.captureCount == b.captureCount
  }

  /** Only bindings in `defined` may have changed. */
  ghost predicate Rebound(a: Assembly, b: Assembly, defined: set<Binding>) {
    && a.bindings.Keys <= b.bindings.Keys <= a.bindings.Keys + defined
    && (forall x :: x in a.bindings && x !in defined ==> b.bindings[x] == a.bindings[x])
  }

  ghost predicate Shape(s: Assembly, s1: Assembly, defined: set<Binding>, pending: set<nat>) {
    Grown(s, s1) && Rebound(s, s1, defined) && Valid(s1, pending)
  }

  /** What compiling a node makes of an assembly. */
  ghost predicate Shaped(s: Assembly, r: Compiled, defined: set<Binding>, pending: set<nat>) {
    r.Success? && Shape(s, r.value.0, defined, pending) && ValidOperand(r.value.0, r.value.1)
  }

  ghost predicate ShapedCode(s: Assembly, r: Attempt<Assembly>, defined: set<Binding>, pending: set<nat>) {
    r.Success? && Shape(s, r.value, defined, pending)
  }

  ghost predicate ShapedAll(s: Assembly, r: Attempt<(Assembly, seq<Operand>)>, count: nat, defined: set<Binding>,
                            pending: set<nat>) {
    r.Success? && Shape(s, r.value.0, defined, pending) && AllValid(r.value.0, r.value.1) && |r.value.1| == count
  }

  lemma GrownOperand(a: Assembly, b: Assembly, o: Operand)
    requires Grown(a, b) && ValidOperand(a, o)
    ensures ValidOperand(b, o)
  {
  }

  /** Steps compose; the set of changed bindings may be given as any union that is large enough. */
  lemma ShapeThrough(a: Assembly, b: Assembly, c: Assembly, d1: set<Binding>, d2: set<Binding>, p1: set<nat>,
                     p2: set<nat>)
    requires Shape(a, b, d1, p1) && Shape(b, c, d2, p2)
    ensures Shape(a, c, d1 + d2, p2)
    ensures d2 == {} ==> d1 + d2 == d1
    ensures d1 == {} ==> d1 + d2 == d2
  {
  }

  lemma EmitShape(s: Assembly, op: Opcode, os: seq<Operand>, pending: set<nat>)
    requires Valid(s, pending)
    ensures Shape(s, Emit(s, Instruction(op, os)), {}, pending)
  {
  }

  lemma PlaceShape(s: Assembly, l: nat, pending: set<nat>)
    requires Valid(s, pending) && l in pending
    ensures Shape(s, Emit(s, Label(l)), {}, pending - {l})
  {
  }

  function LabelRange(first: nat, count: nat): (r: set<nat>)
    ensures forall l :: l in r <==> first <= l < first + count
  {
    if count == 0 then {} else LabelRange(first, count - 1) + {first + count - 1}
  }

  lemma CreateLabelsShape(s: Assembly, count: nat, pending: set<nat>)
    requires Valid(s, pending)
    ensures Shape(s, s.(labels := s.labels + count), {}, pending + LabelRange(s.labels, count))
    ensures forall l :: l in pending ==> l < s.labels
  {
  }

  lemma AddLiteralShape(s: Assembly, v: Value, pending: set<nat>)
    requires Valid(s, pending)
    ensures Shape(s, AddLiteral(s, v).0, {}, pending)
    ensures ValidOperand(AddLiteral(s, v).0, AddLiteral(s, v).1)
  {
  }

  lemma NewTemporaryShape(s: Assembly, kind: TypeKind, pending: set<nat>)
    requires Valid(s, pending)
    ensures Shape(s, NewTemporary(s, kind).0, {}, pending)
    ensures ValidOperand(NewTemporary(s, kind).0, NewTemporary(s, kind).1)
  {
    if Constant(kind).Some? { AddLiteralShape(s, Constant(kind).value, pending); }
  }

  lemma EmitMoveShape(s: Assembly, d: Operand, o: Operand, pending: set<nat>)
    requires Valid(s, pending)
    ensures Shape(s, EmitMove(s, d, o), {}, pending)
  {
  }

  lemma CountExtensionShape(s: Assembly, op: Opcode, count: nat, pending: set<nat>)
    requires Valid(s, pending)
    ensures Shape(s, EmitCountExtension(s, op, count), {}, pending)
  {
  }

  lemma EmitOperationShape(s: Assembly, op: Opcode, os: seq<Operand>, kind: TypeKind, pending: set<nat>)
    requires Valid(s, pending) && AllValid(s, os)
    requires op.STORE? ==> |os| > 0
    ensures Shape(s, EmitOperation(s, op, os, kind).0, {}, pending)
    ensures ValidOperand(EmitOperation(s, op, os, kind).0, EmitOperation(s, op, os, kind).1)
  {
    if DestinationCount(op) == 0 {
      assert Shape(s, EmitOperation(s, op, os, kind).0, {}, pending)
             && ValidOperand(EmitOperation(s, op, os, kind).0, EmitOperation(s, op, os, kind).1) by {
        hide Valid, Grown, Rebound, ValidOperand, EmitCountExtension, Arrange, AddLiteral, DestinationCount;
        var s0 := EmitCountExtension(s, op, |os|);
        CountExtensionShape(s, op, |os|, pending);
        var s1 := Emit(s0, Instruction(op, Arrange(op, os)));
        EmitShape(s0, op, Arrange(op, os), pending);
        ShapeThrough(s, s0, s1, {}, {}, pending, pending);
        if op.STORE? {
          assert ValidOperand(s, os[0]);
          GrownOperand(s, s1, os[0]);
        } else {
          AddLiteralShape(s1, Void, pending);
          ShapeThrough(s, s1, AddLiteral(s1, Void).0, {}, {}, pending, pending);
        }
      }
    } else {
      EmitResultShape(s, op, os, kind, pending);
    }
  }

  lemma EmitResultShape(s: Assembly, op: Opcode, os: seq<Operand>, kind: TypeKind, pending: set<nat>)
    requires Valid(s, pending) && DestinationCount(op) != 0
    ensures Shape(s, EmitOperation(s, op, os, kind).0, {}, pending)
    ensures ValidOperand(EmitOperation(s, op, os, kind).0, EmitOperation(s, op, os, kind).1)
  {
    hide Valid, Grown, Rebound, ValidOperand, EmitCountExtension, Arrange, NewTemporary, DestinationCount, IsCall;
    var (s1, r) := NewTemporary(s, kind);
    NewTemporaryShape(s, kind, pending);
    var d := if IsCall(op) && kind.VoidKind? then Missing else r;
    var s0 := EmitCountExtension(s1, op, |os| + 1);
    CountExtensionShape(s1, op, |os| + 1, pending);
    ShapeThrough(s, s1, s0, {}, {}, pending, pending);
    var s2 := Emit(s0, Instruction(op, [d] + Arrange(op, os)));
    EmitShape(s0, op, [d] + Arrange(op, os), pending);
    ShapeThrough(s1, s0, s2, {}, {}, pending, pending);
    ShapeThrough(s, s1, s2, {}, {}, pending, pending);
    var s3 := Emit(s2, Instruction(UNREACHABLE, []));
    EmitShape(s2, UNREACHABLE, [], pending);
    ShapeThrough(s1, s2, s3, {}, {}, pending, pending);
    ShapeThrough(s, s2, s3, {}, {}, pending, pending);
    GrownOperand(s1, s2, r);
    GrownOperand(s1, s3, r);
  }

  /** A compiled node only appends, keeps labels unique and yields a readable operand. */
  lemma {:induction false} CompileShape(n: Node, s: Assembly, brk: Option<nat>, cont: Option<nat>, pending: set<nat>)
    requires WellFormed(n) && Valid(s, pending) && Compile(n, s, brk, cont).Success?
    ensures Shaped(s, Compile(n, s, brk, cont), Defined(n), pending)
    decreases n, 1
  {
    hide *;
    match n
    case Literal(_) => LeafShape(n, s, brk, cont, pending);
    case Reference(_) => LeafShape(n, s, brk, cont, pending);
    case Sequence(_) => SequenceShape(n, s, brk, cont, pending);
    case Variable(_, _, _, _, _, _) => VariableShape(n, s, brk, cont, pending);
    case Operation(_, _, _) => OperationShape(n, s, brk, cont, pending);
    case If(_, _, _, _) => IfShape(n, s, brk, cont, pending);
    case Switch(_, _, _, _, _) => SwitchShape(n, s, brk, cont, pending);
    case While(_, _, _) => WhileShape(n, s, brk, cont, pending);
    case DoWhile(_, _, _) => DoWhileShape(n, s, brk, cont, pending);
    case Break => LeafShape(n, s, brk, cont, pending);
    case Continue => LeafShape(n, s, brk, cont, pending);
    case Return(_) => ReturnShape(n, s, brk, cont, pending);
  }

  lemma LeafShape(n: Node, s: Assembly, brk: Option<nat>, cont: Option<nat>, pending: set<nat>)
    requires n.Literal? || n.Reference? || n.Break? || n.Continue?
    requires Valid(s, pending) && Compile(n, s, brk, cont).Success?
    ensures Shaped(s, Compile(n, s, brk, cont), Defined(n), pending)
  {
    hide Valid, Grown, Rebound, ValidOperand;
    match n
    case Literal(v) => AddLiteralShape(s, v, pending);
    case Reference(b) => ReferenceShape(b, s, pending);
    case Break => JumpVoidShape(s, brk.value, pending);
    case Continue => JumpVoidShape(s, cont.value, pending);
    case _ =>
  }

  lemma {:induction false} SequenceShape(n: Node, s: Assembly, brk: Option<nat>, cont: Option<nat>, pending: set<nat>)
    requires n.Sequence? && WellFormed(n) && Valid(s, pending) && Compile(n, s, brk, cont).Success?
    ensures Shaped(s, Compile(n, s, brk, cont), Defined(n), pending)
    decreases n, 0
  {
    hide Valid, Grown, Rebound, ValidOperand;
    CompileAllShape(n.expressions, s, brk, cont, pending);
    var (s1, os) := CompileAll(n.expressions, s, brk, cont).value;
    AddLiteralShape(s1, Void, pending);
    ShapeThrough(s, s1, AddLiteral(s1, Void).0, DefinedInAll(n.expressions), {}, pending, pending);
  }

  lemma {:induction false} VariableShape(n: Node, s: Assembly, brk: Option<nat>, cont: Option<nat>, pending: set<nat>)
    requires n.Variable? && WellFormed(n) && Valid(s, pending) && Compile(n, s, brk, cont).Success?
    ensures Shaped(s, Compile(n, s, brk, cont), Defined(n), pending)
    decreases n, 0
  {
    hide Valid, Grown, Rebound, ValidOperand;
    CompileOrNullShape(n.initial, s, brk, cont, pending);
    var (s1, o) := CompileOrNull(n.initial, s, brk, cont).value;
    AllocaShape(s1, n.pointerType, o, pending);
    ShapeAtRest(s1, pending);
    var (s2, v) := if n.isMutable then EmitAlloca(s1, n.pointerType, o) else (s1, o);
    DebugValueShape(s2, n.isNamed, v, n.symbol, pending);
    var s3 := EmitDebugValue(s2, n.isNamed, v, n.symbol);
    ShapeThrough(s1, s2, s3, {}, {}, pending, pending);
    ShapeThrough(s, s1, s3, DefinedIn(n.initial), {}, pending, pending);
    GrownOperand(s2, s3, v);
    BindShape(s, s3, DefinedIn(n.initial), n.name, v, pending);
    assert Compile(n, s, brk, cont).value == (s3.(bindings := s3.bindings[n.name := v]), v);
  }

  lemma {:induction false} OperationShape(n: Node, s: Assembly, brk: Option<nat>, cont: Option<nat>, pending: set<nat>)
    requires n.Operation? && WellFormed(n) && Valid(s, pending) && Compile(n, s, brk, cont).Success?
    ensures Shaped(s, Compile(n, s, brk, cont), Defined(n), pending)
    decreases n, 0
  {
    hide Valid, Grown, Rebound, ValidOperand;
    CompileAllShape(n.parts, s, brk, cont, pending);
    var (s1, os) := CompileAll(n.parts, s, brk, cont).value;
    EmitOperationShape(s1, n.opcode, os, n.kind, pending);
    ShapeThrough(s, s1, EmitOperation(s1, n.opcode, os, n.kind).0, DefinedInAll(n.parts), {}, pending, pending);
  }

  lemma {:induction false} ReturnShape(n: Node, s: Assembly, brk: Option<nat>, cont: Option<nat>, pending: set<nat>)
    requires n.Return? && WellFormed(n) && Valid(s, pending) && Compile(n, s, brk, cont).Success?
    ensures Shaped(s, Compile(n, s, brk, cont), Defined(n), pending)
    decreases n, 0
  {
    hide Valid, Grown, Rebound, ValidOperand;
    CompileShape(n.expression, s, brk, cont, pending);
    var (s1, o) := Compile(n.expression, s, brk, cont).value;
    EmitShape(s1, RETURN, [o], pending);
    var s2 := Emit(s1, Instruction(RETURN, [o]));
    ShapeThrough(s, s1, s2, Defined(n.expression), {}, pending, pending);
    GrownOperand(s1, s2, o);
  }

  lemma ReferenceShape(b: Binding, s: Assembly, pending: set<nat>)
    requires Valid(s, pending)
    ensures Shape(s, s, {}, pending)
    ensures b in s.bindings ==> ValidOperand(s, s.bindings[b])
  {
  }

  lemma ShapeAtRest(s: Assembly, pending: set<nat>)
    requires Valid(s, pending)
    ensures Shape(s, s, {}, pending)
  {
  }

  lemma BindShape(s: Assembly, s1: Assembly, d: set<Binding>, b: Binding, o: Operand, pending: set<nat>)
    requires Shape(s, s1, d, pending) && ValidOperand(s1, o)
    ensures var s2 := s1.(bindings := s1.bindings[b := o]);
            Shape(s, s2, {b} + d, pending) && ValidOperand(s2, o)
  {
  }

  lemma AllocaShape(s: Assembly, pointerType: Value, o: Operand, pending: set<nat>)
    requires Valid(s, pending)
    ensures Shape(s, EmitAlloca(s, pointerType, o).0, {}, pending)
    ensures ValidOperand(EmitAlloca(s, pointerType, o).0, EmitAlloca(s, pointerType, o).1)
  {
    NewTemporaryShape(s, ValueKind, pending);
    var (s1, d) := NewTemporary(s, ValueKind);
    AddLiteralShape(s1, pointerType, pending);
  }

  lemma DebugValueShape(s: Assembly, isNamed: bool, o: Operand, symbol: Value, pending: set<nat>)
    requires Valid(s, pending)
    ensures Shape(s, EmitDebugValue(s, isNamed, o, symbol), {}, pending)
  {
    AddLiteralShape(s, symbol, pending);
  }

  lemma JumpVoidShape(s: Assembly, l: nat, pending: set<nat>)
    requires Valid(s, pending)
    ensures var (s1, o) := AddLiteral(Emit(s, Instruction(JUMP, [To(l)])), Void);
            Shape(s, s1, {}, pending) && ValidOperand(s1, o)
  {
    EmitShape(s, JUMP, [To(l)], pending);
    AddLiteralShape(Emit(s, Instruction(JUMP, [To(l)])), Void, pending);
  }

  /** A jump followed by the label that ends a region. */
  lemma JumpAndPlaceShape(s: Assembly, target: nat, l: nat, pending: set<nat>)
    requires Valid(s, pending) && l in pending
    ensures Shape(s, EmitJumpAndLabel(s, target, l), {}, pending - {l})
  {
    EmitShape(s, JUMP, [To(target)], pending);
    PlaceShape(Emit(s, Instruction(JUMP, [To(target)])), l, pending);
  }

  /** The assemblies in the middle of a conditional: at the condition, both branches and the end. */
  lemma {:induction false} IfParts(n: Node, s: Assembly, brk: Option<nat>, cont: Option<nat>, pending: set<nat>)
    requires n.If? && WellFormed(n) && Valid(s, pending) && Compile(n, s, brk, cont).Success?
    ensures Compile(n.condition, s.(labels := s.labels + 2), brk, cont).Success?
    ensures var (s1, o) := Compile(n.condition, s.(labels := s.labels + 2), brk, cont).value;
            var (s2, r) := NewTemporary(Emit(s1, Instruction(JUMP_IF_FALSE, [o, To(s.labels)])), n.kind);
            CompileOrNull(n.whenTrue, s2, brk, cont).Success? &&
            var (s3, t) := CompileOrNull(n.whenTrue, s2, brk, cont).value;
            var s4 := EmitJumpAndLabel(EmitMove(s3, r, t), s.labels + 1, s.labels);
            CompileOrNull(n.whenFalse, s4, brk, cont).Success? &&
            var (s5, f) := CompileOrNull(n.whenFalse, s4, brk, cont).value;
            var s6 := Emit(EmitMove(s5, r, f), Label(s.labels + 1));
            var all := pending + {s.labels, s.labels + 1};
            && Compile(n, s, brk, cont).value == (s6, r)
            && Shape(s, s.(labels := s.labels + 2), {}, all)
            && Shape(s, s1, Defined(n.condition), all) && ValidOperand(s1, o)
            && Shape(s1, s2, {}, all) && ValidOperand(s2, r)
            && Shape(s2, s4, DefinedIn(n.whenTrue), pending + {s.labels + 1})
            && Shape(s4, s6, DefinedIn(n.whenFalse), pending)
    decreases n, 0, 0
  {
    hide Valid, Grown, Rebound, ValidOperand, AddLiteral, NewTemporary, EmitMove, EmitJumpAndLabel;
    var otherwise, merge := s.labels, s.labels + 1;
    var all := pending + {otherwise, merge};
    var s0 := s.(labels := s.labels + 2);
    CreateLabelsShape(s, 2, pending);
    assert pending + LabelRange(s.labels, 2) == all;
    CompileShape(n.condition, s0, brk, cont, all);
    var (s1, o) := Compile(n.condition, s0, brk, cont).value;
    ShapeThrough(s, s0, s1, {}, Defined(n.condition), all, all);
    var j := Emit(s1, Instruction(JUMP_IF_FALSE, [o, To(otherwise)]));
    EmitShape(s1, JUMP_IF_FALSE, [o, To(otherwise)], all);
    NewTemporaryShape(j, n.kind, all);
    var (s2, r) := NewTemporary(j, n.kind);
    ShapeThrough(s1, j, s2, {}, {}, all, all);
    CompileOrNullShape(n.whenTrue, s2, brk, cont, all);
    var (s3, t) := CompileOrNull(n.whenTrue, s2, brk, cont).value;
    EmitMoveShape(s3, r, t, all);
    var s3' := EmitMove(s3, r, t);
    JumpAndPlaceShape(s3', merge, otherwise, all);
    assert all - {otherwise} == pending + {merge};
    var s4 := EmitJumpAndLabel(s3', merge, otherwise);
    ShapeThrough(s3, s3', s4, {}, {}, all, pending + {merge});
    ShapeThrough(s2, s3, s4, DefinedIn(n.whenTrue), {}, all, pending + {merge});
    CompileOrNullShape(n.whenFalse, s4, brk, cont, pending + {merge});
    var (s5, f) := CompileOrNull(n.whenFalse, s4, brk, cont).value;
    EmitMoveShape(s5, r, f, pending + {merge});
    PlaceShape(EmitMove(s5, r, f), merge, pending + {merge});
    assert pending + {merge} - {merge} == pending;
    var s6 := Emit(EmitMove(s5, r, f), Label(merge));
    ShapeThrough(s5, EmitMove(s5, r, f), s6, {}, {}, pending + {merge}, pending);
    ShapeThrough(s4, s5, s6, DefinedIn(n.whenFalse), {}, pending + {merge}, pending);
  }

  lemma {:induction false} IfShape(n: Node, s: Assembly, brk: Option<nat>, cont: Option<nat>, pending: set<nat>)
    requires n.If? && WellFormed(n) && Valid(s, pending) && Compile(n, s, brk, cont).Success?
    ensures Shaped(s, Compile(n, s, brk, cont), Defined(n), pending)
    decreases n, 0, 1
  {
    hide Valid, Grown, Rebound, ValidOperand, NewTemporary, EmitMove, EmitJumpAndLabel, Compile, CompileOrNull;
    IfParts(n, s, brk, cont, pending);
    var all, rest := pending + {s.labels, s.labels + 1}, pending + {s.labels + 1};
    var (s1, o) := Compile(n.condition, s.(labels := s.labels + 2), brk, cont).value;
    var (s2, r) := NewTemporary(Emit(s1, Instruction(JUMP_IF_FALSE, [o, To(s.labels)])), n.kind);
    var (s3, t) := CompileOrNull(n.whenTrue, s2, brk, cont).value;
    var s4 := EmitJumpAndLabel(EmitMove(s3, r, t), s.labels + 1, s.labels);
    var s6 := Compile(n, s, brk, cont).value.0;
    ShapeThrough(s, s1, s2, Defined(n.condition), {}, all, all);
    ShapeThrough(s2, s4, s6, DefinedIn(n.whenTrue), DefinedIn(n.whenFalse), rest, pending);
    ShapeThrough(s, s2, s6, Defined(n.condition), DefinedIn(n.whenTrue) + DefinedIn(n.whenFalse), all, pending);
    assert Defined(n.condition) + (DefinedIn(n.whenTrue) + DefinedIn(n.whenFalse)) == Defined(n);
    GrownOperand(s2, s6, r);
  }

  lemma {:induction false} CompileOrNullShape(n: Option<Node>, s: Assembly, brk: Option<nat>, cont: Option<nat>,
                                              pending: set<nat>)
    requires OptionWellFormed(n) && Valid(s, pending) && CompileOrNull(n, s, brk, cont).Success?
    ensures Shaped(s, CompileOrNull(n, s, brk, cont), DefinedIn(n), pending)
    decreases n, 2
  {
    if n.Some? { CompileShape(n.value, s, brk, cont, pending); } else { AddLiteralShape(s, Null, pending); }
  }

  lemma {:induction false} CompileIfPresentShape(n: Option<Node>, s: Assembly, brk: Option<nat>, cont: Option<nat>,
                                                 pending: set<nat>)
    requires OptionWellFormed(n) && Valid(s, pending) && CompileIfPresent(n, s, brk, cont).Success?
    ensures ShapedCode(s, CompileIfPresent(n, s, brk, cont), DefinedIn(n), pending)
    decreases n, 2
  {
    if n.Some? { CompileShape(n.value, s, brk, cont, pending); }
  }

  lemma {:induction false} CompileGuardShape(n: Option<Node>, s: Assembly, exit: nat, next: nat,
                                             brk: Option<nat>, cont: Option<nat>, pending: set<nat>)
    requires OptionWellFormed(n) && Valid(s, pending) && CompileGuard(n, s, exit, next, brk, cont).Success?
    ensures ShapedCode(s, CompileGuard(n, s, exit, next, brk, cont), DefinedIn(n), pending)
    decreases n, 2
  {
    if n.Some? {
      CompileShape(n.value, s, brk, cont, pending);
      var (s1, o) := Compile(n.value, s, brk, cont).value;
      EmitShape(s1, JUMP_IF_FALSE, [o, To(exit)], pending);
    } else {
      EmitShape(s, JUMP, [To(next)], pending);
    }
  }

  lemma {:induction false} CompileAllShape(ns: seq<Node>, s: Assembly, brk: Option<nat>, cont: Option<nat>,
                                           pending: set<nat>)
    requires AllWellFormed(ns) && Valid(s, pending) && CompileAll(ns, s, brk, cont).Success?
    ensures ShapedAll(s, CompileAll(ns, s, brk, cont), |ns|, DefinedInAll(ns), pending)
    decreases ns, 0
  {
    if ns != [] {
      CompileShape(ns[0], s, brk, cont, pending);
      var (s1, o) := Compile(ns[0], s, brk, cont).value;
      CompileAllShape(ns[1..], s1, brk, cont, pending);
      var (s2, os) := CompileAll(ns[1..], s1, brk, cont).value;
      ShapeThrough(s, s1, s2, Defined(ns[0]), DefinedInAll(ns[1..]), pending, pending);
      GrownOperand(s1, s2, o);
    }
  }

  lemma {:induction false} CompileBodiesShape(ns: seq<Node>, s: Assembly, first: nat, merge: nat, r: Operand,
                                              brk: Option<nat>, cont: Option<nat>, pending: set<nat>)
    requires AllWellFormed(ns) && Valid(s, pending) && CompileBodies(ns, s, first, merge, r, brk, cont).Success?
    requires LabelRange(first, |ns|) <= pending
    ensures ShapedCode(s, CompileBodies(ns, s, first, merge, r, brk, cont), DefinedInAll(ns),
                       pending - LabelRange(first, |ns|))
    decreases ns, 0
  {
    hide Valid, Grown, Rebound, ValidOperand, Compile, EmitMove;
    if ns == [] {
      assert pending - LabelRange(first, 0) == pending;
      ShapeAtRest(s, pending);
    } else {
      assert first in LabelRange(first, |ns|);
      var rest := pending - {first};
      PlaceShape(s, first, pending);
      var s0 := Emit(s, Label(first));
      CompileShape(ns[0], s0, brk, cont, rest);
      var (s1, o) := Compile(ns[0], s0, brk, cont).value;
      EmitMoveShape(s1, r, o, rest);
      EmitShape(EmitMove(s1, r, o), JUMP, [To(merge)], rest);
      var s2 := Emit(EmitMove(s1, r, o), Instruction(JUMP, [To(merge)]));
      ShapeThrough(s1, EmitMove(s1, r, o), s2, {}, {}, rest, rest);
      ShapeThrough(s, s0, s1, {}, Defined(ns[0]), rest, rest);
      ShapeThrough(s, s1, s2, Defined(ns[0]), {}, rest, rest);
      CompileBodiesShape(ns[1..], s2, first + 1, merge, r, brk, cont, rest);
      assert rest - LabelRange(first + 1, |ns| - 1) == pending - LabelRange(first, |ns|);
      ShapeThrough(s, s2, CompileBodies(ns, s, first, merge, r, brk, cont).value,
                   Defined(ns[0]), DefinedInAll(ns[1..]), rest, pending - LabelRange(first, |ns|));
    }
  }

  /** A switch up to the temporary for its result. */
  lemma {:induction false} SwitchHeadShape(n: Node, s: Assembly, brk: Option<nat>, cont: Option<nat>, pending: set<nat>)
    requires n.Switch? && WellFormed(n.scrutinee) && AllWellFormed(n.keys) && Valid(s, pending)
    requires Compile(n.scrutinee, s, brk, cont).Success?
    requires CompileAll(n.keys, Compile(n.scrutinee, s, brk, cont).value.0, brk, cont).Success?
    ensures var (s1, o) := Compile(n.scrutinee, s, brk, cont).value;
            var (s2, ks) := CompileAll(n.keys, s1, brk, cont).value;
            var (s5, r) := NewTemporary(EmitCaseJump(s2, o, ks), n.kind);
            && Shape(s, s1, Defined(n.scrutinee), pending) && ValidOperand(s1, o)
            && Shape(s1, s2, DefinedInAll(n.keys), pending) && AllValid(s2, ks) && |ks| == |n.keys|
            && Shape(s2, s5, {}, pending + LabelRange(s2.labels, |n.keys| + 2)) && ValidOperand(s5, r)
            && (forall l :: l in pending ==> l < s2.labels)
    decreases n, 0, 0
  {
    hide Valid, Grown, Rebound, ValidOperand, NewTemporary, EmitCaseJump, LabelRange, AllValid;
    CompileShape(n.scrutinee, s, brk, cont, pending);
    var (s1, o) := Compile(n.scrutinee, s, brk, cont).value;
    CompileAllShape(n.keys, s1, brk, cont, pending);
    var (s2, ks) := CompileAll(n.keys, s1, brk, cont).value;
    CaseJumpShape(s2, o, ks, pending);
    var s4 := EmitCaseJump(s2, o, ks);
    var all := pending + LabelRange(s2.labels, |n.keys| + 2);
    NewTemporaryShape(s4, n.kind, all);
    ShapeThrough(s2, s4, NewTemporary(s4, n.kind).0, {}, {}, all, all);
  }

  lemma {:induction false} SwitchParts(n: Node, s: Assembly, brk: Option<nat>, cont: Option<nat>, pending: set<nat>)
    returns (s1: Assembly, o: Operand, s2: Assembly, ks: seq<Operand>, s3: Assembly, r: Operand, s4: Assembly,
             s5: Assembly)
    requires n.Switch? && WellFormed(n) && Valid(s, pending) && Compile(n, s, brk, cont).Success?
    ensures Compile(n.scrutinee, s, brk, cont) == Success((s1, o))
    ensures CompileAll(n.keys, s1, brk, cont) == Success((s2, ks)) && |ks| == |n.keys|
    ensures (s3, r) == NewTemporary(EmitCaseJump(s2, o, ks), n.kind)
    ensures CompileBodies(n.bodies, s3, s2.labels, s2.labels + |ks| + 1, r, brk, cont) == Success(s4)
    ensures CompileDefault(n.whenNone, s4, s2.labels + |ks|, s2.labels + |ks| + 1, r, brk, cont) == Success(s5)
    ensures Compile(n, s, brk, cont) == Success((s5, r))
    ensures Shape(s, s1, Defined(n.scrutinee), pending) && ValidOperand(s1, o)
    ensures Shape(s1, s2, DefinedInAll(n.keys), pending) && AllValid(s2, ks)
    ensures Shape(s2, s3, {}, pending + LabelRange(s2.labels, |ks| + 2)) && ValidOperand(s3, r)
    ensures Shape(s3, s5, DefinedInAll(n.bodies) + DefinedIn(n.whenNone), pending)
    ensures forall l :: l in pending ==> l < s2.labels
    decreases n, 0, 1
  {
    hide Valid, Grown, Rebound, ValidOperand, NewTemporary, EmitCaseJump, AllValid, LabelRange;
    hide CompileBodies, CompileDefault, CompileAll, Defined, DefinedInAll, DefinedIn;
    SwitchHeadShape(n, s, brk, cont, pending);
    s1, o := Compile(n.scrutinee, s, brk, cont).value.0, Compile(n.scrutinee, s, brk, cont).value.1;
    s2, ks := CompileAll(n.keys, s1, brk, cont).value.0, CompileAll(n.keys, s1, brk, cont).value.1;
    s3, r := NewTemporary(EmitCaseJump(s2, o, ks), n.kind).0, NewTemporary(EmitCaseJump(s2, o, ks), n.kind).1;
    s4 := CompileBodies(n.bodies, s3, s2.labels, s2.labels + |ks| + 1, r, brk, cont).value;
    s5 := CompileDefault(n.whenNone, s4, s2.labels + |ks|, s2.labels + |ks| + 1, r, brk, cont).value;
    assert (var s1 := CompileBodies(n.bodies, s3, s2.labels, s2.labels + |n.bodies| + 1, r, brk, cont).value;
            var s2' := CompileDefault(n.whenNone, s1, s2.labels + |n.bodies|, s2.labels + |n.bodies|
                                      + 1, r, brk, cont).value;
            Shape(s3, s2', DefinedInAll(n.bodies) + DefinedIn(n.whenNone), pending)) by {
      hide Valid, Grown, Rebound, ValidOperand, CompileBodies, CompileDefault;
      var count := |n.bodies|;
      var all := pending + LabelRange(s2.labels, count + 2);
      CompileBodiesShape(n.bodies, s3, s2.labels, s2.labels + count + 1, r, brk, cont, all);
      var s1 := CompileBodies(n.bodies, s3, s2.labels, s2.labels + count + 1, r, brk, cont).value;
      var rest := all - LabelRange(s2.labels, count);
      assert s2.labels + count in rest && s2.labels + count + 1 in rest;
      CompileDefaultShape(n.whenNone, s1, s2.labels + count, s2.labels + count + 1, r, brk, cont, rest);
      assert rest - {s2.labels + count} - {s2.labels + count + 1} == pending;
      var s2' := CompileDefault(n.whenNone, s1, s2.labels + count, s2.labels + count + 1, r, brk, cont).value;
      ShapeThrough(s3, s1, s2', DefinedInAll(n.bodies), DefinedIn(n.whenNone), rest, pending);
    }
  }

  lemma {:induction false} SwitchShape(n: Node, s: Assembly, brk: Option<nat>, cont: Option<nat>, pending: set<nat>)
    requires n.Switch? && WellFormed(n) && Valid(s, pending) && Compile(n, s, brk, cont).Success?
    ensures Shaped(s, Compile(n, s, brk, cont), Defined(n), pending)
    decreases n, 0, 2
  {
    hide Valid, Grown, Rebound, ValidOperand, Compile, AllValid, LabelRange, CompileAll;
    var s1, o, s2, ks, s3, r, s4, s5 := SwitchParts(n, s, brk, cont, pending);
    var all := pending + LabelRange(s2.labels, |ks| + 2);
    ShapeThrough(s, s1, s2, Defined(n.scrutinee), DefinedInAll(n.keys), pending, pending);
    var d := Defined(n.scrutinee) + DefinedInAll(n.keys);
    ShapeThrough(s, s2, s3, d, {}, pending, all);
    ShapeThrough(s, s3, s5, d, DefinedInAll(n.bodies) + DefinedIn(n.whenNone), all, pending);
    assert d + (DefinedInAll(n.bodies) + DefinedIn(n.whenNone)) == Defined(n);
    GrownOperand(s3, s5, r);
  }

  lemma CaseJumpShape(s: Assembly, o: Operand, ks: seq<Operand>, pending: set<nat>)
    requires Valid(s, pending)
    ensures Shape(s, EmitCaseJump(s, o, ks), {}, pending + LabelRange(s.labels, |ks| + 2))
    ensures forall l :: l in pending ==> l < s.labels
  {
    hide Valid, Grown, Rebound, Shape, Emit, EmitCountExtension, LabelRange, Displacements;
    var all := pending + LabelRange(s.labels, |ks| + 2);
    CreateLabelsShape(s, |ks| + 2, pending);
    var s0 := s.(labels := s.labels + |ks| + 2);
    assert Valid(s0, all);
    CountExtensionShape(s0, CASE_JUMP, 2 + |ks|, all);
    var s1 := EmitCountExtension(s0, CASE_JUMP, 2 + |ks|);
    assert Valid(s1, all);
    EmitShape(s1, CASE_JUMP, [o] + ks + Displacements(s.labels, |ks| + 1), all);
    ShapeThrough(s, s0, s1, {}, {}, all, all);
    ShapeThrough(s, s1, EmitCaseJump(s, o, ks), {}, {}, all, all);
  }

  lemma {:induction false} CompileDefaultShape(n: Option<Node>, s: Assembly, otherwise: nat, merge: nat, r: Operand,
                                               brk: Option<nat>, cont: Option<nat>, pending: set<nat>)
    requires OptionWellFormed(n) && Valid(s, pending) && otherwise in pending && merge in pending && otherwise != merge
    requires CompileDefault(n, s, otherwise, merge, r, brk, cont).Success?
    ensures ShapedCode(s, CompileDefault(n, s, otherwise, merge, r, brk, cont), DefinedIn(n),
                       pending - {otherwise} - {merge})
    decreases n, 3
  {
    PlaceShape(s, otherwise, pending);
    CompileOrNullShape(n, Emit(s, Label(otherwise)), brk, cont, pending - {otherwise});
    var (s1, o) := CompileOrNull(n, Emit(s, Label(otherwise)), brk, cont).value;
    EmitMoveShape(s1, r, o, pending - {otherwise});
    PlaceShape(EmitMove(s1, r, o), merge, pending - {otherwise});
  }

  /** The assemblies in the middle of a while loop: before and after the condition, after the body, before the step. */
  lemma {:induction false} WhileParts(n: Node, s: Assembly, brk: Option<nat>, cont: Option<nat>, pending: set<nat>)
    returns (s0: Assembly, s1: Assembly, s2: Assembly, s3: Assembly, s4: Assembly, o: Operand)
    requires n.While? && WellFormed(n) && Valid(s, pending) && Compile(n, s, brk, cont).Success?
    ensures s0 == Emit(s.(labels := s.labels + 4), Label(s.labels))
    ensures CompileGuard(n.guard, s0, s.labels + 3, s.labels + 1, brk, cont) == Success(s1)
    ensures CompileIfPresent(n.body, Emit(s1, Label(s.labels + 1)), Some(s.labels + 3), Some(s.labels + 2))
            == Success(s2)
    ensures s3 == EmitJumpAndLabel(s2, s.labels + 2, s.labels + 2)
    ensures CompileLoopEnd(n.step, s3, s.labels, s.labels + 3, brk, cont) == Success((s4, o))
    ensures Compile(n, s, brk, cont) == Success((s4, o))
    ensures Shape(s, s0, {}, pending + {s.labels + 1, s.labels + 2, s.labels + 3})
    ensures Shape(s0, s1, DefinedIn(n.guard), pending + {s.labels + 1, s.labels + 2, s.labels + 3})
    ensures Shape(s1, Emit(s1, Label(s.labels + 1)), {}, pending + {s.labels + 2, s.labels + 3})
    ensures Shape(Emit(s1, Label(s.labels + 1)), s2, DefinedIn(n.body), pending + {s.labels + 2, s.labels + 3})
    ensures Shape(s2, s3, {}, pending + {s.labels + 3})
    ensures Shape(s3, s4, DefinedIn(n.step), pending) && ValidOperand(s4, o)
    decreases n, 0, 0
  {
    hide Valid, Grown, Rebound, ValidOperand, CompileGuard, CompileIfPresent, CompileLoopEnd, EmitJumpAndLabel;
    hide Defined, DefinedIn, OptionWellFormed, AddLiteral, CompileOrNull, CompileAll, NewTemporary, EmitMove;
    var entry, start, next, merge := s.labels, s.labels + 1, s.labels + 2, s.labels + 3;
    var p1, p2, p3 := pending + {start, next, merge}, pending + {next, merge}, pending + {merge};
    LoopStartShape(s, pending);
    s0 := Emit(s.(labels := s.labels + 4), Label(entry));
    CompileGuardShape(n.guard, s0, merge, start, brk, cont, p1);
    s1 := CompileGuard(n.guard, s0, merge, start, brk, cont).value;
    PlaceShape(s1, start, p1);
    assert p1 - {start} == p2;
    CompileIfPresentShape(n.body, Emit(s1, Label(start)), Some(merge), Some(next), p2);
    s2 := CompileIfPresent(n.body, Emit(s1, Label(start)), Some(merge), Some(next)).value;
    JumpAndPlaceShape(s2, next, next, p2);
    s3 := EmitJumpAndLabel(s2, next, next);
    assert p2 - {next} == p3;
    CompileLoopEndShape(n.step, s3, entry, merge, brk, cont, pending);
    s4, o := Compile(n, s, brk, cont).value.0, Compile(n, s, brk, cont).value.1;
  }

  lemma {:induction false} WhileShape(n: Node, s: Assembly, brk: Option<nat>, cont: Option<nat>, pending: set<nat>)
    requires n.While? && WellFormed(n) && Valid(s, pending) && Compile(n, s, brk, cont).Success?
    ensures Shaped(s, Compile(n, s, brk, cont), Defined(n), pending)
    decreases n, 0, 1
  {
    hide Valid, Grown, Rebound, ValidOperand, Compile, CompileGuard, CompileIfPresent, CompileLoopEnd, EmitJumpAndLabel;
    var start, next, merge := s.labels + 1, s.labels + 2, s.labels + 3;
    var p1, p2, p3 := pending + {start, next, merge}, pending + {next, merge}, pending + {merge};
    var s0, s1, s2, s3, s4, _ := WhileParts(n, s, brk, cont, pending);
    var s1' := Emit(s1, Label(start));
    ShapeThrough(s, s0, s1, {}, DefinedIn(n.guard), p1, p1);
    ShapeThrough(s, s1, s1', DefinedIn(n.guard), {}, p1, p2);
    ShapeThrough(s1', s2, s3, DefinedIn(n.body), {}, p2, p3);
    ShapeThrough(s, s1', s3, DefinedIn(n.guard), DefinedIn(n.body), p2, p3);
    ShapeThrough(s, s3, s4, DefinedIn(n.guard) + DefinedIn(n.body), DefinedIn(n.step), p3, pending);
  }

  lemma LoopStartShape(s: Assembly, pending: set<nat>)
    requires Valid(s, pending)
    ensures Shape(s, Emit(s.(labels := s.labels + 4), Label(s.labels)), {},
                  pending + {s.labels + 1, s.labels + 2, s.labels + 3})
    ensures forall l :: l in pending ==> l < s.labels
  {
    CreateLabelsShape(s, 4, pending);
    var all := pending + LabelRange(s.labels, 4);
    PlaceShape(s.(labels := s.labels + 4), s.labels, all);
    assert all - {s.labels} == pending + {s.labels + 1, s.labels + 2, s.labels + 3};
  }

  lemma {:induction false} CompileLoopEndShape(n: Option<Node>, s: Assembly, entry: nat, merge: nat,
                                               brk: Option<nat>, cont: Option<nat>, pending: set<nat>)
    requires OptionWellFormed(n) && Valid(s, pending + {merge}) && merge !in pending
    requires CompileLoopEnd(n, s, entry, merge, brk, cont).Success?
    ensures Shaped(s, CompileLoopEnd(n, s, entry, merge, brk, cont), DefinedIn(n), pending)
    decreases n, 3
  {
    CompileIfPresentShape(n, s, brk, cont, pending + {merge});
    var s1 := CompileIfPresent(n, s, brk, cont).value;
    JumpAndPlaceShape(s1, entry, merge, pending + {merge});
    assert pending + {merge} - {merge} == pending;
    AddLiteralShape(EmitJumpAndLabel(s1, entry, merge), Void, pending);
  }

  lemma {:induction false} DoWhileParts(n: Node, s: Assembly, brk: Option<nat>, cont: Option<nat>, pending: set<nat>)
    returns (s0: Assembly, s1: Assembly, s2: Assembly, s3: Assembly, s4: Assembly, o: Operand)
    requires n.DoWhile? && WellFormed(n) && Valid(s, pending) && Compile(n, s, brk, cont).Success?
    ensures s0 == Emit(s.(labels := s.labels + 4), Label(s.labels))
    ensures CompileIfPresent(n.body, s0, Some(s.labels + 3), Some(s.labels + 1)) == Success(s1)
    ensures s2 == EmitJumpAndLabel(s1, s.labels + 1, s.labels + 1)
    ensures CompileGuard(n.guard, s2, s.labels + 3, s.labels + 2, brk, cont) == Success(s3)
    ensures CompileLoopEnd(n.step, Emit(s3, Label(s.labels + 2)), s.labels, s.labels + 3, brk, cont) == Success((s4, o))
    ensures Compile(n, s, brk, cont) == Success((s4, o))
    ensures Shape(s, s0, {}, pending + {s.labels + 1, s.labels + 2, s.labels + 3})
    ensures Shape(s0, s1, DefinedIn(n.body), pending + {s.labels + 1, s.labels + 2, s.labels + 3})
    ensures Shape(s1, s2, {}, pending + {s.labels + 2, s.labels + 3})
    ensures Shape(s2, s3, DefinedIn(n.guard), pending + {s.labels + 2, s.labels + 3})
    ensures Shape(s3, Emit(s3, Label(s.labels + 2)), {}, pending + {s.labels + 3})
    ensures Shape(Emit(s3, Label(s.labels + 2)), s4, DefinedIn(n.step), pending) && ValidOperand(s4, o)
    decreases n, 0, 0
  {
    hide Valid, Grown, Rebound, ValidOperand, CompileGuard, CompileIfPresent, CompileLoopEnd, EmitJumpAndLabel;
    hide Defined, DefinedIn, OptionWellFormed, AddLiteral, CompileOrNull, CompileAll, NewTemporary, EmitMove;
    var entry, condition, next, merge := s.labels, s.labels + 1, s.labels + 2, s.labels + 3;
    var p1, p2, p3 := pending + {condition, next, merge}, pending + {next, merge}, pending + {merge};
    LoopStartShape(s, pending);
    s0 := Emit(s.(labels := s.labels + 4), Label(entry));
    CompileIfPresentShape(n.body, s0, Some(merge), Some(condition), p1);
    s1 := CompileIfPresent(n.body, s0, Some(merge), Some(condition)).value;
    JumpAndPlaceShape(s1, condition, condition, p1);
    assert p1 - {condition} == p2;
    s2 := EmitJumpAndLabel(s1, condition, condition);
    CompileGuardShape(n.guard, s2, merge, next, brk, cont, p2);
    s3 := CompileGuard(n.guard, s2, merge, next, brk, cont).value;
    PlaceShape(s3, next, p2);
    assert p2 - {next} == p3;
    CompileLoopEndShape(n.step, Emit(s3, Label(next)), entry, merge, brk, cont, pending);
    s4, o := Compile(n, s, brk, cont).value.0, Compile(n, s, brk, cont).value.1;
  }

  lemma {:induction false} DoWhileShape(n: Node, s: Assembly, brk: Option<nat>, cont: Option<nat>, pending: set<nat>)
    requires n.DoWhile? && WellFormed(n) && Valid(s, pending) && Compile(n, s, brk, cont).Success?
    ensures Shaped(s, Compile(n, s, brk, cont), Defined(n), pending)
    decreases n, 0, 1
  {
    hide Valid, Grown, Rebound, ValidOperand, Compile, CompileGuard, CompileIfPresent, CompileLoopEnd, EmitJumpAndLabel;
    var condition, next, merge := s.labels + 1, s.labels + 2, s.labels + 3;
    var p1, p2, p3 := pending + {condition, next, merge}, pending + {next, merge}, pending + {merge};
    var s0, s1, s2, s3, s4, _ := DoWhileParts(n, s, brk, cont, pending);
    var s3' := Emit(s3, Label(next));
    ShapeThrough(s, s0, s1, {}, DefinedIn(n.body), p1, p1);
    ShapeThrough(s, s1, s2, DefinedIn(n.body), {}, p1, p2);
    ShapeThrough(s2, s3, s3', DefinedIn(n.guard), {}, p2, p3);
    ShapeThrough(s, s2, s3', DefinedIn(n.body), DefinedIn(n.guard), p2, p3);
    ShapeThrough(s, s3', s4, DefinedIn(n.body) + DefinedIn(n.guard), DefinedIn(n.step), p3, pending);
    assert DefinedIn(n.body) + DefinedIn(n.guard) + DefinedIn(n.step) == Defined(n);
  }

  // Whole function definitions.

  /** The bindings a function starts with. */
  function Names(d: Definition): set<Binding> {
    set b | b in d.parameters + d.captures
  }

  lemma {:induction false} BindValid(s: Assembly, bindings: map<Binding, Operand>, names: seq<Binding>, vector: Vector)
    requires forall b :: b in bindings ==> ValidOperand(s, bindings[b])
    requires (vector.Arguments? && |names| <= s.argumentCount) || (vector.Captures? && |names| <= s.captureCount)
    ensures forall b :: b in Bind(bindings, names, vector) ==> ValidOperand(s, Bind(bindings, names, vector)[b])
  {
    if names != [] { BindValid(s, bindings, names[..|names| - 1], vector); }
  }

  lemma StartValid(d: Definition)
    ensures Valid(Start(d), {})
    ensures Start(d).bindings.Keys == Names(d)
  {
    var s := Start(d);
    BindValid(s, map[], d.parameters, Arguments);
    BindValid(s, Bind(map[], d.parameters, Arguments), d.captures, Captures);
  }
}
