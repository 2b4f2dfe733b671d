/** The direct compiler from syntax trees to instruction lists. */
module Compiler {
  import opened Values
  import opened Instructions
  import opened SyntaxTree

  /** What the assembler and the compiler have accumulated. */
  datatype Assembly = Assembly(
    items: seq<Item>,
    literals: seq<Value>,
    temporaries: nat,
    labels: nat,                             // labels created so far
    bindings: map<Binding, Operand>,
    argumentCount: nat,
    captureCount: nat)

  type Compiled = Attempt<(Assembly, Operand)>

  function Emit(s: Assembly, item: Item): Assembly {
    s.(items := s.items + [item])
  }

  function IndexOf(vs: seq<Value>, v: Value): (i: nat)
    ensures i <= |vs|
    ensures i < |vs| ==> vs[i] == v
    ensures i == |vs| ==> v !in vs
  {
    if vs == [] || vs[0] == v then 0 else 1 + IndexOf(vs[1..], v)
  }

  /** Literals are shared: adding one twice gives the same operand. */
  function AddLiteral(s: Assembly, v: Value): (Assembly, Operand) {
    var i := IndexOf(s.literals, v);
    (if i < |s.literals| then s else s.(literals := s.literals + [v]), In(Literals, i))
  }

  function NewTemporary(s: Assembly, kind: TypeKind): (Assembly, Operand) {
    match Constant(kind)
    case Some(v) => AddLiteral(s, v)
    case None => (s.(temporaries := s.temporaries + 1), In(Locals, s.temporaries))
  }

  /** Moves into a constant destination are not emitted. */
  function EmitMove(s: Assembly, destination: Operand, o: Operand): Assembly {
    if destination.In? && destination.vector.Locals? then Emit(s, Instruction(MOVE, [destination, o])) else s
  }

  function EmitDebugValue(s: Assembly, isNamed: bool, o: Operand, symbol: Value): Assembly {
    if isNamed then
      var (s1, l) := AddLiteral(s, symbol);
      Emit(s1, Instruction(SET_DEBUG_VALUE, [o, l]))
    else s
  }

  /** Ends a region with a jump and starts the next one with a label. */
  function EmitJumpAndLabel(s: Assembly, target: nat, l: nat): Assembly {
    Emit(Emit(s, Instruction(JUMP, [To(target)])), Label(l))
  }

  /** Sixteen or more variable operands need an extension of the count in the opcode byte. */
  function EmitCountExtension(s: Assembly, op: Opcode, operandCount: nat): Assembly {
    match ImplicitCount(op)
    case Some(k) =>
      if operandCount >= k && (operandCount - k) / 16 > 0
      then Emit(s, Instruction(COUNT_EXTENSION, [Count((operandCount - k) / 16)]))
      else s
    case None => s
  }

  function EmitOperation(s: Assembly, op: Opcode, os: seq<Operand>, kind: TypeKind): (Assembly, Operand) {
    if DestinationCount(op) == 0 then
      var s1 := Emit(EmitCountExtension(s, op, |os|), Instruction(op, Arrange(op, os)));
      if op.STORE? && |os| > 0 then (s1, os[0]) else AddLiteral(s1, Void)
    else
      var (s1, r) := NewTemporary(s, kind);
      var d := if IsCall(op) && kind.VoidKind? then Missing else r;
      var s2 := Emit(EmitCountExtension(s1, op, |os| + 1), Instruction(op, [d] + Arrange(op, os)));
      (if IsCall(op) && kind.EscapeKind? then Emit(s2, Instruction(UNREACHABLE, [])) else s2, r)
  }

  function Compile(n: Node, s: Assembly, brk: Option<nat>, cont: Option<nat>): Compiled
    decreases n, 1
  {
    match n
    case Literal(v) => Success(AddLiteral(s, v))
    case Reference(b) => if b in s.bindings then Success((s, s.bindings[b])) else Failure("Invalid value binding.")
    case Sequence(es) =>
      var (s1, os) :- CompileAll(es, s, brk, cont);
      Success(if |os| == 0 then AddLiteral(s1, Void) else (s1, os[|os| - 1]))
    case Variable(b, isMutable, pointerType, symbol, initial, isNamed) =>
      var (s1, o) :- CompileOrNull(initial, s, brk, cont);
      var (s2, v) := if isMutable then EmitAlloca(s1, pointerType, o) else (s1, o);
      var s3 := EmitDebugValue(s2, isNamed, v, symbol);
      Success((s3.(bindings := s3.bindings[b := v]), v))
    case Operation(op, parts, kind) =>
      var (s1, os) :- CompileAll(parts, s, brk, cont);
      Success(EmitOperation(s1, op, os, kind))
    case If(c, a, b, kind) =>
      var otherwise, merge := s.labels, s.labels + 1;
      var (s1, o) :- Compile(c, s.(labels := s.labels + 2), brk, cont);
      var (s2, r) := NewTemporary(Emit(s1, Instruction(JUMP_IF_FALSE, [o, To(otherwise)])), kind);
      var (s3, t) :- CompileOrNull(a, s2, brk, cont);
      var s4 := EmitJumpAndLabel(EmitMove(s3, r, t), merge, otherwise);
      var (s5, f) :- CompileOrNull(b, s4, brk, cont);
      Success((Emit(EmitMove(s5, r, f), Label(merge)), r))
    case Switch(x, keys, bodies, whenNone, kind) =>
      var (s1, o) :- Compile(x, s, brk, cont);
      var (s2, ks) :- CompileAll(keys, s1, brk, cont);
      var (s3, r) := NewTemporary(EmitCaseJump(s2, o, ks), kind);
      var s4 :- CompileBodies(bodies, s3, s2.labels, s2.labels + |ks| + 1, r, brk, cont);
      var s5 :- CompileDefault(whenNone, s4, s2.labels + |ks|, s2.labels + |ks| + 1, r, brk, cont);
      Success((s5, r))
    case While(guard, body, step) =>
      var entry, start, next, merge := s.labels, s.labels + 1, s.labels + 2, s.labels + 3;
      var s1 :- CompileGuard(guard, Emit(s.(labels := s.labels + 4), Label(entry)), merge, start, brk, cont);
      var s2 :- CompileIfPresent(body, Emit(s1, Label(start)), Some(merge), Some(next));
      CompileLoopEnd(step, EmitJumpAndLabel(s2, next, next), entry, merge, brk, cont)
    case DoWhile(guard, body, step) =>
      var entry, condition, next, merge := s.labels, s.labels + 1, s.labels + 2, s.labels + 3;
      var s1 :- CompileIfPresent(body, Emit(s.(labels := s.labels + 4), Label(entry)), Some(merge), Some(condition));
      var s2 :- CompileGuard(guard, EmitJumpAndLabel(s1, condition, condition), merge, next, brk, cont);
      CompileLoopEnd(step, Emit(s2, Label(next)), entry, merge, brk, cont)
    case Break =>
      if brk.None? then Failure("Break statement in wrong location.")
      else Success(AddLiteral(Emit(s, Instruction(JUMP, [To(brk.value)])), Void))
    case Continue =>
      if cont.None? then Failure("Continue statement in wrong location.")
      else Success(AddLiteral(Emit(s, Instruction(JUMP, [To(cont.value)])), Void))
    case Return(e) =>
      var (s1, o) :- Compile(e, s, brk, cont);
      Success((Emit(s1, Instruction(RETURN, [o])), o))
  }

  /** Creates the labels of the cases, of the default and of the merge point, and jumps to one of the cases. */
  function EmitCaseJump(s: Assembly, o: Operand, ks: seq<Operand>): Assembly {
    var s1 := EmitCountExtension(s.(labels := s.labels + |ks| + 2), CASE_JUMP, 2 + |ks|);
    Emit(s1, Instruction(CASE_JUMP, [o] + ks + Displacements(s.labels, |ks| + 1)))
  }

  function EmitAlloca(s: Assembly, pointerType: Value, o: Operand): (Assembly, Operand) {
    var (s1, d) := NewTemporary(s, ValueKind);
    var (s2, t) := AddLiteral(s1, pointerType);
    (Emit(s2, Instruction(ALLOCA_WITH_VALUE, [d, t, o])), d)
  }

  function Displacements(first: nat, count: nat): (os: seq<Operand>)
    ensures |os| == count
    ensures forall i :: 0 <= i < count ==> os[i] == To(first + i)
  {
    if count == 0 then [] else Displacements(first, count - 1) + [To(first + count - 1)]
  }

  function CompileOrNull(n: Option<Node>, s: Assembly, brk: Option<nat>, cont: Option<nat>): Compiled
    decreases n, 2
  {
    if n.Some? then Compile(n.value, s, brk, cont) else Success(AddLiteral(s, Null))
  }

  function CompileIfPresent(n: Option<Node>, s: Assembly, brk: Option<nat>, cont: Option<nat>): Attempt<Assembly>
    decreases n, 2
  {
    if n.Some? then
      var (s1, _) :- Compile(n.value, s, brk, cont);
      Success(s1)
    else Success(s)
  }

  /** Leaves the loop when the condition is not true; without a condition jumps on. */
  function CompileGuard(n: Option<Node>, s: Assembly, exit: nat, next: nat, brk: Option<nat>, cont: Option<nat>)
    : Attempt<Assembly>
    decreases n, 2
  {
    if n.Some? then
      var (s1, o) :- Compile(n.value, s, brk, cont);
      Success(Emit(s1, Instruction(JUMP_IF_FALSE, [o, To(exit)])))
    else Success(Emit(s, Instruction(JUMP, [To(next)])))
  }

  /** The continue expression of a loop, the jump back and the point behind the loop. */
  function CompileLoopEnd(n: Option<Node>, s: Assembly, entry: nat, merge: nat, brk: Option<nat>,
                          cont: Option<nat>): Compiled
    decreases n, 3
  {
    var s1 :- CompileIfPresent(n, s, brk, cont);
    Success(AddLiteral(EmitJumpAndLabel(s1, entry, merge), Void))
  }

  function CompileAll(ns: seq<Node>, s: Assembly, brk: Option<nat>, cont: Option<nat>): Attempt<(Assembly,
                                                                                                 seq<Operand>)>
    decreases ns, 0
  {
    if ns == [] then Success((s, []))
    else
      var (s1, o) :- Compile(ns[0], s, brk, cont);
      var (s2, os) :- CompileAll(ns[1..], s1, brk, cont);
      Success((s2, [o] + os))
  }

  /** The bodies of a switch, labelled consecutively from `first`. */
  function CompileBodies(ns: seq<Node>, s: Assembly, first: nat, merge: nat, r: Operand,
                         brk: Option<nat>, cont: Option<nat>): Attempt<Assembly>
    decreases ns, 0
  {
    if ns == [] then Success(s)
    else
      var (s1, o) :- Compile(ns[0], Emit(s, Label(first)), brk, cont);
      var s2 := Emit(EmitMove(s1, r, o), Instruction(JUMP, [To(merge)]));
      CompileBodies(ns[1..], s2, first + 1, merge, r, brk, cont)
  }

  /** The default of a switch and its merge point. */
  function CompileDefault(n: Option<Node>, s: Assembly, otherwise: nat, merge: nat, r: Operand,
                          brk: Option<nat>, cont: Option<nat>): Attempt<Assembly>
    decreases n, 3
  {
    var (s1, o) :- CompileOrNull(n, Emit(s, Label(otherwise)), brk, cont);
    Success(Emit(EmitMove(s1, r, o), Label(merge)))
  }

  // Whole function definitions.

  datatype Definition = Definition(parameters: seq<Binding>, captures: seq<Binding>, body: Option<Node>)

  /** Binds names to the operands of a vector, in order. */
  function Bind(bindings: map<Binding, Operand>, names: seq<Binding>, vector: Vector): (r: map<Binding, Operand>)
    ensures r.Keys == bindings.Keys + set b | b in names
    ensures forall b :: b in r ==>
              r[b] == In(vector, 0) || b in bindings || (r[b].In? && r[b].vector == vector && r[b].index < |names|)
  {
    if names == [] then bindings
    else Bind(bindings, names[..|names| - 1], vector)[names[|names| - 1] := In(vector, |names| - 1)]
  }

  function Start(d: Definition): Assembly {
    Assembly([], [], 0, 0, Bind(Bind(map[], d.parameters, Arguments), d.captures, Captures), |d.parameters|,
             |d.captures|)
  }

  /** A missing body is the void literal. */
  function BodyOf(d: Definition): Node {
    if d.body.Some? then d.body.value else Literal(Void)
  }

  /** The code of the body followed by the return of its result. */
  function CompileDefinition(d: Definition): Attempt<Assembly> {
    var (s, o) :- Compile(BodyOf(d), Start(d), None, None);
    Success(Emit(s, Instruction(RETURN, [o])))
  }

  predicate Distinct(names: seq<Binding>) {
    forall i, j :: 0 <= i < j < |names| ==> names[i] != names[j]
  }

  /** Every binding of the function is a fresh one. */
  predicate WellFormedDefinition(d: Definition) {
    && Distinct(d.parameters + d.captures)
    && WellFormed(BodyOf(d))
    && (forall b :: b in d.parameters + d.captures ==> b !in Defined(BodyOf(d)))
  }
}
