/** What an operation node compiles to and what it asks of the environment, operand by operand. */
module Operations {
  import opened Values
  import opened Instructions
  import opened ListMachine
  import opened SyntaxTree
  import opened Compiler

  /** The operand is the pooled literal. */
  predicate Pooled(s: Assembly, o: Operand, v: Value) {
    o.In? && o.vector.Literals? && o.index < |s.literals| && s.literals[o.index] == v
  }

  /** Void and undefined results are literals, all others are in a temporary that did not exist before. */
  predicate ResultIn(s: Assembly, s1: Assembly, kind: TypeKind, r: Operand) {
    match kind
    case VoidKind => Pooled(s1, r, Void) && s1.temporaries == s.temporaries
    case UndefinedKind => Pooled(s1, r, Null) && s1.temporaries == s.temporaries
    case EscapeKind => r == In(Locals, s.temporaries) && s1.temporaries == s.temporaries + 1
    case ValueKind => r == In(Locals, s.temporaries) && s1.temporaries == s.temporaries + 1
  }

  /** Behind so many operands that the opcode byte cannot count them. */
  predicate Announced(extension: seq<Item>, more: nat) {
    extension == if more < 16 then [] else [Instruction(COUNT_EXTENSION, [Count(more / 16)])]
  }

  lemma NodeIsEmitted(n: Node, s: Assembly, brk: Option<nat>, cont: Option<nat>, s0: Assembly, os: seq<Operand>)
    requires n.Operation? && CompileAll(n.parts, s, brk, cont) == Success((s0, os))
    ensures Compile(n, s, brk, cont) == Success(EmitOperation(s0, n.opcode, os, n.kind))
  {
    hide CompileAll, EmitOperation;
  }

  lemma TemporaryAndExtension(s: Assembly, kind: TypeKind, op: Opcode, operandCount: nat, more: nat,
                              extension: seq<Item>)
    requires Announced(extension, more)
    requires match ImplicitCount(op) case Some(k) => operandCount == more + k case None => more == 0
    ensures var (t, r) := NewTemporary(s, kind);
            ResultIn(s, t, kind, r) && EmitCountExtension(t, op, operandCount) == t.(items := s.items + extension)
  {
  }

  lemma ResultEmitted(s: Assembly, op: Opcode, os: seq<Operand>, kind: TypeKind, more: nat, extension: seq<Item>)
    requires DestinationCount(op) == 1 && Announced(extension, more)
    requires match ImplicitCount(op) case Some(k) => |os| + 1 == more + k case None => more == 0
    ensures var (s1, r) := EmitOperation(s, op, os, kind);
            && ResultIn(s, s1, kind, r)
            && s1.items == s.items + extension
               + [Instruction(op, [if IsCall(op) && kind.VoidKind? then Missing else r] + Arrange(op, os))]
               + if IsCall(op) && kind.EscapeKind? then [Instruction(UNREACHABLE, [])] else []
  {
    TemporaryAndExtension(s, kind, op, |os| + 1, more, extension);
    hide NewTemporary, EmitCountExtension, ImplicitCount, Announced, Arrange;
    var line := Instruction(op, [if IsCall(op) && kind.VoidKind? then Missing else NewTemporary(s, kind).1]
                                + Arrange(op, os));
    assert s.items + extension + [line] + [] == s.items + extension + [line];
  }

  lemma SelectorFirst(d: Operand, os: seq<Operand>)
    ensures |os| >= 2 ==> [d] + Arrange(SEND, os) == [d, os[1], os[0]] + os[2..]
    ensures |os| >= 3 ==> [d] + Arrange(SEND_WITH_LOOKUP, os) == [d, os[1], os[2], os[0]] + os[3..]
    ensures Arrange(CALL, os) == os && Arrange(UNCHECKED_CALL, os) == os
  {
  }

  /**
   A call, a send: receiver, selector and arguments are compiled in this order, but the selector (and the type for a
   lookup) come first in the instruction; void calls discard their result, and no code behind an escaping one is
   reached.
   */
  lemma CallIsCompiled(n: Node, s: Assembly, brk: Option<nat>, cont: Option<nat>, s0: Assembly, os: seq<Operand>)
    returns (s1: Assembly, r: Operand, d: Operand, extension: seq<Item>)
    requires n.Operation? && CompileAll(n.parts, s, brk, cont) == Success((s0, os))
    requires |os| >= (match n.opcode case CALL => 1 case UNCHECKED_CALL => 1 case SEND => 2 case _ => 3)
    requires n.opcode in {CALL, UNCHECKED_CALL, SEND, SEND_WITH_LOOKUP}
    ensures Compile(n, s, brk, cont) == Success((s1, r)) && ResultIn(s0, s1, n.kind, r)
    ensures d == if n.kind.VoidKind? then Missing else r
    ensures Announced(extension, if n.opcode == SEND then |os| - 2 else if n.opcode == SEND_WITH_LOOKUP then |os| - 3
                                 else |os| - 1)
    ensures s1.items == s0.items + extension
            + [Instruction(n.opcode, if n.opcode == SEND then [d, os[1], os[0]] + os[2..]
                                     else if n.opcode == SEND_WITH_LOOKUP then [d, os[1], os[2], os[0]] + os[3..]
                                     else [d] + os)]
            + if n.kind.EscapeKind? then [Instruction(UNREACHABLE, [])] else []
  {
    NodeIsEmitted(n, s, brk, cont, s0, os);
    hide Compile, CompileAll;
    s1, r := EmitOperation(s0, n.opcode, os, n.kind).0, EmitOperation(s0, n.opcode, os, n.kind).1;
    d := if n.kind.VoidKind? then Missing else r;
    var more := if n.opcode == SEND then |os| - 2 else if n.opcode == SEND_WITH_LOOKUP then |os| - 3 else |os| - 1;
    extension := if more < 16 then [] else [Instruction(COUNT_EXTENSION, [Count(more / 16)])];
    ResultEmitted(s0, n.opcode, os, n.kind, more, extension);
    hide EmitOperation, ResultIn, Announced, Arrange;
    SelectorFirst(d, os);
  }

  /** Constructors and conversions: a result, and the operands in the order of the parts. */
  lemma ResultIsCompiled(n: Node, s: Assembly, brk: Option<nat>, cont: Option<nat>, s0: Assembly, os: seq<Operand>)
    returns (s1: Assembly, r: Operand, extension: seq<Item>)
    requires n.Operation? && CompileAll(n.parts, s, brk, cont) == Success((s0, os))
    requires n.opcode == MAKE_CLOSURE_WITH_CAPTURES ==> |os| >= 1
    requires n.opcode in {LOAD, LOAD_SYMBOL_VALUE_BINDING, COERCE_VALUE, DOWNCAST_VALUE, UNCHECKED_DOWNCAST_VALUE,
                          MAKE_ASSOCIATION, SLOT_AT, SLOT_REFERENCE_AT, REF_SLOT_AT, REF_SLOT_REFERENCE_AT,
                          MAKE_ARRAY_WITH_ELEMENTS, MAKE_BYTE_ARRAY_WITH_ELEMENTS, MAKE_CLOSURE_WITH_CAPTURES,
                          MAKE_DICTIONARY_WITH_ELEMENTS}
    ensures Compile(n, s, brk, cont) == Success((s1, r)) && ResultIn(s0, s1, n.kind, r)
    ensures Announced(extension, if n.opcode == MAKE_CLOSURE_WITH_CAPTURES then |os| - 1
                                 else if n.opcode in {MAKE_ARRAY_WITH_ELEMENTS, MAKE_BYTE_ARRAY_WITH_ELEMENTS,
                                                      MAKE_DICTIONARY_WITH_ELEMENTS} then |os|
                                 else 0)
    ensures s1.items == s0.items + extension + [Instruction(n.opcode, [r] + os)]
  {
    NodeIsEmitted(n, s, brk, cont, s0, os);
    hide Compile, CompileAll;
    s1, r := EmitOperation(s0, n.opcode, os, n.kind).0, EmitOperation(s0, n.opcode, os, n.kind).1;
    var more := match n.opcode
      case MAKE_CLOSURE_WITH_CAPTURES => |os| - 1
      case MAKE_ARRAY_WITH_ELEMENTS => |os|
      case MAKE_BYTE_ARRAY_WITH_ELEMENTS => |os|
      case MAKE_DICTIONARY_WITH_ELEMENTS => |os|
      case _ => 0;
    extension := if more < 16 then [] else [Instruction(COUNT_EXTENSION, [Count(more / 16)])];
    ResultEmitted(s0, n.opcode, os, n.kind, more, extension);
    hide EmitOperation, ResultIn;
    var items := s0.items + extension + [Instruction(n.opcode, [r] + os)];
    assert items + [] == items;
  }

  /** Stores have no result of their own: the value of a pointer store is the pointer, of a slot store void. */
  lemma StoreIsCompiled(n: Node, s: Assembly, brk: Option<nat>, cont: Option<nat>, s0: Assembly, os: seq<Operand>)
    returns (s1: Assembly, r: Operand)
    requires n.Operation? && CompileAll(n.parts, s, brk, cont) == Success((s0, os)) && |os| >= 1
    requires n.opcode in {STORE, SLOT_AT_PUT, REF_SLOT_AT_PUT}
    ensures Compile(n, s, brk, cont) == Success((s1, r))
    ensures s1.items == s0.items + [Instruction(n.opcode, os)] && s1.temporaries == s0.temporaries
    ensures if n.opcode == STORE then r == os[0] else Pooled(s1, r, Void)
  {
    NodeIsEmitted(n, s, brk, cont, s0, os);
    hide Compile, CompileAll;
    s1, r := EmitOperation(s0, n.opcode, os, n.kind).0, EmitOperation(s0, n.opcode, os, n.kind).1;
  }

  // Evaluation.

  /** What a node asks of the environment: the values of its parts, those of sends with the selector in front. */
  lemma CallAsks(rt: Runtime, fuel: nat, n: Node, scope: Scope, heap: Heap, tape: Tape, out: Outcomes)
    requires n.Operation? && out == EvalAll(rt, fuel, n.parts, scope, heap, tape) && out.Values?
    requires |out.values| >= (match n.opcode case CALL => 1 case UNCHECKED_CALL => 1 case SEND => 2 case _ => 3)
    requires n.opcode in {CALL, UNCHECKED_CALL, SEND, SEND_WITH_LOOKUP}
    ensures var vs := out.values;
            var xs := if n.opcode == SEND then [vs[1], vs[0]] + vs[2..]
                      else if n.opcode == SEND_WITH_LOOKUP then [vs[1], vs[2], vs[0]] + vs[3..] else vs;
            Eval(rt, fuel, n, scope, heap, tape)
            == if !n.kind.UndefinedKind? && !n.kind.EscapeKind? && |out.tape| > 0 && out.tape[0].Replied?
                  && rt.allows(n.opcode, xs, out.heap, out.tape[0].value, out.tape[0].heap)
               then Normal(if n.kind.VoidKind? then Void else out.tape[0].value, out.scope, out.tape[0].heap,
                           out.tape[1..])
               else Faulted
  {
    hide EvalAll;
  }

  /** The same for constructors and conversions, whose result cannot be dropped. */
  lemma ResultAsks(rt: Runtime, fuel: nat, n: Node, scope: Scope, heap: Heap, tape: Tape, out: Outcomes)
    requires n.Operation? && out == EvalAll(rt, fuel, n.parts, scope, heap, tape) && out.Values?
    requires n.opcode in {LOAD_SYMBOL_VALUE_BINDING, COERCE_VALUE, DOWNCAST_VALUE, MAKE_ASSOCIATION,
                          MAKE_ARRAY_WITH_ELEMENTS, MAKE_BYTE_ARRAY_WITH_ELEMENTS, MAKE_CLOSURE_WITH_CAPTURES,
                          MAKE_DICTIONARY_WITH_ELEMENTS}
    ensures Eval(rt, fuel, n, scope, heap, tape)
            == if !n.kind.VoidKind? && !n.kind.UndefinedKind? && |out.tape| > 0 && out.tape[0].Replied?
                  && rt.allows(n.opcode, out.values, out.heap, out.tape[0].value, out.tape[0].heap)
               then Normal(out.tape[0].value, out.scope, out.tape[0].heap, out.tape[1..])
               else Faulted
  {
    hide EvalAll;
  }

  /** Slots of objects: a store changes one slot of one object, and a read gives what it holds. */
  lemma SlotNodes(rt: Runtime, fuel: nat, n: Node, scope: Scope, heap: Heap, tape: Tape, out: Outcomes, a: Address,
                  i: nat)
    requires n.Operation? && out == EvalAll(rt, fuel, n.parts, scope, heap, tape) && out.Values? && |out.values| >= 2
    requires out.values[0] == Object(a) && out.values[1] == TypeSlot(i) && a in out.heap && i < |out.heap[a]|
    ensures n.opcode == SLOT_AT && |out.values| == 2 && n.kind.ValueKind? ==>
              Eval(rt, fuel, n, scope, heap, tape) == Normal(out.heap[a][i], out.scope, out.heap, out.tape)
    ensures n.opcode == SLOT_AT_PUT && |out.values| == 3 ==>
              Eval(rt, fuel, n, scope, heap, tape)
              == Normal(Void, out.scope, out.heap[a := out.heap[a][i := out.values[2]]], out.tape)
  {
    hide EvalAll;
  }
}
