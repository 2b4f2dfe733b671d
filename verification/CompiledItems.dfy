/** What the compiler promises about the instructions themselves: operands in range and disciplined definitions. */
module CompiledItems {
  import opened Values
  import opened Instructions
  import opened SyntaxTree
  import opened Compiler
  import opened CompilerShape
  import opened Temporaries

  /** Operands are in range, and jumps have the operands they need. */
  ghost predicate ItemFits(s: Assembly, item: Item) {
    item.Instruction? ==>
      && (forall j :: 0 <= j < |item.operands| && item.operands[j].In? ==> ValidOperand(s, item.operands[j]))
      && (item.opcode.JUMP? ==> |item.operands| == 1)
      && (item.opcode.JUMP_IF_FALSE? || item.opcode.JUMP_IF_TRUE? ==> |item.operands| == 2 && item.operands[0].In?)
  }

  predicate Mentions(item: Item, o: Operand) {
    item.Instruction? && o in item.operands
  }

  /** An instruction computes its destination unless it is a move. */
  predicate Computes(item: Item, o: Operand) {
    Defines(item, o) && !item.opcode.MOVE? && o.In? && o.vector.Locals?
  }

  /** A computed temporary is not mentioned before, and not moved to later. */
  ghost predicate Disciplined(items: seq<Item>) {
    && (forall i, j, o :: 0 <= i < j < |items| && Computes(items[j], o) ==> !Mentions(items[i], o))
    && (forall i, j, o :: 0 <= i < j < |items| && Computes(items[i], o) ==> !Defines(items[j], o))
  }

  ghost predicate Tidy(s: Assembly) {
    (forall i :: 0 <= i < |s.items| ==> ItemFits(s, s.items[i])) && Disciplined(s.items)
  }

  /** Items behind s define only temporaries from k on. */
  ghost predicate NewFrom(k: nat, s: Assembly, s1: Assembly) {
    forall i, t: nat :: |s.items| <= i < |s1.items| && Defines(s1.items[i], In(Locals, t)) ==> t >= k
  }

  /** Compilation from s to s1 stays tidy and writes only temporaries from k on. */
  ghost predicate Neat(k: nat, s: Assembly, s1: Assembly) {
    Grown(s, s1) && Tidy(s1) && NewFrom(k, s, s1)
  }

  lemma NeatThrough(k: nat, l: nat, a: Assembly, b: Assembly, c: Assembly)
    requires Neat(k, a, b) && Neat(l, b, c) && k <= l
    ensures Neat(k, a, c)
  {
    hide Tidy, Defines;
    forall i, t: nat | |a.items| <= i < |c.items| && Defines(c.items[i], In(Locals, t)) ensures t >= k {
      if i < |b.items| { assert b.items[i] == c.items[i]; }
    }
  }

  lemma NeatAtRest(s: Assembly, k: nat)
    requires Tidy(s)
    ensures Neat(k, s, s)
  {
  }

  lemma TidyGrown(a: Assembly, b: Assembly, k: nat)
    requires Tidy(a) && Grown(a, b) && b.items == a.items
    ensures Neat(k, a, b)
  {
    hide Disciplined;
  }

  /** Instructions without a destination, and labels. */
  lemma EmitNeat(s: Assembly, item: Item, k: nat)
    requires Tidy(s) && ItemFits(s, item) && (item.Instruction? ==> DestinationCount(item.opcode) == 0)
    ensures Neat(k, s, Emit(s, item))
  {
    var s1 := Emit(s, item);
    forall i | 0 <= i < |s1.items| ensures ItemFits(s1, s1.items[i]) {
      if i < |s.items| { assert ItemFits(s, s.items[i]); }
    }
    assert forall o :: !Defines(item, o);
  }

  ghost predicate NeatNode(s: Assembly, r: Compiled) {
    r.Success? && Neat(s.temporaries, s, r.value.0)
  }

  ghost predicate NeatCode(k: nat, s: Assembly, r: Attempt<Assembly>) {
    r.Success? && Neat(k, s, r.value)
  }

  ghost predicate NeatAll(s: Assembly, r: Attempt<(Assembly, seq<Operand>)>) {
    r.Success? && Neat(s.temporaries, s, r.value.0)
  }

  /** No instruction computes the operand; it may be moved to. */
  ghost predicate NotComputed(s: Assembly, o: Operand) {
    forall i :: 0 <= i < |s.items| ==> !Computes(s.items[i], o)
  }

  lemma GrownFits(a: Assembly, b: Assembly, item: Item)
    requires Grown(a, b)
    ensures ItemFits(a, item) ==> ItemFits(b, item)
  {
  }

  /** An instruction whose destination is a fresh temporary, a constant or missing. */
  lemma EmitComputedNeat(s: Assembly, op: Opcode, os: seq<Operand>, k: nat)
    requires Tidy(s) && ItemFits(s, Instruction(op, os)) && DestinationCount(op) == 1 && |os| > 0
    requires os[0].In? && os[0].vector.Locals? ==>
               os[0].index >= k && forall i :: 0 <= i < |s.items| ==> !Mentions(s.items[i], os[0])
    ensures Neat(k, s, Emit(s, Instruction(op, os)))
  {
    hide ValidOperand;
    var item := Instruction(op, os);
    var s1 := Emit(s, item);
    assert Grown(s, s1);
    forall i | 0 <= i < |s1.items| ensures ItemFits(s1, s1.items[i]) {
      if i < |s.items| { assert ItemFits(s, s.items[i]) && s1.items[i] == s.items[i]; }
      GrownFits(s, s1, s1.items[i]);
    }
    assert forall x :: Defines(item, x) ==> x == os[0];
    assert forall i, x :: 0 <= i < |s.items| && Computes(s.items[i], x) ==> Mentions(s.items[i], x);
  }

  /** Adding a literal or a temporary emits nothing. */
  lemma AddLiteralNeat(s: Assembly, v: Value, k: nat)
    requires Tidy(s)
    ensures Neat(k, s, AddLiteral(s, v).0) && AddLiteral(s, v).0.items == s.items
    ensures ValidOperand(AddLiteral(s, v).0, AddLiteral(s, v).1)
  {
    hide Tidy;
    TidyGrown(s, AddLiteral(s, v).0, k);
  }

  lemma NewTemporaryNeat(s: Assembly, kind: TypeKind, k: nat)
    requires Tidy(s)
    ensures var (s1, r) := NewTemporary(s, kind);
            && Neat(k, s, s1) && s1.items == s.items && ValidOperand(s1, r)
            && (r.vector.Locals? ==> r == In(Locals, s.temporaries))
            && (forall i :: 0 <= i < |s1.items| && r.vector.Locals? ==> !Mentions(s1.items[i], r))
            && NotComputed(s1, r)
  {
    var (s1, r) := NewTemporary(s, kind);
    TidyGrown(s, s1, k);
    forall i | 0 <= i < |s.items| ensures !Mentions(s.items[i], In(Locals, s.temporaries)) {
      assert ItemFits(s, s.items[i]);
    }
  }

  /** A temporary that was not computed before, and that later code does not write, is still not computed. */
  lemma StillNotComputed(k: nat, s: Assembly, s1: Assembly, r: Operand)
    requires NotComputed(s, r) && Neat(k, s, s1)
    requires r.In? && (r.vector.Locals? ==> r.index < k)
    ensures NotComputed(s1, r)
  {
    hide Tidy;
    forall i | 0 <= i < |s1.items| ensures !Computes(s1.items[i], r) {
      if i < |s.items| { assert s1.items[i] == s.items[i]; }
    }
  }

  lemma CountExtensionNeat(s: Assembly, op: Opcode, count: nat, k: nat)
    requires Tidy(s)
    ensures Neat(k, s, EmitCountExtension(s, op, count))
    ensures forall o: Operand :: o.In? && (forall i :: 0 <= i < |s.items| ==> !Mentions(s.items[i], o)) ==>
              forall i :: 0 <= i < |EmitCountExtension(s, op, count).items| ==>
                  !Mentions(EmitCountExtension(s, op, count).items[i], o)
  {
    hide Tidy, Neat;
    NeatAtRest(s, k);
    var s1 := EmitCountExtension(s, op, count);
    if s1 != s { EmitNeat(s, s1.items[|s.items|], k); }
  }

  lemma AllValidGrown(a: Assembly, b: Assembly, os: seq<Operand>)
    requires Grown(a, b) && AllValid(a, os)
    ensures AllValid(b, os)
  {
  }

  /** Operations compute a fresh temporary, or nothing. */
  lemma EmitOperationNeat(s: Assembly, op: Opcode, os: seq<Operand>, kind: TypeKind)
    requires Tidy(s) && AllValid(s, os) && IsOperation(op)
    ensures Neat(s.temporaries, s, EmitOperation(s, op, os, kind).0)
  {
    hide Tidy, NewTemporary, EmitCountExtension, AddLiteral, Neat, Mentions;
    var k := s.temporaries;
    assert AllValid(s, Arrange(op, os));
    var args := Arrange(op, os);
    if DestinationCount(op) == 0 {
      var s0 := EmitCountExtension(s, op, |os|);
      CountExtensionNeat(s, op, |os|, k);
      NeatParts(k, s, s0);
      AllValidGrown(s, s0, args);
      assert ItemFits(s0, Instruction(op, args));
      EmitNeat(s0, Instruction(op, args), k);
      var s1 := Emit(s0, Instruction(op, args));
      NeatThrough(k, k, s, s0, s1);
      NeatParts(k, s, s1);
      AddLiteralNeat(s1, Void, k);
      NeatThrough(k, k, s, s1, AddLiteral(s1, Void).0);
    } else {
      EmitResultNeat(s, op, args, |os| + 1, kind);
    }
  }

  lemma NeatParts(k: nat, s: Assembly, s1: Assembly)
    requires Neat(k, s, s1)
    ensures Grown(s, s1) && Tidy(s1)
  {
  }

  lemma EmitResultNeat(s: Assembly, op: Opcode, args: seq<Operand>, count: nat, kind: TypeKind)
    requires Tidy(s) && AllValid(s, args) && IsOperation(op) && DestinationCount(op) != 0
    ensures var (s1, r) := NewTemporary(s, kind);
            var d := if IsCall(op) && kind.VoidKind? then Missing else r;
            var s2 := Emit(EmitCountExtension(s1, op, count), Instruction(op, [d] + args));
            && Neat(s.temporaries, s, s2) && Neat(s.temporaries, s, Emit(s2, Instruction(UNREACHABLE, [])))
  {
    hide Tidy, ValidOperand, NewTemporary, EmitCountExtension, Neat, AllValid, Mentions, IsCall;
    var k := s.temporaries;
    var (s1, r) := NewTemporary(s, kind);
    NewTemporaryNeat(s, kind, k);
    NeatParts(k, s, s1);
    var d := if IsCall(op) && kind.VoidKind? then Missing else r;
    var s0 := EmitCountExtension(s1, op, count);
    CountExtensionNeat(s1, op, count, k);
    NeatParts(k, s1, s0);
    NeatThrough(k, k, s, s1, s0);
    NeatParts(k, s, s0);
    AllValidGrown(s, s0, args);
    GrownOperand(s1, s0, r);
    assert ItemFits(s0, Instruction(op, [d] + args)) by {
      hide ValidOperand;
    }
    EmitComputedNeat(s0, op, [d] + args, k);
    var s2 := Emit(s0, Instruction(op, [d] + args));
    NeatThrough(k, k, s, s0, s2);
    NeatParts(k, s, s2);
    EmitNeat(s2, Instruction(UNREACHABLE, []), k);
    NeatThrough(k, k, s, s2, Emit(s2, Instruction(UNREACHABLE, [])));
  }

  lemma EmitAllocaNeat(s: Assembly, pointerType: Value, o: Operand)
    requires Tidy(s) && ValidOperand(s, o)
    ensures Neat(s.temporaries, s, EmitAlloca(s, pointerType, o).0)
  {
    hide Tidy, ValidOperand, NewTemporary, Neat, Mentions, AddLiteral;
    var k := s.temporaries;
    var (s1, d) := NewTemporary(s, ValueKind);
    NewTemporaryNeat(s, ValueKind, k);
    NeatParts(k, s, s1);
    var (s2, t) := AddLiteral(s1, pointerType);
    AddLiteralNeat(s1, pointerType, k);
    NeatParts(k, s1, s2);
    NeatThrough(k, k, s, s1, s2);
    GrownOperand(s1, s2, d);
    GrownOperand(s, s2, o);
    EmitComputedNeat(s2, ALLOCA_WITH_VALUE, [d, t, o], k);
    NeatThrough(k, k, s, s2, EmitAlloca(s, pointerType, o).0);
  }

  lemma JumpAndLabelNeat(s: Assembly, target: nat, l: nat, k: nat)
    requires Tidy(s)
    ensures Neat(k, s, EmitJumpAndLabel(s, target, l))
  {
    hide Tidy, Neat;
    var s1 := Emit(s, Instruction(JUMP, [To(target)]));
    EmitNeat(s, Instruction(JUMP, [To(target)]), k);
    NeatParts(k, s, s1);
    EmitNeat(s1, Label(l), k);
    NeatThrough(k, k, s, s1, Emit(s1, Label(l)));
  }

  // Every node.

  /** Code for a node is tidy and writes only temporaries that are created for it. */
  lemma {:induction false} CompileNeat(n: Node, s: Assembly, brk: Option<nat>, cont: Option<nat>, pending: set<nat>)
    requires WellFormed(n) && Valid(s, pending) && Tidy(s) && Compile(n, s, brk, cont).Success?
    ensures NeatNode(s, Compile(n, s, brk, cont))
    decreases n, 1
  {
    hide *;
    match n
    case Literal(_) => LeafNeat(n, s, brk, cont);
    case Reference(_) => LeafNeat(n, s, brk, cont);
    case Sequence(_) => SequenceNeat(n, s, brk, cont, pending);
    case Variable(_, _, _, _, _, _) => VariableNeat(n, s, brk, cont, pending);
    case Operation(_, _, _) => OperationNeat(n, s, brk, cont, pending);
    case If(_, _, _, _) => IfNeat(n, s, brk, cont, pending);
    case Switch(_, _, _, _, _) => SwitchNeat(n, s, brk, cont, pending);
    case While(_, _, _) => WhileNeat(n, s, brk, cont, pending);
    case DoWhile(_, _, _) => DoWhileNeat(n, s, brk, cont, pending);
    case Break => LeafNeat(n, s, brk, cont);
    case Continue => LeafNeat(n, s, brk, cont);
    case Return(_) => ReturnNeat(n, s, brk, cont, pending);
  }

  lemma LeafNeat(n: Node, s: Assembly, brk: Option<nat>, cont: Option<nat>)
    requires n.Literal? || n.Reference? || n.Break? || n.Continue?
    requires Tidy(s) && Compile(n, s, brk, cont).Success?
    ensures NeatNode(s, Compile(n, s, brk, cont))
  {
    hide Tidy, Neat, AddLiteral;
    var k := s.temporaries;
    if n.Literal? {
      AddLiteralNeat(s, n.value, k);
    } else if n.Reference? {
      NeatAtRest(s, k);
    } else {
      var l := if n.Break? then brk.value else cont.value;
      var s1 := Emit(s, Instruction(JUMP, [To(l)]));
      EmitNeat(s, Instruction(JUMP, [To(l)]), k);
      NeatParts(k, s, s1);
      AddLiteralNeat(s1, Void, k);
      NeatThrough(k, k, s, s1, AddLiteral(s1, Void).0);
    }
  }

  lemma {:induction false} SequenceNeat(n: Node, s: Assembly, brk: Option<nat>, cont: Option<nat>, pending: set<nat>)
    requires n.Sequence? && WellFormed(n) && Valid(s, pending) && Tidy(s) && Compile(n, s, brk, cont).Success?
    ensures NeatNode(s, Compile(n, s, brk, cont))
    decreases n, 0
  {
    hide Tidy, Neat, AddLiteral, Valid, CompileAll;
    var k := s.temporaries;
    CompileAllNeat(n.expressions, s, brk, cont, pending);
    var (s1, os) := CompileAll(n.expressions, s, brk, cont).value;
    NeatParts(k, s, s1);
    AddLiteralNeat(s1, Void, k);
    NeatThrough(k, k, s, s1, AddLiteral(s1, Void).0);
  }

  lemma {:induction false} VariableNeat(n: Node, s: Assembly, brk: Option<nat>, cont: Option<nat>, pending: set<nat>)
    requires n.Variable? && WellFormed(n) && Valid(s, pending) && Tidy(s) && Compile(n, s, brk, cont).Success?
    ensures NeatNode(s, Compile(n, s, brk, cont))
    decreases n, 0
  {
    hide EmitAlloca, Rebound;
    var k := s.temporaries;
    assert NeatNode(s, CompileOrNull(n.initial, s, brk, cont)) by {
      if n.initial.Some? { CompileNeat(n.initial.value, s, brk, cont, pending); } else {
        AddLiteralNeat(s, Null, s.temporaries);
      }
    }
    CompileOrNullShape(n.initial, s, brk, cont, pending);
    var (s1, o) := CompileOrNull(n.initial, s, brk, cont).value;
    NeatParts(k, s, s1);
    EmitAllocaNeat(s1, n.pointerType, o);
    AllocaShape(s1, n.pointerType, o, pending);
    NeatAtRest(s1, s1.temporaries);
    var (s2, v) := if n.isMutable then EmitAlloca(s1, n.pointerType, o) else (s1, o);
    NeatParts(s1.temporaries, s1, s2);
    NeatThrough(k, s1.temporaries, s, s1, s2);
    assert Neat(k, s2, EmitDebugValue(s2, n.isNamed, v, n.symbol)) by {
      NeatAtRest(s2, k);
      if n.isNamed {
        var (s1, l) := AddLiteral(s2, n.symbol);
        AddLiteralNeat(s2, n.symbol, k);
        NeatParts(k, s2, s1);
        GrownOperand(s2, s1, v);
        EmitNeat(s1, Instruction(SET_DEBUG_VALUE, [v, l]), k);
        NeatThrough(k, k, s2, s1, EmitDebugValue(s2, n.isNamed, v, n.symbol));
      }
    }
    var s3 := EmitDebugValue(s2, n.isNamed, v, n.symbol);
    NeatThrough(k, k, s, s2, s3);
    NeatParts(k, s, s3);
    TidyGrown(s3, s3.(bindings := s3.bindings[n.name := v]), k);
    NeatThrough(k, k, s, s3, s3.(bindings := s3.bindings[n.name := v]));
  }

  lemma {:induction false} OperationNeat(n: Node, s: Assembly, brk: Option<nat>, cont: Option<nat>, pending: set<nat>)
    requires n.Operation? && WellFormed(n) && Valid(s, pending) && Tidy(s) && Compile(n, s, brk, cont).Success?
    ensures NeatNode(s, Compile(n, s, brk, cont))
    decreases n, 0
  {
    hide Tidy, Neat, Valid, CompileAll, EmitOperation, ValidOperand, Rebound, AllValid, IsOperation;
    var k := s.temporaries;
    CompileAllNeat(n.parts, s, brk, cont, pending);
    CompileAllShape(n.parts, s, brk, cont, pending);
    var (s1, os) := CompileAll(n.parts, s, brk, cont).value;
    NeatParts(k, s, s1);
    EmitOperationNeat(s1, n.opcode, os, n.kind);
    NeatThrough(k, s1.temporaries, s, s1, EmitOperation(s1, n.opcode, os, n.kind).0);
  }

  lemma {:induction false} ReturnNeat(n: Node, s: Assembly, brk: Option<nat>, cont: Option<nat>, pending: set<nat>)
    requires n.Return? && WellFormed(n) && Valid(s, pending) && Tidy(s) && Compile(n, s, brk, cont).Success?
    ensures NeatNode(s, Compile(n, s, brk, cont))
    decreases n, 0
  {
    hide Tidy, Neat, Valid, ValidOperand, Rebound;
    var k := s.temporaries;
    CompileNeat(n.expression, s, brk, cont, pending);
    CompileShape(n.expression, s, brk, cont, pending);
    var (s1, o) := Compile(n.expression, s, brk, cont).value;
    NeatParts(k, s, s1);
    EmitNeat(s1, Instruction(RETURN, [o]), k);
    NeatThrough(k, k, s, s1, Emit(s1, Instruction(RETURN, [o])));
  }

  lemma {:induction false} CompileAllNeat(ns: seq<Node>, s: Assembly, brk: Option<nat>, cont: Option<nat>,
                                          pending: set<nat>)
    requires AllWellFormed(ns) && Valid(s, pending) && Tidy(s) && CompileAll(ns, s, brk, cont).Success?
    ensures NeatAll(s, CompileAll(ns, s, brk, cont))
    decreases ns, 0
  {
    hide Tidy, Neat, Valid, ValidOperand, Rebound, Compile;
    if ns == [] {
      NeatAtRest(s, s.temporaries);
    } else {
      CompileNeat(ns[0], s, brk, cont, pending);
      CompileShape(ns[0], s, brk, cont, pending);
      var (s1, o) := Compile(ns[0], s, brk, cont).value;
      NeatParts(s.temporaries, s, s1);
      CompileAllNeat(ns[1..], s1, brk, cont, pending);
      NeatThrough(s.temporaries, s1.temporaries, s, s1, CompileAll(ns[1..], s1, brk, cont).value.0);
    }
  }

  lemma {:induction false} CompileIfPresentNeat(n: Option<Node>, s: Assembly, brk: Option<nat>, cont: Option<nat>,
                                                pending: set<nat>)
    requires OptionWellFormed(n) && Valid(s, pending) && Tidy(s) && CompileIfPresent(n, s, brk, cont).Success?
    ensures NeatCode(s.temporaries, s, CompileIfPresent(n, s, brk, cont))
    decreases n, 2
  {
    hide Tidy, Neat, Valid;
    if n.Some? { CompileNeat(n.value, s, brk, cont, pending); } else { NeatAtRest(s, s.temporaries); }
  }

  lemma {:induction false} CompileGuardNeat(n: Option<Node>, s: Assembly, exit: nat, next: nat,
                                            brk: Option<nat>, cont: Option<nat>, pending: set<nat>)
    requires OptionWellFormed(n) && Valid(s, pending) && Tidy(s) && CompileGuard(n, s, exit, next, brk, cont).Success?
    ensures NeatCode(s.temporaries, s, CompileGuard(n, s, exit, next, brk, cont))
    decreases n, 2
  {
    hide Tidy, Neat, Valid, Rebound;
    var k := s.temporaries;
    if n.Some? {
      CompileNeat(n.value, s, brk, cont, pending);
      CompileShape(n.value, s, brk, cont, pending);
      var (s1, o) := Compile(n.value, s, brk, cont).value;
      NeatParts(k, s, s1);
      assert ItemFits(s1, Instruction(JUMP_IF_FALSE, [o, To(exit)]));
      EmitNeat(s1, Instruction(JUMP_IF_FALSE, [o, To(exit)]), k);
      NeatThrough(k, k, s, s1, Emit(s1, Instruction(JUMP_IF_FALSE, [o, To(exit)])));
    } else {
      EmitNeat(s, Instruction(JUMP, [To(next)]), k);
    }
  }

  lemma {:induction false} CompileLoopEndNeat(n: Option<Node>, s: Assembly, entry: nat, merge: nat,
                                              brk: Option<nat>, cont: Option<nat>, pending: set<nat>)
    requires OptionWellFormed(n) && Valid(s, pending) && Tidy(s)
             && CompileLoopEnd(n, s, entry, merge, brk, cont).Success?
    ensures NeatNode(s, CompileLoopEnd(n, s, entry, merge, brk, cont))
    decreases n, 3
  {
    hide Tidy, Neat, Valid, AddLiteral, EmitJumpAndLabel, CompileIfPresent;
    var k := s.temporaries;
    CompileIfPresentNeat(n, s, brk, cont, pending);
    var s1 := CompileIfPresent(n, s, brk, cont).value;
    NeatParts(k, s, s1);
    JumpAndLabelNeat(s1, entry, merge, k);
    var s2 := EmitJumpAndLabel(s1, entry, merge);
    NeatThrough(k, k, s, s1, s2);
    NeatParts(k, s, s2);
    AddLiteralNeat(s2, Void, k);
    NeatThrough(k, k, s, s2, AddLiteral(s2, Void).0);
  }

  /** A branch: its code and the move of its value to the merged temporary. */
  lemma {:induction false} BranchNeat(n: Option<Node>, s: Assembly, r: Operand, k: nat,
                                      brk: Option<nat>, cont: Option<nat>, pending: set<nat>)
    requires OptionWellFormed(n) && Valid(s, pending) && Tidy(s) && CompileOrNull(n, s, brk, cont).Success?
    requires ValidOperand(s, r) && NotComputed(s, r) && r.In? && (r.vector.Locals? ==> k <= r.index < s.temporaries)
    requires k <= s.temporaries
    ensures var (s1, o) := CompileOrNull(n, s, brk, cont).value;
            && Neat(k, s, EmitMove(s1, r, o)) && ValidOperand(EmitMove(s1, r, o), r)
               && NotComputed(EmitMove(s1, r, o), r)
            && s.temporaries <= EmitMove(s1, r, o).temporaries
    decreases n, 3
  {
    hide ValidOperand, Rebound, NotComputed;
    assert NeatNode(s, CompileOrNull(n, s, brk, cont)) by {
      if n.Some? { CompileNeat(n.value, s, brk, cont, pending); } else { AddLiteralNeat(s, Null, s.temporaries); }
    }
    CompileOrNullShape(n, s, brk, cont, pending);
    var (s1, o) := CompileOrNull(n, s, brk, cont).value;
    MergeNeat(s, s1, o, r, k);
  }

  /** Moving the value of a branch to the merged temporary. */
  lemma MergeNeat(s: Assembly, s1: Assembly, o: Operand, r: Operand, k: nat)
    requires Neat(s.temporaries, s, s1) && ValidOperand(s1, o)
    requires ValidOperand(s, r) && NotComputed(s, r) && r.In? && (r.vector.Locals? ==> k <= r.index < s.temporaries)
    requires k <= s.temporaries
    ensures Neat(k, s, EmitMove(s1, r, o)) && ValidOperand(EmitMove(s1, r, o), r) && NotComputed(EmitMove(s1, r, o), r)
    ensures s.temporaries <= EmitMove(s1, r, o).temporaries
  {
    NeatParts(s.temporaries, s, s1);
    GrownOperand(s, s1, r);
    StillNotComputed(s.temporaries, s, s1, r);
    assert Neat(k, s1, EmitMove(s1, r, o)) by {
      NeatAtRest(s1, k);
      if r.vector.Locals? {
        var s1' := EmitMove(s1, r, o);
        var item := Instruction(MOVE, [r, o]);
        assert Grown(s1, s1');
        forall i | 0 <= i < |s1'.items| ensures ItemFits(s1', s1'.items[i]) {
          if i < |s1.items| { assert ItemFits(s1, s1.items[i]) && s1'.items[i] == s1.items[i]; }
          GrownFits(s1, s1', s1'.items[i]);
        }
        assert forall x :: Defines(item, x) ==> x == r;
        assert forall x :: !Computes(item, x);
      }
    }
    WeakenNeat(s.temporaries, k, s, s1);
    NeatThrough(k, k, s, s1, EmitMove(s1, r, o));
    assert NotComputed(EmitMove(s1, r, o), r) && Grown(s1, EmitMove(s1, r, o));
    GrownOperand(s1, EmitMove(s1, r, o), r);
  }

  lemma WeakenNeat(l: nat, k: nat, s: Assembly, s1: Assembly)
    requires Neat(l, s, s1) && k <= l
    ensures Neat(k, s, s1)
  {
    hide Tidy;
  }

  lemma {:induction false} IfNeat(n: Node, s: Assembly, brk: Option<nat>, cont: Option<nat>, pending: set<nat>)
    requires n.If? && WellFormed(n) && Valid(s, pending) && Tidy(s) && Compile(n, s, brk, cont).Success?
    ensures NeatNode(s, Compile(n, s, brk, cont))
    decreases n, 0
  {
    hide Tidy, Neat, Valid, Rebound, NotComputed;
    hide NewTemporary, EmitMove, EmitJumpAndLabel, Compile, CompileOrNull;
    IfParts(n, s, brk, cont, pending);
    var k, all, rest := s.temporaries, pending + {s.labels, s.labels + 1}, pending + {s.labels + 1};
    var s0 := s.(labels := s.labels + 2);
    TidyGrown(s, s0, k);
    NeatParts(k, s, s0);
    CompileNeat(n.condition, s0, brk, cont, all);
    var (s1, o) := Compile(n.condition, s0, brk, cont).value;
    NeatThrough(k, k, s, s0, s1);
    NeatParts(k, s, s1);
    var j := Emit(s1, Instruction(JUMP_IF_FALSE, [o, To(s.labels)]));
    assert ItemFits(s1, Instruction(JUMP_IF_FALSE, [o, To(s.labels)]));
    EmitNeat(s1, Instruction(JUMP_IF_FALSE, [o, To(s.labels)]), k);
    NeatThrough(k, k, s, s1, j);
    NeatParts(k, s, j);
    MergedNeat(j, n.kind, k);
    var (s2, r) := NewTemporary(j, n.kind);
    NeatThrough(k, k, s, j, s2);
    NeatParts(k, s, s2);
    BranchNeat(n.whenTrue, s2, r, k, brk, cont, all);
    var (s3, t) := CompileOrNull(n.whenTrue, s2, brk, cont).value;
    var s3' := EmitMove(s3, r, t);
    NeatThrough(k, k, s, s2, s3');
    NeatParts(k, s, s3');
    var s4 := EmitJumpAndLabel(s3', s.labels + 1, s.labels);
    JumpAndLabelNeat(s3', s.labels + 1, s.labels, s3'.temporaries);
    WeakenNeat(s3'.temporaries, k, s3', s4);
    NeatThrough(k, k, s, s3', s4);
    NeatParts(k, s, s4);
    StillNotComputedMerge(s3', s4, r);
    BranchNeat(n.whenFalse, s4, r, k, brk, cont, rest);
    var (s5, f) := CompileOrNull(n.whenFalse, s4, brk, cont).value;
    var s5' := EmitMove(s5, r, f);
    NeatThrough(k, k, s, s4, s5');
    NeatParts(k, s, s5');
    EmitNeat(s5', Label(s.labels + 1), k);
    NeatThrough(k, k, s, s5', Emit(s5', Label(s.labels + 1)));
  }

  /** The temporary for a merged value is fresh. */
  lemma MergedNeat(s: Assembly, kind: TypeKind, k: nat)
    requires Tidy(s) && k <= s.temporaries
    ensures var (s1, r) := NewTemporary(s, kind);
            && Neat(k, s, s1) && ValidOperand(s1, r) && NotComputed(s1, r) && r.In?
            && (r.vector.Locals? ==> k <= r.index < s1.temporaries)
            && k <= s1.temporaries
  {
    hide Tidy, Neat;
    NewTemporaryNeat(s, kind, k);
  }

  lemma StillNotComputedMerge(s: Assembly, s1: Assembly, r: Operand)
    requires NotComputed(s, r) && ValidOperand(s, r) && Neat(s.temporaries, s, s1)
    ensures NotComputed(s1, r) && ValidOperand(s1, r) && s.temporaries <= s1.temporaries
  {
    hide Tidy, NotComputed;
    StillNotComputed(s.temporaries, s, s1, r);
  }

  lemma {:induction false} WhileNeat(n: Node, s: Assembly, brk: Option<nat>, cont: Option<nat>, pending: set<nat>)
    requires n.While? && WellFormed(n) && Valid(s, pending) && Tidy(s) && Compile(n, s, brk, cont).Success?
    ensures NeatNode(s, Compile(n, s, brk, cont))
    decreases n, 0
  {
    hide Tidy, Neat, Valid, ValidOperand, Rebound;
    hide Compile, CompileGuard, CompileIfPresent, CompileLoopEnd, EmitJumpAndLabel;
    var k, start, next, merge := s.temporaries, s.labels + 1, s.labels + 2, s.labels + 3;
    var p1, p2, p3 := pending + {start, next, merge}, pending + {next, merge}, pending + {merge};
    var s0, s1, s2, s3, s4, _ := WhileParts(n, s, brk, cont, pending);
    LoopStartNeat(s, k);
    NeatParts(k, s, s0);
    CompileGuardNeat(n.guard, s0, merge, start, brk, cont, p1);
    NeatThrough(k, s0.temporaries, s, s0, s1);
    NeatParts(k, s, s1);
    var s1' := Emit(s1, Label(start));
    EmitNeat(s1, Label(start), k);
    NeatThrough(k, k, s, s1, s1');
    NeatParts(k, s, s1');
    CompileIfPresentNeat(n.body, s1', Some(merge), Some(next), p2);
    NeatThrough(k, s1'.temporaries, s, s1', s2);
    NeatParts(k, s, s2);
    JumpAndLabelNeat(s2, next, next, k);
    NeatThrough(k, k, s, s2, s3);
    NeatParts(k, s, s3);
    CompileLoopEndNeat(n.step, s3, s.labels, merge, brk, cont, p3);
    NeatThrough(k, s3.temporaries, s, s3, s4);
  }

  lemma LoopStartNeat(s: Assembly, k: nat)
    requires Tidy(s)
    ensures Neat(k, s, Emit(s.(labels := s.labels + 4), Label(s.labels)))
  {
    hide Tidy, Neat;
    var s0 := s.(labels := s.labels + 4);
    TidyGrown(s, s0, k);
    NeatParts(k, s, s0);
    EmitNeat(s0, Label(s.labels), k);
    NeatThrough(k, k, s, s0, Emit(s0, Label(s.labels)));
  }

  lemma {:induction false} DoWhileNeat(n: Node, s: Assembly, brk: Option<nat>, cont: Option<nat>, pending: set<nat>)
    requires n.DoWhile? && WellFormed(n) && Valid(s, pending) && Tidy(s) && Compile(n, s, brk, cont).Success?
    ensures NeatNode(s, Compile(n, s, brk, cont))
    decreases n, 0
  {
    hide Tidy, Neat, Valid, ValidOperand, Rebound;
    hide Compile, CompileGuard, CompileIfPresent, CompileLoopEnd, EmitJumpAndLabel;
    var k, condition, next, merge := s.temporaries, s.labels + 1, s.labels + 2, s.labels + 3;
    var p1, p2, p3 := pending + {condition, next, merge}, pending + {next, merge}, pending + {merge};
    var s0, s1, s2, s3, s4, _ := DoWhileParts(n, s, brk, cont, pending);
    LoopStartNeat(s, k);
    NeatParts(k, s, s0);
    CompileIfPresentNeat(n.body, s0, Some(merge), Some(condition), p1);
    NeatThrough(k, s0.temporaries, s, s0, s1);
    NeatParts(k, s, s1);
    JumpAndLabelNeat(s1, condition, condition, k);
    NeatThrough(k, k, s, s1, s2);
    NeatParts(k, s, s2);
    CompileGuardNeat(n.guard, s2, merge, next, brk, cont, p2);
    NeatThrough(k, s2.temporaries, s, s2, s3);
    NeatParts(k, s, s3);
    var s3' := Emit(s3, Label(next));
    EmitNeat(s3, Label(next), k);
    NeatThrough(k, k, s, s3, s3');
    NeatParts(k, s, s3');
    CompileLoopEndNeat(n.step, s3', s.labels, merge, brk, cont, p3);
    NeatThrough(k, s3'.temporaries, s, s3', s4);
  }

  lemma CaseJumpNeat(s: Assembly, o: Operand, ks: seq<Operand>, k: nat)
    requires Tidy(s) && ValidOperand(s, o) && AllValid(s, ks)
    ensures Neat(k, s, EmitCaseJump(s, o, ks))
  {
    hide Tidy, Neat, ValidOperand, AllValid, EmitCountExtension, Displacements;
    var s0 := s.(labels := s.labels + |ks| + 2);
    TidyGrown(s, s0, k);
    NeatParts(k, s, s0);
    CountExtensionNeat(s0, CASE_JUMP, 2 + |ks|, k);
    var s1 := EmitCountExtension(s0, CASE_JUMP, 2 + |ks|);
    NeatThrough(k, k, s, s0, s1);
    NeatParts(k, s, s1);
    GrownOperand(s, s1, o);
    AllValidGrown(s, s1, ks);
    var os := Displacements(s.labels, |ks| + 1);
    assert ItemFits(s1, Instruction(CASE_JUMP, [o] + ks + os)) by {
      hide ValidOperand;
      var all := [o] + ks + os;
      assert forall j :: 1 + |ks| <= j < |all| ==> all[j] == os[j - 1 - |ks|];
      forall j | 0 <= j < |all| && all[j].In? ensures ValidOperand(s1, all[j]) {
        assert j < 1 + |ks|;
        assert all[j] == if j == 0 then o else ks[j - 1];
      }
    }
    EmitNeat(s1, Instruction(CASE_JUMP, [o] + ks + os), k);
    NeatThrough(k, k, s, s1, EmitCaseJump(s, o, ks));
  }

  lemma {:induction false} SwitchNeat(n: Node, s: Assembly, brk: Option<nat>, cont: Option<nat>, pending: set<nat>)
    requires n.Switch? && WellFormed(n) && Valid(s, pending) && Tidy(s) && Compile(n, s, brk, cont).Success?
    ensures NeatNode(s, Compile(n, s, brk, cont))
    decreases n, 0
  {
    hide Tidy, Neat, Valid, ValidOperand, Rebound, NotComputed, Compile, CompileAll, AllValid, LabelRange;
    hide CompileBodies, CompileDefault, EmitCaseJump, NewTemporary;
    var k := s.temporaries;
    var s1, o, s2, ks, s3, r, s4, s5 := SwitchParts(n, s, brk, cont, pending);
    var all := pending + LabelRange(s2.labels, |ks| + 2);
    CompileNeat(n.scrutinee, s, brk, cont, pending);
    NeatParts(k, s, s1);
    CompileAllNeat(n.keys, s1, brk, cont, pending);
    NeatThrough(k, s1.temporaries, s, s1, s2);
    NeatParts(k, s, s2);
    GrownOperand(s1, s2, o);
    CaseJumpNeat(s2, o, ks, k);
    var s2' := EmitCaseJump(s2, o, ks);
    NeatThrough(k, k, s, s2, s2');
    NeatParts(k, s, s2');
    MergedNeat(s2', n.kind, k);
    NeatThrough(k, k, s, s2', s3);
    NeatParts(k, s, s3);
    CompileBodiesNeat(n.bodies, s3, s2.labels, s2.labels + |ks| + 1, r, k, brk, cont, all);
    NeatThrough(k, k, s, s3, s4);
    NeatParts(k, s, s4);
    CompileBodiesShape(n.bodies, s3, s2.labels, s2.labels + |ks| + 1, r, brk, cont, all);
    var rest := all - LabelRange(s2.labels, |ks|);
    assert s2.labels + |ks| in rest;
    CompileDefaultNeat(n.whenNone, s4, s2.labels + |ks|, s2.labels + |ks| + 1, r, k, brk, cont, rest);
    NeatThrough(k, k, s, s4, s5);
  }

  lemma {:induction false} CompileBodiesNeat(ns: seq<Node>, s: Assembly, first: nat, merge: nat, r: Operand, k: nat,
                                             brk: Option<nat>, cont: Option<nat>, pending: set<nat>)
    requires AllWellFormed(ns) && Valid(s, pending) && Tidy(s)
             && CompileBodies(ns, s, first, merge, r, brk, cont).Success?
    requires LabelRange(first, |ns|) <= pending && k <= s.temporaries
    requires ValidOperand(s, r) && NotComputed(s, r) && r.In? && (r.vector.Locals? ==> k <= r.index < s.temporaries)
    ensures var s1 := CompileBodies(ns, s, first, merge, r, brk, cont).value;
            Neat(k, s, s1) && ValidOperand(s1, r) && NotComputed(s1, r) && s.temporaries <= s1.temporaries
    decreases ns, 0
  {
    hide Tidy, Neat, Valid, ValidOperand, Rebound, NotComputed, Compile, EmitMove;
    if ns == [] {
      NeatAtRest(s, k);
    } else {
      assert first in LabelRange(first, |ns|);
      var s0 := Emit(s, Label(first));
      PlaceShape(s, first, pending);
      EmitNeat(s, Label(first), s.temporaries);
      NeatParts(s.temporaries, s, s0);
      StillNotComputedMerge(s, s0, r);
      WeakenNeat(s.temporaries, k, s, s0);
      CompileNeat(ns[0], s0, brk, cont, pending - {first});
      CompileShape(ns[0], s0, brk, cont, pending - {first});
      var (s1, o) := Compile(ns[0], s0, brk, cont).value;
      MergeNeat(s0, s1, o, r, k);
      EmitMoveShape(s1, r, o, pending - {first});
      var s1' := EmitMove(s1, r, o);
      NeatThrough(k, k, s, s0, s1');
      NeatParts(k, s, s1');
      var jump := Instruction(JUMP, [To(merge)]);
      EmitNeat(s1', jump, s1'.temporaries);
      EmitShape(s1', JUMP, [To(merge)], pending - {first});
      var s2 := Emit(s1', jump);
      StillNotComputedMerge(s1', s2, r);
      WeakenNeat(s1'.temporaries, k, s1', s2);
      NeatThrough(k, k, s, s1', s2);
      NeatParts(k, s, s2);
      CompileBodiesNeat(ns[1..], s2, first + 1, merge, r, k, brk, cont, pending - {first});
      NeatThrough(k, k, s, s2, CompileBodies(ns, s, first, merge, r, brk, cont).value);
    }
  }

  lemma {:induction false} CompileDefaultNeat(n: Option<Node>, s: Assembly, otherwise: nat, merge: nat, r: Operand,
                                              k: nat, brk: Option<nat>, cont: Option<nat>, pending: set<nat>)
    requires OptionWellFormed(n) && Valid(s, pending) && Tidy(s) && otherwise in pending
    requires CompileDefault(n, s, otherwise, merge, r, brk, cont).Success? && k <= s.temporaries
    requires ValidOperand(s, r) && NotComputed(s, r) && r.In? && (r.vector.Locals? ==> k <= r.index < s.temporaries)
    ensures NeatCode(k, s, CompileDefault(n, s, otherwise, merge, r, brk, cont))
    decreases n, 4
  {
    hide Tidy, Neat, Valid, ValidOperand, Rebound, NotComputed, CompileOrNull, EmitMove;
    var s0 := Emit(s, Label(otherwise));
    PlaceShape(s, otherwise, pending);
    EmitNeat(s, Label(otherwise), s.temporaries);
    NeatParts(s.temporaries, s, s0);
    StillNotComputedMerge(s, s0, r);
    WeakenNeat(s.temporaries, k, s, s0);
    BranchNeat(n, s0, r, k, brk, cont, pending - {otherwise});
    var (s1, o) := CompileOrNull(n, s0, brk, cont).value;
    var s2 := EmitMove(s1, r, o);
    NeatThrough(k, k, s, s0, s2);
    NeatParts(k, s, s2);
    EmitNeat(s2, Label(merge), k);
    NeatThrough(k, k, s, s2, Emit(s2, Label(merge)));
  }

  // Whole function definitions.

  lemma CompiledTidy(d: Definition)
    requires WellFormedDefinition(d) && CompileDefinition(d).Success?
    ensures Tidy(CompileDefinition(d).value) && UniqueLabels(CompileDefinition(d).value.items)
  {
    hide Compile, WellFormed, Rebound, ValidOperand;
    var s0 := Start(d);
    StartValid(d);
    assert Tidy(Start(d));
    CompileShape(BodyOf(d), s0, None, None, {});
    CompileNeat(BodyOf(d), s0, None, None, {});
    var (s1, o) := Compile(BodyOf(d), s0, None, None).value;
    NeatParts(s0.temporaries, s0, s1);
    EmitNeat(s1, Instruction(RETURN, [o]), 0);
    NeatParts(0, s1, Emit(s1, Instruction(RETURN, [o])));
    EmitShape(s1, RETURN, [o], {});
    assert UniqueLabels(Emit(s1, Instruction(RETURN, [o])).items);
  }
}
