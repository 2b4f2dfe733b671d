/** Every jump of a compiled list leads to a label of the list. */
module CompiledJumps {
  import opened Values
  import opened Instructions
  import opened SyntaxTree
  import opened Compiler
  import opened CompilerShape

  /** All displacement operands of the item are labels: placed in the list, or still open. */
  predicate Aimed(item: Item, items: seq<Item>, open: set<nat>) {
    item.Instruction? ==>
      var os, count := item.operands, OffsetCount(item.opcode, |item.operands|);
      && count <= |os|
      && forall j :: |os| - count <= j < |os| ==> os[j].To? && (os[j].target in open || Label(os[j].target) in items)
  }

  /** The opcode byte of the item cannot count its operands. */
  predicate Long(item: Item) {
    item.Instruction? && VariableItems(item.opcode, |item.operands|) >= 16
  }

  predicate Extends(extension: Item, item: Item) {
    && Long(item)
    && extension == Instruction(COUNT_EXTENSION, [Count(VariableItems(item.opcode, |item.operands|) / 16)])
  }

  /** In front of each long item, and nowhere else, stands the extension of its operand count. */
  ghost predicate WellExtended(items: seq<Item>) {
    && (forall i :: 0 <= i < |items| && Long(items[i]) ==> i > 0 && Extends(items[i - 1], items[i]))
    && (forall i :: 0 <= i < |items| && items[i].Instruction? && items[i].opcode.COUNT_EXTENSION? ==>
          i + 1 < |items| && Extends(items[i], items[i + 1]))
  }

  ghost predicate AllAimed(s: Assembly, open: set<nat>) {
    WellExtended(s.items) && forall i :: 0 <= i < |s.items| ==> Aimed(s.items[i], s.items, open)
  }

  /** The list only gets longer, and all its jumps are aimed. */
  ghost predicate Goes(s: Assembly, s1: Assembly, open: set<nat>) {
    AllAimed(s1, open) && s.items <= s1.items
  }

  ghost predicate GoesOn(s: Assembly, r: Compiled, open: set<nat>) {
    r.Success? && Goes(s, r.value.0, open)
  }

  ghost predicate CodeGoesOn(s: Assembly, r: Attempt<Assembly>, open: set<nat>) {
    r.Success? && Goes(s, r.value, open)
  }

  ghost predicate AllGoOn(s: Assembly, r: Attempt<(Assembly, seq<Operand>)>, open: set<nat>) {
    r.Success? && Goes(s, r.value.0, open)
  }

  ghost predicate IsOpen(open: set<nat>, exit: Option<nat>) {
    exit.Some? ==> exit.value in open
  }

  lemma Weaken(s: Assembly, open: set<nat>, more: set<nat>)
    requires AllAimed(s, open) && open <= more
    ensures AllAimed(s, more)
  {
  }

  lemma ShortExtended(items: seq<Item>, item: Item)
    requires WellExtended(items) && !Long(item) && (item.Instruction? ==> !item.opcode.COUNT_EXTENSION?)
    ensures WellExtended(items + [item])
  {
    hide Long;
    var all := items + [item];
    forall i | 0 <= i < |items| ensures all[i] == items[i] {}
  }

  lemma EmitAimed(s: Assembly, item: Item, open: set<nat>)
    requires AllAimed(s, open) && Aimed(item, s.items, open) && !Long(item)
    requires item.Instruction? ==> !item.opcode.COUNT_EXTENSION?
    ensures Goes(s, Emit(s, item), open)
  {
    var s1 := Emit(s, item);
    ShortExtended(s.items, item);
    hide WellExtended;
    forall i | 0 <= i < |s1.items| ensures Aimed(s1.items[i], s1.items, open) {
      assert forall x :: x in s.items ==> x in s1.items;
    }
  }

  /** Placing a label closes it. */
  lemma PlaceAimed(s: Assembly, l: nat, open: set<nat>)
    requires AllAimed(s, open + {l})
    ensures Goes(s, Emit(s, Label(l)), open)
  {
    var s1 := Emit(s, Label(l));
    ShortExtended(s.items, Label(l));
    hide WellExtended;
    forall i | 0 <= i < |s1.items| ensures Aimed(s1.items[i], s1.items, open) {
      if i < |s.items| {
        assert Aimed(s.items[i], s.items, open + {l});
        assert s1.items[|s.items|] == Label(l) && forall x :: x in s.items ==> x in s1.items;
      }
    }
  }

  lemma JumpAimed(s: Assembly, l: nat, open: set<nat>)
    requires AllAimed(s, open) && l in open
    ensures Goes(s, Emit(s, Instruction(JUMP, [To(l)])), open)
  {
    hide AllAimed;
    EmitAimed(s, Instruction(JUMP, [To(l)]), open);
  }

  lemma JumpAndLabelAimed(s: Assembly, target: nat, l: nat, open: set<nat>)
    requires AllAimed(s, open + {l}) && target in open + {l}
    ensures Goes(s, EmitJumpAndLabel(s, target, l), open)
  {
    hide AllAimed;
    JumpAimed(s, target, open + {l});
    PlaceAimed(Emit(s, Instruction(JUMP, [To(target)])), l, open);
  }

  lemma PlainAimed(s: Assembly, op: Opcode, os: seq<Operand>, open: set<nat>)
    requires AllAimed(s, open) && !IsJump(op) && ImplicitCount(op).None? && !op.COUNT_EXTENSION?
    ensures Goes(s, Emit(s, Instruction(op, os)), open)
  {
    hide AllAimed;
    EmitAimed(s, Instruction(op, os), open);
  }

  lemma SameItemsAimed(s: Assembly, s1: Assembly, open: set<nat>)
    requires AllAimed(s, open) && s1.items == s.items
    ensures Goes(s, s1, open)
  {
  }

  lemma MoveAimed(s: Assembly, r: Operand, o: Operand, open: set<nat>)
    requires AllAimed(s, open)
    ensures Goes(s, EmitMove(s, r, o), open)
  {
    hide AllAimed;
    PlainAimed(s, MOVE, [r, o], open);
  }

  /** An item behind the extension that it needs, if it needs one. */
  lemma ExtendedAimed(s: Assembly, op: Opcode, count: nat, os: seq<Operand>, open: set<nat>)
    requires AllAimed(s, open) && Aimed(Instruction(op, os), s.items, open) && !op.COUNT_EXTENSION?
    requires count == if op.CASE_JUMP? then 1 + |os| / 2 else |os|
    ensures Goes(s, Emit(EmitCountExtension(s, op, count), Instruction(op, os)), open)
  {
    var item := Instruction(op, os);
    var s1 := Emit(EmitCountExtension(s, op, count), item);
    if EmitCountExtension(s, op, count) == s {
      assert !Long(item);
      hide AllAimed, Aimed;
      EmitAimed(s, item, open);
    } else {
      var extension := Instruction(COUNT_EXTENSION, [Count(VariableItems(op, |os|) / 16)]);
      assert Extends(extension, item) && s1.items == s.items + [extension, item];
      LongExtended(s.items, extension, item);
      hide WellExtended, EmitCountExtension, Extends;
      forall i | 0 <= i < |s1.items| ensures Aimed(s1.items[i], s1.items, open) {
        assert forall x :: x in s.items ==> x in s1.items;
      }
    }
  }

  lemma LongExtended(items: seq<Item>, extension: Item, item: Item)
    requires WellExtended(items) && Extends(extension, item) && !item.opcode.COUNT_EXTENSION?
    ensures WellExtended(items + [extension, item])
  {
    var all := items + [extension, item];
    assert !Long(extension);
    hide Long;
    forall i | 0 <= i < |items| ensures all[i] == items[i] {}
  }

  lemma LiteralAimed(s: Assembly, v: Value, open: set<nat>)
    requires AllAimed(s, open)
    ensures Goes(s, AddLiteral(s, v).0, open)
  {
    hide AllAimed;
    SameItemsAimed(s, AddLiteral(s, v).0, open);
  }

  lemma TemporaryAimed(s: Assembly, kind: TypeKind, open: set<nat>)
    requires AllAimed(s, open)
    ensures Goes(s, NewTemporary(s, kind).0, open)
  {
    hide AllAimed;
    SameItemsAimed(s, NewTemporary(s, kind).0, open);
  }

  lemma OperationAimed(s: Assembly, op: Opcode, os: seq<Operand>, kind: TypeKind, open: set<nat>)
    requires AllAimed(s, open) && IsOperation(op)
    ensures Goes(s, EmitOperation(s, op, os, kind).0, open)
  {
    hide AllAimed, NewTemporary, EmitCountExtension, Arrange, AddLiteral;
    if DestinationCount(op) == 0 {
      ExtendedAimed(s, op, |os|, Arrange(op, os), open);
      LiteralAimed(Emit(EmitCountExtension(s, op, |os|), Instruction(op, Arrange(op, os))), Void, open);
    } else {
      var (s1, r) := NewTemporary(s, kind);
      var d := if IsCall(op) && kind.VoidKind? then Missing else r;
      TemporaryAimed(s, kind, open);
      var s0 := EmitCountExtension(s1, op, |os| + 1);
      ExtendedAimed(s1, op, |os| + 1, [d] + Arrange(op, os), open);
      PlainAimed(Emit(s0, Instruction(op, [d] + Arrange(op, os))), UNREACHABLE, [], open);
    }
  }

  // Every node.

  lemma {:induction false} NodeAimed(n: Node, s: Assembly, brk: Option<nat>, cont: Option<nat>, open: set<nat>)
    requires WellFormed(n) && Compile(n, s, brk, cont).Success? && AllAimed(s, open) && IsOpen(open, brk)
             && IsOpen(open, cont)
    ensures GoesOn(s, Compile(n, s, brk, cont), open)
    decreases n, 1
  {
    hide AllAimed, AddLiteral, NewTemporary, EmitMove, EmitJumpAndLabel;
    hide EmitOperation, EmitCaseJump, CompileBodies, CompileDefault;
    match n
    case Literal(v) => LiteralAimed(s, v, open);
    case Reference(_) =>
    case Sequence(es) =>
      AllNodesAimed(es, s, brk, cont, open);
      LiteralAimed(CompileAll(es, s, brk, cont).value.0, Void, open);
    case Variable(_, _, _, _, _, _) => VariableAimed(n, s, brk, cont, open);
    case Operation(op, parts, kind) =>
      AllNodesAimed(parts, s, brk, cont, open);
      var (s1, os) := CompileAll(parts, s, brk, cont).value;
      OperationAimed(s1, op, os, kind, open);
    case If(_, _, _, _) => IfAimed(n, s, brk, cont, open);
    case Switch(_, _, _, _, _) => SwitchAimed(n, s, brk, cont, open);
    case While(_, _, _) => WhileAimed(n, s, brk, cont, open);
    case DoWhile(_, _, _) => DoWhileAimed(n, s, brk, cont, open);
    case Break =>
      JumpAimed(s, brk.value, open);
      LiteralAimed(Emit(s, Instruction(JUMP, [To(brk.value)])), Void, open);
    case Continue =>
      JumpAimed(s, cont.value, open);
      LiteralAimed(Emit(s, Instruction(JUMP, [To(cont.value)])), Void, open);
    case Return(e) =>
      NodeAimed(e, s, brk, cont, open);
      var (s1, o) := Compile(e, s, brk, cont).value;
      PlainAimed(s1, RETURN, [o], open);
  }

  lemma {:induction false} AllNodesAimed(ns: seq<Node>, s: Assembly, brk: Option<nat>, cont: Option<nat>,
                                         open: set<nat>)
    requires AllWellFormed(ns) && CompileAll(ns, s, brk, cont).Success?
    requires AllAimed(s, open) && IsOpen(open, brk) && IsOpen(open, cont)
    ensures AllGoOn(s, CompileAll(ns, s, brk, cont), open)
    decreases ns, 0
  {
    hide AllAimed, Compile;
    if ns != [] {
      NodeAimed(ns[0], s, brk, cont, open);
      AllNodesAimed(ns[1..], Compile(ns[0], s, brk, cont).value.0, brk, cont, open);
    }
  }

  lemma {:induction false} OptionAimed(n: Option<Node>, s: Assembly, brk: Option<nat>, cont: Option<nat>,
                                       open: set<nat>)
    requires OptionWellFormed(n) && AllAimed(s, open) && IsOpen(open, brk) && IsOpen(open, cont)
    ensures CompileOrNull(n, s, brk, cont).Success? ==> GoesOn(s, CompileOrNull(n, s, brk, cont), open)
    ensures CompileIfPresent(n, s, brk, cont).Success? ==> CodeGoesOn(s, CompileIfPresent(n, s, brk, cont), open)
    decreases n, 2
  {
    hide AllAimed, Compile, AddLiteral;
    if n.Some? {
      if Compile(n.value, s, brk, cont).Success? { NodeAimed(n.value, s, brk, cont, open); }
    } else {
      LiteralAimed(s, Null, open);
    }
  }

  lemma {:induction false} VariableAimed(n: Node, s: Assembly, brk: Option<nat>, cont: Option<nat>, open: set<nat>)
    requires n.Variable? && WellFormed(n) && Compile(n, s, brk, cont).Success?
    requires AllAimed(s, open) && IsOpen(open, brk) && IsOpen(open, cont)
    ensures GoesOn(s, Compile(n, s, brk, cont), open)
    decreases n, 0
  {
    hide AllAimed, AddLiteral, NewTemporary, CompileOrNull;
    OptionAimed(n.initial, s, brk, cont, open);
    var (s1, o) := CompileOrNull(n.initial, s, brk, cont).value;
    var s2, v := s1, o;
    if n.isMutable {
      var (s0, d) := NewTemporary(s1, ValueKind);
      TemporaryAimed(s1, ValueKind, open);
      LiteralAimed(s0, n.pointerType, open);
      var (s0', t) := AddLiteral(s0, n.pointerType);
      PlainAimed(s0', ALLOCA_WITH_VALUE, [d, t, o], open);
      s2, v := Emit(s0', Instruction(ALLOCA_WITH_VALUE, [d, t, o])), d;
    }
    var s3 := EmitDebugValue(s2, n.isNamed, v, n.symbol);
    if n.isNamed {
      LiteralAimed(s2, n.symbol, open);
      var (s0, l) := AddLiteral(s2, n.symbol);
      PlainAimed(s0, SET_DEBUG_VALUE, [v, l], open);
    }
    SameItemsAimed(s3, s3.(bindings := s3.bindings[n.name := v]), open);
  }

  lemma {:induction false} IfAimed(n: Node, s: Assembly, brk: Option<nat>, cont: Option<nat>, open: set<nat>)
    requires n.If? && WellFormed(n) && Compile(n, s, brk, cont).Success?
    requires AllAimed(s, open) && IsOpen(open, brk) && IsOpen(open, cont)
    ensures GoesOn(s, Compile(n, s, brk, cont), open)
    decreases n, 0
  {
    hide AllAimed, NewTemporary, EmitMove, EmitJumpAndLabel, CompileOrNull;
    var otherwise, merge := s.labels, s.labels + 1;
    var rest, all := open + {merge}, open + {merge} + {otherwise};
    var s0 := s.(labels := s.labels + 2);
    SameItemsAimed(s, s0, open);
    Weaken(s0, open, all);
    NodeAimed(n.condition, s0, brk, cont, all);
    var (s1, o) := Compile(n.condition, s0, brk, cont).value;
    assert Goes(s1, Emit(s1, Instruction(JUMP_IF_FALSE, [o, To(otherwise)])), all) by {
      hide AllAimed;
      EmitAimed(s1, Instruction(JUMP_IF_FALSE, [o, To(otherwise)]), all);
    }
    var j := Emit(s1, Instruction(JUMP_IF_FALSE, [o, To(otherwise)]));
    TemporaryAimed(j, n.kind, all);
    var (s2, r) := NewTemporary(j, n.kind);
    OptionAimed(n.whenTrue, s2, brk, cont, all);
    var (s3, t) := CompileOrNull(n.whenTrue, s2, brk, cont).value;
    MoveAimed(s3, r, t, all);
    JumpAndLabelAimed(EmitMove(s3, r, t), merge, otherwise, rest);
    var s4 := EmitJumpAndLabel(EmitMove(s3, r, t), merge, otherwise);
    OptionAimed(n.whenFalse, s4, brk, cont, rest);
    var (s5, f) := CompileOrNull(n.whenFalse, s4, brk, cont).value;
    MoveAimed(s5, r, f, rest);
    PlaceAimed(EmitMove(s5, r, f), merge, open);
  }

  lemma {:induction false} GuardAimed(n: Option<Node>, s: Assembly, exit: nat, next: nat, brk: Option<nat>,
                                      cont: Option<nat>, open: set<nat>)
    requires OptionWellFormed(n) && CompileGuard(n, s, exit, next, brk, cont).Success?
    requires AllAimed(s, open) && IsOpen(open, brk) && IsOpen(open, cont) && exit in open && next in open
    ensures CodeGoesOn(s, CompileGuard(n, s, exit, next, brk, cont), open)
    decreases n, 2
  {
    hide AllAimed, Compile;
    if n.Some? {
      NodeAimed(n.value, s, brk, cont, open);
      var (s1, o) := Compile(n.value, s, brk, cont).value;
      assert Goes(s1, Emit(s1, Instruction(JUMP_IF_FALSE, [o, To(exit)])), open) by {
        hide AllAimed;
        EmitAimed(s1, Instruction(JUMP_IF_FALSE, [o, To(exit)]), open);
      }
    } else {
      JumpAimed(s, next, open);
    }
  }

  lemma {:induction false} LoopEndAimed(n: Option<Node>, s: Assembly, entry: nat, merge: nat, brk: Option<nat>,
                                        cont: Option<nat>, open: set<nat>)
    requires OptionWellFormed(n) && CompileLoopEnd(n, s, entry, merge, brk, cont).Success?
    requires AllAimed(s, open + {merge}) && IsOpen(open, brk) && IsOpen(open, cont) && entry in open
    ensures GoesOn(s, CompileLoopEnd(n, s, entry, merge, brk, cont), open)
    decreases n, 3
  {
    hide AllAimed, CompileIfPresent, EmitJumpAndLabel, AddLiteral;
    OptionAimed(n, s, brk, cont, open + {merge});
    var s1 := CompileIfPresent(n, s, brk, cont).value;
    JumpAndLabelAimed(s1, entry, merge, open);
    LiteralAimed(EmitJumpAndLabel(s1, entry, merge), Void, open);
  }

  lemma {:induction false} WhileAimed(n: Node, s: Assembly, brk: Option<nat>, cont: Option<nat>, open: set<nat>)
    requires n.While? && WellFormed(n) && Compile(n, s, brk, cont).Success?
    requires AllAimed(s, open) && IsOpen(open, brk) && IsOpen(open, cont)
    ensures GoesOn(s, Compile(n, s, brk, cont), open)
    decreases n, 0
  {
    hide CompileGuard, CompileIfPresent, CompileLoopEnd, EmitJumpAndLabel;
    var entry, start, next, merge := s.labels, s.labels + 1, s.labels + 2, s.labels + 3;
    var o1 := open + {entry};
    var o2, o3, o4 := o1 + {merge}, o1 + {merge} + {next}, o1 + {merge} + {next} + {start};
    var s0 := Emit(s.(labels := s.labels + 4), Label(entry));
    SameItemsAimed(s, s.(labels := s.labels + 4), open);
    Weaken(s.(labels := s.labels + 4), open, o4);
    EmitAimed(s.(labels := s.labels + 4), Label(entry), o4);
    GuardAimed(n.guard, s0, merge, start, brk, cont, o4);
    var s1 := CompileGuard(n.guard, s0, merge, start, brk, cont).value;
    PlaceAimed(s1, start, o3);
    OptionAimed(n.body, Emit(s1, Label(start)), Some(merge), Some(next), o3);
    var s2 := CompileIfPresent(n.body, Emit(s1, Label(start)), Some(merge), Some(next)).value;
    JumpAndLabelAimed(s2, next, next, o2);
    LoopEndAimed(n.step, EmitJumpAndLabel(s2, next, next), entry, merge, brk, cont, o1);
    var s4 := Compile(n, s, brk, cont).value.0;
    assert Label(entry) in s4.items by { LabelStays(s0, s4, entry); }
    assert AllAimed(s4, open) by {
      forall i | 0 <= i < |s4.items| ensures Aimed(s4.items[i], s4.items, open) {
        assert Aimed(s4.items[i], s4.items, open + {entry});
      }
    }
  }

  lemma {:induction false} DoWhileAimed(n: Node, s: Assembly, brk: Option<nat>, cont: Option<nat>, open: set<nat>)
    requires n.DoWhile? && WellFormed(n) && Compile(n, s, brk, cont).Success?
    requires AllAimed(s, open) && IsOpen(open, brk) && IsOpen(open, cont)
    ensures GoesOn(s, Compile(n, s, brk, cont), open)
    decreases n, 0
  {
    hide CompileGuard, CompileIfPresent, CompileLoopEnd, EmitJumpAndLabel;
    var entry, condition, next, merge := s.labels, s.labels + 1, s.labels + 2, s.labels + 3;
    var o1 := open + {entry};
    var o2, o3, o4 := o1 + {merge}, o1 + {merge} + {next}, o1 + {merge} + {next} + {condition};
    var s0 := Emit(s.(labels := s.labels + 4), Label(entry));
    SameItemsAimed(s, s.(labels := s.labels + 4), open);
    Weaken(s.(labels := s.labels + 4), open, o4);
    EmitAimed(s.(labels := s.labels + 4), Label(entry), o4);
    OptionAimed(n.body, s0, Some(merge), Some(condition), o4);
    var s1 := CompileIfPresent(n.body, s0, Some(merge), Some(condition)).value;
    JumpAndLabelAimed(s1, condition, condition, o3);
    var s2 := EmitJumpAndLabel(s1, condition, condition);
    GuardAimed(n.guard, s2, merge, next, brk, cont, o3);
    var s3 := CompileGuard(n.guard, s2, merge, next, brk, cont).value;
    PlaceAimed(s3, next, o2);
    LoopEndAimed(n.step, Emit(s3, Label(next)), entry, merge, brk, cont, o1);
    var s4 := Compile(n, s, brk, cont).value.0;
    assert Label(entry) in s4.items by { LabelStays(s0, s4, entry); }
    assert AllAimed(s4, open) by {
      forall i | 0 <= i < |s4.items| ensures Aimed(s4.items[i], s4.items, open) {
        assert Aimed(s4.items[i], s4.items, open + {entry});
      }
    }
  }

  lemma LabelStays(s: Assembly, s1: Assembly, l: nat)
    requires s.items <= s1.items && |s.items| > 0 && s.items[|s.items| - 1] == Label(l)
    ensures Label(l) in s1.items
  {
    assert s1.items[|s.items| - 1] == Label(l);
  }

  // Switches.

  function CaseItem(s: Assembly, o: Operand, ks: seq<Operand>): Item {
    Instruction(CASE_JUMP, [o] + ks + Displacements(s.labels, |ks| + 1))
  }

  lemma CaseJumpIs(s: Assembly, o: Operand, ks: seq<Operand>)
    ensures EmitCaseJump(s, o, ks)
            == Emit(EmitCountExtension(s.(labels := s.labels + |ks| + 2), CASE_JUMP, 2 + |ks|), CaseItem(s, o, ks))
  {
    hide EmitCountExtension, Displacements;
  }

  lemma CaseJumpAimed(s: Assembly, o: Operand, ks: seq<Operand>, open: set<nat>)
    requires AllAimed(s, open) && LabelRange(s.labels, |ks| + 1) <= open
    ensures Goes(s, EmitCaseJump(s, o, ks), open)
  {
    hide AllAimed, Aimed, EmitCountExtension, EmitCaseJump, LabelRange, Displacements, Emit;
    CaseJumpIs(s, o, ks);
    var s0 := s.(labels := s.labels + |ks| + 2);
    SameItemsAimed(s, s0, open);
    CaseOperandsAimed(o, ks, s.labels, s0.items, open);
    ExtendedAimed(s0, CASE_JUMP, 2 + |ks|, CaseItem(s, o, ks).operands, open);
    CaseEmitted(s, s0, EmitCaseJump(s, o, ks), open);
  }

  lemma CaseEmitted(s: Assembly, s0: Assembly, s1: Assembly, open: set<nat>)
    requires Goes(s, s0, open) && Goes(s0, s1, open)
    ensures Goes(s, s1, open)
  {
    hide AllAimed;
  }

  lemma CaseOperandsAimed(o: Operand, ks: seq<Operand>, first: nat, items: seq<Item>, open: set<nat>)
    requires LabelRange(first, |ks| + 1) <= open
    ensures Aimed(Instruction(CASE_JUMP, [o] + ks + Displacements(first, |ks| + 1)), items, open)
  {
    hide LabelRange;
    var ls := Displacements(first, |ks| + 1);
    var os := [o] + ks + ls;
    assert |os| == 2 * |ks| + 2;
    forall j | 1 + |ks| <= j < |os| ensures os[j].To? && os[j].target in open {
      assert os[j] == ls[j - 1 - |ks|];
    }
  }

  lemma {:induction false} BodiesAimed(ns: seq<Node>, s: Assembly, first: nat, merge: nat, r: Operand,
                                       brk: Option<nat>, cont: Option<nat>, open: set<nat>)
    requires AllWellFormed(ns) && CompileBodies(ns, s, first, merge, r, brk, cont).Success?
    requires AllAimed(s, open + LabelRange(first, |ns|)) && IsOpen(open, brk) && IsOpen(open, cont) && merge in open
    ensures Goes(s, CompileBodies(ns, s, first, merge, r, brk, cont).value, open)
    decreases ns, 0
  {
    hide AllAimed, Compile, EmitMove;
    if ns == [] {
      assert open + LabelRange(first, 0) == open;
    } else {
      var rest := open + LabelRange(first + 1, |ns| - 1);
      assert open + LabelRange(first, |ns|) == rest + {first} by { hide LabelRange; }
      PlaceAimed(s, first, rest);
      var s0 := Emit(s, Label(first));
      NodeAimed(ns[0], s0, brk, cont, rest);
      var (s1, o) := Compile(ns[0], s0, brk, cont).value;
      MoveAimed(s1, r, o, rest);
      JumpAimed(EmitMove(s1, r, o), merge, rest);
      BodiesAimed(ns[1..], Emit(EmitMove(s1, r, o), Instruction(JUMP, [To(merge)])), first
                  + 1, merge, r, brk, cont, open);
    }
  }

  lemma {:induction false} SwitchAimed(n: Node, s: Assembly, brk: Option<nat>, cont: Option<nat>, open: set<nat>)
    requires n.Switch? && WellFormed(n) && Compile(n, s, brk, cont).Success?
    requires AllAimed(s, open) && IsOpen(open, brk) && IsOpen(open, cont)
    ensures GoesOn(s, Compile(n, s, brk, cont), open)
    decreases n, 0
  {
    hide AllAimed, CompileAll, CompileBodies, CompileOrNull, EmitCaseJump, NewTemporary, EmitMove, LabelRange, Emit;
    NodeAimed(n.scrutinee, s, brk, cont, open);
    var (s1, o) := Compile(n.scrutinee, s, brk, cont).value;
    AllNodesAimed(n.keys, s1, brk, cont, open);
    var (s2, ks) := CompileAll(n.keys, s1, brk, cont).value;
    KeyCount(n.keys, s1, brk, cont);
    var first, count := s2.labels, |ks|;
    var o1 := open + {first + count + 1};
    var o2 := o1 + {first + count};
    var all := o2 + LabelRange(first, count);
    Weaken(s2, open, all);
    CaseJumpAimed(s2, o, ks, all);
    TemporaryAimed(EmitCaseJump(s2, o, ks), n.kind, all);
    var (s3, r) := NewTemporary(EmitCaseJump(s2, o, ks), n.kind);
    BodiesAimed(n.bodies, s3, first, first + count + 1, r, brk, cont, o2);
    var s4 := CompileBodies(n.bodies, s3, first, first + count + 1, r, brk, cont).value;
    PlaceAimed(s4, first + count, o1);
    OptionAimed(n.whenNone, Emit(s4, Label(first + count)), brk, cont, o1);
    var (s5, e) := CompileOrNull(n.whenNone, Emit(s4, Label(first + count)), brk, cont).value;
    MoveAimed(s5, r, e, o1);
    PlaceAimed(EmitMove(s5, r, e), first + count + 1, open);
  }

  lemma {:induction false} KeyCount(ns: seq<Node>, s: Assembly, brk: Option<nat>, cont: Option<nat>)
    requires CompileAll(ns, s, brk, cont).Success?
    ensures |CompileAll(ns, s, brk, cont).value.1| == |ns|
    decreases ns
  {
    hide Compile;
    if ns != [] { KeyCount(ns[1..], Compile(ns[0], s, brk, cont).value.0, brk, cont); }
  }
}
