/** Running the instructions emitted for one operation, move or variable. */
module Emission {
  import opened Values
  import opened Instructions
  import opened ListMachine
  import opened SyntaxTree
  import opened Compiler
  import opened CompilerShape
  import opened Simulation

  lemma FollowsThrough(p: Program, m: Machine, middle: Machine, k: nat, l: nat, s1: Assembly, o: Operand,
                       brk: Option<nat>, cont: Option<nat>, fuel: nat, out: Outcome)
    requires Leads(p, m, Running(middle)) && Kept(k, m.locals, middle.locals) && k <= l
    requires Follows(p, middle, l, s1, o, brk, cont, fuel, out)
    ensures Follows(p, m, k, s1, o, brk, cont, fuel, out)
  {
    hide Holds, Matches, Kept, Leads;
    if out.Normal? {
      var locals :| Lands(p, middle, l, s1, o, out.value, out.scope, out.heap, out.tape, locals);
      KeptThrough(k, l, m.locals, middle.locals, locals);
      LeadsThrough(p, m, middle, Running(Machine(|s1.items|, locals, out.heap, out.tape)));
      assert Lands(p, m, k, s1, o, out.value, out.scope, out.heap, out.tape, locals);
    } else {
      EscapesThrough(p, m, middle, k, l, brk, cont, fuel, out);
    }
  }

  lemma Landing(p: Program, m: Machine, k: nat, s1: Assembly, o: Operand,
                brk: Option<nat>, cont: Option<nat>, fuel: nat, out: Outcome) returns (locals: seq<Value>)
    requires out.Normal? && Follows(p, m, k, s1, o, brk, cont, fuel, out)
    ensures Lands(p, m, k, s1, o, out.value, out.scope, out.heap, out.tape, locals)
  {
    locals :| Lands(p, m, k, s1, o, out.value, out.scope, out.heap, out.tape, locals);
  }

  lemma Landed(p: Program, m: Machine, k: nat, s1: Assembly, o: Operand,
               brk: Option<nat>, cont: Option<nat>, fuel: nat, out: Outcome, locals: seq<Value>)
    requires out.Normal? && Lands(p, m, k, s1, o, out.value, out.scope, out.heap, out.tape, locals)
    ensures Follows(p, m, k, s1, o, brk, cont, fuel, out)
  {
  }

  lemma Escaping(p: Program, m: Machine, k: nat, s1: Assembly, o: Operand,
                 brk: Option<nat>, cont: Option<nat>, fuel: nat, out: Outcome)
    requires !out.Normal?
    ensures Follows(p, m, k, s1, o, brk, cont, fuel, out) <==> Escapes(p, m, k, brk, cont, fuel, out)
  {
  }

  lemma LiteralHolds(p: Program, s: Assembly, v: Value, locals: seq<Value>)
    requires Inside(AddLiteral(s, v).0, p)
    ensures Holds(p, AddLiteral(s, v).1, locals, v)
    ensures AddLiteral(s, v).0.items == s.items && AddLiteral(s, v).0.bindings == s.bindings
    ensures AddLiteral(s, v).0.temporaries == s.temporaries
  {
    var (s1, o) := AddLiteral(s, v);
    assert s1.literals[o.index] == v;
  }

  /** What a fresh temporary of a kind is: a constant, or a local from k on. */
  ghost predicate TemporaryOf(p: Program, kind: TypeKind, r: Operand, k: nat, localCount: nat) {
    match Constant(kind)
    case Some(v) => r.In? && r.vector.Literals? && r.index < |p.literals| && p.literals[r.index] == v
    case None => r.In? && r.vector.Locals? && k <= r.index < localCount
  }

  lemma NewTemporaryOf(p: Program, s: Assembly, kind: TypeKind, localCount: nat)
    requires Inside(NewTemporary(s, kind).0, p) && NewTemporary(s, kind).0.temporaries <= localCount
    ensures TemporaryOf(p, kind, NewTemporary(s, kind).1, s.temporaries, localCount)
    ensures NewTemporary(s, kind).0.items == s.items && NewTemporary(s, kind).0.bindings == s.bindings
  {
    if Constant(kind).Some? { LiteralHolds(p, s, Constant(kind).value, []); }
  }

  function Moved(r: Operand, locals: seq<Value>, v: Value): seq<Value> {
    if r.In? && r.vector.Locals? && r.index < |locals| then locals[r.index := v] else locals
  }

  lemma MoveFollows(p: Program, m: Machine, s: Assembly, kind: TypeKind, r: Operand, k: nat, o: Operand, v: Value)
    requires m.pc == |s.items| && EmitMove(s, r, o).items <= p.items
    requires TemporaryOf(p, kind, r, k, |m.locals|) && k <= |m.locals| && Holds(p, o, m.locals, v)
    ensures var locals := Moved(r, m.locals, v);
            && Kept(k, m.locals, locals)
            && Holds(p, r, locals, OfKind(kind, v))
            && Leads(p, m, Running(m.(pc := |EmitMove(s, r, o).items|, locals := locals)))
  {
    if Constant(kind).Some? {
      LeadsNowhere(p, m);
    } else {
      StepMove(p, m, r.index, o, v);
      LeadsByStep(p, m);
    }
  }

  lemma CountExtensionFollows(p: Program, m: Machine, s: Assembly, op: Opcode, count: nat)
    requires m.pc == |s.items| && EmitCountExtension(s, op, count).items <= p.items
    ensures Leads(p, m, Running(m.(pc := |EmitCountExtension(s, op, count).items|)))
  {
    if EmitCountExtension(s, op, count) == s {
      LeadsNowhere(p, m);
    } else {
      var item := EmitCountExtension(s, op, count).items[|s.items|];
      assert p.items[m.pc] == item;
      LeadsByStep(p, m);
    }
  }

  lemma ArrangeHolds(p: Program, op: Opcode, os: seq<Operand>, locals: seq<Value>, xs: seq<Value>)
    requires AllHold(p, os, locals, xs)
    ensures AllHold(p, Arrange(op, os), locals, Arrange(op, xs))
  {
    hide Holds;
  }

  ghost predicate Performs(p: Program, m: Machine, k: nat, s1: Assembly, o: Operand, scope: Scope, result: Result) {
    match result
    case Error => Leads(p, m, Failed)
    case Done(v, h, t) => exists locals :: Lands(p, m, k, s1, o, v, scope, h, t, locals)
  }

  /** The code emitted for an operation computes Finish. */
  lemma OperationFollows(p: Program, m: Machine, s: Assembly, op: Opcode, os: seq<Operand>, kind: TypeKind,
                         xs: seq<Value>, scope: Scope, pending: set<nat>)
    requires Valid(s, pending) && AllValid(s, os) && Ready(p, s, m, scope) && AllHold(p, os, m.locals, xs)
    requires IsOperation(op) && (op.STORE? ==> |os| > 0)
    requires Inside(EmitOperation(s, op, os, kind).0, p)
    requires EmitOperation(s, op, os, kind).0.temporaries <= |m.locals|
    ensures var (s1, o) := EmitOperation(s, op, os, kind);
            Performs(p, m, s.temporaries, s1, o, scope, Finish(p.runtime, op, kind, xs, m.heap, m.tape))
  {
    hide Primitive;
    if DestinationCount(op) == 0 {
      EffectFollows(p, m, s, op, os, kind, xs, scope, pending);
    } else {
      ResultFollows(p, m, s, op, os, kind, xs, scope, pending);
    }
  }

  lemma EffectFollows(p: Program, m: Machine, s: Assembly, op: Opcode, os: seq<Operand>, kind: TypeKind,
                      xs: seq<Value>, scope: Scope, pending: set<nat>)
    requires Valid(s, pending) && AllValid(s, os) && Ready(p, s, m, scope) && AllHold(p, os, m.locals, xs)
    requires IsOperation(op) && (op.STORE? ==> |os| > 0) && DestinationCount(op) == 0
    requires Inside(EmitOperation(s, op, os, kind).0, p)
    requires EmitOperation(s, op, os, kind).0.temporaries <= |m.locals|
    ensures var (s1, o) := EmitOperation(s, op, os, kind);
            Performs(p, m, s.temporaries, s1, o, scope, Finish(p.runtime, op, kind, xs, m.heap, m.tape))
  {
    hide Primitive, Holds, Arrange, EmitCountExtension, AddLiteral;
    var s0 := EmitCountExtension(s, op, |os|);
    var item := Instruction(op, Arrange(op, os));
    var s1 := Emit(s0, item);
    EffectItems(s, op, os, kind, p);
    CountExtensionFollows(p, m, s, op, |os|);
    var m0 := m.(pc := |s0.items|);
    ArrangeHolds(p, op, os, m.locals, xs);
    assert p.items[m0.pc] == item;
    assert Arrange(op, os)[0..] == Arrange(op, os);
    StepStraight(p, m0, op, Arrange(op, os), Arrange(op, xs));
    LeadsByStep(p, m0);
    LeadsThrough(p, m, m0, Step(p, m0));
    match Primitive(p.runtime, op, Arrange(op, xs), m.heap, m.tape)
    case Error =>
    case Done(v, h, t) =>
      assert Step(p, m0) == Running(Machine(m0.pc + 1, m.locals, h, t));
      if !op.STORE? {
        LiteralHolds(p, s1, Void, m.locals);
        assert Lands(p, m, s.temporaries, AddLiteral(s1, Void).0, AddLiteral(s1, Void).1, Void, scope, h, t, m.locals);
      } else {
        assert Holds(p, os[0], m.locals, xs[0]);
        assert Lands(p, m, s.temporaries, s1, os[0], xs[0], scope, h, t, m.locals);
      }
  }

  lemma EffectItems(s: Assembly, op: Opcode, os: seq<Operand>, kind: TypeKind, p: Program)
    requires DestinationCount(op) == 0 && Inside(EmitOperation(s, op, os, kind).0, p)
    ensures Emit(EmitCountExtension(s, op, |os|), Instruction(op, Arrange(op, os))).items <= p.items
    ensures EmitCountExtension(s, op, |os|).items <= p.items
    ensures EmitCountExtension(s, op, |os|).bindings == s.bindings
  {
  }

  lemma ResultFollows(p: Program, m: Machine, s: Assembly, op: Opcode, os: seq<Operand>, kind: TypeKind,
                      xs: seq<Value>, scope: Scope, pending: set<nat>)
    requires Valid(s, pending) && AllValid(s, os) && Ready(p, s, m, scope) && AllHold(p, os, m.locals, xs)
    requires IsOperation(op) && DestinationCount(op) == 1
    requires Inside(EmitOperation(s, op, os, kind).0, p)
    requires EmitOperation(s, op, os, kind).0.temporaries <= |m.locals|
    ensures var (s1, o) := EmitOperation(s, op, os, kind);
            Performs(p, m, s.temporaries, s1, o, scope, Finish(p.runtime, op, kind, xs, m.heap, m.tape))
  {
    hide Primitive, Holds, Arrange, EmitCountExtension, NewTemporary, Matches, Valid, AllValid, AllHold;
    hide EmitOperation, Step, Leads;
    var (s1, r) := NewTemporary(s, kind);
    var d := if IsCall(op) && kind.VoidKind? then Missing else r;
    var s0 := EmitCountExtension(s1, op, |os| + 1);
    var operands := [d] + Arrange(op, os);
    var s2 := Emit(s0, Instruction(op, operands));
    var s3 := EmitOperation(s, op, os, kind).0;
    ResultItems(s, op, os, kind, p);
    NewTemporaryOf(p, s, kind, |m.locals|);
    CountExtensionFollows(p, m, s1, op, |os| + 1);
    var m0 := m.(pc := |s0.items|);
    assert p.items[m0.pc] == Instruction(op, operands);
    if d.In? && d.vector.Literals? {
      StepConstantDestination(p, m0, op, operands, d.index);
      LeadsByStep(p, m0);
      LeadsThrough(p, m, m0, Failed);
    } else {
      ArrangeHolds(p, op, os, m.locals, xs);
      assert operands[1..] == Arrange(op, os);
      StepStraight(p, m0, op, operands, Arrange(op, xs));
      LeadsByStep(p, m0);
      LeadsThrough(p, m, m0, Step(p, m0));
      match Primitive(p.runtime, op, Arrange(op, xs), m.heap, m.tape)
      case Error =>
      case Done(v, h, t) =>
        var locals := Write(m.locals, d, v);
        var m1 := Machine(m0.pc + 1, locals, h, t);
        assert Step(p, m0) == Running(m1);
        if IsCall(op) && kind.EscapeKind? {
          UnreachableFollows(p, m1, s2);
          LeadsThrough(p, m, m1, Failed);
        } else {
          assert Kept(s.temporaries, m.locals, locals);
          MatchesKept(p, s, scope, m.locals, locals, pending);
          assert Holds(p, r, locals, if d.Missing? then Void else v) by {
            TemporaryHolds(p, kind, r, s.temporaries, locals);
          }
          assert Lands(p, m, s.temporaries, s3, r, if d.Missing? then Void else v, scope, h, t, locals);
        }
    }
  }

  lemma TemporaryHolds(p: Program, kind: TypeKind, r: Operand, k: nat, locals: seq<Value>)
    requires TemporaryOf(p, kind, r, k, |locals|)
    ensures Constant(kind).Some? ==> Holds(p, r, locals, Constant(kind).value)
    ensures Constant(kind).None? ==> Holds(p, r, locals, locals[r.index])
  {
  }

  lemma UnreachableFollows(p: Program, m: Machine, s: Assembly)
    requires m.pc == |s.items| && Emit(s, Instruction(UNREACHABLE, [])).items <= p.items
    ensures Leads(p, m, Failed)
  {
    assert p.items[m.pc] == Instruction(UNREACHABLE, []);
    LeadsByStep(p, m);
  }

  lemma ResultItems(s: Assembly, op: Opcode, os: seq<Operand>, kind: TypeKind, p: Program)
    requires DestinationCount(op) == 1 && Inside(EmitOperation(s, op, os, kind).0, p)
    ensures var (s1, r) := NewTemporary(s, kind);
            var d := if IsCall(op) && kind.VoidKind? then Missing else r;
            var s0 := EmitCountExtension(s1, op, |os| + 1);
            var s2 := Emit(s0, Instruction(op, [d] + Arrange(op, os)));
            && Inside(s1, p) && s1.temporaries == EmitOperation(s, op, os, kind).0.temporaries
            && s0.items <= p.items && s2.items <= p.items && s1.items == s.items
            && EmitOperation(s, op, os, kind)
               == (if IsCall(op) && kind.EscapeKind? then Emit(s2, Instruction(UNREACHABLE, [])) else s2, r)
            && EmitOperation(s, op, os, kind).0.bindings == s.bindings
  {
  }
}
