/** How running a stretch of compiled code relates to a structured outcome. */
module Simulation {
  import opened Values
  import opened Instructions
  import opened ListMachine
  import opened SyntaxTree
  import opened Compiler
  import opened CompilerShape

  /** The assembly s is a part of the finished program p. */
  ghost predicate Inside(s: Assembly, p: Program) {
    && s.items <= p.items
    && s.literals <= p.literals
    && s.argumentCount == |p.arguments|
    && s.captureCount == |p.captures|
    && UniqueLabels(p.items)
  }

  /** Locals below k are as before. */
  ghost predicate Kept(k: nat, before: seq<Value>, after: seq<Value>) {
    |before| == |after| && k <= |before| && before[..k] == after[..k]
  }

  /** Every binding in scope is held by its operand. */
  ghost predicate Matches(p: Program, bindings: map<Binding, Operand>, scope: Scope, locals: seq<Value>) {
    forall b :: b in scope ==> b in bindings && Holds(p, bindings[b], locals, scope[b])
  }

  /** The machine is about to run what follows s, with the given bindings in scope. */
  ghost predicate Ready(p: Program, s: Assembly, m: Machine, scope: Scope) {
    m.pc == |s.items| && s.temporaries <= |m.locals| && Matches(p, s.bindings, scope, m.locals)
  }

  ghost predicate IsPlaced(p: Program, exit: Option<nat>) {
    exit.Some? ==> Position(p.items, exit.value) < |p.items|
  }

  /** Running on from m ends behind s1 with v in the operand o; only temporaries from k on have changed. */
  ghost predicate Lands(p: Program, m: Machine, k: nat, s1: Assembly, o: Operand,
                        v: Value, scope: Scope, heap: Heap, tape: Tape, locals: seq<Value>) {
    && Kept(k, m.locals, locals)
    && Holds(p, o, locals, v)
    && Matches(p, s1.bindings, scope, locals)
    && Leads(p, m, Running(Machine(|s1.items|, locals, heap, tape)))
  }

  ghost predicate LandsAll(p: Program, m: Machine, k: nat, s1: Assembly, os: seq<Operand>,
                           vs: seq<Value>, scope: Scope, heap: Heap, tape: Tape, locals: seq<Value>) {
    && Kept(k, m.locals, locals)
    && AllHold(p, os, locals, vs)
    && Matches(p, s1.bindings, scope, locals)
    && Leads(p, m, Running(Machine(|s1.items|, locals, heap, tape)))
  }

  ghost predicate JumpsTo(p: Program, m: Machine, k: nat, pc: nat, heap: Heap, tape: Tape, locals: seq<Value>) {
    Kept(k, m.locals, locals) && Leads(p, m, Running(Machine(pc, locals, heap, tape)))
  }

  ghost predicate JumpsToLabel(p: Program, m: Machine, k: nat, exit: Option<nat>, heap: Heap, tape: Tape) {
    exit.Some? && exists locals :: JumpsTo(p, m, k, Position(p.items, exit.value), heap, tape, locals)
  }

  /** What the machine does when evaluation does not end normally. */
  ghost predicate Escapes(p: Program, m: Machine, k: nat, brk: Option<nat>, cont: Option<nat>, fuel: nat,
                          out: Outcome) {
    match out
    case Normal(_, _, _, _) => false
    case Broke(h, t) => JumpsToLabel(p, m, k, brk, h, t)
    case Continued(h, t) => JumpsToLabel(p, m, k, cont, h, t)
    case Left(v, h, t) => Leads(p, m, Returned(v, h, t))
    case Faulted => Leads(p, m, Failed)
    case Unbound => true
    case TimedOut => Survives(p, m, fuel)
  }

  ghost predicate Follows(p: Program, m: Machine, k: nat, s1: Assembly, o: Operand,
                          brk: Option<nat>, cont: Option<nat>, fuel: nat, out: Outcome) {
    match out
    case Normal(v, sc, h, t) => exists locals :: Lands(p, m, k, s1, o, v, sc, h, t, locals)
    case _ => Escapes(p, m, k, brk, cont, fuel, out)
  }

  ghost predicate FollowsAll(p: Program, m: Machine, k: nat, s1: Assembly, os: seq<Operand>,
                             brk: Option<nat>, cont: Option<nat>, fuel: nat, out: Outcomes) {
    match out
    case Values(vs, sc, h, t) => exists locals :: LandsAll(p, m, k, s1, os, vs, sc, h, t, locals)
    case Abrupt(o) => !o.Normal? && Escapes(p, m, k, brk, cont, fuel, o)
  }

  // Frames.

  lemma InsideEarlier(a: Assembly, b: Assembly, p: Program)
    requires Grown(a, b) && Inside(b, p)
    ensures Inside(a, p) && a.temporaries <= b.temporaries
  {
  }

  lemma KeptThrough(k: nat, l: nat, a: seq<Value>, b: seq<Value>, c: seq<Value>)
    requires Kept(k, a, b) && Kept(l, b, c) && k <= l
    ensures Kept(k, a, c)
  {
    assert b[..k] == b[..l][..k] == c[..l][..k] == c[..k];
  }

  lemma HoldsKept(p: Program, s: Assembly, o: Operand, before: seq<Value>, after: seq<Value>, v: Value)
    requires ValidOperand(s, o) && Kept(s.temporaries, before, after) && Holds(p, o, before, v)
    ensures Holds(p, o, after, v)
  {
    if o.vector.Locals? {
      assert before[o.index] == before[..s.temporaries][o.index] == after[..s.temporaries][o.index] == after[o.index];
    }
  }

  lemma MatchesKept(p: Program, s: Assembly, scope: Scope, before: seq<Value>, after: seq<Value>, pending: set<nat>)
    requires Valid(s, pending) && Kept(s.temporaries, before, after) && Matches(p, s.bindings, scope, before)
    ensures Matches(p, s.bindings, scope, after)
  {
    forall b | b in scope ensures Holds(p, s.bindings[b], after, scope[b]) {
      HoldsKept(p, s, s.bindings[b], before, after, scope[b]);
    }
  }

  lemma EscapesThrough(p: Program, m: Machine, middle: Machine, k: nat, l: nat,
                       brk: Option<nat>, cont: Option<nat>, fuel: nat, out: Outcome)
    requires Leads(p, m, Running(middle)) && Kept(k, m.locals, middle.locals) && k <= l
    requires Escapes(p, middle, l, brk, cont, fuel, out)
    ensures Escapes(p, m, k, brk, cont, fuel, out)
  {
    match out
    case Broke(h, t) => JumpsThrough(p, m, middle, k, l, brk, h, t);
    case Continued(h, t) => JumpsThrough(p, m, middle, k, l, cont, h, t);
    case Left(v, h, t) => LeadsThrough(p, m, middle, Returned(v, h, t));
    case Faulted => LeadsThrough(p, m, middle, Failed);
    case Unbound =>
    case TimedOut => SurvivesThrough(p, m, middle, fuel);
  }

  lemma FaultEscapes(p: Program, m: Machine, k: nat, brk: Option<nat>, cont: Option<nat>, fuel: nat)
    requires Leads(p, m, Failed)
    ensures Escapes(p, m, k, brk, cont, fuel, Faulted)
  {
  }

  lemma JumpsThrough(p: Program, m: Machine, middle: Machine, k: nat, l: nat, exit: Option<nat>, h: Heap, t: Tape)
    requires Leads(p, m, Running(middle)) && Kept(k, m.locals, middle.locals) && k <= l
    requires JumpsToLabel(p, middle, l, exit, h, t)
    ensures JumpsToLabel(p, m, k, exit, h, t)
  {
    var pc := Position(p.items, exit.value);
    var locals :| JumpsTo(p, middle, l, pc, h, t, locals);
    KeptThrough(k, l, m.locals, middle.locals, locals);
    LeadsThrough(p, m, middle, Running(Machine(pc, locals, h, t)));
    assert JumpsTo(p, m, k, pc, h, t, locals);
  }

  // Single instructions.

  lemma StepJump(p: Program, m: Machine, l: nat)
    requires m.pc < |p.items| && p.items[m.pc] == Instruction(JUMP, [To(l)])
    requires Position(p.items, l) < |p.items|
    ensures Step(p, m) == Running(m.(pc := Position(p.items, l)))
  {
  }

  lemma StepJumpIfFalse(p: Program, m: Machine, o: Operand, v: Value, l: nat)
    requires m.pc < |p.items| && p.items[m.pc] == Instruction(JUMP_IF_FALSE, [o, To(l)])
    requires Holds(p, o, m.locals, v) && Position(p.items, l) < |p.items|
    ensures Step(p, m) == Running(m.(pc := if v == Boolean(true) then m.pc + 1 else Position(p.items, l)))
  {
    assert Sources(JUMP_IF_FALSE, [o, To(l)]) == [o];
  }

  lemma StepMove(p: Program, m: Machine, d: nat, o: Operand, v: Value)
    requires m.pc < |p.items| && p.items[m.pc] == Instruction(MOVE, [In(Locals, d), o])
    requires d < |m.locals| && Holds(p, o, m.locals, v)
    ensures Step(p, m) == Running(m.(pc := m.pc + 1, locals := m.locals[d := v]))
  {
    assert Sources(MOVE, [In(Locals, d), o]) == [o];
  }

  /** Destinations that are no local stop the machine. */
  lemma StepConstantDestination(p: Program, m: Machine, op: Opcode, operands: seq<Operand>, i: nat)
    requires m.pc < |p.items| && p.items[m.pc] == Instruction(op, operands)
    requires DestinationCount(op) == 1 && |operands| > 0 && operands[0] == In(Literals, i)
    ensures Step(p, m) == Failed
  {
  }
}
