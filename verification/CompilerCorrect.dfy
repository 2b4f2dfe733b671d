/** Compiled code does what structured evaluation says. */
module CompilerCorrect {
  import opened Values
  import opened Instructions
  import opened ListMachine
  import opened SyntaxTree
  import opened Compiler
  import opened CompilerShape
  import opened Simulation
  import opened Emission

  /** The compiled part between s and s1 of program p is about to run on m. */
  ghost predicate Hosts(p: Program, s: Assembly, s1: Assembly, m: Machine, scope: Scope,
                        brk: Option<nat>, cont: Option<nat>) {
    && Inside(s1, p) && s1.temporaries <= |m.locals|
    && Ready(p, s, m, scope) && IsPlaced(p, brk) && IsPlaced(p, cont)
  }

  ghost predicate HostsNode(p: Program, s: Assembly, r: Compiled, m: Machine, scope: Scope, brk: Option<nat>,
                            cont: Option<nat>) {
    r.Success? && Hosts(p, s, r.value.0, m, scope, brk, cont)
  }

  ghost predicate HostsCode(p: Program, s: Assembly, r: Attempt<Assembly>, m: Machine, scope: Scope, brk: Option<nat>,
                            cont: Option<nat>) {
    r.Success? && Hosts(p, s, r.value, m, scope, brk, cont)
  }

  ghost predicate HostsAll(p: Program, s: Assembly, r: Attempt<(Assembly, seq<Operand>)>, m: Machine, scope: Scope,
                           brk: Option<nat>, cont: Option<nat>) {
    r.Success? && Hosts(p, s, r.value.0, m, scope, brk, cont)
  }

  /** The machine goes through compiled code as the outcome says. */
  ghost predicate FollowsNode(p: Program, m: Machine, k: nat, r: Compiled, brk: Option<nat>, cont: Option<nat>,
                              fuel: nat, out: Outcome) {
    r.Success? && Follows(p, m, k, r.value.0, r.value.1, brk, cont, fuel, out)
  }

  ghost predicate FollowsNodes(p: Program, m: Machine, k: nat, r: Attempt<(Assembly, seq<Operand>)>, brk: Option<nat>,
                               cont: Option<nat>, fuel: nat, outs: Outcomes) {
    r.Success? && FollowsAll(p, m, k, r.value.0, r.value.1, brk, cont, fuel, outs)
  }

  lemma {:induction false} NodeFollows(p: Program, fuel: nat, n: Node, s: Assembly, brk: Option<nat>, cont: Option<nat>,
                                       m: Machine, scope: Scope, pending: set<nat>)
    requires WellFormed(n) && Valid(s, pending) && Defined(n) !! s.bindings.Keys
    requires HostsNode(p, s, Compile(n, s, brk, cont), m, scope, brk, cont)
    ensures FollowsNode(p, m, s.temporaries, Compile(n, s, brk, cont), brk, cont, fuel,
                        Eval(p.runtime, fuel, n, scope, m.heap, m.tape))
    decreases fuel, n, 1
  {
    hide *;
    match n
    case Literal(v) => LiteralFollows(p, fuel, n, s, brk, cont, m, scope, pending);
    case Reference(b) => ReferenceFollows(p, fuel, n, s, brk, cont, m, scope, pending);
    case Sequence(es) => SequenceFollows(p, fuel, n, s, brk, cont, m, scope, pending);
    case Variable(_, _, _, _, _, _) => VariableFollows(p, fuel, n, s, brk, cont, m, scope, pending);
    case If(_, _, _, _) => IfFollows(p, fuel, n, s, brk, cont, m, scope, pending);
    case While(_, _, _) => WhileFollows(p, fuel, n, s, brk, cont, m, scope, pending);
    case DoWhile(_, _, _) => DoWhileFollows(p, fuel, n, s, brk, cont, m, scope, pending);
    case Switch(_, _, _, _, _) => SwitchFollows(p, fuel, n, s, brk, cont, m, scope, pending);
    case Operation(_, _, _) => OperationNodeFollows(p, fuel, n, s, brk, cont, m, scope, pending);
    case Break => JumpOutFollows(p, fuel, n, s, brk, cont, m, scope);
    case Continue => JumpOutFollows(p, fuel, n, s, brk, cont, m, scope);
    case Return(e) => ReturnFollows(p, fuel, n, s, brk, cont, m, scope, pending);
  }

  lemma KeptAtRest(k: nat, locals: seq<Value>)
    requires k <= |locals|
    ensures Kept(k, locals, locals)
  {
  }

  lemma {:induction false} LiteralFollows(p: Program, fuel: nat, n: Node, s: Assembly, brk: Option<nat>,
                                          cont: Option<nat>, m: Machine, scope: Scope, pending: set<nat>)
    requires n.Literal?
    requires HostsNode(p, s, Compile(n, s, brk, cont), m, scope, brk, cont)
    ensures FollowsNode(p, m, s.temporaries, Compile(n, s, brk, cont), brk, cont, fuel,
                        Eval(p.runtime, fuel, n, scope, m.heap, m.tape))
  {
    LiteralHolds(p, s, n.value, m.locals);
    LeadsNowhere(p, m);
    var (s1, o) := AddLiteral(s, n.value);
    assert Lands(p, m, s.temporaries, s1, o, n.value, scope, m.heap, m.tape, m.locals);
  }

  lemma {:induction false} ReferenceFollows(p: Program, fuel: nat, n: Node, s: Assembly, brk: Option<nat>,
                                            cont: Option<nat>, m: Machine, scope: Scope, pending: set<nat>)
    requires n.Reference?
    requires HostsNode(p, s, Compile(n, s, brk, cont), m, scope, brk, cont)
    ensures FollowsNode(p, m, s.temporaries, Compile(n, s, brk, cont), brk, cont, fuel,
                        Eval(p.runtime, fuel, n, scope, m.heap, m.tape))
  {
    LeadsNowhere(p, m);
    if n.binding in scope {
      assert Lands(p, m, s.temporaries, s, s.bindings[n.binding], scope[n.binding], scope, m.heap, m.tape, m.locals);
    }
  }

  lemma JumpOutFollows(p: Program, fuel: nat, n: Node, s: Assembly, brk: Option<nat>, cont: Option<nat>, m: Machine,
                       scope: Scope)
    requires (n.Break? || n.Continue?)
    requires HostsNode(p, s, Compile(n, s, brk, cont), m, scope, brk, cont)
    ensures FollowsNode(p, m, s.temporaries, Compile(n, s, brk, cont), brk, cont, fuel,
                        Eval(p.runtime, fuel, n, scope, m.heap, m.tape))
  {
    var exit := if n.Break? then brk else cont;
    assert p.items[m.pc] == Instruction(JUMP, [To(exit.value)]);
    StepJump(p, m, exit.value);
    LeadsByStep(p, m);
    assert JumpsTo(p, m, s.temporaries, Position(p.items, exit.value), m.heap, m.tape, m.locals);
  }

  lemma {:induction false} ReturnFollows(p: Program, fuel: nat, n: Node, s: Assembly, brk: Option<nat>,
                                         cont: Option<nat>, m: Machine, scope: Scope, pending: set<nat>)
    requires n.Return? && WellFormed(n) && Valid(s, pending) && Defined(n) !! s.bindings.Keys
    requires HostsNode(p, s, Compile(n, s, brk, cont), m, scope, brk, cont)
    ensures FollowsNode(p, m, s.temporaries, Compile(n, s, brk, cont), brk, cont, fuel,
                        Eval(p.runtime, fuel, n, scope, m.heap, m.tape))
    decreases fuel, n, 0
  {
    hide Primitive, Valid, ValidOperand, Kept, Matches, Holds, Lands, Leads, Escapes, Survives, Step;
    var e := n.expression;
    var (s1, o) := Compile(e, s, brk, cont).value;
    NodeFollows(p, fuel, e, s, brk, cont, m, scope, pending);
    var out := Eval(p.runtime, fuel, e, scope, m.heap, m.tape);
    if out.Normal? {
      var locals :| Lands(p, m, s.temporaries, s1, o, out.value, out.scope, out.heap, out.tape, locals);
      assert p.items[|s1.items|] == Instruction(RETURN, [o]);
      ReturnLeaves(p, m, s.temporaries, s1, o, out.value, out.scope, out.heap, out.tape, locals, brk, cont, fuel);
    }
  }

  /** Landing behind the first node and then behind all others is landing behind all of them. */
  lemma OneAndAll(p: Program, m: Machine, k: nat, s1: Assembly, o: Operand, v: Value, scope: Scope, heap: Heap,
                  tape: Tape, locals: seq<Value>, s2: Assembly, os: seq<Operand>, vs: seq<Value>, scope2: Scope,
                  heap2: Heap,
                  tape2: Tape, locals2: seq<Value>)
    requires Lands(p, m, k, s1, o, v, scope, heap, tape, locals) && ValidOperand(s1, o) && k <= s1.temporaries
    requires LandsAll(p, Machine(|s1.items|, locals, heap, tape), s1.temporaries, s2, os, vs, scope2, heap2,
                      tape2, locals2)
    ensures LandsAll(p, m, k, s2, [o] + os, [v] + vs, scope2, heap2, tape2, locals2)
  {
    hide ValidOperand, Kept, Holds, Matches, Leads;
    KeptThrough(k, s1.temporaries, m.locals, locals, locals2);
    HoldsKept(p, s1, o, locals, locals2, v);
    LeadsThrough(p, m, Machine(|s1.items|, locals, heap, tape), Running(Machine(|s2.items|, locals2, heap2, tape2)));
  }

  lemma NoneLand(p: Program, m: Machine, s: Assembly, scope: Scope)
    requires Ready(p, s, m, scope) && Leads(p, m, Running(m)) && Kept(s.temporaries, m.locals, m.locals)
    ensures LandsAll(p, m, s.temporaries, s, [], [], scope, m.heap, m.tape, m.locals)
  {
  }

  lemma ReturnLeaves(p: Program, m: Machine, k: nat, s1: Assembly, o: Operand, v: Value, scope: Scope, heap: Heap,
                     tape: Tape, locals: seq<Value>, brk: Option<nat>, cont: Option<nat>, fuel: nat)
    requires Lands(p, m, k, s1, o, v, scope, heap, tape, locals)
    requires |s1.items| < |p.items| && p.items[|s1.items|] == Instruction(RETURN, [o])
    ensures Escapes(p, m, k, brk, cont, fuel, Left(v, heap, tape))
  {
    hide Kept, Matches;
    var m1 := Machine(|s1.items|, locals, heap, tape);
    assert Step(p, m1) == Returned(v, m1.heap, m1.tape) by {
      assert Sources(RETURN, [o]) == [o];
    }
    LeadsByStep(p, m1);
    LeadsThrough(p, m, m1, Returned(v, heap, tape));
  }

  lemma {:induction false} AllFollow(p: Program, fuel: nat, ns: seq<Node>, s: Assembly, brk: Option<nat>,
                                     cont: Option<nat>, m: Machine, scope: Scope, pending: set<nat>)
    requires AllWellFormed(ns) && Valid(s, pending) && DefinedInAll(ns) !! s.bindings.Keys
    requires HostsAll(p, s, CompileAll(ns, s, brk, cont), m, scope, brk, cont)
    ensures FollowsNodes(p, m, s.temporaries, CompileAll(ns, s, brk, cont), brk, cont, fuel,
                         EvalAll(p.runtime, fuel, ns, scope, m.heap, m.tape))
    decreases fuel, ns, 0
  {
    hide Valid, ValidOperand, Kept, Holds, Matches, Leads, Survives, Compile;
    hide Eval, Inside, Escapes, Grown, AllValid, Lands, LandsAll;
    if ns == [] {
      LeadsNowhere(p, m);
      KeptAtRest(s.temporaries, m.locals);
      NoneLand(p, m, s, scope);
    } else {
      var (s1, o) := Compile(ns[0], s, brk, cont).value;
      var (s2, os) := CompileAll(ns[1..], s1, brk, cont).value;
      CompileShape(ns[0], s, brk, cont, pending);
      CompileAllShape(ns[1..], s1, brk, cont, pending);
      InsideEarlier(s1, s2, p);
      InsideEarlier(s, s1, p);
      NodeFollows(p, fuel, ns[0], s, brk, cont, m, scope, pending);
      var out := Eval(p.runtime, fuel, ns[0], scope, m.heap, m.tape);
      if out.Normal? {
        var locals :| Lands(p, m, s.temporaries, s1, o, out.value, out.scope, out.heap, out.tape, locals);
        var m1 := Machine(|s1.items|, locals, out.heap, out.tape);
        LandsParts(p, m, s.temporaries, s1, o, out.value, out.scope, out.heap, out.tape, locals);
        AllFollow(p, fuel, ns[1..], s1, brk, cont, m1, out.scope, pending);
        var outs := EvalAll(p.runtime, fuel, ns[1..], out.scope, out.heap, out.tape);
        if outs.Values? {
          var locals2 :| LandsAll(p, m1, s1.temporaries, s2, os, outs.values, outs.scope, outs.heap,
                                  outs.tape, locals2);
          OneAndAll(p, m, s.temporaries, s1, o, out.value, out.scope, out.heap, out.tape, locals,
                    s2, os, outs.values, outs.scope, outs.heap, outs.tape, locals2);
        } else {
          EscapesThrough(p, m, m1, s.temporaries, s1.temporaries, brk, cont, fuel, outs.outcome);
        }
      }
    }
  }

  lemma KeptLength(k: nat, before: seq<Value>, after: seq<Value>)
    requires Kept(k, before, after)
    ensures |before| == |after| && k <= |after|
  {
  }

  lemma {:induction false} SequenceFollows(p: Program, fuel: nat, n: Node, s: Assembly, brk: Option<nat>,
                                           cont: Option<nat>, m: Machine, scope: Scope, pending: set<nat>)
    requires n.Sequence? && WellFormed(n) && Valid(s, pending) && Defined(n) !! s.bindings.Keys
    requires HostsNode(p, s, Compile(n, s, brk, cont), m, scope, brk, cont)
    ensures FollowsNode(p, m, s.temporaries, Compile(n, s, brk, cont), brk, cont, fuel,
                        Eval(p.runtime, fuel, n, scope, m.heap, m.tape))
    decreases fuel, n, 0
  {
    hide Valid, ValidOperand, Kept, Holds, Matches, Leads, Survives;
    hide AddLiteral, CompileAll, EvalAll, Inside, Escapes, Grown;
    hide Rebound, IsPlaced, DefinedInAll, AllWellFormed, JumpsTo;
    var es := n.expressions;
    var (s1, os) := CompileAll(es, s, brk, cont).value;
    CompileAllShape(es, s, brk, cont, pending);
    AddLiteralShape(s1, Void, pending);
    InsideEarlier(s1, Compile(n, s, brk, cont).value.0, p);
    AllFollow(p, fuel, es, s, brk, cont, m, scope, pending);
    var outs := EvalAll(p.runtime, fuel, es, scope, m.heap, m.tape);
    if outs.Values? {
      var locals :| LandsAll(p, m, s.temporaries, s1, os, outs.values, outs.scope, outs.heap, outs.tape, locals);
      if |os| == 0 {
        LiteralHolds(p, s1, Void, locals);
        var (s2, o) := AddLiteral(s1, Void);
        assert Lands(p, m, s.temporaries, s2, o, Void, outs.scope, outs.heap, outs.tape, locals);
      } else {
        assert Lands(p, m, s.temporaries, s1, os[|os| - 1], outs.values[|os| - 1], outs.scope, outs.heap,
                     outs.tape, locals);
      }
    }
  }

  lemma {:induction false} OperationNodeFollows(p: Program, fuel: nat, n: Node, s: Assembly, brk: Option<nat>,
                                                cont: Option<nat>, m: Machine, scope: Scope, pending: set<nat>)
    requires n.Operation? && WellFormed(n) && Valid(s, pending) && Defined(n) !! s.bindings.Keys
    requires HostsNode(p, s, Compile(n, s, brk, cont), m, scope, brk, cont)
    ensures FollowsNode(p, m, s.temporaries, Compile(n, s, brk, cont), brk, cont, fuel,
                        Eval(p.runtime, fuel, n, scope, m.heap, m.tape))
    decreases fuel, n, 0
  {
    hide Valid, Kept, Holds, Matches, Leads, Survives;
    hide EmitOperation, Finish, IsOperation, AllValid, CompileAll, EvalAll;
    hide Inside, Escapes, Grown, ValidOperand, Rebound;
    var (s1, os) := CompileAll(n.parts, s, brk, cont).value;
    CompileAllShape(n.parts, s, brk, cont, pending);
    EmitOperationShape(s1, n.opcode, os, n.kind, pending);
    var (s2, o) := EmitOperation(s1, n.opcode, os, n.kind);
    InsideEarlier(s1, s2, p);
    InsideEarlier(s, s1, p);
    AllFollow(p, fuel, n.parts, s, brk, cont, m, scope, pending);
    var outs := EvalAll(p.runtime, fuel, n.parts, scope, m.heap, m.tape);
    if outs.Values? {
      var locals :| LandsAll(p, m, s.temporaries, s1, os, outs.values, outs.scope, outs.heap, outs.tape, locals);
      var m1 := Machine(|s1.items|, locals, outs.heap, outs.tape);
      KeptLength(s.temporaries, m.locals, locals);
      OperationFollows(p, m1, s1, n.opcode, os, n.kind, outs.values, outs.scope, pending);
      var result := Finish(p.runtime, n.opcode, n.kind, outs.values, outs.heap, outs.tape);
      if result.Done? {
        FollowsThrough(p, m, m1, s.temporaries, s1.temporaries, s2, o, brk, cont, fuel,
                       Normal(result.value, outs.scope, result.heap, result.tape));
      } else {
        LeadsThrough(p, m, m1, Failed);
        FaultEscapes(p, m, s.temporaries, brk, cont, fuel);
      }
    }
  }

  lemma {:induction false} OptionFollows(p: Program, fuel: nat, n: Option<Node>, s: Assembly, brk: Option<nat>,
                                         cont: Option<nat>, m: Machine, scope: Scope, pending: set<nat>)
    requires OptionWellFormed(n) && Valid(s, pending) && DefinedIn(n) !! s.bindings.Keys
    requires HostsNode(p, s, CompileOrNull(n, s, brk, cont), m, scope, brk, cont)
    ensures FollowsNode(p, m, s.temporaries, CompileOrNull(n, s, brk, cont), brk, cont, fuel,
                        EvalOptional(p.runtime, fuel, n, scope, m.heap, m.tape))
    decreases fuel, n, 2
  {
    if n.Some? {
      NodeFollows(p, fuel, n.value, s, brk, cont, m, scope, pending);
    } else {
      LiteralHolds(p, s, Null, m.locals);
      LeadsNowhere(p, m);
      var (s1, o) := AddLiteral(s, Null);
      assert Lands(p, m, s.temporaries, s1, o, Null, scope, m.heap, m.tape, m.locals);
    }
  }

  // Variables.

  lemma AllocaFollows(p: Program, m: Machine, s: Assembly, pointerType: Value, o: Operand, v: Value, scope: Scope,
                      pending: set<nat>)
    requires Valid(s, pending) && Ready(p, s, m, scope) && Holds(p, o, m.locals, v)
    requires Inside(EmitAlloca(s, pointerType, o).0, p) && EmitAlloca(s, pointerType, o).0.temporaries <= |m.locals|
    ensures var (s1, d) := EmitAlloca(s, pointerType, o);
            Performs(p, m, s.temporaries, s1, d, scope,
                     Primitive(p.runtime, ALLOCA_WITH_VALUE, [pointerType, v], m.heap, m.tape))
  {
    var (s1, d) := NewTemporary(s, ValueKind);
    var (s2, t) := AddLiteral(s1, pointerType);
    LiteralHolds(p, s1, pointerType, m.locals);
    assert p.items[m.pc] == Instruction(ALLOCA_WITH_VALUE, [d, t, o]);
    assert [d, t, o][1..] == [t, o];
    StepStraight(p, m, ALLOCA_WITH_VALUE, [d, t, o], [pointerType, v]);
    LeadsByStep(p, m);
    match Primitive(p.runtime, ALLOCA_WITH_VALUE, [pointerType, v], m.heap, m.tape)
    case Error =>
    case Done(box, h, tape) =>
      var locals := m.locals[s.temporaries := box];
      MatchesKept(p, s, scope, m.locals, locals, pending);
      assert Lands(p, m, s.temporaries, Emit(s2, Instruction(ALLOCA_WITH_VALUE, [d, t, o])), d, box, scope, h,
                   tape, locals);
  }

  /** Whatever follows the value of a variable: an optional debug record and the new binding. */
  lemma BindFollows(p: Program, m: Machine, s: Assembly, n: Node, o: Operand, v: Value, scope: Scope, pending: set<nat>)
    requires n.Variable? && Ready(p, s, m, scope) && Holds(p, o, m.locals, v)
    requires Inside(EmitDebugValue(s, n.isNamed, o, n.symbol), p)
    ensures var s1 := EmitDebugValue(s, n.isNamed, o, n.symbol);
            var s2 := s1.(bindings := s1.bindings[n.name := o]);
            Lands(p, m, s.temporaries, s2, o, v, scope[n.name := v], m.heap, m.tape, m.locals)
  {
    hide AddLiteral;
    assert Leads(p, m, Running(m.(pc := |EmitDebugValue(s, n.isNamed, o, n.symbol).items|))) by {
      if n.isNamed {
        var (s1, l) := AddLiteral(s, n.symbol);
        LiteralHolds(p, s, n.symbol, m.locals);
        assert p.items[m.pc] == Instruction(SET_DEBUG_VALUE, [o, l]);
        StepStraight(p, m, SET_DEBUG_VALUE, [o, l], [Read(p, o, m.locals), n.symbol]);
        LeadsByStep(p, m);
      } else {
        LeadsNowhere(p, m);
      }
    }
    DebugValueBindings(s, n.isNamed, o, n.symbol);
  }

  lemma DebugValueBindings(s: Assembly, isNamed: bool, o: Operand, symbol: Value)
    ensures EmitDebugValue(s, isNamed, o, symbol).bindings == s.bindings
  {
  }

  lemma {:induction false} VariableFollows(p: Program, fuel: nat, n: Node, s: Assembly, brk: Option<nat>,
                                           cont: Option<nat>, m: Machine, scope: Scope, pending: set<nat>)
    requires n.Variable? && WellFormed(n) && Valid(s, pending) && Defined(n) !! s.bindings.Keys
    requires HostsNode(p, s, Compile(n, s, brk, cont), m, scope, brk, cont)
    ensures FollowsNode(p, m, s.temporaries, Compile(n, s, brk, cont), brk, cont, fuel,
                        Eval(p.runtime, fuel, n, scope, m.heap, m.tape))
    decreases fuel, n, 0
  {
    hide Valid, Kept, Holds, Matches, Leads, Survives, Inside, Escapes, Grown, ValidOperand, Rebound;
    hide CompileOrNull, EvalOptional, EmitAlloca, EmitDebugValue, Primitive, Follows, Lands;
    var k := s.temporaries;
    var (s1, o) := CompileOrNull(n.initial, s, brk, cont).value;
    var (s2, d) := if n.isMutable then EmitAlloca(s1, n.pointerType, o) else (s1, o);
    var s3 := EmitDebugValue(s2, n.isNamed, d, n.symbol);
    var s4 := s3.(bindings := s3.bindings[n.name := d]);
    assert Compile(n, s, brk, cont).value == (s4, d);
    CompileOrNullShape(n.initial, s, brk, cont, pending);
    VariableInside(n, s1, o, s2, d, p, pending);
    InsideEarlier(s, s1, p);
    OptionFollows(p, fuel, n.initial, s, brk, cont, m, scope, pending);
    var out := EvalOptional(p.runtime, fuel, n.initial, scope, m.heap, m.tape);
    var whole := Eval(p.runtime, fuel, n, scope, m.heap, m.tape);
    if !out.Normal? {
      Escaping(p, m, k, s1, o, brk, cont, fuel, out);
      Escaping(p, m, k, s4, d, brk, cont, fuel, out);
    } else {
      var locals := Landing(p, m, k, s1, o, brk, cont, fuel, out);
      var m1 := Machine(|s1.items|, locals, out.heap, out.tape);
      LandsParts(p, m, k, s1, o, out.value, out.scope, out.heap, out.tape, locals);
      if n.isMutable {
        MutableFollows(p, m1, n, s1, o, out.value, out.scope, brk, cont, fuel, pending);
      } else {
        BindFollows(p, m1, s1, n, o, out.value, out.scope, pending);
        Landed(p, m1, s1.temporaries, s4, d, brk, cont, fuel, whole, locals);
      }
      FollowsThrough(p, m, m1, k, s1.temporaries, s4, d, brk, cont, fuel, whole);
    }
  }

  /** A landing is a state that the next piece of code can start from. */
  lemma LandsParts(p: Program, m: Machine, k: nat, s1: Assembly, o: Operand,
                   v: Value, scope: Scope, heap: Heap, tape: Tape, locals: seq<Value>)
    requires Lands(p, m, k, s1, o, v, scope, heap, tape, locals) && s1.temporaries <= |m.locals|
    ensures Ready(p, s1, Machine(|s1.items|, locals, heap, tape), scope)
    ensures Leads(p, m, Running(Machine(|s1.items|, locals, heap, tape)))
    ensures Kept(k, m.locals, locals) && Holds(p, o, locals, v) && |locals| == |m.locals|
    ensures Matches(p, s1.bindings, scope, locals)
  {
  }

  lemma MutableFollows(p: Program, m: Machine, n: Node, s1: Assembly, o: Operand, v: Value, scope: Scope,
                       brk: Option<nat>, cont: Option<nat>, fuel: nat, pending: set<nat>)
    requires n.Variable? && Valid(s1, pending) && ValidOperand(s1, o)
    requires Ready(p, s1, m, scope) && Holds(p, o, m.locals, v)
    requires var (s2, d) := EmitAlloca(s1, n.pointerType, o);
             var s3 := EmitDebugValue(s2, n.isNamed, d, n.symbol);
             Inside(s3.(bindings := s3.bindings[n.name := d]), p) && s3.temporaries <= |m.locals|
    ensures var (s2, d) := EmitAlloca(s1, n.pointerType, o);
            var s3 := EmitDebugValue(s2, n.isNamed, d, n.symbol);
            Follows(p, m, s1.temporaries, s3.(bindings := s3.bindings[n.name := d]), d, brk, cont, fuel,
                    match Primitive(p.runtime, ALLOCA_WITH_VALUE, [n.pointerType, v], m.heap, m.tape)
                    case Done(box, h, t) => Normal(box, scope[n.name := box], h, t)
                    case Error => Faulted)
  {
    hide Valid, Holds, Matches, ValidOperand, EmitAlloca, Primitive;
    var (s2, d) := EmitAlloca(s1, n.pointerType, o);
    var s3 := EmitDebugValue(s2, n.isNamed, d, n.symbol);
    var s4 := s3.(bindings := s3.bindings[n.name := d]);
    var k := s1.temporaries;
    assert Inside(s3, p) && Inside(s2, p) && k <= s2.temporaries <= |m.locals| by {
      AllocaShape(s1, n.pointerType, o, pending);
      assert Inside(EmitDebugValue(s2, n.isNamed, d, n.symbol), p) && Inside(s2, p)
             && s1.temporaries <= s2.temporaries == EmitDebugValue(s2, n.isNamed, d, n.symbol).temporaries by {
        DebugValueShape(s2, n.isNamed, d, n.symbol, pending);
        InsideEarlier(s2, EmitDebugValue(s2, n.isNamed, d, n.symbol), p);
      }
    }
    AllocaFollows(p, m, s1, n.pointerType, o, v, scope, pending);
    match Primitive(p.runtime, ALLOCA_WITH_VALUE, [n.pointerType, v], m.heap, m.tape)
    case Error =>
    case Done(box, h, t) =>
      var locals :| Lands(p, m, k, s2, d, box, scope, h, t, locals);
      LandsParts(p, m, k, s2, d, box, scope, h, t, locals);
      var m2 := Machine(|s2.items|, locals, h, t);
      BindFollows(p, m2, s2, n, d, box, scope, pending);
      assert Lands(p, m, k, s4, d, box, scope[n.name := box], h, t, locals) by {
        KeptThrough(k, s2.temporaries, m.locals, m2.locals, locals);
        LeadsThrough(p, m, m2, Running(Machine(|s4.items|, locals, h, t)));
      }
      Landed(p, m, k, s4, d, brk, cont, fuel, Normal(box, scope[n.name := box], h, t), locals);
  }

  lemma VariableInside(n: Node, s1: Assembly, o: Operand, s2: Assembly, d: Operand, p: Program, pending: set<nat>)
    requires n.Variable? && Valid(s1, pending) && ValidOperand(s1, o)
    requires (s2, d) == if n.isMutable then EmitAlloca(s1, n.pointerType, o) else (s1, o)
    requires var s3 := EmitDebugValue(s2, n.isNamed, d, n.symbol);
             Inside(s3.(bindings := s3.bindings[n.name := d]), p)
    ensures Inside(EmitDebugValue(s2, n.isNamed, d, n.symbol), p)
    ensures Inside(s1, p) && Inside(s2, p) && s1.temporaries <= s2.temporaries
    ensures s2.temporaries == EmitDebugValue(s2, n.isNamed, d, n.symbol).temporaries
  {
    AllocaShape(s1, n.pointerType, o, pending);
    DebugValueShape(s2, n.isNamed, d, n.symbol, pending);
    InsideEarlier(s2, EmitDebugValue(s2, n.isNamed, d, n.symbol), p);
    InsideEarlier(s1, s2, p);
  }

  // Branches.

  /** A branch ends at pc with its value in r; otherwise it escapes. */
  ghost predicate Merges(p: Program, m: Machine, k: nat, pc: nat, r: Operand, kind: TypeKind,
                         brk: Option<nat>, cont: Option<nat>, fuel: nat, out: Outcome) {
    match out
    case Normal(v, _, h, t) =>
      exists locals :: JumpsTo(p, m, k, pc, h, t, locals) && Holds(p, r, locals, OfKind(kind, v))
    case _ => Escapes(p, m, k, brk, cont, fuel, out)
  }

  /** The value of a branch is moved into the result. */
  lemma BranchEnds(p: Program, m: Machine, s: Assembly, s1: Assembly, o: Operand, kind: TypeKind, r: Operand, k: nat,
                   brk: Option<nat>, cont: Option<nat>, fuel: nat, out: Outcome)
    requires Follows(p, m, s.temporaries, s1, o, brk, cont, fuel, out)
    requires Inside(s1, p) && s1.temporaries <= |m.locals| && EmitMove(s1, r, o).items <= p.items
    requires TemporaryOf(p, kind, r, k, |m.locals|) && k <= s.temporaries && k <= |m.locals|
    ensures Merges(p, m, k, |EmitMove(s1, r, o).items|, r, kind, brk, cont, fuel, out)
  {
    hide Kept, Holds, Matches, Leads, Survives, Inside, Escapes, TemporaryOf, Moved, Follows, Lands;
    KeptAtRest(k, m.locals);
    if out.Normal? {
      var locals := Landing(p, m, s.temporaries, s1, o, brk, cont, fuel, out);
      LandsParts(p, m, s.temporaries, s1, o, out.value, out.scope, out.heap, out.tape, locals);
      var m1 := Machine(|s1.items|, locals, out.heap, out.tape);
      KeptLess(s.temporaries, k, m.locals, locals);
      MoveFollows(p, m1, s1, kind, r, k, o, out.value);
      var locals2 := Moved(r, locals, out.value);
      KeptThrough(k, k, m.locals, locals, locals2);
      var m2 := m1.(pc := |EmitMove(s1, r, o).items|, locals := locals2);
      LeadsThrough(p, m, m1, Running(m2));
      assert Merges(p, m, k, m2.pc, r, kind, brk, cont, fuel, out) by {
        assert JumpsTo(p, m, k, m2.pc, out.heap, out.tape, locals2);
      }
    } else {
      Escaping(p, m, s.temporaries, s1, o, brk, cont, fuel, out);
      LeadsNowhere(p, m);
      EscapesThrough(p, m, m, k, s.temporaries, brk, cont, fuel, out);
    }
  }

  lemma {:induction false} BranchFollows(p: Program, fuel: nat, n: Option<Node>, s: Assembly, brk: Option<nat>,
                                         cont: Option<nat>, m: Machine, scope: Scope, pending: set<nat>, kind: TypeKind,
                                         r: Operand, k: nat)
    requires OptionWellFormed(n) && Valid(s, pending) && DefinedIn(n) !! s.bindings.Keys
    requires HostsNode(p, s, CompileOrNull(n, s, brk, cont), m, scope, brk, cont)
    requires EmitMove(CompileOrNull(n, s, brk, cont).value.0, r,
                      CompileOrNull(n, s, brk, cont).value.1).items <= p.items
    requires TemporaryOf(p, kind, r, k, |m.locals|) && k <= s.temporaries
    ensures var (s1, o) := CompileOrNull(n, s, brk, cont).value;
            Merges(p, m, k, |EmitMove(s1, r, o).items|, r, kind, brk, cont, fuel,
                   EvalOptional(p.runtime, fuel, n, scope, m.heap, m.tape))
    decreases fuel, n, 3
  {
    hide Valid, Holds, Matches, Leads, Survives, Inside;
    hide Escapes, CompileOrNull, EvalOptional, TemporaryOf, Follows, Merges;
    var (s1, o) := CompileOrNull(n, s, brk, cont).value;
    OptionFollows(p, fuel, n, s, brk, cont, m, scope, pending);
    BranchEnds(p, m, s, s1, o, kind, r, k, brk, cont, fuel, EvalOptional(p.runtime, fuel, n, scope, m.heap, m.tape));
  }

  lemma KeptLess(k: nat, l: nat, before: seq<Value>, after: seq<Value>)
    requires Kept(k, before, after) && l <= k
    ensures Kept(l, before, after)
  {
    assert before[..l] == before[..k][..l];
    assert after[..l] == after[..k][..l];
  }

  /** Jumping to the label that the assembly places at position `at` continues behind it. */
  lemma JumpToPlaced(p: Program, m: Machine, l: nat, at: nat)
    requires UniqueLabels(p.items) && at < |p.items| && p.items[at] == Label(l)
    requires m.pc < |p.items| && p.items[m.pc] == Instruction(JUMP, [To(l)])
    ensures Position(p.items, l) == at && Leads(p, m, Running(m.(pc := at + 1)))
  {
    PositionOfLabel(p.items, l, at);
    StepJump(p, m, l);
    assert Step(p, m.(pc := at)) == Running(m.(pc := at).(pc := m.(pc := at).pc + 1));
    LeadsByStep(p, m.(pc := at));
    LeadsStepThen(p, m, Running(m.(pc := at + 1)));
  }

  /** The bindings in scope at s1 still hold at a later assembly, whatever later code wrote. */
  lemma ScopeSurvives(p: Program, s1: Assembly, s2: Assembly, d: set<Binding>, scope: Scope,
                      before: seq<Value>, after: seq<Value>, p1: set<nat>, p2: set<nat>)
    requires Valid(s1, p1) && Shape(s1, s2, d, p2) && s1.bindings.Keys !! d
    requires Matches(p, s1.bindings, scope, before) && Kept(s1.temporaries, before, after)
    ensures Matches(p, s2.bindings, scope, after)
  {
    MatchesKept(p, s1, scope, before, after, p1);
    assert Matches(p, s2.bindings, scope, after);
  }

  /** A branch has merged: continue at the end of s1 in the scope outside of the branch. */
  lemma AfterBranch(p: Program, m: Machine, k: nat, pc: nat, s0: Assembly, s1: Assembly, d: set<Binding>, r: Operand,
                    kind: TypeKind, scope: Scope, brk: Option<nat>, cont: Option<nat>, fuel: nat, out: Outcome,
                    p0: set<nat>, p1: set<nat>)
    requires k == s0.temporaries && Merges(p, m, k, pc, r, kind, brk, cont, fuel, out)
    requires Valid(s0, p0) && Shape(s0, s1, d, p1) && s0.bindings.Keys !! d && Matches(p, s0.bindings, scope, m.locals)
    requires forall locals, h, t :: Leads(p, Machine(pc, locals, h, t), Running(Machine(|s1.items|, locals, h, t)))
    ensures Follows(p, m, k, s1, r, brk, cont, fuel, Branch(kind, scope, out))
  {
    hide Kept, Holds, Matches, Leads, Escapes, Valid, Grown, Rebound;
    if out.Normal? {
      var locals :| JumpsTo(p, m, k, pc, out.heap, out.tape, locals) && Holds(p, r, locals, OfKind(kind, out.value));
      var m1 := Machine(pc, locals, out.heap, out.tape);
      LeadsThrough(p, m, m1, Running(Machine(|s1.items|, locals, out.heap, out.tape)));
      ScopeSurvives(p, s0, s1, d, scope, m.locals, locals, p0, p1);
      assert Lands(p, m, k, s1, r, OfKind(kind, out.value), scope, out.heap, out.tape, locals);
    }
  }

  lemma JumpsBehindLabel(p: Program, l: nat, at: nat, from: nat)
    requires UniqueLabels(p.items) && at < |p.items| && p.items[at] == Label(l)
    requires from < |p.items| && p.items[from] == Instruction(JUMP, [To(l)])
    ensures forall locals, h, t :: Leads(p, Machine(from, locals, h, t), Running(Machine(at + 1, locals, h, t)))
  {
    forall locals, h, t ensures Leads(p, Machine(from, locals, h, t), Running(Machine(at + 1, locals, h, t))) {
      JumpToPlaced(p, Machine(from, locals, h, t), l, at);
    }
  }

  lemma PassesLabel(p: Program, l: nat, at: nat)
    requires at < |p.items| && p.items[at] == Label(l)
    ensures forall locals, h, t :: Leads(p, Machine(at, locals, h, t), Running(Machine(at + 1, locals, h, t)))
  {
    forall locals, h, t ensures Leads(p, Machine(at, locals, h, t), Running(Machine(at + 1, locals, h, t))) {
      LeadsByStep(p, Machine(at, locals, h, t));
    }
  }

  /** Where the pieces of a conditional are in the program. */
  lemma IfLayout(p: Program, s: Assembly, kind: TypeKind, s1: Assembly, o: Operand, s3: Assembly, t: Operand,
                 s5: Assembly, f: Operand)
    requires var (s2, r) := NewTemporary(Emit(s1, Instruction(JUMP_IF_FALSE, [o, To(s.labels)])), kind);
             var s4 := EmitJumpAndLabel(EmitMove(s3, r, t), s.labels + 1, s.labels);
             var s6 := Emit(EmitMove(s5, r, f), Label(s.labels + 1));
             Grown(s2, s4) && Grown(s4, s6) && Inside(s6, p)
    ensures var (s2, r) := NewTemporary(Emit(s1, Instruction(JUMP_IF_FALSE, [o, To(s.labels)])), kind);
            var s3' := EmitMove(s3, r, t);
            var s5' := EmitMove(s5, r, f);
            && |s3'.items| + 1 < |p.items| && |s5'.items| < |p.items| && |s1.items| < |p.items|
            && |s2.items| == |s1.items| + 1 && s2.bindings == s1.bindings
            && p.items[|s1.items|] == Instruction(JUMP_IF_FALSE, [o, To(s.labels)])
            && p.items[|s3'.items|] == Instruction(JUMP, [To(s.labels + 1)])
            && p.items[|s3'.items| + 1] == Label(s.labels)
            && p.items[|s5'.items|] == Label(s.labels + 1)
            && s3'.items <= p.items && s5'.items <= p.items
            && Inside(s1, p) && Inside(s2, p) && Inside(s3, p)
               && Inside(EmitJumpAndLabel(s3', s.labels + 1, s.labels), p) && Inside(s5, p)
            && s1.temporaries <= s2.temporaries <= s3.temporaries <= s5.temporaries
            && s3.temporaries == EmitJumpAndLabel(s3', s.labels + 1, s.labels).temporaries
            && s5.temporaries == Emit(s5', Label(s.labels + 1)).temporaries
  {
  }

  lemma {:induction false} IfFollows(p: Program, fuel: nat, n: Node, s: Assembly, brk: Option<nat>, cont: Option<nat>,
                                     m: Machine, scope: Scope, pending: set<nat>)
    requires n.If? && WellFormed(n) && Valid(s, pending) && Defined(n) !! s.bindings.Keys
    requires HostsNode(p, s, Compile(n, s, brk, cont), m, scope, brk, cont)
    ensures FollowsNode(p, m, s.temporaries, Compile(n, s, brk, cont), brk, cont, fuel,
                        Eval(p.runtime, fuel, n, scope, m.heap, m.tape))
    decreases fuel, n, 0, 1
  {
    hide Valid, Kept, Holds, Matches, Leads, Survives, Inside, Escapes, ValidOperand, Follows, Lands, Merges;
    hide Compile, CompileOrNull, EvalOptional, NewTemporary, EmitMove, EmitJumpAndLabel, Grown, Rebound, TemporaryOf;
    IfParts(n, s, brk, cont, pending);
    var s0 := s.(labels := s.labels + 2);
    var (s1, o) := Compile(n.condition, s0, brk, cont).value;
    var (s2, r) := NewTemporary(Emit(s1, Instruction(JUMP_IF_FALSE, [o, To(s.labels)])), n.kind);
    var (s3, t) := CompileOrNull(n.whenTrue, s2, brk, cont).value;
    var s4 := EmitJumpAndLabel(EmitMove(s3, r, t), s.labels + 1, s.labels);
    var (s5, f) := CompileOrNull(n.whenFalse, s4, brk, cont).value;
    var s6 := Emit(EmitMove(s5, r, f), Label(s.labels + 1));
    var all := pending + {s.labels, s.labels + 1};
    IfLayout(p, s, n.kind, s1, o, s3, t, s5, f);
    InsideEarlier(s, s1, p);
    NodeFollows(p, fuel, n.condition, s0, brk, cont, m, scope, all);
    var out := Eval(p.runtime, fuel, n.condition, scope, m.heap, m.tape);
    var whole := Eval(p.runtime, fuel, n, scope, m.heap, m.tape);
    var k := s.temporaries;
    if !out.Normal? {
      Escaping(p, m, k, s1, o, brk, cont, fuel, out);
      Escaping(p, m, k, s6, r, brk, cont, fuel, out);
    } else {
      var locals := Landing(p, m, k, s1, o, brk, cont, fuel, out);
      var m1 := Machine(|s1.items|, locals, out.heap, out.tape);
      LandsParts(p, m, k, s1, o, out.value, out.scope, out.heap, out.tape, locals);
      ChooseFollows(p, fuel, n, s, s1, o, m1, out.value, out.scope, brk, cont, pending);
      FollowsThrough(p, m, m1, k, s1.temporaries, s6, r, brk, cont, fuel, whole);
    }
  }

  /** The conditional jump and the chosen branch. */
  lemma {:induction false} ChooseFollows(p: Program, fuel: nat, n: Node, s: Assembly, s1: Assembly, o: Operand,
                                         m: Machine, v: Value, scope: Scope,
                                         brk: Option<nat>, cont: Option<nat>, pending: set<nat>)
    requires n.If? && WellFormed(n) && Valid(s, pending) && Defined(n) !! s.bindings.Keys
    requires Compile(n, s, brk, cont).Success?
    requires Compile(n.condition, s.(labels := s.labels + 2), brk, cont) == Success((s1, o))
    requires Inside(Compile(n, s, brk, cont).value.0, p) && Compile(n, s, brk, cont).value.0.temporaries <= |m.locals|
    requires Ready(p, s1, m, scope) && IsPlaced(p, brk) && IsPlaced(p, cont) && Holds(p, o, m.locals, v)
    ensures var (s6, r) := Compile(n, s, brk, cont).value;
            Follows(p, m, s1.temporaries, s6, r, brk, cont, fuel,
                    Branch(n.kind, scope, EvalOptional(p.runtime, fuel, if v == Boolean(true) then n.whenTrue
                                                       else n.whenFalse,
                                                       scope, m.heap, m.tape)))
    decreases fuel, n, 0, 0
  {
    hide Valid, Kept, Holds, Matches, Leads, Survives, Escapes, ValidOperand, Follows, Lands, Merges;
    hide Compile, CompileOrNull, EvalOptional, NewTemporary, EmitMove, EmitJumpAndLabel;
    hide Grown, Rebound, TemporaryOf, Branch, Step;
    hide Defined, DefinedIn, OptionWellFormed, Position, FollowsAll;
    IfParts(n, s, brk, cont, pending);
    var (s2, r) := NewTemporary(Emit(s1, Instruction(JUMP_IF_FALSE, [o, To(s.labels)])), n.kind);
    var (s3, t) := CompileOrNull(n.whenTrue, s2, brk, cont).value;
    var s3' := EmitMove(s3, r, t);
    var s4 := EmitJumpAndLabel(s3', s.labels + 1, s.labels);
    var (s5, f) := CompileOrNull(n.whenFalse, s4, brk, cont).value;
    var s5' := EmitMove(s5, r, f);
    var s6 := Emit(s5', Label(s.labels + 1));
    var all, rest := pending + {s.labels, s.labels + 1}, pending + {s.labels + 1};
    var k := s1.temporaries;
    IfLayout(p, s, n.kind, s1, o, s3, t, s5, f);
    IfBindings(s, s1, s2, s4, s6, n, all, rest, pending);
    NewTemporaryOf(p, Emit(s1, Instruction(JUMP_IF_FALSE, [o, To(s.labels)])), n.kind, |m.locals|);
    PositionOfLabel(p.items, s.labels, |s3'.items| + 1);
    StepJumpIfFalse(p, m, o, v, s.labels);
    LeadsByStep(p, m);
    KeptAtRest(k, m.locals);
    var d := DefinedIn(n.whenTrue) + DefinedIn(n.whenFalse);
    if v == Boolean(true) {
      var m2 := m.(pc := |s2.items|);
      assert Matches(p, s2.bindings, scope, m2.locals);
      BranchFollows(p, fuel, n.whenTrue, s2, brk, cont, m2, scope, all, n.kind, r, k);
      JumpsBehindLabel(p, s.labels + 1, |s5'.items|, |s3'.items|);
      var out := EvalOptional(p.runtime, fuel, n.whenTrue, scope, m.heap, m.tape);
      AfterBranch(p, m2, k, |s3'.items|, s1, s6, d, r, n.kind, scope, brk, cont, fuel, out, all, pending);
      FollowsThrough(p, m, m2, k, k, s6, r, brk, cont, fuel, Branch(n.kind, scope, out));
    } else {
      var m1 := m.(pc := |s3'.items| + 1);
      var m2 := m.(pc := |s4.items|);
      FalseEntry(p, s3', s.labels + 1, s.labels, m1);
      LeadsThrough(p, m, m1, Running(m2));
      ScopeSurvives(p, s1, s4, DefinedIn(n.whenTrue), scope, m.locals, m.locals, all, rest);
      BranchFollows(p, fuel, n.whenFalse, s4, brk, cont, m2, scope, rest, n.kind, r, k);
      PassesLabel(p, s.labels + 1, |s5'.items|);
      var out := EvalOptional(p.runtime, fuel, n.whenFalse, scope, m.heap, m.tape);
      AfterBranch(p, m2, k, |s5'.items|, s1, s6, d, r, n.kind, scope, brk, cont, fuel, out, all, pending);
      FollowsThrough(p, m, m2, k, k, s6, r, brk, cont, fuel, Branch(n.kind, scope, out));
    }
  }

  lemma FalseEntry(p: Program, s: Assembly, target: nat, l: nat, m: Machine)
    requires m.pc == |s.items| + 1 && m.pc < |p.items| && p.items[m.pc] == Label(l)
    ensures Leads(p, m, Running(m.(pc := |EmitJumpAndLabel(s, target, l).items|)))
  {
    LeadsByStep(p, m);
  }

  lemma IfBindings(s: Assembly, s1: Assembly, s2: Assembly, s4: Assembly, s6: Assembly, n: Node,
                   all: set<nat>, rest: set<nat>, pending: set<nat>)
    requires n.If? && WellFormed(n) && Defined(n) !! s.bindings.Keys
    requires Shape(s, s1, Defined(n.condition), all) && Shape(s1, s2, {}, all)
    requires Shape(s2, s4, DefinedIn(n.whenTrue), rest) && Shape(s4, s6, DefinedIn(n.whenFalse), pending)
    ensures Shape(s1, s4, DefinedIn(n.whenTrue), rest)
    ensures Shape(s1, s6, DefinedIn(n.whenTrue) + DefinedIn(n.whenFalse), pending)
    ensures s1.bindings.Keys !! DefinedIn(n.whenTrue) && s1.bindings.Keys !! DefinedIn(n.whenFalse)
    ensures s2.bindings.Keys !! DefinedIn(n.whenTrue) && s4.bindings.Keys !! DefinedIn(n.whenFalse)
  {
    hide Valid, Grown;
    ShapeThrough(s1, s2, s4, {}, DefinedIn(n.whenTrue), all, rest);
    ShapeThrough(s1, s4, s6, DefinedIn(n.whenTrue), DefinedIn(n.whenFalse), rest, pending);
  }

  // Loops.

  /** Control passes on at pc; otherwise evaluation escapes. */
  ghost predicate Passes(p: Program, m: Machine, k: nat, pc: nat, brk: Option<nat>, cont: Option<nat>, fuel: nat,
                         out: Outcome) {
    match out
    case Normal(_, _, h, t) => exists locals :: JumpsTo(p, m, k, pc, h, t, locals)
    case _ => Escapes(p, m, k, brk, cont, fuel, out)
  }

  lemma {:induction false} IfPresentFollows(p: Program, fuel: nat, n: Option<Node>, s: Assembly, brk: Option<nat>,
                                            cont: Option<nat>, m: Machine, scope: Scope, pending: set<nat>)
    requires OptionWellFormed(n) && Valid(s, pending) && DefinedIn(n) !! s.bindings.Keys
    requires CompileIfPresent(n, s, brk, cont).Success?
    requires HostsCode(p, s, CompileIfPresent(n, s, brk, cont), m, scope, brk, cont)
    ensures Passes(p, m, s.temporaries, |CompileIfPresent(n, s, brk, cont).value.items|, brk, cont, fuel,
                   EvalOptional(p.runtime, fuel, n, scope, m.heap, m.tape))
    decreases fuel, n, 2
  {
    hide Valid, Holds, Matches, Leads, Survives, Inside, Escapes, Lands, Compile, Eval;
    if n.Some? {
      NodeFollows(p, fuel, n.value, s, brk, cont, m, scope, pending);
      var (s1, o) := Compile(n.value, s, brk, cont).value;
      var out := Eval(p.runtime, fuel, n.value, scope, m.heap, m.tape);
      if out.Normal? {
        var locals := Landing(p, m, s.temporaries, s1, o, brk, cont, fuel, out);
        LandsParts(p, m, s.temporaries, s1, o, out.value, out.scope, out.heap, out.tape, locals);
        assert JumpsTo(p, m, s.temporaries, |s1.items|, out.heap, out.tape, locals);
      }
    } else {
      LeadsNowhere(p, m);
      KeptAtRest(s.temporaries, m.locals);
      assert JumpsTo(p, m, s.temporaries, |s.items|, m.heap, m.tape, m.locals);
    }
  }

  /** A true condition goes on behind s1, any other value goes to the exit. */
  ghost predicate Guards(p: Program, m: Machine, k: nat, s1: Assembly, exit: nat,
                         brk: Option<nat>, cont: Option<nat>, fuel: nat, out: Outcome) {
    match out
    case Normal(go, sc, h, t) =>
      exists locals ::
        && JumpsTo(p, m, k, if go == Boolean(true) then |s1.items| else Position(p.items, exit), h, t, locals)
        && Matches(p, s1.bindings, sc, locals)
    case _ => Escapes(p, m, k, brk, cont, fuel, out)
  }

  lemma {:induction false} GuardFollows(p: Program, fuel: nat, n: Option<Node>, s: Assembly, exit: nat, next: nat,
                                        brk: Option<nat>, cont: Option<nat>, m: Machine, scope: Scope,
                                        pending: set<nat>)
    requires OptionWellFormed(n) && Valid(s, pending) && DefinedIn(n) !! s.bindings.Keys
    requires CompileGuard(n, s, exit, next, brk, cont).Success?
    requires HostsCode(p, s, CompileGuard(n, s, exit, next, brk, cont), m, scope, brk, cont)
    requires Position(p.items, exit) < |p.items|
    requires |CompileGuard(n, s, exit, next, brk, cont).value.items| < |p.items|
    requires p.items[|CompileGuard(n, s, exit, next, brk, cont).value.items|] == Label(next)
    ensures Guards(p, m, s.temporaries, CompileGuard(n, s, exit, next, brk, cont).value, exit, brk, cont, fuel,
                   EvalGuard(p.runtime, fuel, n, scope, m.heap, m.tape))
    decreases fuel, n, 2
  {
    hide Valid, Holds, Matches, Leads, Survives, Escapes, Lands, Compile, Eval, Step, Follows;
    var s2 := CompileGuard(n, s, exit, next, brk, cont).value;
    if n.Some? {
      var (s1, o) := Compile(n.value, s, brk, cont).value;
      NodeFollows(p, fuel, n.value, s, brk, cont, m, scope, pending);
      var out := Eval(p.runtime, fuel, n.value, scope, m.heap, m.tape);
      if out.Normal? {
        var locals := Landing(p, m, s.temporaries, s1, o, brk, cont, fuel, out);
        LandsParts(p, m, s.temporaries, s1, o, out.value, out.scope, out.heap, out.tape, locals);
        var m1 := Machine(|s1.items|, locals, out.heap, out.tape);
        assert p.items[m1.pc] == s2.items[|s1.items|] == Instruction(JUMP_IF_FALSE, [o, To(exit)]);
        StepJumpIfFalse(p, m1, o, out.value, exit);
        LeadsByStep(p, m1);
        LeadsThrough(p, m, m1, Step(p, m1));
        assert JumpsTo(p, m, s.temporaries, if out.value == Boolean(true) then |s2.items| else Position(p.items, exit),
                       out.heap, out.tape, locals);
      } else {
        Escaping(p, m, s.temporaries, s1, o, brk, cont, fuel, out);
      }
    } else {
      PositionOfLabel(p.items, next, |s2.items|);
      assert p.items[m.pc] == s2.items[|s.items|] == Instruction(JUMP, [To(next)]);
      StepJump(p, m, next);
      LeadsByStep(p, m);
      KeptAtRest(s.temporaries, m.locals);
      assert JumpsTo(p, m, s.temporaries, |s2.items|, m.heap, m.tape, m.locals);
    }
  }

  lemma EscapesLess(p: Program, m: Machine, k: nat, brk: Option<nat>, cont: Option<nat>, fuel: nat, out: Outcome)
    requires fuel > 0 && Escapes(p, m, k, brk, cont, fuel, out)
    ensures Escapes(p, m, k, brk, cont, fuel - 1, out)
  {
    if out.TimedOut? {
      assert Survives(p, m, fuel - 1) by {
        IterateSum(p, m, fuel - 1, fuel - (fuel - 1));
      }
    }
  }

  /** One step more makes up for one unit of fuel less. */
  lemma TurnFollows(p: Program, m: Machine, k: nat, s1: Assembly, o: Operand,
                    brk: Option<nat>, cont: Option<nat>, fuel: nat, out: Outcome)
    requires fuel > 0 && Step(p, m).Running? && Step(p, m).machine.locals == m.locals && k <= |m.locals|
    requires Follows(p, Step(p, m).machine, k, s1, o, brk, cont, fuel - 1, out)
    ensures Follows(p, m, k, s1, o, brk, cont, fuel, out)
  {
    hide Kept, Leads, Holds, Matches, Lands;
    var m1 := Step(p, m).machine;
    LeadsByStep(p, m);
    KeptAtRest(k, m.locals);
    if out.TimedOut? {
      assert Survives(p, m, (fuel - 1) + 1);
    } else if out.Normal? {
      FollowsThrough(p, m, m1, k, k, s1, o, brk, cont, fuel, out);
    } else {
      EscapesThrough(p, m, m1, k, k, brk, cont, fuel - 1, out);
    }
  }

  /** The end of a loop in the program: the jump back and the point behind the loop. */
  lemma LoopEndLayout(p: Program, n: Option<Node>, s: Assembly, entry: nat, merge: nat, brk: Option<nat>,
                      cont: Option<nat>)
    requires CompileLoopEnd(n, s, entry, merge, brk, cont).Success?
    requires Inside(CompileLoopEnd(n, s, entry, merge, brk, cont).value.0, p)
    ensures CompileIfPresent(n, s, brk, cont).Success?
    ensures var s1 := CompileIfPresent(n, s, brk, cont).value;
            var (s2, o) := CompileLoopEnd(n, s, entry, merge, brk, cont).value;
            && |s2.items| == |s1.items| + 2 && |s1.items| + 1 < |p.items|
            && p.items[|s1.items|] == Instruction(JUMP, [To(entry)])
            && p.items[|s1.items| + 1] == Label(merge)
            && Position(p.items, merge) == |s1.items| + 1
            && Inside(s1, p) && s1.temporaries == s2.temporaries && s1.bindings == s2.bindings
            && (forall locals :: Holds(p, o, locals, Void))
  {
    hide CompileIfPresent;
    var s1 := CompileIfPresent(n, s, brk, cont).value;
    var s' := EmitJumpAndLabel(s1, entry, merge);
    PositionOfLabel(p.items, merge, |s1.items| + 1);
    forall locals ensures Holds(p, AddLiteral(s', Void).1, locals, Void) {
      LiteralHolds(p, s', Void, locals);
    }
  }

  /** Leaving the loop: the machine stands at the point behind it. */
  lemma ExitFollows(p: Program, n: Node, s: Assembly, s3: Assembly, s4: Assembly, o: Operand, m: Machine,
                    d: set<Binding>, scope: Scope, heap: Heap, tape: Tape, locals: seq<Value>,
                    brk: Option<nat>, cont: Option<nat>, fuel: nat, p0: set<nat>, p1: set<nat>)
    requires n.While? || n.DoWhile?
    requires CompileLoopEnd(n.step, s3, s.labels, s.labels + 3, brk, cont) == Success((s4, o))
    requires Inside(s4, p) && Valid(s, p0) && Shape(s, s4, d, p1) && s.bindings.Keys !! d
    requires Matches(p, s.bindings, scope, m.locals)
    requires JumpsTo(p, m, s.temporaries, Position(p.items, s.labels + 3), heap, tape, locals)
    ensures Follows(p, m, s.temporaries, s4, o, brk, cont, fuel, Normal(Void, scope, heap, tape))
  {
    hide Holds, Matches, Leads, CompileLoopEnd, Valid, Grown, Rebound;
    LoopEndLayout(p, n.step, s3, s.labels, s.labels + 3, brk, cont);
    var at := Position(p.items, s.labels + 3);
    PassesLabel(p, s.labels + 3, at);
    LeadsThrough(p, m, Machine(at, locals, heap, tape), Running(Machine(at + 1, locals, heap, tape)));
    ScopeSurvives(p, s, s4, d, scope, m.locals, locals, p0, p1);
    assert Lands(p, m, s.temporaries, s4, o, Void, scope, heap, tape, locals);
  }

  /** The continue expression, the jump back and the remaining iterations. */
  lemma {:induction false} LoopEndFollows(p: Program, fuel: nat, n: Node, s: Assembly, s3: Assembly, s4: Assembly,
                                          o: Operand, brk: Option<nat>, cont: Option<nat>, m: Machine,
                                          scope: Scope, sc: Scope,
                                          pending: set<nat>, p3: set<nat>)
    requires fuel > 0 && (n.While? || n.DoWhile?) && WellFormed(n) && Valid(s, pending) && Defined(n) !! s.bindings.Keys
    requires Compile(n, s, brk, cont) == Success((s4, o))
    requires CompileLoopEnd(n.step, s3, s.labels, s.labels + 3, brk, cont) == Success((s4, o))
    requires Valid(s3, p3) && DefinedIn(n.step) !! s3.bindings.Keys
    requires Hosts(p, s3, s4, m, sc, brk, cont) && Matches(p, s.bindings, scope, m.locals)
    requires s.temporaries <= s3.temporaries && |s.items| < |p.items| && p.items[|s.items|] == Label(s.labels)
    ensures Follows(p, m, s.temporaries, s4, o, brk, cont, fuel - 1,
                    EvalNext(p.runtime, fuel, n, scope, sc, m.heap, m.tape))
    decreases fuel, n, 0, 0
  {
    hide Valid, Holds, Matches, Leads, Survives, Escapes;
    hide Follows, Compile, CompileLoopEnd, Eval, CompileIfPresent, EvalOptional;
    hide Step, Defined, DefinedIn, Kept;
    LoopEndLayout(p, n.step, s3, s.labels, s.labels + 3, brk, cont);
    var s5 := CompileIfPresent(n.step, s3, brk, cont).value;
    IfPresentFollows(p, fuel, n.step, s3, brk, cont, m, sc, p3);
    var out := EvalOptional(p.runtime, fuel, n.step, sc, m.heap, m.tape);
    KeptAtRest(s.temporaries, m.locals);
    LeadsNowhere(p, m);
    if out.Normal? {
      var locals :| JumpsTo(p, m, s3.temporaries, |s5.items|, out.heap, out.tape, locals);
      KeptLess(s3.temporaries, s.temporaries, m.locals, locals);
      KeptLength(s3.temporaries, m.locals, locals);
      var m5 := Machine(|s5.items|, locals, out.heap, out.tape);
      var m6 := m5.(pc := |s.items|);
      PositionOfLabel(p.items, s.labels, |s.items|);
      StepJump(p, m5, s.labels);
      LeadsByStep(p, m5);
      LeadsThrough(p, m, m5, Running(m6));
      MatchesKept(p, s, scope, m.locals, locals, pending);
      NodeFollows(p, fuel - 1, n, s, brk, cont, m6, scope, pending);
      FollowsThrough(p, m, m6, s.temporaries, s.temporaries, s4, o, brk, cont, fuel - 1,
                     Eval(p.runtime, fuel - 1, n, scope, out.heap, out.tape));
    } else {
      EscapesThrough(p, m, m, s.temporaries, s3.temporaries, brk, cont, fuel, out);
      EscapesLess(p, m, s.temporaries, brk, cont, fuel, out);
      Escaping(p, m, s.temporaries, s4, o, brk, cont, fuel - 1, out);
    }
  }

  /** A loop body ends at pc when it completes or continues, and at the merge label when it breaks. */
  ghost predicate Turns(p: Program, m: Machine, k: nat, pc: nat, merge: nat,
                        brk: Option<nat>, cont: Option<nat>, fuel: nat, out: Outcome) {
    match out
    case Normal(_, _, h, t) => exists locals :: JumpsTo(p, m, k, pc, h, t, locals)
    case Broke(h, t) => exists locals :: JumpsTo(p, m, k, Position(p.items, merge), h, t, locals)
    case Continued(_, _) => false
    case _ => Escapes(p, m, k, brk, cont, fuel, out)
  }

  lemma {:induction false} BodyFollows(p: Program, fuel: nat, n: Option<Node>, s: Assembly, merge: nat, next: nat,
                                       brk: Option<nat>, cont: Option<nat>, m: Machine, scope: Scope, pending: set<nat>)
    requires OptionWellFormed(n) && Valid(s, pending) && DefinedIn(n) !! s.bindings.Keys
    requires CompileIfPresent(n, s, Some(merge), Some(next)).Success?
    requires HostsCode(p, s, CompileIfPresent(n, s, Some(merge), Some(next)), m, scope, Some(merge), Some(next))
    requires EmitJumpAndLabel(CompileIfPresent(n, s, Some(merge), Some(next)).value, next, next).items <= p.items
    ensures var s1 := CompileIfPresent(n, s, Some(merge), Some(next)).value;
            Turns(p, m, s.temporaries, |EmitJumpAndLabel(s1, next, next).items|, merge, brk, cont, fuel,
                  LoopBody(EvalOptional(p.runtime, fuel, n, scope, m.heap, m.tape)))
    decreases fuel, n, 3
  {
    hide Valid, Holds, Matches, Leads, Survives, Step, CompileIfPresent, EvalOptional, Kept;
    IfPresentFollows(p, fuel, n, s, Some(merge), Some(next), m, scope, pending);
    var s1 := CompileIfPresent(n, s, Some(merge), Some(next)).value;
    var s2 := EmitJumpAndLabel(s1, next, next);
    assert p.items[|s1.items|] == s2.items[|s1.items|] == Instruction(JUMP, [To(next)]);
    assert p.items[|s1.items| + 1] == s2.items[|s1.items| + 1] == Label(next);
    JumpsBehindLabel(p, next, |s1.items| + 1, |s1.items|);
    PassesLabel(p, next, |s1.items| + 1);
    PositionOfLabel(p.items, next, |s1.items| + 1);
    var out := EvalOptional(p.runtime, fuel, n, scope, m.heap, m.tape);
    match out
    case Normal(_, _, h, t) =>
      var locals :| JumpsTo(p, m, s.temporaries, |s1.items|, h, t, locals);
      LeadsThrough(p, m, Machine(|s1.items|, locals, h, t), Running(Machine(|s2.items|, locals, h, t)));
      assert JumpsTo(p, m, s.temporaries, |s2.items|, h, t, locals);
    case Continued(h, t) =>
      var locals :| JumpsTo(p, m, s.temporaries, |s1.items| + 1, h, t, locals);
      LeadsThrough(p, m, Machine(|s1.items| + 1, locals, h, t), Running(Machine(|s2.items|, locals, h, t)));
      assert JumpsTo(p, m, s.temporaries, |s2.items|, h, t, locals);
    case _ =>
  }

  /** Everything before the end of a compiled part is inside the program with it. */
  lemma InsideParts(p: Program, a: Assembly, b: Assembly, c: Assembly, d: Assembly, e: Assembly)
    requires Grown(a, b) && Grown(b, c) && Grown(c, d) && Grown(d, e) && Inside(e, p)
    ensures Inside(a, p) && Inside(b, p) && Inside(c, p) && Inside(d, p)
    ensures a.temporaries <= b.temporaries <= c.temporaries <= d.temporaries <= e.temporaries
  {
  }

  lemma EmittedItem(p: Program, s: Assembly, item: Item)
    requires Emit(s, item).items <= p.items
    ensures |s.items| < |p.items| && p.items[|s.items|] == item
  {
    assert Emit(s, item).items[|s.items|] == item;
  }

  lemma {:induction false} WhileFollows(p: Program, fuel: nat, n: Node, s: Assembly, brk: Option<nat>,
                                        cont: Option<nat>, m: Machine, scope: Scope, pending: set<nat>)
    requires n.While? && WellFormed(n) && Valid(s, pending) && Defined(n) !! s.bindings.Keys
    requires HostsNode(p, s, Compile(n, s, brk, cont), m, scope, brk, cont)
    ensures FollowsNode(p, m, s.temporaries, Compile(n, s, brk, cont), brk, cont, fuel,
                        Eval(p.runtime, fuel, n, scope, m.heap, m.tape))
    decreases fuel, n, 0, 3
  {
    hide Valid, Holds, Matches, Leads, Escapes, Follows, Compile, CompileLoopEnd, CompileIfPresent, CompileGuard;
    hide EvalGuard, EvalOptional, EvalNext, Grown, Rebound, Kept, ValidOperand, Defined, DefinedIn, EmitJumpAndLabel;
    if fuel == 0 {
      NoFuel(p, m, s.temporaries, Compile(n, s, brk, cont).value.0, Compile(n, s, brk, cont).value.1, brk, cont);
    } else {
      var s0, s1, s2, s3, s4, o := WhileParts(n, s, brk, cont, pending);
      var s1' := Emit(s1, Label(s.labels + 1));
      InsideParts(p, s1', s2, s3, s4, s4);
      InsideParts(p, s, s0, s1, s1', s1');
      EmittedItem(p, s.(labels := s.labels + 4), Label(s.labels));
      assert Step(p, m) == Running(m.(pc := m.pc + 1));
      var m0 := m.(pc := |s0.items|);
      assert Step(p, m) == Running(m0);
      WhileTurnFollows(p, fuel, n, s, brk, cont, m0, scope, pending);
      TurnFollows(p, m, s.temporaries, s4, o, brk, cont, fuel, Eval(p.runtime, fuel, n, scope, m.heap, m.tape));
    }
  }

  lemma NoFuel(p: Program, m: Machine, k: nat, s1: Assembly, o: Operand, brk: Option<nat>, cont: Option<nat>)
    ensures Follows(p, m, k, s1, o, brk, cont, 0, TimedOut)
  {
  }

  /** One iteration from the condition on. */
  lemma {:induction false} WhileTurnFollows(p: Program, fuel: nat, n: Node, s: Assembly, brk: Option<nat>,
                                            cont: Option<nat>, m: Machine, scope: Scope, pending: set<nat>)
    requires fuel > 0 && n.While? && WellFormed(n) && Valid(s, pending) && Defined(n) !! s.bindings.Keys
    requires Compile(n, s, brk, cont).Success?
    requires HostsNode(p, Emit(s, Label(s.labels)), Compile(n, s, brk, cont), m, scope, brk, cont)
    ensures var (s1, o) := Compile(n, s, brk, cont).value;
            Follows(p, m, s.temporaries, s1, o, brk, cont, fuel - 1, Eval(p.runtime, fuel, n, scope, m.heap, m.tape))
    decreases fuel, n, 0, 2
  {
    hide Valid, Holds, Matches, Leads, Escapes, Follows, Compile, CompileLoopEnd, CompileIfPresent, CompileGuard, Step;
    hide EvalGuard, EvalOptional, EvalNext, Grown, Rebound, Kept;
    hide ValidOperand, Defined, DefinedIn, EmitJumpAndLabel, Inside;
    var s0, s1, s2, s3, s4, o := WhileParts(n, s, brk, cont, pending);
    var s1' := Emit(s1, Label(s.labels + 1));
    var p1 := pending + {s.labels + 1, s.labels + 2, s.labels + 3};
    var p2 := pending + {s.labels + 2, s.labels + 3};
    var k := s.temporaries;
    WhileScopes(p, n, s, s0, s1, s2, s3, s4, p1, p2, pending);
    LoopEndLayout(p, n.step, s3, s.labels, s.labels + 3, brk, cont);
    GuardFollows(p, fuel, n.guard, s0, s.labels + 3, s.labels + 1, brk, cont, m, scope, p1);
    var out := EvalGuard(p.runtime, fuel, n.guard, scope, m.heap, m.tape);
    if !out.Normal? {
      EscapesLess(p, m, k, brk, cont, fuel, out);
      Escaping(p, m, k, s4, o, brk, cont, fuel - 1, out);
    } else {
      var locals :|
        && JumpsTo(p, m, k, if out.value == Boolean(true) then |s1.items| else Position(p.items, s.labels + 3),
                   out.heap, out.tape, locals)
        && Matches(p, s1.bindings, out.scope, locals);
      if out.value == Boolean(true) {
        var m1 := Machine(|s1.items|, locals, out.heap, out.tape);
        var m2 := m1.(pc := |s1'.items|);
        PassesLabel(p, s.labels + 1, |s1.items|);
        LeadsThrough(p, m, m1, Running(m2));
        MatchesKept(p, s, scope, m.locals, locals, pending);
        KeptLength(k, m.locals, locals);
        WhileBodyFollows(p, fuel, n, s, brk, cont, m2, scope, out.scope, pending, s1, s2, s3, s4, o);
        FollowsThrough(p, m, m2, k, k, s4, o, brk, cont, fuel - 1, Eval(p.runtime, fuel, n, scope, m.heap, m.tape));
      } else {
        ExitFollows(p, n, s, s3, s4, o, m, Defined(n), scope, out.heap, out.tape, locals, brk, cont, fuel - 1,
                    pending, pending);
      }
    }
  }

  /** Shapes, positions and disjointness that an iteration of a while loop needs. */
  lemma WhileScopes(p: Program, n: Node, s: Assembly, s0: Assembly, s1: Assembly, s2: Assembly, s3: Assembly,
                    s4: Assembly, p1: set<nat>, p2: set<nat>, pending: set<nat>)
    requires n.While? && WellFormed(n) && Defined(n) !! s.bindings.Keys
    requires s0 == Emit(s.(labels := s.labels + 4), Label(s.labels))
    requires Shape(s, s0, {}, p1) && Shape(s0, s1, DefinedIn(n.guard), p1)
    requires Shape(s1, Emit(s1, Label(s.labels + 1)), {}, p2)
    requires Shape(Emit(s1, Label(s.labels + 1)), s2, DefinedIn(n.body), p2)
    requires Shape(s2, s3, {}, pending + {s.labels + 3}) && Shape(s3, s4, DefinedIn(n.step), pending)
    requires Inside(s4, p)
    ensures var s1' := Emit(s1, Label(s.labels + 1));
            && Inside(s0, p) && Inside(s1, p) && Inside(s1', p) && Inside(s2, p) && Inside(s3, p)
            && s3.items <= p.items && UniqueLabels(p.items)
            && s.temporaries == s0.temporaries <= s1.temporaries
               == s1'.temporaries <= s2.temporaries <= s3.temporaries <= s4.temporaries
            && s0.bindings == s.bindings && s1'.bindings == s1.bindings
            && DefinedIn(n.guard) !! s0.bindings.Keys && DefinedIn(n.body) !! s1'.bindings.Keys
            && DefinedIn(n.step) !! s3.bindings.Keys
            && Shape(s1', s3, DefinedIn(n.body), pending + {s.labels + 3})
            && Shape(s, s4, Defined(n), pending)
            && |s.items| < |p.items| && p.items[|s.items|] == Label(s.labels)
            && |s1.items| < |p.items| && p.items[|s1.items|] == Label(s.labels + 1)
  {
    hide Valid, UniqueLabels;
    var s1' := Emit(s1, Label(s.labels + 1));
    var p3 := pending + {s.labels + 3};
    InsideParts(p, s1', s2, s3, s4, s4);
    InsideParts(p, s, s0, s1, s1', s1');
    EmittedItem(p, s.(labels := s.labels + 4), Label(s.labels));
    EmittedItem(p, s1, Label(s.labels + 1));
    ShapeThrough(s, s0, s1, {}, DefinedIn(n.guard), p1, p1);
    ShapeThrough(s, s1, s1', DefinedIn(n.guard), {}, p1, p2);
    ShapeThrough(s1', s2, s3, DefinedIn(n.body), {}, p2, p3);
    ShapeThrough(s, s1', s3, DefinedIn(n.guard), DefinedIn(n.body), p2, p3);
    ShapeThrough(s, s3, s4, DefinedIn(n.guard) + DefinedIn(n.body), DefinedIn(n.step), p3, pending);
  }

  lemma {:induction false} WhileBodyFollows(p: Program, fuel: nat, n: Node, s: Assembly, brk: Option<nat>,
                                            cont: Option<nat>, m: Machine, scope: Scope, sc: Scope, pending: set<nat>,
                                            s1: Assembly, s2: Assembly, s3: Assembly, s4: Assembly, o: Operand)
    requires fuel > 0 && n.While? && WellFormed(n) && Valid(s, pending) && Defined(n) !! s.bindings.Keys
    requires Compile(n, s, brk, cont) == Success((s4, o))
    requires CompileIfPresent(n.body, Emit(s1, Label(s.labels + 1)), Some(s.labels + 3), Some(s.labels + 2))
             == Success(s2)
    requires s3 == EmitJumpAndLabel(s2, s.labels + 2, s.labels + 2)
    requires CompileLoopEnd(n.step, s3, s.labels, s.labels + 3, brk, cont) == Success((s4, o))
    requires Hosts(p, Emit(s1, Label(s.labels + 1)), s4, m, sc, brk, cont) && Matches(p, s.bindings, scope, m.locals)
    requires Valid(Emit(s1, Label(s.labels + 1)), pending + {s.labels + 2, s.labels + 3})
    requires Shape(Emit(s1, Label(s.labels + 1)), s3, DefinedIn(n.body), pending + {s.labels + 3})
    requires Shape(s, s4, Defined(n), pending) && Inside(s2, p) && s3.items <= p.items && UniqueLabels(p.items)
    requires s.temporaries <= s1.temporaries <= s2.temporaries <= s3.temporaries <= s4.temporaries
    requires DefinedIn(n.body) !! s1.bindings.Keys && DefinedIn(n.step) !! s3.bindings.Keys
    requires |s.items| < |p.items| && p.items[|s.items|] == Label(s.labels)
    ensures Follows(p, m, s.temporaries, s4, o, brk, cont, fuel - 1,
                    match LoopBody(EvalOptional(p.runtime, fuel, n.body, sc, m.heap, m.tape))
                    case Normal(_, _, h, t) => EvalNext(p.runtime, fuel, n, scope, sc, h, t)
                    case Broke(h, t) => Normal(Void, scope, h, t)
                    case other => other)
    decreases fuel, n, 0, 1
  {
    hide Valid, Holds, Matches, Leads, Escapes, Follows, Compile, CompileLoopEnd, CompileIfPresent, Step;
    hide EvalOptional, EvalNext, Grown, Rebound, Kept, Defined, DefinedIn, EmitJumpAndLabel, LoopBody, Inside;
    var s1' := Emit(s1, Label(s.labels + 1));
    var p2, p3 := pending + {s.labels + 2, s.labels + 3}, pending + {s.labels + 3};
    var k := s.temporaries;
    LoopEndLayout(p, n.step, s3, s.labels, s.labels + 3, brk, cont);
    LabelPlaced(p, s2, s.labels + 2, s.labels + 2);
    BodyFollows(p, fuel, n.body, s1', s.labels + 3, s.labels + 2, brk, cont, m, sc, p2);
    var out := LoopBody(EvalOptional(p.runtime, fuel, n.body, sc, m.heap, m.tape));
    KeptAtRest(k, m.locals);
    LeadsNowhere(p, m);
    if out.Normal? {
      var h, t := out.heap, out.tape;
      var locals :| JumpsTo(p, m, s1'.temporaries, |s3.items|, h, t, locals);
      var m3 := Machine(|s3.items|, locals, h, t);
      KeptLength(s1'.temporaries, m.locals, locals);
      KeptLess(s1'.temporaries, k, m.locals, locals);
      ScopeSurvives(p, s1', s3, DefinedIn(n.body), sc, m.locals, locals, p2, p3);
      MatchesKept(p, s, scope, m.locals, locals, pending);
      LoopEndFollows(p, fuel, n, s, s3, s4, o, brk, cont, m3, scope, sc, pending, p3);
      FollowsThrough(p, m, m3, k, k, s4, o, brk, cont, fuel - 1, EvalNext(p.runtime, fuel, n, scope, sc, h, t));
    } else if out.Broke? {
      var h, t := out.heap, out.tape;
      var locals :| JumpsTo(p, m, s1'.temporaries, Position(p.items, s.labels + 3), h, t, locals);
      KeptLess(s1'.temporaries, k, m.locals, locals);
      ExitFollows(p, n, s, s3, s4, o, m, Defined(n), scope, h, t, locals, brk, cont, fuel - 1, pending, pending);
    } else {
      EscapesThrough(p, m, m, k, s1'.temporaries, brk, cont, fuel, out);
      EscapesLess(p, m, k, brk, cont, fuel, out);
      Escaping(p, m, k, s4, o, brk, cont, fuel - 1, out);
    }
  }

  lemma LabelPlaced(p: Program, s: Assembly, target: nat, l: nat)
    requires EmitJumpAndLabel(s, target, l).items <= p.items && UniqueLabels(p.items)
    ensures Position(p.items, l) < |p.items|
  {
    var s1 := EmitJumpAndLabel(s, target, l);
    assert s1.items[|s.items| + 1] == Label(l);
    PositionOfLabel(p.items, l, |s.items| + 1);
  }

  lemma {:induction false} DoWhileFollows(p: Program, fuel: nat, n: Node, s: Assembly, brk: Option<nat>,
                                          cont: Option<nat>, m: Machine, scope: Scope, pending: set<nat>)
    requires n.DoWhile? && WellFormed(n) && Valid(s, pending) && Defined(n) !! s.bindings.Keys
    requires HostsNode(p, s, Compile(n, s, brk, cont), m, scope, brk, cont)
    ensures FollowsNode(p, m, s.temporaries, Compile(n, s, brk, cont), brk, cont, fuel,
                        Eval(p.runtime, fuel, n, scope, m.heap, m.tape))
    decreases fuel, n, 0, 3
  {
    hide Valid, Holds, Matches, Leads, Escapes, Follows, Compile, CompileLoopEnd, CompileIfPresent, CompileGuard;
    hide EvalGuard, EvalOptional, EvalNext, Grown, Rebound, Kept, ValidOperand, Defined, DefinedIn, EmitJumpAndLabel;
    if fuel == 0 {
      NoFuel(p, m, s.temporaries, Compile(n, s, brk, cont).value.0, Compile(n, s, brk, cont).value.1, brk, cont);
    } else {
      var s0, s1, s2, s3, s4, o := DoWhileParts(n, s, brk, cont, pending);
      InsideParts(p, s2, s3, Emit(s3, Label(s.labels + 2)), s4, s4);
      InsideParts(p, s, s0, s1, s2, s2);
      EmittedItem(p, s.(labels := s.labels + 4), Label(s.labels));
      assert Step(p, m) == Running(m.(pc := m.pc + 1));
      var m0 := m.(pc := |s0.items|);
      assert Step(p, m) == Running(m0);
      DoWhileTurnFollows(p, fuel, n, s, brk, cont, m0, scope, pending);
      TurnFollows(p, m, s.temporaries, s4, o, brk, cont, fuel, Eval(p.runtime, fuel, n, scope, m.heap, m.tape));
    }
  }

  /** Shapes, positions and disjointness that an iteration of a do-while loop needs. */
  lemma DoWhileScopes(p: Program, n: Node, s: Assembly, s0: Assembly, s1: Assembly, s2: Assembly, s3: Assembly,
                      s4: Assembly, p1: set<nat>, p2: set<nat>, pending: set<nat>)
    requires n.DoWhile? && WellFormed(n) && Defined(n) !! s.bindings.Keys
    requires s0 == Emit(s.(labels := s.labels + 4), Label(s.labels))
    requires Shape(s, s0, {}, p1) && Shape(s0, s1, DefinedIn(n.body), p1) && Shape(s1, s2, {}, p2)
    requires Shape(s2, s3, DefinedIn(n.guard), p2)
    requires Shape(s3, Emit(s3, Label(s.labels + 2)), {}, pending + {s.labels + 3})
    requires Shape(Emit(s3, Label(s.labels + 2)), s4, DefinedIn(n.step), pending)
    requires Inside(s4, p)
    ensures var s3' := Emit(s3, Label(s.labels + 2));
            && Inside(s0, p) && Inside(s1, p) && Inside(s2, p) && Inside(s3, p) && Inside(s3', p)
            && s2.items <= p.items && UniqueLabels(p.items)
            && s.temporaries == s0.temporaries <= s1.temporaries <= s2.temporaries <= s3.temporaries
               == s3'.temporaries <= s4.temporaries
            && s0.bindings == s.bindings && s3'.bindings == s3.bindings
            && DefinedIn(n.body) !! s0.bindings.Keys && DefinedIn(n.guard) !! s2.bindings.Keys
            && DefinedIn(n.step) !! s3'.bindings.Keys
            && Shape(s0, s2, DefinedIn(n.body), p2) && Shape(s, s4, Defined(n), pending)
            && |s.items| < |p.items| && p.items[|s.items|] == Label(s.labels)
            && |s3.items| < |p.items| && p.items[|s3.items|] == Label(s.labels + 2)
  {
    hide Valid, UniqueLabels;
    var s3' := Emit(s3, Label(s.labels + 2));
    var p3 := pending + {s.labels + 3};
    InsideParts(p, s2, s3, s3', s4, s4);
    InsideParts(p, s, s0, s1, s2, s2);
    EmittedItem(p, s.(labels := s.labels + 4), Label(s.labels));
    EmittedItem(p, s3, Label(s.labels + 2));
    ShapeThrough(s0, s1, s2, DefinedIn(n.body), {}, p1, p2);
    ShapeThrough(s, s0, s2, {}, DefinedIn(n.body), p1, p2);
    ShapeThrough(s2, s3, s3', DefinedIn(n.guard), {}, p2, p3);
    ShapeThrough(s, s2, s3', DefinedIn(n.body), DefinedIn(n.guard), p2, p3);
    ShapeThrough(s, s3', s4, DefinedIn(n.body) + DefinedIn(n.guard), DefinedIn(n.step), p3, pending);
    assert DefinedIn(n.body) + DefinedIn(n.guard) + DefinedIn(n.step) == Defined(n);
  }

  /** One iteration from the body on. */
  lemma {:induction false} DoWhileTurnFollows(p: Program, fuel: nat, n: Node, s: Assembly, brk: Option<nat>,
                                              cont: Option<nat>, m: Machine, scope: Scope, pending: set<nat>)
    requires fuel > 0 && n.DoWhile? && WellFormed(n) && Valid(s, pending) && Defined(n) !! s.bindings.Keys
    requires Compile(n, s, brk, cont).Success?
    requires HostsNode(p, Emit(s, Label(s.labels)), Compile(n, s, brk, cont), m, scope, brk, cont)
    ensures var (s1, o) := Compile(n, s, brk, cont).value;
            Follows(p, m, s.temporaries, s1, o, brk, cont, fuel - 1, Eval(p.runtime, fuel, n, scope, m.heap, m.tape))
    decreases fuel, n, 0, 2
  {
    hide Valid, Holds, Matches, Leads, Escapes, Follows, Compile, CompileLoopEnd, CompileIfPresent, CompileGuard, Step;
    hide EvalGuard, EvalOptional, EvalNext, Grown, Rebound, Kept;
    hide ValidOperand, Defined, DefinedIn, EmitJumpAndLabel, Inside, LoopBody;
    var s0, s1, s2, s3, s4, o := DoWhileParts(n, s, brk, cont, pending);
    var s3' := Emit(s3, Label(s.labels + 2));
    var p1 := pending + {s.labels + 1, s.labels + 2, s.labels + 3};
    var p2 := pending + {s.labels + 2, s.labels + 3};
    var k := s.temporaries;
    DoWhileScopes(p, n, s, s0, s1, s2, s3, s4, p1, p2, pending);
    LoopEndLayout(p, n.step, s3', s.labels, s.labels + 3, brk, cont);
    LabelPlaced(p, s1, s.labels + 1, s.labels + 1);
    BodyFollows(p, fuel, n.body, s0, s.labels + 3, s.labels + 1, brk, cont, m, scope, p1);
    var out := LoopBody(EvalOptional(p.runtime, fuel, n.body, scope, m.heap, m.tape));
    var whole := Eval(p.runtime, fuel, n, scope, m.heap, m.tape);
    if out.Normal? {
      var h, t := out.heap, out.tape;
      var locals :| JumpsTo(p, m, k, |s2.items|, h, t, locals);
      var m2 := Machine(|s2.items|, locals, h, t);
      KeptLength(k, m.locals, locals);
      ScopeSurvives(p, s0, s2, DefinedIn(n.body), scope, m.locals, locals, p1, p2);
      MatchesKept(p, s, scope, m.locals, locals, pending);
      DoWhileGuardFollows(p, fuel, n, s, brk, cont, m2, scope, pending, s2, s3, s4, o);
      FollowsThrough(p, m, m2, k, k, s4, o, brk, cont, fuel - 1, whole);
    } else if out.Broke? {
      var h, t := out.heap, out.tape;
      var locals :| JumpsTo(p, m, k, Position(p.items, s.labels + 3), h, t, locals);
      ExitFollows(p, n, s, s3', s4, o, m, Defined(n), scope, h, t, locals, brk, cont, fuel - 1, pending, pending);
    } else {
      EscapesLess(p, m, k, brk, cont, fuel, out);
      Escaping(p, m, k, s4, o, brk, cont, fuel - 1, out);
    }
  }

  lemma {:induction false} DoWhileGuardFollows(p: Program, fuel: nat, n: Node, s: Assembly, brk: Option<nat>,
                                               cont: Option<nat>, m: Machine, scope: Scope, pending: set<nat>,
                                               s2: Assembly, s3: Assembly, s4: Assembly, o: Operand)
    requires fuel > 0 && n.DoWhile? && WellFormed(n) && Valid(s, pending) && Defined(n) !! s.bindings.Keys
    requires Compile(n, s, brk, cont) == Success((s4, o))
    requires CompileGuard(n.guard, s2, s.labels + 3, s.labels + 2, brk, cont) == Success(s3)
    requires CompileLoopEnd(n.step, Emit(s3, Label(s.labels + 2)), s.labels, s.labels + 3, brk, cont)
             == Success((s4, o))
    requires Hosts(p, s2, s4, m, scope, brk, cont) && Matches(p, s.bindings, scope, m.locals)
    requires Valid(s2, pending + {s.labels + 2, s.labels + 3})
    requires Valid(Emit(s3, Label(s.labels + 2)), pending + {s.labels + 3})
    requires Shape(s, s4, Defined(n), pending) && Inside(s3, p)
    requires s.temporaries <= s2.temporaries <= s3.temporaries <= s4.temporaries
    requires DefinedIn(n.guard) !! s2.bindings.Keys && DefinedIn(n.step) !! s3.bindings.Keys
    requires |s.items| < |p.items| && p.items[|s.items|] == Label(s.labels)
    requires |s3.items| < |p.items| && p.items[|s3.items|] == Label(s.labels + 2)
    ensures Follows(p, m, s.temporaries, s4, o, brk, cont, fuel - 1,
                    match EvalGuard(p.runtime, fuel, n.guard, scope, m.heap, m.tape)
                    case Normal(go, sc, h, t) =>
                      if go != Boolean(true) then Normal(Void, scope, h, t)
                      else EvalNext(p.runtime, fuel, n, scope, sc, h, t)
                    case other => other)
    decreases fuel, n, 0, 1
  {
    hide Valid, Holds, Matches, Leads, Escapes, Follows, Compile, CompileLoopEnd, CompileGuard, Step;
    hide EvalGuard, EvalNext, Grown, Rebound, Kept, Defined, DefinedIn, Inside;
    var s3' := Emit(s3, Label(s.labels + 2));
    var p2, p3 := pending + {s.labels + 2, s.labels + 3}, pending + {s.labels + 3};
    var k := s.temporaries;
    LoopEndLayout(p, n.step, s3', s.labels, s.labels + 3, brk, cont);
    GuardFollows(p, fuel, n.guard, s2, s.labels + 3, s.labels + 2, brk, cont, m, scope, p2);
    var out := EvalGuard(p.runtime, fuel, n.guard, scope, m.heap, m.tape);
    KeptAtRest(k, m.locals);
    LeadsNowhere(p, m);
    if !out.Normal? {
      EscapesThrough(p, m, m, k, s2.temporaries, brk, cont, fuel, out);
      EscapesLess(p, m, k, brk, cont, fuel, out);
      Escaping(p, m, k, s4, o, brk, cont, fuel - 1, out);
    } else {
      var locals :|
        && JumpsTo(p, m, s2.temporaries, if out.value == Boolean(true) then |s3.items|
                   else Position(p.items, s.labels + 3),
                   out.heap, out.tape, locals)
        && Matches(p, s3.bindings, out.scope, locals);
      KeptLess(s2.temporaries, k, m.locals, locals);
      if out.value == Boolean(true) {
        var m3 := Machine(|s3.items|, locals, out.heap, out.tape);
        var m4 := m3.(pc := |s3'.items|);
        PassesLabel(p, s.labels + 2, |s3.items|);
        LeadsThrough(p, m, m3, Running(m4));
        MatchesKept(p, s, scope, m.locals, locals, pending);
        KeptLength(k, m.locals, locals);
        LoopEndFollows(p, fuel, n, s, s3', s4, o, brk, cont, m4, scope, out.scope, pending, p3);
        FollowsThrough(p, m, m4, k, k, s4, o, brk, cont, fuel - 1,
                       EvalNext(p.runtime, fuel, n, scope, out.scope, out.heap, out.tape));
      } else {
        ExitFollows(p, n, s, s3', s4, o, m, Defined(n), scope, out.heap, out.tape, locals, brk, cont, fuel - 1,
                    pending, pending);
      }
    }
  }

  // Switch.

  lemma CaseJumpFollows(p: Program, m: Machine, s: Assembly, o: Operand, ks: seq<Operand>, v: Value, vs: seq<Value>)
    requires m.pc == |s.items| && EmitCaseJump(s, o, ks).items <= p.items
    requires Holds(p, o, m.locals, v) && AllHold(p, ks, m.locals, vs)
    requires Position(p.items, s.labels + FirstMatch(p.runtime, v, vs)) < |p.items|
    ensures Leads(p, m, Running(m.(pc := Position(p.items, s.labels + FirstMatch(p.runtime, v, vs)))))
  {
    hide Holds, EmitCountExtension;
    var s0 := s.(labels := s.labels + |ks| + 2);
    var s1 := EmitCountExtension(s0, CASE_JUMP, 2 + |ks|);
    var operands := [o] + ks + Displacements(s.labels, |ks| + 1);
    EmittedItem(p, s1, Instruction(CASE_JUMP, operands));
    CountExtensionFollows(p, m, s0, CASE_JUMP, 2 + |ks|);
    var m1 := m.(pc := |s1.items|);
    StepCaseJump(p, m1, o, ks, s.labels, v, vs);
    LeadsByStep(p, m1);
    LeadsThrough(p, m, m1, Step(p, m1));
  }

  lemma CaseJumpOperands(o: Operand, ks: seq<Operand>, first: nat)
    ensures var operands := [o] + ks + Displacements(first, |ks| + 1);
            && |operands| == 2 * |ks| + 2
            && OffsetCount(CASE_JUMP, |operands|) == |ks| + 1
            && WellShaped(CASE_JUMP, operands, 0)
            && Sources(CASE_JUMP, operands) == [o] + ks
            && (forall j :: |ks| + 1 <= j < |operands| ==> operands[j] == To(first + (j - |ks| - 1)))
  {
    var operands := [o] + ks + Displacements(first, |ks| + 1);
    assert Sources(CASE_JUMP, operands) == [o] + ks;
  }

  lemma StepCaseJump(p: Program, m: Machine, o: Operand, ks: seq<Operand>, first: nat, v: Value, vs: seq<Value>)
    requires m.pc < |p.items|
    requires p.items[m.pc] == Instruction(CASE_JUMP, [o] + ks + Displacements(first, |ks| + 1))
    requires Holds(p, o, m.locals, v) && AllHold(p, ks, m.locals, vs)
    requires Position(p.items, first + FirstMatch(p.runtime, v, vs)) < |p.items|
    ensures Step(p, m) == Running(m.(pc := Position(p.items, first + FirstMatch(p.runtime, v, vs))))
  {
    hide FirstMatch, Position, Displacements, Sources, OffsetCount, Primitive;
    var operands := [o] + ks + Displacements(first, |ks| + 1);
    CaseJumpOperands(o, ks, first);
    assert ReadAll(p, [o] + ks, m.locals) == [v] + vs;
    assert ([v] + vs)[1..] == vs;
    var chosen := FirstMatch(p.runtime, v, vs);
    assert operands[|ks| + 1 + chosen] == To(first + chosen);
  }

  lemma MergesOn(p: Program, m: Machine, k: nat, pc: nat, to: nat, r: Operand, kind: TypeKind,
                 brk: Option<nat>, cont: Option<nat>, fuel: nat, out: Outcome)
    requires Merges(p, m, k, pc, r, kind, brk, cont, fuel, out)
    requires forall locals, h, t :: Leads(p, Machine(pc, locals, h, t), Running(Machine(to, locals, h, t)))
    ensures Merges(p, m, k, to, r, kind, brk, cont, fuel, out)
  {
    hide Kept, Holds, Leads;
    if out.Normal? {
      var locals :| JumpsTo(p, m, k, pc, out.heap, out.tape, locals) && Holds(p, r, locals, OfKind(kind, out.value));
      LeadsThrough(p, m, Machine(pc, locals, out.heap, out.tape), Running(Machine(to, locals, out.heap, out.tape)));
      assert JumpsTo(p, m, k, to, out.heap, out.tape, locals);
    }
  }

  lemma MergesThrough(p: Program, m: Machine, middle: Machine, k: nat, pc: nat, r: Operand, kind: TypeKind,
                      brk: Option<nat>, cont: Option<nat>, fuel: nat, out: Outcome)
    requires Leads(p, m, Running(middle)) && middle.locals == m.locals && k <= |m.locals|
    requires Merges(p, middle, k, pc, r, kind, brk, cont, fuel, out)
    ensures Merges(p, m, k, pc, r, kind, brk, cont, fuel, out)
  {
    hide Kept, Holds, Leads, Escapes;
    KeptAtRest(k, m.locals);
    if out.Normal? {
      var locals :| JumpsTo(p, middle, k, pc, out.heap, out.tape, locals)
        && Holds(p, r, locals, OfKind(kind, out.value));
      assert JumpsTo(p, m, k, pc, out.heap, out.tape, locals) by {
        KeptThrough(k, k, m.locals, middle.locals, locals);
        LeadsThrough(p, m, middle, Running(Machine(pc, locals, out.heap, out.tape)));
      }
    } else {
      EscapesThrough(p, m, middle, k, k, brk, cont, fuel, out);
    }
  }

  /** The first body of a list of cases, up to the jump behind it. */
  lemma FirstBody(p: Program, ns: seq<Node>, s: Assembly, first: nat, merge: nat, r: Operand,
                  brk: Option<nat>, cont: Option<nat>, pending: set<nat>)
    returns (s0: Assembly, s1: Assembly, o: Operand, s2: Assembly)
    requires ns != [] && AllWellFormed(ns) && Valid(s, pending) && LabelRange(first, |ns|) <= pending
    requires CompileBodies(ns, s, first, merge, r, brk, cont).Success?
    requires Inside(CompileBodies(ns, s, first, merge, r, brk, cont).value, p)
    ensures s0 == Emit(s, Label(first)) && Compile(ns[0], s0, brk, cont) == Success((s1, o))
    ensures s2 == Emit(EmitMove(s1, r, o), Instruction(JUMP, [To(merge)]))
    ensures CompileBodies(ns, s, first, merge, r, brk, cont)
            == CompileBodies(ns[1..], s2, first + 1, merge, r, brk, cont)
    ensures Valid(s0, pending - {first}) && Shape(s, s2, Defined(ns[0]), pending - {first})
    ensures LabelRange(first + 1, |ns| - 1) <= pending - {first}
    ensures |s.items| < |p.items| && p.items[|s.items|] == Label(first)
    ensures var at := |EmitMove(s1, r, o).items|;
            at < |p.items| && p.items[at] == Instruction(JUMP, [To(merge)]) && EmitMove(s1, r, o).items <= p.items
    ensures Inside(s0, p) && Inside(s1, p) && Inside(s2, p)
    ensures s.temporaries == s0.temporaries <= s1.temporaries == s2.temporaries
            <= CompileBodies(ns, s, first, merge, r, brk, cont).value.temporaries
    ensures s0.bindings == s.bindings
  {
    hide Valid, ValidOperand, Compile, CompileBodies, Rebound, Position;
    var rest := pending - {first};
    s0 := Emit(s, Label(first));
    CompileBodiesCons(ns, s, first, merge, r, brk, cont);
    s1, o := Compile(ns[0], s0, brk, cont).value.0, Compile(ns[0], s0, brk, cont).value.1;
    s2 := Emit(EmitMove(s1, r, o), Instruction(JUMP, [To(merge)]));
    assert first in LabelRange(first, |ns|);
    PlaceShape(s, first, pending);
    CompileShape(ns[0], s0, brk, cont, rest);
    EmitMoveShape(s1, r, o, rest);
    EmitShape(EmitMove(s1, r, o), JUMP, [To(merge)], rest);
    ShapeThrough(s1, EmitMove(s1, r, o), s2, {}, {}, rest, rest);
    ShapeThrough(s, s0, s1, {}, Defined(ns[0]), rest, rest);
    ShapeThrough(s, s1, s2, Defined(ns[0]), {}, rest, rest);
    CompileBodiesShape(ns[1..], s2, first + 1, merge, r, brk, cont, rest);
    var end := CompileBodies(ns, s, first, merge, r, brk, cont).value;
    InsideParts(p, s0, s1, EmitMove(s1, r, o), s2, end);
    EmittedItem(p, s, Label(first));
    EmittedItem(p, EmitMove(s1, r, o), Instruction(JUMP, [To(merge)]));
  }

  lemma CompileBodiesCons(ns: seq<Node>, s: Assembly, first: nat, merge: nat, r: Operand, brk: Option<nat>,
                          cont: Option<nat>)
    requires ns != [] && CompileBodies(ns, s, first, merge, r, brk, cont).Success?
    ensures Compile(ns[0], Emit(s, Label(first)), brk, cont).Success?
    ensures var (s1, o) := Compile(ns[0], Emit(s, Label(first)), brk, cont).value;
            CompileBodies(ns, s, first, merge, r, brk, cont) ==
            CompileBodies(ns[1..], Emit(EmitMove(s1, r, o), Instruction(JUMP, [To(merge)])), first
                          + 1, merge, r, brk, cont)
  {
    hide Compile;
  }

  /** Jumping to the i-th label runs the i-th body and then goes to the merge label. */
  lemma {:induction false} BodiesFollow(p: Program, fuel: nat, ns: seq<Node>, i: nat, s: Assembly, first: nat,
                                        merge: nat, kind: TypeKind, r: Operand, k: nat, brk: Option<nat>,
                                        cont: Option<nat>,
                                        m: Machine, scope: Scope, pending: set<nat>)
    requires i < |ns| && AllWellFormed(ns) && Valid(s, pending) && LabelRange(first, |ns|) <= pending
    requires DefinedInAll(ns) !! s.bindings.Keys
    requires CompileBodies(ns, s, first, merge, r, brk, cont).Success?
    requires Inside(CompileBodies(ns, s, first, merge, r, brk, cont).value, p)
    requires CompileBodies(ns, s, first, merge, r, brk, cont).value.temporaries <= |m.locals|
    requires IsPlaced(p, brk) && IsPlaced(p, cont) && IsPlaced(p, Some(merge))
    requires Matches(p, s.bindings, scope, m.locals)
    requires TemporaryOf(p, kind, r, k, |m.locals|) && k <= s.temporaries
    requires m.pc == Position(p.items, first + i)
    ensures Position(p.items, first + i) < |p.items|
    ensures Merges(p, m, k, Position(p.items, merge), r, kind, brk, cont, fuel,
                   Eval(p.runtime, fuel, ns[i], scope, m.heap, m.tape))
    decreases fuel, ns, 0
  {
    hide Valid, Matches, Leads, Survives, Escapes, Holds, Kept;
    hide Eval, Compile, Grown, Rebound, TemporaryOf, Merges, Position;
    hide CompileBodies, EmitMove, Step;
    var s0, s1, o, s2 := FirstBody(p, ns, s, first, merge, r, brk, cont, pending);
    if i == 0 {
      PositionOfLabel(p.items, first, |s.items|);
      var m0 := m.(pc := |s0.items|);
      PassesLabel(p, first, |s.items|);
      NodeFollows(p, fuel, ns[0], s0, brk, cont, m0, scope, pending - {first});
      var out := Eval(p.runtime, fuel, ns[0], scope, m.heap, m.tape);
      BranchEnds(p, m0, s0, s1, o, kind, r, k, brk, cont, fuel, out);
      var from := |EmitMove(s1, r, o).items|;
      JumpsFrom(p, merge, from);
      MergesOn(p, m0, k, from, Position(p.items, merge), r, kind, brk, cont, fuel, out);
      MergesThrough(p, m, m0, k, Position(p.items, merge), r, kind, brk, cont, fuel, out);
    } else {
      BodiesScopes(p, ns, s, s2, scope, m.locals, pending - {first});
      BodiesFollow(p, fuel, ns[1..], i - 1, s2, first + 1, merge, kind, r, k, brk, cont, m, scope, pending - {first});
    }
  }

  lemma BodiesScopes(p: Program, ns: seq<Node>, s: Assembly, s2: Assembly, scope: Scope, locals: seq<Value>,
                     pending: set<nat>)
    requires ns != [] && AllWellFormed(ns) && DefinedInAll(ns) !! s.bindings.Keys
    requires Shape(s, s2, Defined(ns[0]), pending) && Matches(p, s.bindings, scope, locals)
    ensures DefinedInAll(ns[1..]) !! s2.bindings.Keys && Matches(p, s2.bindings, scope, locals)
  {
    hide Valid, Grown, Holds;
  }

  lemma JumpsFrom(p: Program, l: nat, from: nat)
    requires Position(p.items, l) < |p.items| && from < |p.items| && p.items[from] == Instruction(JUMP, [To(l)])
    ensures forall locals, h, t ::
              Leads(p, Machine(from, locals, h, t), Running(Machine(Position(p.items, l), locals, h, t)))
  {
    hide Position;
    forall locals, h, t
      ensures Leads(p, Machine(from, locals, h, t), Running(Machine(Position(p.items, l), locals, h, t)))
    {
      StepJump(p, Machine(from, locals, h, t), l);
      LeadsByStep(p, Machine(from, locals, h, t));
    }
  }

  lemma {:induction false} DefaultFollows(p: Program, fuel: nat, n: Option<Node>, s: Assembly, otherwise: nat,
                                          merge: nat, kind: TypeKind, r: Operand, k: nat, brk: Option<nat>,
                                          cont: Option<nat>,
                                          m: Machine, scope: Scope, pending: set<nat>)
    requires OptionWellFormed(n) && Valid(s, pending) && otherwise in pending && merge in pending && otherwise != merge
    requires DefinedIn(n) !! s.bindings.Keys
    requires CompileDefault(n, s, otherwise, merge, r, brk, cont).Success?
    requires Inside(CompileDefault(n, s, otherwise, merge, r, brk, cont).value, p)
    requires CompileDefault(n, s, otherwise, merge, r, brk, cont).value.temporaries <= |m.locals|
    requires IsPlaced(p, brk) && IsPlaced(p, cont) && Matches(p, s.bindings, scope, m.locals)
    requires TemporaryOf(p, kind, r, k, |m.locals|) && k <= s.temporaries
    requires m.pc == Position(p.items, otherwise)
    ensures Merges(p, m, k, Position(p.items, merge), r, kind, brk, cont, fuel,
                   EvalOptional(p.runtime, fuel, n, scope, m.heap, m.tape))
    decreases fuel, n, 4
  {
    hide Matches, Leads, Survives, Escapes, Holds, Kept, EvalOptional, CompileOrNull, TemporaryOf, Merges, Position;
    hide Step, Valid, Rebound;
    var s0 := Emit(s, Label(otherwise));
    var (s1, o) := CompileOrNull(n, s0, brk, cont).value;
    var s2 := EmitMove(s1, r, o);
    PlaceShape(s, otherwise, pending);
    CompileOrNullShape(n, s0, brk, cont, pending - {otherwise});
    EmitMoveShape(s1, r, o, pending - {otherwise});
    InsideParts(p, s, s0, s1, s2, Emit(s2, Label(merge)));
    EmittedItem(p, s, Label(otherwise));
    EmittedItem(p, s2, Label(merge));
    PositionOfLabel(p.items, otherwise, |s.items|);
    PositionOfLabel(p.items, merge, |s2.items|);
    var m0 := m.(pc := |s0.items|);
    PassesLabel(p, otherwise, |s.items|);
    BranchFollows(p, fuel, n, s0, brk, cont, m0, scope, pending - {otherwise}, kind, r, k);
    MergesThrough(p, m, m0, k, |s2.items|, r, kind, brk, cont, fuel,
                  EvalOptional(p.runtime, fuel, n, scope, m.heap, m.tape));
  }

  /** The labels behind a default: the default itself and the merge point, which ends the assembly. */
  lemma DefaultLayout(p: Program, n: Option<Node>, s: Assembly, otherwise: nat, merge: nat, r: Operand,
                      brk: Option<nat>, cont: Option<nat>, pending: set<nat>)
    requires OptionWellFormed(n) && Valid(s, pending) && otherwise in pending && merge in pending && otherwise != merge
    requires CompileDefault(n, s, otherwise, merge, r, brk, cont).Success?
    requires Inside(CompileDefault(n, s, otherwise, merge, r, brk, cont).value, p)
    ensures Inside(s, p) && s.temporaries <= CompileDefault(n, s, otherwise, merge, r, brk, cont).value.temporaries
    ensures Position(p.items, otherwise) < |p.items|
    ensures Position(p.items, merge) + 1 == |CompileDefault(n, s, otherwise, merge, r, brk, cont).value.items|
    ensures Position(p.items, merge) < |p.items|
  {
    hide CompileOrNull, Position, Valid, Rebound;
    var s0 := Emit(s, Label(otherwise));
    var (s1, o) := CompileOrNull(n, s0, brk, cont).value;
    var s2 := EmitMove(s1, r, o);
    PlaceShape(s, otherwise, pending);
    CompileOrNullShape(n, s0, brk, cont, pending - {otherwise});
    EmitMoveShape(s1, r, o, pending - {otherwise});
    InsideParts(p, s, s0, s1, s2, Emit(s2, Label(merge)));
    EmittedItem(p, s, Label(otherwise));
    EmittedItem(p, s2, Label(merge));
    PositionOfLabel(p.items, otherwise, |s.items|);
    PositionOfLabel(p.items, merge, |s2.items|);
  }

  lemma {:induction false} SwitchFollows(p: Program, fuel: nat, n: Node, s: Assembly, brk: Option<nat>,
                                         cont: Option<nat>, m: Machine, scope: Scope, pending: set<nat>)
    requires n.Switch? && WellFormed(n) && Valid(s, pending) && Defined(n) !! s.bindings.Keys
    requires HostsNode(p, s, Compile(n, s, brk, cont), m, scope, brk, cont)
    ensures FollowsNode(p, m, s.temporaries, Compile(n, s, brk, cont), brk, cont, fuel,
                        Eval(p.runtime, fuel, n, scope, m.heap, m.tape))
    decreases fuel, n, 0, 2
  {
    hide Valid, Kept, Holds, Matches, Leads, Survives, Escapes;
    hide Follows, Lands, FollowsAll, Compile, CompileAll, EvalOptional;
    hide Grown, Rebound, Inside, ValidOperand, AllValid, AllHold, Branch, EvalAll, FirstMatch;
    var s1, o, s2, ks, s3, r, s4, s5 := SwitchParts(n, s, brk, cont, pending);
    var k := s.temporaries;
    SwitchScopes(p, n, s, s1, s2, s3, s5, pending);
    NodeFollows(p, fuel, n.scrutinee, s, brk, cont, m, scope, pending);
    var out := Eval(p.runtime, fuel, n.scrutinee, scope, m.heap, m.tape);
    var whole := Eval(p.runtime, fuel, n, scope, m.heap, m.tape);
    if !out.Normal? {
      Escaping(p, m, k, s1, o, brk, cont, fuel, out);
      Escaping(p, m, k, s5, r, brk, cont, fuel, out);
    } else {
      var locals := Landing(p, m, k, s1, o, brk, cont, fuel, out);
      var m1 := Machine(|s1.items|, locals, out.heap, out.tape);
      LandsParts(p, m, k, s1, o, out.value, out.scope, out.heap, out.tape, locals);
      KeysFollow(p, fuel, n, s, brk, cont, m1, out.value, out.scope, pending, s1, o, s2, ks, s3, r, s4, s5);
      FollowsThrough(p, m, m1, k, s1.temporaries, s5, r, brk, cont, fuel, whole);
    }
  }

  lemma SwitchScopes(p: Program, n: Node, s: Assembly, s1: Assembly, s2: Assembly, s3: Assembly, s5: Assembly,
                     pending: set<nat>)
    requires n.Switch? && WellFormed(n) && Defined(n) !! s.bindings.Keys && Inside(s5, p)
    requires Shape(s, s1, Defined(n.scrutinee), pending) && Shape(s1, s2, DefinedInAll(n.keys), pending)
    requires Shape(s2, s3, {}, pending + LabelRange(s2.labels, |n.keys| + 2))
    requires Shape(s3, s5, DefinedInAll(n.bodies) + DefinedIn(n.whenNone), pending)
    ensures Inside(s1, p) && Inside(s2, p) && Inside(s3, p)
    ensures s.temporaries <= s1.temporaries <= s2.temporaries <= s3.temporaries <= s5.temporaries
    ensures DefinedInAll(n.keys) !! s1.bindings.Keys
    ensures DefinedInAll(n.bodies) + DefinedIn(n.whenNone) !! s3.bindings.Keys
    ensures DefinedInAll(n.bodies) + DefinedIn(n.whenNone) !! s2.bindings.Keys
    ensures Shape(s2, s5, DefinedInAll(n.bodies) + DefinedIn(n.whenNone), pending)
  {
    hide Valid, LabelRange;
    InsideParts(p, s, s1, s2, s3, s5);
    ShapeThrough(s2, s3, s5, {}, DefinedInAll(n.bodies) + DefinedIn(n.whenNone),
                 pending + LabelRange(s2.labels, |n.keys| + 2), pending);
  }

  /** The keys, the jump and the chosen case. */
  lemma {:induction false} KeysFollow(p: Program, fuel: nat, n: Node, s: Assembly, brk: Option<nat>, cont: Option<nat>,
                                      m: Machine, v: Value, scope: Scope, pending: set<nat>,
                                      s1: Assembly, o: Operand, s2: Assembly, ks: seq<Operand>,
                                      s3: Assembly, r: Operand,
                                      s4: Assembly, s5: Assembly)
    requires n.Switch? && WellFormed(n) && Valid(s1, pending) && Valid(s2, pending)
    requires CompileAll(n.keys, s1, brk, cont) == Success((s2, ks)) && |ks| == |n.keys| && ValidOperand(s1, o)
    requires (s3, r) == NewTemporary(EmitCaseJump(s2, o, ks), n.kind)
    requires CompileBodies(n.bodies, s3, s2.labels, s2.labels + |ks| + 1, r, brk, cont) == Success(s4)
    requires CompileDefault(n.whenNone, s4, s2.labels + |ks|, s2.labels + |ks| + 1, r, brk, cont) == Success(s5)
    requires Valid(s3, pending + LabelRange(s2.labels, |ks| + 2)) && Shape(s1, s2, DefinedInAll(n.keys), pending)
    requires Shape(s2, s5, DefinedInAll(n.bodies) + DefinedIn(n.whenNone), pending)
    requires forall l :: l in pending ==> l < s2.labels
    requires Inside(s2, p) && Inside(s3, p) && s1.temporaries <= s2.temporaries <= s3.temporaries
    requires DefinedInAll(n.keys) !! s1.bindings.Keys
    requires DefinedInAll(n.bodies) + DefinedIn(n.whenNone) !! s3.bindings.Keys
    requires DefinedInAll(n.bodies) + DefinedIn(n.whenNone) !! s2.bindings.Keys
    requires Hosts(p, s1, s5, m, scope, brk, cont) && Holds(p, o, m.locals, v) && s3.temporaries <= s5.temporaries
    ensures Follows(p, m, s1.temporaries, s5, r, brk, cont, fuel,
                    match EvalAll(p.runtime, fuel, n.keys, scope, m.heap, m.tape)
                    case Values(vs, sc, h, t) =>
                      var i := FirstMatch(p.runtime, v, vs);
                      if i < |n.bodies| && i < |vs|
                      then Branch(n.kind, sc, Eval(p.runtime, fuel, n.bodies[i], sc, h, t))
                      else Branch(n.kind, sc, EvalOptional(p.runtime, fuel, n.whenNone, sc, h, t))
                    case Abrupt(other) => other)
    decreases fuel, n, 0, 1
  {
    hide Valid, Kept, Holds, Matches, Leads, Survives, Escapes, Follows, Lands, CompileAll, EvalOptional;
    hide Grown, Rebound, Inside, ValidOperand, AllHold, Branch, EvalAll, FirstMatch, NewTemporary, EmitCaseJump, Eval;
    hide CompileBodies, CompileDefault, LabelRange, DefinedInAll, AllWellFormed, Defined, DefinedIn;
    AllFollow(p, fuel, n.keys, s1, brk, cont, m, scope, pending);
    var outs := EvalAll(p.runtime, fuel, n.keys, scope, m.heap, m.tape);
    if outs.Abrupt? {
      Escaping(p, m, s1.temporaries, s5, r, brk, cont, fuel, outs.outcome);
    } else {
      var locals :| LandsAll(p, m, s1.temporaries, s2, ks, outs.values, outs.scope, outs.heap, outs.tape, locals);
      KeptLength(s1.temporaries, m.locals, locals);
      HoldsKept(p, s1, o, m.locals, locals, v);
      var m2 := Machine(|s2.items|, locals, outs.heap, outs.tape);
      CaseFollows(p, fuel, n, brk, cont, m2, v, outs.values, outs.scope, pending, o, s2, ks, s3, r, s4, s5);
      var i := FirstMatch(p.runtime, v, outs.values);
      var out := if i < |n.bodies| && i < |outs.values|
                 then Branch(n.kind, outs.scope, Eval(p.runtime, fuel, n.bodies[i], outs.scope, outs.heap, outs.tape))
                 else Branch(n.kind, outs.scope, EvalOptional(p.runtime, fuel, n.whenNone, outs.scope, outs.heap,
                                                              outs.tape));
      FollowsThrough(p, m, m2, s1.temporaries, s2.temporaries, s5, r, brk, cont, fuel, out);
    }
  }

  lemma {:induction false} CaseFollows(p: Program, fuel: nat, n: Node, brk: Option<nat>, cont: Option<nat>,
                                       m: Machine, v: Value, vs: seq<Value>, scope: Scope, pending: set<nat>,
                                       o: Operand, s2: Assembly, ks: seq<Operand>, s3: Assembly, r: Operand,
                                       s4: Assembly, s5: Assembly)
    requires n.Switch? && WellFormed(n) && Valid(s2, pending) && |ks| == |n.keys|
    requires (s3, r) == NewTemporary(EmitCaseJump(s2, o, ks), n.kind)
    requires CompileBodies(n.bodies, s3, s2.labels, s2.labels + |ks| + 1, r, brk, cont) == Success(s4)
    requires CompileDefault(n.whenNone, s4, s2.labels + |ks|, s2.labels + |ks| + 1, r, brk, cont) == Success(s5)
    requires Valid(s3, pending + LabelRange(s2.labels, |ks| + 2))
    requires Shape(s2, s5, DefinedInAll(n.bodies) + DefinedIn(n.whenNone), pending)
    requires forall l :: l in pending ==> l < s2.labels
    requires Inside(s3, p) && s3.temporaries <= s5.temporaries
    requires DefinedInAll(n.bodies) + DefinedIn(n.whenNone) !! s3.bindings.Keys
    requires DefinedInAll(n.bodies) + DefinedIn(n.whenNone) !! s2.bindings.Keys
    requires Hosts(p, s2, s5, m, scope, brk, cont) && Holds(p, o, m.locals, v) && AllHold(p, ks, m.locals, vs)
    ensures var i := FirstMatch(p.runtime, v, vs);
            Follows(p, m, s2.temporaries, s5, r, brk, cont, fuel,
                    if i < |n.bodies| && i < |vs|
                    then Branch(n.kind, scope, Eval(p.runtime, fuel, n.bodies[i], scope, m.heap, m.tape))
                    else Branch(n.kind, scope, EvalOptional(p.runtime, fuel, n.whenNone, scope, m.heap, m.tape)))
    decreases fuel, n, 0, 0
  {
    hide Valid, Kept, Holds, Matches, Leads, Survives, Escapes, Follows, Lands, EvalOptional, Position;
    hide Grown, Rebound, Branch, FirstMatch, Eval, Merges;
    hide TemporaryOf, CompileBodies, CompileDefault, EmitCaseJump, NewTemporary;
    var first, count, merge := s2.labels, |ks|, s2.labels + |ks| + 1;
    var all := pending + LabelRange(first, count + 2);
    var rest := all - LabelRange(first, count);
    var k := s2.temporaries;
    var d := DefinedInAll(n.bodies) + DefinedIn(n.whenNone);
    CompileBodiesShape(n.bodies, s3, first, merge, r, brk, cont, all);
    DefaultLayout(p, n.whenNone, s4, first + count, merge, r, brk, cont, rest);
    CaseLayout(p, s2, o, ks, n.kind, |m.locals|);
    var i := FirstMatch(p.runtime, v, vs);
    var at := Position(p.items, first + i);
    var m1 := m.(pc := at);
    KeptAtRest(k, m.locals);
    PassesLabel(p, merge, Position(p.items, merge));
    var out;
    if i < count {
      out := Eval(p.runtime, fuel, n.bodies[i], scope, m.heap, m.tape);
      BodiesFollow(p, fuel, n.bodies, i, s3, first, merge, n.kind, r, k, brk, cont, m1, scope, all);
    } else {
      out := EvalOptional(p.runtime, fuel, n.whenNone, scope, m.heap, m.tape);
      DefaultScopes(p, n, s3, s4, scope, m.locals, rest);
      DefaultFollows(p, fuel, n.whenNone, s4, first + count, merge, n.kind, r, k, brk, cont, m1, scope, rest);
    }
    CaseJumpFollows(p, m, s2, o, ks, v, vs);
    AfterBranch(p, m1, k, Position(p.items, merge), s2, s5, d, r, n.kind, scope, brk, cont, fuel, out,
                pending, pending);
    FollowsThrough(p, m, m1, k, k, s5, r, brk, cont, fuel, Branch(n.kind, scope, out));
  }

  lemma DefaultScopes(p: Program, n: Node, s3: Assembly, s4: Assembly, scope: Scope, locals: seq<Value>,
                      pending: set<nat>)
    requires n.Switch? && WellFormed(n) && Shape(s3, s4, DefinedInAll(n.bodies), pending)
    requires DefinedInAll(n.bodies) + DefinedIn(n.whenNone) !! s3.bindings.Keys
    requires Matches(p, s3.bindings, scope, locals)
    ensures Matches(p, s4.bindings, scope, locals) && DefinedIn(n.whenNone) !! s4.bindings.Keys
    ensures s3.temporaries <= s4.temporaries
  {
    hide Valid, Holds;
  }

  lemma CaseLayout(p: Program, s: Assembly, o: Operand, ks: seq<Operand>, kind: TypeKind, localCount: nat)
    requires Inside(NewTemporary(EmitCaseJump(s, o, ks), kind).0, p)
    requires NewTemporary(EmitCaseJump(s, o, ks), kind).0.temporaries <= localCount
    ensures var (s3, r) := NewTemporary(EmitCaseJump(s, o, ks), kind);
            && EmitCaseJump(s, o, ks).items <= p.items && s3.bindings == s.bindings
            && TemporaryOf(p, kind, r, s.temporaries, localCount) && s.temporaries <= s3.temporaries
  {
    var s1 := EmitCaseJump(s, o, ks);
    NewTemporaryOf(p, s1, kind, localCount);
  }
}
