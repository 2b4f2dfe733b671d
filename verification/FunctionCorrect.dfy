/** Compiling a whole function definition, before optimisation. */
module FunctionCorrect {
  import opened Values
  import opened Instructions
  import opened ListMachine
  import opened SyntaxTree
  import opened Compiler
  import opened CompilerShape
  import opened Simulation
  import opened Emission
  import opened CompilerCorrect

  function BindValues(scope: Scope, names: seq<Binding>, values: seq<Value>): (r: Scope)
    requires |names| == |values|
    ensures r.Keys == scope.Keys + set b | b in names
  {
    if names == [] then scope
    else
      var last := |names| - 1;
      BindValues(scope, names[..last], values[..last])[names[last] := values[last]]
  }

  function ScopeOf(d: Definition, arguments: seq<Value>, captures: seq<Value>): (r: Scope)
    requires |arguments| == |d.parameters| && |captures| == |d.captures|
    ensures r.Keys == Names(d)
  {
    BindValues(BindValues(map[], d.parameters, arguments), d.captures, captures)
  }

  lemma {:induction false} BindMatches(p: Program, bindings: map<Binding, Operand>, scope: Scope, names: seq<Binding>,
                                       values: seq<Value>, vector: Vector, locals: seq<Value>)
    requires |names| == |values| && values <= VectorOf(p, vector, locals)
    requires Matches(p, bindings, scope, locals)
    ensures Matches(p, Bind(bindings, names, vector), BindValues(scope, names, values), locals)
  {
    if names != [] {
      var last := |names| - 1;
      BindMatches(p, bindings, scope, names[..last], values[..last], vector, locals);
    }
  }

  /** The machine at the start of an activation: locals are zeroed. */
  function Activation(s: Assembly, heap: Heap, tape: Tape): Machine {
    Machine(0, seq(s.temporaries, i => Null), heap, tape)
  }

  function ProgramOf(s: Assembly, arguments: seq<Value>, captures: seq<Value>, rt: Runtime): Program {
    Program(s.items, arguments, captures, s.literals, rt)
  }

  /** What a function activation returns in terms of the outcome of its body. */
  function ResultOf(out: Outcome): Option<Status> {
    match out
    case Normal(v, _, h, t) => Some(Returned(v, h, t))
    case Left(v, h, t) => Some(Returned(v, h, t))
    case Faulted => Some(Failed)
    case _ => None
  }

  /** The compiled body followed by its return. */
  lemma {:induction false} BodyFollows(d: Definition, arguments: seq<Value>, captures: seq<Value>, rt: Runtime,
                                       fuel: nat, heap: Heap, tape: Tape)
    requires WellFormedDefinition(d) && CompileDefinition(d).Success?
    requires |arguments| == |d.parameters| && |captures| == |d.captures|
    ensures var s := CompileDefinition(d).value;
            var p := ProgramOf(s, arguments, captures, rt);
            var m := Activation(s, heap, tape);
            var out := Eval(rt, fuel, BodyOf(d), ScopeOf(d, arguments, captures), heap, tape);
            && (ResultOf(out).Some? ==> Leads(p, m, ResultOf(out).value))
            && (out.TimedOut? ==> Survives(p, m, fuel))
            && !out.Broke? && !out.Continued?
  {
    hide Kept, Matches, Leads, Survives, Compile, Eval, Bind, BindValues, Rebound;
    var s0 := Start(d);
    var (s1, o) := Compile(BodyOf(d), s0, None, None).value;
    var s := CompileDefinition(d).value;
    var p := ProgramOf(s, arguments, captures, rt);
    var m := Activation(s, heap, tape);
    StartValid(d);
    CompileShape(BodyOf(d), s0, None, None, {});
    EmitShape(s1, RETURN, [o], {});
    assert UniqueLabels(s.items);
    var scope := ScopeOf(d, arguments, captures);
    assert Matches(p, Start(d).bindings, ScopeOf(d, arguments, captures), m.locals) by {
      BindMatches(p, map[], map[], d.parameters, arguments, Arguments, m.locals);
      BindMatches(p, Bind(map[], d.parameters, Arguments), BindValues(map[], d.parameters, arguments),
                  d.captures, captures, Captures, m.locals);
    }
    NodeFollows(p, fuel, BodyOf(d), s0, None, None, m, scope, {});
    var out := Eval(rt, fuel, BodyOf(d), scope, heap, tape);
    if out.Normal? {
      var locals := Landing(p, m, s0.temporaries, s1, o, None, None, fuel, out);
      LandsParts(p, m, s0.temporaries, s1, o, out.value, out.scope, out.heap, out.tape, locals);
      var m1 := Machine(|s1.items|, locals, out.heap, out.tape);
      assert p.items[m1.pc] == Instruction(RETURN, [o]);
      assert Step(p, m1) == Returned(out.value, m1.heap, m1.tape) by {
        assert Sources(RETURN, [o]) == [o];
      }
      LeadsByStep(p, m1);
      LeadsThrough(p, m, m1, Returned(out.value, out.heap, out.tape));
    }
  }

  /** A function whose references are in scope. */
  predicate ScopedDefinition(d: Definition) {
    Scoped(BodyOf(d), Names(d)).Some?
  }

  /** What an activation may end in, and what evaluation says about it. */
  function Meaning(d: Definition, arguments: seq<Value>, captures: seq<Value>, rt: Runtime, fuel: nat, heap: Heap,
                   tape: Tape): Outcome
    requires |arguments| == |d.parameters| && |captures| == |d.captures|
  {
    Eval(rt, fuel, BodyOf(d), ScopeOf(d, arguments, captures), heap, tape)
  }

  lemma {:induction false} MeaningIsResultOrTimeout(d: Definition, arguments: seq<Value>, captures: seq<Value>,
                                                    rt: Runtime, fuel: nat, heap: Heap, tape: Tape)
    requires WellFormedDefinition(d) && ScopedDefinition(d) && CompileDefinition(d).Success?
    requires |arguments| == |d.parameters| && |captures| == |d.captures|
    ensures var out := Meaning(d, arguments, captures, rt, fuel, heap, tape);
            var p := ProgramOf(CompileDefinition(d).value, arguments, captures, rt);
            var m := Activation(CompileDefinition(d).value, heap, tape);
            && (out.TimedOut? || ResultOf(out).Some?)
            && (ResultOf(out).Some? ==> Leads(p, m, ResultOf(out).value) && !ResultOf(out).value.Running?)
            && (out.TimedOut? ==> Survives(p, m, fuel))
  {
    hide Eval, Scoped, CompileDefinition, WellFormedDefinition, Activation, ProgramOf, Leads, Survives, BindValues;
    var scope := ScopeOf(d, arguments, captures);
    EvalScoped(rt, fuel, BodyOf(d), scope, heap, tape);
    BodyFollows(d, arguments, captures, rt, fuel, heap, tape);
  }

  /**
   Compiler correctness in both directions: the activation stops with a result exactly when structured
   evaluation gives that result, and it runs for ever exactly when evaluation times out for every fuel.
   */
  lemma {:induction false} DefinitionCorrect(d: Definition, arguments: seq<Value>, captures: seq<Value>, rt: Runtime,
                                             heap: Heap, tape: Tape)
    requires WellFormedDefinition(d) && ScopedDefinition(d) && CompileDefinition(d).Success?
    requires |arguments| == |d.parameters| && |captures| == |d.captures|
    ensures var p := ProgramOf(CompileDefinition(d).value, arguments, captures, rt);
            var m := Activation(CompileDefinition(d).value, heap, tape);
            && (forall r: Status :: !r.Running? ==>
                  (Leads(p, m, r) <==>
                   exists fuel: nat :: ResultOf(Meaning(d, arguments, captures, rt, fuel, heap, tape)) == Some(r)))
            && ((forall n: nat :: Survives(p, m, n)) <==>
                forall fuel: nat :: Meaning(d, arguments, captures, rt, fuel, heap, tape).TimedOut?)
  {
    hide Meaning, Iterate, CompileDefinition, WellFormedDefinition, ScopedDefinition, Activation, ProgramOf, ResultOf;
    var p := ProgramOf(CompileDefinition(d).value, arguments, captures, rt);
    var m := Activation(CompileDefinition(d).value, heap, tape);
    forall fuel: nat
      ensures var out := Meaning(d, arguments, captures, rt, fuel, heap, tape);
              && (out.TimedOut? || ResultOf(out).Some?)
              && (ResultOf(out).Some? ==> Leads(p, m, ResultOf(out).value) && !ResultOf(out).value.Running?)
              && (out.TimedOut? ==> Survives(p, m, fuel))
    {
      MeaningIsResultOrTimeout(d, arguments, captures, rt, fuel, heap, tape);
    }
    forall r: Status | !r.Running? && Leads(p, m, r)
      ensures exists fuel: nat :: ResultOf(Meaning(d, arguments, captures, rt, fuel, heap, tape)) == Some(r)
    {
      var n: nat :| Iterate(p, m, n) == r;
      var out := Meaning(d, arguments, captures, rt, n, heap, tape);
      if ResultOf(out).Some? { HaltsOnce(p, m, r, ResultOf(out).value); }
    }
    forall fuel: nat | ResultOf(Meaning(d, arguments, captures, rt, fuel, heap, tape)).Some?
      ensures exists n: nat :: !Survives(p, m, n)
    {
      var n: nat :| Iterate(p, m, n) == ResultOf(Meaning(d, arguments, captures, rt, fuel, heap, tape)).value;
      assert !Survives(p, m, n);
    }
  }
}
