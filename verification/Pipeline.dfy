/** From the syntax tree of a function to the bytes that the interpreter runs. */
module Pipeline {
  import opened Values
  import opened Instructions
  import opened ListMachine
  import opened SyntaxTree
  import opened Compiler
  import opened CompilerShape
  import opened CompiledItems
  import opened CompiledFlow
  import opened DefiniteAssignment
  import opened FunctionCorrect
  import opened Removal
  import opened Temporaries
  import opened Promotion
  import opened PromotionRuns
  import opened PromotionCorrect
  import opened Encoding
  import opened ByteMachine
  import opened AssemblyCorrect
  import opened CompilerPasses

  // The passes' requirements hold of compiled lists.

  // Every compiled list assigns its temporaries definitely, before and after the first pass.

  /** A flow of a compiled list: temporaries are set on every path to their uses and not overwritten before. */
  lemma CompiledFlows(d: Definition) returns (f: Flow)
    requires WellFormedDefinition(d) && ScopedDefinition(d) && CompileDefinition(d).Success?
    ensures Flows(CompileDefinition(d).value, f)
  {
    hide Flows, Compile, WellFormed, Valid, Scoped, Bind, Leaves, Enters;
    var s0 := Start(d);
    StartValid(d);
    StartEnters(d);
    CompileShape(BodyOf(d), s0, None, None, {});
    var f0 := NodeFlows(BodyOf(d), s0, Flow([{}], map[]), Names(d), None, None, {});
    var (s1, o) := Compile(BodyOf(d), s0, None, None).value;
    LeavesLive(s0, Flow([{}], map[]), s1, f0, Scoped(BodyOf(d), Names(d)).value);
    assert AllLive([o], Last(f0)) && forall l: nat :: To(l) !in [o];
    f := EffectFlows(s1, f0, RETURN, [o]);
  }

  lemma StartEnters(d: Definition)
    ensures Enters(Start(d), Flow([{}], map[]), Names(d), None, None)
  {
    StartValid(d);
    StartOperands(map[], d.parameters, Arguments);
    StartOperands(Bind(map[], d.parameters, Arguments), d.captures, Captures);
  }

  lemma {:induction false} StartOperands(bindings: map<Binding, Operand>, names: seq<Binding>, vector: Vector)
    requires !vector.Locals? && forall b :: b in bindings ==> LocalOf(bindings[b]) == {}
    ensures forall b :: b in Bind(bindings, names, vector) ==> LocalOf(Bind(bindings, names, vector)[b]) == {}
  {
    if names != [] { StartOperands(bindings, names[..|names| - 1], vector); }
  }

  lemma OptimizedFlows(d: Definition) returns (f: Flow)
    requires WellFormedDefinition(d) && ScopedDefinition(d) && CompileDefinition(d).Success?
    ensures FlowsOn(JumpsOptimized(d).value, f)
  {
    hide WellFormedDefinition, ScopedDefinition, CompileDefinition, FlowsOn, Filter;
    var f0 := CompiledFlows(d);
    var items := CompileDefinition(d).value.items;
    f := FilterFlows(items, KeepJumps(items), f0);
  }

  /** No run of a compiled function reads a temporary before it has set it, whichever branches and turns it takes. */
  lemma CompiledReadsAreSet(d: Definition, arguments: seq<Value>, captures: seq<Value>, rt: Runtime, heap: Heap,
                            tape: Tape, n: nat, t: nat)
    requires WellFormedDefinition(d) && ScopedDefinition(d) && CompileDefinition(d).Success?
    requires var p, m := ListProgram(d, JumpsOptimized(d).value, arguments, captures, rt), StartOf(d, heap, tape);
             Iterate(p, m, n).Running? &&
             var pc := Iterate(p, m, n).machine.pc;
             pc < |p.items| && Reads(p.items[pc], t)
    ensures t in WrittenIn(ListProgram(d, JumpsOptimized(d).value, arguments, captures, rt), StartOf(d, heap, tape), n)
  {
    hide WellFormedDefinition, ScopedDefinition, CompileDefinition, FlowsOn, Iterate, OptimizeJumps, Reads;
    var f := OptimizedFlows(d);
    ReadsAreWritten(ListProgram(d, JumpsOptimized(d).value, arguments, captures, rt), f, StartOf(d, heap, tape), n, t);
  }

  /** Boxes and references are put into locals. */
  predicate PointersInLocals(items: seq<Item>) {
    forall i :: 0 <= i < |items| ==> DefinesLocals(items[i])
  }

  /** What the second pass relies on holds of every compiled list that puts its pointers into locals. */
  lemma CompiledPromotable(d: Definition)
    requires WellFormedDefinition(d) && ScopedDefinition(d) && CompileDefinition(d).Success?
    requires PointersInLocals(JumpsOptimized(d).value)
    ensures Promotable(JumpsOptimized(d).value)
  {
    hide WellFormedDefinition, ScopedDefinition, CompileDefinition, FlowsOn, OptimizeJumps;
    hide Steady;
    var items := JumpsOptimized(d).value;
    var f := OptimizedFlows(d);
    FlowSteady(items, f);
    OptimizedDisciplined(d);
    assert forall d :: 0 <= d < |items| && Vanishes(items, d) ==> SettledReference(items, d) by {
      forall d | 0 <= d < |items| && Vanishes(items, d) ensures SettledReference(items, d) {
        var o := items[d].operands[0];
        assert DefinesLocals(items[d]);
        assert Computes(items[d], o);
        forall i | 0 <= i < |items| && Defines(items[i], o) ensures i == d {
          assert Mentions(items[i], o);
        }
        forall i | 0 <= i < |items| && Dereferences(items[i], o) ensures d < i {
          assert Mentions(items[i], o);
        }
      }
    }
  }

  // The theorems.

  function ListProgram(d: Definition, items: seq<Item>, arguments: seq<Value>, captures: seq<Value>,
                       rt: Runtime): Program
    requires CompileDefinition(d).Success?
  {
    Program(items, arguments, captures, CompileDefinition(d).value.literals, rt)
  }

  function StartOf(d: Definition, heap: Heap, tape: Tape): Machine
    requires CompileDefinition(d).Success?
  {
    Activation(CompileDefinition(d).value, heap, tape)
  }

  /** The interpreter at the start of an activation of the compiled bytes. */
  function ByteStart(d: Definition, heap: Heap, tape: Tape): ByteMachine
    requires CompileDefinition(d).Success?
  {
    ByteMachine(0, 0, StartOf(d, heap, tape).locals, heap, tape)
  }

  function BytesProgram(d: Definition, bytes: seq<Byte>, arguments: seq<Value>, captures: seq<Value>,
                        rt: Runtime): ByteProgram
    requires CompileDefinition(d).Success?
  {
    ByteProgram(bytes, arguments, captures, CompileDefinition(d).value.literals, rt)
  }

  /** The first pass keeps every run of the compiled list. */
  lemma JumpsOptimizedAlike(d: Definition, arguments: seq<Value>, captures: seq<Value>, rt: Runtime, heap: Heap,
                            tape: Tape)
    requires WellFormedDefinition(d) && CompileDefinition(d).Success?
    requires |arguments| == |d.parameters| && |captures| == |d.captures|
    ensures Alike(ProgramOf(CompileDefinition(d).value, arguments, captures, rt), StartOf(d, heap, tape),
                  ListProgram(d, JumpsOptimized(d).value, arguments, captures, rt), StartOf(d, heap, tape))
  {
    hide Alike, OptimizeJumps;
    var s := CompileDefinition(d).value;
    var p := ProgramOf(s, arguments, captures, rt);
    CompiledTidy(d);
    assert (var s := CompileDefinition(d).value;
            s.argumentCount == |d.parameters| && s.captureCount == |d.captures|) by {
      StartValid(d);
      CompileShape(BodyOf(d), Start(d), None, None, {});
    }
    assert JumpsShaped(p, s.temporaries) by {
      forall i | 0 <= i < |p.items| && p.items[i].Instruction? && IsJump(p.items[i].opcode)
        ensures && |p.items[i].operands| == (if p.items[i].opcode.JUMP? then 1 else 2)
                && (p.items[i].opcode.JUMP? || InVector(p, p.items[i].operands[0], s.temporaries))
      {
        assert ItemFits(s, p.items[i]);
        assert p.items[i].opcode.JUMP? || ValidOperand(s, p.items[i].operands[0]);
      }
    }
    OptimizeJumpsAlike(p, StartOf(d, heap, tape));
  }

  /**
   Correctness of the whole compiler.  When structured evaluation of a function returns, then running the interpreter
   on the optimised and assembled bytes returns the same value and the same memory, except for boxes that were
   promoted to locals and that nothing else could mention.
   */
  lemma CompileFunctionCorrect(d: Definition, arguments: seq<Value>, captures: seq<Value>, rt: Runtime,
                               fuel: nat, heap: Heap, tape: Tape) returns (tape2: Tape, boxes: set<Address>)
    requires WellFormedDefinition(d) && ScopedDefinition(d) && CompileDefinition(d).Success?
    requires |arguments| == |d.parameters| && |captures| == |d.captures|
    requires PointersInLocals(JumpsOptimized(d).value) && Assemblable(FullyOptimized(d).value)
    requires WellBehaved(rt)
    requires Fresh(ListProgram(d, JumpsOptimized(d).value, arguments, captures, rt), StartOf(d, heap, tape))
    requires forall n: nat :: ExactRun(ListProgram(d, JumpsOptimized(d).value, arguments, captures, rt),
                                       StartOf(d, heap, tape), n)
    requires var out := Meaning(d, arguments, captures, rt, fuel, heap, tape);
             ResultOf(out).Some? && ResultOf(out).value.Returned?
    ensures CompileFunction(d).Success?
    ensures var r := ResultOf(Meaning(d, arguments, captures, rt, fuel, heap, tape)).value;
            && ByteLeads(BytesProgram(d, CompileFunction(d).value, arguments, captures, rt), ByteStart(d, heap, tape2),
                         Returned(r.value, r.heap - boxes, r.tape))
            && Edited(tape, tape2) && boxes !! heap.Keys && Avoids(boxes, r.value)
  {
    hide Meaning, CompileDefinition, Tidy, WellFormedDefinition;
    hide ScopedDefinition, OptimizeJumps, OptimizeTemporaries, Iterate;
    hide Assemblable, AssembleFirst, Edited, ExactRun, WellBehaved, PointersInLocals, Promotable, ByteIterate;
    var m := StartOf(d, heap, tape);
    var items := JumpsOptimized(d).value;
    var p1 := ListProgram(d, items, arguments, captures, rt);
    MeaningIsResultOrTimeout(d, arguments, captures, rt, fuel, heap, tape);
    var r := ResultOf(Meaning(d, arguments, captures, rt, fuel, heap, tape)).value;
    JumpsOptimizedAlike(d, arguments, captures, rt, heap, tape);
    assert Leads(p1, m, r);
    var n: nat :| Iterate(p1, m, n) == r;
    CompiledPromotable(d);
    tape2, boxes := OptimizeTemporariesFollows(p1, m, n);
    AssemblableSucceeds(FullyOptimized(d).value);
    var p2 := Optimized(p1);
    AssembledAlike(p2, m.(tape := tape2));
    assert Addressed(p2.items, StartOf(d, heap, tape2)) == ByteStart(d, heap, tape2);
    assert m.(tape := tape2) == StartOf(d, heap, tape2);
  }

  /** When evaluation never ends, neither does the interpreter on the optimised and assembled bytes. */
  lemma CompileFunctionEndless(d: Definition, arguments: seq<Value>, captures: seq<Value>, rt: Runtime, heap: Heap,
                               tape: Tape)
    returns (tape2: Tape)
    requires WellFormedDefinition(d) && ScopedDefinition(d) && CompileDefinition(d).Success?
    requires |arguments| == |d.parameters| && |captures| == |d.captures|
    requires PointersInLocals(JumpsOptimized(d).value) && Assemblable(FullyOptimized(d).value)
    requires WellBehaved(rt)
    requires Fresh(ListProgram(d, JumpsOptimized(d).value, arguments, captures, rt), StartOf(d, heap, tape))
    requires forall n: nat :: ExactRun(ListProgram(d, JumpsOptimized(d).value, arguments, captures, rt),
                                       StartOf(d, heap, tape), n)
    requires forall fuel: nat :: Meaning(d, arguments, captures, rt, fuel, heap, tape).TimedOut?
    ensures CompileFunction(d).Success? && Edited(tape, tape2)
    ensures forall r: Status :: !r.Running? ==>
              !ByteLeads(BytesProgram(d, CompileFunction(d).value, arguments, captures, rt),
                         ByteStart(d, heap, tape2), r)
  {
    hide Meaning, CompileDefinition, Tidy, WellFormedDefinition;
    hide ScopedDefinition, OptimizeJumps, OptimizeTemporaries;
    hide Assemblable, AssembleFirst, Edited, ExactRun, WellBehaved, PointersInLocals;
    hide Promotable, ByteLeads, Alike, Fresh;
    var m := StartOf(d, heap, tape);
    var p0 := ProgramOf(CompileDefinition(d).value, arguments, captures, rt);
    var p1 := ListProgram(d, JumpsOptimized(d).value, arguments, captures, rt);
    DefinitionCorrect(d, arguments, captures, rt, heap, tape);
    JumpsOptimizedAlike(d, arguments, captures, rt, heap, tape);
    AlikeForEver(p0, m, p1, m);
    CompiledPromotable(d);
    tape2 := OptimizeTemporariesEndless(p1, m);
    var p2, m2 := Optimized(p1), m.(tape := tape2);
    AssemblableSucceeds(FullyOptimized(d).value);
    AssembledAlike(p2, m2);
    assert Addressed(p2.items, StartOf(d, heap, tape2)) == ByteStart(d, heap, tape2);
    assert m2 == StartOf(d, heap, tape2);
    forall r: Status | !r.Running? ensures !Leads(p2, m2, r) {
      forall n: nat ensures Iterate(p2, m2, n) != r { assert Survives(p2, m2, n); }
    }
  }

  lemma OptimizedDisciplined(d: Definition)
    requires WellFormedDefinition(d) && CompileDefinition(d).Success?
    ensures Disciplined(JumpsOptimized(d).value)
  {
    hide WellFormedDefinition, CompileDefinition, ItemFits;
    CompiledTidy(d);
    var s := CompileDefinition(d).value;
    assert Disciplined(Filter(s.items, KeepJumps(s.items))) by {
      var r := Filter(s.items, KeepJumps(s.items));
      forall i, j, o | 0 <= i < j < |r|
        ensures Computes(r[j], o) ==> !Mentions(r[i], o)
        ensures Computes(r[i], o) ==> !Defines(r[j], o)
      {
        var a := FilterFrom(s.items, KeepJumps(s.items), i);
        var b := FilterFrom(s.items, KeepJumps(s.items), j);
        if b <= a { IndexGrows(KeepJumps(s.items), b, a); }
      }
    }
  }

  /**
   Where the second pass finds nothing to change, the bytes do exactly what evaluation says, in both directions:
   results, failures and endless runs.
   */
  lemma UnpromotedFunctionExact(d: Definition, arguments: seq<Value>, captures: seq<Value>, rt: Runtime, heap: Heap,
                                tape: Tape)
    requires WellFormedDefinition(d) && ScopedDefinition(d) && CompileDefinition(d).Success?
    requires |arguments| == |d.parameters| && |captures| == |d.captures|
    requires FullyOptimized(d).value == JumpsOptimized(d).value && Assemblable(FullyOptimized(d).value)
    ensures CompileFunction(d).Success?
    ensures var q := BytesProgram(d, CompileFunction(d).value, arguments, captures, rt);
            var b := ByteStart(d, heap, tape);
            && (forall r: Status :: !r.Running? ==>
                  (ByteLeads(q, b, r) <==>
                   exists fuel: nat :: ResultOf(Meaning(d, arguments, captures, rt, fuel, heap, tape)) == Some(r)))
            && ((forall r: Status :: !r.Running? ==> !ByteLeads(q, b, r)) <==>
                forall fuel: nat :: Meaning(d, arguments, captures, rt, fuel, heap, tape).TimedOut?)
  {
    hide Meaning, CompileDefinition, WellFormedDefinition, ScopedDefinition;
    hide OptimizeJumps, OptimizeTemporaries, Iterate;
    hide Assemblable, AssembleFirst, ByteLeads, Leads, ResultOf;
    var m := StartOf(d, heap, tape);
    var p1 := ListProgram(d, JumpsOptimized(d).value, arguments, captures, rt);
    var p0 := ProgramOf(CompileDefinition(d).value, arguments, captures, rt);
    DefinitionCorrect(d, arguments, captures, rt, heap, tape);
    JumpsOptimizedAlike(d, arguments, captures, rt, heap, tape);
    AssemblableSucceeds(FullyOptimized(d).value);
    AssembledAlike(p1, m);
    assert Addressed(p1.items, StartOf(d, heap, tape)) == ByteStart(d, heap, tape);
    var q := BytesProgram(d, CompileFunction(d).value, arguments, captures, rt);
    var b := ByteStart(d, heap, tape);
    assert q == Assembled(p1);
    forall r: Status | !r.Running?
      ensures ByteLeads(q, b, r) <==> exists fuel: nat ::
                ResultOf(Meaning(d, arguments, captures, rt, fuel, heap, tape)) == Some(r)
    {
      assert ByteLeads(q, b, r) <==> Leads(p1, m, r);
      assert Leads(p0, m, r) <==> Leads(p1, m, r);
    }
    HaltingMeansTimeless(d, arguments, captures, rt, heap, tape);
  }

  /** Evaluation either gives a result for some fuel or times out for all. */
  lemma HaltingMeansTimeless(d: Definition, arguments: seq<Value>, captures: seq<Value>, rt: Runtime, heap: Heap,
                             tape: Tape)
    requires WellFormedDefinition(d) && ScopedDefinition(d) && CompileDefinition(d).Success?
    requires |arguments| == |d.parameters| && |captures| == |d.captures|
    ensures (forall fuel: nat :: Meaning(d, arguments, captures, rt, fuel, heap, tape).TimedOut?) <==>
            !exists fuel: nat, r: Status :: !r.Running?
                && ResultOf(Meaning(d, arguments, captures, rt, fuel, heap, tape)) == Some(r)
  {
    hide Meaning, CompileDefinition, WellFormedDefinition, ScopedDefinition, Leads, Survives;
    forall fuel: nat
      ensures var out := Meaning(d, arguments, captures, rt, fuel, heap, tape);
              && (out.TimedOut? || ResultOf(out).Some?)
              && (ResultOf(out).Some? ==> !ResultOf(out).value.Running?)
    {
      MeaningIsResultOrTimeout(d, arguments, captures, rt, fuel, heap, tape);
    }
    if !forall fuel: nat :: Meaning(d, arguments, captures, rt, fuel, heap, tape).TimedOut? {
      var fuel: nat :| !Meaning(d, arguments, captures, rt, fuel, heap, tape).TimedOut?;
      var r := ResultOf(Meaning(d, arguments, captures, rt, fuel, heap, tape)).value;
      assert ResultOf(Meaning(d, arguments, captures, rt, fuel, heap, tape)) == Some(r);
    }
  }
}
