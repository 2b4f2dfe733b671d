/** When compiled bytes return what evaluation says, for all functions of an environment at once. */
module Faithfulness {
  import opened Values
  import opened Instructions
  import opened ListMachine
  import opened SyntaxTree
  import opened Compiler
  import opened FunctionCorrect
  import opened Removal
  import opened Temporaries
  import opened Promotion
  import opened PromotionRuns
  import opened PromotionCorrect
  import opened Encoding
  import opened ByteMachine
  import opened AssemblyCorrect
  import opened Pipeline
  import opened CompilerPasses
  import opened CompilerShape

  /** A function, what it is called with, and the memory and the answers that it meets. */
  datatype Call = Call(definition: Definition, arguments: seq<Value>, captures: seq<Value>, heap: Heap, tape: Tape)

  /** The call of a function that compiles to bytes within the limits of the encoding. */
  ghost predicate Compilable(c: Call, rt: Runtime) {
    var d := c.definition;
    && WellFormedDefinition(d) && ScopedDefinition(d) && CompileDefinition(d).Success?
    && |c.arguments| == |d.parameters| && |c.captures| == |d.captures|
    && PointersInLocals(JumpsOptimized(d).value) && Assemblable(FullyOptimized(d).value) && CompileFunction(d).Success?
    && Fresh(ListProgram(d, JumpsOptimized(d).value, c.arguments, c.captures, rt), StartOf(d, c.heap, c.tape))
  }

  function Evaluated(c: Call, rt: Runtime, fuel: nat): Outcome
    requires |c.arguments| == |c.definition.parameters| && |c.captures| == |c.definition.captures|
  {
    Meaning(c.definition, c.arguments, c.captures, rt, fuel, c.heap, c.tape)
  }

  /** With these answers, the interpreter on the compiled bytes ends in r. */
  ghost predicate BytesEnd(c: Call, rt: Runtime, tape: Tape, r: Status)
    requires CompileDefinition(c.definition).Success? && CompileFunction(c.definition).Success?
  {
    ByteLeads(BytesProgram(c.definition, CompileFunction(c.definition).value, c.arguments, c.captures, rt),
              ByteStart(c.definition, c.heap, tape), r)
  }

  /** The bytes return the same value, memory and rest of the answers, apart from boxes of the call's own. */
  ghost predicate BytesReturn(c: Call, rt: Runtime, r: Status)
    requires CompileDefinition(c.definition).Success? && CompileFunction(c.definition).Success? && r.Returned?
  {
    exists tape2: Tape, boxes: set<Address> ::
      && BytesEnd(c, rt, tape2, Returned(r.value, r.heap - boxes, r.tape))
      && Edited(c.tape, tape2) && boxes !! c.heap.Keys && Avoids(boxes, r.value)
  }

  ghost predicate BytesNeverEnd(c: Call, rt: Runtime)
    requires CompileDefinition(c.definition).Success? && CompileFunction(c.definition).Success?
  {
    exists tape2: Tape :: Edited(c.tape, tape2) && forall r: Status :: !r.Running? ==> !BytesEnd(c, rt, tape2, r)
  }

  /** When evaluation returns, the bytes return the same; when it never ends, neither do they. */
  ghost predicate Faithful(c: Call, rt: Runtime)
    requires Compilable(c, rt)
  {
    && (forall fuel: nat ::
          var r := ResultOf(Evaluated(c, rt, fuel));
          r.Some? && r.value.Returned? ==> BytesReturn(c, rt, r.value))
    && ((forall fuel: nat :: Evaluated(c, rt, fuel).TimedOut?) ==> BytesNeverEnd(c, rt))
  }

  ghost predicate CompilesFaithfully(rt: Runtime) {
    forall c: Call :: Compilable(c, rt) ==> Faithful(c, rt)
  }

  /** The whole compiler is right for all functions in an environment just when its coercions never convert a value. */
  lemma FaithfulIff(rt: Runtime)
    requires WellBehaved(rt)
    ensures CompilesFaithfully(rt) <==> NeverConverts(rt)
  {
    if NeverConverts(rt) {
      forall c: Call | Compilable(c, rt) ensures Faithful(c, rt) {
        var d := c.definition;
        var p, m := ListProgram(d, JumpsOptimized(d).value, c.arguments, c.captures, rt), StartOf(d, c.heap, c.tape);
        forall n: nat ensures ExactRun(p, m, n) { CheckingCoercionsAreExact(p, m, n); }
        forall fuel: nat | ResultOf(Evaluated(c, rt, fuel)).Some? && ResultOf(Evaluated(c, rt, fuel)).value.Returned?
          ensures BytesReturn(c, rt, ResultOf(Evaluated(c, rt, fuel)).value)
        {
          var r := ResultOf(Evaluated(c, rt, fuel)).value;
          var tape2, boxes := CompileFunctionCorrect(d, c.arguments, c.captures, rt, fuel, c.heap, c.tape);
          assert BytesEnd(c, rt, tape2, Returned(r.value, r.heap - boxes, r.tape));
        }
        if forall fuel: nat :: Evaluated(c, rt, fuel).TimedOut? {
          forall fuel: nat ensures Meaning(d, c.arguments, c.captures, rt, fuel, c.heap, c.tape).TimedOut? {
            assert Evaluated(c, rt, fuel).TimedOut?;
          }
          var tape2 := CompileFunctionEndless(d, c.arguments, c.captures, rt, c.heap, c.tape);
        }
      }
    }
    forall t, v | CompilesFaithfully(rt) && rt.coerce(t, v).Some? ensures rt.coerce(t, v).value == v {
      FaithfulMeansExact(rt, t, v);
    }
  }

  // The function that shows what conversions cost.

  /** function (x) { var b := x : t; b := x; b } with an unnamed mutable variable b. */
  function AssigningDefinition(t: Value): Definition {
    Definition([0], [], Some(Sequence([AssigningVariable(t), AssigningStore(), AssigningLoad()])))
  }

  lemma ConsCompiled(n: Node, ns: seq<Node>, s: Assembly, s1: Assembly, o: Operand, s2: Assembly, os: seq<Operand>)
    requires Compile(n, s, None, None) == Success((s1, o)) && CompileAll(ns, s1, None, None) == Success((s2, os))
    ensures CompileAll([n] + ns, s, None, None) == Success((s2, [o] + os))
  {
    hide Compile;
    assert ([n] + ns)[1..] == ns;
  }

  lemma ReferencesCompiled(s: Assembly, x: Operand, y: Operand)
    requires 0 in s.bindings && 1 in s.bindings && s.bindings[1] == x && s.bindings[0] == y
    ensures CompileAll([Reference(1)], s, None, None) == Success((s, [x]))
    ensures CompileAll([Reference(1), Reference(0)], s, None, None) == Success((s, [x, y]))
  {
    hide Compile;
    ReferenceCompiled(s, 0);
    ReferenceCompiled(s, 1);
    assert CompileAll([], s, None, None) == Success((s, []));
    ConsCompiled(Reference(0), [], s, s, y, s, []);
    ConsCompiled(Reference(1), [], s, s, x, s, []);
    assert [Reference(0)] + [] == [Reference(0)] && [Reference(1)] + [] == [Reference(1)];
    assert [x] + [] == [x] && [y] + [] == [y];
    ConsCompiled(Reference(1), [Reference(0)], s, s, x, s, [y]);
    assert [Reference(1)] + [Reference(0)] == [Reference(1), Reference(0)] && [x] + [y] == [x, y];
  }

  function AssigningVariable(t: Value): Node {
    Variable(1, true, t, Null, Some(Reference(0)), false)
  }

  function AssigningStore(): Node {
    Operation(STORE, [Reference(1), Reference(0)], ValueKind)
  }

  function AssigningLoad(): Node {
    Operation(LOAD, [Reference(1)], ValueKind)
  }

  /** The assembly after the first statements. */
  function AssigningPart(t: Value, count: nat, temporaries: nat): Assembly
    requires count <= 4
  {
    Assembly(AssigningList()[..count], [t], temporaries, 0, map[0 := In(Arguments, 0), 1 := In(Locals, 0)], 1, 0)
  }

  lemma VariableIsCompiled(n: Node, s: Assembly, o: Operand)
    requires n.Variable? && n.isMutable && !n.isNamed && n.initial.Some?
    requires Compile(n.initial.value, s, None, None) == Success((s, o))
    ensures var (s1, d) := EmitAlloca(s, n.pointerType, o);
            Compile(n, s, None, None) == Success((s1.(bindings := s1.bindings[n.name := d]), d))
  {
    hide EmitAlloca;
  }

  lemma ReferenceCompiled(s: Assembly, b: Binding)
    requires b in s.bindings
    ensures Compile(Reference(b), s, None, None) == Success((s, s.bindings[b]))
  {
  }

  lemma OperationCompiled(op: Opcode, parts: seq<Node>, s: Assembly, os: seq<Operand>)
    requires CompileAll(parts, s, None, None) == Success((s, os))
    ensures Compile(Operation(op, parts, ValueKind), s, None, None) == Success(EmitOperation(s, op, os, ValueKind))
  {
    hide CompileAll, EmitOperation;
  }

  lemma Emitted(s: Assembly, x: Operand, y: Operand)
    ensures EmitOperation(s, STORE, [x, y], ValueKind) == (Emit(s, Instruction(STORE, [x, y])), x)
    ensures var d := In(Locals, s.temporaries);
            EmitOperation(s, LOAD, [x], ValueKind)
            == (Emit(s.(temporaries := s.temporaries + 1), Instruction(LOAD, [d, x])), d)
  {
    assert [In(Locals, s.temporaries)] + [x] == [In(Locals, s.temporaries), x];
  }

  lemma StoreCompiled(t: Value)
    ensures Compile(AssigningStore(), AssigningPart(t, 1, 1), None, None)
            == Success((AssigningPart(t, 2, 1), In(Locals, 0)))
  {
    hide Compile, CompileAll, EmitOperation;
    var s, x, y := AssigningPart(t, 1, 1), In(Locals, 0), In(Arguments, 0);
    Emitted(s, x, y);
    ReferencesCompiled(s, x, y);
    OperationCompiled(STORE, [Reference(1), Reference(0)], s, [x, y]);
    assert AssigningList()[..1] + [AssigningList()[1]] == AssigningList()[..2];
  }

  lemma LoadCompiled(t: Value)
    ensures Compile(AssigningLoad(), AssigningPart(t, 2, 1), None, None)
            == Success((AssigningPart(t, 3, 2), In(Locals, 1)))
  {
    hide Compile, CompileAll, EmitOperation;
    var s, x := AssigningPart(t, 2, 1), In(Locals, 0);
    Emitted(s, x, x);
    ReferencesCompiled(s, x, In(Arguments, 0));
    OperationCompiled(LOAD, [Reference(1)], s, [x]);
    assert AssigningList()[..2] + [AssigningList()[2]] == AssigningList()[..3];
  }

  lemma ThreeCompiled(a: Node, b: Node, c: Node, s: Assembly, s1: Assembly, s2: Assembly, s3: Assembly, x: Operand,
                      y: Operand, z: Operand)
    requires Compile(a, s, None, None) == Success((s1, x)) && Compile(b, s1, None, None) == Success((s2, y))
    requires Compile(c, s2, None, None) == Success((s3, z))
    ensures Compile(Sequence([a, b, c]), s, None, None) == Success((s3, z))
  {
    assert CompileAll([], s3, None, None) == Success((s3, []));
    ConsCompiled(c, [], s2, s3, z, s3, []);
    assert [c] + [] == [c] && [z] + [] == [z];
    ConsCompiled(b, [c], s1, s2, y, s3, [z]);
    assert [b] + [c] == [b, c] && [y] + [z] == [y, z];
    ConsCompiled(a, [b, c], s, s1, x, s3, [y, z]);
    assert [a] + [b, c] == [a, b, c] && [x] + [y, z] == [x, y, z];
    assert Compile(Sequence([a, b, c]), s, None, None) == Success((s3, [x, y, z][|[x, y, z]| - 1]));
  }

  /** The compiler makes the list on which MOVE loses the conversion. */
  lemma AssigningIsCompiled(t: Value)
    ensures CompileDefinition(AssigningDefinition(t)) == Success(AssigningPart(t, 4, 2))
            && AssigningPart(t, 4, 2).items == AssigningList()
    ensures JumpsOptimized(AssigningDefinition(t)) == Success(AssigningList())
  {
    assert Compile(BodyOf(AssigningDefinition(t)), Start(AssigningDefinition(t)), None, None)
           == Success((AssigningPart(t, 3, 2), In(Locals, 1))) by {
      hide CompileAll, Compile, Start, AssigningPart, AssigningVariable, AssigningStore, AssigningLoad;
      assert Compile(AssigningVariable(t), Start(AssigningDefinition(t)), None, None)
             == Success((AssigningPart(t, 1, 1), In(Locals, 0))) by {
        hide Compile, CompileAll;
        var s := Start(AssigningDefinition(t));
        assert Bind(map[], [0], Arguments) == map[0 := In(Arguments, 0)] by { assert [0][..0] == []; }
        ReferenceCompiled(s, 0);
        VariableIsCompiled(AssigningVariable(t), s, In(Arguments, 0));
        var (s1, o) := EmitAlloca(s, t, In(Arguments, 0));
        assert s1.items == AssigningList()[..1] && s1.literals == [t];
        assert s1.bindings[1 := o] == AssigningPart(t, 1, 1).bindings;
      }
      StoreCompiled(t);
      LoadCompiled(t);
      ThreeCompiled(AssigningVariable(t), AssigningStore(), AssigningLoad(), Start(AssigningDefinition(t)),
                    AssigningPart(t, 1, 1), AssigningPart(t, 2, 1), AssigningPart(t, 3, 2), In(Locals, 0),
                        In(Locals, 0),
                        In(Locals, 1));
    }
    hide Compile, AssigningDefinition, Filter;
    assert AssigningList()[..3] + [AssigningList()[3]] == AssigningList() == AssigningList()[..4];
    FilterAll(AssigningList(), KeepJumps(AssigningList()));
  }

  /** What the second pass makes of the list. */
  lemma AssigningMoves()
    ensures Assemblable(OptimizeTemporaries(AssigningList()))
  {
    AssigningItems();
    AssigningUses();
    hide OnlyPointer, Lowered, Filter;
    var r := Lowered(AssigningList());
    FilterAll(r, KeepLowered(AssigningList()));
    assert r[0] == r[..2][0] && r[1] == r[..2][1] && r[2] == r[2..][0] && r[3] == r[2..][1];
    assert Assemblable(r) by {
      forall i | 0 <= i < |r| ensures Encodable(r, i) {
        assert i == 0 || i == 1 || i == 2 || i == 3;
      }
    }
  }

  lemma AssigningBytes(t: Value)
    ensures FullyOptimized(AssigningDefinition(t)).Success? && Assemblable(FullyOptimized(AssigningDefinition(t)).value)
    ensures PointersInLocals(AssigningList()) && CompileFunction(AssigningDefinition(t)).Success?
  {
    hide CompileDefinition, OptimizeTemporaries, AssigningDefinition, Assemblable, AssembleFirst;
    AssigningIsCompiled(t);
    AssigningMoves();
    AssemblableSucceeds(OptimizeTemporaries(AssigningList()));
  }

  lemma StatementsWellFormed(t: Value)
    ensures WellFormed(AssigningVariable(t)) && Defined(AssigningVariable(t)) == {1}
    ensures Scoped(AssigningVariable(t), {0}) == Some({0, 1})
  {
    assert {0} + {1} == {0, 1};
  }

  lemma AccessesWellFormed()
    ensures WellFormed(AssigningStore()) && Defined(AssigningStore()) == {}
            && Scoped(AssigningStore(), {0, 1}) == Some({0, 1})
    ensures WellFormed(AssigningLoad()) && Defined(AssigningLoad()) == {}
            && Scoped(AssigningLoad(), {0, 1}) == Some({0, 1})
  {
    assert [Reference(1), Reference(0)][1..] == [Reference(0)];
    assert AllWellFormed([Reference(1), Reference(0)]) && DefinedInAll([Reference(1), Reference(0)]) == {} by {
      assert [Reference(1), Reference(0)][1..] == [Reference(0)] && [Reference(0)][1..] == [];
      assert DefinedInAll([Reference(0)]) == {};
      assert AllWellFormed([Reference(0)]);
    }
  }

  lemma OneWellFormed(b: Node, c: Node)
    requires WellFormed(b) && WellFormed(c) && Defined(b) == {} && Defined(c) == {}
    ensures AllWellFormed([b, c]) && DefinedInAll([b, c]) == {}
  {
    assert [b, c][1..] == [c] && [c][1..] == [];
    assert DefinedInAll([c]) == {};
    assert AllWellFormed([c]);
  }

  lemma AllScopedBy(a: Node, b: Node, c: Node, x: set<Binding>, y: set<Binding>)
    requires Scoped(a, x) == Some(y) && Scoped(b, y) == Some(y) && Scoped(c, y) == Some(y)
    ensures ScopedAll([a, b, c], x) == Some(y)
  {
    assert [a, b, c][1..] == [b, c] && [b, c][1..] == [c] && [c][1..] == [];
    assert ScopedAll([c], y) == Some(y);
    assert ScopedAll([b, c], y) == Some(y);
  }

  lemma BodyWellFormed(es: seq<Node>)
    requires es != [] && WellFormed(es[0]) && AllWellFormed(es[1..]) && DefinedInAll(es[1..]) == {}
    ensures WellFormed(Sequence(es)) && Defined(Sequence(es)) == DefinedInAll(es)
    ensures forall b: set<Binding> :: Scoped(Sequence(es), b) == ScopedAll(es, b)
  {
  }

  lemma AssigningScoped(t: Value)
    ensures WellFormedDefinition(AssigningDefinition(t)) && ScopedDefinition(AssigningDefinition(t))
  {
    hide WellFormed, Defined, Scoped, AllWellFormed, ScopedAll, AssigningVariable, AssigningStore, AssigningLoad;
    var a, b, c := AssigningVariable(t), AssigningStore(), AssigningLoad();
    StatementsWellFormed(t);
    AccessesWellFormed();
    OneWellFormed(b, c);
    AllScopedBy(a, b, c, {0}, {0, 1});
    assert [a, b, c][1..] == [b, c];
    assert DefinedInAll([a, b, c]) == {1};
    BodyWellFormed([a, b, c]);
    assert Names(AssigningDefinition(t)) == {0};
  }

  lemma FaithfulMeansExact(rt: Runtime, t: Value, v: Value)
    requires CompilesFaithfully(rt) && rt.coerce(t, v).Some?
    ensures rt.coerce(t, v).value == v
  {
    hide Optimized, Meaning;
    hide ByteLeads, CompileDefinition, OptimizeTemporaries, WellFormedDefinition;
    hide ScopedDefinition, AssigningDefinition, Assemblable, Alike, AssembleFirst;
    var d, heap, w := AssigningDefinition(t), AssigningHeap(rt, t, v), rt.coerce(t, v).value;
    var a := Unallocated(heap.Keys);
    var tape, m := [Placed(a)] + [], Machine(0, [Null, Null], heap, [Placed(a)] + []);
    var p := AssigningProgram(rt, t, v);
    AssigningIsCompiled(t);
    AssigningScoped(t);
    AssigningBytes(t);
    assert Fresh(AssigningProgram(rt, t, v), m);
    CoercionIsLost(rt, t, v, heap, a, []);
    assert Leads(p, m, Iterate(p, m, 4));
    AssigningStart(t, heap, tape);
    DefinitionCorrect(d, [v], [], rt, heap, tape);
    var fuel: nat :| ResultOf(Meaning(d, [v], [], rt, fuel, heap, tape)) == Some(Returned(w, heap[a := [w]], []));
    var c := Call(d, [v], [], heap, tape);
    var r := Returned(w, heap[a := [w]], []);
    assert Compilable(c, rt) && ResultOf(Evaluated(c, rt, fuel)) == Some(r);
    assert Faithful(c, rt);
    assert BytesReturn(c, rt, r);
    var tape2: Tape, boxes: set<Address> :|
      && BytesEnd(c, rt, tape2, Returned(r.value, r.heap - boxes, r.tape))
      && Edited(c.tape, tape2) && boxes !! c.heap.Keys && Avoids(boxes, r.value);
    BytesAreOptimized(rt, t, v, heap, tape2, Returned(w, r.heap - boxes, []));
    OnlyRawReturned(rt, t, v, heap, tape2, Returned(w, r.heap - boxes, []));
  }

  lemma AssigningStart(t: Value, heap: Heap, tape: Tape)
    requires CompileDefinition(AssigningDefinition(t)) == Success(AssigningPart(t, 4, 2))
    ensures StartOf(AssigningDefinition(t), heap, tape) == Machine(0, [Null, Null], heap, tape)
    ensures |AssigningDefinition(t).parameters| == 1 && |AssigningDefinition(t).captures| == 0
  {
    hide CompileDefinition;
    assert seq(2, i => Null) == [Null, Null];
  }

  lemma BytesAreOptimized(rt: Runtime, t: Value, v: Value, heap: Heap, tape: Tape, r: Status)
    requires CompileFunction(AssigningDefinition(t)).Success? && CompileDefinition(AssigningDefinition(t)).Success?
             && !r.Running?
    requires ByteLeads(BytesProgram(AssigningDefinition(t), CompileFunction(AssigningDefinition(t)).value, [v], [], rt),
                       ByteStart(AssigningDefinition(t), heap, tape), r)
    ensures Leads(Optimized(AssigningProgram(rt, t, v)), Machine(0, [Null, Null], heap, tape), r)
  {
    hide CompileDefinition, OptimizeTemporaries, Assemblable, Leads, ByteLeads, AssigningDefinition, AssembleFirst;
    AssigningIsCompiled(t);
    AssigningBytes(t);
    AssigningStart(t, heap, tape);
    var d := AssigningDefinition(t);
    var q := Optimized(AssigningProgram(rt, t, v));
    AssemblableSucceeds(q.items);
    AssembledAlike(q, Machine(0, [Null, Null], heap, tape));
    assert Addressed(q.items, StartOf(d, heap, tape)) == ByteStart(d, heap, tape);
  }
}
