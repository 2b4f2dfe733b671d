/** Compiling a function definition with the imperative compiler and assembler. */
module FunctionCompiler {
  import opened Values
  import opened Instructions
  import opened SyntaxTree
  import opened Compiler
  import opened Encoding
  import opened Removal
  import Temporaries
  import opened Assembler
  import opened DirectCompiler
  import opened CompilerPasses
  import opened CompilerShape
  import opened CompiledItems

  /** Binds names to the operands of a vector. */
  method BindNames(compiler: FunctionDirectCompiler, names: seq<Binding>, vector: Vector)
    requires compiler.Valid()
    modifies compiler`bindings
    ensures compiler.Valid()
    ensures compiler.State() == old(compiler.State()).(bindings := Bind(old(compiler.bindings), names, vector))
  {
    for i := 0 to |names|
      invariant compiler.Valid()
      invariant compiler.State() == old(compiler.State()).(bindings := Bind(old(compiler.bindings), names[..i], vector))
    {
      BindNext(compiler.bindings, old(compiler.bindings), names, i, vector);
      compiler.SetBinding(names[i], In(vector, i));
    }
    assert names[..|names|] == names;
  }

  lemma BindNext(now: map<Binding, Operand>, bindings: map<Binding, Operand>, names: seq<Binding>, i: nat,
                 vector: Vector)
    requires i < |names| && now == Bind(bindings, names[..i], vector)
    ensures Bind(bindings, names[..i + 1], vector) == now[names[i] := In(vector, i)]
  {
    assert names[..i + 1][..i] == names[..i];
  }

  lemma LoweredUnique(items: seq<Item>)
    requires UniqueLabels(items)
    ensures UniqueLabels(Temporaries.OptimizeTemporaries(items))
  {
    hide Temporaries.IsLocalOnlyAlloca, Temporaries.IsLocalOnlyReference, Temporaries.ReferencesBefore, Filter;
    var r := Temporaries.Lowered(items);
    forall i | 0 <= i < |r| && r[i].Label? ensures items[i] == r[i] {}
    OptimizedLabelsUnique(r, Temporaries.KeepLowered(items));
  }

  /** Compiles, optimises and assembles a definition; the bytes are those of the specification. */
  method CompileFunctionDefinition(d: Definition) returns (r: Attempt<array<Byte>>)
    requires WellFormedDefinition(d)
    ensures match CompileFunction(d)
            case Success(bytes) => r.Success? && fresh(r.value) && r.value[..] == bytes
            case Failure(message) => r == Failure(message)
  {
    hide CompileDefinition, WellFormedDefinition, Assemble, UniqueLabels;
    var list :- BuildList(d);
    CompiledTidy(d);
    r := OptimizeAndAssemble(list);
  }

  /** The list before optimisation. */
  method BuildList(d: Definition) returns (r: Attempt<FunctionAssembler>)
    ensures match CompileDefinition(d)
            case Success(s) =>
              && r.Success? && fresh(r.value) && fresh(r.value.owned)
              && r.value.Valid() && r.value.Items() == s.items && r.value.references == map[]
            case Failure(message) => r == Failure(message)
  {
    hide Compile, Bind;
    var compiler := new FunctionDirectCompiler(|d.parameters|, |d.captures|);
    BindNames(compiler, d.parameters, Arguments);
    BindNames(compiler, d.captures, Captures);
    var o :- CompileBody(d, compiler);
    compiler.EmitItem(Instruction(RETURN, [o]));
    r := Success(compiler.list);
  }

  method CompileBody(d: Definition, compiler: FunctionDirectCompiler) returns (r: Attempt<Operand>)
    requires compiler.Valid() && compiler.breakLabel == compiler.continueLabel == None
    modifies compiler, compiler.list`firstInstruction, compiler.list`lastInstruction, compiler.list`nodes
    modifies compiler.list`owned, compiler.list.owned
    ensures compiler.Valid() && fresh(compiler.list.owned - old(compiler.list.owned))
    ensures Agrees(Compile(BodyOf(d), old(compiler.State()), None, None), r, compiler.State())
  {
    hide compiler.Valid, compiler.State;
    if d.body.Some? {
      r := compiler.CompileNode(d.body.value);
    } else {
      var o := compiler.Literal(Void);
      r := Success(o);
    }
  }

  /** Both passes and the assembler, on the list in place. */
  method OptimizeAndAssemble(list: FunctionAssembler) returns (r: Attempt<array<Byte>>)
    requires list.Valid() && UniqueLabels(list.Items()) && list.references == map[]
    modifies list, list.owned
    ensures match Assemble(Temporaries.OptimizeTemporaries(Removal.OptimizeJumps(old(list.Items()))))
            case Success(bytes) => r.Success? && fresh(r.value) && r.value[..] == bytes
            case Failure(message) => r == Failure(message)
  {
    hide list.Valid, Assemble, UniqueLabels, Temporaries.OptimizeTemporaries, Filter;
    ghost var items := list.Items();
    OptimizedLabelsUnique(items, KeepJumps(items));
    LoweredUnique(Removal.OptimizeJumps(items));
    list.OptimizeJumps();
    list.OptimizeTemporaries();
    r := list.AssembleInstructions();
  }
}
