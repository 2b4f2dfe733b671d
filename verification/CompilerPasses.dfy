/** What the compiler makes of a function definition: the list, both passes over it, and the bytes. */
module CompilerPasses {
  import opened Values
  import opened Instructions
  import opened Compiler
  import opened Removal
  import opened Temporaries
  import opened Encoding

  /** The list after the first pass, and after both. */
  function JumpsOptimized(d: Definition): Attempt<seq<Item>> {
    var s :- CompileDefinition(d);
    Success(OptimizeJumps(s.items))
  }

  function FullyOptimized(d: Definition): Attempt<seq<Item>> {
    var items :- JumpsOptimized(d);
    Success(OptimizeTemporaries(items))
  }

  /** Compiles a definition: build the list, optimise jumps, optimise temporaries, assemble. */
  function CompileFunction(d: Definition): Attempt<seq<Byte>> {
    var items :- FullyOptimized(d);
    Assemble(items)
  }
}
