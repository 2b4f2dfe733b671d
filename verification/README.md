# Sysbvm: compiler, collector, dictionaries and debug information

A model of the hard parts of the Sysbvm virtual machine, and proofs about them. `dafny verify dfyconfig.toml` checks
everything.

**Bytecode compiler and interpreter.** `SyntaxTree` gives analysed syntax trees a structured meaning with break,
continue, return, scopes, boxes and an environment that answers allocations, calls, sends and coercions. `Compiler`
says which instruction list a tree becomes; `CompilerShape`, `Simulation`, `Emission`, `CompilerCorrect` and
`FunctionCorrect` prove that the list does on the `ListMachine` what the tree means, divergence included. `Removal`
proves the jump pass correct; `Temporaries` to `PromotionCorrect` treat the promotion of boxes to locals and the
lowering of slot references. `DefiniteAssignment` and `CompiledFlow` prove what the lowering needs of compiled lists:
a temporary is set on every path to its uses and not overwritten before them. `Encoding`, `ByteMachine` and
`AssemblyCorrect` go down to bytes and the interpreter; `InstructionSet` says what each opcode does, and `Operations`
what operation nodes become, without the functions that the compiler and the interpreter share. `CompilerPasses` is
the order of compiling, both passes and assembling; `Pipeline` composes the theorems, and `Faithfulness` says in which
environments the whole compiler is right. `Assembler` (a doubly linked list spliced in place), `DirectCompiler`,
`FunctionCompiler` and `Interpreter` are the imperative programs, each proved against these specifications.

**Native code.** `DecodeLoop` is the JIT compiler's decode loop, `NativeJumps` the relocations of native branches,
`JitCompiler` the compiler's loop, and `JumpsLand` where native jumps go. `CompiledJumps` and `NativeTargets` prove
that the jumps of compiled functions have labels and that their counts are extended as the decoder needs it, so that
every native branch, that of each case of a switch included, lands on the code of its label.

**Collector.** `ObjectMemory` has objects, reachability and the intrusive list; `Marking` the tri-colour invariant;
`Sweeping` tombstones and relinking; `Collector` the heap as a class; `MutatorRuns` every run of a mutator, step by
step; `Transparency` compares each run with one whose memory is never collected.

**Dictionaries.** `Probing` is circular probing without gaps; `Dictionary` the identity, ordinary and weak-value
dictionaries; `MethodDictionaries` the interleaved layout; `DictionaryRuns` compares all of them with references over
every run.

**Debug information.** `Leb128`, `CallFrame`, `LineProgram` and `LineInformation` are the emitter for DWARF Version 4
and the decoders that its sections 6.2.2, 6.2.5, 6.4.2.1 and 7.6 describe. `OffsetTable` is the table from program
counters to source positions.

**Allocation and lookup.** `ChunkedAllocator` and `RootTables` are the chunk allocator and the collector's iteration
over it; `InlineCaches` is method lookup behind a global cache and inline caches, in sequential use.

Calls, sends, coercions, equality, hashing and the native code between branches stay uninterpreted: they are
parameters or answers of the environment. So are the addresses that malloc returns.

## Where the code falls short

- Promoting a box to a local drops the coercion that a store performs (`lib/sysbvm/type.c:1140-1198`). The compiler is
  right for all functions of an environment, on returning and endless calls, exactly when its coercions never convert
  a value (`FaithfulIff`, and `PreservesIff` for the pass alone); otherwise a function that assigns a variable and
  reads it returns the wrong value (`AssigningIsCompiled`, `CoercionIsLost`). A single run is also safe when every
  value that it stores to a promoted box coerces to itself (`CompileFunctionCorrect`). Stores through lowered
  references lose only a failing coercion.
- Lowering a slot reference reads its tuple and slot operands again where the reference is used. On arbitrary lists
  that is wrong (`RedirectionIsLost`); on every list that the compiler emits it is right (`CompiledPromotable`).
- A count extension makes the interpreter loop for ever (`ExtensionLoops`): bytes halt exactly on the runs that execute
  none (`ExtensionsDecide`). The JIT compiler decodes it properly.
- Named mutable variables are never promoted: their debug-value instruction counts as another use of the box.
- A temporary of void or undefined type is a literal, so an instruction that needs it as a destination makes the
  interpreter fail; evaluation says so too. A slot reference of void type would even make the pass take that shared
  literal for a reference.
- Break and continue inside the guard or the continue expression of a loop refer to the enclosing loop.
- The ordinary dictionary's `add` keeps an association that is already there.
- The size field of an object header has 32 bits, the total size does not: after an allocation of 4 GiB or more the
  accounting is off by what was dropped.
- Unlocking the collector without a lock wraps the counter.
- The assertion of the chunk allocator comes after the bump: an oversized request spoils its chunk for good
  (`OverfullStaysOverfull`).
- The preprocessing of line advances subtracts the other way round than the emission, so that the header favours the
  wrong range of advances; that costs bytes, but no row is wrong.
- The end-of-sequence row has the address of the last row, not of the end of the function.
- A native jump to an address at which no instruction begins would lead out of the code (`JumpLands`).

## Model

| member | source | states |
|---|---|---|
| `FunctionCorrect.DefinitionCorrect` | lib/sysbvm/bytecodeCompiler.c:1027-1095 | For every function definition with references in scope: the activation of the compiled list stops with a result just when structured evaluation of the syntax tree gives that result, and it runs for ever just when evaluation times out for every fuel |
| `FunctionCorrect.MeaningIsResultOrTimeout` | lib/sysbvm/bytecodeCompiler.c:1027-1095 | Evaluation of a function yields a result or times out; a result is the one the list machine reaches, and a timeout with fuel n means that the machine survives n steps |
| `CompilerCorrect.NodeFollows` | lib/sysbvm/bytecodeCompiler.c:136-217 | Induction over every node: code for a node placed in any program takes the machine to the node's outcome (value in the returned operand, scope in the bindings' operands, memory; jump to the break or continue label; return; failure; survival), and leaves all temporaries of the surrounding code alone |
| `CompilerCorrect.IfFollows` | lib/sysbvm/bytecodeCompiler.c:1426-1474 | If: either branch, missing branches, abrupt branches, result merged in one temporary or a constant for void results |
| `CompilerCorrect.SwitchFollows` | lib/sysbvm/bytecodeCompiler.c:1476-1544 | Switch: keys evaluated before the jump, first identical or equal key wins, default otherwise, results merged |
| `CompilerCorrect.WhileFollows` | lib/sysbvm/bytecodeCompiler.c:2003-2057 | While: guard before each turn, continue expression after body or continue, break leaves; break and continue inside guard and continue expression refer to the enclosing loop, as compiled |
| `CompilerCorrect.DoWhileFollows` | lib/sysbvm/bytecodeCompiler.c:1208-1262 | Do-while: body first, continue lands in front of the guard |
| `CompilerCorrect.VariableFollows` | lib/sysbvm/bytecodeCompiler.c:1621-1659 | Variable definitions: immutable ones bind the operand of the value, mutable ones a fresh box |
| `CompilerCorrect.SequenceFollows` | lib/sysbvm/bytecodeCompiler.c:1861-1890 | Sequences evaluate in order and yield the last value, void when empty |
| `CompilerCorrect.JumpOutFollows` | lib/sysbvm/bytecodeCompiler.c:1152-1206 | Break and continue jump to the label of the innermost loop |
| `CompilerCorrect.ReturnFollows` | lib/sysbvm/bytecodeCompiler.c:1846-1859 | Return leaves the activation with the value of its expression |
| `Operations.CallIsCompiled` | lib/sysbvm/bytecodeCompiler.c:505-573 | The instruction of a call or send, operand by operand: of a send the selector comes first, of one with lookup the type and the selector; the count extension in front when sixteen or more arguments need one; no destination for void calls, and unreachable code behind escaping ones |
| `Operations.ResultIsCompiled` | lib/sysbvm/bytecodeCompiler.c:1661-1785 | The instruction of a constructor or conversion: a fresh temporary, or the literal of a void or undefined type, and the operands in the order of the parts |
| `Operations.StoreIsCompiled` | lib/sysbvm/bytecodeCompiler.c:1950-1979 | The instruction of a store has the operands of its parts; its value is the pointer, or void |
| `Operations.CallAsks` | lib/sysbvm/bytecode.c:407-419 | Evaluating a call or send asks the environment for the values of its parts, the selector of a send in front of the receiver |
| `Operations.ResultAsks` | lib/sysbvm/bytecode.c:392-457 | Evaluating a constructor or conversion asks the environment for the values of its parts in order |
| `Operations.SlotNodes` | lib/sysbvm/bytecode.c:350-367 | Evaluating a slot access reads or writes that slot of that object |
| `SyntaxTree.EvalScoped` | lib/sysbvm/bytecodeCompiler.c:217-254 | A tree whose references are in scope never hits an unbound name, and ends with exactly the names in scope that its shape predicts |
| `CompilerShape.CompileShape` | lib/sysbvm/bytecodeCompiler.c:101-134 | Compiling a node only appends to the list, keeps label identifiers unique and pending labels unplaced, never reuses a temporary, and yields an operand that stays readable |
| `CompiledItems.CompileNeat` | lib/sysbvm/bytecodeCompiler.c:256-268 | Frame property: code for a node writes only temporaries that are created during its own compilation, every operand is in range, and operands of references are computed before they are used |
| `Removal.ThinAlike` | lib/sysbvm/bytecodeCompiler.c:788-802 | Unlinking instructions that have no effect changes no halting run in either direction, wherever jumps lead |
| `Removal.OptimizeJumpsAlike` | lib/sysbvm/bytecodeCompiler.c:804-825 | Removing jumps to the next label preserves every result and every failure, in both directions |
| `Removal.AlikeForEver` | lib/sysbvm/bytecodeCompiler.c:804-825 | Lists that halt alike also diverge alike |
| `PromotionCorrect.OptimizeTemporariesFollows` | lib/sysbvm/bytecodeCompiler.c:923-1025 | Box promotion and slot-reference lowering preserve meaning: when the original activation returns and every value stored to a promoted box coerces to itself, the optimised list returns the same value with the same memory, but for boxes the activation allocated itself and that no value mentions |
| `PromotionCorrect.OptimizeTemporariesEndless` | lib/sysbvm/bytecodeCompiler.c:923-1025 | When the original runs for ever, so does the optimised list, with one sequence of environment answers for all its steps |
| `Promotion.RepliesHappen` | lib/sysbvm/bytecode.c:407-412 | Environments whose calls return an operand or allocate an object that holds all operands are among those that the theorems about both passes are for |
| `PromotionRuns.RunFollows` | lib/sysbvm/bytecodeCompiler.c:923-992 | Simulation of every run without failure, allocas re-executed in loops included: each live promoted box is unaliased and holds what its local holds, and each steady reference names what its tuple and slot operands hold now |
| `PromotionRuns.CurrentStep` | lib/sysbvm/bytecodeCompiler.c:949-974 | Invariant of every step: where a removed reference is steady, the tuple and the slot that it was made from are still in the operands of its definition |
| `PromotionCorrect.PreservesIff` | lib/sysbvm/bytecodeCompiler.c:923-1025 | Exact condition of the pass: in an environment it preserves every returning run (value, memory apart from boxes of the run itself, edited answers used up alike) and every endless run of every promotable program just when coercions never convert a value |
| `PromotionCorrect.StoreRelatedIff` | lib/sysbvm/bytecodeCompiler.c:962-979 | One step: right after a promoted store the box and its local agree just when the stored value coerced to itself |
| `PromotionCorrect.CoercionIsLost` | lib/sysbvm/bytecodeCompiler.c:975-979 | For every environment, pointer type and value: initialising, assigning and reading a variable returns the coerced value, the optimised list the raw one |
| `PromotionCorrect.RedirectionIsLost` | lib/sysbvm/bytecodeCompiler.c:949-957 | A list, not a compiled one, on which slot-reference lowering changes the result: its tuple operand is overwritten between the reference and the load; the condition on assignments is needed |
| `PromotionSteps.AllocaMatched` | lib/sysbvm/bytecodeCompiler.c:940-948 | An alloca of a promoted box is matched by a MOVE of its initial value, the box hidden from then on |
| `PromotionSteps.LoadMatched` | lib/sysbvm/bytecodeCompiler.c:958-962 | A load from a promoted box is matched by a MOVE from its local |
| `PromotionSteps.StoreMatched` | lib/sysbvm/bytecodeCompiler.c:975-979 | A store to a promoted box is matched by a MOVE to its local when the value coerces to itself |
| `PromotionRuns.SlotLoadMatched` | lib/sysbvm/bytecodeCompiler.c:949-961 | A load through a lowered reference is matched by SLOT_AT on the operands of the reference, tuples in locals included |
| `PromotionRuns.SlotStoreMatched` | lib/sysbvm/bytecodeCompiler.c:963-974 | A store through a lowered reference is matched by SLOT_AT_PUT on the operands of the reference, whatever the coercion yields |
| `DefiniteAssignment.FlowSteady` | lib/sysbvm/bytecodeCompiler.c:949-974 | Where assignment is definite, every reference that the pass removes is steady: on all paths it was made from the values that its operands still hold |
| `DefiniteAssignment.ReadsAreWritten` | lib/sysbvm/bytecodeCompiler.c:256-268 | No run of a list with a flow certificate reads a local before it has written it |
| `CompiledFlow.NodeFlows` | lib/sysbvm/bytecodeCompiler.c:136-217 | Induction over every node: a certificate for the code so far extends over the code for the node, jumps out of loops included; instructions read only temporaries that are set on every path and overwrite none that is still needed, and operand and bindings in scope are set behind the node |
| `CompiledFlow.IfFlows` | lib/sysbvm/bytecodeCompiler.c:1426-1474 | Both branches set the merged temporary, and nothing of a branch is taken to be set behind it |
| `CompiledFlow.SwitchFlows` | lib/sysbvm/bytecodeCompiler.c:1476-1544 | The same for any number of cases and the default |
| `CompiledFlow.WhileFlows` | lib/sysbvm/bytecodeCompiler.c:2003-2057 | Temporaries of a turn are not needed in the next one, and break, continue and the jump back find set what their labels need |
| `CompiledFlow.DoWhileFlows` | lib/sysbvm/bytecodeCompiler.c:1208-1262 | The same with the body in front of the guard |
| `Encoding.RoundTrip16` | lib/sysbvm/bytecodeCompiler.c:705-751 | Sixteen-bit little-endian operands decode to the number wrapped to sixteen signed bits |
| `Encoding.VectorRoundTrip` | lib/sysbvm/bytecodeCompiler.c:705-751 | A vector operand survives encoding just when its index is below 8192; a missing destination decodes as missing |
| `Encoding.AssembledAt` | lib/sysbvm/bytecodeCompiler.c:753-786 | The bytes of every instruction stand at its computed address, and computed sizes equal emitted sizes |
| `ByteMachine.DecodesItem` | lib/sysbvm/bytecode.c:212-237 | Decoding at an instruction's address gives its opcode, its encoded operands and the next address, for fixed, variable and case-jump opcodes and any count extension |
| `ByteMachine.ExtensionLoops` | lib/sysbvm/bytecode.c:198-211 | The interpreter never gets past a count extension: the activation record's program counter is not advanced and is read again |
| `InstructionSet.SlotAtRound` | lib/sysbvm/bytecode.c:350-355 | Opcode 36h with operand words in little-endian two's complement and vectors in their low two bits: one round puts the slot that the type slot names into the destination, and fails where there is none |
| `InstructionSet.SlotAtPutRound` | lib/sysbvm/bytecode.c:362-367 | Opcode 38h writes that slot of that object and nothing else |
| `InstructionSet.SlotReadBack` | lib/sysbvm/bytecode.c:350-367 | Reading a slot behind a write gives the written value for the same slot of the same object, and what was there before for every other |
| `InstructionSet.LoadRound` | lib/sysbvm/bytecode.c:321-361 | Opcode 37h makes a pointer to a slot, opcode 22h reads what a pointer leads to: the content of a box, the slot of a slot reference, some values themselves; it fails where a pointer leads nowhere |
| `InstructionSet.StoreRound` | lib/sysbvm/bytecode.c:327-329 | Opcode 24h coerces; a box gets the coerced value, a slot behind a reference the value itself; everything else fails |
| `InstructionSet.RefSlotRound` | lib/sysbvm/bytecode.c:368-386 | Opcodes 39h, 3Ah and 3Bh act on the object that a pointer leads to |
| `InstructionSet.AllocaRound` | lib/sysbvm/bytecode.c:389-391 | Opcode 30h makes a box of its pointer type at the address that the environment answers |
| `InstructionSet.CopyRound` | lib/sysbvm/bytecode.c:330-401 | Opcode 21h copies its operand, opcode 33h its second one |
| `InstructionSet.JumpRounds` | lib/sysbvm/bytecode.c:309-346 | Opcodes 10h, 11h, 25h and 26h: returns and jumps, by displacements from the end of the instruction; the two conditional jumps are complements |
| `InstructionSet.CaseJumpRound` | lib/sysbvm/bytecode.c:458-479 | Opcodes E1h to EFh: the displacement of the first key that is identical or equal, or else the last one |
| `InstructionSet.AskingRound` | lib/sysbvm/bytecode.c:392-457 | All other opcodes hand their operands to the environment in the order of the words and take its reply as their result |
| `AssemblyCorrect.StepAssembled` | lib/sysbvm/bytecode.c:186-499 | One interpreter iteration on the assembled bytes is exactly one step of the list machine: operands fetched from the right vectors, missing destinations discarded, jumps at the label's instruction |
| `AssemblyCorrect.AssembledAlike` | lib/sysbvm/bytecode.c:186-499 | The interpreter on assembled bytes and the list machine halt with the same results, in both directions |
| `AssemblyCorrect.ExtensionsDecide` | lib/sysbvm/bytecode.c:186-499 | With count extensions in the list: the bytes halt with a result just when the list machine halts with it without executing an extension on the way |
| `DecodeLoop.DecodeRecovers` | lib/sysbvm/bytecodeJitCommon.c:437-478 | The JIT compiler's decode loop recovers opcode, operands and address of every instruction of an assembled list, count extensions included |
| `Pipeline.CompileFunctionCorrect` | lib/sysbvm/bytecodeCompiler.c:1027-1139 | The whole compiler: when evaluation of a function returns, the interpreter on the optimised, assembled bytes returns the same value and memory, promoted boxes apart |
| `Pipeline.CompileFunctionEndless` | lib/sysbvm/bytecodeCompiler.c:1027-1139 | When evaluation never ends, the optimised bytes never halt |
| `Pipeline.CompiledPromotable` | lib/sysbvm/bytecodeCompiler.c:923-1025 | Every compiled list whose pointers are put into locals meets the requirements of the second pass: one definition of each removed reference, in front of its uses, with operands that are unchanged on every path between them |
| `Pipeline.CompiledReadsAreSet` | lib/sysbvm/bytecodeCompiler.c:1027-1095 | No run of a compiled function reads a temporary that it has not set before |
| `Faithfulness.FaithfulIff` | lib/sysbvm/bytecodeCompiler.c:1027-1139 | Exact condition of the whole compiler: for all functions, arguments, memories and answers the bytes return what evaluation returns (value, memory apart from boxes of the call itself, edited answers used up alike) and run for ever when evaluation does, just when coercions of the environment never convert a value |
| `Faithfulness.AssigningIsCompiled` | lib/sysbvm/bytecodeCompiler.c:1621-1659 | The list on which the conversion is lost is what the compiler makes of a function that binds a mutable variable, assigns to it and reads it |
| `Pipeline.UnpromotedFunctionExact` | lib/sysbvm/bytecodeCompiler.c:1027-1139 | Where nothing is promoted, the bytes do exactly what evaluation says: results, failures and endless runs |
| `PromotionCorrect.CheckingCoercionsAreExact` | lib/sysbvm/bytecodeCompiler.c:923-992 | Coercions that check without converting satisfy the condition of box promotion on every run |
| `Assembler.FunctionAssembler.AddInstruction` | lib/sysbvm/bytecodeCompiler.c:114-134 | Appends a node to the doubly linked list; all links stay well formed |
| `Assembler.FunctionAssembler.RemoveInstruction` | lib/sysbvm/bytecodeCompiler.c:788-802 | Unlinks exactly one node; all other links stay well formed |
| `Assembler.FunctionAssembler.OptimizeJumps` | lib/sysbvm/bytecodeCompiler.c:804-825 | The in-place pass computes the list whose meaning is preserved by Removal.OptimizeJumpsAlike |
| `Assembler.FunctionAssembler.MarkInstructionOperandUsages` | lib/sysbvm/bytecodeCompiler.c:827-873 | The flags of every operand gain exactly what one instruction does to it |
| `Assembler.FunctionAssembler.FlagsDecide` | lib/sysbvm/bytecodeCompiler.c:875-899 | After marking, the flags tell just the operands that are defined by allocas (or references) only and used as pointers only |
| `Assembler.FunctionAssembler.OptimizeTemporaries` | lib/sysbvm/bytecodeCompiler.c:923-1025 | The in-place pass computes the list whose meaning is preserved by PromotionCorrect.OptimizeTemporariesFollows |
| `Assembler.FunctionAssembler.ComputeAddresses` | lib/sysbvm/bytecodeCompiler.c:1113-1125 | Addresses of all instructions and labels |
| `Assembler.FunctionAssembler.AssembleInstructions` | lib/sysbvm/bytecodeCompiler.c:753-786 | Fills the byte array exactly with the assembled list, or fails at a missing source operand |
| `DirectCompiler.FunctionDirectCompiler.CompileNode` | lib/sysbvm/bytecodeCompiler.c:136-217 | The recursive compile functions build exactly the list, literals, temporaries and bindings of the specification that NodeFollows is about, and restore the break and continue labels |
| `FunctionCompiler.CompileFunctionDefinition` | lib/sysbvm/bytecodeCompiler.c:1027-1139 | Compiles, optimises and assembles in place to the bytes of Pipeline.CompileFunction |
| `Interpreter.ActivationRecord.FetchSources` | lib/sysbvm/bytecode.c:260-300 | Fetches every source operand into the register file, or reports that one is out of bounds |
| `Interpreter.ActivationRecord.Iteration` | lib/sysbvm/bytecode.c:186-499 | One round of the loop changes program counter, extension, locals and memory as the byte machine's step says |
| `Interpreter.ActivationRecord.Interpret` | lib/sysbvm/bytecode.c:186-499 | Any number of rounds |
| `ObjectMemory.EdgeIff` | lib/sysbvm/gc.c:25-54 | The strong edges of an object lead to its type and to what is in its strong slots: all of an ordinary object, those below the instance slot count of the type of a weak one, none of a byte object |
| `ObjectMemory.ReachableIff` | lib/sysbvm/gc.c:25-65 | What marking must find is the least set that contains the roots and with each object its type and what is in its strong slots |
| `Marking.MarkPointerKeeps` | lib/sysbvm/gc.c:9-23 | Greying keeps the tri-colour invariant |
| `Marking.MarkContentKeeps` | lib/sysbvm/gc.c:25-54 | Scanning a popped object keeps the tri-colour invariant: no black object points strongly to a white one |
| `Marking.MarkingExact` | lib/sysbvm/gc.c:56-65 | Once the stack is empty, black objects are exactly those that strong edges reach from the roots, and all others are white |
| `Marking.ReadsExistingIff` | lib/sysbvm/gc.c:36-51 | Exact condition of the unchecked loop over strong slots: a cycle reads only slots that exist just when every weak object that it reaches has the slots that its type declares |
| `Marking.OverdeclaredIsRead` | lib/sysbvm/gc.c:41-51 | A type that declares a slot, a weak instance without one and a root that leads to it: marking reads a slot that is not there |
| `Sweeping.StrongSlotsStay` | lib/sysbvm/heap.c:134-158 | No slot of an ordinary object and no slot of a weak object that its type declares is changed by a cycle, and what they lead to survives |
| `Sweeping.CollectedSound` | lib/sysbvm/heap.c:134-192 | After a cycle no slot, strong or weak, leads to a freed object |
| `Collector.ObjectHeap.MarkPhase` | lib/sysbvm/gc.c:56-91 | Marking from the roots terminates, each object being greyed at most once, and colours exactly the reachable objects black |
| `Collector.ObjectHeap.ReplaceWeakReferencesWithTombstones` | lib/sysbvm/heap.c:134-158 | In every live weak object, exactly the undeclared slots that lead to white objects become tombstones |
| `Collector.ObjectHeap.PerformSweep` | lib/sysbvm/heap.c:160-192 | Relinks the object list to exactly the black objects in their old order, frees exactly the others and subtracts their sizes |
| `Collector.ObjectHeap.PerformCycle` | lib/sysbvm/gc.c:77-91 | A cycle is exact: the list keeps exactly the reachable objects in order, contents unchanged except for dead weak slots, all white afterwards, size accounting preserved |
| `Collector.ObjectHeap.Safepoint` | lib/sysbvm/gc.c:93-107 | Collects just when requested, unlocked and enabled; otherwise changes nothing |
| `Collector.ObjectHeap.Collect` | lib/sysbvm/gc.c:67-71 | Performs an exact cycle when nothing is locked and collection is enabled; otherwise leaves memory and list alone |
| `Collector.ObjectHeap.Unlock` | lib/sysbvm/gc.c:117-124 | Leaving the outermost lock collects just when that was requested and is enabled; otherwise memory and list stay; the unsigned counter wraps at zero |
| `Collector.ObjectHeap.AllocateRaw` | lib/sysbvm/heap.c:25-51 | Appends one white object to the list; the threshold decides on a request; the accounted size exceeds the listed one by what the 32-bit size field drops |
| `Collector.ObjectHeap.AllocatePointerTuple` | lib/sysbvm/heap.c:64-74 | Null slots; the accounting stays exact just when the size fits its 32-bit field |
| `Collector.ObjectHeap.ShallowCopyTuple` | lib/sysbvm/heap.c:83-94 | Same contents, white, appended to the list |
| `Collector.ObjectHeap.SwapGCColors` | lib/sysbvm/heap.c:222-227 | Exchanging black and white turns all survivors white without touching them |
| `Collector.ObjectHeap.DeclareSlots` | lib/sysbvm/type.c:750-755 | A type declares slots; with weak instances that have them all invariants stay |
| `MutatorRuns.Run` | lib/sysbvm/heap.c:25-192 | Over every run of allocations, copies, writes, changes of types, of declared slots and of roots, locks and collections: each step has exactly its effect on objects, list, roots and locks, safepoints collect just when they should, nothing dangles, every listed object is white between steps, the list is well linked, and the total size is the sum of the listed sizes unless an allocation exceeded its size field |
| `MutatorRuns.OnlyGarbageGoes` | lib/sysbvm/heap.c:160-192 | In every run an object goes only in a step that collects, and only when no root reaches it by strong edges |
| `MutatorRuns.OnlyDeadSlotsAreBuried` | lib/sysbvm/heap.c:134-158 | In every run a collection turns exactly the undeclared weak slots that lead to unreachable objects into tombstones; apart from that a slot changes only by being written |
| `Transparency.CollectionsInvisible` | lib/sysbvm/gc.c:77-134 | Collections are transparent: beside every run there is the same run of a memory that is never collected, and at every point both agree on all objects of the collected heap, up to addresses (which malloc may reuse) and buried weak slots |
| `Transparency.AliveAlike` | lib/sysbvm/gc.c:9-65 | The memory that is never collected reaches exactly the counterparts of what the collected heap reaches, as long as no declared slot of a weak object is a tombstone |
| `Probing.ScanFinds` | lib/sysbvm/dictionary.c:29-69 | A circular scan that stops at an equal key or a free slot finds the binding of the key if there is one |
| `Probing.PutPlaces` | lib/sysbvm/dictionary.c:71-78 | Writing where a scan stopped keeps all probe chains free of gaps, across the wrap-around |
| `Dictionary.AssociationDictionary.ScanFor` | lib/sysbvm/dictionary.c:442-469 | Finds the first slot in circular order that is free or holds an equal key, or reports that there is none |
| `Dictionary.AssociationDictionary.Find` | lib/sysbvm/dictionary.c:490-507 | Finds a value just when the key is bound to it; in a weak dictionary just when it is still alive |
| `Dictionary.AssociationDictionary.IncreaseCapacity` | lib/sysbvm/dictionary.c:519-540 | Rehashing keeps every live binding and nothing else, and the size counts the occupied slots |
| `Dictionary.AssociationDictionary.AtPut` | lib/sysbvm/dictionary.c:577-609 | Binds the key and changes no other binding; afterwards the size is below four fifths of the capacity, so that the next scan succeeds and the failure branches are unreachable |
| `Dictionary.AssociationDictionary.Add` | lib/sysbvm/dictionary.c:154-199 | An identity dictionary replaces the association; the ordinary one keeps an association that is already there |
| `Dictionary.AssociationDictionary.Bury` | lib/sysbvm/dictionary.c:255-289 | The death of a value unbinds its key and nothing else |
| `DictionaryRuns.Run` | lib/sysbvm/dictionary.c:18-609 | Identity, ordinary and weak-value dictionaries, the ordinary ones made with any expected capacity, find over every sequence of puts, additions and deaths of values exactly what the reference expects |
| `MethodDictionaries.MethodDictionary.AtPut` | lib/sysbvm/dictionary.c:696-731 | Interleaved layout: binds every key but the marker and changes no other binding; a free slot remains |
| `MethodDictionaries.MethodDictionary.IncreaseCapacity` | lib/sysbvm/dictionary.c:670-694 | Rehashing keeps every binding |
| `DictionaryRuns.RunMethods` | lib/sysbvm/dictionary.c:426-731 | Preallocated with any capacity, a method dictionary finds after every run what the finite map of its bindings says |
| `Leb128.ULEB128RoundTrip` | lib/sysbvm/dwarf.c:80-94 | Decoding (section 7.6 of DWARF Version 4) gives the value back and leaves following bytes alone |
| `Leb128.ULEB128Shortest` | lib/sysbvm/dwarf.c:80-94 | No byte sequence that decodes to the value is shorter |
| `Leb128.SLEB128RoundTrip` | lib/sysbvm/dwarf.c:96-116 | The same for signed values |
| `Leb128.SLEB128Shortest` | lib/sysbvm/dwarf.c:96-116 | No byte sequence that decodes to the signed value is shorter |
| `Leb128.WriteULEB128` | lib/sysbvm/dwarf.c:80-94 | The encoder's loop terminates and appends the encoding |
| `Leb128.WriteSLEB128` | lib/sysbvm/dwarf.c:96-116 | The signed encoder's loop terminates and appends the encoding |
| `CallFrame.AdvanceRoundTrip` | lib/sysbvm/dwarf.c:219-251 | All four advance encodings decode to the advance by the opcode numbers of section 6.4.2.1 of DWARF Version 4 |
| `CallFrame.CallFrameBuilder.SetPC` | lib/sysbvm/dwarf.c:219-251 | The decoded location follows the program counter just when the advance is a multiple of the code alignment |
| `CallFrame.SetAll` | lib/sysbvm/dwarf.c:219-251 | A sequence of program counters decodes to the last one |
| `LineProgram.SpecialAdvances` | lib/sysbvm/dwarf.c:510-529 | A special opcode's quotient and remainder by the line range are the two advances, whenever the builder chooses one |
| `LineProgram.RunThrough` | lib/sysbvm/dwarf.c:451-536 | The state machine of sections 6.2.2 and 6.2.5 runs a concatenation as one program after the other |
| `LineProgram.LineProgramBuilder.AdvanceLineAndPC` | lib/sysbvm/dwarf.c:510-529 | Appends exactly one row at the advanced address and line, with one special opcode where it is possible and standard opcodes otherwise; the builder's registers are those of the state machine |
| `LineProgram.LineProgramBuilder.SetFile` | lib/sysbvm/dwarf.c:461-469 | Sets the file register of the state machine with the standard opcode numbers, emitting nothing when it is set already |
| `LineProgram.LineProgramBuilder.SetColumn` | lib/sysbvm/dwarf.c:471-479 | Sets its column register |
| `LineProgram.LineProgramBuilder.SetAddress` | lib/sysbvm/dwarf.c:451-459 | Sets the address register by the extended opcode |
| `LineProgram.LineProgramBuilder.EndSequence` | lib/sysbvm/dwarf.c:531-536 | The end-of-sequence row, after which the state machine starts over |
| `LineInformation.FilesCover` | lib/sysbvm/bytecodeJitCommon.c:172-204 | The file table has no duplicates and names every source code |
| `LineInformation.FileNamesSource` | lib/sysbvm/bytecodeJitCommon.c:172-181 | The file register of a record's row names the record's source code |
| `LineInformation.LineInfoEmission.Preprocess` | lib/sysbvm/bytecodeJitCommon.c:206-224 | The file table, and line base and range from the small line advances |
| `LineInformation.EmitDebugLineInfo` | lib/sysbvm/bytecodeJitCommon.c:250-315 | Round trip: running the state machine on the emitted bytes lists exactly one row (address, file, line, column) per record with a source position, in order, and the end of the sequence |
| `OffsetTable.CompressionKeepsAnswers` | lib/sysbvm/orderedOffsetTable.c:16-29 | Run compression loses nothing: the compressed log answers every offset as the log does |
| `OffsetTable.FindValueWithOffset` | lib/sysbvm/orderedOffsetTable.c:42-78 | Binary search answers with the last value logged at the offset or before it |
| `OffsetTable.PositionOfPc` | lib/sysbvm/bytecodeCompiler.c:1113-1125 | Every byte of an instruction maps to the instruction's source position, despite labels of size zero |
| `OffsetTable.BuildDebugTable` | lib/sysbvm/bytecodeCompiler.c:1109-1137 | The table that compilation builds holds the log of all instructions |
| `OffsetTable.FindSourcePosition` | lib/sysbvm/bytecode.c:501-504 | Searching a function's table with an address gives the position of the instruction that the address is in |
| `ChunkedAllocator.RoomExactIff` | lib/sysbvm/chunkedAllocator.c:50-53 | The unsigned subtraction of the search loop is exact at every fill level just when the alignment divides the capacity |
| `ChunkedAllocator.OverfullStaysOverfull` | lib/sysbvm/chunkedAllocator.c:115-116 | After a request that exceeds a chunk, the chunk seems to have room for anything and every further request to it fails |
| `ChunkedAllocator.Allocator.EnsureChunkWithRequiredCapacity` | lib/sysbvm/chunkedAllocator.c:45-106 | Adds no chunk just when the current chunk, which is always the last, has the room, and links one new chunk at the end otherwise; the chain stays well linked |
| `ChunkedAllocator.Allocator.Allocate` | lib/sysbvm/chunkedAllocator.c:108-119 | Succeeds just for requests that fit a chunk, with an aligned range inside the capacity and apart from all earlier ranges; entries of one size fill the chunks without gaps |
| `RootTables.ChunkIterator.Advance` | include/sysbvm/chunkedAllocator.h:57-61 | From each chunk to the next one of the chain |
| `RootTables.VisitEntries` | lib/sysbvm/gc.c:136-148 | Visits every entry ever allocated exactly once, in the order of allocation, and nothing else |
| `RootTables.IterateTableRoots` | lib/sysbvm/gc.c:136-171 | The roots of the root table and of all inline cache entries |
| `RootTables.TableRootIff` | lib/sysbvm/gc.c:136-148 | A word is visited as a table root just when it is an allocated entry |
| `RootTables.CacheRootIff` | lib/sysbvm/gc.c:150-171 | Selector, type and method of a cache entry are visited just when the cache was allocated |
| `NativeJumps.PatchingLinks` | lib/sysbvm/bytecodeJitX86.c:1695-1702 | Applying all relocations to the code with empty displacements gives the code with every displacement filled in, and changes nothing else |
| `NativeJumps.LinkedBranchLands` | lib/sysbvm/bytecodeJitX86.c:901-993 | The processor goes from a branch of linked code to the destination recorded for its target |
| `JitCompiler.BytecodeJit.CaseJump` | lib/sysbvm/bytecodeJitX86.c:964-993 | One conditional branch per case and a jump to the default, with their relocations |
| `JitCompiler.BytecodeJit.Decode` | lib/sysbvm/bytecodeJitCommon.c:454-494 | The decode loop reads opcode, count and operand words |
| `JitCompiler.BytecodeJit.Finish` | lib/sysbvm/bytecodeJitX86.c:1695-1702 | The patch loop links the code |
| `JitCompiler.BytecodeJit.Compile` | lib/sysbvm/bytecodeJitCommon.c:437-659 | Compiles every decoded instruction in order, records the native address of each and links all branches |
| `JumpsLand.JumpLands` | lib/sysbvm/bytecodeJitX86.c:901-993 | Forward, backward and case jumps land on the first native byte recorded for their target, and outside of the code just when the target is no instruction start |
| `JumpsLand.AssembledJumpLands` | lib/sysbvm/bytecodeJitCommon.c:437-659 | In the native code of an assembled function a jump to a label lands on the code that begins at the label's address |
| `JumpsLand.OffsetLeadsToLabel` | lib/sysbvm/bytecodeCompiler.c:705-751 | A jump operand that fits sixteen bits decodes to the address of its label |
| `CompiledJumps.NodeAimed` | lib/sysbvm/bytecodeCompiler.c:136-217 | Induction over every node: each displacement operand of compiled code is a label that is placed in it or among those that the surrounding code has yet to place, and count extensions are exactly where they are needed |
| `NativeTargets.CompiledTargetsIn` | lib/sysbvm/bytecodeJitCommon.c:437-659 | Whatever the compiler emits and optimises branches to addresses of labels inside of the function only, as the unchecked table access of the patch loop needs |
| `NativeTargets.CompiledJumpLands` | lib/sysbvm/bytecodeJitCommon.c:437-659 | Every native branch of every compiled function lands on the native code that begins at the address of a label |
| `NativeTargets.CompiledChoiceLands` | lib/sysbvm/bytecodeJitX86.c:901-993 | Choice k of a jump of a compiled function: its native branch is je, jne or jmp as the source says, for case k behind the comparison with key k, and it lands on the code of the label that is displacement operand k; the last one is the default |
| `NativeTargets.OptimizedPlaced` | lib/sysbvm/bytecodeCompiler.c:493-503 | In every optimised list of a compiled definition all displacements have labels, and the count extension stands in front of each instruction with sixteen or more variable operands and nowhere else |
| `InlineCaches.OtherSelectorsStay` | lib/sysbvm/type.c:799-812 | Setting a method changes lookups of its own selector only, in all subtypes |
| `InlineCaches.FlushedAgrees` | lib/sysbvm/pic.c:35-46 | After flushing the selector every cache entry agrees with the changed types |
| `InlineCaches.LookupAfter` | lib/sysbvm/type.c:799-812 | After setting a method, exactly the types that reach the changed type without an override of the selector find it; all others find what they found |
| `InlineCaches.StaleWithoutFlush` | lib/sysbvm/pic.c:35-46 | Without the flush a cache stays correct just when every cached type that reaches the changed type without an override of the selector already found the new method |
| `InlineCaches.InlineCache.LookupTypeAndSelector` | lib/sysbvm/pic.c:4-21 | Answers with the last matching entry |
| `InlineCaches.InlineCache.AddSelectorTypeAndMethod` | lib/sysbvm/pic.c:23-33 | Replaces the entry that the sequence counter selects |
| `InlineCaches.Context.LookupSelector` | lib/sysbvm/type.c:830-853 | The direct-mapped global cache answers as the walk up the supertypes does |
| `InlineCaches.Context.LookupSelectorWithPIC` | lib/sysbvm/type.c:855-864 | The inline cache in front of it answers as the walk does, and every cache stays correct |
| `InlineCaches.Context.FlushLookupSelector` | lib/sysbvm/type.c:1375-1404 | Clears exactly the entries of the selector in the global cache and in every inline cache |
| `InlineCaches.Run` | lib/sysbvm/type.c:830-864 | Over every run of lookups and flushed redefinitions through any number of inline caches, each answer is that of the walk at that point |

## Left out

- Pipeline.CompileFunctionCorrect: for runs that return, as `Pipeline.CompileFunctionEndless` is for endless ones; where the original fails, promoted code can return, because the dropped store coercion may have been the failure. It assumes that slot references have a destination that is a local (no void type), that operands of variable length have fewer than 16 items and that operands and displacements fit their words.
- PromotionCorrect.OptimizeTemporariesFollows: states memory up to promoted boxes and edits the sequence of environment answers by exactly their placements, because the optimised list allocates less.
- FunctionCorrect.DefinitionCorrect: the activation starts with zeroed locals; the stack frame, exception handlers and activation of closures are not part of the model.
- Assembler.FunctionAssembler.OptimizeTemporaries: temporary types (`lowerTemporaryPointerRank`) are not modelled, nor plain ALLOCA, which this compiler does not emit; the flag that usage marking also writes into label operands of CASE_JUMP has no effect here.
- AssemblyCorrect.AssembledAlike: an unplaced label stands for the end of the list, as the address after the last instruction does; compiled lists place every label.
- DecodeLoop.DecodeRecovers: a truncated count extension, which the loop would read beyond the array, is a failure; the validation of operand indices is not modelled.
- JitCompiler.BytecodeJit.Compile: needs jump targets inside of the function, because the patch loop reads the destination table there without a check (`NativeTargets.CompiledTargetsIn` proves that compiled functions have them), and native code below 2 GiB for landing; the code between branches is arbitrary, and x86 operand encodings, constants, unwind codes, the layout of sections on installation and object files are not modelled.
- Collector.ObjectHeap.PerformCycle: roots are a sequence of tuples; their enumeration from the tables is `RootTables`, and stack scanning is not part of the model. Concurrency is left out.
- Transparency.AliveAlike: the two memories reach the same objects while no declared slot of a weak object is a tombstone. A type that declares more slots after its weak instances lost some makes a strong slot of what is a tombstone already; `Transparency.CollectionsInvisible` holds all the same.
- MutatorRuns.Run: the mutator writes only tuples that it holds, and types declare no more slots than their weak instances have; marking reads those slots without a check (`Marking.ReadsExistingIff`).
- NativeTargets.CompiledTargetsIn: for functions whose instructions have as many operands as their opcodes ask for, fewer than 64, and whose displacements fit their words.
- Dictionary.AssociationDictionary.AtPut: associations are values, so that aliasing of an association object outside of the dictionary is not captured; the wrap-around of the size field is not modelled.
- CallFrame.CallFrameBuilder.SetPC: only location advances; register rules, stack-size tracking and entry headers are left out.
- LineInformation.EmitDebugLineInfo: unbounded integers, so that 32-bit wrap-around of line differences and of special opcodes of functions beyond 100 MB is not modelled; the textual header of directories and files, address patching on installation and the statement and discriminator registers are left out.
- ChunkedAllocator.Allocator.Allocate: addresses are offsets within a chunk, rounding is arithmetic on powers of two instead of masking, and sizes are below half of the address space; the second mapping of executable chunks has the same offsets and is not modelled.
- InlineCaches.Run: sequential use only; torn reads between concurrent writers, changes of supertypes and `doesNotUnderstand:` are left out.
- Interpreter.ActivationRecord.Interpret: safepoints at backward branches do not change what a program computes and are left out, as are the fast paths of calls and sends.
- CompilerCorrect.NodeFollows: covers literals, references, sequences, variables, operations (loads, stores, slots, calls, sends, constructors, coercions), if, switch, both loops, break, continue and return; lambdas with captures are operations whose parts are evaluated in order.
- Image saving and loading, parser, scanner, analyser, syntax-tree interpreter, virtual-memory mapping and primitives are not part of this model.
