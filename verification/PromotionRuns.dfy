/** Whole runs of the optimised list, and what goes wrong when a condition of the pass is missing. */
module PromotionRuns {
  import opened Values
  import opened Instructions
  import opened ListMachine
  import opened Temporaries
  import opened Promotion
  import opened PromotionSteps

  // Vanishing references.

  lemma NopStep(p: Program, m: Machine)
    requires m.pc < |p.items| && p.items[m.pc] == Instruction(NOP, [])
    ensures Step(p, m) == Running(m.(pc := m.pc + 1))
  {
    assert Sources(NOP, []) == [];
  }

  /** A slot reference that is made. */
  lemma ReferenceTaken(p: Program, m: Machine)
    requires m.pc < |p.items| && Vanishes(p.items, m.pc) && Step(p, m).Running?
    ensures var os := p.items[m.pc].operands;
            && Readable(p, os[1], m.locals) && Readable(p, os[2], m.locals) && Writable(os[0], |m.locals|)
            && Step(p, m).machine == m.(pc := m.pc + 1, locals :=
                 Write(m.locals, os[0], SlotReference(Read(p, os[1], m.locals), Read(p, os[2], m.locals))))
  {
    hide OnlyPointer;
    var os := p.items[m.pc].operands;
    assert Sources(SLOT_REFERENCE_AT, os) == [os[1], os[2]];
    assert ReadAll(p, [os[1], os[2]], m.locals) == [Read(p, os[1], m.locals), Read(p, os[2], m.locals)];
    assert Readable(p, [os[1], os[2]][0], m.locals) && Readable(p, [os[1], os[2]][1], m.locals);
  }

  lemma ReferenceMatched(p: Program, m: Machine, m2: Machine, hidden: set<Address>) returns (next2: Machine)
    requires Promotable(p.items) && Related(p, m, m2, hidden)
    requires m.pc < |p.items| && Vanishes(p.items, m.pc) && Step(p, m).Running?
    ensures Matched(p, Step(p, m).machine, m, m2, hidden, [], next2, hidden) && Step(p, m).machine.tape == m.tape
  {
    hide MemoryRelated, ConstantsPlain, Step, Steady;
    var os := p.items[m.pc].operands;
    SameLength(p, m.heap, hidden, m.locals, m2.locals);
    PointerIsLocal(p.items, os[0]);
    OperandsOrdinary(p.items, m.pc);
    ReferenceTaken(p, m);
    var v := SlotReference(Read(p, os[1], m.locals), Read(p, os[2], m.locals));
    assert LocalsRelated(p, m.heap, hidden, m.locals[os[0].index := v], m2.locals) by {
      forall u | 0 <= u < |m.locals| ensures LocalRelated(p, m.heap, hidden, u, m.locals[os[0].index := v][u],
                                                          m2.locals[u]) {
        assert LocalRelated(p, m.heap, hidden, u, m.locals[u], m2.locals[u]);
      }
    }
    NopStep(Rewritten(p), m2.(tape := []));
    next2 := Machine(m.pc + 1, m2.locals, m2.heap, []);
  }

  // What references mean where they are steady.

  /** The reference of definition d is unset, or names what the tuple and the slot operands hold now. */
  ghost predicate CurrentAt(p: Program, locals: seq<Value>, d: nat)
    requires d < |p.items| && Vanishes(p.items, d)
  {
    var os := p.items[d].operands;
    os[0].In? && os[0].index < |locals| ==>
      || locals[os[0].index].Null?
      || (Readable(p, os[1], locals) && Readable(p, os[2], locals)
          && locals[os[0].index] == SlotReference(Read(p, os[1], locals), Read(p, os[2], locals)))
  }

  ghost predicate Current(p: Program, steady: seq<set<nat>>, m: Machine) {
    && m.pc < |steady|
    && forall d, r: nat :: 0 <= d < |p.items| && Refreshes(p.items, d, r) && r in steady[m.pc] ==>
         CurrentAt(p, m.locals, d)
  }

  /** Which local a step changes. */
  lemma StepWrites(p: Program, m: Machine)
    requires m.pc < |p.items| && Step(p, m).Running?
    ensures var next := Step(p, m).machine;
            && |next.locals| == |m.locals|
            && forall t: nat :: t < |m.locals| && next.locals[t] != m.locals[t] ==>
                 Defines(p.items[m.pc], In(Locals, t))
  {
    hide Primitive, ReadAll, AllReadable, Position;
  }

  /** Steady references stay current in every step. */
  lemma CurrentStep(p: Program, steady: seq<set<nat>>, m: Machine)
    requires Promotable(p.items) && Steady(p.items, steady) && Current(p, steady, m) && m.pc < |p.items|
    requires Step(p, m).Running?
    ensures Current(p, steady, Step(p, m).machine)
  {
    hide OnlyPointer, Dereferences, Readable, Read;
    var next := Step(p, m).machine;
    StepWrites(p, m);
    var l := StepGoes(p, m);
    assert Precedes(p.items, m.pc, next.pc) by {
      assert Precedes(p.items, m.pc, Step(p, m).machine.pc);
    }
    forall d, r: nat | 0 <= d < |p.items| && Refreshes(p.items, d, r) && r in steady[next.pc]
      ensures CurrentAt(p, next.locals, d)
    {
      if Refreshes(p.items, m.pc, r) {
        assert SettledReference(p.items, d);
        assert Defines(p.items[m.pc], p.items[d].operands[0]);
        JustMade(p, m);
      } else {
        StaysCurrent(p, m, next, d, r);
      }
    }
  }

  lemma JustMade(p: Program, m: Machine)
    requires m.pc < |p.items| && Vanishes(p.items, m.pc) && Step(p, m).Running?
    ensures CurrentAt(p, Step(p, m).machine.locals, m.pc)
  {
    hide OnlyPointer, Step;
    ReferenceTaken(p, m);
    var os := p.items[m.pc].operands;
    UsedMeansOrdinary(p.items, m.pc, 1, os[1], SLOT_REFERENCE_AT);
    UsedMeansOrdinary(p.items, m.pc, 2, os[2], SLOT_REFERENCE_AT);
    assert Readable(p, os[1], Step(p, m).machine.locals)
           && Read(p, os[1], Step(p, m).machine.locals) == Read(p, os[1], m.locals);
    assert Readable(p, os[2], Step(p, m).machine.locals)
           && Read(p, os[2], Step(p, m).machine.locals) == Read(p, os[2], m.locals);
  }

  lemma StaysCurrent(p: Program, m: Machine, next: Machine, d: nat, r: nat)
    requires m.pc < |p.items| && d < |p.items| && Refreshes(p.items, d, r) && SettledReference(p.items, d)
    requires CurrentAt(p, m.locals, d) && !Disturbs(p.items, m.pc, r) && !Refreshes(p.items, m.pc, r)
    requires |next.locals| == |m.locals|
    requires forall t: nat :: t < |m.locals| && next.locals[t] != m.locals[t] ==> Defines(p.items[m.pc], In(Locals, t))
    ensures CurrentAt(p, next.locals, d)
  {
    hide OnlyPointer;
    var os := p.items[d].operands;
    if r < |m.locals| && !m.locals[r].Null? {
      assert !Overwrites(p.items[m.pc], os[1]) && !Overwrites(p.items[m.pc], os[2]);
      assert !Defines(p.items[m.pc], os[0]);
      if os[1].In? && os[1].vector.Locals? {
        assert os[1] == In(Locals, os[1].index);
        assert os[1].In? && (os[1].vector.Locals? ==> os[1].index < |m.locals|);
      }
      if os[2].In? && os[2].vector.Locals? {
        assert os[2] == In(Locals, os[2].index);
        assert os[2].In? && (os[2].vector.Locals? ==> os[2].index < |m.locals|);
      }
      assert Readable(p, os[1], next.locals) && Read(p, os[1], next.locals) == Read(p, os[1], m.locals);
      assert Readable(p, os[2], next.locals) && Read(p, os[2], next.locals) == Read(p, os[2], m.locals);
    }
  }

  /** What a vanished reference stands for where it is dereferenced. */
  lemma ReferenceFound(p: Program, steady: seq<set<nat>>, m: Machine, r: nat) returns (d: nat)
    requires Promotable(p.items) && Steady(p.items, steady) && Current(p, steady, m) && m.pc < |p.items|
    requires Dereferences(p.items[m.pc], In(Locals, r)) && IsLocalOnlyReference(p.items, In(Locals, r))
    requires r < |m.locals| && !m.locals[r].Null?
    ensures d < |p.items| && Refreshes(p.items, d, r)
    ensures var os := p.items[d].operands;
            && Behind(ReferencesBefore(p.items, m.pc), In(Locals, r)) == (os[1], os[2])
            && Readable(p, os[1], m.locals) && Readable(p, os[2], m.locals)
            && m.locals[r] == SlotReference(Read(p, os[1], m.locals), Read(p, os[2], m.locals))
            && Ordinary(p.items, os[1]) && Ordinary(p.items, os[2])
  {
    hide OnlyPointer, Readable, Read, Precedes;
    d := ReferenceDefinition(p.items, r);
    assert SettledReference(p.items, d);
    SettledBehind(p.items, d, m.pc);
    assert CurrentAt(p, m.locals, d);
    var os := p.items[d].operands;
    UsedMeansOrdinary(p.items, d, 1, os[1], SLOT_REFERENCE_AT);
    UsedMeansOrdinary(p.items, d, 1, os[1], ALLOCA_WITH_VALUE);
    UsedMeansOrdinary(p.items, d, 2, os[2], SLOT_REFERENCE_AT);
    UsedMeansOrdinary(p.items, d, 2, os[2], ALLOCA_WITH_VALUE);
  }

  lemma SlotStep(p: Program, m: Machine, d: Operand, a: Operand, b: Operand)
    requires m.pc < |p.items| && p.items[m.pc] == Instruction(SLOT_AT, [d, a, b])
    requires Writable(d, |m.locals|) && Readable(p, a, m.locals) && Readable(p, b, m.locals)
    requires SlotAt(p.runtime, m.heap, Read(p, a, m.locals), Read(p, b, m.locals)).Some?
    ensures Step(p, m) == Running(m.(pc := m.pc + 1, locals :=
              Write(m.locals, d, SlotAt(p.runtime, m.heap, Read(p, a, m.locals), Read(p, b, m.locals)).value)))
  {
    hide SlotAt;
    assert [d, a, b][1..] == [a, b] == Sources(SLOT_AT, [d, a, b]);
    assert ReadAll(p, [a, b], m.locals) == [Read(p, a, m.locals), Read(p, b, m.locals)];
  }

  lemma SlotPutStep(p: Program, m: Machine, a: Operand, b: Operand, o: Operand)
    requires m.pc < |p.items| && p.items[m.pc] == Instruction(SLOT_AT_PUT, [a, b, o])
    requires Readable(p, a, m.locals) && Readable(p, b, m.locals) && Readable(p, o, m.locals)
    requires SlotAtPut(m.heap, Read(p, a, m.locals), Read(p, b, m.locals), Read(p, o, m.locals)).Some?
    ensures Step(p, m) == Running(m.(pc := m.pc + 1, heap :=
              SlotAtPut(m.heap, Read(p, a, m.locals), Read(p, b, m.locals), Read(p, o, m.locals)).value))
  {
    hide SlotAtPut;
    assert Sources(SLOT_AT_PUT, [a, b, o]) == [a, b, o];
    assert ReadAll(p, [a, b, o], m.locals) == [Read(p, a, m.locals), Read(p, b, m.locals), Read(p, o, m.locals)];
  }

  lemma SlotLoadMatched(p: Program, steady: seq<set<nat>>, m: Machine, m2: Machine, hidden: set<Address>)
    returns (next2: Machine)
    requires WellBehaved(p.runtime) && Promotable(p.items) && Related(p, m, m2, hidden)
    requires Steady(p.items, steady) && Current(p, steady, m)
    requires m.pc < |p.items| && p.items[m.pc].Instruction? && p.items[m.pc].opcode.LOAD?
             && |p.items[m.pc].operands| == 2
    requires !IsLocalOnlyAlloca(p.items, p.items[m.pc].operands[1])
             && IsLocalOnlyReference(p.items, p.items[m.pc].operands[1])
    requires Step(p, m).Running?
    ensures Matched(p, Step(p, m).machine, m, m2, hidden, [], next2, hidden) && Step(p, m).machine.tape == m.tape
  {
    hide OnlyPointer, Plain, MemoryRelated, ConstantsPlain, LocalsRelated, SlotAt, ReferencesBefore, Behind;
    hide MakesNoPointers, RepliesClosed, RepliesConfined, SettledReference, Step, Steady, Current;
    var os := p.items[m.pc].operands;
    SameLength(p, m.heap, hidden, m.locals, m2.locals);
    PointerIsLocal(p.items, os[1]);
    OperandsOrdinary(p.items, m.pc);
    LoadTaken(p, m);
    var t := os[1].index;
    LocalsAt(p, m.heap, hidden, m.locals, m2.locals, t);
    assert UsesAt(p.items[m.pc], 1, os[1]);
    assert !m.locals[t].Null?;
    var d := ReferenceFound(p, steady, m, t);
    var a, b := p.items[d].operands[1], p.items[d].operands[2];
    ReadRelated(p, m, m2, hidden, a);
    ReadRelated(p, m, m2, hidden, b);
    MemoryParts(m.heap, hidden, m2.heap);
    RelatedMemory(m.heap, hidden, m2.heap);
    SlotAtHides(p.runtime, m.heap, hidden, m.locals[t].base, m.locals[t].slot);
    var v := SlotAt(p.runtime, m.heap, m.locals[t].base, m.locals[t].slot).value;
    WriteOrdinary(p, m.heap, hidden, m.locals, m2.locals, os[0], v);
    SlotStep(Rewritten(p), m2.(tape := []), os[0], a, b);
    next2 := Machine(m.pc + 1, Write(m2.locals, os[0], v), m2.heap, []);
  }

  lemma SlotStoreMatched(p: Program, steady: seq<set<nat>>, m: Machine, m2: Machine, hidden: set<Address>)
    returns (next2: Machine)
    requires WellBehaved(p.runtime) && Promotable(p.items) && Related(p, m, m2, hidden)
    requires Steady(p.items, steady) && Current(p, steady, m)
    requires m.pc < |p.items| && p.items[m.pc].Instruction? && p.items[m.pc].opcode.STORE?
             && |p.items[m.pc].operands| == 2
    requires !IsLocalOnlyAlloca(p.items, p.items[m.pc].operands[0])
             && IsLocalOnlyReference(p.items, p.items[m.pc].operands[0])
    requires Step(p, m).Running?
    ensures Matched(p, Step(p, m).machine, m, m2, hidden, [], next2, hidden) && Step(p, m).machine.tape == m.tape
  {
    hide OnlyPointer, Plain, MemoryRelated, ConstantsPlain, LocalsRelated, SlotAtPut, ReferencesBefore, Behind;
    hide MakesNoPointers, RepliesClosed, RepliesConfined, SettledReference, Step, Steady, Current;
    var os := p.items[m.pc].operands;
    SameLength(p, m.heap, hidden, m.locals, m2.locals);
    PointerIsLocal(p.items, os[0]);
    OperandsOrdinary(p.items, m.pc);
    StoreTaken(p, m);
    var t, v := os[0].index, Read(p, os[1], m.locals);
    ReadRelated(p, m, m2, hidden, os[1]);
    LocalsAt(p, m.heap, hidden, m.locals, m2.locals, t);
    assert UsesAt(p.items[m.pc], 0, os[0]);
    assert !m.locals[t].Null?;
    var d := ReferenceFound(p, steady, m, t);
    var a, b := p.items[d].operands[1], p.items[d].operands[2];
    ReadRelated(p, m, m2, hidden, a);
    ReadRelated(p, m, m2, hidden, b);
    MemoryParts(m.heap, hidden, m2.heap);
    RelatedMemory(m.heap, hidden, m2.heap);
    SlotAtPutHides(m.heap, hidden, m.locals[t].base, m.locals[t].slot, v);
    var after := SlotAtPut(m.heap, m.locals[t].base, m.locals[t].slot, v).value;
    var after2 := SlotAtPut(m2.heap, m.locals[t].base, m.locals[t].slot, v).value;
    assert m.heap.Keys <= after.Keys;
    LocalsGrow(p, m.heap, after, hidden, m.locals, m2.locals);
    ConstantsGrow(p, m.heap, after, hidden);
    SlotPutStep(Rewritten(p), m2.(tape := []), a, b, os[1]);
    next2 := Machine(m.pc + 1, m2.locals, after2, []);
  }

  // Any step.

  /** Items that the pass rewrites or removes. */
  ghost predicate Changes(items: seq<Item>, i: nat)
    requires i < |items|
  {
    && items[i].Instruction?
    && var op, os := items[i].opcode, items[i].operands;
       || Vanishes(items, i)
       || (op.ALLOCA_WITH_VALUE? && |os| == 3 && IsLocalOnlyAlloca(items, os[0]))
       || (op.LOAD? && |os| == 2 && !Ordinary(items, os[1]))
       || (op.STORE? && |os| == 2 && !Ordinary(items, os[0]))
  }

  /** What an instruction leaves of the tape, and the arity that loads and stores need. */
  lemma StepTaken(p: Program, m: Machine)
    requires m.pc < |p.items| && p.items[m.pc].Instruction? && !Step(p, m).Failed?
    ensures var op, os := p.items[m.pc].opcode, p.items[m.pc].operands;
            && (op.LOAD? || op.STORE? ==> |os| == 2)
            && (!IsQuiet(op) ==> |m.tape| > 0 && (m.tape[0].Replied? || m.tape[0].Placed?))
            && (Step(p, m).Running? ==> Step(p, m).machine.tape == if IsQuiet(op) then m.tape else m.tape[1..])
  {
    hide LoadThrough, StoreThrough, SlotAt, SlotAtPut;
  }

  lemma SourcesOrdinary(items: seq<Item>, i: nat, j: nat)
    requires i < |items| && items[i].Instruction? && Promotable(items) && !Changes(items, i)
    requires !items[i].opcode.COUNT_EXTENSION?
    requires DestinationCount(items[i].opcode)
             + OffsetCount(items[i].opcode, |items[i].operands|) <= |items[i].operands|
    requires items[i].opcode.LOAD? || items[i].opcode.STORE? ==> |items[i].operands| == 2
    requires j < |Sources(items[i].opcode, items[i].operands)|
    ensures Ordinary(items, Sources(items[i].opcode, items[i].operands)[j])
  {
    hide OnlyPointer, SettledReference, Vanishes;
    var op, os := items[i].opcode, items[i].operands;
    var o := Sources(op, os)[j];
    var at := DestinationCount(op) + j;
    assert UsesAt(items[i], at, o);
    if !IsPointerUse(op, at) {
      UsedMeansOrdinary(items, i, at, o, ALLOCA_WITH_VALUE);
      UsedMeansOrdinary(items, i, at, o, SLOT_REFERENCE_AT);
    }
  }

  lemma UntouchedHere(p: Program, m: Machine)
    requires m.pc < |p.items| && p.items[m.pc].Instruction? && !Step(p, m).Failed?
    requires Promotable(p.items) && !Changes(p.items, m.pc)
    ensures Untouched(p, m.pc)
  {
    hide ReferencesBefore, Sources;
    StepTaken(p, m);
    var op, os := p.items[m.pc].opcode, p.items[m.pc].operands;
    if !op.COUNT_EXTENSION? && DestinationCount(op) + OffsetCount(op, |os|) <= |os| {
      forall j | 0 <= j < |Sources(op, os)| ensures Ordinary(p.items, Sources(op, os)[j]) {
        SourcesOrdinary(p.items, m.pc, j);
      }
      if DestinationCount(op) == 1 {
        assert Ordinary(p.items, p.items[m.pc].operands[0]) by {
          var op, os := p.items[m.pc].opcode, p.items[m.pc].operands;
          assert DefinesLocals(p.items[m.pc]);
          assert Defines(p.items[m.pc], os[0]);
          if !op.ALLOCA_WITH_VALUE? { DefinedMeansOrdinary(p.items, m.pc, os[0], ALLOCA_WITH_VALUE); }
          if !op.SLOT_REFERENCE_AT? { DefinedMeansOrdinary(p.items, m.pc, os[0], SLOT_REFERENCE_AT); }
        }
      }
    }
  }

  /** An answer as the optimised run receives it: the same, or without the hidden boxes in its memory. */
  ghost predicate SameAnswer(a: Answer, b: Answer) {
    a == b || (a.Replied? && b.Replied? && a.value == b.value && exists hidden :: b.heap == a.heap - hidden)
  }

  /** The environment answers alike, except that the promoted boxes are no longer allocated. */
  ghost predicate Edited(tape: Tape, tape2: Tape)
    decreases |tape|
  {
    || tape == tape2
    || (|tape| > 0 && tape[0].Placed? && Edited(tape[1..], tape2))
    || (|tape| > 0 && |tape2| > 0 && SameAnswer(tape[0], tape2[0]) && Edited(tape[1..], tape2[1..]))
  }

  /** The part of the tape that one step takes, on both sides. */
  ghost predicate TakenAlike(tape: Tape, left: Tape, taken: Tape) {
    || (taken == [] && left == tape)
    || (taken == [] && |tape| > 0 && tape[0].Placed? && left == tape[1..])
    || (|taken| == 1 && |tape| > 0 && SameAnswer(tape[0], taken[0]) && left == tape[1..])
  }

  /** Every step of the original list is matched by a step of the rewritten one. */
  lemma StepMatched(p: Program, steady: seq<set<nat>>, m: Machine, m2: Machine, hidden: set<Address>)
    returns (next2: Machine, after: set<Address>, taken: Tape)
    requires WellBehaved(p.runtime) && Promotable(p.items) && Related(p, m, m2, hidden) && StoresExactly(p, m)
    requires Steady(p.items, steady) && Current(p, steady, m)
    requires Step(p, m).Running?
    ensures Matched(p, Step(p, m).machine, m, m2, hidden, taken, next2, after)
    ensures TakenAlike(m.tape, Step(p, m).machine.tape, taken)
  {
    hide WellBehaved, Promotable, Related, StoresExactly, Matched, OnlyPointer, StepInstruction;
    hide ReferencesBefore, Lowered, Steady, Current;
    after, taken := hidden, [];
    if p.items[m.pc].Label? {
      next2 := LabelMatched(p, m, m2, hidden);
      assert TakenAlike(m.tape, m.tape, []);
    } else {
      StepTaken(p, m);
      var op, os := p.items[m.pc].opcode, p.items[m.pc].operands;
      if !Changes(p.items, m.pc) {
        UntouchedHere(p, m);
        taken := Taken(op, m.tape, hidden);
        next2 := UntouchedMatched(p, m, m2, hidden);
        assert TakenAlike(m.tape, if IsQuiet(op) then m.tape else m.tape[1..], Taken(op, m.tape, hidden));
      } else {
        assert TakenAlike(m.tape, m.tape, []);
        if Vanishes(p.items, m.pc) {
          next2 := ReferenceMatched(p, m, m2, hidden);
        } else if op.ALLOCA_WITH_VALUE? {
          next2, after := AllocaMatched(p, m, m2, hidden);
          assert |m.tape| > 0 && m.tape[0].Placed? ==> TakenAlike(m.tape, m.tape[1..], []);
        } else if op.LOAD? {
          if IsLocalOnlyAlloca(p.items, os[1]) {
            next2 := LoadMatched(p, m, m2, hidden);
          } else {
            next2 := SlotLoadMatched(p, steady, m, m2, hidden);
          }
        } else if IsLocalOnlyAlloca(p.items, os[0]) {
          next2 := StoreMatched(p, m, m2, hidden);
        } else {
          next2 := SlotStoreMatched(p, steady, m, m2, hidden);
        }
      }
    }
  }

  lemma LabelMatched(p: Program, m: Machine, m2: Machine, hidden: set<Address>) returns (next2: Machine)
    requires Related(p, m, m2, hidden) && m.pc < |p.items| && p.items[m.pc].Label?
    ensures Step(p, m) == Running(m.(pc := m.pc + 1))
    ensures Matched(p, m.(pc := m.pc + 1), m, m2, hidden, [], next2, hidden)
  {
    hide OnlyPointer, ReferencesBefore, ConstantsPlain, LocalsRelated, MemoryRelated;
    next2 := m2.(pc := m.pc + 1, tape := []);
  }

  /** In its first n steps the machine stores exactly. */
  ghost predicate ExactRun(p: Program, m: Machine, n: nat) {
    forall k: nat :: k < n && Iterate(p, m, k).Running? ==> StoresExactly(p, Iterate(p, m, k).machine)
  }

  lemma ExactAfter(p: Program, m: Machine, n: nat)
    requires n > 0 && ExactRun(p, m, n) && Step(p, m).Running?
    ensures StoresExactly(p, m) && ExactRun(p, Step(p, m).machine, n - 1)
  {
    hide StoresExactly, Step;
    assert Iterate(p, m, 0) == Running(m);
    forall k: nat | k < n - 1 ensures Iterate(p, Step(p, m).machine, k) == Iterate(p, m, k + 1) {}
    forall k: nat | k < n - 1 && Iterate(p, Step(p, m).machine, k).Running?
      ensures StoresExactly(p, Iterate(p, Step(p, m).machine, k).machine)
    {
      assert StoresExactly(p, Iterate(p, m, k + 1).machine);
    }
  }

  lemma {:induction false} IterateTape(p: Program, m: Machine, rest: Tape, n: nat)
    requires !Iterate(p, m, n).Failed?
    ensures Iterate(p, m.(tape := m.tape + rest), n) == WithRest(Iterate(p, m, n), rest)
    decreases n
  {
    hide Step;
    if n > 0 {
      StepTape(p, m, rest);
      if Step(p, m).Running? { IterateTape(p, Step(p, m).machine, rest, n - 1); }
    }
  }

  /** The part of the tape that a stretch of steps takes: with any edition of the rest behind it, it edits the whole. */
  ghost predicate TakesAlike(tape: Tape, left: Tape, taken: Tape) {
    && |left| <= |tape| && (|left| == |tape| ==> taken == [])
    && (forall rest: Tape :: Edited(left, rest) ==> Edited(tape, taken + rest))
  }

  /** Where the rewritten list is after n steps when the original is at `next`. */
  ghost predicate Reaches(p: Program, steady: seq<set<nat>>, m: Machine, m2: Machine, hidden: set<Address>, n: nat,
                          next: Machine, next2: Machine, after: set<Address>, taken: Tape) {
    && Iterate(Rewritten(p), m2.(tape := taken), n) == Running(next2) && next2.tape == []
    && Related(p, next, next2, after) && Current(p, steady, next)
    && hidden <= after && (after - hidden) !! m.heap.Keys && m.heap.Keys <= next.heap.Keys
    && TakesAlike(m.tape, next.tape, taken)
  }

  /**
   The rewritten list simulates the original on every run without failure: the environment places fewer boxes,
   and the machines stay related throughout.
   */
  lemma {:induction false} RunFollows(p: Program, steady: seq<set<nat>>, m: Machine, m2: Machine, hidden: set<Address>,
                                      n: nat)
    returns (next2: Machine, after: set<Address>, taken: Tape)
    requires WellBehaved(p.runtime) && Promotable(p.items) && Related(p, m, m2, hidden)
    requires Steady(p.items, steady) && Current(p, steady, m)
    requires ExactRun(p, m, n) && Iterate(p, m, n).Running?
    ensures Reaches(p, steady, m, m2, hidden, n, Iterate(p, m, n).machine, next2, after, taken)
    decreases n
  {
    hide WellBehaved, Promotable, Rewritten, ExactRun;
    hide Step, StoresExactly, Steady, Current;
    next2, after, taken := m2.(tape := []), hidden, [];
    if n == 0 {
      assert Related(p, m, m2.(tape := []), hidden);
      assert TakesAlike(m.tape, m.tape, []) by {
        forall rest: Tape ensures [] + rest == rest {}
      }
    } else {
      ExactAfter(p, m, n);
      var next := Step(p, m).machine;
      var middle2, after1, taken1 := StepMatched(p, steady, m, m2, hidden);
      assert Step(Rewritten(p), m2.(tape := taken1)) == Running(middle2) && middle2.tape == []
             && Related(p, next, middle2, after1)
             && hidden <= after1 && (after1 - hidden) !! m.heap.Keys && m.heap.Keys <= next.heap.Keys by {
        hide Step, Rewritten;
      }
      var l := StepGoes(p, m);
      CurrentStep(p, steady, m);
      var taken2;
      next2, after, taken2 := RunFollows(p, steady, next, middle2, after1, n - 1);
      StepTape(Rewritten(p), m2.(tape := taken1), taken2);
      assert middle2.tape + taken2 == taken2;
      assert TakesAlike(m.tape, Iterate(p, m, n).machine.tape, taken1 + taken2) by {
        forall rest: Tape | Edited(Iterate(p, m, n).machine.tape, rest) ensures Edited(m.tape, taken1 + taken2 + rest) {
          assert Edited(m.tape, taken1 + (taken2 + rest)) by {
            if |taken1| == 1 { assert (taken1 + (taken2 + rest))[1..] == (taken2 + rest); } else {
              assert taken1 + (taken2 + rest) == (taken2 + rest);
            }
          }
          assert taken1 + taken2 + rest == taken1 + (taken2 + rest);
        }
      }
      taken := taken1 + taken2;
    }
  }

  /** The last state of a run that returns. */
  lemma {:induction false} RunningBefore(p: Program, m: Machine, n: nat) returns (k: nat)
    requires Iterate(p, m, n).Returned?
    ensures k < n && Iterate(p, m, k).Running? && Step(p, Iterate(p, m, k).machine) == Iterate(p, m, n)
    decreases n
  {
    hide Step;
    if Step(p, m).Running? {
      k := RunningBefore(p, Step(p, m).machine, n - 1);
      k := k + 1;
    } else {
      k := 0;
    }
  }

  lemma ExactPart(p: Program, m: Machine, n: nat, k: nat, l: nat)
    requires ExactRun(p, m, n) && k + l <= n && Iterate(p, m, k).Running?
    ensures ExactRun(p, m, k) && ExactRun(p, Iterate(p, m, k).machine, l)
  {
    hide StoresExactly;
    forall j: nat | j < l && Iterate(p, Iterate(p, m, k).machine, j).Running?
      ensures StoresExactly(p, Iterate(p, Iterate(p, m, k).machine, j).machine)
    {
      IterateSum(p, m, k, j);
      assert StoresExactly(p, Iterate(p, m, k + j).machine);
    }
  }

  /** A run that returns is matched by one that returns the same. */
  lemma ReturnFollows(p: Program, steady: seq<set<nat>>, m: Machine, m2: Machine, hidden: set<Address>, n: nat)
    returns (tape2: Tape, after: set<Address>)
    requires WellBehaved(p.runtime) && Promotable(p.items) && Related(p, m, m2, hidden)
    requires Steady(p.items, steady) && Current(p, steady, m)
    requires ExactRun(p, m, n) && Iterate(p, m, n).Returned?
    ensures var r := Iterate(p, m, n);
            && Leads(Rewritten(p), m2.(tape := tape2), Returned(r.value, r.heap - after, r.tape))
            && Plain(r.heap, after, r.value)
    ensures Edited(m.tape, tape2) && hidden <= after && (after - hidden) !! m.heap.Keys
  {
    hide WellBehaved, Promotable, Related, Rewritten, ExactRun, Step, Steady, Current, Plain;
    var k := RunningBefore(p, m, n);
    ExactPart(p, m, n, k, 1);
    var next := Iterate(p, m, k).machine;
    var next2, after1, taken := RunFollows(p, steady, m, m2, hidden, k);
    after := after1;
    ReturnAlike(p, next, next2, after);
    assert Edited(next.tape, next.tape);
    tape2 := taken + next.tape;
    IterateTape(Rewritten(p), m2.(tape := taken), next.tape, k);
    assert next2.tape + next.tape == next.tape;
    var start, end := m2.(tape := tape2), next2.(tape := next.tape);
    assert Leads(Rewritten(p), start, Running(end));
    LeadsByStep(Rewritten(p), end);
    LeadsThrough(Rewritten(p), start, end, Step(Rewritten(p), end));
  }

  /** A run that never ends is matched by one that never ends, with one tape for all its steps. */
  lemma {:induction false} EndlessFollows(p: Program, steady: seq<set<nat>>, m: Machine, m2: Machine,
                                          hidden: set<Address>)
    returns (tape2: Tape)
    requires WellBehaved(p.runtime) && Promotable(p.items) && Related(p, m, m2, hidden)
    requires Steady(p.items, steady) && Current(p, steady, m)
    requires forall n: nat :: ExactRun(p, m, n) && Survives(p, m, n)
    ensures Edited(m.tape, tape2) && forall n: nat :: Survives(Rewritten(p), m2.(tape := tape2), n)
    decreases |m.tape|
  {
    hide WellBehaved, Promotable, Related, Rewritten, ExactRun, Steady, Current, Iterate;
    if n: nat :| Survives(p, m, n) && |Iterate(p, m, n).machine.tape| < |m.tape| {
      var next := Iterate(p, m, n).machine;
      var next2, after, taken := RunFollows(p, steady, m, m2, hidden, n);
      forall k: nat ensures ExactRun(p, next, k) && Survives(p, next, k) {
        assert ExactRun(p, m, n + k) && Survives(p, m, n + k);
        ExactPart(p, m, n + k, n, k);
        IterateSum(p, m, n, k);
      }
      var rest := EndlessFollows(p, steady, next, next2, after);
      tape2 := taken + rest;
      IterateTape(Rewritten(p), m2.(tape := taken), rest, n);
      assert next2.tape + rest == rest;
      forall k: nat ensures Survives(Rewritten(p), m2.(tape := tape2), k) {
        SurvivesThrough(Rewritten(p), m2.(tape := tape2), next2.(tape := rest), k);
      }
    } else {
      tape2 := m.tape;
      assert Edited(m.tape, m.tape);
      forall n: nat ensures Survives(Rewritten(p), m2.(tape := tape2), n) {
        assert Survives(p, m, n);
        var next2, after, taken := RunFollows(p, steady, m, m2, hidden, n);
        assert taken == [] && [] + m.tape == m.tape;
        IterateTape(Rewritten(p), m2.(tape := []), m.tape, n);
      }
    }
  }

  lemma ReturnAlike(p: Program, m: Machine, m2: Machine, hidden: set<Address>)
    requires Promotable(p.items) && Related(p, m, m2, hidden) && Step(p, m).Returned?
    ensures var r := Step(p, m);
            && Step(Rewritten(p), m2.(tape := m.tape)) == Returned(r.value, r.heap - hidden, r.tape)
            && Plain(r.heap, hidden, r.value)
  {
    hide Promotable, OnlyPointer, ReferencesBefore;
    assert m.pc < |p.items| && p.items[m.pc].Instruction? && p.items[m.pc].opcode.RETURN?
           && !Changes(p.items, m.pc) by {
      hide OnlyPointer;
    }
    UntouchedHere(p, m);
    assert (var r := Step(p, m);
            && Step(Rewritten(p), m2.(tape := m.tape)) == Returned(r.value, r.heap - hidden, m.tape)
            && r.heap == m.heap && r.tape == m.tape && Plain(r.heap, hidden, r.value)) by {
      var op, os := p.items[m.pc].opcode, p.items[m.pc].operands;
      SameLength(p, m.heap, hidden, m.locals, m2.locals);
      RelatedMemory(m.heap, hidden, m2.heap);
      SourcesRelated(p, m, m2, hidden, Sources(op, os));
    }
  }
}
