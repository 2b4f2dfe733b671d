/** One step of the original list against one step of the rewritten one. */
module PromotionSteps {
  import opened Values
  import opened Instructions
  import opened ListMachine
  import opened Temporaries
  import opened Promotion

  /** The program with every instruction rewritten in place. */
  function Rewritten(p: Program): Program {
    p.(items := Lowered(p.items))
  }

  ghost predicate Ordinary(items: seq<Item>, o: Operand) {
    !IsLocalOnlyAlloca(items, o) && !IsLocalOnlyReference(items, o)
  }

  // Reading and writing ordinary operands.

  lemma ReadRelated(p: Program, m: Machine, m2: Machine, hidden: set<Address>, o: Operand)
    requires Related(p, m, m2, hidden) && Ordinary(p.items, o) && Readable(p, o, m.locals)
    ensures Readable(Rewritten(p), o, m2.locals) && Read(Rewritten(p), o, m2.locals) == Read(p, o, m.locals)
    ensures Plain(m.heap, hidden, Read(p, o, m.locals))
  {
    hide OnlyPointer, Lowered, Plain, MemoryRelated;
    if o.vector.Locals? {
      assert LocalRelated(p, m.heap, hidden, o.index, m.locals[o.index], m2.locals[o.index]);
    }
  }

  lemma SourcesRelated(p: Program, m: Machine, m2: Machine, hidden: set<Address>, os: seq<Operand>)
    requires Related(p, m, m2, hidden) && AllReadable(p, os, m.locals)
    requires forall j :: 0 <= j < |os| ==> Ordinary(p.items, os[j])
    ensures AllReadable(Rewritten(p), os, m2.locals)
    ensures ReadAll(Rewritten(p), os, m2.locals) == ReadAll(p, os, m.locals)
    ensures AllPlain(m.heap, hidden, ReadAll(p, os, m.locals))
  {
    hide Related, Ordinary, Plain, Read, Readable, Rewritten;
    forall j | 0 <= j < |os|
      ensures Readable(Rewritten(p), os[j], m2.locals)
              && Read(Rewritten(p), os[j], m2.locals) == Read(p, os[j], m.locals)
      ensures Plain(m.heap, hidden, Read(p, os[j], m.locals))
    {
      ReadRelated(p, m, m2, hidden, os[j]);
    }
  }

  lemma WriteOrdinary(p: Program, heap: Heap, hidden: set<Address>, locals: seq<Value>, locals2: seq<Value>, o: Operand,
                      v: Value)
    requires LocalsRelated(p, heap, hidden, locals, locals2) && Writable(o, |locals|)
    requires Ordinary(p.items, o) && Plain(heap, hidden, v)
    ensures LocalsRelated(p, heap, hidden, Write(locals, o, v), Write(locals2, o, v))
  {
    hide OnlyPointer, Plain, BoxRelated;
    if o.In? {
      var after, after2 := Write(locals, o, v), Write(locals2, o, v);
      forall t | 0 <= t < |after| ensures LocalRelated(p, heap, hidden, t, after[t], after2[t]) {
        assert LocalRelated(p, heap, hidden, t, locals[t], locals2[t]);
      }
    }
  }

  // Extra answers stay unread.

  function WithRest(s: Status, rest: Tape): Status {
    match s
    case Running(m) => Running(m.(tape := m.tape + rest))
    case Returned(v, h, t) => Returned(v, h, t + rest)
    case Failed => Failed
  }

  lemma PrimitiveTape(rt: Runtime, op: Opcode, xs: seq<Value>, heap: Heap, tape: Tape, rest: Tape)
    requires Primitive(rt, op, xs, heap, tape).Done?
    ensures Primitive(rt, op, xs, heap, tape + rest)
            == Primitive(rt, op, xs, heap, tape).(tape := Primitive(rt, op, xs, heap, tape).tape + rest)
  {
    hide LoadThrough, SlotAt, SlotAtPut, StoreThrough;
    if |tape| > 0 {
      assert (tape + rest)[0] == tape[0] && (tape + rest)[1..] == tape[1..] + rest;
    }
  }

  lemma StepTape(p: Program, m: Machine, rest: Tape)
    requires !Step(p, m).Failed?
    ensures Step(p, m.(tape := m.tape + rest)) == WithRest(Step(p, m), rest)
  {
    hide Primitive, Sources, ReadAll;
    if p.items[m.pc].Instruction? {
      var op, os := p.items[m.pc].opcode, p.items[m.pc].operands;
      if !op.COUNT_EXTENSION? {
        var xs := ReadAll(p, Sources(op, os), m.locals);
        if Primitive(p.runtime, op, xs, m.heap, m.tape).Done? {
          PrimitiveTape(p.runtime, op, xs, m.heap, m.tape, rest);
        }
      }
    }
  }

  // One step.

  /** The rewritten list takes the corresponding step, reading `taken` from its tape. */
  ghost predicate Matched(p: Program, next: Machine, m: Machine, m2: Machine, hidden: set<Address>, taken: Tape,
                          next2: Machine, after: set<Address>) {
    && Step(Rewritten(p), m2.(tape := taken)) == Running(next2) && next2.tape == []
    && Related(p, next, next2, after)
    && hidden <= after && (after - hidden) !! m.heap.Keys && m.heap.Keys <= next.heap.Keys
  }

  /** A value stored through a removed pointer is the one that the original stores. */
  ghost predicate StoresExactly(p: Program, m: Machine) {
    m.pc < |p.items| && p.items[m.pc].Instruction? && p.items[m.pc].opcode.STORE? && |p.items[m.pc].operands| == 2 ==>
      var os := p.items[m.pc].operands;
      !Ordinary(p.items, os[0]) ==> ExactAt(p.runtime, Read(p, os[0], m.locals), Read(p, os[1], m.locals))
  }

  ghost predicate ExactAt(rt: Runtime, pointer: Value, v: Value) {
    match pointer
    case Box(_, t) => rt.coerce(t, v).Some? ==> rt.coerce(t, v).value == v
    case _ => true
  }

  /** An instruction that the pass leaves alone, with ordinary operands. */
  ghost predicate Untouched(p: Program, i: nat) {
    && i < |p.items| && p.items[i].Instruction? && Lowered(p.items)[i] == p.items[i]
    && var op, os := p.items[i].opcode, p.items[i].operands;
       !op.COUNT_EXTENSION? && DestinationCount(op) + OffsetCount(op, |os|) <= |os| ==>
         && (forall j :: 0 <= j < |Sources(op, os)| ==> Ordinary(p.items, Sources(op, os)[j]))
         && (DestinationCount(op) == 1 ==> Ordinary(p.items, os[0]))
  }

  lemma UntouchedFalls(p: Program, m: Machine, m2: Machine, hidden: set<Address>, op: Opcode, os: seq<Operand>,
                       xs: seq<Value>)
    returns (next2: Machine)
    requires WellBehaved(p.runtime) && Related(p, m, m2, hidden)
    requires m.pc < |p.items| && Lowered(p.items)[m.pc] == Instruction(op, os) && WellShaped(op, os, |m.locals|)
    requires !op.COUNT_EXTENSION? && AllReadable(Rewritten(p), Sources(op, os), m2.locals)
    requires ReadAll(Rewritten(p), Sources(op, os), m2.locals) == xs && AllPlain(m.heap, hidden, xs)
    requires DestinationCount(op) == 1 ==> Ordinary(p.items, os[0])
    requires Execute(p.runtime, op, xs, m.heap, m.tape).Fall?
    ensures var r := Execute(p.runtime, op, xs, m.heap, m.tape);
            var next := Machine(m.pc + 1, if DestinationCount(op) == 1 then Write(m.locals, os[0], r.result)
                                else m.locals,
                                r.heap, r.tape);
            Matched(p, next, m, m2, hidden, Taken(op, m.tape, hidden), next2, hidden)
  {
    hide Primitive, Lowered, WellBehaved, AllPlain, Plain, MemoryRelated;
    hide LocalsRelated, Grows, Sources, Ordinary;
    var r := Execute(p.runtime, op, xs, m.heap, m.tape);
    RelatedMemory(m.heap, hidden, m2.heap);
    var taken := Taken(op, m.tape, hidden);
    assert hidden !! p.runtime.roots;
    ExecuteHides(p.runtime, op, xs, m.heap, m.tape, hidden);
    var r2 := Execute(p.runtime, op, xs, m2.heap, taken);
    LocalsGrow(p, m.heap, r.heap, hidden, m.locals, m2.locals);
    ConstantsGrow(p, m.heap, r.heap, hidden);
    SameLength(p, m.heap, hidden, m.locals, m2.locals);
    if DestinationCount(op) == 1 { WriteOrdinary(p, r.heap, hidden, m.locals, m2.locals, os[0], r.result); }
    next2 := Machine(m.pc + 1, if DestinationCount(op) == 1 then Write(m2.locals, os[0], r.result)
                     else m2.locals, r2.heap, []);
  }

  lemma SameLength(p: Program, heap: Heap, hidden: set<Address>, locals: seq<Value>, locals2: seq<Value>)
    requires LocalsRelated(p, heap, hidden, locals, locals2)
    ensures |locals| == |locals2|
  {
  }

  lemma RelatedMemory(heap: Heap, hidden: set<Address>, heap2: Heap)
    requires MemoryRelated(heap, hidden, heap2)
    ensures heap2 == heap - hidden && hidden <= heap.Keys
  {
  }

  /** The effect of an instruction that falls through, with and without hidden boxes. */
  lemma ExecuteHides(rt: Runtime, op: Opcode, xs: seq<Value>, heap: Heap, tape: Tape, hidden: set<Address>)
    requires WellBehaved(rt) && hidden !! rt.roots && MemoryRelated(heap, hidden, heap - hidden)
             && AllPlain(heap, hidden, xs)
    requires Execute(rt, op, xs, heap, tape).Fall?
    ensures var r := Execute(rt, op, xs, heap, tape);
            var r2 := Execute(rt, op, xs, heap - hidden, Taken(op, tape, hidden));
            && r2.Fall? && r2.result == r.result && r2.tape == []
            && Plain(r.heap, hidden, r.result) && MemoryRelated(r.heap, hidden, r2.heap)
            && Grows(heap, r.heap, hidden) && heap.Keys <= r.heap.Keys
  {
    hide Primitive, WellBehaved, MemoryRelated, AllPlain;
    assert Taken(op, tape, hidden) + [] == Taken(op, tape, hidden);
    if op.JUMP_IF_TRUE? || op.JUMP_IF_FALSE? {
      NullPlain(hidden);
    } else {
      PrimitiveHides(rt, op, xs, heap, tape, hidden, []);
    }
  }

  lemma TargetByPosition(p: Program, q: Program, op: Opcode, os: seq<Operand>, chosen: nat)
    requires OffsetCount(op, |os|) <= |os| && |p.items| == |q.items|
    requires var at := |os| - OffsetCount(op, |os|) + chosen;
             at < |os| && os[at].To? ==> Position(p.items, os[at].target) == Position(q.items, os[at].target)
    ensures Target(q, op, os, chosen) == Target(p, op, os, chosen)
  {
    hide Position, OffsetCount;
  }

  lemma UntouchedMatched(p: Program, m: Machine, m2: Machine, hidden: set<Address>) returns (next2: Machine)
    requires WellBehaved(p.runtime) && Related(p, m, m2, hidden)
    requires Untouched(p, m.pc) && Step(p, m).Running?
    ensures Matched(p, Step(p, m).machine, m, m2, hidden, Taken(p.items[m.pc].opcode, m.tape, hidden), next2, hidden)
  {
    hide Execute, Lowered, WellBehaved, AllPlain, Plain, MemoryRelated;
    hide ConstantsPlain, LocalsRelated, Sources, Ordinary, Target;
    var op, os := p.items[m.pc].opcode, p.items[m.pc].operands;
    SameLength(p, m.heap, hidden, m.locals, m2.locals);
    RelatedMemory(m.heap, hidden, m2.heap);
    if op.COUNT_EXTENSION? {
      next2 := m2.(pc := m.pc + 1, tape := []);
    } else {
      var xs := ReadAll(p, Sources(op, os), m.locals);
      SourcesRelated(p, m, m2, hidden, Sources(op, os));
      var r := Execute(p.runtime, op, xs, m.heap, m.tape);
      if r.Fall? {
        next2 := UntouchedFalls(p, m, m2, hidden, op, os, xs);
      } else {
        assert Target(Rewritten(p), op, os, r.target) == Target(p, op, os, r.target) by {
          hide Lowered, Position, OffsetCount, Target;
          var at := |os| - OffsetCount(op, |os|) + r.target;
          if at < |os| && os[at].To? { LoweredLabels(p.items, os[at].target); }
          TargetByPosition(p, Rewritten(p), op, os, r.target);
        }
        next2 := Machine(Target(p, op, os, r.target).value, m2.locals, m2.heap, []);
        JumpsQuietly(p.runtime, op, xs, m.heap, m.tape, m2.heap, Taken(op, m.tape, hidden));
      }
    }
  }

  lemma JumpsQuietly(rt: Runtime, op: Opcode, xs: seq<Value>, heap: Heap, tape: Tape, heap2: Heap, tape2: Tape)
    requires Execute(rt, op, xs, heap, tape).Goto?
    ensures Execute(rt, op, xs, heap2, tape2) == Execute(rt, op, xs, heap, tape) && IsQuiet(op)
  {
    hide Primitive;
  }

  // Promoted boxes.

  /** A promoted or vanishing operand is a local. */
  lemma PointerIsLocal(items: seq<Item>, o: Operand)
    requires Promotable(items) && !Ordinary(items, o)
    ensures o.In? && o.vector.Locals?
  {
    hide Vanishes, SettledReference;
    var op := if IsLocalOnlyAlloca(items, o) then ALLOCA_WITH_VALUE else SLOT_REFERENCE_AT;
    var i :| 0 <= i < |items| && DefinesBy(items[i], o, op);
    assert DefinesLocals(items[i]);
  }

  /** The destination and the value of a definition by another instruction are ordinary. */
  lemma OperandsOrdinary(items: seq<Item>, i: nat)
    requires i < |items| && items[i].Instruction?
    requires |items[i].operands| >= 2 && !items[i].opcode.COUNT_EXTENSION? && !IsJump(items[i].opcode)
    ensures items[i].opcode.LOAD? ==> Ordinary(items, items[i].operands[0])
    ensures items[i].opcode.STORE? ==> Ordinary(items, items[i].operands[1])
    ensures items[i].opcode.ALLOCA_WITH_VALUE? && |items[i].operands| == 3 ==>
              Ordinary(items, items[i].operands[1]) && Ordinary(items, items[i].operands[2])
    ensures items[i].opcode.ALLOCA_WITH_VALUE? ==> !IsLocalOnlyReference(items, items[i].operands[0])
    ensures items[i].opcode.SLOT_REFERENCE_AT? ==> !IsLocalOnlyAlloca(items, items[i].operands[0])
  {
    hide OnlyPointer;
    var op, os := items[i].opcode, items[i].operands;
    if op.LOAD? {
      DefinedMeansOrdinary(items, i, os[0], ALLOCA_WITH_VALUE);
      DefinedMeansOrdinary(items, i, os[0], SLOT_REFERENCE_AT);
    } else if op.STORE? {
      UsedMeansOrdinary(items, i, 1, os[1], ALLOCA_WITH_VALUE);
      UsedMeansOrdinary(items, i, 1, os[1], SLOT_REFERENCE_AT);
    } else if op.ALLOCA_WITH_VALUE? {
      DefinedMeansOrdinary(items, i, os[0], SLOT_REFERENCE_AT);
      if |os| == 3 {
        UsedMeansOrdinary(items, i, 1, os[1], ALLOCA_WITH_VALUE);
        UsedMeansOrdinary(items, i, 1, os[1], SLOT_REFERENCE_AT);
        UsedMeansOrdinary(items, i, 2, os[2], ALLOCA_WITH_VALUE);
        UsedMeansOrdinary(items, i, 2, os[2], SLOT_REFERENCE_AT);
      }
    } else if op.SLOT_REFERENCE_AT? {
      DefinedMeansOrdinary(items, i, os[0], ALLOCA_WITH_VALUE);
    }
  }

  /** Allocating a box that becomes hidden. */
  lemma HideFresh(heap: Heap, hidden: set<Address>, a: Address, v: Value)
    requires Apart(hidden, heap) && HeapClosed(heap) && Plain(heap, hidden, v) && a !in heap
    ensures MemoryRelated(heap[a := [v]], hidden + {a}, heap - hidden) && Grows(heap, heap[a := [v]], hidden)
  {
    var after := heap[a := [v]];
    forall b | b in after ensures AllAvoid(hidden + {a}, after[b]) && AllClosed(after, after[b]) {
      if b != a {
        assert AllAvoid(hidden, heap[b]) && AllClosed(heap, heap[b]);
      }
    }
    assert after - (hidden + {a}) == heap - hidden;
  }

  lemma ConstantsFresh(p: Program, heap: Heap, after: Heap, hidden: set<Address>, a: Address)
    requires ConstantsPlain(p, heap, hidden) && a !in heap && heap.Keys <= after.Keys
    ensures ConstantsPlain(p, after, hidden + {a})
  {
    forall v | Plain(heap, hidden, v) ensures Plain(after, hidden + {a}, v) {
      assert Plain(after, hidden + {a}, v);
    }
  }

  /** The temporary of a fresh hidden box, and all others. */
  lemma LocalsFresh(p: Program, heap: Heap, hidden: set<Address>, locals: seq<Value>, locals2: seq<Value>,
                    t: nat, a: Address, pointerType: Value, v: Value)
    requires LocalsRelated(p, heap, hidden, locals, locals2) && hidden <= heap.Keys && a !in heap
    requires t < |locals| && IsLocalOnlyAlloca(p.items, In(Locals, t))
    ensures LocalsRelated(p, heap[a := [v]], hidden + {a}, locals[t := Box(a, pointerType)], locals2[t := v])
  {
    hide OnlyPointer;
    var after := heap[a := [v]];
    var locals3, locals4 := locals[t := Box(a, pointerType)], locals2[t := v];
    forall u | 0 <= u < |locals3|
      ensures LocalRelated(p, after, hidden + {a}, u, locals3[u], locals4[u])
      ensures u != t && locals3[u].Box? && IsLocalOnlyAlloca(p.items, In(Locals, u)) ==> locals3[u].address != a
    {
      if u != t {
        assert LocalRelated(p, heap, hidden, u, locals[u], locals2[u]);
        if Ordinary(p.items, In(Locals, u)) {
          assert Plain(after, hidden + {a}, locals[u]);
        }
      }
    }
  }

  lemma AllocaMatched(p: Program, m: Machine, m2: Machine, hidden: set<Address>)
    returns (next2: Machine, after: set<Address>)
    requires Promotable(p.items) && Related(p, m, m2, hidden)
    requires m.pc < |p.items| && p.items[m.pc].Instruction? && p.items[m.pc].opcode.ALLOCA_WITH_VALUE?
    requires |p.items[m.pc].operands| == 3 && IsLocalOnlyAlloca(p.items, p.items[m.pc].operands[0])
    requires Step(p, m).Running?
    ensures Matched(p, Step(p, m).machine, m, m2, hidden, [], next2, after)
    ensures |m.tape| > 0 && m.tape[0].Placed? && Step(p, m).machine.tape == m.tape[1..]
  {
    hide OnlyPointer, Plain, MemoryRelated, ConstantsPlain, LocalsRelated;
    var os := p.items[m.pc].operands;
    SameLength(p, m.heap, hidden, m.locals, m2.locals);
    PointerIsLocal(p.items, os[0]);
    OperandsOrdinary(p.items, m.pc);
    assert Sources(ALLOCA_WITH_VALUE, os) == [os[1], os[2]];
    assert Readable(p, os[2], m.locals);
    ReadRelated(p, m, m2, hidden, os[2]);
    RelatedMemory(m.heap, hidden, m2.heap);
    var a, v, t := m.tape[0].address, Read(p, os[2], m.locals), os[0].index;
    MemoryParts(m.heap, hidden, m2.heap);
    HideFresh(m.heap, hidden, a, v);
    ConstantsFresh(p, m.heap, m.heap[a := [v]], hidden, a);
    LocalsFresh(p, m.heap, hidden, m.locals, m2.locals, t, a, Read(p, os[1], m.locals), v);
    after := hidden + {a};
    next2 := Machine(m.pc + 1, m2.locals[t := v], m2.heap, []);
    MoveStep(Rewritten(p), m2.(tape := []), os[0], os[2]);
  }

  lemma MemoryParts(heap: Heap, hidden: set<Address>, heap2: Heap)
    requires MemoryRelated(heap, hidden, heap2)
    ensures Apart(hidden, heap) && HeapClosed(heap)
  {
  }

  lemma MoveStep(p: Program, m: Machine, d: Operand, o: Operand)
    requires m.pc < |p.items| && p.items[m.pc] == Instruction(MOVE, [d, o])
    requires Writable(d, |m.locals|) && Readable(p, o, m.locals)
    ensures Step(p, m) == Running(m.(pc := m.pc + 1, locals := Write(m.locals, d, Read(p, o, m.locals))))
  {
    assert Sources(MOVE, [d, o]) == [o];
    assert ReadAll(p, [o], m.locals) == [Read(p, o, m.locals)];
  }

  /** A load that succeeds. */
  lemma LoadTaken(p: Program, m: Machine)
    requires m.pc < |p.items| && p.items[m.pc].Instruction? && p.items[m.pc].opcode.LOAD?
             && |p.items[m.pc].operands| == 2
    requires Step(p, m).Running?
    ensures var os := p.items[m.pc].operands;
            && Writable(os[0], |m.locals|) && Readable(p, os[1], m.locals)
            && var loaded := LoadThrough(p.runtime, m.heap, Read(p, os[1], m.locals));
               loaded.Some? && Step(p, m).machine == m.(pc := m.pc + 1, locals := Write(m.locals, os[0], loaded.value))
  {
    hide LoadThrough;
    var os := p.items[m.pc].operands;
    assert Sources(LOAD, os) == [os[1]];
    assert ReadAll(p, [os[1]], m.locals) == [Read(p, os[1], m.locals)];
    assert Readable(p, [os[1]][0], m.locals);
  }

  /** A store that succeeds. */
  lemma StoreTaken(p: Program, m: Machine)
    requires m.pc < |p.items| && p.items[m.pc].Instruction? && p.items[m.pc].opcode.STORE?
             && |p.items[m.pc].operands| == 2
    requires Step(p, m).Running?
    ensures var os := p.items[m.pc].operands;
            var written := StoreThrough(p.runtime, m.heap, Read(p, os[0], m.locals), Read(p, os[1], m.locals));
            && Readable(p, os[0], m.locals) && Readable(p, os[1], m.locals)
            && written.Some? && Step(p, m).machine == m.(pc := m.pc + 1, heap := written.value)
  {
    hide StoreThrough;
    var os := p.items[m.pc].operands;
    assert Sources(STORE, os) == os;
    assert ReadAll(p, os, m.locals) == [Read(p, os[0], m.locals), Read(p, os[1], m.locals)];
  }

  lemma LoadMatched(p: Program, m: Machine, m2: Machine, hidden: set<Address>) returns (next2: Machine)
    requires Promotable(p.items) && Related(p, m, m2, hidden)
    requires m.pc < |p.items| && p.items[m.pc].Instruction? && p.items[m.pc].opcode.LOAD?
    requires |p.items[m.pc].operands| == 2 && IsLocalOnlyAlloca(p.items, p.items[m.pc].operands[1])
    requires Step(p, m).Running?
    ensures Matched(p, Step(p, m).machine, m, m2, hidden, [], next2, hidden) && Step(p, m).machine.tape == m.tape
  {
    hide OnlyPointer, MemoryRelated, ConstantsPlain, LocalsRelated, Step;
    var os := p.items[m.pc].operands;
    SameLength(p, m.heap, hidden, m.locals, m2.locals);
    PointerIsLocal(p.items, os[1]);
    OperandsOrdinary(p.items, m.pc);
    LoadTaken(p, m);
    var t := os[1].index;
    LocalsAt(p, m.heap, hidden, m.locals, m2.locals, t);
    MemoryParts(m.heap, hidden, m2.heap);
    assert Plain(m.heap, hidden, m.heap[m.locals[t].address][0]) by {
      assert AllAvoid(hidden, m.heap[m.locals[t].address]) && AllClosed(m.heap, m.heap[m.locals[t].address]);
    }
    WriteOrdinary(p, m.heap, hidden, m.locals, m2.locals, os[0], m2.locals[t]);
    MoveStep(Rewritten(p), m2.(tape := []), os[0], os[1]);
    next2 := Machine(m.pc + 1, Write(m2.locals, os[0], m2.locals[t]), m2.heap, []);
  }

  lemma LocalsAt(p: Program, heap: Heap, hidden: set<Address>, locals: seq<Value>, locals2: seq<Value>, t: nat)
    requires LocalsRelated(p, heap, hidden, locals, locals2) && t < |locals|
    ensures |locals2| == |locals| && LocalRelated(p, heap, hidden, t, locals[t], locals2[t])
  {
  }

  /** Writing the content of a hidden box on one side and the temporary on the other. */
  lemma BoxWritten(p: Program, heap: Heap, hidden: set<Address>, locals: seq<Value>, locals2: seq<Value>, t: nat,
                   v: Value)
    requires LocalsRelated(p, heap, hidden, locals, locals2) && t < |locals| && hidden <= heap.Keys
    requires IsLocalOnlyAlloca(p.items, In(Locals, t)) && locals[t].Box?
    ensures LocalsRelated(p, heap[locals[t].address := [v]], hidden, locals, locals2[t := v])
  {
    hide OnlyPointer;
    var after := heap[locals[t].address := [v]];
    forall u | 0 <= u < |locals| ensures LocalRelated(p, after, hidden, u, locals[u], locals2[t := v][u]) {
      assert LocalRelated(p, heap, hidden, u, locals[u], locals2[u]);
      if Ordinary(p.items, In(Locals, u)) {
        assert Plain(after, hidden, locals[u]);
      }
    }
  }

  lemma StoreMatched(p: Program, m: Machine, m2: Machine, hidden: set<Address>) returns (next2: Machine)
    requires Promotable(p.items) && Related(p, m, m2, hidden) && StoresExactly(p, m)
    requires m.pc < |p.items| && p.items[m.pc].Instruction? && p.items[m.pc].opcode.STORE?
    requires |p.items[m.pc].operands| == 2 && IsLocalOnlyAlloca(p.items, p.items[m.pc].operands[0])
    requires Step(p, m).Running?
    ensures Matched(p, Step(p, m).machine, m, m2, hidden, [], next2, hidden) && Step(p, m).machine.tape == m.tape
  {
    hide OnlyPointer, ConstantsPlain, LocalsRelated, Step;
    var os := p.items[m.pc].operands;
    SameLength(p, m.heap, hidden, m.locals, m2.locals);
    PointerIsLocal(p.items, os[0]);
    OperandsOrdinary(p.items, m.pc);
    StoreTaken(p, m);
    var t, v := os[0].index, Read(p, os[1], m.locals);
    ReadRelated(p, m, m2, hidden, os[1]);
    LocalsAt(p, m.heap, hidden, m.locals, m2.locals, t);
    MemoryParts(m.heap, hidden, m2.heap);
    RelatedMemory(m.heap, hidden, m2.heap);
    var a := m.locals[t].address;
    BoxWritten(p, m.heap, hidden, m.locals, m2.locals, t, v);
    assert MemoryRelated(m.heap[a := [v]], hidden, m.heap - hidden) by {
      var after := m.heap[a := [v]];
      forall b | b in after ensures AllAvoid(hidden, after[b]) && AllClosed(after, after[b]) {
        if b != a { assert AllAvoid(hidden, m.heap[b]) && AllClosed(m.heap, m.heap[b]); }
      }
      assert after - hidden == m.heap - hidden;
    }
    ConstantsGrow(p, m.heap, m.heap[a := [v]], hidden);
    MoveStep(Rewritten(p), m2.(tape := []), os[0], os[1]);
    next2 := Machine(m.pc + 1, m2.locals[t := v], m2.heap, []);
  }
}
