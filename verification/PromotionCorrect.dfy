/** The optimised list against the original one, and what goes wrong where a condition of the pass is missing. */
module PromotionCorrect {
  import opened Values
  import opened Instructions
  import opened ListMachine
  import opened Removal
  import opened Temporaries
  import opened Promotion
  import opened PromotionSteps
  import opened PromotionRuns

  /** The start of an activation: zeroed locals, and a memory without dangling pointers. */
  ghost predicate Fresh(p: Program, m: Machine) {
    && m.pc == 0 && (forall t :: 0 <= t < |m.locals| ==> m.locals[t] == Null)
    && HeapClosed(m.heap) && p.runtime.roots <= m.heap.Keys
    && AllClosed(m.heap, p.arguments) && AllClosed(m.heap, p.captures) && AllClosed(m.heap, p.literals)
  }

  function Optimized(p: Program): Program {
    p.(items := OptimizeTemporaries(p.items))
  }

  /** Removing the instructions that vanished changes nothing. */
  lemma OptimizedAlike(p: Program, m: Machine)
    requires m.pc == 0
    ensures Alike(Rewritten(p), m, Optimized(p), m)
  {
    hide Lowered, KeepLowered, Step, Alike;
    assert DropsIdle(Rewritten(p), KeepLowered(p.items), |m.locals|) by {
      hide ReferencesBefore, OnlyPointer, Step;
      var q, keep := Rewritten(p), KeepLowered(p.items);
      forall i | 0 <= i < |keep| && !keep[i] ensures Idle(q, i, |m.locals|) {
        forall m': Machine | m'.pc == i && |m'.locals| == (|m.locals|) ensures Step(q, m')
          == Running(m'.(pc := i + 1)) {
          NopStep(q, m');
        }
      }
    }
    ThinAlike(Rewritten(p), KeepLowered(p.items), m);
    assert Moved(m, KeepLowered(p.items)) == m;
  }

  /** At the start no reference is set. */
  lemma FreshCurrent(p: Program, m: Machine) returns (steady: seq<set<nat>>)
    requires Promotable(p.items) && Fresh(p, m)
    ensures Steady(p.items, steady) && Current(p, steady, m)
  {
    hide OnlyPointer, SettledReference, Precedes, Dereferences, Disturbs;
    steady :| Steady(p.items, steady);
  }

  /**
   Optimising temporaries preserves meaning: when the original activation returns, so does the optimised one, with
   the same value and the same memory except for boxes that the original allocated itself and nobody else can see.
   */
  lemma OptimizeTemporariesFollows(p: Program, m: Machine, n: nat) returns (tape2: Tape, boxes: set<Address>)
    requires WellBehaved(p.runtime) && Promotable(p.items) && Fresh(p, m)
    requires ExactRun(p, m, n) && Iterate(p, m, n).Returned?
    ensures var r := Iterate(p, m, n);
            && Leads(Optimized(p), m.(tape := tape2), Returned(r.value, r.heap - boxes, r.tape))
            && Edited(m.tape, tape2)
            && boxes !! m.heap.Keys && Avoids(boxes, r.value)
  {
    hide WellBehaved, Promotable, ExactRun, Edited, Step, Lowered, KeepLowered, Iterate;
    assert Related(p, m, m, {}) by {
      assert m.heap - {} == m.heap;
      forall t | 0 <= t < |m.locals| ensures LocalRelated(p, m.heap, {}, t, m.locals[t], m.locals[t]) {}
    }
    var steady := FreshCurrent(p, m);
    tape2, boxes := ReturnFollows(p, steady, m, m, {}, n);
    OptimizedAlike(p, m.(tape := tape2));
  }

  /** When the original runs for ever, so does the optimised list. */
  lemma OptimizeTemporariesEndless(p: Program, m: Machine) returns (tape2: Tape)
    requires WellBehaved(p.runtime) && Promotable(p.items) && Fresh(p, m)
    requires forall n: nat :: ExactRun(p, m, n) && Survives(p, m, n)
    ensures Edited(m.tape, tape2) && forall n: nat :: Survives(Optimized(p), m.(tape := tape2), n)
  {
    hide WellBehaved, Promotable, ExactRun, Edited, Step, Lowered, KeepLowered, Survives;
    assert Related(p, m, m, {}) by {
      assert m.heap - {} == m.heap;
      forall t | 0 <= t < |m.locals| ensures LocalRelated(p, m.heap, {}, t, m.locals[t], m.locals[t]) {}
    }
    var steady := FreshCurrent(p, m);
    tape2 := EndlessFollows(p, steady, m, m, {});
    OptimizedAlike(p, m.(tape := tape2));
    AlikeForEver(Rewritten(p), m.(tape := tape2), Optimized(p), m.(tape := tape2));
  }

  /** Right after a promoted store, the two machines are related exactly when the stored value coerced to itself. */
  lemma StoreRelatedIff(p: Program, m: Machine, m2: Machine, hidden: set<Address>)
    requires Promotable(p.items) && Related(p, m, m2, hidden)
    requires m.pc < |p.items| && p.items[m.pc].Instruction? && p.items[m.pc].opcode.STORE?
    requires |p.items[m.pc].operands| == 2 && IsLocalOnlyAlloca(p.items, p.items[m.pc].operands[0])
    requires Step(p, m).Running?
    ensures var os := p.items[m.pc].operands;
            var pointer, v := Read(p, os[0], m.locals), Read(p, os[1], m.locals);
            && pointer.Box?
            && Step(Rewritten(p), m2).Running?
            && (Related(p, Step(p, m).machine, Step(Rewritten(p), m2).machine, hidden)
                <==> p.runtime.coerce(pointer.pointerType, v) == Some(v))
  {
    hide OnlyPointer, Plain, ConstantsPlain, LocalsRelated, MemoryRelated;
    var os := p.items[m.pc].operands;
    SameLength(p, m.heap, hidden, m.locals, m2.locals);
    PointerIsLocal(p.items, os[0]);
    OperandsOrdinary(p.items, m.pc);
    assert Sources(STORE, os) == os;
    assert Readable(p, os[0], m.locals) && Readable(p, os[1], m.locals);
    var t, v := os[0].index, Read(p, os[1], m.locals);
    ReadRelated(p, m, m2, hidden, os[1]);
    LocalsAt(p, m.heap, hidden, m.locals, m2.locals, t);
    MoveStep(Rewritten(p), m2, os[0], os[1]);
    var next, next2 := Step(p, m).machine, Step(Rewritten(p), m2).machine;
    var pointerType := m.locals[t].pointerType;
    if p.runtime.coerce(pointerType, v) == Some(v) {
      assert StoresExactly(p, m);
      var next3 := StoreMatched(p, m, m2, hidden);
      StepTape(Rewritten(p), m2.(tape := []), m2.tape);
      assert [] + m2.tape == m2.tape;
      RelatedAnyTape(p, next, next3, next2, hidden);
    }
    if Related(p, next, next2, hidden) {
      LocalsAt(p, next.heap, hidden, next.locals, next2.locals, t);
      assert next.heap[m.locals[t].address] == [p.runtime.coerce(pointerType, v).value];
    }
  }

  lemma RelatedAnyTape(p: Program, m: Machine, m2: Machine, m3: Machine, hidden: set<Address>)
    requires Related(p, m, m2, hidden) && m3 == m2.(tape := m3.tape)
    ensures Related(p, m, m3, hidden)
  {
    hide ConstantsPlain, LocalsRelated, MemoryRelated;
  }

  // A value that does not coerce to itself: the box held the coerced value, the temporary holds the value.

  function AssigningList(): seq<Item> {
    [ Instruction(ALLOCA_WITH_VALUE, [In(Locals, 0), In(Literals, 0), In(Arguments, 0)]),
      Instruction(STORE, [In(Locals, 0), In(Arguments, 0)]),
      Instruction(LOAD, [In(Locals, 1), In(Locals, 0)]),
      Instruction(RETURN, [In(Locals, 1)]) ]
  }

  /** Initialises a variable of pointer type t with the argument v, assigns v to it and reads it. */
  function AssigningProgram(rt: Runtime, t: Value, v: Value): Program {
    Program(AssigningList(), [v], [], [t], rt)
  }

  lemma AssigningUses()
    ensures IsLocalOnlyAlloca(AssigningList(), In(Locals, 0))
    ensures !IsLocalOnlyReference(AssigningList(), In(Locals, 0))
  {
    var items, o := AssigningList(), In(Locals, 0);
    assert DefinesBy(items[0], o, ALLOCA_WITH_VALUE);
    assert UsesAt(items[1], 0, o);
    assert Dereferences(items[1], o);
  }

  lemma AssigningPromotable()
    ensures Promotable(AssigningList())
  {
    hide OnlyPointer, SettledReference, Steady;
    ConstantReferencesSteady(AssigningList());
  }

  /** The original returns the coerced value, the optimised list the raw one. */
  lemma CoercionIsLost(rt: Runtime, t: Value, v: Value, heap: Heap, a: Address, tape: Tape)
    requires rt.coerce(t, v).Some? && a !in heap
    ensures var p, w := AssigningProgram(rt, t, v), rt.coerce(t, v).value;
            && Iterate(p, Machine(0, [Null, Null], heap, [Placed(a)] + tape), 4) == Returned(w, heap[a := [w]], tape)
            && Iterate(Rewritten(p), Machine(0, [Null, Null], heap, tape), 4) == Returned(v, heap, tape)
  {
    hide Rewritten, Iterate;
    AssigningRuns(rt, t, v, heap, a, tape);
    AssigningOptimised(rt, t, v, heap, tape);
  }

  /** Coercions check values but never convert them. */
  ghost predicate NeverConverts(rt: Runtime) {
    forall t, v :: rt.coerce(t, v).Some? ==> rt.coerce(t, v).value == v
  }

  /** With such coercions every run stores exactly. */
  lemma CheckingCoercionsAreExact(p: Program, m: Machine, n: nat)
    requires NeverConverts(p.runtime)
    ensures ExactRun(p, m, n)
  {
    hide Ordinary, Iterate;
  }

  /** The optimised list returns the same value, memory and rest of the answers, apart from boxes of its own run. */
  ghost predicate ReturnsSame(p: Program, m: Machine, r: Status)
    requires r.Returned?
  {
    exists tape2: Tape, boxes: set<Address> ::
      && Leads(Optimized(p), m.(tape := tape2), Returned(r.value, r.heap - boxes, r.tape))
      && Edited(m.tape, tape2) && boxes !! m.heap.Keys && Avoids(boxes, r.value)
  }

  ghost predicate RunsForEver(p: Program, m: Machine) {
    exists tape2: Tape :: Edited(m.tape, tape2) && forall n: nat :: Survives(Optimized(p), m.(tape := tape2), n)
  }

  /** Every run of the original that returns or never ends is a run of its optimised form. */
  ghost predicate Preserved(p: Program, m: Machine) {
    && (forall n: nat :: Iterate(p, m, n).Returned? ==> ReturnsSame(p, m, Iterate(p, m, n)))
    && ((forall n: nat :: Survives(p, m, n)) ==> RunsForEver(p, m))
  }

  ghost predicate PreservesRuns(rt: Runtime) {
    forall p: Program, m: Machine :: p.runtime == rt && Promotable(p.items) && Fresh(p, m) ==> Preserved(p, m)
  }

  /** The pass is right for all programs in an environment exactly when its coercions never convert a value. */
  lemma PreservesIff(rt: Runtime)
    requires WellBehaved(rt)
    ensures PreservesRuns(rt) <==> NeverConverts(rt)
  {
    if NeverConverts(rt) {
      forall p: Program, m: Machine | p.runtime == rt && Promotable(p.items) && Fresh(p, m) ensures Preserved(p, m) {
        forall n: nat ensures ExactRun(p, m, n) { CheckingCoercionsAreExact(p, m, n); }
        forall n: nat | Iterate(p, m, n).Returned? ensures ReturnsSame(p, m, Iterate(p, m, n)) {
          var tape2, boxes := OptimizeTemporariesFollows(p, m, n);
        }
        if forall n: nat :: Survives(p, m, n) {
          var tape2 := OptimizeTemporariesEndless(p, m);
        }
      }
    }
    forall t, v | PreservesRuns(rt) && rt.coerce(t, v).Some? ensures rt.coerce(t, v).value == v {
      hide Promotable, Leads, Optimized, Iterate, Rewritten, Alike;
      var heap := AssigningHeap(rt, t, v);
      var a := Unallocated(heap.Keys);
      var p, m := AssigningProgram(rt, t, v), Machine(0, [Null, Null], heap, [Placed(a)] + []);
      AssigningPromotable();
      assert Fresh(AssigningProgram(rt, t, v), m);
      CoercionIsLost(rt, t, v, heap, a, []);
      assert Preserved(p, m) && Iterate(p, m, 4).Returned?;
      var r := Iterate(p, m, 4);
      assert ReturnsSame(p, m, r);
      var tape2: Tape, boxes: set<Address> :|
        && Leads(Optimized(p), m.(tape := tape2), Returned(r.value, r.heap - boxes, r.tape))
        && Edited(m.tape, tape2) && boxes !! m.heap.Keys && Avoids(boxes, r.value);
      OnlyRawReturned(rt, t, v, heap, tape2, Returned(r.value, r.heap - boxes, r.tape));
    }
  }

  /** The optimised list can only return the raw value. */
  lemma OnlyRawReturned(rt: Runtime, t: Value, v: Value, heap: Heap, tape: Tape, r: Status)
    requires r.Returned? && Leads(Optimized(AssigningProgram(rt, t, v)), Machine(0, [Null, Null], heap, tape), r)
    ensures r.value == v
  {
    hide Optimized, Rewritten;
    var p, m := AssigningProgram(rt, t, v), Machine(0, [Null, Null], heap, tape);
    OptimizedAlike(p, m);
    assert Leads(Rewritten(p), m, r);
    AssigningOptimised(rt, t, v, heap, tape);
    assert Leads(Rewritten(p), m, Iterate(Rewritten(p), m, 4));
    HaltsOnce(Rewritten(p), m, r, Returned(v, heap, tape));
  }

  /** Everything that the activation mentions is allocated, without slots. */
  ghost function AssigningHeap(rt: Runtime, t: Value, v: Value): Heap {
    map a | a in Addresses(t) + Addresses(v) + rt.roots :: []
  }

  /** Some address is not in use. */
  lemma {:induction false} Unallocated(used: set<Address>) returns (a: Address)
    ensures a !in used
  {
    a := 0;
    if used != {} {
      var top := Highest(used);
      a := top + 1;
    }
  }

  lemma {:induction false} Highest(used: set<Address>) returns (top: Address)
    requires used != {}
    ensures top in used && forall a :: a in used ==> a <= top
  {
    top :| top in used;
    if used != {top} {
      var rest := Highest(used - {top});
      forall a | a in used ensures a <= if rest > top then rest else top { assert a == top || a in used - {top}; }
      top := if rest > top then rest else top;
    }
  }

  /** The machine after a straight-line instruction with destination d. */
  function After(p: Program, m: Machine, op: Opcode, d: Operand, xs: seq<Value>): Status
    requires Writable(d, |m.locals|)
  {
    match Primitive(p.runtime, op, xs, m.heap, m.tape)
    case Error => Failed
    case Done(v, h, t) => Running(Machine(m.pc + 1, Write(m.locals, d, v), h, t))
  }

  lemma StepUnary(p: Program, m: Machine, op: Opcode, d: Operand, a: Operand)
    requires m.pc < |p.items| && p.items[m.pc] == Instruction(op, [d, a])
    requires IsStraight(op) && DestinationCount(op) == 1 && Writable(d, |m.locals|)
             && Readable(p, a, m.locals)
    ensures Step(p, m) == After(p, m, op, d, [Read(p, a, m.locals)])
  {
    hide Primitive, Step;
    assert [d, a][1..] == [a];
    StepStraight(p, m, op, [d, a], [Read(p, a, m.locals)]);
  }

  lemma StepBinary(p: Program, m: Machine, op: Opcode, d: Operand, a: Operand, b: Operand)
    requires m.pc < |p.items| && p.items[m.pc] == Instruction(op, [d, a, b])
    requires IsStraight(op) && DestinationCount(op) == 1 && Writable(d, |m.locals|)
    requires Readable(p, a, m.locals) && Readable(p, b, m.locals)
    ensures Step(p, m) == After(p, m, op, d, [Read(p, a, m.locals), Read(p, b, m.locals)])
  {
    hide Primitive, Step;
    assert [d, a, b][1..] == [a, b];
    StepStraight(p, m, op, [d, a, b], [Read(p, a, m.locals), Read(p, b, m.locals)]);
  }

  lemma StepStoring(p: Program, m: Machine, a: Operand, b: Operand)
    requires m.pc < |p.items| && p.items[m.pc] == Instruction(STORE, [a, b])
    requires Readable(p, a, m.locals) && Readable(p, b, m.locals)
    ensures Step(p, m) == After(p, m, STORE, Missing, [Read(p, a, m.locals), Read(p, b, m.locals)])
  {
    hide Primitive, Step;
    assert [a, b][0..] == [a, b];
    StepStraight(p, m, STORE, [a, b], [Read(p, a, m.locals), Read(p, b, m.locals)]);
  }

  lemma StepReturning(p: Program, m: Machine, o: Operand)
    requires m.pc < |p.items| && p.items[m.pc] == Instruction(RETURN, [o]) && Readable(p, o, m.locals)
    ensures Step(p, m) == Returned(Read(p, o, m.locals), m.heap, m.tape)
  {
    assert Sources(RETURN, [o]) == [o];
  }

  lemma FourSteps(p: Program, m0: Machine, m1: Machine, m2: Machine, m3: Machine)
    requires Step(p, m0) == Running(m1) && Step(p, m1) == Running(m2) && Step(p, m2) == Running(m3)
    ensures Iterate(p, m0, 4) == Iterate(p, m3, 1)
  {
    hide Step;
    assert Iterate(p, m1, 3) == Iterate(p, m2, 2) == Iterate(p, m3, 1);
  }

  lemma LastStep(p: Program, m: Machine)
    requires !Step(p, m).Running?
    ensures Iterate(p, m, 1) == Step(p, m)
  {
  }

  lemma AssigningRuns(rt: Runtime, t: Value, v: Value, heap: Heap, a: Address, tape: Tape)
    requires rt.coerce(t, v).Some? && a !in heap
    ensures var p, w := AssigningProgram(rt, t, v), rt.coerce(t, v).value;
            Iterate(p, Machine(0, [Null, Null], heap, [Placed(a)] + tape), 4) == Returned(w, heap[a := [w]], tape)
  {
    hide Step, Iterate, SlotAt, SlotAtPut;
    var p, w := AssigningProgram(rt, t, v), rt.coerce(t, v).value;
    var m0 := Machine(0, [Null, Null], heap, [Placed(a)] + tape);
    var m1 := Machine(1, [Box(a, t), Null], heap[a := [v]], tape);
    var m2 := Machine(2, [Box(a, t), Null], heap[a := [w]], tape);
    var m3 := Machine(3, [Box(a, t), w], heap[a := [w]], tape);
    assert m0.tape[1..] == tape;
    assert Step(p, m0) == Running(m1) by {
      hide StoreThrough, LoadThrough;
      StepBinary(p, m0, ALLOCA_WITH_VALUE, In(Locals, 0), In(Literals, 0), In(Arguments, 0));
    }
    assert Step(p, m1) == Running(m2) by {
      StepStoring(p, m1, In(Locals, 0), In(Arguments, 0));
      assert heap[a := [v]][a := [w]] == heap[a := [w]];
    }
    assert Step(p, m2) == Running(m3) by { StepUnary(p, m2, LOAD, In(Locals, 1), In(Locals, 0)); }
    StepReturning(p, m3, In(Locals, 1));
    FourSteps(p, m0, m1, m2, m3);
    LastStep(p, m3);
  }

  lemma AssigningItems()
    ensures Lowered(AssigningList())[..2] == [Instruction(MOVE, [In(Locals, 0), In(Arguments, 0)]),
                                              Instruction(MOVE, [In(Locals, 0), In(Arguments, 0)])]
    ensures Lowered(AssigningList())[2..]
            == [Instruction(MOVE, [In(Locals, 1), In(Locals, 0)]), Instruction(RETURN, [In(Locals, 1)])]
  {
    AssigningUses();
    hide OnlyPointer;
  }

  lemma AssigningOptimised(rt: Runtime, t: Value, v: Value, heap: Heap, tape: Tape)
    ensures Iterate(Rewritten(AssigningProgram(rt, t, v)), Machine(0, [Null, Null], heap, tape), 4)
            == Returned(v, heap, tape)
  {
    AssigningItems();
    hide Lowered, Step, Iterate, Vanishes, Lower, ReferencesBefore, OnlyPointer;
    var q := Rewritten(AssigningProgram(rt, t, v));
    var m0 := Machine(0, [Null, Null], heap, tape);
    assert q.items[0] == q.items[..2][0] && q.items[1] == q.items[..2][1];
    assert q.items[2] == q.items[2..][0] && q.items[3] == q.items[2..][1];
    var m1 := m0.(pc := 1, locals := [v, Null]);
    var m3 := m0.(pc := 3, locals := [v, v]);
    MoveStep(q, m0, In(Locals, 0), In(Arguments, 0));
    MoveStep(q, m1, In(Locals, 0), In(Arguments, 0));
    assert [v, Null][0 := v] == [v, Null];
    MoveStep(q, m1.(pc := 2), In(Locals, 1), In(Locals, 0));
    StepReturning(q, m3, In(Locals, 1));
    FourSteps(q, m0, m1, m1.(pc := 2), m3);
    LastStep(q, m3);
  }

  // A reference into a tuple held by a local that changes before the reference is used.

  function RedirectingList(): seq<Item> {
    [ Instruction(SLOT_REFERENCE_AT, [In(Locals, 1), In(Locals, 0), In(Literals, 0)]),
      Instruction(MOVE, [In(Locals, 0), In(Arguments, 0)]),
      Instruction(LOAD, [In(Locals, 2), In(Locals, 1)]),
      Instruction(RETURN, [In(Locals, 2)]) ]
  }

  function Converting(): Runtime {
    Runtime((t, v) => Some(Boolean(true)), (a, b) => a == b, v => false, (v, i) => Null,
            (op, xs, h, v, h2) => false, {})
  }

  function RedirectingProgram(): Program {
    Program(RedirectingList(), [Object(1)], [], [TypeSlot(0)], Converting())
  }

  lemma RedirectingUses()
    ensures IsLocalOnlyReference(RedirectingList(), In(Locals, 1))
    ensures !IsLocalOnlyAlloca(RedirectingList(), In(Locals, 1))
  {
    var items, o := RedirectingList(), In(Locals, 1);
    assert DefinesBy(items[0], o, SLOT_REFERENCE_AT);
    assert UsesAt(items[2], 1, o);
    assert Dereferences(items[2], o);
  }

  /**
   With the tuple in a local the pass is wrong: local 0 holds Null when the reference is taken and object 1 when it is
   loaded, so the original reads a slot of Null and the optimised list reads slot 0 of object 1.
   */
  lemma RedirectionIsLost(tape: Tape)
    ensures var p, m := RedirectingProgram(), Machine(0, [Null, Null, Null], map[1 := [Void]], tape);
            && Fresh(p, m) && WellBehaved(p.runtime) && ExactRun(p, m, 4)
            && Iterate(p, m, 4) == Returned(Null, m.heap, tape)
            && Iterate(Rewritten(p), m, 4) == Returned(Void, m.heap, tape)
  {
    RedirectingRuns(tape);
    RedirectingOptimised(tape);
    RedirectingStores(tape);
    hide Iterate, Rewritten, ExactRun;
  }

  lemma RedirectingStores(tape: Tape)
    ensures ExactRun(RedirectingProgram(), Machine(0, [Null, Null, Null], map[1 := [Void]], tape), 4)
  {
    hide Step, Iterate, Ordinary, ExactAt;
  }

  lemma RedirectingRuns(tape: Tape)
    ensures var p, m := RedirectingProgram(), Machine(0, [Null, Null, Null], map[1 := [Void]], tape);
            Iterate(p, m, 4) == Returned(Null, m.heap, tape)
  {
    hide Step, Iterate;
    var p := RedirectingProgram();
    var reference := SlotReference(Null, TypeSlot(0));
    var m0 := Machine(0, [Null, Null, Null], map[1 := [Void]], tape);
    var m1 := m0.(pc := 1, locals := [Null, reference, Null]);
    var m2 := m0.(pc := 2, locals := [Object(1), reference, Null]);
    var m3 := m2.(pc := 3);
    assert Step(p, m0) == Running(m1) by {
      hide StoreThrough, LoadThrough, SlotAt, SlotAtPut;
      StepBinary(p, m0, SLOT_REFERENCE_AT, In(Locals, 1), In(Locals, 0), In(Literals, 0));
    }
    assert Step(p, m1) == Running(m2) by {
      hide Primitive;
      MoveStep(p, m1, In(Locals, 0), In(Arguments, 0));
    }
    assert Step(p, m2) == Running(m3) by {
      hide StoreThrough, SlotAtPut;
      StepUnary(p, m2, LOAD, In(Locals, 2), In(Locals, 1));
      assert m2.locals[2 := Null] == m2.locals;
    }
    hide Primitive;
    StepReturning(p, m3, In(Locals, 2));
    FourSteps(p, m0, m1, m2, m3);
    LastStep(p, m3);
  }

  lemma RedirectingOptimised(tape: Tape)
    ensures var p, m := RedirectingProgram(), Machine(0, [Null, Null, Null], map[1 := [Void]], tape);
            Iterate(Rewritten(p), m, 4) == Returned(Void, m.heap, tape)
  {
    RedirectingItems();
    hide OnlyPointer, Step, Iterate, Lowered, Vanishes, Lower, ReferencesBefore, LoadThrough, StoreThrough, SlotAtPut;
    var q := Rewritten(RedirectingProgram());
    var m0 := Machine(0, [Null, Null, Null], map[1 := [Void]], tape);
    var m2 := m0.(pc := 2, locals := [Object(1), Null, Null]);
    var m3 := m0.(pc := 3, locals := [Object(1), Null, Void]);
    assert Step(q, m0) == Running(m0.(pc := 1)) by {
      hide Primitive, SlotAt;
      NopStep(q, m0);
    }
    assert Step(q, m0.(pc := 1)) == Running(m2) by {
      hide Primitive, SlotAt;
      MoveStep(q, m0.(pc := 1), In(Locals, 0), In(Arguments, 0));
    }
    assert Step(q, m2) == Running(m3) by {
      StepBinary(q, m2, SLOT_AT, In(Locals, 2), In(Locals, 0), In(Literals, 0));
    }
    hide Primitive, SlotAt;
    StepReturning(q, m3, In(Locals, 2));
    FourSteps(q, m0, m0.(pc := 1), m2, m3);
    LastStep(q, m3);
  }

  lemma RedirectingItems()
    ensures var r := Lowered(RedirectingList());
            && r[0] == Instruction(NOP, [])
            && r[1] == Instruction(MOVE, [In(Locals, 0), In(Arguments, 0)])
            && r[2] == Instruction(SLOT_AT, [In(Locals, 2), In(Locals, 0), In(Literals, 0)])
            && r[3] == Instruction(RETURN, [In(Locals, 2)])
  {
    RedirectingUses();
    hide OnlyPointer;
    var items := RedirectingList();
    assert ReferencesBefore(items, 0) == map[];
    assert ReferencesBefore(items, 1) == map[In(Locals, 1) := (In(Locals, 0), In(Literals, 0))];
    assert ReferencesBefore(items, 2) == ReferencesBefore(items, 1);
  }
}
