/**
 The meaning of instruction lists.  `Primitive` is the straight-line part of the interpreter's switch and
 `Step` executes the instruction (or label) at one list position.
 */
module ListMachine {
  import opened Values
  import opened Instructions

  /** The parts of the VM that stay uninterpreted. */
  datatype Runtime = Runtime(
    coerce: (Value, Value) -> Option<Value>,      // pointer type or slot, value
    equals: (Value, Value) -> bool,
    pointsToItself: Value -> bool,                // value types are pointers to themselves
    immediateSlot: (Value, nat) -> Value,         // bytes of an immediate
    allows: (Opcode, seq<Value>, Heap, Value, Heap) -> bool,  // may this operation reply so?
    roots: set<Address>)                          // objects that callees reach on their own

  datatype Result = Done(value: Value, heap: Heap, tape: Tape) | Error

  function SlotIndex(slot: Value): nat {
    if slot.TypeSlot? then slot.index else 0
  }

  function SlotAt(rt: Runtime, heap: Heap, tuple: Value, slot: Value): Option<Value> {
    match tuple
    case Object(a) =>
      if a in heap && SlotIndex(slot) < |heap[a]| then Some(heap[a][SlotIndex(slot)]) else None
    case Box(_, _) | SlotReference(_, _) => None
    case _ => Some(rt.immediateSlot(tuple, SlotIndex(slot)))
  }

  function SlotAtPut(heap: Heap, tuple: Value, slot: Value, value: Value): Option<Heap> {
    if tuple.Object? && tuple.address in heap && SlotIndex(slot) < |heap[tuple.address]|
    then Some(heap[tuple.address := heap[tuple.address][SlotIndex(slot) := value]])
    else None
  }

  function LoadThrough(rt: Runtime, heap: Heap, pointer: Value): Option<Value> {
    match pointer
    case Null => None
    case Box(a, _) => if a in heap && |heap[a]| == 1 then Some(heap[a][0]) else None
    case SlotReference(base, slot) => SlotAt(rt, heap, base, slot)
    case _ => if rt.pointsToItself(pointer) then Some(pointer) else None
  }

  /**
   A store first coerces the value to the base type of the pointer.  A box receives the coerced value; behind a slot
   reference the coercion is only a check, and the tuple is sent the value itself.
   */
  function StoreThrough(rt: Runtime, heap: Heap, pointer: Value, value: Value): Option<Heap> {
    match pointer
    case Box(a, t) =>
      (match rt.coerce(t, value)
       case None => None
       case Some(w) => if a in heap && |heap[a]| == 1 then Some(heap[a := [w]]) else None)
    case SlotReference(base, slot) =>
      (match rt.coerce(slot, value)
       case None => None
       case Some(_) => SlotAtPut(heap, base, slot, value))
    case _ => None
  }

  function Lift(value: Option<Value>, heap: Heap, tape: Tape): Result {
    if value.Some? then Done(value.value, heap, tape) else Error
  }

  function Put(heap: Option<Heap>, tape: Tape): Result {
    if heap.Some? then Done(Null, heap.value, tape) else Error
  }

  /** Instructions that compute a value or change the memory, and then fall through. */
  function Primitive(rt: Runtime, op: Opcode, xs: seq<Value>, heap: Heap, tape: Tape): Result {
    match op
    case NOP | BREAKPOINT | SET_DEBUG_VALUE | COUNT_EXTENSION => Done(Null, heap, tape)
    case MOVE => if |xs| == 1 then Done(xs[0], heap, tape) else Error
    case UNCHECKED_DOWNCAST_VALUE => if |xs| == 2 then Done(xs[1], heap, tape) else Error
    case LOAD => if |xs| == 1 then Lift(LoadThrough(rt, heap, xs[0]), heap, tape) else Error
    case STORE => if |xs| == 2 then Put(StoreThrough(rt, heap, xs[0], xs[1]), tape) else Error
    case ALLOCA_WITH_VALUE =>
      if |xs| == 2 && |tape| > 0 && tape[0].Placed? && tape[0].address !in heap
      then Done(Box(tape[0].address, xs[0]), heap[tape[0].address := [xs[1]]], tape[1..])
      else Error
    case SLOT_AT => if |xs| == 2 then Lift(SlotAt(rt, heap, xs[0], xs[1]), heap, tape) else Error
    case SLOT_REFERENCE_AT => if |xs| == 2 then Done(SlotReference(xs[0], xs[1]), heap, tape) else Error
    case SLOT_AT_PUT => if |xs| == 3 then Put(SlotAtPut(heap, xs[0], xs[1], xs[2]), tape) else Error
    case REF_SLOT_AT =>
      if |xs| != 2 then Error else
      (match LoadThrough(rt, heap, xs[0])
       case None => Error
       case Some(t) => Lift(SlotAt(rt, heap, t, xs[1]), heap, tape))
    case REF_SLOT_REFERENCE_AT =>
      if |xs| != 2 then Error else
      (match LoadThrough(rt, heap, xs[0])
       case None => Error
       case Some(t) => Done(SlotReference(t, xs[1]), heap, tape))
    case REF_SLOT_AT_PUT =>
      if |xs| != 3 then Error else
      (match LoadThrough(rt, heap, xs[0])
       case None => Error
       case Some(t) => Put(SlotAtPut(heap, t, xs[1], xs[2]), tape))
    case UNREACHABLE | RETURN | JUMP | JUMP_IF_TRUE | JUMP_IF_FALSE | CASE_JUMP => Error
    case _ =>
      // Calls, sends, coercions and constructors: the environment replies.
      if |tape| > 0 && tape[0].Replied? && rt.allows(op, xs, heap, tape[0].value, tape[0].heap)
      then Done(tape[0].value, tape[0].heap, tape[1..])
      else Error
  }

  /** The first case whose key is identical or equal to the value; |keys| stands for the default. */
  function FirstMatch(rt: Runtime, value: Value, keys: seq<Value>): (chosen: nat)
    ensures chosen <= |keys|
    ensures chosen < |keys| ==> value == keys[chosen] || rt.equals(value, keys[chosen])
    ensures forall i :: 0 <= i < chosen ==> value != keys[i] && !rt.equals(value, keys[i])
  {
    if keys == [] || value == keys[0] || rt.equals(value, keys[0]) then 0
    else 1 + FirstMatch(rt, value, keys[1..])
  }

  datatype Effect =
    | Fall(result: Value, heap: Heap, tape: Tape)
    | Goto(target: nat)                       // which of the trailing displacement operands
    | Leave(result: Value)
    | Crash

  function Execute(rt: Runtime, op: Opcode, xs: seq<Value>, heap: Heap, tape: Tape): Effect {
    match op
    case RETURN => if |xs| == 1 then Leave(xs[0]) else Crash
    case JUMP => Goto(0)
    case JUMP_IF_TRUE => if |xs| != 1 then Crash else if xs[0] == Boolean(true) then Goto(0) else Fall(Null, heap, tape)
    case JUMP_IF_FALSE => if |xs| != 1 then Crash else if xs[0] != Boolean(true) then Goto(0)
      else Fall(Null, heap, tape)
    case CASE_JUMP => if |xs| == 0 then Crash else Goto(FirstMatch(rt, xs[0], xs[1..]))
    case _ =>
      match Primitive(rt, op, xs, heap, tape)
      case Done(v, h, t) => Fall(v, h, t)
      case Error => Crash
  }

  datatype Program = Program(
    items: seq<Item>, arguments: seq<Value>, captures: seq<Value>, literals: seq<Value>, runtime: Runtime)

  datatype Machine = Machine(pc: nat, locals: seq<Value>, heap: Heap, tape: Tape)

  datatype Status = Running(machine: Machine) | Returned(value: Value, heap: Heap, tape: Tape) | Failed

  function VectorOf(p: Program, vector: Vector, locals: seq<Value>): seq<Value> {
    match vector
    case Arguments => p.arguments
    case Captures => p.captures
    case Literals => p.literals
    case Locals => locals
  }

  predicate Readable(p: Program, o: Operand, locals: seq<Value>) {
    o.In? && o.index < |VectorOf(p, o.vector, locals)|
  }

  predicate AllReadable(p: Program, os: seq<Operand>, locals: seq<Value>) {
    forall i :: 0 <= i < |os| ==> Readable(p, os[i], locals)
  }

  function Read(p: Program, o: Operand, locals: seq<Value>): Value {
    if Readable(p, o, locals) then VectorOf(p, o.vector, locals)[o.index] else Null
  }

  function ReadAll(p: Program, os: seq<Operand>, locals: seq<Value>): (xs: seq<Value>)
    ensures |xs| == |os|
    ensures forall i :: 0 <= i < |os| ==> xs[i] == Read(p, os[i], locals)
  {
    seq(|os|, i requires 0 <= i < |os| => Read(p, os[i], locals))
  }

  /** A destination is a local in bounds, or missing when the result is not wanted. */
  predicate Writable(o: Operand, localCount: nat) {
    o.Missing? || (o.In? && o.vector.Locals? && o.index < localCount)
  }

  function Write(locals: seq<Value>, o: Operand, value: Value): (written: seq<Value>)
    requires Writable(o, |locals|)
    ensures |written| == |locals|
  {
    if o.Missing? then locals else locals[o.index := value]
  }

  /** The operands an instruction reads, between its destinations and its displacements. */
  function Sources(op: Opcode, operands: seq<Operand>): seq<Operand>
    requires DestinationCount(op) + OffsetCount(op, |operands|) <= |operands|
  {
    operands[DestinationCount(op)..|operands| - OffsetCount(op, |operands|)]
  }

  predicate WellShaped(op: Opcode, operands: seq<Operand>, localCount: nat) {
    && DestinationCount(op) + OffsetCount(op, |operands|) <= |operands|
    && (DestinationCount(op) == 1 ==> Writable(operands[0], localCount))
  }

  /** Where a taken jump goes; a displacement operand that is no label in the list leads nowhere. */
  function Target(p: Program, op: Opcode, operands: seq<Operand>, chosen: nat): Option<nat>
    requires OffsetCount(op, |operands|) <= |operands|
  {
    var at := |operands| - OffsetCount(op, |operands|) + chosen;
    if at < |operands| && operands[at].To? && Position(p.items, operands[at].target) < |p.items|
    then Some(Position(p.items, operands[at].target))
    else None
  }

  /** Turns the effect of an instruction into the next state. */
  function Advance(p: Program, m: Machine, op: Opcode, operands: seq<Operand>, effect: Effect): Status
    requires WellShaped(op, operands, |m.locals|)
  {
    match effect
    case Fall(v, h, t) =>
      Running(Machine(m.pc + 1, if DestinationCount(op) == 1 then Write(m.locals, operands[0], v) else m.locals, h, t))
    case Goto(k) =>
      (match Target(p, op, operands, k)
       case Some(position) => Running(m.(pc := position))
       case None => Failed)
    case Leave(v) => Returned(v, m.heap, m.tape)
    case Crash => Failed
  }

  function StepInstruction(p: Program, m: Machine, op: Opcode, operands: seq<Operand>): Status {
    if op.COUNT_EXTENSION? then Running(m.(pc := m.pc + 1))
    else if !WellShaped(op, operands, |m.locals|) then Failed
    else if !AllReadable(p, Sources(op, operands), m.locals) then Failed
    else
      Advance(p, m, op, operands,
              Execute(p.runtime, op, ReadAll(p, Sources(op, operands), m.locals), m.heap, m.tape))
  }

  function Step(p: Program, m: Machine): Status {
    if m.pc >= |p.items| then Failed
    else
      match p.items[m.pc]
      case Label(_) => Running(m.(pc := m.pc + 1))
      case Instruction(op, operands) => StepInstruction(p, m, op, operands)
  }

  /** Control goes on to the next item or to a label that the instruction mentions. */
  lemma StepGoes(p: Program, m: Machine) returns (l: nat)
    requires Step(p, m).Running?
    ensures var pc := Step(p, m).machine.pc;
            && m.pc < |p.items|
            && (pc == m.pc + 1
                || (p.items[m.pc].Instruction? && To(l) in p.items[m.pc].operands
                    && pc == Position(p.items, l) < |p.items|))
  {
    hide Execute, ReadAll, AllReadable, Position;
    l := 0;
    if p.items[m.pc].Instruction? && Step(p, m).machine.pc != m.pc + 1 {
      var op, os := p.items[m.pc].opcode, p.items[m.pc].operands;
      var effect := Execute(p.runtime, op, ReadAll(p, Sources(op, os), m.locals), m.heap, m.tape);
      l := os[|os| - OffsetCount(op, |os|) + effect.target].target;
    }
  }

  /** The status after at most n steps. */
  function Iterate(p: Program, m: Machine, n: nat): Status
    decreases n
  {
    if n == 0 then Running(m)
    else
      match Step(p, m)
      case Running(next) => Iterate(p, next, n - 1)
      case halted => halted
  }

  ghost predicate Leads(p: Program, m: Machine, r: Status) {
    exists n: nat :: Iterate(p, m, n) == r
  }

  /** The machine is still running after n steps. */
  ghost predicate Survives(p: Program, m: Machine, n: nat) {
    Iterate(p, m, n).Running?
  }

  lemma {:induction false} IterateSum(p: Program, m: Machine, a: nat, b: nat)
    ensures Iterate(p, m, a + b) ==
            match Iterate(p, m, a) case Running(middle) => Iterate(p, middle, b) case halted => halted
    decreases a
  {
    hide Step;
    if a > 0 {
      match Step(p, m)
      case Running(next) =>
        assert a + b - 1 == (a - 1) + b;
        IterateSum(p, next, a - 1, b);
      case _ =>
    }
  }

  lemma LeadsNowhere(p: Program, m: Machine)
    ensures Leads(p, m, Running(m))
  {
    assert Iterate(p, m, 0) == Running(m);
  }

  lemma LeadsByStep(p: Program, m: Machine)
    ensures Leads(p, m, Step(p, m))
  {
    assert Iterate(p, m, 1) == Step(p, m) by {
      match Step(p, m)
      case Running(next) => assert Iterate(p, next, 0) == Running(next);
      case _ =>
    }
  }

  lemma LeadsThrough(p: Program, m: Machine, middle: Machine, r: Status)
    requires Leads(p, m, Running(middle)) && Leads(p, middle, r)
    ensures Leads(p, m, r)
  {
    var a: nat :| Iterate(p, m, a) == Running(middle);
    var b: nat :| Iterate(p, middle, b) == r;
    IterateSum(p, m, a, b);
  }

  lemma LeadsStepThen(p: Program, m: Machine, r: Status)
    requires Step(p, m).Running? && Leads(p, Step(p, m).machine, r)
    ensures Leads(p, m, r)
  {
    LeadsByStep(p, m);
    LeadsThrough(p, m, Step(p, m).machine, r);
  }

  lemma SurvivesThrough(p: Program, m: Machine, middle: Machine, n: nat)
    requires Leads(p, m, Running(middle)) && Survives(p, middle, n)
    ensures Survives(p, m, n)
  {
    var a: nat :| Iterate(p, m, a) == Running(middle);
    IterateSum(p, m, a, n);
    assert Survives(p, m, n) by {
      IterateSum(p, m, n, (a + n) - n);
    }
  }

  /** A machine halts with one status only. */
  lemma HaltsOnce(p: Program, m: Machine, r1: Status, r2: Status)
    requires Leads(p, m, r1) && Leads(p, m, r2) && !r1.Running? && !r2.Running?
    ensures r1 == r2
  {
    var a: nat :| Iterate(p, m, a) == r1;
    var b: nat :| Iterate(p, m, b) == r2;
    if a <= b { IterateSum(p, m, a, b - a); } else { IterateSum(p, m, b, a - b); }
  }

  ghost predicate Holds(p: Program, o: Operand, locals: seq<Value>, v: Value) {
    Readable(p, o, locals) && Read(p, o, locals) == v
  }

  ghost predicate AllHold(p: Program, os: seq<Operand>, locals: seq<Value>, vs: seq<Value>) {
    |os| == |vs| && forall i :: 0 <= i < |os| ==> Holds(p, os[i], locals, vs[i])
  }

  predicate IsStraight(op: Opcode) {
    !IsJump(op) && !op.CASE_JUMP? && !op.RETURN? && !op.COUNT_EXTENSION?
  }

  /** A straight-line instruction whose sources hold xs computes Primitive. */
  lemma StepStraight(p: Program, m: Machine, op: Opcode, operands: seq<Operand>, xs: seq<Value>)
    requires m.pc < |p.items| && p.items[m.pc] == Instruction(op, operands)
    requires IsStraight(op) && WellShaped(op, operands, |m.locals|)
    requires AllHold(p, operands[DestinationCount(op)..], m.locals, xs)
    ensures Step(p, m) ==
            match Primitive(p.runtime, op, xs, m.heap, m.tape)
            case Error => Failed
            case Done(v, h, t) =>
              Running(Machine(m.pc + 1, if DestinationCount(op) == 1 then Write(m.locals, operands[0], v)
                              else m.locals, h, t))
  {
    assert Sources(op, operands) == operands[DestinationCount(op)..];
    assert ReadAll(p, Sources(op, operands), m.locals) == xs;
    hide Primitive;
  }
}
