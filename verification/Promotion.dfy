/** Box promotion and slot-reference lowering simulate the original list on every run that does not fail. */
module Promotion {
  import opened Values
  import opened Instructions
  import opened ListMachine
  import opened Temporaries

  // What callees and coercions may do.

  /** Answers are closed: memory only grows, and replies mention only allocated objects. */
  ghost predicate RepliesClosed(rt: Runtime, op: Opcode, xs: seq<Value>, heap: Heap, v: Value, after: Heap) {
    rt.allows(op, xs, heap, v, after) && AllClosed(heap, xs) && HeapClosed(heap) ==>
      heap.Keys <= after.Keys && HeapClosed(after) && Closed(after, v)
  }

  /** A callee neither reads, changes nor leaks objects that neither its operands nor its own roots lead to. */
  ghost predicate RepliesConfined(rt: Runtime, op: Opcode, xs: seq<Value>, heap: Heap, v: Value, after: Heap,
                                  hidden: set<Address>) {
    rt.allows(op, xs, heap, v, after) && Apart(hidden, heap) && hidden !! rt.roots && AllAvoid(hidden, xs) ==>
      && Apart(hidden, after) && Avoids(hidden, v)
      && (forall a :: a in hidden ==> after[a] == heap[a])
      && rt.allows(op, xs, heap - hidden, v, after - hidden)
  }

  /** Coercions and immediates make no pointers of their own. */
  ghost predicate MakesNoPointers(rt: Runtime) {
    && (forall t, v :: rt.coerce(t, v).Some? ==> Addresses(rt.coerce(t, v).value) <= Addresses(t) + Addresses(v))
    && (forall v, i :: Addresses(rt.immediateSlot(v, i)) <= Addresses(v))
  }

  ghost predicate WellBehaved(rt: Runtime) {
    && MakesNoPointers(rt)
    && (forall op, xs, heap, v, after :: RepliesClosed(rt, op, xs, heap, v, after))
    && (forall op, xs, heap, v, after, hidden :: RepliesConfined(rt, op, xs, heap, v, after, hidden))
  }

  /** An environment whose callees return an operand, or allocate an object that holds all of them. */
  function Allocating(): Runtime {
    Runtime((t, v) => Some(v), (a, b) => a == b, v => false, (v, i) => Null,
            (op: Opcode, xs: seq<Value>, h: Heap, v: Value, h2: Heap) =>
              (v in xs && h2 == h) || (v.Object? && v.address !in h && h2 == h[v.address := xs]), {})
  }

  lemma RepliesHappen(op: Opcode, xs: seq<Value>, heap: Heap, a: Address)
    requires a !in heap
    ensures WellBehaved(Allocating()) && Allocating().allows(op, xs, heap, Object(a), heap[a := xs])
    ensures forall v :: v in xs ==> Allocating().allows(op, xs, heap, v, heap)
  {
    var rt := Allocating();
    forall op, xs, heap: Heap, v, after, hidden ensures RepliesConfined(rt, op, xs, heap, v, after, hidden) {
      if v.Object? && v.address !in heap && after == heap[v.address := xs] && hidden <= heap.Keys {
        assert after - hidden == (heap - hidden)[v.address := xs];
      }
    }
  }

  /** The hidden objects are allocated, and no object mentions them. */
  ghost predicate Apart(hidden: set<Address>, heap: Heap) {
    hidden <= heap.Keys && forall a :: a in heap ==> AllAvoid(hidden, heap[a])
  }

  // The relation between the two machines.

  ghost predicate Plain(heap: Heap, hidden: set<Address>, v: Value) {
    Closed(heap, v) && Avoids(hidden, v)
  }

  ghost predicate AllPlain(heap: Heap, hidden: set<Address>, vs: seq<Value>) {
    forall i :: 0 <= i < |vs| ==> Plain(heap, hidden, vs[i])
  }

  /** A promoted temporary: a hidden box on one side, its content on the other. */
  ghost predicate BoxRelated(heap: Heap, hidden: set<Address>, v: Value, v2: Value) {
    v.Null? || (v.Box? && v.address in hidden && v.address in heap && heap[v.address] == [v2])
  }

  ghost predicate LocalRelated(p: Program, heap: Heap, hidden: set<Address>, t: nat, v: Value, v2: Value) {
    if IsLocalOnlyAlloca(p.items, In(Locals, t)) then BoxRelated(heap, hidden, v, v2)
    else if IsLocalOnlyReference(p.items, In(Locals, t)) then true       // read by the original only
    else v == v2 && Plain(heap, hidden, v)
  }

  /** Different promoted temporaries have different boxes. */
  ghost predicate BoxesDistinct(p: Program, locals: seq<Value>) {
    forall t, u :: 0 <= t < u < |locals| && locals[t].Box? && locals[u].Box?
      && IsLocalOnlyAlloca(p.items, In(Locals, t)) && IsLocalOnlyAlloca(p.items, In(Locals, u))
      ==> locals[t].address != locals[u].address
  }

  ghost predicate LocalsRelated(p: Program, heap: Heap, hidden: set<Address>, locals: seq<Value>, locals2: seq<Value>) {
    && |locals| == |locals2|
    && (forall t :: 0 <= t < |locals| ==> LocalRelated(p, heap, hidden, t, locals[t], locals2[t]))
    && BoxesDistinct(p, locals)
  }

  /** What the activation starts from, and the environment's own roots, are allocated and not hidden. */
  ghost predicate ConstantsPlain(p: Program, heap: Heap, hidden: set<Address>) {
    && AllPlain(heap, hidden, p.arguments) && AllPlain(heap, hidden, p.captures) && AllPlain(heap, hidden, p.literals)
    && p.runtime.roots <= heap.Keys && hidden !! p.runtime.roots
  }

  /** The memories agree outside of the hidden boxes, which nothing else mentions. */
  ghost predicate MemoryRelated(heap: Heap, hidden: set<Address>, heap2: Heap) {
    Apart(hidden, heap) && HeapClosed(heap) && heap2 == heap - hidden
  }

  ghost predicate Related(p: Program, m: Machine, m2: Machine, hidden: set<Address>) {
    && m2.pc == m.pc
    && MemoryRelated(m.heap, hidden, m2.heap)
    && ConstantsPlain(p, m.heap, hidden)
    && LocalsRelated(p, m.heap, hidden, m.locals, m2.locals)
  }

  // Growing memory and growing hidden sets.

  /** Between two states, memory grows and hidden boxes keep their contents. */
  ghost predicate Grows(heap: Heap, after: Heap, hidden: set<Address>) {
    heap.Keys <= after.Keys && forall a :: a in hidden && a in heap ==> after[a] == heap[a]
  }

  lemma ConstantsGrow(p: Program, heap: Heap, after: Heap, hidden: set<Address>)
    requires ConstantsPlain(p, heap, hidden) && heap.Keys <= after.Keys
    ensures ConstantsPlain(p, after, hidden)
  {
    hide Avoids;
  }

  lemma LocalsGrow(p: Program, heap: Heap, after: Heap, hidden: set<Address>, locals: seq<Value>, locals2: seq<Value>)
    requires LocalsRelated(p, heap, hidden, locals, locals2) && hidden <= heap.Keys && Grows(heap, after, hidden)
    ensures LocalsRelated(p, after, hidden, locals, locals2)
  {
    hide Avoids, IsLocalOnlyAlloca, IsLocalOnlyReference;
    forall t | 0 <= t < |locals| ensures LocalRelated(p, after, hidden, t, locals[t], locals2[t]) {
      assert LocalRelated(p, heap, hidden, t, locals[t], locals2[t]);
    }
  }

  // Straight-line instructions keep hidden boxes hidden.

  lemma SlotAtHides(rt: Runtime, heap: Heap, hidden: set<Address>, tuple: Value, slot: Value)
    requires MakesNoPointers(rt) && Apart(hidden, heap) && HeapClosed(heap) && Plain(heap, hidden, tuple)
    ensures SlotAt(rt, heap - hidden, tuple, slot) == SlotAt(rt, heap, tuple, slot)
    ensures SlotAt(rt, heap, tuple, slot).Some? ==> Plain(heap, hidden, SlotAt(rt, heap, tuple, slot).value)
  {
    if tuple.Object? {
      if tuple.address in heap && SlotIndex(slot) < |heap[tuple.address]| {
        assert Plain(heap, hidden, heap[tuple.address][SlotIndex(slot)]) by {
          assert AllAvoid(hidden, heap[tuple.address]) && AllClosed(heap, heap[tuple.address]);
        }
      }
    } else {
      assert Addresses(rt.immediateSlot(tuple, SlotIndex(slot))) <= Addresses(tuple);
    }
  }

  lemma LoadHides(rt: Runtime, heap: Heap, hidden: set<Address>, pointer: Value)
    requires MakesNoPointers(rt) && Apart(hidden, heap) && HeapClosed(heap) && Plain(heap, hidden, pointer)
    ensures LoadThrough(rt, heap - hidden, pointer) == LoadThrough(rt, heap, pointer)
    ensures LoadThrough(rt, heap, pointer).Some? ==> Plain(heap, hidden, LoadThrough(rt, heap, pointer).value)
  {
    match pointer
    case Box(a, _) => if a in heap && |heap[a]| == 1 {
      assert Plain(heap, hidden, heap[a][0]) by {
        assert AllAvoid(hidden, heap[a]) && AllClosed(heap, heap[a]);
      }
    }
    case SlotReference(b, s) => SlotAtHides(rt, heap, hidden, b, s);
    case _ =>
  }

  /** Overwriting a visible object with plain values keeps hidden boxes hidden. */
  lemma WriteHides(heap: Heap, hidden: set<Address>, a: Address, slots: seq<Value>)
    requires Apart(hidden, heap) && HeapClosed(heap) && a !in hidden && AllPlain(heap, hidden, slots)
    ensures var after := heap[a := slots];
            && MemoryRelated(after, hidden, (heap - hidden)[a := slots]) && Grows(heap, after, hidden)
  {
    hide Avoids;
    var after := heap[a := slots];
    forall b | b in after ensures AllAvoid(hidden, after[b]) && AllClosed(after, after[b]) {
      if b != a { assert AllAvoid(hidden, heap[b]) && AllClosed(heap, heap[b]); }
    }
    assert after - hidden == (heap - hidden)[a := slots];
  }

  lemma SlotAtPutHides(heap: Heap, hidden: set<Address>, tuple: Value, slot: Value, v: Value)
    requires Apart(hidden, heap) && HeapClosed(heap) && Plain(heap, hidden, tuple) && Plain(heap, hidden, v)
    ensures var r := SlotAtPut(heap, tuple, slot, v);
            var r2 := SlotAtPut(heap - hidden, tuple, slot, v);
            r.Some? ==> r2.Some? && MemoryRelated(r.value, hidden, r2.value) && Grows(heap, r.value, hidden)
  {
    if SlotAtPut(heap, tuple, slot, v).Some? {
      var a, i := tuple.address, SlotIndex(slot);
      assert AllAvoid(hidden, heap[a]) && AllClosed(heap, heap[a]);
      assert (heap - hidden)[a] == heap[a];
      WriteHides(heap, hidden, a, heap[a][i := v]);
    }
  }

  lemma StoreHides(rt: Runtime, heap: Heap, hidden: set<Address>, pointer: Value, v: Value)
    requires MakesNoPointers(rt) && Apart(hidden, heap) && HeapClosed(heap)
    requires Plain(heap, hidden, pointer) && Plain(heap, hidden, v)
    ensures var r := StoreThrough(rt, heap, pointer, v);
            var r2 := StoreThrough(rt, heap - hidden, pointer, v);
            r.Some? ==> r2.Some? && MemoryRelated(r.value, hidden, r2.value) && Grows(heap, r.value, hidden)
  {
    match pointer
    case Box(a, t) =>
      if StoreThrough(rt, heap, pointer, v).Some? {
        var w := rt.coerce(t, v).value;
        assert Addresses(w) <= Addresses(t) + Addresses(v);
        WriteHides(heap, hidden, a, [w]);
      }
    case SlotReference(b, s) => SlotAtPutHides(heap, hidden, b, s, v);
    case _ =>
  }

  /** What an instruction takes from the tape. */
  function Taken(op: Opcode, tape: Tape, hidden: set<Address>): Tape {
    if |tape| == 0 || IsQuiet(op) then []
    else if tape[0].Replied? then [Replied(tape[0].value, tape[0].heap - hidden)]
    else [tape[0]]
  }

  /** Instructions that ask nothing of the environment. */
  predicate IsQuiet(op: Opcode) {
    match op
    case NOP | BREAKPOINT | SET_DEBUG_VALUE | COUNT_EXTENSION | MOVE | UNCHECKED_DOWNCAST_VALUE | LOAD | STORE => true
    case SLOT_AT | SLOT_REFERENCE_AT | SLOT_AT_PUT | REF_SLOT_AT | REF_SLOT_REFERENCE_AT | REF_SLOT_AT_PUT => true
    case UNREACHABLE | RETURN | JUMP | JUMP_IF_TRUE | JUMP_IF_FALSE | CASE_JUMP => true
    case _ => false
  }

  /** The outcome of an instruction that ran with hidden boxes present and the one without them. */
  ghost predicate HidesIn(heap: Heap, hidden: set<Address>, r: Result, r2: Result, rest: Tape) {
    && r.Done? && r2.Done?
    && r2.value == r.value && r2.tape == rest
    && Plain(r.heap, hidden, r.value)
    && MemoryRelated(r.heap, hidden, r2.heap) && Grows(heap, r.heap, hidden)
  }

  lemma QuietHides(rt: Runtime, op: Opcode, xs: seq<Value>, heap: Heap, tape: Tape, hidden: set<Address>, rest: Tape)
    requires WellBehaved(rt) && MemoryRelated(heap, hidden, heap - hidden) && AllPlain(heap, hidden, xs)
    requires IsQuiet(op) && Primitive(rt, op, xs, heap, tape).Done?
    ensures HidesIn(heap, hidden, Primitive(rt, op, xs, heap, tape), Primitive(rt, op, xs, heap - hidden, rest), rest)
    ensures Primitive(rt, op, xs, heap, tape).tape == tape
  {
    hide Avoids, Closed, Apart, RepliesClosed, RepliesConfined, HeapClosed;
    hide MakesNoPointers, LoadThrough, SlotAt, SlotAtPut, StoreThrough;
    NullPlain(hidden);
    match op
    case LOAD => LoadHides(rt, heap, hidden, xs[0]);
    case STORE => StoreHides(rt, heap, hidden, xs[0], xs[1]);
    case SLOT_AT => SlotAtHides(rt, heap, hidden, xs[0], xs[1]);
    case SLOT_AT_PUT => SlotAtPutHides(heap, hidden, xs[0], xs[1], xs[2]);
    case REF_SLOT_AT =>
      LoadHides(rt, heap, hidden, xs[0]);
      SlotAtHides(rt, heap, hidden, LoadThrough(rt, heap, xs[0]).value, xs[1]);
    case REF_SLOT_AT_PUT =>
      LoadHides(rt, heap, hidden, xs[0]);
      SlotAtPutHides(heap, hidden, LoadThrough(rt, heap, xs[0]).value, xs[1], xs[2]);
    case REF_SLOT_REFERENCE_AT =>
      LoadHides(rt, heap, hidden, xs[0]);
      PairPlain(heap, hidden, LoadThrough(rt, heap, xs[0]).value, xs[1]);
    case SLOT_REFERENCE_AT => PairPlain(heap, hidden, xs[0], xs[1]);
    case MOVE =>
    case UNCHECKED_DOWNCAST_VALUE =>
    case _ =>
  }

  lemma PairPlain(heap: Heap, hidden: set<Address>, a: Value, b: Value)
    requires Plain(heap, hidden, a) && Plain(heap, hidden, b)
    ensures Plain(heap, hidden, SlotReference(a, b))
  {
  }

  lemma NullPlain(hidden: set<Address>)
    ensures forall heap: Heap :: Plain(heap, hidden, Null)
  {
  }

  lemma ReplyHides(rt: Runtime, op: Opcode, xs: seq<Value>, heap: Heap, tape: Tape, hidden: set<Address>, rest: Tape)
    requires WellBehaved(rt) && hidden !! rt.roots && MemoryRelated(heap, hidden, heap - hidden)
             && AllPlain(heap, hidden, xs)
    requires !IsQuiet(op) && !op.ALLOCA_WITH_VALUE? && Primitive(rt, op, xs, heap, tape).Done?
    ensures HidesIn(heap, hidden, Primitive(rt, op, xs, heap, tape),
                    Primitive(rt, op, xs, heap - hidden, Taken(op, tape, hidden) + rest), rest)
    ensures |tape| > 0 && Primitive(rt, op, xs, heap, tape).tape == tape[1..]
  {
    hide Avoids, Closed, HeapClosed, MakesNoPointers, LoadThrough, SlotAt, SlotAtPut, StoreThrough;
    assert AllClosed(heap, xs) && AllAvoid(hidden, xs);
    var v, after := tape[0].value, tape[0].heap;
    assert RepliesClosed(rt, op, xs, heap, v, after) && RepliesConfined(rt, op, xs, heap, v, after, hidden);
    assert (Taken(op, tape, hidden) + rest)[1..] == rest;
    assert hidden <= heap.Keys;
  }

  /** Instructions that fall through do the same with hidden boxes as without them. */
  lemma PrimitiveHides(rt: Runtime, op: Opcode, xs: seq<Value>, heap: Heap, tape: Tape, hidden: set<Address>,
                       rest: Tape)
    requires WellBehaved(rt) && hidden !! rt.roots && MemoryRelated(heap, hidden, heap - hidden)
             && AllPlain(heap, hidden, xs)
    requires Primitive(rt, op, xs, heap, tape).Done?
    ensures HidesIn(heap, hidden, Primitive(rt, op, xs, heap, tape),
                    Primitive(rt, op, xs, heap - hidden, Taken(op, tape, hidden) + rest), rest)
    ensures Primitive(rt, op, xs, heap, tape).tape == if IsQuiet(op) then tape
            else (if |tape| > 0 then tape[1..] else [])
  {
    if IsQuiet(op) {
      assert Taken(op, tape, hidden) + rest == rest;
      QuietHides(rt, op, xs, heap, tape, hidden, rest);
    } else if op.ALLOCA_WITH_VALUE? {
      assert HidesIn(heap, hidden, Primitive(rt, ALLOCA_WITH_VALUE, xs, heap, tape),
                Primitive(rt, ALLOCA_WITH_VALUE, xs, heap - hidden, Taken(ALLOCA_WITH_VALUE, tape, hidden)
                          + rest), rest)
             && |tape| > 0 && Primitive(rt, ALLOCA_WITH_VALUE, xs, heap, tape).tape == tape[1..] by {
        var a := tape[0].address;
        assert (Taken(ALLOCA_WITH_VALUE, tape, hidden) + rest)[1..] == rest;
        WriteHides(heap, hidden, a, [xs[1]]);
        assert Plain(heap[a := [xs[1]]], hidden, xs[0]);
      }
    } else {
      ReplyHides(rt, op, xs, heap, tape, hidden, rest);
    }
  }
}
