/**
 What the interpreter does with the bytes of each instruction, in terms of the bytes, the vectors and the memory only:
 opcode numbers, little-endian operand words, vectors in their low two bits.
 */
module InstructionSet {
  import opened Values
  import opened Instructions
  import opened ListMachine
  import opened Encoding
  import opened ByteMachine

  // An instruction in front of the program counter.

  /** The opcode, and behind it the words: two bytes each, the low one first, in two's complement. */
  predicate Fetches(p: ByteProgram, m: ByteMachine, opcode: int, words: seq<int>) {
    && m.extension == 0 && m.pc + 1 + 2 * |words| <= |p.bytes| && p.bytes[m.pc] == opcode
    && forall j :: 0 <= j < |words| ==>
         var low: int, high: int := p.bytes[m.pc + 1 + 2 * j], p.bytes[m.pc + 2 + 2 * j];
         words[j] == if high < 128 then low + 256 * high else low + 256 * high - 65536
  }

  function VectorNumber(p: ByteProgram, m: ByteMachine, number: int): seq<Value> {
    match number
    case 0 => p.arguments
    case 1 => p.captures
    case 2 => p.literals
    case _ => m.locals
  }

  /** The word names a place of a vector, and that holds the value. */
  predicate Gives(p: ByteProgram, m: ByteMachine, word: int, v: Value) {
    var vector := VectorNumber(p, m, word % 4);
    0 <= word && word / 4 < |vector| && vector[word / 4] == v
  }

  predicate AllGive(p: ByteProgram, m: ByteMachine, words: seq<int>, vs: seq<Value>) {
    |words| == |vs| && forall j :: 0 <= j < |words| ==> Gives(p, m, words[j], vs[j])
  }

  /** The word names a local; a negative one discards the result. */
  predicate Receives(m: ByteMachine, word: int) {
    word % 4 == 3 && word / 4 < |m.locals|
  }

  /** The machine behind an instruction with so many words that has the result v. */
  function Behind(m: ByteMachine, words: nat, d: int, v: Value): ByteMachine
    requires Receives(m, d)
  {
    ByteMachine(m.pc + 1 + 2 * words, 0, if d < 0 then m.locals else m.locals[d / 4 := v], m.heap, m.tape)
  }

  /** The slot of a type slot; anything else stands for the first one. */
  predicate Indexes(slot: Value, i: nat) {
    if slot.TypeSlot? then slot.index == i else i == 0
  }

  /** What is in a slot: objects have them in memory, immediates in themselves, pointers have none. */
  predicate HasSlot(rt: Runtime, heap: Heap, t: Value, i: nat, v: Value) {
    match t
    case Object(a) => a in heap && i < |heap[a]| && heap[a][i] == v
    case Box(_, _) => false
    case SlotReference(_, _) => false
    case _ => v == rt.immediateSlot(t, i)
  }

  /** What a pointer leads to: a box to its content, a slot reference to the slot, some values to themselves. */
  predicate LeadsTo(rt: Runtime, heap: Heap, pointer: Value, v: Value) {
    match pointer
    case Null => false
    case Box(a, _) => a in heap && heap[a] == [v]
    case SlotReference(t, slot) => HasSlot(rt, heap, t, if slot.TypeSlot? then slot.index else 0, v)
    case _ => rt.pointsToItself(pointer) && v == pointer
  }

  lemma WordMeans(word: int)
    ensures 0 <= word ==> DecodeVector(word) == In([Arguments, Captures, Literals, Locals][word % 4], word / 4)
    ensures word < 0 ==> DecodeVector(word) == Missing
  {
  }

  lemma Decodes(p: ByteProgram, m: ByteMachine, opcode: int, words: seq<int>)
    requires Fetches(p, m, opcode, words) && opcode != 0x1F
    requires |words| == (if opcode < 0x40 then opcode / 16
                         else if opcode / 16 == 14 then 2 * (opcode % 16) + 2
                         else opcode % 16 + ImplicitTable(opcode / 16))
    ensures DecodeAt(p.bytes, m.pc, m.extension, REGISTER_FILE_SIZE)
            == Some(Decoded(if opcode < 0x40 then opcode else opcode - opcode % 16, words,
                            if opcode / 16 == 14 then opcode % 16 else 0, m.pc + 1 + 2 * |words|))
  {
    var d := DecodeAt(p.bytes, m.pc, m.extension, REGISTER_FILE_SIZE);
    assert |words| <= 64;
    assert d.value.words == words;
  }

  lemma SourcesGiven(p: ByteProgram, m: ByteMachine, words: seq<int>, xs: seq<Value>)
    requires AllGive(p, m, words, xs)
    ensures AllReadable(Pools(p), DecodeSources(words), m.locals)
    ensures ReadAll(Pools(p), DecodeSources(words), m.locals) == xs
  {
    hide DecodeVector;
    var sources := DecodeSources(words);
    forall j | 0 <= j < |words|
      ensures Readable(Pools(p), sources[j], m.locals) && Read(Pools(p), sources[j], m.locals) == xs[j]
    {
      assert Gives(p, m, words[j], xs[j]);
      WordMeans(words[j]);
    }
  }

  /** The words between destination and displacements give the operands. */
  lemma Executes(p: ByteProgram, m: ByteMachine, opcode: int, words: seq<int>, op: Opcode, xs: seq<Value>)
    returns (d: Decoded)
    requires Fetches(p, m, opcode, words) && opcode != 0x1F
    requires |words| == (if opcode < 0x40 then opcode / 16
                         else if opcode / 16 == 14 then 2 * (opcode % 16) + 2
                         else opcode % 16 + ImplicitTable(opcode / 16))
    requires OpcodeOf(if opcode < 0x40 then opcode else opcode - opcode % 16) == Some(op)
    requires var offsets := OffsetsOf(op, if opcode / 16 == 14 then opcode % 16 else 0);
             && DestinationCount(op) + offsets <= |words|
             && (DestinationCount(op) == 1 ==> Receives(m, words[0]))
             && AllGive(p, m, words[DestinationCount(op)..|words| - offsets], xs)
    ensures d.words == words && d.next == m.pc + 1 + 2 * |words|
    ensures var offsets := OffsetsOf(op, if opcode / 16 == 14 then opcode % 16 else 0);
            && (DestinationCount(op) == 1 ==> ValidDestination(words[0], |m.locals|))
            && ByteStep(p, m)
               == Commit(m, d, DestinationCount(op), offsets, Execute(p.runtime, op, xs, m.heap, m.tape))
  {
    hide Execute, DecodeAt, OpcodeOf, Commit, Fetches, AllGive, AllReadable, ReadAll, DecodeSources, Pools;
    Decodes(p, m, opcode, words);
    d := DecodeAt(p.bytes, m.pc, m.extension, REGISTER_FILE_SIZE).value;
    var destinations, offsets := DestinationCount(op), OffsetsOf(op, d.caseCount);
    var middle := words[destinations..|words| - offsets];
    SourcesGiven(p, m, middle, xs);
    assert p.bytes[m.pc] == opcode by { FetchesParts(p, m, opcode, words); }
    if destinations == 1 { WordMeans(words[0]); }
  }

  lemma FetchesParts(p: ByteProgram, m: ByteMachine, opcode: int, words: seq<int>)
    requires Fetches(p, m, opcode, words)
    ensures m.pc < |p.bytes| && p.bytes[m.pc] == opcode && m.extension == 0
  {
  }

  // Moves.

  /** MOVE and UNCHECKED_DOWNCAST_VALUE copy an operand. */
  lemma CopyRound(p: ByteProgram, m: ByteMachine, d: int, x: int, y: int, v: Value, t: Value)
    requires Receives(m, d) && Gives(p, m, y, v)
    ensures Fetches(p, m, 0x21, [d, y]) ==> ByteStep(p, m) == Going(Behind(m, 2, d, v))
    ensures Fetches(p, m, 0x33, [d, x, y]) && Gives(p, m, x, t) ==> ByteStep(p, m) == Going(Behind(m, 3, d, v))
  {
    hide Fetches, Gives, ByteStep;
    WordMeans(d);
    if Fetches(p, m, 0x21, [d, y]) {
      assert [d, y][1..2] == [y];
      var e := Executes(p, m, 0x21, [d, y], MOVE, [v]);
    }
    if Fetches(p, m, 0x33, [d, x, y]) && Gives(p, m, x, t) {
      assert [d, x, y][1..3] == [x, y];
      var e := Executes(p, m, 0x33, [d, x, y], UNCHECKED_DOWNCAST_VALUE, [t, v]);
    }
  }

  // Slots.

  /** SLOT_AT reads the slot that the type slot names, if there is one. */
  lemma SlotAtRound(p: ByteProgram, m: ByteMachine, d: int, x: int, y: int, t: Value, slot: Value, i: nat, v: Value)
    requires Fetches(p, m, 0x36, [d, x, y]) && Receives(m, d)
    requires Gives(p, m, x, t) && Gives(p, m, y, slot) && Indexes(slot, i)
    ensures HasSlot(p.runtime, m.heap, t, i, v) ==> ByteStep(p, m) == Going(Behind(m, 3, d, v))
    ensures (forall w :: !HasSlot(p.runtime, m.heap, t, i, w)) ==> ByteStep(p, m) == Stopped(Failed)
  {
    hide Fetches, Gives, ByteStep;
    WordMeans(d);
    assert [d, x, y][1..3] == [x, y];
    SlotIsThere(p.runtime, m.heap, t, slot, i, v);
    hide HasSlot, SlotAt;
    var e := Executes(p, m, 0x36, [d, x, y], SLOT_AT, [t, slot]);
  }

  lemma SlotIsThere(rt: Runtime, heap: Heap, t: Value, slot: Value, i: nat, v: Value)
    requires Indexes(slot, i)
    ensures HasSlot(rt, heap, t, i, v) ==> SlotAt(rt, heap, t, slot) == Some(v)
    ensures (forall w :: !HasSlot(rt, heap, t, i, w)) ==> SlotAt(rt, heap, t, slot) == None
  {
    if SlotAt(rt, heap, t, slot).Some? { assert HasSlot(rt, heap, t, i, SlotAt(rt, heap, t, slot).value); }
  }

  /** SLOT_AT_PUT writes that slot of an object and no other. */
  lemma SlotAtPutRound(p: ByteProgram, m: ByteMachine, x: int, y: int, z: int, t: Value, slot: Value, i: nat, v: Value)
    requires Fetches(p, m, 0x38, [x, y, z])
    requires Gives(p, m, x, t) && Gives(p, m, y, slot) && Gives(p, m, z, v) && Indexes(slot, i)
    ensures ByteStep(p, m)
            == if t.Object? && t.address in m.heap && i < |m.heap[t.address]|
               then Going(m.(pc := m.pc + 7, extension := 0,
                             heap := m.heap[t.address := m.heap[t.address][i := v]]))
               else Stopped(Failed)
  {
    hide Fetches, Gives, ByteStep;
    assert [x, y, z][0..3] == [x, y, z];
    var e := Executes(p, m, 0x38, [x, y, z], SLOT_AT_PUT, [t, slot, v]);
  }

  /** Reading a slot after writing one: the value written, if it is the same slot of the same object. */
  lemma SlotReadBack(p: ByteProgram, m: ByteMachine, x: int, y: int, z: int, a: Address, i: nat, v: Value,
                     d: int, x2: int, y2: int, b: Address, j: nat)
    requires Fetches(p, m, 0x38, [x, y, z])
    requires Gives(p, m, x, Object(a)) && Gives(p, m, y, TypeSlot(i)) && Gives(p, m, z, v)
    requires Fetches(p, m.(pc := m.pc + 7), 0x36, [d, x2, y2]) && Receives(m, d)
    requires Gives(p, m, x2, Object(b)) && Gives(p, m, y2, TypeSlot(j))
    requires a in m.heap && i < |m.heap[a]| && b in m.heap && j < |m.heap[b]|
    ensures var m1 := m.(pc := m.pc + 7, extension := 0, heap := m.heap[a := m.heap[a][i := v]]);
            ByteIterate(p, m, 2) == Going(Behind(m1, 3, d, if a == b && i == j then v else m.heap[b][j]))
  {
    hide ByteStep;
    var m1 := m.(pc := m.pc + 7, extension := 0, heap := m.heap[a := m.heap[a][i := v]]);
    SlotAtPutRound(p, m, x, y, z, Object(a), TypeSlot(i), i, v);
    SlotAtRound(p, m1, d, x2, y2, Object(b), TypeSlot(j), j, m1.heap[b][j]);
    assert ByteIterate(p, m, 2) == ByteIterate(p, m1, 1) == ByteStep(p, m1);
  }

  // Pointers.

  /** SLOT_REFERENCE_AT makes a pointer to the slot, and LOAD reads what a pointer leads to. */
  lemma LoadRound(p: ByteProgram, m: ByteMachine, d: int, x: int, y: int, t: Value, slot: Value, v: Value)
    requires Receives(m, d) && Gives(p, m, x, t)
    ensures Fetches(p, m, 0x37, [d, x, y]) && Gives(p, m, y, slot) ==>
              ByteStep(p, m) == Going(Behind(m, 3, d, SlotReference(t, slot)))
    ensures Fetches(p, m, 0x22, [d, x]) && LeadsTo(p.runtime, m.heap, t, v) ==>
              ByteStep(p, m) == Going(Behind(m, 2, d, v))
    ensures Fetches(p, m, 0x22, [d, x]) && (forall w :: !LeadsTo(p.runtime, m.heap, t, w)) ==>
              ByteStep(p, m) == Stopped(Failed)
  {
    hide Fetches, Gives, ByteStep;
    PointerLeads(p.runtime, m.heap, t, v);
    hide LeadsTo, LoadThrough;
    WordMeans(d);
    assert [d, x, y][1..3] == [x, y] && [d, x][1..2] == [x];
    if Fetches(p, m, 0x37, [d, x, y]) && Gives(p, m, y, slot) {
      var e := Executes(p, m, 0x37, [d, x, y], SLOT_REFERENCE_AT, [t, slot]);
    }
    if Fetches(p, m, 0x22, [d, x]) { var e := Executes(p, m, 0x22, [d, x], LOAD, [t]); }
  }

  lemma PointerLeads(rt: Runtime, heap: Heap, t: Value, v: Value)
    ensures LeadsTo(rt, heap, t, v) ==> LoadThrough(rt, heap, t) == Some(v)
    ensures (forall w :: !LeadsTo(rt, heap, t, w)) ==> LoadThrough(rt, heap, t) == None
  {
    if LoadThrough(rt, heap, t).Some? { assert LeadsTo(rt, heap, t, LoadThrough(rt, heap, t).value); }
  }

  /** STORE coerces to the pointer's type; a box gets the coerced value, a slot of an object the value itself. */
  lemma StoreRound(p: ByteProgram, m: ByteMachine, x: int, y: int, q: Value, v: Value)
    requires Fetches(p, m, 0x24, [x, y]) && Gives(p, m, x, q) && Gives(p, m, y, v)
    ensures ByteStep(p, m)
            == match q
               case Box(a, t) =>
                 if p.runtime.coerce(t, v).Some? && a in m.heap && |m.heap[a]| == 1
                 then Going(m.(pc := m.pc + 5, extension := 0, heap := m.heap[a := [p.runtime.coerce(t, v).value]]))
                 else Stopped(Failed)
               case SlotReference(t, slot) =>
                 var i := if slot.TypeSlot? then slot.index else 0;
                 if p.runtime.coerce(slot, v).Some? && t.Object? && t.address in m.heap && i < |m.heap[t.address]|
                 then Going(m.(pc := m.pc + 5, extension := 0,
                               heap := m.heap[t.address := m.heap[t.address][i := v]]))
                 else Stopped(Failed)
               case _ => Stopped(Failed)
  {
    hide Fetches, Gives, ByteStep;
    assert [x, y][0..2] == [x, y];
    var e := Executes(p, m, 0x24, [x, y], STORE, [q, v]);
  }

  lemma RefSlotEffects(rt: Runtime, heap: Heap, tape: Tape, q: Value, a: Address, i: nat, v: Value)
    requires LeadsTo(rt, heap, q, Object(a)) && a in heap && i < |heap[a]|
    ensures Execute(rt, REF_SLOT_AT, [q, TypeSlot(i)], heap, tape) == Fall(heap[a][i], heap, tape)
    ensures Execute(rt, REF_SLOT_REFERENCE_AT, [q, TypeSlot(i)], heap, tape)
            == Fall(SlotReference(Object(a), TypeSlot(i)), heap, tape)
    ensures Execute(rt, REF_SLOT_AT_PUT, [q, TypeSlot(i), v], heap, tape)
            == Fall(Null, heap[a := heap[a][i := v]], tape)
  {
    PointerLeads(rt, heap, q, Object(a));
    hide LoadThrough, LeadsTo;
  }

  /** The slot instructions on a pointer act on the object that it leads to. */
  lemma RefSlotRound(p: ByteProgram, m: ByteMachine, d: int, x: int, y: int, z: int, q: Value, a: Address, i: nat,
                     v: Value)
    requires LeadsTo(p.runtime, m.heap, q, Object(a)) && a in m.heap && i < |m.heap[a]|
    ensures Fetches(p, m, 0x39, [d, x, y]) && Receives(m, d) && Gives(p, m, x, q) && Gives(p, m, y, TypeSlot(i)) ==>
              ByteStep(p, m) == Going(Behind(m, 3, d, m.heap[a][i]))
    ensures Fetches(p, m, 0x3A, [d, x, y]) && Receives(m, d) && Gives(p, m, x, q) && Gives(p, m, y, TypeSlot(i)) ==>
              ByteStep(p, m) == Going(Behind(m, 3, d, SlotReference(Object(a), TypeSlot(i))))
    ensures Fetches(p, m, 0x3B, [x, y, z]) && Gives(p, m, x, q) && Gives(p, m, y, TypeSlot(i)) && Gives(p, m, z, v) ==>
              ByteStep(p, m) == Going(m.(pc := m.pc + 7, extension := 0, heap := m.heap[a := m.heap[a][i := v]]))
  {
    hide LeadsTo, Execute, Fetches, Gives, ByteStep;
    RefSlotEffects(p.runtime, m.heap, m.tape, q, a, i, v);
    assert [d, x, y][1..3] == [x, y] && [x, y, z][0..3] == [x, y, z];
    if Gives(p, m, x, q) && Gives(p, m, y, TypeSlot(i)) {
      assert AllGive(p, m, [x, y], [q, TypeSlot(i)]);
      assert Gives(p, m, z, v) ==> AllGive(p, m, [x, y, z], [q, TypeSlot(i), v]);
      hide AllGive;
      if Fetches(p, m, 0x39, [d, x, y]) && Receives(m, d) {
        WordMeans(d);
        var e := Executes(p, m, 0x39, [d, x, y], REF_SLOT_AT, [q, TypeSlot(i)]);
      }
      if Fetches(p, m, 0x3A, [d, x, y]) && Receives(m, d) {
        WordMeans(d);
        var e := Executes(p, m, 0x3A, [d, x, y], REF_SLOT_REFERENCE_AT, [q, TypeSlot(i)]);
      }
      if Fetches(p, m, 0x3B, [x, y, z]) && Gives(p, m, z, v) {
        var e := Executes(p, m, 0x3B, [x, y, z], REF_SLOT_AT_PUT, [q, TypeSlot(i), v]);
      }
    }
  }

  /** ALLOCA_WITH_VALUE makes a box of the pointer type at the address that the environment answers. */
  lemma AllocaRound(p: ByteProgram, m: ByteMachine, d: int, x: int, y: int, t: Value, v: Value, a: Address)
    requires Fetches(p, m, 0x30, [d, x, y]) && Receives(m, d) && Gives(p, m, x, t) && Gives(p, m, y, v)
    requires |m.tape| > 0 && m.tape[0] == Placed(a) && a !in m.heap
    ensures ByteStep(p, m) == Going(Behind(m, 3, d, Box(a, t)).(heap := m.heap[a := [v]], tape := m.tape[1..]))
  {
    hide Fetches, Gives, ByteStep;
    WordMeans(d);
    assert [d, x, y][1..3] == [x, y];
    var e := Executes(p, m, 0x30, [d, x, y], ALLOCA_WITH_VALUE, [t, v]);
  }

  // Control.

  /** Displacements count from the end of the instruction; the conditional jumps are each other's complement. */
  lemma JumpRounds(p: ByteProgram, m: ByteMachine, x: int, offset: int, v: Value)
    ensures Fetches(p, m, 0x11, [offset]) && m.pc + 3 + offset >= 0 ==>
              ByteStep(p, m) == Going(m.(pc := m.pc + 3 + offset, extension := 0))
    ensures Fetches(p, m, 0x25, [x, offset]) && Gives(p, m, x, v) && m.pc + 5 + offset >= 0 ==>
              ByteStep(p, m) == Going(m.(pc := if v == Boolean(true) then m.pc + 5 + offset else m.pc + 5,
                                         extension := 0))
    ensures Fetches(p, m, 0x26, [x, offset]) && Gives(p, m, x, v) && m.pc + 5 + offset >= 0 ==>
              ByteStep(p, m) == Going(m.(pc := if v == Boolean(true) then m.pc + 5 else m.pc + 5 + offset,
                                         extension := 0))
    ensures Fetches(p, m, 0x10, [x]) && Gives(p, m, x, v) ==> ByteStep(p, m) == Stopped(Returned(v, m.heap, m.tape))
  {
    hide Fetches, Gives, ByteStep;
    var t, h := m.tape, m.heap;
    assert Execute(p.runtime, JUMP, [], h, t) == Goto(0) && Execute(p.runtime, RETURN, [v], h, t) == Leave(v);
    assert Execute(p.runtime, JUMP_IF_TRUE, [v], h, t) == if v == Boolean(true) then Goto(0) else Fall(Null, h, t);
    assert Execute(p.runtime, JUMP_IF_FALSE, [v], h, t) == if v == Boolean(true) then Fall(Null, h, t) else Goto(0);
    hide Execute;
    assert [offset][0..0] == [] && [x, offset][0..1] == [x] && [x][0..1] == [x];
    if Fetches(p, m, 0x11, [offset]) { var e := Executes(p, m, 0x11, [offset], JUMP, []); }
    if Gives(p, m, x, v) {
      if Fetches(p, m, 0x25, [x, offset]) { var e := Executes(p, m, 0x25, [x, offset], JUMP_IF_TRUE, [v]); }
      if Fetches(p, m, 0x26, [x, offset]) { var e := Executes(p, m, 0x26, [x, offset], JUMP_IF_FALSE, [v]); }
      if Fetches(p, m, 0x10, [x]) { var e := Executes(p, m, 0x10, [x], RETURN, [v]); }
    }
  }

  /** CASE_JUMP goes by the displacement of the first key that is identical or equal, or else by the last one. */
  lemma CaseJumpRound(p: ByteProgram, m: ByteMachine, n: nat, words: seq<int>, v: Value, keys: seq<Value>, k: nat)
    requires 0 < n < 16 && |words| == 2 * n + 2 && Fetches(p, m, 0xE0 + n, words)
    requires Gives(p, m, words[0], v) && AllGive(p, m, words[1..n + 1], keys) && k <= n
    requires forall i :: 0 <= i < k ==> keys[i] != v && !p.runtime.equals(v, keys[i])
    requires k < n ==> keys[k] == v || p.runtime.equals(v, keys[k])
    requires m.pc + 1 + 2 * |words| + words[1 + n + k] >= 0
    ensures ByteStep(p, m) == Going(m.(pc := m.pc + 1 + 2 * |words| + words[1 + n + k], extension := 0))
  {
    hide Fetches, Gives, ByteStep;
    assert ([v] + keys)[1..] == keys;
    forall j | 0 <= j < n + 1 ensures Gives(p, m, words[0..n + 1][j], ([v] + keys)[j]) {
      if j > 0 { assert words[1..n + 1][j - 1] == words[j]; }
    }
    var e := Executes(p, m, 0xE0 + n, words, CASE_JUMP, [v] + keys);
  }

  // The environment.

  /** Calls, sends and constructors; the low digit of an opcode from 40h on announces the number of its words. */
  predicate Asks(opcode: int, words: nat, op: Opcode) {
    match op
    case LOAD_SYMBOL_VALUE_BINDING => opcode == 0x23 && words == 2
    case COERCE_VALUE => opcode == 0x31 && words == 3
    case DOWNCAST_VALUE => opcode == 0x32 && words == 3
    case MAKE_ASSOCIATION => opcode == 0x34 && words == 3
    case CALL => opcode / 16 == 0x4 && words == opcode % 16 + 2
    case UNCHECKED_CALL => opcode / 16 == 0x5 && words == opcode % 16 + 2
    case SEND => opcode / 16 == 0x6 && words == opcode % 16 + 3
    case SEND_WITH_LOOKUP => opcode / 16 == 0x7 && words == opcode % 16 + 4
    case MAKE_ARRAY_WITH_ELEMENTS => opcode / 16 == 0x8 && words == opcode % 16 + 1
    case MAKE_BYTE_ARRAY_WITH_ELEMENTS => opcode / 16 == 0x9 && words == opcode % 16 + 1
    case MAKE_CLOSURE_WITH_CAPTURES => opcode / 16 == 0xA && words == opcode % 16 + 2
    case MAKE_DICTIONARY_WITH_ELEMENTS => opcode / 16 == 0xB && words == opcode % 16 + 1
    case _ => false
  }

  lemma AskedByte(opcode: int, words: nat, op: Opcode)
    requires Asks(opcode, words, op)
    ensures 0x23 <= opcode <= 0xBF && (opcode < 0x40 ==> opcode / 16 == words)
    ensures opcode >= 0x40 ==> words == opcode % 16 + ImplicitTable(opcode / 16)
    ensures OpcodeOf(if opcode < 0x40 then opcode else opcode - opcode % 16) == Some(op)
    ensures DestinationCount(op) == 1 && OffsetsOf(op, 0) == 0 && words > 0
  {
    assert opcode - opcode % 16 == 16 * (opcode / 16);
  }

  lemma Asked(rt: Runtime, op: Opcode, xs: seq<Value>, heap: Heap, tape: Tape)
    requires op in {LOAD_SYMBOL_VALUE_BINDING, COERCE_VALUE, DOWNCAST_VALUE, MAKE_ASSOCIATION, CALL, UNCHECKED_CALL,
                    SEND, SEND_WITH_LOOKUP, MAKE_ARRAY_WITH_ELEMENTS, MAKE_BYTE_ARRAY_WITH_ELEMENTS,
                    MAKE_CLOSURE_WITH_CAPTURES, MAKE_DICTIONARY_WITH_ELEMENTS}
    ensures Execute(rt, op, xs, heap, tape)
            == if |tape| > 0 && tape[0].Replied? && rt.allows(op, xs, heap, tape[0].value, tape[0].heap)
               then Fall(tape[0].value, tape[0].heap, tape[1..]) else Crash
  {
  }

  /** The environment gets the operands in the order of the words, and its reply is the result. */
  lemma AskingRound(p: ByteProgram, m: ByteMachine, opcode: int, words: seq<int>, op: Opcode, xs: seq<Value>)
    requires Asks(opcode, |words|, op) && |words| > 0 && Fetches(p, m, opcode, words) && Receives(m, words[0])
    requires AllGive(p, m, words[1..], xs)
    ensures ByteStep(p, m)
            == if |m.tape| > 0 && m.tape[0].Replied?
                  && p.runtime.allows(op, xs, m.heap, m.tape[0].value, m.tape[0].heap)
               then Going(Behind(m, |words|, words[0], m.tape[0].value)
                          .(heap := m.tape[0].heap, tape := m.tape[1..]))
               else Stopped(Failed)
  {
    hide Fetches, Gives, ByteStep;
    hide Execute;
    AskedByte(opcode, |words|, op);
    Asked(p.runtime, op, xs, m.heap, m.tape);
    hide Asks;
    WordMeans(words[0]);
    assert words[1..|words|] == words[1..];
    var e := Executes(p, m, opcode, words, op, xs);
  }
}
