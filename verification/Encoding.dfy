/** Bytes of instructions: opcodes, sixteen-bit operands, program counters and displacements. */
module Encoding {
  import opened Values
  import opened Instructions

  const FIRST_VARIABLE := 0x40
  const COUNT_EXTENSION_CODE := 0x1F
  const REGISTER_FILE_SIZE := 64

  function Code(op: Opcode): (code: Byte)
  {
    match op
    case NOP => 0x00
    case BREAKPOINT => 0x01
    case UNREACHABLE => 0x02
    case RETURN => 0x10
    case JUMP => 0x11
    case COUNT_EXTENSION => COUNT_EXTENSION_CODE
    case MOVE => 0x21
    case LOAD => 0x22
    case LOAD_SYMBOL_VALUE_BINDING => 0x23
    case STORE => 0x24
    case JUMP_IF_TRUE => 0x25
    case JUMP_IF_FALSE => 0x26
    case SET_DEBUG_VALUE => 0x27
    case ALLOCA_WITH_VALUE => 0x30
    case COERCE_VALUE => 0x31
    case DOWNCAST_VALUE => 0x32
    case UNCHECKED_DOWNCAST_VALUE => 0x33
    case MAKE_ASSOCIATION => 0x34
    case SLOT_AT => 0x36
    case SLOT_REFERENCE_AT => 0x37
    case SLOT_AT_PUT => 0x38
    case REF_SLOT_AT => 0x39
    case REF_SLOT_REFERENCE_AT => 0x3A
    case REF_SLOT_AT_PUT => 0x3B
    case CALL => 0x40
    case UNCHECKED_CALL => 0x50
    case SEND => 0x60
    case SEND_WITH_LOOKUP => 0x70
    case MAKE_ARRAY_WITH_ELEMENTS => 0x80
    case MAKE_BYTE_ARRAY_WITH_ELEMENTS => 0x90
    case MAKE_CLOSURE_WITH_CAPTURES => 0xA0
    case MAKE_DICTIONARY_WITH_ELEMENTS => 0xB0
    case CASE_JUMP => 0xE0
  }

  /** The opcode of a standard code; codes without a handler have none. */
  function OpcodeOf(code: int): Option<Opcode> {
    match code
    case 0x00 => Some(NOP)
    case 0x01 => Some(BREAKPOINT)
    case 0x02 => Some(UNREACHABLE)
    case 0x10 => Some(RETURN)
    case 0x11 => Some(JUMP)
    case 0x1F => Some(COUNT_EXTENSION)
    case 0x21 => Some(MOVE)
    case 0x22 => Some(LOAD)
    case 0x23 => Some(LOAD_SYMBOL_VALUE_BINDING)
    case 0x24 => Some(STORE)
    case 0x25 => Some(JUMP_IF_TRUE)
    case 0x26 => Some(JUMP_IF_FALSE)
    case 0x27 => Some(SET_DEBUG_VALUE)
    case 0x30 => Some(ALLOCA_WITH_VALUE)
    case 0x31 => Some(COERCE_VALUE)
    case 0x32 => Some(DOWNCAST_VALUE)
    case 0x33 => Some(UNCHECKED_DOWNCAST_VALUE)
    case 0x34 => Some(MAKE_ASSOCIATION)
    case 0x36 => Some(SLOT_AT)
    case 0x37 => Some(SLOT_REFERENCE_AT)
    case 0x38 => Some(SLOT_AT_PUT)
    case 0x39 => Some(REF_SLOT_AT)
    case 0x3A => Some(REF_SLOT_REFERENCE_AT)
    case 0x3B => Some(REF_SLOT_AT_PUT)
    case 0x40 => Some(CALL)
    case 0x50 => Some(UNCHECKED_CALL)
    case 0x60 => Some(SEND)
    case 0x70 => Some(SEND_WITH_LOOKUP)
    case 0x80 => Some(MAKE_ARRAY_WITH_ELEMENTS)
    case 0x90 => Some(MAKE_BYTE_ARRAY_WITH_ELEMENTS)
    case 0xA0 => Some(MAKE_CLOSURE_WITH_CAPTURES)
    case 0xB0 => Some(MAKE_DICTIONARY_WITH_ELEMENTS)
    case 0xE0 => Some(CASE_JUMP)
    case _ => None
  }

  lemma OpcodeRoundTrip(op: Opcode)
    ensures OpcodeOf(Code(op)) == Some(op)
    ensures Code(op) >= FIRST_VARIABLE <==> ImplicitCount(op).Some?
    ensures Code(op) >= FIRST_VARIABLE ==> Code(op) % 16 == 0
  {
  }

  // Sixteen-bit numbers.

  function Wrap16(v: int): (w: int)
    ensures -32768 <= w < 32768
    ensures -32768 <= v < 32768 ==> w == v
  {
    (v + 32768) % 65536 - 32768
  }

  function Encode16(v: int): (bytes: seq<Byte>)
    ensures |bytes| == 2
  {
    [v % 256, v / 256 % 256]
  }

  function Decode16(low: Byte, high: Byte): (v: int)
    ensures -32768 <= v < 32768
  {
    var u := low + 256 * high;
    if u < 32768 then u else u - 65536
  }

  /** Little-endian two's complement round trip; other numbers wrap. */
  lemma RoundTrip16(v: int)
    ensures Decode16(Encode16(v)[0], Encode16(v)[1]) == Wrap16(v)
  {
    var q := v / 256;
    assert v == 256 * q + v % 256;
    assert q == 256 * (q / 256) + q % 256;
    var k := q / 256;
    assert v == 65536 * k + (q % 256 * 256 + v % 256);
    var u := q % 256 * 256 + v % 256;
    assert 0 <= u < 65536;
    if u < 32768 {
      assert Wrap16(v) == u by {
        assert (v + 32768) / 65536 == k;
      }
    } else {
      assert Wrap16(v) == (u - 65536) by {
        assert (v + 32768) / 65536 == (k + 1);
      }
    }
  }

  // Vector operands: the vector in the low two bits, the index above.

  function VectorCode(vector: Vector): (code: int)
    ensures 0 <= code < 4
  {
    match vector
    case Arguments => 0
    case Captures => 1
    case Literals => 2
    case Locals => 3
  }

  function VectorFrom(code: int): Vector {
    if code == 0 then Arguments else if code == 1 then Captures else if code == 2 then Literals else Locals
  }

  const INDEX_LIMIT := 8192

  /** Operands the encoding can hold. */
  predicate Representable(o: Operand) {
    o.Missing? || (o.In? && o.index < INDEX_LIMIT)
  }

  function EncodeVector(o: Operand): int
    requires o.Missing? || o.In?
  {
    if o.Missing? then -1 else Wrap16(4 * o.index + VectorCode(o.vector))
  }

  /** What a decoded word means: a negative index in the local vector is a missing destination. */
  function DecodeVector(word: int): Operand {
    if word / 4 < 0 then Missing else In(VectorFrom(word % 4), word / 4)
  }

  /** Fourteen signed bits of index are enough for every representable operand and for no other. */
  lemma VectorRoundTrip(o: Operand)
    requires o.Missing? || o.In?
    ensures DecodeVector(EncodeVector(o)) == o <==> Representable(o)
    ensures o.Missing? ==> EncodeVector(o) % 4 == VectorCode(Locals)
    ensures Representable(o) && o.In? ==>
              EncodeVector(o) / 4 == o.index && EncodeVector(o) % 4 == VectorCode(o.vector)
  {
    if o.In? {
      if !Representable(o) {
        assert EncodeVector(o) / 4 < 8192;
      }
    }
  }

  // Layout.

  /** Labels take no space. */
  function Size(item: Item): nat {
    if item.Label? then 0 else 1 + 2 * |item.operands|
  }

  /** The address of item i. */
  function PcOf(items: seq<Item>, i: nat): nat
    requires i <= |items|
  {
    if i == 0 then 0 else PcOf(items, i - 1) + Size(items[i - 1])
  }

  lemma {:induction false} PcGrows(items: seq<Item>, i: nat, j: nat)
    requires i <= j <= |items|
    ensures PcOf(items, i) <= PcOf(items, j)
    ensures i < j && items[i].Instruction? ==> PcOf(items, i) < PcOf(items, j)
  {
    if i < j { PcGrows(items, i, j - 1); }
  }

  /** A jump is relative to the end of its instruction. */
  function Delta(items: seq<Item>, i: nat, id: nat): int
    requires i < |items|
  {
    PcOf(items, Position(items, id)) - PcOf(items, i + 1)
  }

  function EncodeOperand(items: seq<Item>, i: nat, o: Operand): int
    requires i < |items|
  {
    match o
    case Missing => EncodeVector(o)
    case In(_, _) => EncodeVector(o)
    case To(id) => Wrap16(Delta(items, i, id))
    case Count(k) => Wrap16(k)
  }

  function OpcodeByte(op: Opcode, operandCount: nat): Byte {
    match ImplicitCount(op)
    case None => Code(op)
    case Some(k) =>
      if operandCount < k then Code(op)
      else Code(op) + (if op.CASE_JUMP? then (operandCount - k) / 2 % 16 else (operandCount - k) % 16)
  }

  function Words(items: seq<Item>, i: nat, os: seq<Operand>): (words: seq<int>)
    requires i < |items|
    ensures |words| == |os|
    ensures forall j :: 0 <= j < |os| ==> words[j] == EncodeOperand(items, i, os[j])
  {
    seq(|os|, j requires 0 <= j < |os| => EncodeOperand(items, i, os[j]))
  }

  function Flatten(words: seq<int>): (bytes: seq<Byte>)
    ensures |bytes| == 2 * |words|
  {
    if words == [] then [] else Flatten(words[..|words| - 1]) + Encode16(words[|words| - 1])
  }

  lemma {:induction false} FlattenAt(words: seq<int>, j: nat)
    requires j < |words|
    ensures Flatten(words)[2 * j] == Encode16(words[j])[0] && Flatten(words)[2 * j + 1] == Encode16(words[j])[1]
  {
    if j < |words| - 1 { FlattenAt(words[..|words| - 1], j); }
  }

  function EncodeItem(items: seq<Item>, i: nat): (bytes: seq<Byte>)
    requires i < |items|
    ensures |bytes| == Size(items[i])
  {
    if items[i].Label? then []
    else [OpcodeByte(items[i].opcode, |items[i].operands|)] + Flatten(Words(items, i, items[i].operands))
  }

  /** A source operand must be there. */
  predicate HasSources(item: Item) {
    item.Instruction? ==>
      forall j :: DestinationCount(item.opcode) <= j < |item.operands| ==> !item.operands[j].Missing?
  }

  function AssembleFirst(items: seq<Item>, n: nat): (bytes: seq<Byte>)
    requires n <= |items|
    ensures |bytes| == PcOf(items, n)
  {
    if n == 0 then [] else AssembleFirst(items, n - 1) + EncodeItem(items, n - 1)
  }

  function Assemble(items: seq<Item>): Attempt<seq<Byte>> {
    if forall i :: 0 <= i < |items| ==> HasSources(items[i])
    then Success(AssembleFirst(items, |items|))
    else Failure("Invalid missing non-destination operand.")
  }

  /** The bytes of item i stand at its address. */
  lemma {:induction false} AssembledAt(items: seq<Item>, n: nat, i: nat)
    requires i < n <= |items|
    ensures PcOf(items, i) + Size(items[i]) <= PcOf(items, n)
    ensures AssembleFirst(items, n)[PcOf(items, i)..PcOf(items, i) + Size(items[i])] == EncodeItem(items, i)
  {
    hide EncodeItem, Size;
    if i < n - 1 {
      AssembledAt(items, n - 1, i);
      assert (AssembleFirst(items, n - 1) + EncodeItem(items, n - 1))[PcOf(items, i)..(PcOf(items, i) + Size(items[i]))]
             == AssembleFirst(items, n - 1)[PcOf(items, i)..(PcOf(items, i) + Size(items[i]))];
    }
  }
}
