/** The bytecode interpreter: fetch, decode and execute over assembled bytes. */
module ByteMachine {
  import opened Values
  import opened Instructions
  import opened ListMachine
  import opened Encoding

  /** Operands that the opcode byte does not count, by its high nibble. */
  function ImplicitTable(nibble: int): nat {
    match nibble
    case 4 => 2
    case 5 => 2
    case 6 => 3
    case 7 => 4
    case 8 => 1
    case 9 => 1
    case 10 => 2
    case 11 => 1
    case 12 => 1
    case 14 => 2
    case _ => 0
  }

  const CASE_JUMP_CODE := 0xE0

  datatype Decoded = Decoded(code: int, words: seq<int>, caseCount: nat, next: nat)

  /** The number of variable items that an opcode byte and the extensions before it announce. */
  function VariableCount(opcode: Byte, extension: nat): nat {
    if opcode >= FIRST_VARIABLE then 16 * extension + opcode % 16 else 0
  }

  function StandardCode(opcode: Byte): int {
    if opcode >= FIRST_VARIABLE then opcode - opcode % 16 else opcode
  }

  function OperandCount(opcode: Byte, extension: nat): nat {
    if opcode >= FIRST_VARIABLE then
      var n := VariableCount(opcode, extension);
      (if StandardCode(opcode) == CASE_JUMP_CODE then 2 * n else n) + ImplicitTable(opcode / 16)
    else opcode / 16
  }

  /** Decodes the instruction at pc; at most `limit` operands fit into the register file. */
  function DecodeAt(bytes: seq<Byte>, pc: nat, extension: nat, limit: nat): (d: Option<Decoded>)
    requires pc < |bytes|
    ensures d.Some? ==> |d.value.words| == OperandCount(bytes[pc], extension) && pc < d.value.next <= |bytes|
  {
    var count := OperandCount(bytes[pc], extension);
    if count > limit || pc + 1 + 2 * count > |bytes| then None
    else
      Some(Decoded(StandardCode(bytes[pc]),
                   seq(count, j requires 0 <= j < count => Decode16(bytes[pc + 1 + 2 * j], bytes[pc + 2 + 2 * j])),
                   if StandardCode(bytes[pc]) == CASE_JUMP_CODE then VariableCount(bytes[pc], extension) else 0,
                   pc + 1 + 2 * count))
  }

  /** The amount in a count extension. */
  function ExtensionAt(bytes: seq<Byte>, pc: nat): nat
    requires pc + 2 < |bytes|
  {
    var low: int, high: int := bytes[pc + 1], bytes[pc + 2];
    256 * high + low
  }

  // The interpreter.

  datatype ByteProgram = ByteProgram(bytes: seq<Byte>, arguments: seq<Value>, captures: seq<Value>,
                                     literals: seq<Value>, runtime: Runtime)

  datatype ByteMachine = ByteMachine(pc: nat, extension: nat, locals: seq<Value>, heap: Heap, tape: Tape)

  datatype ByteStatus = Going(machine: ByteMachine) | Stopped(status: Status)

  /** The vectors that operands index. */
  function Pools(p: ByteProgram): Program {
    Program([], p.arguments, p.captures, p.literals, p.runtime)
  }

  function OffsetsOf(op: Opcode, caseCount: nat): nat {
    caseCount + if IsJump(op) || op.CASE_JUMP? then 1 else 0
  }

  /** A destination word names the local vector; negative indices discard the result. */
  predicate ValidDestination(word: int, localCount: nat) {
    word % 4 == 3 && Writable(DecodeVector(word), localCount)
  }

  function DecodeSources(words: seq<int>): (os: seq<Operand>)
    ensures |os| == |words|
    ensures forall j :: 0 <= j < |os| ==> os[j] == DecodeVector(words[j])
  {
    seq(|words|, j requires 0 <= j < |words| => DecodeVector(words[j]))
  }

  /** Writes the result back, or goes where a displacement leads, or stops. */
  function Commit(m: ByteMachine, d: Decoded, destinations: nat, offsets: nat, effect: Effect): ByteStatus
    requires destinations + offsets <= |d.words|
    requires destinations == 1 ==> ValidDestination(d.words[0], |m.locals|)
  {
    match effect
    case Fall(v, h, t) =>
      Going(ByteMachine(d.next, 0, if destinations == 1 then Write(m.locals, DecodeVector(d.words[0]), v)
                        else m.locals, h, t))
    case Goto(k) =>
      if k < offsets && d.next + d.words[|d.words| - offsets + k] >= 0
      then Going(m.(pc := d.next + d.words[|d.words| - offsets + k], extension := 0))
      else Stopped(Failed)
    case Leave(v) => Stopped(Returned(v, m.heap, m.tape))
    case Crash => Stopped(Failed)
  }

  function ExecuteDecoded(p: ByteProgram, m: ByteMachine, op: Opcode, d: Decoded): ByteStatus {
    var destinations, offsets := DestinationCount(op), OffsetsOf(op, d.caseCount);
    if destinations + offsets > |d.words| then Stopped(Failed)
    else if destinations == 1 && !ValidDestination(d.words[0], |m.locals|) then Stopped(Failed)
    else
      var sources := DecodeSources(d.words[destinations..|d.words| - offsets]);
      if !AllReadable(Pools(p), sources, m.locals) then Stopped(Failed)
      else
        Commit(m, d, destinations, offsets,
               Execute(p.runtime, op, ReadAll(Pools(p), sources, m.locals), m.heap, m.tape))
  }

  /**
   One iteration of the interpreter's loop.  The extension of a count does not advance the program counter of the
   activation record, which the next iteration reads again.
   */
  function ByteStep(p: ByteProgram, m: ByteMachine): ByteStatus {
    if m.pc >= |p.bytes| then Stopped(Failed)
    else if p.bytes[m.pc] == COUNT_EXTENSION_CODE then
      if m.pc + 2 < |p.bytes|
      then Going(m.(extension := (65536 * m.extension + ExtensionAt(p.bytes, m.pc)) % 0x1_0000_0000_0000_0000))
      else Stopped(Failed)
    else
      match DecodeAt(p.bytes, m.pc, m.extension, REGISTER_FILE_SIZE)
      case None => Stopped(Failed)
      case Some(d) =>
        match OpcodeOf(d.code)
        case None => Stopped(Failed)
        case Some(op) => ExecuteDecoded(p, m, op, d)
  }

  function ByteIterate(p: ByteProgram, m: ByteMachine, n: nat): ByteStatus
    decreases n
  {
    if n == 0 then Going(m)
    else
      match ByteStep(p, m)
      case Going(next) => ByteIterate(p, next, n - 1)
      case stopped => stopped
  }

  ghost predicate ByteLeads(p: ByteProgram, m: ByteMachine, r: Status) {
    exists n: nat :: ByteIterate(p, m, n) == Stopped(r)
  }

  /** A count extension never gets anywhere in the interpreter. */
  lemma {:induction false} ExtensionLoops(p: ByteProgram, m: ByteMachine, n: nat)
    requires m.pc + 2 < |p.bytes| && p.bytes[m.pc] == COUNT_EXTENSION_CODE
    ensures ByteIterate(p, m, n).Going? && ByteIterate(p, m, n).machine.pc == m.pc
    decreases n
  {
    if n > 0 { ExtensionLoops(p, ByteStep(p, m).machine, n - 1); }
  }

  // Assembled lists.

  /** The instruction has as many operands as its opcode byte can say with this extension. */
  predicate HasArity(op: Opcode, operandCount: nat, extension: nat) {
    match ImplicitCount(op)
    case None => operandCount == Code(op) / 16
    case Some(k) =>
      && k <= operandCount && VariableItems(op, operandCount) / 16 == extension
      && (op.CASE_JUMP? ==> operandCount % 2 == 0)
  }

  lemma ArityDecodes(op: Opcode, operandCount: nat, extension: nat)
    requires HasArity(op, operandCount, extension) && op != COUNT_EXTENSION
    ensures var b := OpcodeByte(op, operandCount);
            && b != COUNT_EXTENSION_CODE && StandardCode(b) == Code(op) && OperandCount(b, extension) == operandCount
            && (op.CASE_JUMP? ==> VariableCount(b, extension) == VariableItems(op, operandCount))
            && (StandardCode(b) == CASE_JUMP_CODE <==> op.CASE_JUMP?)
  {
  }

  /** Decoding what was assembled for an instruction gives its opcode, its encoded operands and the next address. */
  lemma DecodesItem(items: seq<Item>, i: nat, extension: nat, limit: nat)
    requires i < |items| && items[i].Instruction? && items[i].opcode != COUNT_EXTENSION
    requires HasArity(items[i].opcode, |items[i].operands|, extension) && |items[i].operands| <= limit
    ensures var bytes, pc := AssembleFirst(items, |items|), PcOf(items, i);
            && pc < |bytes| && bytes[pc] != COUNT_EXTENSION_CODE
            && DecodeAt(bytes, pc, extension, limit)
               == Some(Decoded(Code(items[i].opcode), Words(items, i, items[i].operands),
                               if items[i].opcode.CASE_JUMP? then VariableItems(items[i].opcode,
                                                                                |items[i].operands|) else 0,
                               PcOf(items, i + 1)))
  {
    hide OpcodeByte, HasArity, AssembleFirst, Words, Code, VariableItems;
    hide PcOf, Size;
    var op, os := items[i].opcode, items[i].operands;
    var bytes, pc := AssembleFirst(items, |items|), PcOf(items, i);
    ArityDecodes(op, |os|, extension);
    ItemBytes(items, i);
    var words := Words(items, i, os);
    forall j | 0 <= j < |os| ensures Decode16(bytes[pc + 1 + 2 * j], bytes[pc + 2 + 2 * j]) == words[j] {
      hide AssembleFirst, Words, Encode16, EncodeOperand, PcOf;
      WordBytes(items, i, j);
      RoundTrip16(Words(items, i, items[i].operands)[j]);
      assert Wrap16(EncodeOperand(items, i, items[i].operands[j])) == EncodeOperand(items, i, items[i].operands[j]);
    }
    assert DecodeAt(bytes, pc, extension, limit)
           == Some(Decoded(StandardCode(bytes[pc]), words,
                           if StandardCode(bytes[pc]) == CASE_JUMP_CODE
                             then VariableCount(bytes[pc], extension) else 0,
                           pc + 1 + 2 * |words|)) by {
      assert DecodeAt(bytes, pc, extension, limit).value.words == words;
    }
  }

  /** The opcode byte of an item, and where its operands end. */
  lemma ItemBytes(items: seq<Item>, i: nat)
    requires i < |items| && items[i].Instruction?
    ensures var bytes, pc, count := AssembleFirst(items, |items|), PcOf(items, i), |items[i].operands|;
            && pc + 1 + 2 * count == PcOf(items, i + 1) <= |bytes|
            && bytes[pc] == OpcodeByte(items[i].opcode, count)
  {
    hide OpcodeByte, AssembleFirst, Words, Flatten;
    var bytes, pc := AssembleFirst(items, |items|), PcOf(items, i);
    AssembledAt(items, |items|, i);
    var slice := bytes[pc..pc + Size(items[i])];
    assert slice[0] == bytes[pc] && EncodeItem(items, i)[0] == slice[0];
  }

  /** The two bytes of operand j of an item. */
  lemma WordBytes(items: seq<Item>, i: nat, j: nat)
    requires i < |items| && items[i].Instruction? && j < |items[i].operands|
    ensures var bytes, at := AssembleFirst(items, |items|), PcOf(items, i) + 1 + 2 * j;
            at + 2 <= |bytes| && [bytes[at], bytes[at + 1]] == Encode16(Words(items, i, items[i].operands)[j])
  {
    hide OpcodeByte, AssembleFirst, Words, Flatten, Encode16, EncodeOperand;
    var bytes, pc := AssembleFirst(items, |items|), PcOf(items, i);
    AssembledAt(items, |items|, i);
    var words := Words(items, i, items[i].operands);
    WordInSlice(bytes[pc..pc + Size(items[i])], OpcodeByte(items[i].opcode, |words|), words, j);
  }

  lemma WordInSlice(slice: seq<Byte>, opcode: Byte, words: seq<int>, j: nat)
    requires j < |words| && slice == [opcode] + Flatten(words)
    ensures [slice[1 + 2 * j], slice[2 + 2 * j]] == Encode16(words[j])
  {
    hide Flatten, Encode16;
    FlattenAt(words, j);
  }
}
