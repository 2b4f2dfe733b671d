/** The decoding loop of the JIT compiler, count extensions included, undoes the assembler. */
module DecodeLoop {
  import opened Values
  import opened Instructions
  import opened Encoding
  import opened ByteMachine

  /** A round of the loop: the address, and the decoded instruction unless it is a count extension. */
  datatype Round = Round(pc: nat, decoded: Option<Decoded>)

  /** The loop from pc on; it stops where its assertions would fail. */
  function DecodeFrom(bytes: seq<Byte>, pc: nat, extension: nat): Attempt<seq<Round>>
    decreases |bytes| - pc
  {
    if pc >= |bytes| then Success([])
    else if bytes[pc] == COUNT_EXTENSION_CODE then
      if pc + 2 < |bytes| then
        var rest :- DecodeFrom(bytes, pc + 3, Extended(extension, ExtensionAt(bytes, pc)));
        Success([Round(pc, None)] + rest)
      else Failure("pc < instructionsSize")
    else
      match DecodeAt(bytes, pc, extension, REGISTER_FILE_SIZE - 1)
      case None => Failure("operandCount < SYSBVM_BYTECODE_FUNCTION_OPERAND_REGISTER_FILE_SIZE")
      case Some(d) =>
        var rest :- DecodeFrom(bytes, d.next, 0);
        Success([Round(pc, Some(d))] + rest)
  }

  /** Extensions accumulate in a word. */
  function Extended(extension: nat, amount: nat): nat {
    (65536 * extension + amount) % 0x1_0000_0000_0000_0000
  }

  /** What should be decoded: a round for everything but labels. */
  function Expected(items: seq<Item>, i: nat): seq<Round>
    requires i <= |items|
    decreases |items| - i
  {
    if i == |items| then []
    else if items[i].Label? then Expected(items, i + 1)
    else
      [Round(PcOf(items, i), if items[i].opcode.COUNT_EXTENSION? then None else Some(ExpectedInstruction(items, i)))]
      + Expected(items, i + 1)
  }

  function ExpectedInstruction(items: seq<Item>, i: nat): (d: Decoded)
    requires i < |items| && items[i].Instruction?
    ensures d.next == PcOf(items, i + 1)
  {
    Decoded(Code(items[i].opcode), Words(items, i, items[i].operands),
            if items[i].opcode.CASE_JUMP? then VariableItems(items[i].opcode, |items[i].operands|) else 0,
            PcOf(items, i + 1))
  }

  /** The extension that is in force in front of item i. */
  function ExtensionBefore(items: seq<Item>, i: nat): nat
    requires i <= |items|
  {
    if i == 0 then 0
    else if items[i - 1].Label? then ExtensionBefore(items, i - 1)
    else if items[i - 1].opcode.COUNT_EXTENSION? && |items[i - 1].operands| == 1 && items[i - 1].operands[0].Count?
      && items[i - 1].operands[0].amount < 65536
      && 65536 * ExtensionBefore(items, i - 1) + items[i - 1].operands[0].amount < 0x1_0000_0000_0000_0000
    then 65536 * ExtensionBefore(items, i - 1) + items[i - 1].operands[0].amount
    else 0
  }

  /** Count extensions hold sixteen bits each of a number of one word, in front of the instruction that they extend. */
  predicate Decodable(items: seq<Item>, i: nat)
    requires i < |items|
  {
    items[i].Instruction? ==>
      if items[i].opcode.COUNT_EXTENSION? then
        && |items[i].operands| == 1 && items[i].operands[0].Count? && items[i].operands[0].amount < 65536
        && 65536 * ExtensionBefore(items, i) + items[i].operands[0].amount < 0x1_0000_0000_0000_0000
      else
        && |items[i].operands| < REGISTER_FILE_SIZE
        && HasArity(items[i].opcode, |items[i].operands|, ExtensionBefore(items, i))
  }

  lemma ExtensionDecodes(items: seq<Item>, i: nat)
    requires i < |items| && items[i].Instruction? && items[i].opcode.COUNT_EXTENSION? && Decodable(items, i)
    ensures var bytes, pc := AssembleFirst(items, |items|), PcOf(items, i);
            && pc + 3 == PcOf(items, i + 1) <= |bytes| && bytes[pc] == COUNT_EXTENSION_CODE
            && ExtensionAt(bytes, pc) == items[i].operands[0].amount
  {
    hide AssembleFirst, Words, Encode16, Wrap16, PcOf;
    var k := items[i].operands[0].amount;
    ItemBytes(items, i);
    WordBytes(items, i, 0);
    assert Words(items, i, items[i].operands)[0] == Wrap16(k);
    UnsignedRoundTrip(k);
  }

  /** The amount is written as a signed word and read as an unsigned one. */
  lemma UnsignedRoundTrip(k: nat)
    requires k < 65536
    ensures var bytes := Encode16(Wrap16(k));
            var low: int, high: int := bytes[0], bytes[1];
            256 * high + low == k
  {
    if k < 32768 {
      assert Wrap16(k) == k;
    } else {
      assert Wrap16(k) == k - 65536;
    }
  }

  lemma ExtendedFits(extension: nat, amount: nat)
    requires 65536 * extension + amount < 0x1_0000_0000_0000_0000
    ensures Extended(extension, amount) == 65536 * extension + amount
  {
  }

  lemma InstructionDecodes(items: seq<Item>, i: nat)
    requires i < |items| && items[i].Instruction? && !items[i].opcode.COUNT_EXTENSION? && Decodable(items, i)
    ensures var bytes, pc := AssembleFirst(items, |items|), PcOf(items, i);
            && pc < |bytes| && bytes[pc] != COUNT_EXTENSION_CODE
            && DecodeAt(bytes, pc, ExtensionBefore(items, i), REGISTER_FILE_SIZE - 1)
               == Some(ExpectedInstruction(items, i))
  {
    hide AssembleFirst, Words, DecodeAt, HasArity, Code, VariableItems;
    DecodesItem(items, i, ExtensionBefore(items, i), REGISTER_FILE_SIZE - 1);
  }

  /**
   Decoding an assembled list recovers opcode, operands and address of every instruction, for fixed, variable and
   case-jump opcodes, however many operands an extension announces.
   */
  lemma {:induction false} DecodeRecovers(items: seq<Item>, i: nat)
    requires i <= |items| && forall k :: 0 <= k < |items| ==> Decodable(items, k)
    ensures DecodeFrom(AssembleFirst(items, |items|), PcOf(items, i), ExtensionBefore(items, i))
            == Success(Expected(items, i))
    decreases |items| - i
  {
    hide AssembleFirst, Words, DecodeAt, HasArity, Code, VariableItems, Extended, ExpectedInstruction, ExtensionAt;
    var bytes := AssembleFirst(items, |items|);
    if i < |items| {
      assert Decodable(items, i);
      DecodeRecovers(items, i + 1);
      if items[i].Label? {
        assert PcOf(items, i + 1) == PcOf(items, i);
      } else if items[i].opcode.COUNT_EXTENSION? {
        ExtensionDecodes(items, i);
        ExtendedFits(ExtensionBefore(items, i), items[i].operands[0].amount);
      } else {
        InstructionDecodes(items, i);
      }
    }
  }
}
