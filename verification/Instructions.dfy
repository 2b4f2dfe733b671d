/** Opcodes, operands and the linear instruction lists that the assembler builds. */
module Instructions {
  import opened Values

  datatype Opcode =
    | NOP | BREAKPOINT | UNREACHABLE
    | RETURN | JUMP | COUNT_EXTENSION
    | MOVE | LOAD | LOAD_SYMBOL_VALUE_BINDING | STORE | JUMP_IF_TRUE | JUMP_IF_FALSE | SET_DEBUG_VALUE
    | ALLOCA_WITH_VALUE | COERCE_VALUE | DOWNCAST_VALUE | UNCHECKED_DOWNCAST_VALUE | MAKE_ASSOCIATION
    | SLOT_AT | SLOT_REFERENCE_AT | SLOT_AT_PUT | REF_SLOT_AT | REF_SLOT_REFERENCE_AT | REF_SLOT_AT_PUT
    | CALL | UNCHECKED_CALL | SEND | SEND_WITH_LOOKUP
    | MAKE_ARRAY_WITH_ELEMENTS | MAKE_BYTE_ARRAY_WITH_ELEMENTS | MAKE_CLOSURE_WITH_CAPTURES
    | MAKE_DICTIONARY_WITH_ELEMENTS
    | CASE_JUMP

  datatype Vector = Arguments | Captures | Literals | Locals

  datatype Operand =
    | Missing
    | In(vector: Vector, index: nat)
    | To(target: nat)
    | Count(amount: nat)

  datatype Item = Label(id: nat) | Instruction(opcode: Opcode, operands: seq<Operand>)

  function DestinationCount(op: Opcode): nat {
    match op
    case NOP | BREAKPOINT | UNREACHABLE | RETURN | JUMP | COUNT_EXTENSION => 0
    case STORE | JUMP_IF_TRUE | JUMP_IF_FALSE | SET_DEBUG_VALUE => 0
    case SLOT_AT_PUT | REF_SLOT_AT_PUT | CASE_JUMP => 0
    case _ => 1
  }

  predicate IsJump(op: Opcode) {
    op.JUMP? || op.JUMP_IF_TRUE? || op.JUMP_IF_FALSE?
  }

  predicate IsCall(op: Opcode) {
    op.CALL? || op.UNCHECKED_CALL? || op.SEND? || op.SEND_WITH_LOOKUP?
  }

  /** Instructions whose opcode byte carries an operand count; the result is the implicit operand count. */
  function ImplicitCount(op: Opcode): Option<nat> {
    match op
    case CALL | UNCHECKED_CALL | MAKE_CLOSURE_WITH_CAPTURES => Some(2)
    case SEND => Some(3)
    case SEND_WITH_LOOKUP => Some(4)
    case MAKE_ARRAY_WITH_ELEMENTS | MAKE_BYTE_ARRAY_WITH_ELEMENTS | MAKE_DICTIONARY_WITH_ELEMENTS => Some(1)
    case CASE_JUMP => Some(2)
    case _ => None
  }

  /** The number of variable items of an instruction with a variable operand count. */
  function VariableItems(op: Opcode, operandCount: nat): nat {
    match ImplicitCount(op)
    case None => 0
    case Some(k) => if operandCount < k then 0 else if op.CASE_JUMP? then (operandCount - k) / 2 else operandCount - k
  }

  /** Trailing operands that are jump displacements. */
  function OffsetCount(op: Opcode, operandCount: nat): nat {
    if IsJump(op) then 1
    else if op.CASE_JUMP? then (if operandCount < 2 then 1 else (operandCount - 2) / 2 + 1)
    else 0
  }

  /** Where control lands when it jumps to a label: the position of the label in the list. */
  function Position(items: seq<Item>, id: nat): (position: nat)
    ensures position <= |items|
    ensures position < |items| ==> items[position] == Label(id)
    ensures forall i :: 0 <= i < position ==> items[i] != Label(id)
  {
    if items == [] then 0
    else if items[0] == Label(id) then 0
    else 1 + Position(items[1..], id)
  }

  ghost predicate UniqueLabels(items: seq<Item>) {
    forall i, j :: 0 <= i < j < |items| && items[i].Label? && items[j].Label? ==> items[i].id != items[j].id
  }

  lemma PositionOfLabel(items: seq<Item>, id: nat, at: nat)
    requires UniqueLabels(items) && at < |items| && items[at] == Label(id)
    ensures Position(items, id) == at
  {
    var found := Position(items, id);
    assert found <= at;
  }
}
