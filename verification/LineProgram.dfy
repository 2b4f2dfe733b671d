/** Line number programs: the builder, and the state machine of sections 6.2.2 and 6.2.5 of DWARF Version 4. */
module LineProgram {
  import opened Values
  import opened Leb128

  // What the builder emits.

  const OPCODE_BASE := 13
  const MINIMUM_INSTRUCTION_LENGTH := 1

  const LNS_COPY: Byte := 1
  const LNS_ADVANCE_PC: Byte := 2
  const LNS_ADVANCE_LINE: Byte := 3
  const LNS_SET_FILE: Byte := 4
  const LNS_SET_COLUMN: Byte := 5
  const LNE_END_SEQUENCE: Byte := 1
  const LNE_SET_ADDRESS: Byte := 2

  // The state machine of the standard, with the opcode numbers of its tables. Of its registers, those that the builder
  // changes; its header has the opcode base 13, that is, all twelve standard opcodes, and instructions of length 1.

  datatype Header = Header(lineBase: int, lineRange: int)

  datatype Registers = Registers(address: nat, file: nat, line: int, column: nat)

  datatype Row = Row(address: nat, file: nat, line: int, column: nat, endSequence: bool)

  const INITIAL := Registers(0, 1, 1, 0)

  function RowOf(r: Registers, endSequence: bool): Row {
    Row(r.address, r.file, r.line, r.column, endSequence)
  }

  /** What one instruction does: the rows it appends, the registers after it, and the bytes behind it. */
  datatype Effect = Effect(rows: seq<Row>, registers: Registers, rest: seq<Byte>) | Malformed

  function Special(h: Header, opcode: int, r: Registers): Registers
    requires 13 <= opcode && h.lineRange > 0
  {
    var adjusted := opcode - 13;
    r.(address := r.address + adjusted / h.lineRange, line := r.line + h.lineBase + adjusted % h.lineRange)
  }

  function Standard(h: Header, opcode: Byte, operands: seq<Byte>, r: Registers): (effect: Effect)
    requires h.lineRange > 0
    ensures effect.Effect? ==> |effect.rest| <= |operands|
  {
    if opcode == 1 then Effect([RowOf(r, false)], r, operands)                // DW_LNS_copy
    else if opcode == 3 then                                                  // DW_LNS_advance_line
      match DecodeSLEB128(operands)
      case Parsed(delta, rest) => Effect([], r.(line := r.line + delta), rest)
      case Truncated => Malformed
    else if opcode == 2 || opcode == 4 || opcode == 5 || opcode == 12 then
      match DecodeULEB128(operands)
      case Truncated => Malformed
      case Parsed(value, rest) =>
        Effect([],
               if opcode == 2 then r.(address := r.address + value)           // DW_LNS_advance_pc
               else if opcode == 4 then r.(file := value)                     // DW_LNS_set_file
               else if opcode == 5 then r.(column := value)                   // DW_LNS_set_column
               else r,                                                        // DW_LNS_set_isa
               rest)
    else if opcode == 8 then                                                  // DW_LNS_const_add_pc
      Effect([], r.(address := r.address + (255 - 13) / h.lineRange), operands)
    else if opcode == 9 then                                                  // DW_LNS_fixed_advance_pc
      if |operands| < 2 then Malformed
      else Effect([], r.(address := r.address + FromLittleEndian(operands[..2])), operands[2..])
    else Effect([], r, operands)
  }

  function Extended(operands: seq<Byte>, r: Registers): (effect: Effect)
    ensures effect.Effect? ==> |effect.rest| <= |operands|
  {
    match DecodeULEB128(operands)
    case Truncated => Malformed
    case Parsed(length, rest) =>
      if length == 0 || |rest| < length then Malformed
      else if rest[0] == 1 then Effect([RowOf(r, true)], Registers(0, 1, 1, 0), rest[length..])  // DW_LNE_end_sequence
      else if rest[0] == 2 then                                               // DW_LNE_set_address
         Effect([], r.(address := FromLittleEndian(rest[1..length])), rest[length..])
      else Effect([], r, rest[length..])
  }

  function Instruction(h: Header, bytes: seq<Byte>, r: Registers): (effect: Effect)
    requires bytes != [] && h.lineRange > 0
    ensures effect.Effect? ==> |effect.rest| < |bytes|
  {
    if bytes[0] >= 13 then Effect([RowOf(Special(h, bytes[0], r), false)], Special(h, bytes[0], r), bytes[1..])
    else if bytes[0] == 0 then Extended(bytes[1..], r)
    else Standard(h, bytes[0], bytes[1..], r)
  }

  datatype Listing = Listing(rows: seq<Row>, registers: Registers) | Broken

  /** The rows of a line number program. */
  function Run(h: Header, bytes: seq<Byte>, r: Registers): Listing
    requires h.lineRange > 0
    decreases |bytes|
  {
    if bytes == [] then Listing([], r)
    else
      match Instruction(h, bytes, r)
      case Malformed => Broken
      case Effect(rows, after, rest) =>
        match Run(h, rest, after)
        case Broken => Broken
        case Listing(more, end) => Listing(rows + more, end)
  }

  lemma StandardMore(h: Header, opcode: Byte, operands: seq<Byte>, more: seq<Byte>, r: Registers)
    requires h.lineRange > 0 && Standard(h, opcode, operands, r).Effect?
    ensures var effect := Standard(h, opcode, operands, r);
            Standard(h, opcode, operands + more, r) == effect.(rest := effect.rest + more)
  {
    hide DecodeULEB128, DecodeSLEB128, FromLittleEndian;
    if DecodeULEB128(operands).Parsed? { ULEB128More(operands, more); }
    if DecodeSLEB128(operands).Parsed? { SLEB128More(operands, more); }
    if |operands| >= 2 {
      assert (operands + more)[..2] == operands[..2] && (operands + more)[2..] == operands[2..] + more;
    }
  }

  lemma ExtendedMore(operands: seq<Byte>, more: seq<Byte>, r: Registers)
    requires Extended(operands, r).Effect?
    ensures var effect := Extended(operands, r); Extended(operands + more, r) == effect.(rest := effect.rest + more)
  {
    hide DecodeULEB128, FromLittleEndian;
    ULEB128More(operands, more);
    var length, rest := DecodeULEB128(operands).value, DecodeULEB128(operands).rest;
    assert (rest + more)[length..] == rest[length..] + more && (rest + more)[1..length] == rest[1..length];
  }

  /** Bytes behind an instruction do not matter to it. */
  lemma InstructionMore(h: Header, bytes: seq<Byte>, more: seq<Byte>, r: Registers)
    requires bytes != [] && h.lineRange > 0 && Instruction(h, bytes, r).Effect?
    ensures var effect := Instruction(h, bytes, r);
            Instruction(h, bytes + more, r) == effect.(rest := effect.rest + more)
  {
    hide Standard, Extended;
    assert (bytes + more)[1..] == bytes[1..] + more;
    if bytes[0] == 0 {
      ExtendedMore(bytes[1..], more, r);
    } else if bytes[0] < OPCODE_BASE {
      StandardMore(h, bytes[0], bytes[1..], more, r);
    }
  }

  /** Running one program after another. */
  lemma {:induction false} RunThrough(h: Header, bytes: seq<Byte>, more: seq<Byte>, r: Registers)
    requires h.lineRange > 0 && Run(h, bytes, r).Listing?
    ensures var first := Run(h, bytes, r);
            Run(h, bytes + more, r)
            == match Run(h, more, first.registers)
               case Broken => Broken
               case Listing(rows, end) => Listing(first.rows + rows, end)
    decreases |bytes|
  {
    hide Instruction;
    if bytes == [] {
      assert bytes + more == more;
    } else {
      var effect := Instruction(h, bytes, r);
      InstructionMore(h, bytes, more, r);
      RunThrough(h, effect.rest, more, effect.registers);
    }
  }

  /** Appending one instruction to a program. */
  lemma RunAppend(h: Header, bytes: seq<Byte>, code: seq<Byte>, r: Registers)
    requires h.lineRange > 0 && Run(h, bytes, r).Listing? && code != []
    requires Instruction(h, code, Run(h, bytes, r).registers).Effect?
    requires Instruction(h, code, Run(h, bytes, r).registers).rest == []
    ensures var first := Run(h, bytes, r);
            var effect := Instruction(h, code, first.registers);
            Run(h, bytes + code, r) == Listing(first.rows + effect.rows, effect.registers)
  {
    hide Instruction;
    RunThrough(h, bytes, code, r);
    var effect := Instruction(h, code, Run(h, bytes, r).registers);
    assert effect.rows + [] == effect.rows;
  }

  // The builder.

  /** The special opcode for an advance, if there is one. */
  function SpecialOpcode(h: Header, deltaLine: int, deltaPC: nat): (opcode: int)
  {
    deltaLine - h.lineBase + h.lineRange * (deltaPC / MINIMUM_INSTRUCTION_LENGTH) + OPCODE_BASE
  }

  predicate HasSpecialOpcode(h: Header, deltaLine: int, deltaPC: nat) {
    && 0 <= SpecialOpcode(h, deltaLine, deltaPC) <= 255
    && deltaLine - h.lineBase < h.lineRange && deltaLine >= h.lineBase
  }

  /** The opcode's quotient and remainder by the line range are the two advances. */
  lemma SpecialAdvances(h: Header, deltaLine: int, deltaPC: nat, r: Registers)
    requires h.lineRange > 0 && HasSpecialOpcode(h, deltaLine, deltaPC)
    ensures OPCODE_BASE <= SpecialOpcode(h, deltaLine, deltaPC)
    ensures Special(h, SpecialOpcode(h, deltaLine, deltaPC), r)
            == r.(address := r.address + deltaPC, line := r.line + deltaLine)
  {
    QuotientAndRemainder(h.lineRange, deltaPC, deltaLine - h.lineBase);
  }

  lemma QuotientAndRemainder(range: int, quotient: nat, remainder: nat)
    requires remainder < range
    ensures (remainder + range * quotient) / range == quotient && (remainder + range * quotient) % range == remainder
    ensures range * quotient >= 0
  {
    var sum := remainder + range * quotient;
    var k := sum / range - quotient;
    assert range * k == remainder - sum % range;
    assert k >= 1 ==> range * k >= range;
    assert k <= -1 ==> range * -k >= range;
  }

  class LineProgramBuilder {
    const header: Header
    var line: seq<Byte>
    var regAddress: nat
    var regFile: nat
    var regLine: int
    var regColumn: nat
    ghost var rows: seq<Row>

    /** The standard's state machine, run on the bytes so far, has the registers and rows of the builder. */
    ghost predicate Valid()
      reads this
    {
      header.lineRange > 0 && Run(header, line, INITIAL) == Listing(rows, Current())
    }

    ghost function Current(): Registers
      reads this
    {
      Registers(regAddress, regFile, regLine, regColumn)
    }

    constructor (header: Header)
      requires header.lineRange > 0
      ensures Valid() && this.header == header && Current() == INITIAL && rows == []
    {
      this.header, line, rows := header, [], [];
      regAddress, regFile, regLine, regColumn := 0, 1, 1, 0;
    }

    method SetAddress(value: nat)
      requires Valid() && value < Limit(8)
      modifies this
      ensures Valid() && rows == old(rows) && Current() == old(Current()).(address := value)
    {
      hide Run, Limit, LittleEndian;
      ghost var code := [0, 9, LNE_SET_ADDRESS] + LittleEndian(value, 8);
      assert EncodeULEB128(9) == [9];
      assert Instruction(header, [0, 9, LNE_SET_ADDRESS] + LittleEndian(value, 8), Current())
             == Effect([], Current().(address := value), []) by {
        hide LittleEndian, FromLittleEndian, Limit;
        var code := [0, 9, LNE_SET_ADDRESS] + LittleEndian(value, 8);
        assert code[1..][1..][1..] == LittleEndian(value, 8) == code[1..][1..][1..9];
        LittleEndianRoundTrip(value, 8);
      }
      RunAppend(header, line, code, INITIAL);
      line := line + [0];
      line := WriteULEB128(line, 1 + 8);
      line := line + [LNE_SET_ADDRESS];
      line := line + LittleEndian(value, 8);
      assert line == old(line) + code;
      regAddress := value;
    }

    method SetFile(file: nat)
      requires Valid()
      modifies this
      ensures Valid() && rows == old(rows) && Current() == old(Current()).(file := file)
    {
      hide Run;
      if regFile == file { return; }
      NumberCode(header, LNS_SET_FILE, file, Current());
      RunAppend(header, line, [LNS_SET_FILE] + EncodeULEB128(file), INITIAL);
      var extended := WriteULEB128(line + [LNS_SET_FILE], file);
      assert extended == line + ([LNS_SET_FILE] + EncodeULEB128(file));
      line := extended;
      regFile := file;
    }

    method SetColumn(column: nat)
      requires Valid()
      modifies this
      ensures Valid() && rows == old(rows) && Current() == old(Current()).(column := column)
    {
      hide Run;
      if regColumn == column { return; }
      NumberCode(header, LNS_SET_COLUMN, column, Current());
      RunAppend(header, line, [LNS_SET_COLUMN] + EncodeULEB128(column), INITIAL);
      var extended := WriteULEB128(line + [LNS_SET_COLUMN], column);
      assert extended == line + ([LNS_SET_COLUMN] + EncodeULEB128(column));
      line := extended;
      regColumn := column;
    }

    method AdvanceLine(deltaLine: int)
      requires Valid()
      modifies this
      ensures Valid() && rows == old(rows) && Current() == old(Current()).(line := old(regLine) + deltaLine)
    {
      hide Run;
      if deltaLine == 0 { return; }
      assert Instruction(header, [LNS_ADVANCE_LINE] + EncodeSLEB128(deltaLine), Current())
             == Effect([], Current().(line := Current().line + deltaLine), []) by {
        hide EncodeSLEB128, DecodeSLEB128;
        assert ([LNS_ADVANCE_LINE] + EncodeSLEB128(deltaLine))[1..] == EncodeSLEB128(deltaLine)
               == EncodeSLEB128(deltaLine) + [];
        SLEB128RoundTrip(deltaLine, []);
      }
      RunAppend(header, line, [LNS_ADVANCE_LINE] + EncodeSLEB128(deltaLine), INITIAL);
      var extended := WriteSLEB128(line + [LNS_ADVANCE_LINE], deltaLine);
      assert extended == line + ([LNS_ADVANCE_LINE] + EncodeSLEB128(deltaLine));
      line := extended;
      regLine := regLine + deltaLine;
    }

    method AdvancePC(deltaPC: nat)
      requires Valid()
      modifies this
      ensures Valid() && rows == old(rows) && Current() == old(Current()).(address := old(regAddress) + deltaPC)
    {
      hide Run;
      if deltaPC == 0 { return; }
      NumberCode(header, LNS_ADVANCE_PC, deltaPC, Current());
      RunAppend(header, line, [LNS_ADVANCE_PC] + EncodeULEB128(deltaPC), INITIAL);
      var extended := WriteULEB128(line + [LNS_ADVANCE_PC], deltaPC);
      assert extended == line + ([LNS_ADVANCE_PC] + EncodeULEB128(deltaPC));
      line := extended;
      regAddress := regAddress + deltaPC;
    }

    method CopyRow()
      requires Valid()
      modifies this
      ensures Valid() && rows == old(rows) + [RowOf(Current(), false)] && Current() == old(Current())
    {
      hide Run;
      RunAppend(header, line, [LNS_COPY], INITIAL);
      line := line + [LNS_COPY];
      rows := rows + [RowOf(Current(), false)];
    }

    /** One row further, with a special opcode if there is one and with standard opcodes otherwise. */
    method AdvanceLineAndPC(deltaLine: int, deltaPC: nat)
      requires Valid()
      modifies this
      ensures Valid()
      ensures Current() == old(Current()).(address := old(regAddress) + deltaPC, line := old(regLine) + deltaLine)
      ensures rows == old(rows) + [RowOf(Current(), false)]
      ensures var opcode := deltaLine - header.lineBase + header.lineRange * deltaPC + 13;
              header.lineBase <= deltaLine < header.lineBase + header.lineRange && opcode <= 255 ==>
                line == old(line) + [opcode]
    {
      hide Run, Special;
      var operationAdvance := deltaPC / MINIMUM_INSTRUCTION_LENGTH;
      var opcode := deltaLine - header.lineBase + header.lineRange * operationAdvance + OPCODE_BASE;
      if 0 <= opcode && opcode <= 255 && deltaLine - header.lineBase < header.lineRange
        && deltaLine >= header.lineBase {
        SpecialAdvances(header, deltaLine, deltaPC, Current());
        RunAppend(header, line, [opcode], INITIAL);
        line := line + [opcode];
        regLine := regLine + deltaLine;
        regAddress := regAddress + deltaPC;
        rows := rows + [RowOf(Current(), false)];
      } else {
        if deltaLine >= header.lineBase { QuotientAndRemainder(header.lineRange, deltaPC, 0); }
        AdvanceLine(deltaLine);
        AdvancePC(deltaPC);
        CopyRow();
      }
    }

    /** The last instruction: the end row, after which the state machine starts over. */
    method EndSequence() returns (program: seq<Byte>)
      requires Valid()
      modifies this`line
      ensures program == line
      ensures Run(header, program, INITIAL) == Listing(rows + [RowOf(Current(), true)], INITIAL)
    {
      hide Run;
      assert EncodeULEB128(1) == [1];
      assert Instruction(header, [0, 1, LNE_END_SEQUENCE], Current())
             == Effect([RowOf(Current(), true)], INITIAL, []) by {
        var code: seq<Byte> := [0, 1, LNE_END_SEQUENCE];
        assert code[1..] == [1, LNE_END_SEQUENCE] && code[1..][1..] == [LNE_END_SEQUENCE];
      }
      RunAppend(header, line, [0, 1, LNE_END_SEQUENCE], INITIAL);
      line := line + [0];
      line := WriteULEB128(line, 1);
      line := line + [LNE_END_SEQUENCE];
      assert line == old(line) + [0, 1, LNE_END_SEQUENCE];
      program := line;
    }
  }

  lemma NumberCode(h: Header, opcode: Byte, value: nat, r: Registers)
    requires h.lineRange > 0 && opcode in {LNS_ADVANCE_PC, LNS_SET_FILE, LNS_SET_COLUMN}
    ensures Instruction(h, [opcode] + EncodeULEB128(value), r)
            == Effect([], if opcode == LNS_ADVANCE_PC then r.(address := r.address + value)
                          else if opcode == LNS_SET_FILE then r.(file := value)
                          else r.(column := value), [])
  {
    hide EncodeULEB128, DecodeULEB128;
    assert ([opcode] + EncodeULEB128(value))[1..] == EncodeULEB128(value) == EncodeULEB128(value) + [];
    ULEB128RoundTrip(value, []);
  }
}
