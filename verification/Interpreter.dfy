/** The interpreter's loop on an activation record. */
module Interpreter {
  import opened Values
  import opened Instructions
  import opened ListMachine
  import opened Encoding
  import opened ByteMachine

  class ActivationRecord {
    const program: ByteProgram
    const decodedOperands: array<int>
    const operandRegisterFile: array<Value>
    const inlineLocalVector: array<Value>
    var pc: nat
    var countExtension: nat
    var heap: Heap
    var tape: Tape

    ghost predicate Valid()
    {
      && decodedOperands.Length == operandRegisterFile.Length == REGISTER_FILE_SIZE
      && operandRegisterFile != inlineLocalVector
    }

    ghost function Machine(): ByteMachine
      reads this, inlineLocalVector
    {
      ByteMachine(pc, countExtension, inlineLocalVector[..], heap, tape)
    }

    /** Locals start zeroed. */
    constructor (program: ByteProgram, localVectorSize: nat, heap: Heap, tape: Tape)
      ensures Valid() && this.program == program
      ensures Machine() == ByteMachine(0, 0, seq(localVectorSize, i => Null), heap, tape)
      ensures fresh(decodedOperands) && fresh(operandRegisterFile) && fresh(inlineLocalVector)
    {
      this.program := program;
      decodedOperands := new int[REGISTER_FILE_SIZE](i => 0);
      operandRegisterFile := new Value[REGISTER_FILE_SIZE](i => Null);
      inlineLocalVector := new Value[localVectorSize](i => Null);
      pc, countExtension := 0, 0;
      this.heap, this.tape := heap, tape;
      new;
      assert inlineLocalVector[..] == seq(localVectorSize, i => Null);
    }

    /** Decodes `count` little-endian words from the bytes at `start`. */
    method DecodeOperands(start: nat, count: nat)
      requires Valid() && count <= REGISTER_FILE_SIZE && start + 2 * count <= |program.bytes|
      modifies decodedOperands
      ensures forall j :: 0 <= j < count ==>
                decodedOperands[j] == Decode16(program.bytes[start + 2 * j], program.bytes[start + 2 * j + 1])
    {
      for i := 0 to count
        invariant forall j :: 0 <= j < i ==>
                    decodedOperands[j] == Decode16(program.bytes[start + 2 * j], program.bytes[start + 2 * j + 1])
      {
        decodedOperands[i] := Decode16(program.bytes[start + 2 * i], program.bytes[start + 2 * i + 1]);
      }
    }

    /** Fetches the source operands into the register file; it fails at an index out of bounds. */
    method FetchSources(from: nat, to: nat) returns (ok: bool)
      requires Valid() && from <= to <= REGISTER_FILE_SIZE
      modifies operandRegisterFile
      ensures var os := DecodeSources(decodedOperands[from..to]);
              && ok == AllReadable(Pools(program), os, inlineLocalVector[..])
              && (ok ==> operandRegisterFile[from..to] == ReadAll(Pools(program), os, inlineLocalVector[..]))
    {
      hide DecodeVector, Readable, Read;
      ghost var os, locals := DecodeSources(decodedOperands[from..to]), inlineLocalVector[..];
      ghost var xs := ReadAll(Pools(program), os, locals);
      for i := from to to
        invariant inlineLocalVector[..] == locals
        invariant forall k :: 0 <= k < i - from ==> Readable(Pools(program), os[k], locals)
        invariant operandRegisterFile[from..i] == xs[..i - from]
      {
        assert decodedOperands[i] == decodedOperands[from..to][i - from];
        var readable, v := Fetch(DecodeVector(decodedOperands[i]));
        if !readable {
          assert !Readable(Pools(program), os[i - from], locals);
          return false;
        }
        operandRegisterFile[i] := v;
        assert xs[..i + 1 - from] == xs[..i - from] + [v];
      }
      ok := true;
    }

    method Fetch(o: Operand) returns (ok: bool, v: Value)
      ensures ok == Readable(Pools(program), o, inlineLocalVector[..])
      ensures v == Read(Pools(program), o, inlineLocalVector[..])
    {
      ok, v := false, Null;
      if o.In? {
        match o.vector
        case Arguments =>
          if o.index < |program.arguments| { ok, v := true, program.arguments[o.index]; }
        case Captures =>
          if o.index < |program.captures| { ok, v := true, program.captures[o.index]; }
        case Literals =>
          if o.index < |program.literals| { ok, v := true, program.literals[o.index]; }
        case Locals =>
          if o.index < inlineLocalVector.Length { ok, v := true, inlineLocalVector[o.index]; }
      }
    }

    /** Writes a result back, unless its destination is missing. */
    method WriteBack(word: int, v: Value)
      requires ValidDestination(word, inlineLocalVector.Length)
      modifies inlineLocalVector
      ensures inlineLocalVector[..] == Write(old(inlineLocalVector[..]), DecodeVector(word), v)
    {
      if word / 4 >= 0 { inlineLocalVector[word / 4] := v; }
    }

    /** Executes a decoded instruction: fetch, execute, write back, and the new program counter. */
    method ExecuteInstruction(op: Opcode, ghost d: Decoded, count: nat, caseCount: nat, next: nat)
      returns (status: Option<Status>)
      requires Valid() && count <= REGISTER_FILE_SIZE
      requires d == Decoded(d.code, decodedOperands[..count], caseCount, next)
      modifies this`pc, this`countExtension, this`heap, this`tape, operandRegisterFile, inlineLocalVector
      ensures match ExecuteDecoded(program, old(Machine()), op, d)
              case Going(m) => status.None? && Machine() == m
              case Stopped(s) => status == Some(s)
    {
      hide DecodeVector, Readable, AllReadable, Read, Execute, DecodeSources, ReadAll, ValidDestination, OffsetsOf;
      hide DestinationCount, Write, Pools, Commit;
      var destinations, offsets := DestinationCount(op), OffsetsOf(op, caseCount);
      if destinations + offsets > count { return Some(Failed); }
      if destinations == 1 && !ValidDestination(decodedOperands[0], inlineLocalVector.Length) { return Some(Failed); }
      assert decodedOperands[..][..count][destinations..(count - offsets)]
             == decodedOperands[..][destinations..(count - offsets)];
      assert d.words[destinations..|d.words| - offsets] == decodedOperands[destinations..count - offsets];
      var ok := FetchSources(destinations, count - offsets);
      if !ok { return Some(Failed); }
      var effect := Execute(program.runtime, op, operandRegisterFile[destinations..count - offsets], heap, tape);
      status := CommitEffect(effect, d, count, destinations, offsets, next);
    }

    /** Writes a result back and sets the program counter. */
    method CommitEffect(effect: Effect, ghost d: Decoded, count: nat, destinations: nat, offsets: nat, next: nat)
      returns (status: Option<Status>)
      requires Valid() && destinations + offsets <= count <= REGISTER_FILE_SIZE
      requires d == Decoded(d.code, decodedOperands[..count], d.caseCount, next)
      requires destinations == 1 ==> ValidDestination(decodedOperands[0], inlineLocalVector.Length)
      modifies this`pc, this`countExtension, this`heap, this`tape, inlineLocalVector
      ensures match Commit(old(Machine()), d, destinations, offsets, effect)
              case Going(m) => status.None? && Machine() == m
              case Stopped(s) => status == Some(s)
    {
      hide DecodeVector, ValidDestination, Write;
      match effect
      case Fall(v, h, t) =>
        if destinations == 1 { WriteBack(decodedOperands[0], v); }
        pc, countExtension, heap, tape := next, 0, h, t;
        status := None;
      case Goto(k) =>
        if k < offsets && next + decodedOperands[count - offsets + k] >= 0 {
          pc, countExtension := next + decodedOperands[count - offsets + k], 0;
          status := None;
        } else {
          status := Some(Failed);
        }
      case Leave(v) => status := Some(Returned(v, heap, tape));
      case Crash => status := Some(Failed);
    }

    /** One iteration of the loop; no status means that the loop goes on. */
    method Iteration() returns (status: Option<Status>)
      requires Valid()
      modifies this`pc, this`countExtension, this`heap, this`tape, decodedOperands, operandRegisterFile,
               inlineLocalVector
      ensures match ByteStep(program, old(Machine()))
              case Going(m) => status.None? && Machine() == m
              case Stopped(s) => status == Some(s)
    {
      hide ExecuteDecoded, Decode16, OpcodeOf;
      if pc >= |program.bytes| { return Some(Failed); }
      var opcode := program.bytes[pc];
      if opcode == COUNT_EXTENSION_CODE {
        if pc + 2 >= |program.bytes| { return Some(Failed); }
        countExtension := (65536 * countExtension + ExtensionAt(program.bytes, pc)) % 0x1_0000_0000_0000_0000;
        return None;
      }
      var count := OperandCount(opcode, countExtension);
      if count > REGISTER_FILE_SIZE || pc + 1 + 2 * count > |program.bytes| { return Some(Failed); }
      var code := StandardCode(opcode);
      var caseCount := if code == CASE_JUMP_CODE then VariableCount(opcode, countExtension) else 0;
      DecodeOperands(pc + 1, count);
      ghost var d := DecodeAt(program.bytes, pc, countExtension, REGISTER_FILE_SIZE);
      assert d.value.words == decodedOperands[..count];
      match OpcodeOf(code)
      case None => status := Some(Failed);
      case Some(op) => status := ExecuteInstruction(op, d.value, count, caseCount, pc + 1 + 2 * count);
    }

    /** The first `limit` iterations of the loop. */
    method Interpret(limit: nat) returns (status: Option<Status>)
      requires Valid()
      modifies this`pc, this`countExtension, this`heap, this`tape, decodedOperands, operandRegisterFile,
               inlineLocalVector
      ensures match ByteIterate(program, old(Machine()), limit)
              case Going(m) => status.None? && Machine() == m
              case Stopped(s) => status == Some(s)
    {
      hide ByteStep;
      var i := 0;
      while i < limit
        invariant i <= limit
        invariant ByteIterate(program, old(Machine()), limit) == ByteIterate(program, Machine(), limit - i)
      {
        status := Iteration();
        if status.Some? { return; }
        i := i + 1;
      }
      status := None;
    }
  }
}
