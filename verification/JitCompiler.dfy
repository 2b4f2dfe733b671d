/** The JIT compiler's loop: decode, generate, record destinations and relocations, and patch at the end. */
module JitCompiler {
  import opened Values
  import opened Instructions
  import opened Encoding
  import opened ByteMachine
  import opened DecodeLoop
  import opened NativeJumps

  function Destinations(g: Generator, rounds: seq<Round>, size: nat): (destinations: seq<int>)
    ensures |destinations| == size && forall pc :: 0 <= pc < size ==> destinations[pc] == DestinationOf(g, rounds, pc)
  {
    seq(size, pc requires 0 <= pc < size => DestinationOf(g, rounds, pc))
  }

  class BytecodeJit {
    const generator: Generator
    const pcDestinations: array<int>
    var instructions: seq<Byte>
    var pcRelocations: seq<Relocation>
    ghost var pieces: seq<Piece>

    ghost predicate Valid()
      reads this
    {
      instructions == Unlinked(pieces) && pcRelocations == Relocations(pieces)
    }

    constructor (generator: Generator, instructionsSize: nat)
      ensures Valid() && pieces == [Raw(generator.prologue)] && this.generator == generator
      ensures fresh(pcDestinations) && pcDestinations[..] == Destinations(generator, [], instructionsSize)
    {
      this.generator := generator;
      pcDestinations := new int[instructionsSize](i => -1);
      instructions, pcRelocations, pieces := generator.prologue, [], [Raw(generator.prologue)];
      new;
      assert [Raw(generator.prologue)][..0] == [];
    }

    method AddBytes(code: seq<Byte>)
      requires Valid()
      modifies this`instructions, this`pieces
      ensures Valid() && pieces == old(pieces) + [Raw(code)]
    {
      PieceAppended(pieces, Raw(code));
      instructions := instructions + code;
      pieces := pieces + [Raw(code)];
    }

    /** A branch with an empty displacement, and its relocation. */
    method AddBranch(opcode: seq<Byte>, targetPC: int)
      requires Valid()
      modifies this`instructions, this`pcRelocations, this`pieces
      ensures Valid() && pieces == old(pieces) + [Branch(opcode, targetPC)]
    {
      PieceAppended(pieces, Branch(opcode, targetPC));
      instructions := instructions + (opcode + [0, 0, 0, 0]);
      var relocationOffset := |instructions| - 4;
      pcRelocations := pcRelocations + [Relocation(relocationOffset, targetPC)];
      pieces := pieces + [Branch(opcode, targetPC)];
    }

    method CaseJump(d: Decoded)
      requires Valid()
      modifies this`instructions, this`pcRelocations, this`pieces
      ensures Valid() && pieces == old(pieces) + CasePieces(generator, d, d.caseCount)
    {
      hide Unlinked, Relocations;
      assert CasePieces(generator, d, 0) == [];
      for i := 0 to d.caseCount
        invariant Valid() && pieces == old(pieces) + CasePieces(generator, d, i)
      {
        hide Valid;
        assert old(pieces) + CasePieces(generator, d, i + 1)
               == old(pieces) + CasePieces(generator, d, i) + [Raw(generator.body(d, i) + TEST_AL)]
                 + [Branch(JNE, d.next + Word(d, 1 + d.caseCount + i))];
        AddBytes(generator.body(d, i) + TEST_AL);
        AddBranch(JNE, d.next + Word(d, 1 + d.caseCount + i));
      }
    }

    method CompileInstruction(d: Decoded)
      requires Valid()
      modifies this`instructions, this`pcRelocations, this`pieces
      ensures Valid() && pieces == old(pieces) + InstructionPieces(generator, d)
    {
      hide Unlinked, Relocations, CasePieces, Word, Valid;
      if d.code == CASE_JUMP_CODE {
        CaseJump(d);
        AddBranch(JMP, d.next + Word(d, if |d.words| == 0 then 0 else |d.words| - 1));
      } else {
        AddBytes(generator.body(d, 0));
        if d.code == Code(JUMP) {
          AddBranch(JMP, d.next + Word(d, 0));
        } else if d.code == Code(JUMP_IF_TRUE) {
          AddBranch(JE, d.next + Word(d, 1));
        } else if d.code == Code(JUMP_IF_FALSE) {
          AddBranch(JNE, d.next + Word(d, 1));
        }
      }
    }

    /** Decodes one instruction: the opcode's operand count, with the extension before it, and the operand words. */
    method Decode(bytes: seq<Byte>, start: nat, countExtension: nat) returns (r: Option<Decoded>)
      requires start < |bytes|
      ensures r == DecodeAt(bytes, start, countExtension, REGISTER_FILE_SIZE - 1)
    {
      var opcode, pc := bytes[start], start + 1;
      var operandCount := OperandCount(opcode, countExtension);
      if operandCount >= REGISTER_FILE_SIZE || pc + 2 * operandCount > |bytes| { return None; }
      var decodedOperands: seq<int> := [];
      for i := 0 to operandCount
        invariant pc == start + 1 + 2 * i && |decodedOperands| == i
        invariant forall j :: 0 <= j < i ==>
                    decodedOperands[j] == Decode16(bytes[start + 1 + 2 * j], bytes[start + 2 + 2 * j])
      {
        decodedOperands := decodedOperands + [Decode16(bytes[pc], bytes[pc + 1])];
        pc := pc + 2;
      }
      var caseCount := if StandardCode(opcode) == CASE_JUMP_CODE then VariableCount(opcode, countExtension) else 0;
      r := Some(Decoded(StandardCode(opcode), decodedOperands, caseCount, pc));
      assert decodedOperands == DecodeAt(bytes, start, countExtension, REGISTER_FILE_SIZE - 1).value.words;
    }

    /** The rounds so far are generated, and their starts are the destinations. */
    ghost predicate Generated(bytes: seq<Byte>, rounds: seq<Round>, pc: nat, countExtension: nat)
      reads this, pcDestinations
    {
      && Valid() && pieces == Pieces(generator, rounds)
      && pcDestinations[..] == Destinations(generator, rounds, |bytes|)
      && (forall i :: 0 <= i < |rounds| ==> rounds[i].pc < pc)
      && DecodeFrom(bytes, 0, 0) == Before(rounds, DecodeFrom(bytes, pc, countExtension))
    }

    /** The beginning of a round. */
    method BeginRound(bytes: seq<Byte>, ghost rounds: seq<Round>, pc: nat, ghost countExtension: nat)
      requires Generated(bytes, rounds, pc, countExtension) && pc < |bytes|
      modifies this`instructions, this`pieces, pcDestinations
      ensures Valid() && pieces == Pieces(generator, rounds) + [Raw(generator.storePC(pc))]
      ensures forall d :: pcDestinations[..] == Destinations(generator, rounds + [Round(pc, d)], |bytes|)
    {
      hide Unlinked, Relocations, DecodeFrom, Pieces;
      assert |instructions| == Start(generator, rounds, |rounds|) by {
        assert rounds[..|rounds|] == rounds;
      }
      pcDestinations[pc] := |instructions|;
      forall d ensures pcDestinations[..] == Destinations(generator, rounds + [Round(pc, d)], |bytes|) {
        hide Start;
        var all := rounds + [Round(pc, d)];
        assert all[..|rounds|] == rounds;
        assert Start(generator, rounds + [Round(pc, d)], |rounds|) == Start(generator, rounds, |rounds|) by {
          assert (rounds + [Round(pc, d)])[..|rounds|] == rounds == rounds[..|rounds|];
        }
      }
      AddBytes(generator.storePC(pc));
    }

    method Finish() returns (code: seq<Byte>)
      requires Valid() && TargetsIn(pieces, pcDestinations.Length)
      modifies this`instructions
      ensures code == instructions == Link(pieces, pcDestinations[..])
    {
      hide Patch, Link, Unlinked, Relocations;
      PatchingLinks(pieces, pcDestinations[..]);
      ghost var before := instructions;
      for i := 0 to |pcRelocations|
        invariant Applicable(pcRelocations[..i], |before|, pcDestinations.Length)
        invariant instructions == PatchAll(before, pcRelocations[..i], pcDestinations[..])
      {
        assert pcRelocations[..i + 1][..i] == pcRelocations[..i];
        var relocation := pcRelocations[i];
        instructions := Patch(instructions, relocation, pcDestinations[..]);
      }
      assert pcRelocations[..|pcRelocations|] == pcRelocations;
      code := instructions;
    }

    /**
     Compiles a bytecode function.  The result is the code of all rounds in a row, every displacement of which is
     filled in from the recorded destinations.
     */
    method Compile(bytes: seq<Byte>) returns (r: Attempt<seq<Byte>>)
      requires Valid() && pieces == [Raw(generator.prologue)]
      requires pcDestinations[..] == Destinations(generator, [], |bytes|)
      requires DecodeFrom(bytes, 0, 0).Success? ==> TargetsIn(Pieces(generator, DecodeFrom(bytes, 0, 0).value), |bytes|)
      modifies this, pcDestinations
      ensures r.Success? <==> DecodeFrom(bytes, 0, 0).Success?
      ensures r.Success? ==>
        var rounds := DecodeFrom(bytes, 0, 0).value;
        r.value == Link(Pieces(generator, rounds), Destinations(generator, rounds, |bytes|))
    {
      hide Link, Unlinked, Relocations, Pieces, DecodeAt;
      assert Pieces(generator, []) == [Raw(generator.prologue)] by { NoPieces(generator); }
      var pc, countExtension := 0, 0;
      ghost var rounds: seq<Round> := [];
      BeforeNone(DecodeFrom(bytes, pc, countExtension));
      while pc < |bytes|
        invariant pc <= |bytes| && Generated(bytes, rounds, pc, countExtension)
        decreases |bytes| - pc
      {
        BeginRound(bytes, rounds, pc, countExtension);
        DecodeStep(bytes, rounds, pc, countExtension);
        if bytes[pc] == COUNT_EXTENSION_CODE {
          if pc + 2 >= |bytes| { return Failure("pc < instructionsSize"); }
          PiecesNext(generator, rounds, Round(pc, None));
          rounds := rounds + [Round(pc, None)];
          countExtension := Extended(countExtension, ExtensionAt(bytes, pc));
          pc := pc + 3;
        } else {
          var decoded := Decode(bytes, pc, countExtension);
          if decoded.None? { return Failure("operandCount < SYSBVM_BYTECODE_FUNCTION_OPERAND_REGISTER_FILE_SIZE"); }
          CompileInstruction(decoded.value);
          PiecesNext(generator, rounds, Round(pc, decoded));
          rounds := rounds + [Round(pc, decoded)];
          countExtension, pc := 0, decoded.value.next;
        }
      }
      assert Before(rounds, DecodeFrom(bytes, pc, countExtension)) == Success(rounds) by {
        assert rounds + [] == rounds;
      }
      var code := Finish();
      r := Success(code);
    }
  }

  lemma PieceAppended(pieces: seq<Piece>, piece: Piece)
    ensures Unlinked(pieces + [piece]) == Unlinked(pieces) + if piece.Raw? then piece.code
            else piece.opcode + [0, 0, 0, 0]
    ensures Relocations(pieces + [piece])
            == Relocations(pieces) + if piece.Raw? then []
              else [Relocation(SizeOf(pieces) + |piece.opcode|, piece.target)]
  {
    hide SizeOf, Relocations;
    var all := pieces + [piece];
    assert all[..|all| - 1] == pieces && all[|all| - 1] == piece;
    assert (var before, last := all[..|all| - 1], all[|all| - 1];
            Unlinked(all) == Unlinked(before) + if last.Raw? then last.code else last.opcode + [0, 0, 0, 0]);
    RelocationsLast(all);
  }

  lemma RelocationsLast(pieces: seq<Piece>)
    requires pieces != []
    ensures var before, last := pieces[..|pieces| - 1], pieces[|pieces| - 1];
            Relocations(pieces)
            == Relocations(before) + if last.Raw? then [] else [Relocation(SizeOf(before) + |last.opcode|, last.target)]
  {
    hide SizeOf;
  }

  lemma NoPieces(g: Generator)
    ensures Pieces(g, []) == [Raw(g.prologue)]
  {
  }

  lemma PiecesNext(g: Generator, rounds: seq<Round>, r: Round)
    ensures Pieces(g, rounds + [r])
            == Pieces(g, rounds) + [Raw(g.storePC(r.pc))] + if r.decoded.Some?
              then InstructionPieces(g, r.decoded.value) else []
  {
    assert (rounds + [r])[..|rounds|] == rounds;
  }

  function Before(rounds: seq<Round>, rest: Attempt<seq<Round>>): Attempt<seq<Round>> {
    match rest
    case Success(more) => Success(rounds + more)
    case Failure(message) => Failure(message)
  }

  lemma BeforeNone(rest: Attempt<seq<Round>>)
    ensures Before([], rest) == rest
  {
    if rest.Success? {
      assert [] + rest.value == rest.value;
    }
  }

  lemma BeforeMore(rounds: seq<Round>, r: Round, rest: Attempt<seq<Round>>)
    ensures Before(rounds, Before([r], rest)) == Before(rounds + [r], rest)
  {
    if rest.Success? {
      assert rounds + ([r] + rest.value) == rounds + [r] + rest.value;
    }
  }

  /** What the next round does to the decoding. */
  lemma DecodeStep(bytes: seq<Byte>, rounds: seq<Round>, pc: nat, extension: nat)
    requires pc < |bytes|
    ensures var whole := Before(rounds, DecodeFrom(bytes, pc, extension));
            if bytes[pc] == COUNT_EXTENSION_CODE then
              if pc + 2 < |bytes|
              then whole == Before(rounds + [Round(pc, None)],
                                   DecodeFrom(bytes, pc + 3, Extended(extension, ExtensionAt(bytes, pc))))
              else whole.Failure?
            else
              match DecodeAt(bytes, pc, extension, REGISTER_FILE_SIZE - 1)
              case None => whole.Failure?
              case Some(d) => whole == Before(rounds + [Round(pc, Some(d))], DecodeFrom(bytes, d.next, 0))
  {
    hide DecodeAt, Extended;
    if bytes[pc] == COUNT_EXTENSION_CODE {
      if pc + 2 < |bytes| {
        BeforeMore(rounds, Round(pc, None), DecodeFrom(bytes, pc + 3, Extended(extension, ExtensionAt(bytes, pc))));
      }
    } else {
      var d := DecodeAt(bytes, pc, extension, REGISTER_FILE_SIZE - 1);
      if d.Some? {
        BeforeMore(rounds, Round(pc, d), DecodeFrom(bytes, d.value.next, 0));
      }
    }
  }
}
