/** Native code for bytecode jumps: 32-bit displacements that are patched once all destinations are known. */
module NativeJumps {
  import opened Values
  import opened Instructions
  import opened Encoding
  import opened Leb128
  import opened ByteMachine
  import opened DecodeLoop

  /** Code that is not a branch: the prologue, the store of the program counter, and what precedes each branch. */
  datatype Generator = Generator(prologue: seq<Byte>, storePC: nat -> seq<Byte>, body: (Decoded, nat) -> seq<Byte>)

  /** A branch's four-byte displacement follows its opcode; the target is a bytecode address. */
  datatype Piece = Raw(code: seq<Byte>) | Branch(opcode: seq<Byte>, target: int)

  const JMP: seq<Byte> := [0xE9]
  const JE: seq<Byte> := [0x0F, 0x84]
  const JNE: seq<Byte> := [0x0F, 0x85]
  const TEST_AL: seq<Byte> := [0x84, 0xC0]

  // What is generated.

  /** The operand that an offset is in; decoded instructions have it. */
  function Word(d: Decoded, i: nat): int {
    if i < |d.words| then d.words[i] else 0
  }

  function CasePieces(g: Generator, d: Decoded, count: nat): seq<Piece> {
    if count == 0 then []
    else
      CasePieces(g, d, count - 1)
      + [Raw(g.body(d, count - 1) + TEST_AL), Branch(JNE, d.next + Word(d, 1 + d.caseCount + (count - 1)))]
  }

  function InstructionPieces(g: Generator, d: Decoded): seq<Piece> {
    if d.code == Code(JUMP) then [Raw(g.body(d, 0)), Branch(JMP, d.next + Word(d, 0))]
    else if d.code == Code(JUMP_IF_TRUE) then [Raw(g.body(d, 0)), Branch(JE, d.next + Word(d, 1))]
    else if d.code == Code(JUMP_IF_FALSE) then [Raw(g.body(d, 0)), Branch(JNE, d.next + Word(d, 1))]
    else if d.code == CASE_JUMP_CODE then
      CasePieces(g, d, d.caseCount) + [Branch(JMP, d.next + Word(d, if |d.words| == 0 then 0 else |d.words| - 1))]
    else [Raw(g.body(d, 0))]
  }

  function RoundPieces(g: Generator, r: Round): seq<Piece> {
    [Raw(g.storePC(r.pc))] + if r.decoded.Some? then InstructionPieces(g, r.decoded.value) else []
  }

  function Pieces(g: Generator, rounds: seq<Round>): seq<Piece> {
    if rounds == [] then [Raw(g.prologue)]
    else Pieces(g, rounds[..|rounds| - 1]) + RoundPieces(g, rounds[|rounds| - 1])
  }

  function SizeOf(pieces: seq<Piece>): nat {
    if pieces == [] then 0
    else
      var last := pieces[|pieces| - 1];
      SizeOf(pieces[..|pieces| - 1]) + if last.Raw? then |last.code| else |last.opcode| + 4
  }

  /** Where the native code of a round begins. */
  function Start(g: Generator, rounds: seq<Round>, i: nat): nat
    requires i <= |rounds|
  {
    SizeOf(Pieces(g, rounds[..i]))
  }

  /** The native address recorded for a bytecode address, or -1. */
  function DestinationOf(g: Generator, rounds: seq<Round>, pc: nat): int {
    if rounds == [] then -1
    else if rounds[|rounds| - 1].pc == pc then Start(g, rounds, |rounds| - 1)
    else DestinationOf(g, rounds[..|rounds| - 1], pc)
  }

  // Displacements.

  /** The low 32 bits of a displacement. */
  function Displacement(v: int): (bytes: seq<Byte>)
    ensures |bytes| == 4
  {
    LittleEndian(v % 0x1_0000_0000, 4)
  }

  function ReadDisplacement(bytes: seq<Byte>): int
    requires |bytes| == 4
  {
    var a: int, b: int, c: int, d: int := bytes[0], bytes[1], bytes[2], bytes[3];
    var u := a + 0x100 * b + 0x1_0000 * c + 0x100_0000 * d;
    if u < 0x8000_0000 then u else u - 0x1_0000_0000
  }

  lemma DisplacementRoundTrip(v: int)
    requires -0x8000_0000 <= v < 0x8000_0000
    ensures ReadDisplacement(Displacement(v)) == v
  {
    hide LittleEndian, FromLittleEndian;
    assert Limit(4) == 0x1_0000_0000 by {
      assert Limit(3) == 0x100_0000;
    }
    LittleEndianRoundTrip(v % 0x1_0000_0000, 4);
    FourBytes(Displacement(v));
  }

  lemma FourBytes(bytes: seq<Byte>)
    requires |bytes| == 4
    ensures var a: int, b: int, c: int, d: int := bytes[0], bytes[1], bytes[2], bytes[3];
            FromLittleEndian(bytes) == a + 0x100 * b + 0x1_0000 * c + 0x100_0000 * d
  {
    var c: int, d: int := bytes[2], bytes[3];
    assert bytes[1..] == [bytes[1], bytes[2], bytes[3]] && bytes[1..][1..] == [bytes[2], bytes[3]];
    assert bytes[1..][1..][1..] == [bytes[3]] && [bytes[3]][1..] == [];
    assert FromLittleEndian([bytes[3]]) == d && FromLittleEndian(bytes[1..][1..]) == c + 0x100 * d;
  }

  /** Where the processor goes from a branch whose displacement is at this offset. */
  function Landing(code: seq<Byte>, offset: nat): int
    requires offset + 4 <= |code|
  {
    offset + 4 + ReadDisplacement(code[offset..offset + 4])
  }

  // Linked code, and the relocations that lead to it.

  predicate TargetsIn(pieces: seq<Piece>, size: nat) {
    forall k :: 0 <= k < |pieces| && pieces[k].Branch? ==> 0 <= pieces[k].target < size
  }

  /** The pieces with every displacement filled in. */
  function Link(pieces: seq<Piece>, destinations: seq<int>): (code: seq<Byte>)
    requires TargetsIn(pieces, |destinations|)
    ensures |code| == SizeOf(pieces)
  {
    if pieces == [] then []
    else
      var before, last := Link(pieces[..|pieces| - 1], destinations), pieces[|pieces| - 1];
      if last.Raw? then before + last.code
      else before + last.opcode + Displacement(destinations[last.target] - (|before| + |last.opcode|) - 4)
  }

  /** Every branch of linked code lands on the destination of its target. */
  lemma {:induction false} LinkedBranchLands(pieces: seq<Piece>, destinations: seq<int>, k: nat)
    requires TargetsIn(pieces, |destinations|) && k < |pieces| && pieces[k].Branch?
    requires SizeOf(pieces) < 0x7FFF_FFFF && -1 <= destinations[pieces[k].target] <= SizeOf(pieces)
    ensures var at := SizeOf(pieces[..k]);
            var offset := at + |pieces[k].opcode|;
            var code := Link(pieces, destinations);
            && offset + 4 <= |code|
            && code[at..offset] == pieces[k].opcode
            && Landing(code, offset) == destinations[pieces[k].target]
  {
    var branch := pieces[k];
    LinkedFields(pieces, destinations, k);
    var offset := SizeOf(pieces[..k]) + |branch.opcode|;
    DisplacementRoundTrip(destinations[branch.target] - offset - 4);
  }

  lemma {:induction false} LinkedFields(pieces: seq<Piece>, destinations: seq<int>, k: nat)
    requires TargetsIn(pieces, |destinations|) && k < |pieces| && pieces[k].Branch?
    ensures var at := SizeOf(pieces[..k]);
            var offset := at + |pieces[k].opcode|;
            var code := Link(pieces, destinations);
            && offset + 4 <= |code|
            && code[at..offset] == pieces[k].opcode
            && code[offset..offset + 4] == Displacement(destinations[pieces[k].target] - offset - 4)
    decreases |pieces|
  {
    hide Displacement;
    var before := pieces[..|pieces| - 1];
    assert before == pieces[..|pieces| - 1];
    if k < |before| {
      assert before[..k] == pieces[..k];
      LinkedFields(before, destinations, k);
    }
  }

  datatype Relocation = Relocation(offset: nat, targetPC: int)

  function Unlinked(pieces: seq<Piece>): (code: seq<Byte>)
    ensures |code| == SizeOf(pieces)
  {
    if pieces == [] then []
    else
      var last := pieces[|pieces| - 1];
      Unlinked(pieces[..|pieces| - 1]) + if last.Raw? then last.code else last.opcode + [0, 0, 0, 0]
  }

  function Relocations(pieces: seq<Piece>): (relocations: seq<Relocation>)
    ensures forall r :: 0 <= r < |relocations| ==> relocations[r].offset + 4 <= SizeOf(pieces)
  {
    if pieces == [] then []
    else
      var before, last := pieces[..|pieces| - 1], pieces[|pieces| - 1];
      Relocations(before) + if last.Raw? then [] else [Relocation(SizeOf(before) + |last.opcode|, last.target)]
  }

  /** One relocation applied. */
  function Patch(code: seq<Byte>, r: Relocation, destinations: seq<int>): (patched: seq<Byte>)
    requires r.offset + 4 <= |code| && 0 <= r.targetPC < |destinations|
    ensures |patched| == |code|
  {
    code[..r.offset] + Displacement(destinations[r.targetPC] - r.offset - 4) + code[r.offset + 4..]
  }

  predicate Applicable(relocations: seq<Relocation>, codeSize: nat, size: nat) {
    forall r :: 0 <= r < |relocations| ==> relocations[r].offset + 4 <= codeSize && 0 <= relocations[r].targetPC < size
  }

  function PatchAll(code: seq<Byte>, relocations: seq<Relocation>, destinations: seq<int>): (patched: seq<Byte>)
    requires Applicable(relocations, |code|, |destinations|)
    ensures |patched| == |code|
  {
    if relocations == [] then code
    else Patch(PatchAll(code, relocations[..|relocations| - 1], destinations), relocations[|relocations| - 1],
               destinations)
  }

  lemma {:induction false} PatchAllBefore(code: seq<Byte>, more: seq<Byte>, relocations: seq<Relocation>,
                                          destinations: seq<int>)
    requires Applicable(relocations, |code|, |destinations|)
    ensures PatchAll(code + more, relocations, destinations) == PatchAll(code, relocations, destinations) + more
  {
    hide Displacement;
    if relocations != [] {
      PatchAllBefore(code, more, relocations[..|relocations| - 1], destinations);
      PatchBefore(PatchAll(code, relocations[..|relocations| - 1], destinations), more, relocations[|relocations| - 1],
                  destinations);
    }
  }

  lemma PatchBefore(code: seq<Byte>, more: seq<Byte>, r: Relocation, destinations: seq<int>)
    requires r.offset + 4 <= |code| && 0 <= r.targetPC < |destinations|
    ensures Patch(code + more, r, destinations) == Patch(code, r, destinations) + more
  {
    hide Displacement;
    assert (code + more)[..r.offset] == code[..r.offset];
    assert (code + more)[r.offset + 4..] == code[r.offset + 4..] + more;
  }

  lemma {:induction false} RelocationsApplicable(pieces: seq<Piece>, size: nat)
    requires TargetsIn(pieces, size)
    ensures Applicable(Relocations(pieces), SizeOf(pieces), size)
  {
    if pieces != [] {
      var before := pieces[..|pieces| - 1];
      assert TargetsIn(before, size);
      RelocationsApplicable(before, size);
    }
  }

  /** Applying the relocations to the code with empty displacements links it. */
  lemma {:induction false} PatchingLinks(pieces: seq<Piece>, destinations: seq<int>)
    requires TargetsIn(pieces, |destinations|)
    ensures Applicable(Relocations(pieces), SizeOf(pieces), |destinations|)
    ensures PatchAll(Unlinked(pieces), Relocations(pieces), destinations) == Link(pieces, destinations)
  {
    hide Displacement, Patch, PatchAll;
    RelocationsApplicable(pieces, |destinations|);
    if pieces == [] {
      assert PatchAll([], [], destinations) == [];
    } else {
      var before, last := pieces[..|pieces| - 1], pieces[|pieces| - 1];
      assert TargetsIn(before, |destinations|);
      PatchingLinks(before, destinations);
      var code, relocations := Unlinked(before), Relocations(before);
      if last.Raw? {
        assert Relocations(pieces) == relocations;
        PatchAllBefore(code, last.code, relocations, destinations);
      } else {
        PatchAllBefore(code, last.opcode + [0, 0, 0, 0], relocations, destinations);
        PatchLast(code, last, relocations, destinations);
      }
    }
  }

  lemma PatchLast(code: seq<Byte>, branch: Piece, relocations: seq<Relocation>, destinations: seq<int>)
    requires branch.Branch? && 0 <= branch.target < |destinations| && Applicable(relocations, |code|, |destinations|)
    requires PatchAll(code + (branch.opcode + [0, 0, 0, 0]), relocations, destinations)
             == PatchAll(code, relocations, destinations) + (branch.opcode + [0, 0, 0, 0])
    ensures var r := Relocation(|code| + |branch.opcode|, branch.target);
            PatchAll(code + (branch.opcode + [0, 0, 0, 0]), relocations + [r], destinations)
            == PatchAll(code, relocations, destinations) + branch.opcode
               + Displacement(destinations[branch.target] - (|code| + |branch.opcode|) - 4)
  {
    hide Displacement;
    var r := Relocation(|code| + |branch.opcode|, branch.target);
    assert (relocations + [r])[..|relocations|] == relocations;
    var patched := PatchAll(code, relocations, destinations) + (branch.opcode + [0, 0, 0, 0]);
    assert patched[..r.offset] == PatchAll(code, relocations, destinations) + branch.opcode;
    assert patched[r.offset + 4..] == [];
  }
}
