/** Jumps of native code land where the bytecode says. */
module JumpsLand {
  import opened Values
  import opened Instructions
  import opened Encoding
  import opened ByteMachine
  import opened DecodeLoop
  import opened NativeJumps
  import opened JitCompiler

  /** Addresses of rounds increase. */
  lemma {:induction false} RoundsIncrease(bytes: seq<Byte>, pc: nat, extension: nat)
    requires DecodeFrom(bytes, pc, extension).Success?
    ensures var rounds := DecodeFrom(bytes, pc, extension).value;
            && (forall i :: 0 <= i < |rounds| ==> pc <= rounds[i].pc < |bytes|)
            && Increasing(rounds)
    decreases |bytes| - pc
  {
    hide DecodeAt, Extended;
    if pc < |bytes| {
      if bytes[pc] == COUNT_EXTENSION_CODE {
        RoundsIncrease(bytes, pc + 3, Extended(extension, ExtensionAt(bytes, pc)));
      } else {
        RoundsIncrease(bytes, DecodeAt(bytes, pc, extension, REGISTER_FILE_SIZE - 1).value.next, 0);
      }
    }
  }

  predicate Increasing(rounds: seq<Round>) {
    forall i, j :: 0 <= i < j < |rounds| ==> rounds[i].pc < rounds[j].pc
  }

  lemma {:induction false} SizeAppended(a: seq<Piece>, b: seq<Piece>)
    ensures SizeOf(a + b) == SizeOf(a) + SizeOf(b)
  {
    if b == [] {
      assert a + b == a;
    } else {
      var n := |b| - 1;
      assert (a + b)[..|a + b| - 1] == a + b[..n];
      SizeAppended(a, b[..n]);
    }
  }

  /** The pieces of a round stand in one stretch of the code, from its start to the next one's. */
  lemma {:induction false} RoundStretch(g: Generator, rounds: seq<Round>, i: nat)
    requires i < |rounds|
    ensures var first, all := Pieces(g, rounds[..i]), Pieces(g, rounds);
            && |first| + |RoundPieces(g, rounds[i])| <= |all|
            && all[..|first|] == first
            && all[|first|..|first| + |RoundPieces(g, rounds[i])|] == RoundPieces(g, rounds[i])
            && Start(g, rounds, i) + SizeOf(RoundPieces(g, rounds[i])) == Start(g, rounds, i + 1) <= SizeOf(all)
    decreases |rounds|
  {
    hide RoundPieces;
    var before, last := rounds[..|rounds| - 1], rounds[|rounds| - 1];
    var all := Pieces(g, rounds);
    SizeAppended(Pieces(g, before), RoundPieces(g, last));
    if i < |before| {
      assert before[..i] == rounds[..i] && before[..i + 1] == rounds[..i + 1];
      RoundStretch(g, before, i);
      PrefixStays(Pieces(g, before), RoundPieces(g, last), |Pieces(g, rounds[..i])|, |RoundPieces(g, rounds[i])|);
    } else {
      assert rounds[..i] == before && rounds[..i + 1] == rounds;
    }
  }

  lemma PrefixStays(a: seq<Piece>, b: seq<Piece>, n: nat, m: nat)
    requires n + m <= |a|
    ensures (a + b)[..n] == a[..n] && (a + b)[n..n + m] == a[n..n + m]
  {
  }

  /** The destination recorded for the address of a round is the round's start; no other address has one. */
  lemma {:induction false} DestinationOfRound(g: Generator, rounds: seq<Round>, pc: nat)
    requires Increasing(rounds)
    ensures -1 <= DestinationOf(g, rounds, pc) <= SizeOf(Pieces(g, rounds))
    ensures forall j :: 0 <= j < |rounds| && rounds[j].pc == pc ==> DestinationOf(g, rounds, pc) == Start(g, rounds, j)
    ensures DestinationOf(g, rounds, pc) == -1 <==> forall j :: 0 <= j < |rounds| ==> rounds[j].pc != pc
  {
    hide Pieces;
    if rounds != [] {
      var n := |rounds| - 1;
      var before := rounds[..n];
      DestinationOfRound(g, before, pc);
      RoundStretch(g, rounds, n);
      assert rounds[..n] == before && rounds[..n + 1] == rounds;
      forall j | 0 <= j < n ensures Start(g, rounds, j) == Start(g, before, j) {
        assert rounds[..j] == before[..j];
      }
    }
  }

  /** The code that the JIT compiler makes of a bytecode function. */
  function NativeCode(g: Generator, bytes: seq<Byte>): (code: seq<Byte>)
    requires DecodeFrom(bytes, 0, 0).Success? && TargetsIn(Pieces(g, DecodeFrom(bytes, 0, 0).value), |bytes|)
  {
    var rounds := DecodeFrom(bytes, 0, 0).value;
    Link(Pieces(g, rounds), Destinations(g, rounds, |bytes|))
  }

  /** Branch k of round i: where its displacement is. */
  function BranchOffset(g: Generator, rounds: seq<Round>, i: nat, k: nat): nat
    requires i < |rounds| && k < |RoundPieces(g, rounds[i])| && RoundPieces(g, rounds[i])[k].Branch?
  {
    Start(g, rounds, i) + SizeOf(RoundPieces(g, rounds[i])[..k]) + |RoundPieces(g, rounds[i])[k].opcode|
  }

  /** In linked code, branch k of round i stands in the round's stretch and lands on its target's destination. */
  lemma BranchLands(g: Generator, rounds: seq<Round>, destinations: seq<int>, i: nat, k: nat)
    requires TargetsIn(Pieces(g, rounds), |destinations|) && SizeOf(Pieces(g, rounds)) < 0x7FFF_FFFF
    requires i < |rounds| && k < |RoundPieces(g, rounds[i])| && RoundPieces(g, rounds[i])[k].Branch?
    requires 0 <= RoundPieces(g, rounds[i])[k].target < |destinations|
    requires -1 <= destinations[RoundPieces(g, rounds[i])[k].target] <= SizeOf(Pieces(g, rounds))
    ensures var code, branch := Link(Pieces(g, rounds), destinations), RoundPieces(g, rounds[i])[k];
            var offset := BranchOffset(g, rounds, i, k);
            && Start(g, rounds, i) + |branch.opcode| <= offset && offset + 4 <= Start(g, rounds, i + 1) <= |code|
            && code[offset - |branch.opcode|..offset] == branch.opcode
            && Landing(code, offset) == destinations[branch.target]
  {
    hide Landing, Link, RoundPieces, Pieces;
    var first, all, own := Pieces(g, rounds[..i]), Pieces(g, rounds), RoundPieces(g, rounds[i]);
    RoundStretch(g, rounds, i);
    assert all[|first| + k] == own[k] by { assert all[|first|..|first| + |own|][k] == own[k]; }
    BranchPlace(first, all, own, k);
    LinkedBranchLands(all, destinations, |first| + k);
  }

  /**
   Forward, backward and case jumps: the processor goes from a branch to the recorded start of the round at the
   target, and it leaves the code just when no round begins there.
   */
  lemma JumpLands(g: Generator, bytes: seq<Byte>, i: nat, k: nat)
    requires DecodeFrom(bytes, 0, 0).Success? && TargetsIn(Pieces(g, DecodeFrom(bytes, 0, 0).value), |bytes|)
    requires var rounds := DecodeFrom(bytes, 0, 0).value;
             && SizeOf(Pieces(g, rounds)) < 0x7FFF_FFFF
             && i < |rounds| && k < |RoundPieces(g, rounds[i])| && RoundPieces(g, rounds[i])[k].Branch?
    ensures var rounds, code := DecodeFrom(bytes, 0, 0).value, NativeCode(g, bytes);
            var branch, offset := RoundPieces(g, rounds[i])[k], BranchOffset(g, rounds, i, k);
            && Start(g, rounds, i) + |branch.opcode| <= offset && offset + 4 <= Start(g, rounds, i + 1) <= |code|
            && code[offset - |branch.opcode|..offset] == branch.opcode
            && (forall j :: 0 <= j < |rounds| && rounds[j].pc == branch.target ==>
                  Landing(code, offset) == Start(g, rounds, j))
            && (Landing(code, offset) < 0 <==> forall j :: 0 <= j < |rounds| ==> rounds[j].pc != branch.target)
  {
    hide Landing, Link, DecodeFrom, DestinationOf, RoundPieces, Pieces, BranchOffset, SizeOf, Start;
    var rounds := DecodeFrom(bytes, 0, 0).value;
    var branch := RoundPieces(g, rounds[i])[k];
    RoundsIncrease(bytes, 0, 0);
    TargetWithin(g, rounds, i, k, |bytes|);
    DestinationOfRound(g, rounds, branch.target);
    BranchLands(g, rounds, Destinations(g, rounds, |bytes|), i, k);
  }

  lemma BranchPlace(first: seq<Piece>, all: seq<Piece>, own: seq<Piece>, k: nat)
    requires k < |own| && own[k].Branch? && |first| + |own| <= |all|
    requires all[..|first|] == first && all[|first|..|first| + |own|] == own
    ensures SizeOf(all[..|first| + k]) == SizeOf(first) + SizeOf(own[..k])
    ensures SizeOf(own[..k]) + |own[k].opcode| + 4 <= SizeOf(own)
  {
    hide SizeOf;
    assert all[..|first| + k] == first + own[..k] by {
      assert all[..|first| + |own|] == first + own;
      assert (first + own)[..|first| + k] == first + own[..k];
    }
    SizeAppended(first, own[..k]);
    assert own == own[..k] + [own[k]] + own[k + 1..];
    SizeAppended(own[..k], [own[k]]);
    SizeAppended(own[..k] + [own[k]], own[k + 1..]);
    BranchSize(own[k]);
  }

  lemma BranchSize(branch: Piece)
    requires branch.Branch?
    ensures SizeOf([branch]) == |branch.opcode| + 4
  {
    assert [branch][..0] == [];
  }

  // Assembled functions.

  /** An offset operand that fits its word leads to the address of its label. */
  lemma OffsetLeadsToLabel(items: seq<Item>, i: nat, w: nat, id: nat)
    requires i < |items| && items[i].Instruction? && w < |items[i].operands| && items[i].operands[w] == To(id)
    requires -32768 <= Delta(items, i, id) < 32768
    ensures var d := ExpectedInstruction(items, i); d.next + Word(d, w) == PcOf(items, Position(items, id))
  {
  }

  /** The address of a label that is not at the very end is the address of a round. */
  lemma {:induction false} AddressIsRound(items: seq<Item>, i: nat, n: nat) returns (j: nat)
    requires i <= n <= |items| && PcOf(items, n) < PcOf(items, |items|)
    ensures j < |Expected(items, i)| && Expected(items, i)[j].pc == PcOf(items, n)
    decreases |items| - i
  {
    if i < n {
      j := AddressIsRound(items, i + 1, n);
      if items[i].Instruction? { j := j + 1; }
    } else if items[i].Label? {
      j := AddressIsRound(items, i + 1, i + 1);
    } else {
      j := 0;
    }
  }

  /**
   Native jumps of an assembled function: a branch to a label lands on the native code that begins at the label's
   address.
   */
  lemma AssembledJumpLands(g: Generator, items: seq<Item>, i: nat, k: nat, id: nat)
    requires forall m :: 0 <= m < |items| ==> Decodable(items, m)
    requires var bytes, rounds := AssembleFirst(items, |items|), Expected(items, 0);
             && TargetsIn(Pieces(g, rounds), |bytes|) && SizeOf(Pieces(g, rounds)) < 0x7FFF_FFFF
             && i < |rounds| && k < |RoundPieces(g, rounds[i])| && RoundPieces(g, rounds[i])[k].Branch?
             && RoundPieces(g, rounds[i])[k].target == PcOf(items, Position(items, id))
    ensures var bytes, rounds := AssembleFirst(items, |items|), Expected(items, 0);
            DecodeFrom(bytes, 0, 0) == Success(rounds)
    ensures var bytes, rounds := AssembleFirst(items, |items|), Expected(items, 0);
            exists j: nat :: j < |rounds| && rounds[j].pc == PcOf(items, Position(items, id))
                             && 0 <= BranchOffset(g, rounds, i, k) <= |NativeCode(g, bytes)| - 4
                             && Landing(NativeCode(g, bytes), BranchOffset(g, rounds, i, k)) == Start(g, rounds, j)
  {
    hide AssembleFirst, Expected, Decodable, Landing, NativeCode, RoundPieces, Pieces, DecodeFrom, BranchOffset;
    DecodeRecovers(items, 0);
    var bytes, rounds, n := AssembleFirst(items, |items|), Expected(items, 0), Position(items, id);
    assert DecodeFrom(bytes, 0, 0) == Success(rounds);
    var own := RoundPieces(g, rounds[i]);
    TargetWithin(g, rounds, i, k, |bytes|);
    var j := AddressIsRound(items, 0, n);
    JumpLands(g, bytes, i, k);
  }

  lemma TargetWithin(g: Generator, rounds: seq<Round>, i: nat, k: nat, size: nat)
    requires i < |rounds| && k < |RoundPieces(g, rounds[i])| && RoundPieces(g, rounds[i])[k].Branch?
    requires TargetsIn(Pieces(g, rounds), size)
    ensures 0 <= RoundPieces(g, rounds[i])[k].target < size
  {
    hide RoundPieces, Pieces;
    RoundStretch(g, rounds, i);
    var first, all, own := Pieces(g, rounds[..i]), Pieces(g, rounds), RoundPieces(g, rounds[i]);
    assert all[|first|..|first| + |own|][k] == own[k] == all[|first| + k];
  }
}
