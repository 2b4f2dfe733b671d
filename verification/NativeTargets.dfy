/** In the native code of a compiled function every jump lands on the code of a label. */
module NativeTargets {
  import opened Values
  import opened Instructions
  import opened SyntaxTree
  import opened Compiler
  import opened CompiledJumps
  import opened Removal
  import opened Temporaries
  import opened Encoding
  import opened ByteMachine
  import opened DecodeLoop
  import opened NativeJumps
  import opened JumpsLand
  import opened CompilerPasses

  // The optimised list of a definition.

  ghost predicate JumpsPlaced(items: seq<Item>) {
    WellExtended(items) && forall i :: 0 <= i < |items| ==> Aimed(items[i], items, {})
  }

  /** Long items and extensions are kept. */
  predicate KeepsLong(items: seq<Item>, keep: seq<bool>)
    requires |keep| == |items|
  {
    forall i :: 0 <= i < |items| && (Long(items[i]) || IsExtension(items[i])) ==> keep[i]
  }

  predicate IsExtension(item: Item) {
    item.Instruction? && item.opcode.COUNT_EXTENSION?
  }

  lemma FilterExtended(items: seq<Item>, keep: seq<bool>)
    requires WellExtended(items) && |keep| == |items| && KeepsLong(items, keep)
    ensures WellExtended(Filter(items, keep))
  {
    hide Long, Filter, Extends;
    var r := Filter(items, keep);
    forall k | 0 <= k < |r| && Long(r[k]) ensures k > 0 && Extends(r[k - 1], r[k]) {
      var i := FilterFrom(items, keep, k);
      assert Extends(items[i - 1], items[i]);
      assert IsExtension(items[i - 1]) by { ExtendsParts(items[i - 1], items[i]); }
      FilterAt(items, keep, i - 1);
    }
    forall k | 0 <= k < |r| && IsExtension(r[k]) ensures k + 1 < |r| && Extends(r[k], r[k + 1]) {
      var i := FilterFrom(items, keep, k);
      assert Extends(items[i], items[i + 1]);
      ExtendsParts(items[i], items[i + 1]);
      FilterAt(items, keep, i + 1);
    }
  }

  lemma ExtendsParts(extension: Item, item: Item)
    requires Extends(extension, item)
    ensures IsExtension(extension) && Long(item)
  {
  }

  /** The second pass changes neither extensions nor what they extend. */
  lemma LoweredExtended(items: seq<Item>)
    requires WellExtended(items)
    ensures WellExtended(Lowered(items)) && KeepsLong(Lowered(items), KeepLowered(items))
  {
    hide WellExtended, Lowered, Vanishes, Behind, ReferencesBefore, OnlyPointer;
    var r := Lowered(items);
    forall i | 0 <= i < |items|
      ensures Long(r[i]) || Long(items[i]) || IsExtension(r[i]) || IsExtension(items[i]) ==>
                r[i] == items[i] && !Vanishes(items, i)
    {
      LowerLeaves(items, i);
    }
    SameExtended(items, r);
  }

  lemma LowerLeaves(items: seq<Item>, i: nat)
    requires i < |items|
    ensures Long(Lowered(items)[i]) || Long(items[i]) || IsExtension(Lowered(items)[i]) || IsExtension(items[i]) ==>
              Lowered(items)[i] == items[i] && !Vanishes(items, i)
  {
    hide OnlyPointer, ReferencesBefore, Behind;
  }

  lemma SameExtended(items: seq<Item>, r: seq<Item>)
    requires WellExtended(items) && |r| == |items|
    requires forall i :: 0 <= i < |items| ==>
               (Long(r[i]) || Long(items[i]) || IsExtension(r[i]) || IsExtension(items[i]) ==> r[i] == items[i])
    ensures WellExtended(r)
  {
    hide Long, Extends;
    forall i | 0 <= i < |r| && Long(r[i]) ensures i > 0 && Extends(r[i - 1], r[i]) {
      assert Extends(items[i - 1], items[i]);
      ExtendsParts(items[i - 1], items[i]);
    }
    forall i | 0 <= i < |r| && IsExtension(r[i]) ensures i + 1 < |r| && Extends(r[i], r[i + 1]) {
      assert Extends(items[i], items[i + 1]);
      ExtendsParts(items[i], items[i + 1]);
    }
  }

  predicate EndsInReturn(items: seq<Item>) {
    |items| > 0 && items[|items| - 1].Instruction? && items[|items| - 1].opcode.RETURN?
  }

  lemma CompiledPlaced(d: Definition)
    requires WellFormedDefinition(d) && CompileDefinition(d).Success?
    ensures JumpsPlaced(CompileDefinition(d).value.items) && EndsInReturn(CompileDefinition(d).value.items)
  {
    hide Aimed, Compile, WellFormed, Bind;
    NodeAimed(BodyOf(d), Compiler.Start(d), None, None, {});
    var (s, o) := Compile(BodyOf(d), Compiler.Start(d), None, None).value;
    PlainAimed(s, RETURN, [o], {});
  }

  lemma FilterPlaced(items: seq<Item>, keep: seq<bool>)
    requires JumpsPlaced(items) && KeepsLabels(items, keep) && KeepsLong(items, keep)
    ensures JumpsPlaced(Filter(items, keep))
  {
    FilterExtended(items, keep);
    hide Filter, WellExtended;
    var r := Filter(items, keep);
    forall k | 0 <= k < |r| ensures Aimed(r[k], r, {}) {
      var i := FilterFrom(items, keep, k);
      assert Aimed(items[i], items, {});
      forall l: nat | Label(l) in items ensures Label(l) in r {
        var j :| 0 <= j < |items| && items[j] == Label(l);
        FilterAt(items, keep, j);
      }
    }
  }

  /** The second pass leaves jumps, labels and returns alone. */
  lemma LoweredPlaced(items: seq<Item>)
    requires JumpsPlaced(items) && EndsInReturn(items)
    ensures JumpsPlaced(Lowered(items)) && EndsInReturn(Lowered(items))
    ensures KeepsLabels(Lowered(items), KeepLowered(items)) && KeepLowered(items)[|items| - 1]
    ensures KeepsLong(Lowered(items), KeepLowered(items))
  {
    LoweredExtended(items);
    hide WellExtended, KeepsLong, Lowered, KeepLowered, Vanishes, Lower, ReferencesBefore, OffsetCount, Aimed;
    var r := Lowered(items);
    forall i | 0 <= i < |items|
      ensures items[i].Label? ==> r[i] == items[i] && KeepLowered(items)[i]
      ensures items[i].Instruction?
              && (IsJump(items[i].opcode) || items[i].opcode.RETURN? || items[i].opcode.CASE_JUMP?)
              ==> r[i] == items[i] && KeepLowered(items)[i]
      ensures r[i].Instruction? && OffsetCount(r[i].opcode, |r[i].operands|) > 0 ==> r[i] == items[i]
    {
      JumpsStay(items, i);
    }
    assert JumpsPlaced(r) by { SameAimed(items, r); }
  }

  /** Jumps and labels that stay are aimed as before. */
  lemma SameAimed(items: seq<Item>, r: seq<Item>)
    requires JumpsPlaced(items) && WellExtended(r) && |r| == |items|
    requires forall i :: 0 <= i < |items| ==>
               (items[i].Label? || (r[i].Instruction? && OffsetCount(r[i].opcode, |r[i].operands|) > 0) ==>
                  r[i] == items[i])
    ensures JumpsPlaced(r)
  {
    hide WellExtended, OffsetCount;
    forall l: nat | Label(l) in items ensures Label(l) in r {
      var j :| 0 <= j < |items| && items[j] == Label(l);
      assert r[j] == Label(l);
    }
    forall i | 0 <= i < |items| ensures Aimed(r[i], r, {}) {
      assert Aimed(items[i], items, {});
    }
  }

  lemma JumpsStay(items: seq<Item>, i: nat)
    requires i < |items|
    ensures var r := Lowered(items)[i];
            && (items[i].Label? ==> r == items[i] && !Vanishes(items, i))
            && (items[i].Instruction?
                && (IsJump(items[i].opcode) || items[i].opcode.RETURN? || items[i].opcode.CASE_JUMP?)
                ==> r == items[i] && !Vanishes(items, i))
            && (r.Instruction? && OffsetCount(r.opcode, |r.operands|) > 0 ==> r == items[i])
  {
    hide OnlyPointer, ReferencesBefore, Behind;
  }

  lemma OptimizedPlaced(d: Definition)
    requires WellFormedDefinition(d) && CompileDefinition(d).Success?
    ensures JumpsPlaced(FullyOptimized(d).value) && EndsInReturn(FullyOptimized(d).value)
  {
    hide WellFormedDefinition, CompileDefinition, JumpsPlaced, Lowered, KeepLowered;
    CompiledPlaced(d);
    var items := CompileDefinition(d).value.items;
    var keep := KeepJumps(items);
    FilterPlaced(items, keep);
    assert EndsInReturn(Filter(items, keep));
    var middle := Filter(items, keep);
    LoweredPlaced(middle);
    FilterPlaced(Lowered(middle), KeepLowered(middle));
    assert EndsInReturn(Filter(Lowered(middle), KeepLowered(middle)));
  }

  // Branches.

  /** The displacements of the item fit their words. */
  predicate OffsetsFit(items: seq<Item>, i: nat)
    requires i < |items|
  {
    items[i].Instruction? ==>
      forall j :: 0 <= j < |items[i].operands| && items[i].operands[j].To? ==>
        -32768 <= Delta(items, i, items[i].operands[j].target) < 32768
  }

  /** What the words of the bytecode can hold: counts, extensions and displacements. */
  predicate WordsSuffice(items: seq<Item>) {
    forall i :: 0 <= i < |items| ==> CountFits(items[i]) && OffsetsFit(items, i)
  }

  /** The opcode has this number of operands, or this is more than its implicit ones; and all fit the register file. */
  predicate CountFits(item: Item) {
    item.Instruction? && !item.opcode.COUNT_EXTENSION? ==>
      && |item.operands| < REGISTER_FILE_SIZE
      && match ImplicitCount(item.opcode)
         case None => |item.operands| == Code(item.opcode) / 16
         case Some(k) => k <= |item.operands| && (item.opcode.CASE_JUMP? ==> |item.operands| % 2 == 0)
  }

  /** Extensions are where they should be, so that everything can be decoded. */
  lemma {:induction false} ExtensionBeforeIs(items: seq<Item>, i: nat)
    requires WellExtended(items) && i <= |items| && forall k :: 0 <= k < |items| ==> CountFits(items[k])
    ensures ExtensionBefore(items, i)
            == if i < |items| && Long(items[i]) then VariableItems(items[i].opcode, |items[i].operands|) / 16 else 0
  {
    if i > 0 {
      ExtensionBeforeIs(items, i - 1);
      assert IsExtension(items[i - 1]) ==> i < |items| && Extends(items[i - 1], items[i]);
      assert i < |items| && Long(items[i]) ==> Extends(items[i - 1], items[i]);
      assert i < |items| ==> CountFits(items[i]);
    }
  }

  lemma AllDecodable(items: seq<Item>)
    requires JumpsPlaced(items) && WordsSuffice(items)
    ensures forall i :: 0 <= i < |items| ==> Decodable(items, i)
  {
    hide Aimed, OffsetsFit;
    forall i | 0 <= i < |items| ensures Decodable(items, i) {
      assert CountFits(items[i]);
      ExtensionBeforeIs(items, i);
      hide ExtensionBefore;
      if IsExtension(items[i]) {
        assert Extends(items[i], items[i + 1]) && CountFits(items[i + 1]);
      }
    }
  }

  ghost predicate IsLabelAddress(items: seq<Item>, target: int) {
    exists id: nat :: Label(id) in items && target == PcOf(items, Position(items, id))
  }

  ghost predicate BranchesToLabels(items: seq<Item>, pieces: seq<Piece>) {
    forall k :: 0 <= k < |pieces| && pieces[k].Branch? ==> IsLabelAddress(items, pieces[k].target)
  }

  /** Displacement operand w of item i leads to a label. */
  lemma OffsetIsLabel(items: seq<Item>, i: nat, w: nat)
    requires i < |items| && items[i].Instruction? && Aimed(items[i], items, {}) && OffsetsFit(items, i)
    requires var count := |items[i].operands|; count - OffsetCount(items[i].opcode, count) <= w < count
    ensures IsLabelAddress(items, ExpectedInstruction(items, i).next + Word(ExpectedInstruction(items, i), w))
  {
    hide ExpectedInstruction, OffsetCount;
    var id := items[i].operands[w].target;
    OffsetLeadsToLabel(items, i, w, id);
  }

  lemma {:induction false} CasesToLabels(g: Generator, items: seq<Item>, i: nat, count: nat)
    requires i < |items| && items[i].Instruction? && items[i].opcode.CASE_JUMP? && |items[i].operands| % 2 == 0
    requires Aimed(items[i], items, {}) && OffsetsFit(items, i) && 2 * count + 2 <= |items[i].operands|
    ensures BranchesToLabels(items, CasePieces(g, ExpectedInstruction(items, i), count))
  {
    hide IsLabelAddress, Aimed, OffsetsFit, Words, PcOf;
    if count > 0 {
      CasesToLabels(g, items, i, count - 1);
      OffsetIsLabel(items, i, |items[i].operands| / 2 + (count - 1));
    }
  }

  lemma InstructionToLabels(g: Generator, items: seq<Item>, i: nat)
    requires i < |items| && items[i].Instruction? && !items[i].opcode.COUNT_EXTENSION? && Decodable(items, i)
    requires Aimed(items[i], items, {}) && OffsetsFit(items, i)
    ensures BranchesToLabels(items, InstructionPieces(g, ExpectedInstruction(items, i)))
  {
    hide IsLabelAddress, Aimed, OffsetsFit, Words, PcOf, CasePieces, ExtensionBefore;
    var op, count := items[i].opcode, |items[i].operands|;
    OpcodeRoundTrip(op);
    match op
    case JUMP => OffsetIsLabel(items, i, 0);
    case JUMP_IF_TRUE => OffsetIsLabel(items, i, 1);
    case JUMP_IF_FALSE => OffsetIsLabel(items, i, 1);
    case CASE_JUMP =>
      CasesToLabels(g, items, i, (count - 2) / 2);
      OffsetIsLabel(items, i, count - 1);
    case _ =>
  }

  lemma {:induction false} RoundsToLabels(g: Generator, items: seq<Item>, i: nat)
    requires i <= |items| && JumpsPlaced(items) && WordsSuffice(items)
    ensures forall j :: 0 <= j < |Expected(items, i)| ==> BranchesToLabels(items, RoundPieces(g, Expected(items, i)[j]))
    decreases |items| - i
  {
    AllDecodable(items);
    hide Aimed, OffsetsFit, Decodable, CountFits, WellExtended;
    if i < |items| {
      RoundsToLabels(g, items, i + 1);
      if items[i].Instruction? {
        if !items[i].opcode.COUNT_EXTENSION? { InstructionToLabels(g, items, i); }
        assert BranchesToLabels(items, RoundPieces(g, Expected(items, i)[0]));
      }
    }
  }

  lemma {:induction false} PiecesToLabels(g: Generator, items: seq<Item>, rounds: seq<Round>)
    requires forall j :: 0 <= j < |rounds| ==> BranchesToLabels(items, RoundPieces(g, rounds[j]))
    ensures BranchesToLabels(items, Pieces(g, rounds))
  {
    hide IsLabelAddress, RoundPieces;
    if rounds != [] {
      PiecesToLabels(g, items, rounds[..|rounds| - 1]);
      assert BranchesToLabels(items, RoundPieces(g, rounds[|rounds| - 1]));
    }
  }

  lemma LabelTargetsIn(items: seq<Item>, pieces: seq<Piece>)
    requires EndsInReturn(items) && BranchesToLabels(items, pieces)
    ensures TargetsIn(pieces, PcOf(items, |items|))
  {
    hide PcOf;
    forall k | 0 <= k < |pieces| && pieces[k].Branch? ensures 0 <= pieces[k].target < PcOf(items, |items|) {
      assert IsLabelAddress(items, pieces[k].target);
      var id: nat :| Label(id) in items && pieces[k].target == PcOf(items, Position(items, id));
      assert Position(items, id) < |items| && PcOf(items, Position(items, id)) < PcOf(items, |items|) by {
        hide PcOf;
        var at, last := Position(items, id), |items| - 1;
        var j :| 0 <= j < |items| && items[j] == Label(id);
        PcGrows(items, at, last);
        PcGrows(items, last, |items|);
      }
    }
  }

  /**
   Compiled functions meet what the patch loop needs: every branch target of the optimised list is an address of the
   function, namely that of a label.
   */
  lemma CompiledTargetsIn(g: Generator, d: Definition)
    requires WellFormedDefinition(d) && CompileDefinition(d).Success? && WordsSuffice(FullyOptimized(d).value)
    ensures var items := FullyOptimized(d).value;
            && BranchesToLabels(items, Pieces(g, Expected(items, 0)))
            && TargetsIn(Pieces(g, Expected(items, 0)), |AssembleFirst(items, |items|)|)
  {
    var items := FullyOptimized(d).value;
    OptimizedPlaced(d);
    hide WellFormedDefinition, CompileDefinition, FullyOptimized, JumpsPlaced;
    hide WordsSuffice, BranchesToLabels, TargetsIn;
    hide EndsInReturn, Pieces, Expected;
    RoundsToLabels(g, items, 0);
    PiecesToLabels(g, items, Expected(items, 0));
    LabelTargetsIn(items, Pieces(g, Expected(items, 0)));
  }

  /** Every native branch of a compiled function lands on the native code that begins at the address of a label. */
  lemma CompiledJumpLands(g: Generator, d: Definition, i: nat, k: nat) returns (id: nat, j: nat)
    requires WellFormedDefinition(d) && CompileDefinition(d).Success? && WordsSuffice(FullyOptimized(d).value)
    requires var rounds := Expected(FullyOptimized(d).value, 0);
             && SizeOf(Pieces(g, rounds)) < 0x7FFF_FFFF
             && i < |rounds| && k < |RoundPieces(g, rounds[i])| && RoundPieces(g, rounds[i])[k].Branch?
    ensures var items := FullyOptimized(d).value;
            var bytes, rounds := AssembleFirst(items, |items|), Expected(items, 0);
            && Label(id) in items && RoundPieces(g, rounds[i])[k].target == PcOf(items, Position(items, id))
            && j < |rounds| && rounds[j].pc == PcOf(items, Position(items, id))
            && DecodeFrom(bytes, 0, 0) == Success(rounds) && TargetsIn(Pieces(g, rounds), |bytes|)
            && 0 <= BranchOffset(g, rounds, i, k) <= |NativeCode(g, bytes)| - 4
            && Landing(NativeCode(g, bytes), BranchOffset(g, rounds, i, k)) == NativeJumps.Start(g, rounds, j)
  {
    var items := FullyOptimized(d).value;
    var rounds := Expected(items, 0);
    hide WellFormedDefinition, CompileDefinition, FullyOptimized, AssembleFirst, Expected, Landing, NativeCode;
    hide RoundPieces, Pieces, DecodeFrom, BranchOffset, TargetsIn, SizeOf, NativeJumps.Start, PcOf, JumpsPlaced;
    CompiledTargetsIn(g, d);
    OptimizedPlaced(d);
    RoundsToLabels(g, items, 0);
    assert BranchesToLabels(items, RoundPieces(g, rounds[i]));
    assert IsLabelAddress(items, RoundPieces(g, rounds[i])[k].target);
    id :| Label(id) in items && RoundPieces(g, rounds[i])[k].target == PcOf(items, Position(items, id));
    AllDecodable(items);
    AssembledJumpLands(g, items, i, k, id);
    j :| j < |rounds| && rounds[j].pc == PcOf(items, Position(items, id))
         && 0 <= BranchOffset(g, rounds, i, k) <= |NativeCode(g, AssembleFirst(items, |items|))| - 4
         && Landing(NativeCode(g, AssembleFirst(items, |items|)), BranchOffset(g, rounds, i, k))
            == NativeJumps.Start(g, rounds, j);
  }

  // Which label each branch leads to.

  /** Every instruction has its round. */
  lemma {:induction false} ItemIsRound(items: seq<Item>, i: nat, q: nat) returns (j: nat)
    requires i <= q < |items| && items[q].Instruction? && !items[q].opcode.COUNT_EXTENSION?
    ensures j < |Expected(items, i)|
    ensures Expected(items, i)[j] == Round(PcOf(items, q), Some(ExpectedInstruction(items, q)))
    decreases q - i
  {
    hide PcOf, ExpectedInstruction;
    if i == q {
      j := 0;
    } else {
      j := ItemIsRound(items, i + 1, q);
      if items[i].Instruction? { j := j + 1; }
    }
  }

  lemma {:induction false} CaseBranch(g: Generator, d: Decoded, count: nat, k: nat)
    requires k < count
    ensures |CasePieces(g, d, count)| == 2 * count
    ensures CasePieces(g, d, count)[2 * k] == Raw(g.body(d, k) + [0x84, 0xC0])
    ensures CasePieces(g, d, count)[2 * k + 1] == Branch([0x0F, 0x85], d.next + Word(d, 1 + d.caseCount + k))
  {
    CasePiecesSize(g, d, count - 1);
    if k < count - 1 { CaseBranch(g, d, count - 1, k); }
  }

  lemma {:induction false} CasePiecesSize(g: Generator, d: Decoded, count: nat)
    ensures |CasePieces(g, d, count)| == 2 * count
  {
    if count > 0 { CasePiecesSize(g, d, count - 1); }
  }

  /** The branch for choice k of a jump: jne behind a comparison for each case, je, jne or jmp for the others. */
  function BranchCode(op: Opcode, cases: nat, k: nat): seq<Byte> {
    match op
    case JUMP_IF_TRUE => [0x0F, 0x84]
    case JUMP_IF_FALSE => [0x0F, 0x85]
    case CASE_JUMP => if k < cases then [0x0F, 0x85] else [0xE9]
    case _ => [0xE9]
  }

  /** Piece 2 of a plain jump; pieces 2, 4, ... of the cases, and the one behind them of the default. */
  function BranchPiece(op: Opcode, cases: nat, k: nat): nat {
    if !op.CASE_JUMP? then 2 else if k < cases then 2 + 2 * k else 1 + 2 * cases
  }

  function CaseCount(operandCount: nat): nat {
    if operandCount >= 2 then (operandCount - 2) / 2 else 0
  }

  lemma PiecesOf(g: Generator, d: Decoded, op: Opcode)
    requires d.code == Code(op)
    ensures op.JUMP? ==> InstructionPieces(g, d) == [Raw(g.body(d, 0)), Branch([0xE9], d.next + Word(d, 0))]
    ensures op.JUMP_IF_TRUE? ==>
              InstructionPieces(g, d) == [Raw(g.body(d, 0)), Branch([0x0F, 0x84], d.next + Word(d, 1))]
    ensures op.JUMP_IF_FALSE? ==>
              InstructionPieces(g, d) == [Raw(g.body(d, 0)), Branch([0x0F, 0x85], d.next + Word(d, 1))]
    ensures op.CASE_JUMP? ==>
              InstructionPieces(g, d) == CasePieces(g, d, d.caseCount)
              + [Branch([0xE9], d.next + Word(d, if |d.words| == 0 then 0 else |d.words| - 1))]
  {
    hide CasePieces, Word;
  }

  /** The branch for choice k of a jump leads to the address of the label in displacement operand k. */
  lemma BranchIs(g: Generator, items: seq<Item>, q: nat, k: nat)
    requires q < |items| && items[q].Instruction? && Decodable(items, q) && Aimed(items[q], items, {})
    requires OffsetsFit(items, q) && (IsJump(items[q].opcode) || items[q].opcode.CASE_JUMP?)
    requires k < OffsetCount(items[q].opcode, |items[q].operands|)
    ensures var op, os := items[q].opcode, items[q].operands;
            var cases, pieces := CaseCount(|os|), InstructionPieces(g, ExpectedInstruction(items, q));
            var w, b := if op.CASE_JUMP? then 1 + cases + k else |os| - 1, BranchPiece(op, cases, k) - 1;
            && w == |os| - OffsetCount(op, |os|) + k && 0 <= w < |os| && os[w].To? && Label(os[w].target) in items
            && b < |pieces|
            && pieces[b] == Branch(BranchCode(op, cases, k), PcOf(items, Position(items, os[w].target)))
            && (op.CASE_JUMP? && k < cases ==>
                  b > 0 && pieces[b - 1] == Raw(g.body(ExpectedInstruction(items, q), k) + [0x84, 0xC0]))
  {
    hide PcOf, Words, ExtensionBefore, InstructionPieces, CasePieces, Word, Position, Code;
    var op, os, d := items[q].opcode, items[q].operands, ExpectedInstruction(items, q);
    var w := |os| - OffsetCount(op, |os|) + k;
    PiecesOf(g, d, op);
    JumpArity(items, q);
    assert w < |os| && os[w].To?;
    OffsetLeadsToLabel(items, q, w, os[w].target);
    if op.CASE_JUMP? {
      assert |d.words| == |os| && w == 1 + d.caseCount + k;
      if k < d.caseCount {
        CaseBranch(g, d, d.caseCount, k);
        var pieces, cases := InstructionPieces(g, d), CasePieces(g, d, d.caseCount);
        assert pieces[2 * k] == cases[2 * k] && pieces[2 * k + 1] == cases[2 * k + 1];
      } else {
        CasePiecesSize(g, d, d.caseCount);
        assert InstructionPieces(g, d)[2 * d.caseCount] == Branch([0xE9], d.next + Word(d, w));
      }
    }
  }

  lemma JumpArity(items: seq<Item>, q: nat)
    requires q < |items| && items[q].Instruction? && Decodable(items, q)
    ensures items[q].opcode.JUMP? ==> |items[q].operands| == 1
    ensures items[q].opcode.JUMP_IF_TRUE? || items[q].opcode.JUMP_IF_FALSE? ==> |items[q].operands| == 2
    ensures items[q].opcode.CASE_JUMP? ==>
              && |items[q].operands| == 2 * CaseCount(|items[q].operands|) + 2
              && ExpectedInstruction(items, q).caseCount == CaseCount(|items[q].operands|)
  {
    hide PcOf, Words, ExtensionBefore;
  }

  /**
   The native code of instruction q has, for choice k, a branch with this displacement offset, which for a case is
   behind the comparison with key k; it goes to the code that begins at the address of the label in displacement
   operand k.
   */
  ghost predicate ChoiceLands(g: Generator, items: seq<Item>, q: nat, k: nat, i: nat, offset: nat, j: nat) {
    var bytes, rounds := AssembleFirst(items, |items|), Expected(items, 0);
    && q < |items| && items[q].Instruction?
    && var op, os := items[q].opcode, items[q].operands;
       var w, piece := if op.CASE_JUMP? then 1 + CaseCount(|os|) + k else |os| - 1, BranchPiece(op, CaseCount(|os|), k);
       && DecodeFrom(bytes, 0, 0) == Success(rounds) && TargetsIn(Pieces(g, rounds), |bytes|)
       && i < |rounds| && rounds[i].pc == PcOf(items, q)
       && piece < |RoundPieces(g, rounds[i])| && RoundPieces(g, rounds[i])[piece].Branch?
       && offset == BranchOffset(g, rounds, i, piece)
       && (op.CASE_JUMP? && k < CaseCount(|os|) ==>
             piece > 0
             && RoundPieces(g, rounds[i])[piece - 1] == Raw(g.body(ExpectedInstruction(items, q), k) + [0x84, 0xC0]))
       && HasBranch(NativeCode(g, bytes), offset, BranchCode(op, CaseCount(|os|), k))
       && 0 <= w < |os| && os[w].To? && Label(os[w].target) in items
       && j < |rounds| && rounds[j].pc == PcOf(items, Position(items, os[w].target))
       && Landing(NativeCode(g, bytes), offset) == NativeJumps.Start(g, rounds, j)
  }

  predicate HasBranch(code: seq<Byte>, offset: nat, opcode: seq<Byte>) {
    |opcode| <= offset <= |code| - 4 && code[offset - |opcode|..offset] == opcode
  }

  /** The piece that is the branch, among those of the whole round. */
  lemma ChoiceOfRound(g: Generator, items: seq<Item>, q: nat, k: nat) returns (i: nat)
    requires q < |items| && items[q].Instruction? && Decodable(items, q) && Aimed(items[q], items, {})
    requires OffsetsFit(items, q) && (IsJump(items[q].opcode) || items[q].opcode.CASE_JUMP?)
    requires k < OffsetCount(items[q].opcode, |items[q].operands|)
    ensures i < |Expected(items, 0)| && Expected(items, 0)[i].pc == PcOf(items, q)
    ensures var op, os := items[q].opcode, items[q].operands;
            var cases, pieces := CaseCount(|os|), RoundPieces(g, Expected(items, 0)[i]);
            var w, piece := if op.CASE_JUMP? then 1 + cases + k else |os| - 1, BranchPiece(op, cases, k);
            && 0 <= w < |os| && os[w].To? && Label(os[w].target) in items && piece < |pieces|
            && pieces[piece] == Branch(BranchCode(op, cases, k), PcOf(items, Position(items, os[w].target)))
            && (op.CASE_JUMP? && k < cases ==>
                  piece > 0 && pieces[piece - 1] == Raw(g.body(ExpectedInstruction(items, q), k) + [0x84, 0xC0]))
  {
    BranchIs(g, items, q, k);
    i := ItemIsRound(items, 0, q);
    hide Expected, PcOf, InstructionPieces, Decodable, Aimed, OffsetsFit, ExpectedInstruction, BranchCode, Position;
    hide OffsetCount;
    var b := BranchPiece(items[q].opcode, CaseCount(|items[q].operands|), k);
    var pieces, own := RoundPieces(g, Expected(items, 0)[i]), InstructionPieces(g, ExpectedInstruction(items, q));
    assert pieces[b] == own[b - 1];
    assert b > 1 ==> pieces[b - 1] == own[b - 2];
  }

  lemma ChoiceOfItem(g: Generator, items: seq<Item>, q: nat, k: nat) returns (i: nat, offset: nat, j: nat)
    requires JumpsPlaced(items) && WordsSuffice(items)
    requires TargetsIn(Pieces(g, Expected(items, 0)), |AssembleFirst(items, |items|)|)
    requires SizeOf(Pieces(g, Expected(items, 0))) < 0x7FFF_FFFF
    requires q < |items| && items[q].Instruction? && (IsJump(items[q].opcode) || items[q].opcode.CASE_JUMP?)
    requires k < OffsetCount(items[q].opcode, |items[q].operands|)
    ensures ChoiceLands(g, items, q, k, i, offset, j)
  {
    hide AssembleFirst, Expected, Landing, NativeCode, Pieces, DecodeFrom, BranchOffset, TargetsIn, SizeOf;
    hide NativeJumps.Start, PcOf, Decodable, Aimed, OffsetsFit, ExpectedInstruction, BranchCode, RoundPieces;
    hide OffsetCount, BranchPiece, CaseCount, Position;
    var bytes, rounds := AssembleFirst(items, |items|), Expected(items, 0);
    AllDecodable(items);
    i := ChoiceOfRound(g, items, q, k);
    hide JumpsPlaced, WordsSuffice;
    var os := items[q].operands;
    var b := BranchPiece(items[q].opcode, CaseCount(|os|), k);
    var id := os[if items[q].opcode.CASE_JUMP? then 1 + CaseCount(|os|) + k else |os| - 1].target;
    AssembledJumpLands(g, items, i, b, id);
    JumpLands(g, bytes, i, b);
    offset := BranchOffset(g, rounds, i, b);
    j :| j < |rounds| && rounds[j].pc == PcOf(items, Position(items, id))
         && 0 <= offset <= |NativeCode(g, bytes)| - 4
         && Landing(NativeCode(g, bytes), offset) == NativeJumps.Start(g, rounds, j);
  }

  /**
   In the native code of a compiled function, choice k of a jump goes to the code of the label that is its displacement
   operand k, which is where the list machine goes.
   */
  lemma CompiledChoiceLands(g: Generator, d: Definition, q: nat, k: nat) returns (i: nat, offset: nat, j: nat)
    requires WellFormedDefinition(d) && CompileDefinition(d).Success? && WordsSuffice(FullyOptimized(d).value)
    requires var items := FullyOptimized(d).value;
             && SizeOf(Pieces(g, Expected(items, 0))) < 0x7FFF_FFFF
             && q < |items| && items[q].Instruction? && (IsJump(items[q].opcode) || items[q].opcode.CASE_JUMP?)
             && k < OffsetCount(items[q].opcode, |items[q].operands|)
    ensures ChoiceLands(g, FullyOptimized(d).value, q, k, i, offset, j)
  {
    CompiledTargetsIn(g, d);
    OptimizedPlaced(d);
    hide WellFormedDefinition, CompileDefinition, FullyOptimized, JumpsPlaced, WordsSuffice, TargetsIn, ChoiceLands;
    hide Expected, Pieces, SizeOf, OffsetCount;
    i, offset, j := ChoiceOfItem(g, FullyOptimized(d).value, q, k);
  }
}
