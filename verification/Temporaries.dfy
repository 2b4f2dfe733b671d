/** The second pass over the instruction list: which temporaries need no box or reference, and what replaces them. */
module Temporaries {
  import opened Instructions
  import opened Removal

  predicate Defines(item: Item, o: Operand) {
    && item.Instruction? && !item.opcode.COUNT_EXTENSION? && DestinationCount(item.opcode) == 1
    && |item.operands| > 0 && item.operands[0] == o
  }

  /** Operands that are marked as used: all behind the destination, except the target of a jump. */
  function UsedEnd(op: Opcode, operandCount: nat): nat {
    if IsJump(op) && operandCount > 0 then operandCount - 1 else operandCount
  }

  predicate IsPointerUse(op: Opcode, j: nat) {
    op.LOAD? || (op.STORE? && j == 0)
  }

  predicate UsesAt(item: Item, j: nat, o: Operand) {
    && item.Instruction? && !item.opcode.COUNT_EXTENSION?
    && DestinationCount(item.opcode) <= j < UsedEnd(item.opcode, |item.operands|)
    && item.operands[j] == o
  }

  /** The operand is the pointer of a load or store. */
  predicate Dereferences(item: Item, o: Operand) {
    item.Instruction? && exists j :: 0 <= j < |item.operands| && UsesAt(item, j, o) && IsPointerUse(item.opcode, j)
  }

  predicate UsesOtherwise(item: Item, o: Operand) {
    item.Instruction? && exists j :: 0 <= j < |item.operands| && UsesAt(item, j, o) && !IsPointerUse(item.opcode, j)
  }

  predicate DefinesBy(item: Item, o: Operand, op: Opcode) {
    Defines(item, o) && item.opcode == op
  }

  predicate DefinesByOther(item: Item, o: Operand, op: Opcode) {
    Defines(item, o) && item.opcode != op
  }

  predicate DefinedBy(items: seq<Item>, o: Operand, op: Opcode) {
    exists i :: 0 <= i < |items| && DefinesBy(items[i], o, op)
  }

  predicate DefinedByOther(items: seq<Item>, o: Operand, op: Opcode) {
    exists i :: 0 <= i < |items| && DefinesByOther(items[i], o, op)
  }

  predicate Dereferenced(items: seq<Item>, o: Operand) {
    exists i :: 0 <= i < |items| && Dereferences(items[i], o)
  }

  predicate UsedOtherwise(items: seq<Item>, o: Operand) {
    exists i :: 0 <= i < |items| && UsesOtherwise(items[i], o)
  }

  /** Only `op` defines the operand, and it is used as the pointer of loads and stores and for nothing else. */
  predicate OnlyPointer(items: seq<Item>, o: Operand, op: Opcode) {
    && o.In?
    && DefinedBy(items, o, op) && !DefinedByOther(items, o, op)
    && Dereferenced(items, o) && !UsedOtherwise(items, o)
  }

  predicate IsLocalOnlyAlloca(items: seq<Item>, o: Operand) {
    OnlyPointer(items, o, ALLOCA_WITH_VALUE)
  }

  predicate IsLocalOnlyReference(items: seq<Item>, o: Operand) {
    OnlyPointer(items, o, SLOT_REFERENCE_AT)
  }

  /** The definition of a reference that is only loaded and stored: it disappears. */
  predicate Vanishes(items: seq<Item>, i: nat)
    requires i < |items|
  {
    && items[i].Instruction? && items[i].opcode.SLOT_REFERENCE_AT? && |items[i].operands| == 3
    && IsLocalOnlyReference(items, items[i].operands[0])
  }

  /** The tuple and the slot behind each vanished reference that the pass has met so far. */
  type References = map<Operand, (Operand, Operand)>

  function ReferencesBefore(items: seq<Item>, i: nat): References
    requires i <= |items|
  {
    if i == 0 then map[]
    else
      var before := ReferencesBefore(items, i - 1);
      if Vanishes(items, i - 1) then
        var os := items[i - 1].operands;
        before[os[0] := (os[1], os[2])]
      else before
  }

  /** A reference that was not met yet has no operands. */
  function Behind(refs: References, o: Operand): (Operand, Operand) {
    if o in refs then refs[o] else (Missing, Missing)
  }

  function Lower(items: seq<Item>, refs: References, item: Item): Item {
    if item.Label? then item
    else
      var os := item.operands;
      match item.opcode
      case ALLOCA_WITH_VALUE =>
        if |os| == 3 && IsLocalOnlyAlloca(items, os[0]) then Instruction(MOVE, [os[0], os[2]]) else item
      case LOAD =>
        if |os| != 2 then item
        else if IsLocalOnlyAlloca(items, os[1]) then Instruction(MOVE, os)
        else if IsLocalOnlyReference(items, os[1])
        then Instruction(SLOT_AT, [os[0], Behind(refs, os[1]).0, Behind(refs, os[1]).1])
        else item
      case STORE =>
        if |os| != 2 then item
        else if IsLocalOnlyAlloca(items, os[0]) then Instruction(MOVE, os)
        else if IsLocalOnlyReference(items, os[0])
        then Instruction(SLOT_AT_PUT, [Behind(refs, os[0]).0, Behind(refs, os[0]).1, os[1]])
        else item
      case _ => item
  }

  /** The list with every instruction rewritten in place; what vanishes leaves a NOP. */
  function Lowered(items: seq<Item>): (r: seq<Item>)
    ensures |r| == |items|
    ensures forall i :: 0 <= i < |items| ==>
              r[i] == if Vanishes(items, i) then Instruction(NOP, [])
                else Lower(items, ReferencesBefore(items, i), items[i])
  {
    seq(|items|, i requires 0 <= i < |items| =>
      if Vanishes(items, i) then Instruction(NOP, []) else Lower(items, ReferencesBefore(items, i), items[i]))
  }

  function KeepLowered(items: seq<Item>): (keep: seq<bool>)
    ensures |keep| == |items|
    ensures forall i :: 0 <= i < |items| ==> keep[i] == !Vanishes(items, i)
  {
    seq(|items|, i requires 0 <= i < |items| => !Vanishes(items, i))
  }

  function OptimizeTemporaries(items: seq<Item>): seq<Item> {
    Filter(Lowered(items), KeepLowered(items))
  }

  // Where a removed reference still means what it meant.

  /** Item i puts a vanishing reference into local r. */
  predicate Refreshes(items: seq<Item>, i: nat, r: nat)
    requires i < |items|
  {
    Vanishes(items, i) && items[i].operands[0] == In(Locals, r)
  }

  /** Item i overwrites the tuple or the slot of a vanishing reference in local r. */
  predicate Disturbs(items: seq<Item>, i: nat, r: nat)
    requires i < |items|
  {
    exists d :: 0 <= d < |items| && Refreshes(items, d, r)
                && (Overwrites(items[i], items[d].operands[1]) || Overwrites(items[i], items[d].operands[2]))
  }

  predicate Overwrites(item: Item, o: Operand) {
    Defines(item, o) && o.In? && o.vector.Locals?
  }

  /** Control may go from item i to position j. */
  ghost predicate Precedes(items: seq<Item>, i: nat, j: nat)
    requires i < |items|
  {
    j == i + 1
    || (j < |items| && items[i].Instruction?
        && exists l: nat :: To(l) in items[i].operands && Position(items, l) == j)
  }

  /**
   A certificate that the pass may read tuple and slot where a reference is dereferenced: on every path to item i, the
   references in steady[i] are unset, or were made from the tuple and the slot that their operands still hold.
   */
  ghost predicate Steady(items: seq<Item>, steady: seq<set<nat>>) {
    && |steady| == |items| + 1
    && (forall i, j, r: nat :: 0 <= i < |items| && 0 <= j < |steady| && Precedes(items, i, j) && r in steady[j] ==>
          Refreshes(items, i, r) || (r in steady[i] && !Disturbs(items, i, r)))
    && (forall i, r: nat ::
          0 <= i < |items| && Dereferences(items[i], In(Locals, r)) && IsLocalOnlyReference(items, In(Locals, r)) ==>
            r in steady[i])
  }

  /**
   What the pass relies on: boxes and references are put into locals, and each vanishing reference has one
   definition, in front of its uses, whose tuple and slot are not overwritten in between.
   */
  ghost predicate Promotable(items: seq<Item>) {
    && (forall i :: 0 <= i < |items| ==> DefinesLocals(items[i]))
    && (forall d :: 0 <= d < |items| && Vanishes(items, d) ==> SettledReference(items, d))
    && (exists steady :: Steady(items, steady))
  }

  predicate DefinesLocals(item: Item) {
    item.Instruction? && (item.opcode.ALLOCA_WITH_VALUE? || item.opcode.SLOT_REFERENCE_AT?) ==>
      |item.operands| == 3 && item.operands[0].In? && item.operands[0].vector.Locals?
  }

  predicate IsConstant(o: Operand) {
    o.In? && !o.vector.Locals?
  }

  ghost predicate SettledReference(items: seq<Item>, d: nat)
    requires d < |items| && Vanishes(items, d)
  {
    var o := items[d].operands[0];
    && (forall i :: 0 <= i < |items| && Defines(items[i], o) ==> i == d)
    && (forall i :: 0 <= i < |items| && Dereferences(items[i], o) ==> d < i)
  }

  /** References into arguments, captures and literals are steady everywhere. */
  lemma ConstantReferencesSteady(items: seq<Item>)
    requires forall i :: 0 <= i < |items| ==> DefinesLocals(items[i])
    requires forall d :: 0 <= d < |items| && Vanishes(items, d) ==>
               IsConstant(items[d].operands[1]) && IsConstant(items[d].operands[2])
    ensures exists steady :: Steady(items, steady)
  {
    hide OnlyPointer, Dereferences, Precedes;
    var all := set i | 0 <= i < |items| && Vanishes(items, i) && items[i].operands[0].In? :: items[i].operands[0].index;
    var steady := seq(|items| + 1, i => all);
    forall r: nat | IsLocalOnlyReference(items, In(Locals, r)) ensures r in all {
      var d := ReferenceDefinition(items, r);
    }
    assert Steady(items, steady);
  }

  lemma ReferenceDefinition(items: seq<Item>, r: nat) returns (d: nat)
    requires forall i :: 0 <= i < |items| ==> DefinesLocals(items[i])
    requires IsLocalOnlyReference(items, In(Locals, r))
    ensures d < |items| && Refreshes(items, d, r)
  {
    d :| 0 <= d < |items| && DefinesBy(items[d], In(Locals, r), SLOT_REFERENCE_AT);
    assert DefinesLocals(items[d]);
  }

  /** At its uses, a settled reference is known by the operands of its definition. */
  lemma {:induction false} SettledBehind(items: seq<Item>, d: nat, i: nat)
    requires d < |items| && Vanishes(items, d) && SettledReference(items, d) && d < i <= |items|
    ensures Behind(ReferencesBefore(items, i), items[d].operands[0]) == (items[d].operands[1], items[d].operands[2])
  {
    if i > d + 1 {
      SettledBehind(items, d, i - 1);
      assert Vanishes(items, i - 1) ==> Defines(items[i - 1], items[i - 1].operands[0]);
    }
  }

  /** Operands of instructions that are neither loads nor stores through them are ordinary. */
  lemma UsedMeansOrdinary(items: seq<Item>, i: nat, j: nat, o: Operand, op: Opcode)
    requires i < |items| && UsesAt(items[i], j, o) && !IsPointerUse(items[i].opcode, j)
    ensures !OnlyPointer(items, o, op)
  {
    assert UsesOtherwise(items[i], o);
  }

  lemma DefinedMeansOrdinary(items: seq<Item>, i: nat, o: Operand, op: Opcode)
    requires i < |items| && Defines(items[i], o) && items[i].opcode != op
    ensures !OnlyPointer(items, o, op)
  {
    assert DefinesByOther(items[i], o, op);
  }

  /** The pass keeps labels where they are. */
  lemma LoweredLabels(items: seq<Item>, id: nat)
    ensures Position(Lowered(items), id) == Position(items, id)
  {
    hide IsLocalOnlyAlloca, IsLocalOnlyReference, ReferencesBefore, Behind;
    var r := Lowered(items);
    var a, b := Position(items, id), Position(r, id);
    forall i | 0 <= i < |items| ensures r[i] == Label(id) <==> items[i] == Label(id) {
      assert Vanishes(items, i) ==> items[i].Instruction?;
    }
  }
}
