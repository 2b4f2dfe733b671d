/** The assembler: a doubly linked instruction list that the passes splice and rewrite in place. */
module Assembler {
  import opened Values
  import opened Instructions
  import opened Removal
  import opened Temporaries
  import opened Encoding

  class InstructionNode {
    var item: Item
    var previous: InstructionNode?
    var next: InstructionNode?
    var pc: nat
    var endPC: nat

    constructor (item: Item)
      ensures this.item == item && previous == null && next == null
    {
      this.item := item;
      previous, next := null, null;
      pc, endPC := 0, 0;
    }
  }

  ghost function ItemsOf(nodes: seq<InstructionNode>): (items: seq<Item>)
    reads nodes
    ensures |items| == |nodes|
    ensures forall i :: 0 <= i < |nodes| ==> items[i] == nodes[i].item
  {
    seq(|nodes|, i requires 0 <= i < |nodes| reads nodes => nodes[i].item)
  }

  class FunctionAssembler {
    var firstInstruction: InstructionNode?
    var lastInstruction: InstructionNode?
    ghost var nodes: seq<InstructionNode>      // the linked instructions, in order
    ghost var owned: set<InstructionNode>      // every instruction ever added

    // Usage flags of operands.
    var allocaDestinations: set<Operand>
    var otherThanAllocaDestinations: set<Operand>
    var referenceDestinations: set<Operand>
    var otherThanReferenceDestinations: set<Operand>
    var loadStoreUsages: set<Operand>
    var otherUsages: set<Operand>

    // The tuple and the slot behind references that were unlinked.
    var references: References

    ghost predicate Linked(i: nat)
      requires i < |nodes|
      reads this`nodes, nodes
    {
      && nodes[i].previous == (if i == 0 then null else nodes[i - 1])
      && nodes[i].next == (if i == |nodes| - 1 then null else nodes[i + 1])
    }

    ghost predicate Valid()
      reads this`firstInstruction, this`lastInstruction, this`nodes, this`owned, nodes
    {
      && (forall i :: 0 <= i < |nodes| ==> nodes[i] in owned)
      && (forall i, j :: 0 <= i < j < |nodes| ==> nodes[i] != nodes[j])
      && firstInstruction == (if nodes == [] then null else nodes[0])
      && lastInstruction == (if nodes == [] then null else nodes[|nodes| - 1])
      && (forall i :: 0 <= i < |nodes| ==> Linked(i))
    }

    /** The instruction list that the nodes make up. */
    ghost function Items(): (items: seq<Item>)
      reads this`nodes, nodes
      ensures |items| == |nodes|
      ensures forall i :: 0 <= i < |nodes| ==> items[i] == nodes[i].item
    {
      ItemsOf(nodes)
    }

    constructor ()
      ensures Valid() && nodes == [] && Items() == [] && owned == {} && references == map[]
    {
      firstInstruction, lastInstruction, nodes, owned := null, null, [], {};
      allocaDestinations, otherThanAllocaDestinations := {}, {};
      referenceDestinations, otherThanReferenceDestinations := {}, {};
      loadStoreUsages, otherUsages := {}, {};
      references := map[];
    }

    method AddInstruction(item: Item)
      requires Valid()
      modifies this`firstInstruction, this`lastInstruction, this`nodes, this`owned, owned
      ensures Valid() && Items() == old(Items()) + [item]
      ensures |nodes| == |old(nodes)| + 1 && nodes[..|old(nodes)|] == old(nodes) && fresh(nodes[|old(nodes)|])
      ensures owned == old(owned) + {nodes[|old(nodes)|]}
    {
      var node := new InstructionNode(item);
      node.previous := lastInstruction;
      if lastInstruction != null {
        lastInstruction.next := node;
      } else {
        firstInstruction := node;
      }
      lastInstruction := node;
      nodes, owned := nodes + [node], owned + {node};
      forall i | 0 <= i < |nodes| ensures Linked(i) {
        if i < |nodes| - 1 { assert old(Linked(i)); }
      }
    }

    /** Unlinks the node at position k; the node keeps its own links. */
    method RemoveInstruction(node: InstructionNode, ghost k: nat)
      requires Valid() && k < |nodes| && nodes[k] == node
      modifies this`firstInstruction, this`lastInstruction, this`nodes, owned
      ensures Valid() && nodes == old(nodes[..k] + nodes[k + 1..])
      ensures forall n :: n in owned ==> n.item == old(n.item)
    {
      var previous, next := node.previous, node.next;
      assert Linked(k);
      if previous != null {
        previous.next := next;
      } else {
        firstInstruction := next;
      }
      if next != null {
        next.previous := previous;
      } else {
        lastInstruction := previous;
      }
      nodes := nodes[..k] + nodes[k + 1..];
      forall i | 0 <= i < |nodes| ensures Linked(i) {
        ghost var j := if i < k then i else i + 1;
        assert nodes[i] == old(nodes)[j] && old(Linked(j));
      }
    }

    lemma NextOf(k: nat)
      requires Valid() && k < |nodes|
      ensures nodes[k].next == if k == |nodes| - 1 then null else nodes[k + 1]
      ensures nodes[k] in owned
    {
      assert Linked(k);
    }

    lemma FirstOf()
      requires Valid()
      ensures firstInstruction == if nodes == [] then null else nodes[0]
    {
    }

    /**
     A pass has visited the first i of the original nodes: visited nodes hold their new items, and those whose flag
     is not set are unlinked.
     */
    ghost predicate Midway(before: seq<InstructionNode>, items: seq<Item>, after: seq<Item>, keep: seq<bool>, i: nat)
      reads this`firstInstruction, this`lastInstruction, this`nodes, this`owned, nodes, before
    {
      && Valid() && |before| == |items| == |after| == |keep| && i <= |items|
      && nodes == Kept(before, keep, i) + before[i..]
      && (forall j :: 0 <= j < i && keep[j] ==> before[j].item == after[j])
      && (forall j :: i <= j < |before| ==> before[j].item == items[j])
      && (forall j, k :: 0 <= j < k < |before| ==> before[j] != before[k])
      && (forall j :: 0 <= j < |before| ==> before[j] in owned)
    }

    lemma PassStarts(after: seq<Item>, keep: seq<bool>)
      requires Valid() && |after| == |keep| == |nodes|
      ensures Midway(nodes, Items(), after, keep, 0)
      ensures firstInstruction == if nodes == [] then null else nodes[0]
    {
      KeptNone(nodes, keep);
    }

    lemma PassAt(before: seq<InstructionNode>, items: seq<Item>, after: seq<Item>, keep: seq<bool>, i: nat)
      requires Midway(before, items, after, keep, i) && i < |items|
      ensures Index(keep, i) < |nodes| && nodes[Index(keep, i)] == before[i] && before[i].item == items[i]
      ensures before[i].next == if i + 1 < |before| then before[i + 1] else null
    {
      hide Valid, Linked;
      KeptLength(before, keep, i);
      NextOf(Index(keep, i));
    }

    lemma PassEnds(before: seq<InstructionNode>, items: seq<Item>, after: seq<Item>, keep: seq<bool>)
      requires Midway(before, items, after, keep, |items|)
      ensures Valid() && Items() == Filter(after, keep)
    {
      hide Valid, Linked;
      KeptItems(before, keep, |items|, after);
      assert after[..|items|] == after && keep[..|items|] == keep;
    }

    method SetItem(instruction: InstructionNode, item: Item)
      requires Valid() && instruction in owned
      modifies instruction`item
      ensures Valid() && instruction.item == item
    {
      instruction.item := item;
      forall i | 0 <= i < |nodes| ensures Linked(i) { assert old(Linked(i)); }
    }

    /** Visiting a node gives it a new item, or unlinks it. */
    method Visit(instruction: InstructionNode, item: Item, remove: bool, ghost before: seq<InstructionNode>,
                 ghost items: seq<Item>, ghost after: seq<Item>, ghost keep: seq<bool>, ghost i: nat)
      requires |before| == |items| == |after| == |keep| && i < |items|
      requires Midway(before, items, after, keep, i) && instruction == before[i]
      requires remove == !keep[i] && (keep[i] ==> item == after[i])
      modifies this`firstInstruction, this`lastInstruction, this`nodes, owned
      ensures Midway(before, items, after, keep, i + 1)
    {
      hide Valid, Linked, Kept, Index;
      PassAt(before, items, after, keep, i);
      ghost var k := Index(keep, i);
      assert Index(keep, i) < |nodes|
             && (Kept(before, keep, i + 1) + before[i + 1..] ==
                if keep[i] then nodes else nodes[..Index(keep, i)] + nodes[Index(keep, i) + 1..]) by {
        hide Kept, Index;
        KeptNext(before, keep, i);
        KeptLength(before, keep, i);
      }
      if remove {
        RemoveInstruction(instruction, k);
      } else {
        SetItem(instruction, item);
      }
    }

    /** Unlinks an instruction that jumps to the label behind it. */
    method VisitJump(instruction: InstructionNode, ghost before: seq<InstructionNode>, ghost items: seq<Item>,
                     ghost i: nat)
      returns (nextInstruction: InstructionNode?)
      requires i < |items| == |before| && Midway(before, items, items, KeepJumps(items), i) && instruction == before[i]
      modifies this`firstInstruction, this`lastInstruction, this`nodes, owned
      ensures Midway(before, items, items, KeepJumps(items), i + 1)
      ensures nextInstruction == if i + 1 < |before| then before[i + 1] else null
    {
      hide Valid, Linked, Index, Kept;
      ghost var keep := KeepJumps(items);
      PassAt(before, items, items, keep, i);
      if i + 1 < |items| {
        assert before[i + 1].item == items[i + 1];
      }
      assert JumpsToNext(items, i) ==
             (items[i].Instruction? && IsJump(items[i].opcode) && |items[i].operands| > 0 && i + 1 < |items|
              && items[i + 1].Label? && items[i].operands[|items[i].operands| - 1] == To(items[i + 1].id));
      nextInstruction := instruction.next;
      var item := instruction.item;
      var remove := false;
      if item.Instruction? && IsJump(item.opcode) && |item.operands| > 0 && nextInstruction != null {
        remove := nextInstruction.item.Label? && item.operands[|item.operands| - 1] == To(nextInstruction.item.id);
      }
      Visit(instruction, item, remove, before, items, items, keep, i);
    }

    /** Removes every jump to the instruction behind it. */
    method OptimizeJumps()
      requires Valid()
      modifies this`firstInstruction, this`lastInstruction, this`nodes, owned
      ensures Valid() && Items() == Removal.OptimizeJumps(old(Items()))
    {
      hide *;
      OptimizedMeans(Items());
      ghost var items, before := Items(), nodes;
      ghost var keep := KeepJumps(items);
      ghost var i := 0;
      var instruction := firstInstruction;
      PassStarts(items, keep);
      while instruction != null
        invariant i <= |items| && Midway(before, items, items, keep, i)
        invariant instruction == if i < |before| then before[i] else null
        decreases |items| - i
      {
        instruction := VisitJump(instruction, before, items, i);
        i := i + 1;
      }
      PassEnds(before, items, items, keep);
    }

    /** The flags say of every vector operand how the first n items use it. */
    ghost predicate Marked(items: seq<Item>, n: nat)
      requires n <= |items|
      reads this`allocaDestinations, this`otherThanAllocaDestinations, this`referenceDestinations
      reads this`otherThanReferenceDestinations, this`loadStoreUsages, this`otherUsages
    {
      forall o: Operand :: o.In? ==>
        && (o in allocaDestinations <==> DefinedBy(items[..n], o, ALLOCA_WITH_VALUE))
        && (o in otherThanAllocaDestinations <==> DefinedByOther(items[..n], o, ALLOCA_WITH_VALUE))
        && (o in referenceDestinations <==> DefinedBy(items[..n], o, SLOT_REFERENCE_AT))
        && (o in otherThanReferenceDestinations <==> DefinedByOther(items[..n], o, SLOT_REFERENCE_AT))
        && (o in loadStoreUsages <==> Dereferenced(items[..n], o))
        && (o in otherUsages <==> UsedOtherwise(items[..n], o))
    }

    /** Marks the operands of one instruction. */
    method MarkInstructionOperandUsages(item: Item)
      modifies this`allocaDestinations, this`otherThanAllocaDestinations, this`referenceDestinations
      modifies this`otherThanReferenceDestinations, this`loadStoreUsages, this`otherUsages
      ensures forall o: Operand :: o.In? ==>
                && (o in allocaDestinations <==>
                    o in old(allocaDestinations) || DefinesBy(item, o, ALLOCA_WITH_VALUE))
                && (o in otherThanAllocaDestinations <==>
                    o in old(otherThanAllocaDestinations) || DefinesByOther(item, o, ALLOCA_WITH_VALUE))
                && (o in referenceDestinations <==>
                    o in old(referenceDestinations) || DefinesBy(item, o, SLOT_REFERENCE_AT))
                && (o in otherThanReferenceDestinations <==>
                    o in old(otherThanReferenceDestinations) || DefinesByOther(item, o, SLOT_REFERENCE_AT))
                && (o in loadStoreUsages <==> o in old(loadStoreUsages) || Dereferences(item, o))
                && (o in otherUsages <==> o in old(otherUsages) || UsesOtherwise(item, o))
    {
      if item.Label? || item.opcode.COUNT_EXTENSION? {
        assert forall o :: !Defines(item, o) && !Dereferences(item, o) && !UsesOtherwise(item, o);
        return;
      }
      var op, os := item.opcode, item.operands;
      MarkDestination(item);
      var i := DestinationCount(op);
      while i < UsedEnd(op, |os|)
        modifies this`loadStoreUsages, this`otherUsages
        invariant DestinationCount(op) <= i
        invariant forall o: Operand :: o.In? ==>
                    && (o in loadStoreUsages <==> o in old(loadStoreUsages) || UsesBefore(item, i, o, true))
                    && (o in otherUsages <==> o in old(otherUsages) || UsesBefore(item, i, o, false))
      {
        assert forall o, b :: UsesBefore(item, i + 1, o, b) <==>
               UsesBefore(item, i, o, b) || (item.operands[i] == o && IsPointerUse(item.opcode, i) == b) by {
          assert UsesAt(item, i, item.operands[i]);
          assert UsesBefore(item, i + 1, item.operands[i], IsPointerUse(item.opcode, i));
        }
        if IsPointerUse(op, i) {
          loadStoreUsages := loadStoreUsages + {os[i]};
        } else {
          otherUsages := otherUsages + {os[i]};
        }
        i := i + 1;
      }
      assert (forall o :: UsesBefore(item, i, o, true) <==> Dereferences(item, o))
             && (forall o :: UsesBefore(item, i, o, false) <==> UsesOtherwise(item, o));
    }

    method MarkDestination(item: Item)
      requires item.Instruction? && !item.opcode.COUNT_EXTENSION?
      modifies this`allocaDestinations, this`otherThanAllocaDestinations, this`referenceDestinations
      modifies this`otherThanReferenceDestinations
      ensures forall o: Operand :: o.In? ==>
                && (o in allocaDestinations <==>
                    o in old(allocaDestinations) || DefinesBy(item, o, ALLOCA_WITH_VALUE))
                && (o in otherThanAllocaDestinations <==>
                    o in old(otherThanAllocaDestinations) || DefinesByOther(item, o, ALLOCA_WITH_VALUE))
                && (o in referenceDestinations <==>
                    o in old(referenceDestinations) || DefinesBy(item, o, SLOT_REFERENCE_AT))
                && (o in otherThanReferenceDestinations <==>
                    o in old(otherThanReferenceDestinations) || DefinesByOther(item, o, SLOT_REFERENCE_AT))
    {
      if DestinationCount(item.opcode) == 1 && |item.operands| > 0 && !item.operands[0].Missing? {
        var operand := item.operands[0];
        if item.opcode.ALLOCA_WITH_VALUE? {
          allocaDestinations := allocaDestinations + {operand};
        } else {
          otherThanAllocaDestinations := otherThanAllocaDestinations + {operand};
        }
        if item.opcode.SLOT_REFERENCE_AT? {
          referenceDestinations := referenceDestinations + {operand};
        } else {
          otherThanReferenceDestinations := otherThanReferenceDestinations + {operand};
        }
      }
    }

    predicate FlaggedLocalOnlyAlloca(o: Operand)
      reads this`allocaDestinations, this`otherThanAllocaDestinations, this`loadStoreUsages, this`otherUsages
    {
      && o.In? && o in allocaDestinations && o !in otherThanAllocaDestinations
      && o in loadStoreUsages && o !in otherUsages
    }

    predicate FlaggedLocalOnlyReference(o: Operand)
      reads this`referenceDestinations, this`otherThanReferenceDestinations, this`loadStoreUsages, this`otherUsages
    {
      && o.In? && o in referenceDestinations && o !in otherThanReferenceDestinations
      && o in loadStoreUsages && o !in otherUsages
    }

    lemma FlagsDecide(items: seq<Item>, o: Operand)
      requires Marked(items, |items|)
      ensures FlaggedLocalOnlyAlloca(o) <==> IsLocalOnlyAlloca(items, o)
      ensures FlaggedLocalOnlyReference(o) <==> IsLocalOnlyReference(items, o)
    {
      hide DefinedBy, DefinedByOther, Dereferenced, UsedOtherwise;
      assert items[..|items|] == items;
    }

    /** Marks the operands of every instruction. */
    method MarkUsages()
      requires Valid()
      modifies this`allocaDestinations, this`otherThanAllocaDestinations, this`referenceDestinations
      modifies this`otherThanReferenceDestinations, this`loadStoreUsages, this`otherUsages
      ensures Valid() && Marked(Items(), |Items()|)
    {
      hide Valid, Linked, DefinedBy, DefinedByOther, Dereferenced;
      hide UsedOtherwise, DefinesBy, DefinesByOther, Dereferences, UsesOtherwise;
      allocaDestinations, otherThanAllocaDestinations := {}, {};
      referenceDestinations, otherThanReferenceDestinations := {}, {};
      loadStoreUsages, otherUsages := {}, {};
      ghost var items := Items();
      ghost var i := 0;
      MarkedNone(items);
      FirstOf();
      var instruction := firstInstruction;
      while instruction != null
        invariant i <= |nodes| && instruction == if i < |nodes| then nodes[i] else null
        invariant Marked(items, i)
        decreases |nodes| - i
      {
        NextOf(i);
        MarkedNext(items, i);
        MarkInstructionOperandUsages(instruction.item);
        i := i + 1;
        instruction := instruction.next;
      }
    }

    /** The new item of an instruction, or its removal. */
    method LowerInstruction(item: Item, ghost items: seq<Item>, ghost i: nat) returns (lowered: Item, remove: bool)
      requires i < |items| && item == items[i] && Marked(items, |items|) && references == ReferencesBefore(items, i)
      modifies this`references
      ensures Marked(items, |items|) && references == ReferencesBefore(items, i + 1)
      ensures remove == Vanishes(items, i)
      ensures !remove ==> lowered == Lower(items, ReferencesBefore(items, i), items[i])
    {
      hide IsLocalOnlyAlloca, IsLocalOnlyReference, FlaggedLocalOnlyAlloca, FlaggedLocalOnlyReference;
      forall o ensures FlaggedLocalOnlyAlloca(o) <==> IsLocalOnlyAlloca(items, o)
               ensures FlaggedLocalOnlyReference(o) <==> IsLocalOnlyReference(items, o) {
        FlagsDecide(items, o);
      }
      hide Marked;
      lowered, remove := item, false;
      if item.Label? { return; }
      var op, os := item.opcode, item.operands;
      if op.ALLOCA_WITH_VALUE? && |os| == 3 && FlaggedLocalOnlyAlloca(os[0]) {
        lowered := Instruction(MOVE, [os[0], os[2]]);
      } else if op.SLOT_REFERENCE_AT? && |os| == 3 && FlaggedLocalOnlyReference(os[0]) {
        references := references[os[0] := (os[1], os[2])];
        remove := true;
      } else if op.LOAD? && |os| == 2 && FlaggedLocalOnlyAlloca(os[1]) {
        lowered := Instruction(MOVE, os);
      } else if op.LOAD? && |os| == 2 && FlaggedLocalOnlyReference(os[1]) {
        var (tuple, slot) := Behind(references, os[1]);
        lowered := Instruction(SLOT_AT, [os[0], tuple, slot]);
      } else if op.STORE? && |os| == 2 && FlaggedLocalOnlyAlloca(os[0]) {
        lowered := Instruction(MOVE, os);
      } else if op.STORE? && |os| == 2 && FlaggedLocalOnlyReference(os[0]) {
        var (tuple, slot) := Behind(references, os[0]);
        lowered := Instruction(SLOT_AT_PUT, [tuple, slot, os[1]]);
      }
    }

    /** Promotes boxes and lowers references, in place. */
    method OptimizeTemporaries()
      requires Valid() && references == map[]
      modifies this, owned
      ensures Valid() && owned == old(owned) && Items() == Temporaries.OptimizeTemporaries(old(Items()))
    {
      hide Valid, Linked, Marked;
      MarkUsages();
      LowerAll();
    }

    /** The second loop of the pass in front of item i. */
    ghost predicate Lowering(before: seq<InstructionNode>, items: seq<Item>, i: nat)
      reads this, nodes, before
    {
      && Midway(before, items, Lowered(items), KeepLowered(items), i)
      && Marked(items, |items|) && references == ReferencesBefore(items, i)
    }

    method LowerNode(instruction: InstructionNode, ghost before: seq<InstructionNode>, ghost items: seq<Item>,
                     ghost i: nat)
      returns (nextInstruction: InstructionNode?)
      requires i < |items| == |before| && instruction == before[i] && Lowering(before, items, i)
      modifies this`firstInstruction, this`lastInstruction, this`nodes, this`references, owned
      ensures Lowering(before, items, i + 1)
      ensures nextInstruction == if i + 1 < |before| then before[i + 1] else null
    {
      hide Valid, Linked, Midway, Index, Vanishes, Lower, Marked, ReferencesBefore;
      PassAt(before, items, Lowered(items), KeepLowered(items), i);
      nextInstruction := instruction.next;
      var lowered, remove := LowerInstruction(instruction.item, items, i);
      Visit(instruction, lowered, remove, before, items, Lowered(items), KeepLowered(items), i);
    }

    method LowerAll()
      requires Valid() && references == map[] && Marked(Items(), |Items()|)
      modifies this`firstInstruction, this`lastInstruction, this`nodes, this`references, owned
      ensures Valid() && Items() == Temporaries.OptimizeTemporaries(old(Items()))
    {
      hide Valid, Lowering, Marked;
      ghost var items, before := Items(), nodes;
      ghost var i := 0;
      var instruction := firstInstruction;
      LoweringStarts();
      while instruction != null
        invariant i <= |items| == |before| && Lowering(before, items, i)
        invariant instruction == if i < |before| then before[i] else null
        decreases |items| - i
      {
        instruction := LowerNode(instruction, before, items, i);
        i := i + 1;
      }
      LoweringEnds(before, items);
    }

    lemma LoweringStarts()
      requires Valid() && references == map[] && Marked(Items(), |Items()|)
      ensures Lowering(nodes, Items(), 0)
      ensures firstInstruction == if nodes == [] then null else nodes[0]
    {
      hide Marked, Valid, Midway;
      PassStarts(Lowered(Items()), KeepLowered(Items()));
    }

    lemma LoweringEnds(before: seq<InstructionNode>, items: seq<Item>)
      requires Lowering(before, items, |items|)
      ensures Valid() && Items() == Temporaries.OptimizeTemporaries(items)
    {
      hide Marked, Valid, Midway, Filter;
      PassEnds(before, items, Lowered(items), KeepLowered(items));
    }

    /** Every instruction knows its address and where it ends, and every label of the first n items its address. */
    ghost predicate Addressed(items: seq<Item>, n: nat, labelPcs: map<nat, nat>)
      requires n <= |items| == |nodes|
      reads this`nodes, nodes
    {
      && (forall j :: 0 <= j < n ==> nodes[j].pc == PcOf(items, j) && nodes[j].endPC == PcOf(items, j + 1))
      && KnowsLabels(items, n, labelPcs)
    }

    /** Computes all addresses; the result is the size of the code. */
    method ComputeAddresses() returns (size: nat, labelPcs: map<nat, nat>)
      requires Valid() && UniqueLabels(Items())
      modifies owned
      ensures Valid() && Items() == old(Items())
      ensures size == PcOf(Items(), |Items()|) && Addressed(Items(), |Items()|, labelPcs)
    {
      hide UniqueLabels;
      ghost var items := Items();
      size, labelPcs := 0, map[];
      ghost var i := 0;
      assert |items| == |nodes| && Addressed(items, 0, map[])
             && (firstInstruction == if nodes == [] then null else nodes[0]);
      var instruction := firstInstruction;
      while instruction != null
        invariant Valid() && |nodes| == |items| && Items() == items
        invariant i <= |nodes| && instruction == if i < |nodes| then nodes[i] else null
        invariant size == PcOf(items, i) && Addressed(items, i, labelPcs)
        decreases |nodes| - i
      {
        size, labelPcs, instruction := AddressOne(instruction, size, labelPcs, items, i);
        i := i + 1;
      }
    }

    method AddressOne(instruction: InstructionNode, offset: nat, labelPcs: map<nat, nat>, ghost items: seq<Item>,
                      ghost i: nat)
      returns (end: nat, newLabelPcs: map<nat, nat>, nextInstruction: InstructionNode?)
      requires Valid() && UniqueLabels(items) && Items() == items && i < |items| == |nodes| && instruction == nodes[i]
      requires offset == PcOf(items, i) && Addressed(items, i, labelPcs)
      modifies owned
      ensures Valid() && Items() == items && nodes == old(nodes)
      ensures end == PcOf(items, i + 1) && Addressed(items, i + 1, newLabelPcs)
      ensures nextInstruction == if i + 1 < |nodes| then nodes[i + 1] else null
    {
      hide Valid, Linked, Addressed, UniqueLabels, Size;
      NextOf(i);
      var item := instruction.item;
      end := offset + Size(item);
      nextInstruction := instruction.next;
      SetAddress(instruction, offset, end, items, i, labelPcs);
      newLabelPcs := if item.Label? then labelPcs[item.id := offset] else labelPcs;
      AddressedNext(items, i, labelPcs, newLabelPcs);
    }

    lemma AddressedNext(items: seq<Item>, i: nat, labelPcs: map<nat, nat>, newLabelPcs: map<nat, nat>)
      requires UniqueLabels(items) && i < |items| == |nodes| && Addressed(items, i, labelPcs)
      requires nodes[i].pc == PcOf(items, i) && nodes[i].endPC == PcOf(items, i + 1)
      requires newLabelPcs == if items[i].Label? then labelPcs[items[i].id := PcOf(items, i)] else labelPcs
      ensures Addressed(items, i + 1, newLabelPcs)
    {
      hide PcOf, KnowsLabels;
      KnowsNext(items, i, labelPcs, newLabelPcs);
    }

    method SetAddress(instruction: InstructionNode, pc: nat, endPC: nat, ghost items: seq<Item>, ghost i: nat,
                      ghost labelPcs: map<nat, nat>)
      requires Valid() && i < |items| == |nodes| && instruction == nodes[i] && Addressed(items, i, labelPcs)
      modifies instruction`pc, instruction`endPC
      ensures Valid() && instruction.pc == pc && instruction.endPC == endPC && Items() == old(Items())
      ensures Addressed(items, i, labelPcs)
    {
      hide PcOf;
      instruction.pc, instruction.endPC := pc, endPC;
      forall k | 0 <= k < |nodes| ensures Linked(k) { assert old(Linked(k)); }
    }

    /** Assembles the list into a fresh byte array of exactly its size. */
    method AssembleInstructions() returns (r: Attempt<array<Byte>>)
      requires Valid() && UniqueLabels(Items())
      modifies owned
      ensures Valid() && Items() == old(Items())
      ensures match Assemble(Items())
              case Success(bytes) => r.Success? && fresh(r.value) && r.value[..] == bytes
              case Failure(message) => r == Failure(message)
    {
      hide Valid, Addressed, EncodeItem, UniqueLabels, AssembleFirst, HasSources, PcOf, Items;
      var size, labelPcs := ComputeAddresses();
      ghost var items := Items();
      var bytes := new Byte[size];
      var offset := 0;
      ghost var i := 0;
      var instruction := firstInstruction;
      AssemblyStarts(bytes, items, labelPcs);
      while instruction != null
        modifies bytes
        invariant i <= |nodes| == |items| && instruction == if i < |nodes| then nodes[i] else null
        invariant Assembling(bytes, offset, items, i)
        decreases |nodes| - i
      {
        var ok;
        AssemblyStep(items, labelPcs, i);
        ok, offset := AssembleOne(instruction.item, instruction.endPC, labelPcs, bytes, offset, items, i);
        if !ok {
          return Failure("Invalid missing non-destination operand.");
        }
        i := i + 1;
        instruction := instruction.next;
      }
      AssemblyEnds(bytes, offset, items);
      return Success(bytes);
    }

    lemma AssemblyStarts(bytes: array<Byte>, items: seq<Item>, labelPcs: map<nat, nat>)
      requires Valid() && items == Items() && Addressed(items, |items|, labelPcs)
               && bytes.Length == PcOf(items, |items|)
      ensures |items| == |nodes| && KnowsLabels(items, |items|, labelPcs) && Assembling(bytes, 0, items, 0)
      ensures firstInstruction == if nodes == [] then null else nodes[0]
    {
      PcGrows(items, 0, |items|);
    }

    lemma AssemblyStep(items: seq<Item>, labelPcs: map<nat, nat>, i: nat)
      requires Valid() && items == Items() && Addressed(items, |items|, labelPcs) && i < |items|
      ensures nodes[i].item == items[i] && nodes[i].endPC == PcOf(items, i + 1)
      ensures nodes[i].next == if i + 1 < |nodes| then nodes[i + 1] else null
    {
      NextOf(i);
    }
  }

  lemma DefinedByAppended(a: seq<Item>, item: Item, o: Operand, op: Opcode)
    ensures DefinedBy(a + [item], o, op) <==> DefinedBy(a, o, op) || DefinesBy(item, o, op)
  {
    hide DefinesBy;
    var b := a + [item];
    assert b[|a|] == item;
    if k :| 0 <= k < |a| && DefinesBy(a[k], o, op) { assert b[k] == a[k]; }
  }

  lemma DefinedByOtherAppended(a: seq<Item>, item: Item, o: Operand, op: Opcode)
    ensures DefinedByOther(a + [item], o, op) <==> DefinedByOther(a, o, op) || DefinesByOther(item, o, op)
  {
    hide DefinesByOther;
    var b := a + [item];
    assert b[|a|] == item;
    if k :| 0 <= k < |a| && DefinesByOther(a[k], o, op) { assert b[k] == a[k]; }
  }

  lemma UsedAppended(a: seq<Item>, item: Item, o: Operand)
    ensures Dereferenced(a + [item], o) <==> Dereferenced(a, o) || Dereferences(item, o)
    ensures UsedOtherwise(a + [item], o) <==> UsedOtherwise(a, o) || UsesOtherwise(item, o)
  {
    hide Dereferences, UsesOtherwise;
    var b := a + [item];
    assert b[|a|] == item;
    if k :| 0 <= k < |a| && Dereferences(a[k], o) { assert b[k] == a[k]; }
    if k :| 0 <= k < |a| && UsesOtherwise(a[k], o) { assert b[k] == a[k]; }
  }

  lemma MarkedNext(items: seq<Item>, i: nat)
    requires i < |items|
    ensures forall o, op :: DefinedBy(items[..i + 1], o, op) <==>
              DefinedBy(items[..i], o, op) || DefinesBy(items[i], o, op)
    ensures forall o, op :: DefinedByOther(items[..i + 1], o, op) <==>
              DefinedByOther(items[..i], o, op) || DefinesByOther(items[i], o, op)
    ensures forall o :: Dereferenced(items[..i + 1], o) <==> Dereferenced(items[..i], o) || Dereferences(items[i], o)
    ensures forall o :: UsedOtherwise(items[..i + 1], o) <==> UsedOtherwise(items[..i], o) || UsesOtherwise(items[i], o)
  {
    hide *;
    assert items[..i + 1] == items[..i] + [items[i]];
    forall o, op
      ensures DefinedBy(items[..i + 1], o, op) <==> DefinedBy(items[..i], o, op) || DefinesBy(items[i], o, op)
      ensures DefinedByOther(items[..i + 1], o, op)
              <==> DefinedByOther(items[..i], o, op) || DefinesByOther(items[i], o, op)
    {
      DefinedByAppended(items[..i], items[i], o, op);
      DefinedByOtherAppended(items[..i], items[i], o, op);
    }
    forall o
      ensures Dereferenced(items[..i + 1], o) <==> Dereferenced(items[..i], o) || Dereferences(items[i], o)
      ensures UsedOtherwise(items[..i + 1], o) <==> UsedOtherwise(items[..i], o) || UsesOtherwise(items[i], o)
    {
      UsedAppended(items[..i], items[i], o);
    }
  }

  lemma MarkedNone(items: seq<Item>)
    ensures forall o, op :: !DefinedBy(items[..0], o, op) && !DefinedByOther(items[..0], o, op)
    ensures forall o :: !Dereferenced(items[..0], o) && !UsedOtherwise(items[..0], o)
  {
  }

  /** The recorded addresses are those of the labels among the first n items. */
  ghost predicate KnowsLabels(items: seq<Item>, n: nat, labelPcs: map<nat, nat>)
    requires n <= |items|
  {
    forall id: nat {:trigger id in labelPcs} {:trigger Position(items, id)} ::
      && (id in labelPcs <==> Position(items, id) < n)
      && (id in labelPcs ==> labelPcs[id] == PcOf(items, Position(items, id)))
  }

  lemma KnowsNext(items: seq<Item>, i: nat, labelPcs: map<nat, nat>, newLabelPcs: map<nat, nat>)
    requires UniqueLabels(items) && i < |items| && KnowsLabels(items, i, labelPcs)
    requires newLabelPcs == if items[i].Label? then labelPcs[items[i].id := PcOf(items, i)] else labelPcs
    ensures KnowsLabels(items, i + 1, newLabelPcs)
  {
    if items[i].Label? { PositionOfLabel(items, items[i].id, i); }
  }

  /** The word of an operand, from the recorded addresses; a label that was never placed is at the end of the code. */
  method EncodeOneOperand(o: Operand, endPC: nat, labelPcs: map<nat, nat>, size: nat, ghost items: seq<Item>,
                          ghost i: nat)
    returns (word: int)
    requires i < |items| && KnowsLabels(items, |items|, labelPcs)
    requires size == PcOf(items, |items|) && endPC == PcOf(items, i + 1)
    ensures word == EncodeOperand(items, i, o)
  {
    match o
    case Missing => word := -1;
    case In(vector, index) => word := Wrap16(4 * index + VectorCode(vector));
    case To(id) => word := Wrap16((if id in labelPcs then labelPcs[id] else size) - endPC);
    case Count(k) => word := Wrap16(k);
  }

  method WriteByte(bytes: array<Byte>, at: nat, b: Byte)
    requires at < bytes.Length
    modifies bytes
    ensures bytes[..at + 1] == old(bytes[..at]) + [b]
  {
    bytes[at] := b;
  }

  method WriteWord(bytes: array<Byte>, at: nat, word: int)
    requires at + 2 <= bytes.Length
    modifies bytes
    ensures bytes[..at + 2] == old(bytes[..at]) + Encode16(word)
  {
    hide Encode16;
    var encoded := Encode16(word);
    bytes[at], bytes[at + 1] := encoded[0], encoded[1];
  }

  /** Writes the word of an operand behind those of the operands in front of it. */
  method WriteOperand(o: Operand, endPC: nat, labelPcs: map<nat, nat>, bytes: array<Byte>, at: nat,
                      ghost items: seq<Item>, ghost i: nat, ghost head: seq<Byte>, ghost words: seq<int>, ghost j: nat)
    requires i < |items| && KnowsLabels(items, |items|, labelPcs)
    requires bytes.Length == PcOf(items, |items|) && endPC == PcOf(items, i + 1) && at + 2 <= bytes.Length
    requires j < |words| && words[j] == EncodeOperand(items, i, o) && bytes[..at] == head + Flatten(words[..j])
    modifies bytes
    ensures bytes[..at + 2] == head + Flatten(words[..j + 1])
  {
    hide KnowsLabels, EncodeOperand, Encode16, PcOf, Flatten;
    var word := EncodeOneOperand(o, endPC, labelPcs, bytes.Length, items, i);
    WriteWord(bytes, at, word);
    FlattenNext(words, j);
  }

  /** Writes one instruction at an offset; it fails at a missing source operand. */
  method AssembleInto(item: Item, endPC: nat, labelPcs: map<nat, nat>, bytes: array<Byte>, offset: nat,
                      ghost items: seq<Item>, ghost i: nat) returns (ok: bool)
    requires i < |items| && item == items[i] && KnowsLabels(items, |items|, labelPcs)
    requires bytes.Length == PcOf(items, |items|) && endPC == PcOf(items, i + 1) && offset + Size(item) <= bytes.Length
    modifies bytes
    ensures ok <==> HasSources(item)
    ensures ok ==> bytes[..offset + Size(item)] == old(bytes[..offset]) + EncodeItem(items, i)
  {
    hide KnowsLabels, EncodeOperand, OpcodeByte, Encode16, PcOf, Flatten, DestinationCount, Words;
    if item.Label? {
      assert EncodeItem(items, i) == [];
      return true;
    }
    var os := item.operands;
    WriteByte(bytes, offset, OpcodeByte(item.opcode, |os|));
    ghost var words, head := Words(items, i, os), bytes[..offset + 1];
    FlattenNone(words);
    for j := 0 to |os|
      invariant forall k :: DestinationCount(item.opcode) <= k < j ==> !os[k].Missing?
      invariant bytes[..offset + 1 + 2 * j] == head + Flatten(words[..j])
    {
      if os[j].Missing? && j >= DestinationCount(item.opcode) {
        return false;
      }
      WriteOperand(os[j], endPC, labelPcs, bytes, offset + 1 + 2 * j, items, i, head, words, j);
    }
    assert words[..|os|] == words;
    assert head + Flatten(words) == old(bytes[..offset]) + ([OpcodeByte(item.opcode, |os|)] + Flatten(words));
    return true;
  }

  lemma FlattenNone(words: seq<int>)
    ensures Flatten(words[..0]) == []
  {
  }

  /** The first i items stand at the start of the buffer, and the rest still fits. */
  ghost predicate Assembling(bytes: array<Byte>, offset: nat, items: seq<Item>, i: nat)
    reads bytes
  {
    && i <= |items| && offset == PcOf(items, i) <= PcOf(items, |items|) == bytes.Length
    && bytes[..offset] == AssembleFirst(items, i)
    && forall j :: 0 <= j < i ==> HasSources(items[j])
  }

  method AssembleOne(item: Item, endPC: nat, labelPcs: map<nat, nat>, bytes: array<Byte>, offset: nat,
                     ghost items: seq<Item>, ghost i: nat) returns (ok: bool, end: nat)
    requires i < |items| && item == items[i] && KnowsLabels(items, |items|, labelPcs) && endPC == PcOf(items, i + 1)
    requires Assembling(bytes, offset, items, i)
    modifies bytes
    ensures ok ==> Assembling(bytes, end, items, i + 1)
    ensures !ok ==> Assemble(items) == Failure("Invalid missing non-destination operand.")
  {
    hide KnowsLabels, EncodeItem, HasSources;
    PcGrows(items, i + 1, |items|);
    assert PcOf(items, i + 1) == PcOf(items, i) + Size(items[i]);
    ok := AssembleInto(item, endPC, labelPcs, bytes, offset, items, i);
    end := offset + Size(item);
  }

  lemma AssemblyEnds(bytes: array<Byte>, offset: nat, items: seq<Item>)
    requires Assembling(bytes, offset, items, |items|)
    ensures Assemble(items) == Success(bytes[..])
  {
    assert bytes[..] == bytes[..offset];
  }

  lemma FlattenNext(words: seq<int>, j: nat)
    requires j < |words|
    ensures Flatten(words[..j + 1]) == Flatten(words[..j]) + Encode16(words[j])
  {
    assert words[..j + 1][..j] == words[..j];
  }

  /** Some operand in front of position i is o, as a pointer or otherwise. */
  predicate UsesBefore(item: Item, i: nat, o: Operand, asPointer: bool) {
    item.Instruction?
    && exists j ::
         0 <= j < |item.operands| && j < i && UsesAt(item, j, o) && IsPointerUse(item.opcode, j) == asPointer
  }

  /** The nodes among the first n whose flag is set. */
  ghost function Kept(nodes: seq<InstructionNode>, keep: seq<bool>, n: nat): (kept: seq<InstructionNode>)
    requires n <= |nodes| == |keep|
  {
    if n == 0 then [] else Kept(nodes, keep, n - 1) + if keep[n - 1] then [nodes[n - 1]] else []
  }

  lemma KeptNone(nodes: seq<InstructionNode>, keep: seq<bool>)
    requires |nodes| == |keep|
    ensures Kept(nodes, keep, 0) + nodes[0..] == nodes
  {
  }

  lemma KeptNext(nodes: seq<InstructionNode>, keep: seq<bool>, n: nat)
    requires n < |nodes| == |keep|
    ensures Kept(nodes, keep, n) + nodes[n..] ==
            if keep[n] then Kept(nodes, keep, n + 1) + nodes[n + 1..]
            else Kept(nodes, keep, n + 1) + [nodes[n]] + nodes[n + 1..]
    ensures !keep[n] ==> Kept(nodes, keep, n + 1) == Kept(nodes, keep, n)
  {
    assert nodes[n..] == [nodes[n]] + nodes[n + 1..];
  }

  lemma OptimizedMeans(items: seq<Item>)
    ensures Removal.OptimizeJumps(items) == Filter(items, KeepJumps(items))
  {
  }

  lemma {:induction false} KeptLength(nodes: seq<InstructionNode>, keep: seq<bool>, n: nat)
    requires n <= |nodes| == |keep|
    ensures |Kept(nodes, keep, n)| == Index(keep, n)
    ensures forall x :: x in Kept(nodes, keep, n) ==> x in nodes[..n]
  {
    if n > 0 { KeptLength(nodes, keep, n - 1); }
  }

  lemma {:induction false} KeptItems(nodes: seq<InstructionNode>, keep: seq<bool>, n: nat, items: seq<Item>)
    requires n <= |nodes| == |keep| == |items|
    requires forall j :: 0 <= j < n && keep[j] ==> nodes[j].item == items[j]
    ensures |Kept(nodes, keep, n)| == |Filter(items[..n], keep[..n])|
    ensures forall j :: 0 <= j < |Kept(nodes, keep, n)| ==>
              Kept(nodes, keep, n)[j].item == Filter(items[..n], keep[..n])[j]
    ensures forall x :: x in Kept(nodes, keep, n) ==> x in nodes
  {
    if n > 0 {
      KeptItems(nodes, keep, n - 1, items);
      assert items[..n][..n - 1] == items[..n - 1] && keep[..n][..n - 1] == keep[..n - 1];
    }
  }
}
