/** The heap and its collector: allocation, mutator steps, and cycles at safepoints. */
module Collector {
  import opened ObjectMemory
  import opened Marking
  import opened Sweeping

  const MALLOC_HEADER_SIZE := 16
  const OBJECT_TUPLE_SIZE := 24          // the object header and the one-slot union behind it
  const SLOT_SIZE := 8
  const MIN_CHUNK_SIZE := 0x20_0000
  const STARTUP_HEAP_SIZE := 4 * MIN_CHUNK_SIZE
  const COLLECTION_GAMMA_FACTOR := 3
  const SIZE_LIMIT := 0x1_0000_0000      // the size in an allocation header has 32 bits
  const LOCK_LIMIT := 0x1_0000_0000

  /** The slots of a new pointer object: as many as the 32-bit size of its header says. */
  function NullSlots(slotCount: nat): (slots: seq<Tuple>)
    ensures |slots| == slotCount <==> SLOT_SIZE * slotCount < SIZE_LIMIT
    ensures forall i :: 0 <= i < |slots| ==> slots[i] == Null
  {
    seq(SLOT_SIZE * slotCount % SIZE_LIMIT / SLOT_SIZE, i => Null)
  }

  class ObjectHeap {
    var memory: Memory
    var firstMallocObject: Address
    var lastMallocObject: Address
    ghost var chain: seq<Address>        // the list from first to last
    var markingStack: seq<Address>
    var roots: seq<Tuple>
    var gcWhiteColor: nat
    var gcGrayColor: nat
    var gcBlackColor: nat
    var totalSize: nat
    var nextGCSizeThreshold: nat
    var shouldAttemptToCollect: bool
    var gcDisabled: bool
    var perThreadLockCount: nat

    function Colors(): Palette
      reads this
    {
      Palette(gcWhiteColor, gcGrayColor, gcBlackColor)
    }

    function Marks(): Marks
      reads this
    {
      Marking.Marks.Marks(memory, markingStack)
    }

    /** What holds between any two operations of the mutator. */
    ghost predicate Valid()
      reads this
    {
      && ValidPalette(Colors())
      && Listed(memory, firstMallocObject, lastMallocObject, chain)
      && NoDangling(memory) && ShapesFit(memory) && AllSound(memory, roots)
      && markingStack == []
      && (forall a :: a in memory ==> memory[a].color == gcWhiteColor)
      && totalSize >= SumSizes(memory, chain)
      && perThreadLockCount < LOCK_LIMIT
    }

    /** Accounted bytes that no listed object explains: what the 32-bit size fields cannot hold. */
    ghost function Excess(): int
      requires forall i :: 0 <= i < |chain| ==> chain[i] in memory
      reads this
    {
      totalSize - SumSizes(memory, chain)
    }

    constructor ()
      ensures Valid() && memory == map[] && chain == [] && roots == [] && Excess() == 0
      ensures perThreadLockCount == 0 && !shouldAttemptToCollect && !gcDisabled
    {
      memory, firstMallocObject, lastMallocObject, chain := map[], NULL, NULL, [];
      markingStack, roots := [], [];
      gcWhiteColor, gcGrayColor, gcBlackColor := 0, 1, 2;
      totalSize, nextGCSizeThreshold, shouldAttemptToCollect := 0, 0, false;
      gcDisabled, perThreadLockCount := false, 0;
    }

    // Marking.

    method MarkPointer(t: Tuple)
      modifies this`memory, this`markingStack
      ensures Marks() == Marking.MarkPointer(Colors(), old(Marks()), t)
    {
      if !t.Pointer? || t.address !in memory { return; }
      var isWhite := memory[t.address].color == gcWhiteColor;
      if !isWhite { return; }
      memory := memory[t.address := memory[t.address].(color := gcGrayColor)];
      markingStack := markingStack + [t.address];
    }

    method MarkTuples(ts: seq<Tuple>)
      modifies this`memory, this`markingStack
      ensures Marks() == MarkAll(Colors(), old(Marks()), ts)
    {
      for i := 0 to |ts|
        invariant Marks() == MarkAll(Colors(), old(Marks()), ts[..i])
      {
        MarkPointer(ts[i]);
        assert ts[..i + 1][..i] == ts[..i];
      }
      assert ts[..|ts|] == ts;
    }

    method MarkObjectContent(a: Address)
      requires a in memory
      modifies this`memory, this`markingStack
      ensures Marks() == MarkContent(Colors(), old(Marks()), a)
    {
      var c := memory[a];
      var strongSlotCount := 0;
      if !c.kind.Bytes? {
        strongSlotCount := |c.slots|;
        if c.kind.WeakPointers? {
          strongSlotCount := 0;
          if c.typePointer.Pointer? { strongSlotCount := StrongCount(memory, c); }
        }
      }
      assert StrongTuples(memory, c) == [c.typePointer] + c.slots[..strongSlotCount];
      MarkTuples([c.typePointer] + c.slots[..strongSlotCount]);
      if a in memory { memory := memory[a := memory[a].(color := gcBlackColor)]; }
    }

    /** Traverses grey objects until none is left; every object is greyed at most once. */
    method MarkUntilStackIsEmpty(ghost before: Memory)
      requires Tricolor(Colors(), before, Marks(), roots, {})
      modifies this`memory, this`markingStack
      ensures markingStack == [] && Tricolor(Colors(), before, Marks(), roots, {})
      ensures forall t: Tuple :: Marked(Colors(), old(memory), t) ==> Marked(Colors(), memory, t)
    {
      hide Tricolor, Marked, MarkContent, Whites;
      while |markingStack| > 0
        invariant Tricolor(Colors(), before, Marks(), roots, {})
        invariant forall t: Tuple :: Marked(Colors(), old(memory), t) ==> Marked(Colors(), memory, t)
        decreases |markingStack| + |Whites(Colors(), memory)|
      {
        PopKeeps(Colors(), before, Marks(), roots);
        var next := markingStack[|markingStack| - 1];
        markingStack := markingStack[..|markingStack| - 1];
        MarkContentKeeps(Colors(), before, Marks(), roots, next);
        MarkObjectContent(next);
      }
    }

    /** The marking phase blackens exactly what is reachable. */
    method MarkPhase()
      requires Valid()
      modifies this`memory, this`markingStack
      ensures markingStack == [] && SameButColors(old(memory), memory)
      ensures forall a :: a in memory ==> (memory[a].color == gcBlackColor <==> Reachable(old(memory), roots, a))
      ensures forall a :: a in memory ==> memory[a].color == gcBlackColor || memory[a].color == gcWhiteColor
    {
      hide Reachable, Marked, MarkAll, Listed, NoDangling, ShapesFit, SumSizes;
      ghost var before := memory;
      assert Tricolor(Colors(), memory, Marks(), roots, {}) by {
        hide Reachable, Listed, ShapesFit, Edge;
      }
      assert (forall i :: 0 <= i < |roots| ==> Sound(memory, roots[i]))
             && (forall i :: 0 <= i < |roots| && roots[i].Pointer? ==>
                roots[i].address in memory && Reachable(memory, roots, roots[i].address)) by {
        hide Reachable, Listed, NoDangling, ShapesFit;
        forall i | 0 <= i < |roots| && roots[i].Pointer?
          ensures roots[i].address in memory && Reachable(memory, roots, roots[i].address)
        {
          assert Sound(memory, roots[i]);
          RootReachable(memory, roots, roots[i].address);
        }
      }
      MarkAllKeeps(Colors(), before, Marks(), roots, {}, roots);
      MarkTuples(roots);
      MarkUntilStackIsEmpty(before);
      forall a | a in memory
        ensures memory[a].color == gcBlackColor <==> Reachable(before, roots, a)
        ensures memory[a].color == gcBlackColor || memory[a].color == gcWhiteColor
      {
        MarkingExact(Colors(), before, Marks(), roots, a);
      }
    }

    // Tombstones.

    /** Buries the weak references of one object. */
    method BuryObject(a: Address)
      requires a in memory && ValidPalette(Colors())
      modifies this`memory
      ensures memory == old(memory)[a := BuryCell(Colors(), old(memory), old(memory)[a])]
    {
      ghost var before, p := memory, Colors();
      if memory[a].color == gcBlackColor && memory[a].kind.WeakPointers? {
        var slotCount := |memory[a].slots|;
        assert BurySlots(p, before, before[a].slots, 0) == before[a].slots;
        assert before[a := before[a]] == before;
        for i := 0 to slotCount
          invariant memory == before[a := before[a].(slots := BurySlots(p, before, before[a].slots, i))]
        {
          var t := memory[a].slots[i];
          if t.Pointer? && t.address in memory && memory[t.address].color != gcBlackColor {
            memory := memory[a := memory[a].(slots := memory[a].slots[i := Tombstone])];
          }
          assert memory[a].slots == BurySlots(p, before, before[a].slots, i + 1);
        }
      }
    }

    method ReplaceWeakReferencesWithTombstones()
      requires ValidPalette(Colors()) && Listed(memory, firstMallocObject, lastMallocObject, chain)
      modifies this`memory
      ensures Buried(Colors(), old(memory), memory, chain, |chain|)
    {
      hide BuryCell;
      ghost var before, n := memory, 0;
      var position := firstMallocObject;
      while position != NULL
        invariant n <= |chain| && position == if n < |chain| then chain[n] else NULL
        invariant Buried(Colors(), before, memory, chain, n)
        decreases |chain| - n
      {
        BuryNext(before, n);
        BuryObject(position);
        BuriedKeepsLinks(before, n);
        n := n + 1;
        position := memory[position].next;
      }
    }

    /** Burying one object does not depend on which others are buried already. */
    lemma BuryNext(before: Memory, n: nat)
      requires Listed(before, firstMallocObject, lastMallocObject, chain) && n < |chain|
      requires Buried(Colors(), before, memory, chain, n)
      ensures BuryCell(Colors(), memory, memory[chain[n]]) == BuryCell(Colors(), before, before[chain[n]])
    {
      var c := before[chain[n]];
      assert memory[chain[n]] == c;
      forall t ensures BuryTuple(Colors(), memory, t) == BuryTuple(Colors(), before, t) {
        if t.Pointer? && t.address in before {
          var i :| 0 <= i < |chain| && chain[i] == t.address;
          assert memory[chain[i]].color == before[chain[i]].color;
        }
      }
      assert BurySlots(Colors(), memory, c.slots, |c.slots|) == BurySlots(Colors(), before, c.slots, |c.slots|);
    }

    lemma BuriedKeepsLinks(before: Memory, n: nat)
      requires Listed(before, firstMallocObject, lastMallocObject, chain) && n < |chain|
      ensures BuryCell(Colors(), before, before[chain[n]]).next == if n + 1 < |chain| then chain[n + 1] else NULL
    {
    }

    // The sweep.

    /** Moves a live object to the end of the swept part of the list. */
    method Relink(position: Address)
      requires position in memory
      requires firstMallocObject == NULL ==> lastMallocObject !in memory
      modifies this`memory, this`firstMallocObject, this`lastMallocObject
      ensures memory == Appended(Detached(old(memory), position), old(lastMallocObject), position)
      ensures firstMallocObject == if old(firstMallocObject) == NULL then position else old(firstMallocObject)
      ensures lastMallocObject == position
    {
      memory := Detached(memory, position);
      if firstMallocObject != NULL {
        memory := Appended(memory, lastMallocObject, position);
        lastMallocObject := position;
      } else {
        firstMallocObject, lastMallocObject := position, position;
      }
    }

    /** Keeps a black object at the end of the new list, and frees any other. */
    method SweepOne(position: Address, ghost before: Memory, ghost n: nat, ghost total: nat) returns (next: Address)
      requires n < |chain| && position == chain[n] && Distinct(chain) && NULL !in before
      requires Sweeping.Sweeping(Colors(), before, memory, firstMallocObject, lastMallocObject, chain, n)
      requires total >= SumSizes(before, chain) && Accounted(Colors(), before, chain, n, total, totalSize)
      modifies this`memory, this`firstMallocObject, this`lastMallocObject, this`totalSize
      ensures next == before[chain[n]].next
      ensures Sweeping.Sweeping(Colors(), before, memory, firstMallocObject, lastMallocObject, chain, n + 1)
      ensures Accounted(Colors(), before, chain, n + 1, total, totalSize)
    {
      FirstAndLast(before, n);
      assert Colors().black == gcBlackColor;
      hide Sweeping.Sweeping, Accounted, SumSizes, Distinct, Detached, Appended, Survivors, Listed, Colors;
      AccountNext(Colors(), before, chain, n, total, totalSize);
      next := memory[position].next;
      if memory[position].color == gcBlackColor {
        SweepKeep(Colors(), before, memory, firstMallocObject, lastMallocObject, chain, n);
        Relink(position);
      } else {
        SweepFree(Colors(), before, memory, firstMallocObject, lastMallocObject, chain, n);
        Free(position);
      }
    }

    method Free(position: Address)
      requires position in memory && totalSize >= memory[position].size
      modifies this`memory, this`totalSize
      ensures memory == Detached(old(memory), position) - {position}
      ensures totalSize == old(totalSize - memory[position].size)
    {
      totalSize := totalSize - memory[position].size;
      memory := Detached(memory, position) - {position};
    }

    lemma FirstAndLast(before: Memory, n: nat)
      requires n < |chain| && Distinct(chain) && NULL !in before
      requires Sweeping.Sweeping(Colors(), before, memory, firstMallocObject, lastMallocObject, chain, n)
      ensures chain[n] in before && chain[n] in memory && memory[chain[n]] == before[chain[n]]
      ensures firstMallocObject == NULL <==> lastMallocObject == NULL
      ensures lastMallocObject != NULL ==> lastMallocObject in memory && lastMallocObject != chain[n]
      ensures NULL !in memory
    {
      SurvivorsFrom(Colors(), before, chain[..n]);
    }

    /** Unlinks and frees every object that is not black; the others keep their order. */
    method PerformSweep()
      requires Listed(memory, firstMallocObject, lastMallocObject, chain) && totalSize >= SumSizes(memory, chain)
      modifies this`memory, this`firstMallocObject, this`lastMallocObject, this`chain, this`totalSize
      ensures chain == Survivors(Colors(), old(memory), old(chain))
      ensures Listed(memory, firstMallocObject, lastMallocObject, chain)
      ensures forall a :: a in memory <==> a in old(memory) && old(memory)[a].color == gcBlackColor
      ensures forall a :: a in memory ==> SameButNext(old(memory)[a], memory[a])
      ensures forall i :: 0 <= i < |chain| ==> chain[i] in memory
      ensures totalSize >= SumSizes(memory, chain)
      ensures totalSize - SumSizes(memory, chain) == old(totalSize) - SumSizes(old(memory), old(chain))
    {
      hide Listed, Linked, Distinct, SumSizes, Survivors, Sweeping.Sweeping, Accounted, SameButNext, Excess;
      ghost var before, n, total := memory, 0, totalSize;
      ghost var first, last := firstMallocObject, lastMallocObject;
      var position := firstMallocObject;
      SweepStarts(Colors(), before, first, last, chain, total);
      firstMallocObject, lastMallocObject := NULL, NULL;
      while position != NULL
        modifies this`memory, this`firstMallocObject, this`lastMallocObject, this`totalSize
        invariant n <= |chain| && position == if n < |chain| then chain[n] else NULL
        invariant Sweeping.Sweeping(Colors(), before, memory, firstMallocObject, lastMallocObject, chain, n)
        invariant Accounted(Colors(), before, chain, n, total, totalSize)
        decreases |chain| - n
      {
        NextInList(before, first, last, chain, n);
        position := SweepOne(position, before, n, total);
        n := n + 1;
      }
      if n < |chain| { NextInList(before, first, last, chain, n); }
      SweepEnds(Colors(), before, first, last, memory, firstMallocObject, lastMallocObject, chain, total, totalSize);
      chain := Survivors(Colors(), before, chain);
    }

    // Cycles.

    method ComputeNextCollectionThreshold()
      modifies this`shouldAttemptToCollect, this`nextGCSizeThreshold
      ensures !shouldAttemptToCollect
      ensures nextGCSizeThreshold >= COLLECTION_GAMMA_FACTOR * totalSize
      ensures nextGCSizeThreshold >= COLLECTION_GAMMA_FACTOR * STARTUP_HEAP_SIZE
      ensures nextGCSizeThreshold == COLLECTION_GAMMA_FACTOR * totalSize
           || nextGCSizeThreshold == COLLECTION_GAMMA_FACTOR * STARTUP_HEAP_SIZE
    {
      shouldAttemptToCollect := false;
      var liveDataSize := totalSize;
      if liveDataSize < STARTUP_HEAP_SIZE { liveDataSize := STARTUP_HEAP_SIZE; }
      nextGCSizeThreshold := liveDataSize * COLLECTION_GAMMA_FACTOR;
    }

    method SwapGCColors()
      requires ValidPalette(Colors())
      modifies this`gcWhiteColor, this`gcBlackColor
      ensures ValidPalette(Colors())
      ensures gcWhiteColor == old(gcBlackColor) && gcBlackColor == old(gcWhiteColor)
    {
      gcBlackColor, gcWhiteColor := gcWhiteColor, gcBlackColor;
    }

    /**
     A cycle is exact: the list keeps the reachable objects and nothing else, in order and with their strong slots;
     dead weak references become tombstones; and every survivor is white again.
     */
    method PerformCycle()
      requires Valid()
      modifies this
      ensures Valid() && roots == old(roots) && perThreadLockCount == old(perThreadLockCount)
              && gcDisabled == old(gcDisabled)
      ensures Collected(old(memory), roots, old(chain), memory, chain)
      ensures forall i :: 0 <= i < |chain| ==> chain[i] in memory
      ensures totalSize - SumSizes(memory, chain) == old(totalSize) - SumSizes(old(memory), old(chain))
      ensures !shouldAttemptToCollect
    {
      hide Listed, NoDangling, ShapesFit, AllSound, SumSizes, Reachable;
      hide SameButColors, Buried, SameButNext, Collected, Survivors, ValidPalette;
      ghost var before := memory;
      ListedParts(before, firstMallocObject, lastMallocObject, chain);
      MarkPhase();
      ghost var marked := memory;
      ColorsKeepList(before, marked);
      ReplaceWeakReferencesWithTombstones();
      ghost var buried := memory;
      BuriedKeepList(marked, buried);
      PerformSweep();
      ComputeNextCollectionThreshold();
      CycleCollects(before, marked, buried, old(chain));
      SwapGCColors();
      CollectedSound(before, roots, old(chain), memory, chain);
      RootsSurvive(before, old(chain));
    }

    /** Colours are no part of the list. */
    lemma ColorsKeepList(before: Memory, marked: Memory)
      requires SameButColors(before, marked) && Listed(before, firstMallocObject, lastMallocObject, chain)
      ensures Listed(marked, firstMallocObject, lastMallocObject, chain)
      ensures SumSizes(marked, chain) == SumSizes(before, chain)
    {
      hide Listed, SumSizes;
      forall a | a in before ensures marked[a].next == before[a].next && marked[a].size == before[a].size {
        assert marked[a] == before[a].(color := marked[a].color);
      }
      ListedAlike(before, marked, firstMallocObject, lastMallocObject, chain);
    }

    lemma BuriedKeepList(marked: Memory, buried: Memory)
      requires Buried(Colors(), marked, buried, chain, |chain|)
               && Listed(marked, firstMallocObject, lastMallocObject, chain)
      ensures Listed(buried, firstMallocObject, lastMallocObject, chain)
      ensures SumSizes(buried, chain) == SumSizes(marked, chain)
    {
      hide BurySlots, SumSizes, Linked, Distinct;
      forall a | a in marked ensures buried[a].next == marked[a].next && buried[a].size == marked[a].size {
        var i :| 0 <= i < |chain| && chain[i] == a;
        assert buried[chain[i]] == BuryCell(Colors(), marked, marked[chain[i]]);
      }
      ListedAlike(marked, buried, firstMallocObject, lastMallocObject, chain);
    }

    lemma CycleCollects(before: Memory, marked: Memory, buried: Memory, chain0: seq<Address>)
      requires ValidPalette(Colors()) && NoDangling(before) && SameButColors(before, marked)
      requires (forall a :: a in before <==> a in chain0) && Distinct(chain0)
      requires forall a :: a in marked ==> (marked[a].color == gcBlackColor <==> Reachable(before, roots, a))
      requires Buried(Colors(), marked, buried, chain0, |chain0|)
      requires chain == Survivors(Colors(), buried, chain0)
      requires forall a :: a in memory <==> a in buried && buried[a].color == gcBlackColor
      requires forall a :: a in memory ==> SameButNext(buried[a], memory[a])
      ensures Collected(before, roots, chain0, memory, chain)
      ensures forall a :: a in memory ==> memory[a].color == gcBlackColor
    {
      hide Reachable, Survivors, NoDangling, LiveChain;
      forall a | a in buried ensures BuriedFrom(before, marked, buried, a) {
        BuriedCell(before, marked, buried, chain0, a);
      }
      SurvivorsAreLive(Colors(), before, roots, buried, chain0);
    }

    /** A buried object: same colour and fields, and weak slots with tombstones. */
    ghost predicate BuriedFrom(before: Memory, marked: Memory, buried: Memory, a: Address)
      reads this
    {
      && a in buried && a in before && a in marked && buried[a].color == marked[a].color
      && (buried[a].color == gcBlackColor ==> CellCollected(before, roots, before[a], buried[a]))
    }

    lemma BuriedCell(before: Memory, marked: Memory, buried: Memory, chain0: seq<Address>, a: Address)
      requires ValidPalette(Colors()) && NoDangling(before) && SameButColors(before, marked)
      requires (forall x :: x in before <==> x in chain0)
      requires forall x :: x in marked ==> (marked[x].color == gcBlackColor <==> Reachable(before, roots, x))
      requires Buried(Colors(), marked, buried, chain0, |chain0|) && a in buried
      ensures BuriedFrom(before, marked, buried, a)
    {
      hide Reachable;
      var i :| 0 <= i < |chain0| && chain0[i] == a;
      assert buried[chain0[i]] == BuryCell(Colors(), marked, marked[chain0[i]]);
      if buried[a].color == gcBlackColor && before[a].kind.WeakPointers? {
        forall j | 0 <= j < |before[a].slots| ensures buried[a].slots[j]
          == LiveTuple(before, roots, before[a].slots[j]) {
          assert Sound(before, before[a].slots[j]) by { assert AllSound(before, before[a].slots); }
        }
      }
    }

    lemma RootsSurvive(before: Memory, chain0: seq<Address>)
      requires AllSound(before, roots) && Collected(before, roots, chain0, memory, chain)
      ensures AllSound(memory, roots)
    {
      hide Reachable, LiveChain, CellCollected;
      forall i | 0 <= i < |roots| ensures Sound(memory, roots[i]) {
        assert Sound(before, roots[i]);
        if roots[i].Pointer? { RootReachable(before, roots, roots[i].address); }
      }
    }

    // Safepoints.

    /** Collects if the heap asks for it, no lock is held and collection is not disabled; otherwise does nothing. */
    method Safepoint()
      requires Valid()
      modifies this
      ensures Valid() && roots == old(roots) && perThreadLockCount == old(perThreadLockCount)
              && gcDisabled == old(gcDisabled)
      ensures forall i :: 0 <= i < |chain| ==> chain[i] in memory
      ensures totalSize - SumSizes(memory, chain) == old(totalSize) - SumSizes(old(memory), old(chain))
      ensures if old(perThreadLockCount == 0 && shouldAttemptToCollect && !gcDisabled)
              then Collected(old(memory), roots, old(chain), memory, chain)
              else unchanged(this)
    {
      if perThreadLockCount != 0 { return; }
      if !shouldAttemptToCollect || gcDisabled { return; }
      hide Collected, Listed, NoDangling, ShapesFit;
      PerformCycle();
    }

    method Collect()
      requires Valid()
      modifies this
      ensures Valid() && roots == old(roots) && perThreadLockCount == old(perThreadLockCount)
      ensures forall i :: 0 <= i < |chain| ==> chain[i] in memory
      ensures totalSize - SumSizes(memory, chain) == old(totalSize) - SumSizes(old(memory), old(chain))
      ensures if old(perThreadLockCount == 0 && !gcDisabled)
              then Collected(old(memory), roots, old(chain), memory, chain)
              else memory == old(memory) && chain == old(chain)
      ensures gcDisabled == old(gcDisabled)
    {
      hide Collected;
      shouldAttemptToCollect := true;
      Safepoint();
    }

    method Lock()
      requires Valid()
      modifies this`perThreadLockCount
      ensures Valid() && perThreadLockCount == (old(perThreadLockCount) + 1) % LOCK_LIMIT
    {
      perThreadLockCount := (perThreadLockCount + 1) % LOCK_LIMIT;
    }

    /** Unlocking the last lock is a safepoint; an unlock too many wraps around and locks. */
    method Unlock()
      requires Valid()
      modifies this
      ensures Valid() && roots == old(roots)
      ensures perThreadLockCount == (old(perThreadLockCount) - 1) % LOCK_LIMIT
      ensures forall i :: 0 <= i < |chain| ==> chain[i] in memory
      ensures totalSize - SumSizes(memory, chain) == old(totalSize) - SumSizes(old(memory), old(chain))
      ensures if old(perThreadLockCount == 1 && shouldAttemptToCollect && !gcDisabled)
              then Collected(old(memory), roots, old(chain), memory, chain)
              else memory == old(memory) && chain == old(chain)
      ensures gcDisabled == old(gcDisabled)
    {
      hide Collected;
      perThreadLockCount := (perThreadLockCount - 1) % LOCK_LIMIT;
      if perThreadLockCount != 0 { return; }
      Safepoint();
    }

    // Allocation.

    /** Links a new object at the end of the list; malloc returned the address. */
    method AllocateRaw(c: Cell, allocationSize: nat, address: Address)
      requires Valid() && address != NULL && address !in memory
      requires Sound(memory, c.typePointer) && AllSound(memory, c.slots)
      requires (c.kind.Bytes? ==> c.slots == []) && (c.kind.WeakPointers? ==> DeclaresFewSlots(memory, c))
      modifies this`memory, this`firstMallocObject, this`lastMallocObject, this`chain, this`totalSize,
               this`shouldAttemptToCollect
      ensures Valid() && chain == old(chain) + [address]
      ensures memory.Keys == old(memory).Keys + {address}
      ensures forall a :: a in old(memory) ==> SameButNext(old(memory)[a], memory[a])
      ensures var size := MALLOC_HEADER_SIZE + allocationSize;
              && memory[address] == c.(next := NULL, size := size % SIZE_LIMIT, color := gcWhiteColor)
              && totalSize == old(totalSize) + size
              && Excess() == old(totalSize - SumSizes(memory, chain)) + (size - size % SIZE_LIMIT)
              && shouldAttemptToCollect == (old(shouldAttemptToCollect) || totalSize > nextGCSizeThreshold)
    {
      hide Listed, NoDangling, ShapesFit, SumSizes, AllSound, SameButNext, Appended, Sound;
      var allocationWithHeaderSize := MALLOC_HEADER_SIZE + allocationSize;
      var cell := c.(next := NULL, size := allocationWithHeaderSize % SIZE_LIMIT, color := gcWhiteColor);
      AllocationKeeps(memory, firstMallocObject, lastMallocObject, chain, address, cell);
      AllocationFrame(memory, firstMallocObject, lastMallocObject, chain, address, cell);
      AllocationSound(memory, lastMallocObject, roots, address, cell);
      Link(cell, address);
      totalSize := totalSize + allocationWithHeaderSize;
      if !shouldAttemptToCollect { shouldAttemptToCollect := totalSize > nextGCSizeThreshold; }
    }

    /** Appends an object to the list. */
    method Link(cell: Cell, address: Address)
      requires firstMallocObject == NULL ==>
                 Appended(memory[address := cell], lastMallocObject, address) == memory[address := cell]
      modifies this`memory, this`firstMallocObject, this`lastMallocObject, this`chain
      ensures memory == Appended(old(memory)[address := cell], old(lastMallocObject), address)
      ensures firstMallocObject == if old(firstMallocObject) == NULL then address else old(firstMallocObject)
      ensures lastMallocObject == address && chain == old(chain) + [address]
    {
      hide Appended;
      memory := memory[address := cell];
      if firstMallocObject != NULL {
        memory := Appended(memory, lastMallocObject, address);
        lastMallocObject := address;
      } else {
        firstMallocObject, lastMallocObject := address, address;
      }
      chain := chain + [address];
    }

    method AllocateByteTuple(byteSize: nat, address: Address)
      requires Valid() && address != NULL && address !in memory
      modifies this`memory, this`firstMallocObject, this`lastMallocObject, this`chain, this`totalSize,
               this`shouldAttemptToCollect
      ensures Valid() && chain == old(chain) + [address] && memory.Keys == old(memory).Keys + {address}
      ensures SameContent(memory[address], Cell(NULL, 0, 0, Bytes, Null, [], 0))
      ensures forall a :: a in old(memory) ==> a in memory && SameButNext(old(memory)[a], memory[a])
      ensures Excess() == old(totalSize - SumSizes(memory, chain))
              <==> MALLOC_HEADER_SIZE + OBJECT_TUPLE_SIZE + byteSize < SIZE_LIMIT
    {
      hide Listed, NoDangling, ShapesFit, SumSizes;
      AllocateRaw(Cell(NULL, 0, 0, Bytes, Null, [], 0), OBJECT_TUPLE_SIZE + byteSize, address);
    }

    /** Slots are zeroed; the size in the object header has 32 bits as well. */
    method AllocatePointerTuple(slotCount: nat, address: Address)
      requires Valid() && address != NULL && address !in memory
      modifies this`memory, this`firstMallocObject, this`lastMallocObject, this`chain, this`totalSize,
               this`shouldAttemptToCollect
      ensures Valid() && chain == old(chain) + [address] && memory.Keys == old(memory).Keys + {address}
      ensures SameContent(memory[address], Cell(NULL, 0, 0, Pointers, Null, NullSlots(slotCount), 0))
      ensures |memory[address].slots| == slotCount <==> SLOT_SIZE * slotCount < SIZE_LIMIT
      ensures forall a :: a in old(memory) ==> a in memory && SameButNext(old(memory)[a], memory[a])
      ensures Excess() == old(totalSize - SumSizes(memory, chain))
              <==> MALLOC_HEADER_SIZE + OBJECT_TUPLE_SIZE + SLOT_SIZE * slotCount < SIZE_LIMIT
    {
      hide Listed, NoDangling, ShapesFit, SumSizes;
      AllocateRaw(Cell(NULL, 0, 0, Pointers, Null, NullSlots(slotCount), 0), OBJECT_TUPLE_SIZE
                  + SLOT_SIZE * slotCount, address);
    }

    /** The copy has the type and the slots of the original, and is white. */
    method ShallowCopyTuple(original: Address, byteSize: nat, address: Address)
      requires Valid() && address != NULL && address !in memory && original in memory
      modifies this`memory, this`firstMallocObject, this`lastMallocObject, this`chain, this`totalSize,
               this`shouldAttemptToCollect
      ensures Valid() && chain == old(chain) + [address] && memory.Keys == old(memory).Keys + {address}
      ensures SameContent(memory[address], old(memory)[original]) && memory[address].color == gcWhiteColor
      ensures forall a :: a in old(memory) ==> a in memory && SameButNext(old(memory)[a], memory[a])
      ensures Excess() == old(totalSize - SumSizes(memory, chain))
              <==> MALLOC_HEADER_SIZE + OBJECT_TUPLE_SIZE + byteSize < SIZE_LIMIT
    {
      hide Listed, SumSizes;
      AllocateRaw(memory[original], OBJECT_TUPLE_SIZE + byteSize, address);
    }

    // Mutator steps.

    method WriteSlot(a: Address, i: nat, t: Tuple)
      requires Valid() && a in memory && i < |memory[a].slots| && Sound(memory, t)
      modifies this`memory
      ensures Valid() && memory == old(memory)[a := old(memory)[a].(slots := old(memory)[a].slots[i := t])]
      ensures SumSizes(memory, chain) == SumSizes(old(memory), chain)
    {
      CellChanged(a, memory[a].(slots := memory[a].slots[i := t]));
      memory := memory[a := memory[a].(slots := memory[a].slots[i := t])];
    }

    method SetType(a: Address, t: Tuple)
      requires Valid() && a in memory && Sound(memory, t)
      requires memory[a].kind.WeakPointers? ==> DeclaresFewSlots(memory, memory[a].(typePointer := t))
      modifies this`memory
      ensures Valid() && memory == old(memory)[a := old(memory)[a].(typePointer := t)]
      ensures SumSizes(memory, chain) == SumSizes(old(memory), chain)
    {
      CellChanged(a, memory[a].(typePointer := t));
      memory := memory[a := memory[a].(typePointer := t)];
    }

    method MarkWeak(a: Address)
      requires Valid() && a in memory && memory[a].kind.Pointers? && DeclaresFewSlots(memory, memory[a])
      modifies this`memory
      ensures Valid() && memory == old(memory)[a := old(memory)[a].(kind := WeakPointers)]
      ensures SumSizes(memory, chain) == SumSizes(old(memory), chain)
    {
      CellChanged(a, memory[a].(kind := WeakPointers));
      memory := memory[a := memory[a].(kind := WeakPointers)];
    }

    /** A type declares slots; its weak instances must have them. */
    method DeclareSlots(a: Address, n: nat)
      requires Valid() && a in memory && InstancesHave(memory, a, n)
      modifies this`memory
      ensures Valid() && memory == old(memory)[a := old(memory)[a].(instanceSlotCount := n)]
      ensures SumSizes(memory, chain) == SumSizes(old(memory), chain)
    {
      assert (var after := memory[a := memory[a].(instanceSlotCount := n)];
              && Listed(after, firstMallocObject, lastMallocObject, chain) && NoDangling(after) && ShapesFit(after)
              && AllSound(after, roots) && SumSizes(after, chain) == SumSizes(memory, chain)) by {
        var after := memory[a := memory[a].(instanceSlotCount := n)];
        ListedAlike(memory, after, firstMallocObject, lastMallocObject, chain);
        hide Listed, SumSizes;
        forall b | b in after ensures Sound(after, after[b].typePointer) && AllSound(after, after[b].slots) {
          assert AllSound(memory, memory[b].slots);
        }
      }
      memory := memory[a := memory[a].(instanceSlotCount := n)];
    }

    method ChangeRoots(ts: seq<Tuple>)
      requires Valid() && AllSound(memory, ts)
      modifies this`roots
      ensures Valid() && roots == ts
    {
      roots := ts;
    }

    /** Changing the type, the slots or the kind of one object. */
    lemma CellChanged(a: Address, c: Cell)
      requires Valid() && a in memory && Sound(memory, c.typePointer) && AllSound(memory, c.slots)
      requires c == memory[a].(typePointer := c.typePointer, slots := c.slots, kind := c.kind)
      requires |c.slots| == |memory[a].slots|
      requires (c.kind.Bytes? ==> c.slots == []) && (c.kind.WeakPointers? ==> DeclaresFewSlots(memory, c))
      ensures var after := memory[a := c];
              && Listed(after, firstMallocObject, lastMallocObject, chain) && NoDangling(after) && ShapesFit(after)
              && AllSound(after, roots) && SumSizes(after, chain) == SumSizes(memory, chain)
    {
      var after := memory[a := c];
      ListedAlike(memory, after, firstMallocObject, lastMallocObject, chain);
      hide Listed, SumSizes;
      forall b | b in after ensures Sound(after, after[b].typePointer) && AllSound(after, after[b].slots) {
        if b != a { assert AllSound(memory, memory[b].slots); }
      }
    }
  }

  lemma AllocationKeeps(memory: Memory, first: Address, last: Address, chain: seq<Address>, a: Address, c: Cell)
    requires Listed(memory, first, last, chain) && a != NULL && a !in memory && c.next == NULL
    ensures var after := Appended(memory[a := c], last, a);
            && Listed(after, if first == NULL then a else first, a, chain + [a])
            && (forall i :: 0 <= i < |chain + [a]| ==> (chain + [a])[i] in after)
            && (forall i :: 0 <= i < |chain| ==> chain[i] in memory)
            && SumSizes(after, chain + [a]) == SumSizes(memory, chain) + c.size
  {
    hide SumSizes;
    var linked := memory[a := c];
    LinkedElsewhere(memory, linked, first, last, chain);
    AppendLinked(linked, first, last, chain, a);
    var after := Appended(linked, last, a);
    AllocationFrame(memory, first, last, chain, a, c);
    SumAppend(after, chain, a);
    SumAgrees(after, memory, chain);
    assert forall b :: b in chain + [a] <==> b in chain || b == a;
  }

  /** What an allocation changes: the new cell, and the link of the last one. */
  lemma AllocationFrame(memory: Memory, first: Address, last: Address, chain: seq<Address>, a: Address, c: Cell)
    requires Listed(memory, first, last, chain) && a != NULL && a !in memory && c.next == NULL
    ensures var after := Appended(memory[a := c], last, a);
            && (last == NULL || last in memory)
            && (first == NULL ==> after == memory[a := c])
            && a in after && after[a] == c && after.Keys == memory.Keys + {a}
            && (forall b :: b in memory ==>
                  b in after && SameButNext(memory[b], after[b]) && after[b].color == memory[b].color)
            && (forall b :: b in memory ==> after[b].size == memory[b].size)
  {
  }

  lemma AllocationSound(memory: Memory, last: Address, roots: seq<Tuple>, a: Address, c: Cell)
    requires NoDangling(memory) && ShapesFit(memory) && AllSound(memory, roots) && a !in memory
    requires last == NULL || last in memory
    requires Sound(memory, c.typePointer) && AllSound(memory, c.slots)
    requires (c.kind.Bytes? ==> c.slots == []) && (c.kind.WeakPointers? ==> DeclaresFewSlots(memory, c))
    ensures var after := Appended(memory[a := c], last, a);
            NoDangling(after) && ShapesFit(after) && AllSound(after, roots)
  {
    var after := Appended(memory[a := c], last, a);
    forall b | b in after ensures Sound(after, after[b].typePointer) && AllSound(after, after[b].slots) {
      if b != a { assert AllSound(memory, memory[b].slots); }
    }
  }

  lemma ListedParts(memory: Memory, first: Address, last: Address, chain: seq<Address>)
    requires Listed(memory, first, last, chain)
    ensures (forall a :: a in memory <==> a in chain) && Distinct(chain)
  {
  }

  lemma SweepStarts(p: Palette, before: Memory, first: Address, last: Address, chain: seq<Address>, total: nat)
    requires Listed(before, first, last, chain)
    ensures Sweeping.Sweeping(p, before, before, NULL, NULL, chain, 0) && Accounted(p, before, chain, 0, total, total)
    ensures first == if chain == [] then NULL else chain[0]
  {
    assert chain[..0] == [] && chain[0..] == chain;
  }

  lemma NextInList(before: Memory, first: Address, last: Address, chain: seq<Address>, n: nat)
    requires Listed(before, first, last, chain) && n < |chain|
    ensures chain[n] in before && before[chain[n]].next == if n + 1 < |chain| then chain[n + 1] else NULL
    ensures Distinct(chain) && NULL !in before && chain[n] != NULL
    ensures n + 1 < |chain| ==> chain[n + 1] != NULL
  {
  }

  lemma SweepEnds(p: Palette, before: Memory, first0: Address, last0: Address, memory: Memory, first: Address,
                  last: Address, chain: seq<Address>, total: nat, size: nat)
    requires Listed(before, first0, last0, chain)
    requires Sweeping.Sweeping(p, before, memory, first, last, chain, |chain|)
    requires Accounted(p, before, chain, |chain|, total, size) && total >= SumSizes(before, chain)
    ensures Listed(memory, first, last, Survivors(p, before, chain))
    ensures forall a :: a in memory <==> a in before && before[a].color == p.black
    ensures forall a :: a in memory ==> a in before && SameButNext(before[a], memory[a])
    ensures forall i :: 0 <= i < |Survivors(p, before, chain)| ==> Survivors(p, before, chain)[i] in memory
    ensures size - SumSizes(memory, Survivors(p, before, chain)) == total - SumSizes(before, chain)
  {
    hide Linked, SumSizes, Survivors;
    assert chain[..|chain|] == chain && chain[|chain|..] == [];
    var kept := Survivors(p, before, chain);
    SurvivorsFrom(p, before, chain);
    SumAgrees(memory, before, kept);
  }
}
