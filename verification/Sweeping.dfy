/** Tombstones, the sweep and what a whole cycle leaves. */
module Sweeping {
  import opened ObjectMemory

  // Tombstones.

  function BuryTuple(p: Palette, memory: Memory, t: Tuple): Tuple {
    if t.Pointer? && t.address in memory && memory[t.address].color != p.black then Tombstone else t
  }

  function BurySlots(p: Palette, memory: Memory, slots: seq<Tuple>, n: nat): (r: seq<Tuple>)
    requires n <= |slots|
    ensures |r| == |slots|
    ensures forall i :: 0 <= i < |slots| ==> r[i] == if i < n then BuryTuple(p, memory, slots[i]) else slots[i]
  {
    seq(|slots|, i requires 0 <= i < |slots| => if i < n then BuryTuple(p, memory, slots[i]) else slots[i])
  }

  /** A black weak object loses its pointers to objects that are not black. */
  function BuryCell(p: Palette, memory: Memory, c: Cell): Cell {
    if c.color == p.black && c.kind.WeakPointers? then c.(slots := BurySlots(p, memory, c.slots, |c.slots|)) else c
  }

  /** The first n objects of the list have been visited. */
  ghost predicate Buried(p: Palette, before: Memory, after: Memory, chain: seq<Address>, n: nat)
    requires n <= |chain|
  {
    && after.Keys == before.Keys
    && (forall i :: 0 <= i < |chain| ==> chain[i] in before)
    && (forall i :: 0 <= i < |chain| ==>
          after[chain[i]] == if i < n then BuryCell(p, before, before[chain[i]]) else before[chain[i]])
  }

  // The sweep.

  /** The black objects of the list, in order. */
  function Survivors(p: Palette, memory: Memory, chain: seq<Address>): seq<Address> {
    if chain == [] then []
    else
      var last := chain[|chain| - 1];
      Survivors(p, memory, chain[..|chain| - 1])
      + if last in memory && memory[last].color == p.black then [last] else []
  }

  lemma {:induction false} SurvivorsFrom(p: Palette, memory: Memory, chain: seq<Address>)
    ensures forall a :: a in Survivors(p, memory, chain) <==> a in chain && a in memory && memory[a].color == p.black
    ensures Distinct(chain) ==> Distinct(Survivors(p, memory, chain))
    ensures |Survivors(p, memory, chain)| <= |chain|
  {
    if chain != [] {
      var shorter, last := chain[..|chain| - 1], chain[|chain| - 1];
      assert chain == shorter + [last];
      SurvivorsFrom(p, memory, shorter);
      if Distinct(chain) { assert forall i :: 0 <= i < |shorter| ==> chain[i] != last; }
    }
  }

  /** Only the links of the cells differ. */
  ghost predicate SameButNext(c: Cell, d: Cell) {
    d == c.(next := d.next)
  }

  /** In the middle of a sweep: `kept` is the new list, `rest` is still linked as before, everything else is freed. */
  ghost predicate Sweeping(p: Palette, before: Memory, after: Memory, first: Address, last: Address,
                           chain: seq<Address>, n: nat) {
    && n <= |chain|
    && (forall i :: 0 <= i < |chain| ==> chain[i] in before)
    && Linked(after, first, last, Survivors(p, before, chain[..n]))
    && (forall i :: n <= i < |chain| ==> chain[i] in after && after[chain[i]] == before[chain[i]])
    && (forall a :: a in after <==> a in Survivors(p, before, chain[..n]) || a in chain[n..])
    && (forall a :: a in after ==> a in before && SameButNext(before[a], after[a]))
  }

  // What a cycle leaves.

  /** The reachable objects of a list, in order. */
  ghost function LiveChain(memory: Memory, roots: seq<Tuple>, chain: seq<Address>): seq<Address> {
    if chain == [] then []
    else
      var last := chain[|chain| - 1];
      LiveChain(memory, roots, chain[..|chain| - 1]) + if Reachable(memory, roots, last) then [last] else []
  }

  ghost function LiveTuple(memory: Memory, roots: seq<Tuple>, t: Tuple): Tuple {
    if t.Pointer? && !Reachable(memory, roots, t.address) then Tombstone else t
  }

  /** A slot of a surviving object: weak references to dead objects become tombstones, everything else stays. */
  ghost predicate SlotsCollected(memory: Memory, roots: seq<Tuple>, c: Cell, slots: seq<Tuple>) {
    && |slots| == |c.slots|
    && forall i :: 0 <= i < |slots| ==>
         slots[i] == if c.kind.WeakPointers? then LiveTuple(memory, roots, c.slots[i]) else c.slots[i]
  }

  /** A surviving object after the cycle. */
  ghost predicate CellCollected(memory: Memory, roots: seq<Tuple>, c: Cell, d: Cell) {
    && d.size == c.size && d.kind == c.kind && d.typePointer == c.typePointer
       && d.instanceSlotCount == c.instanceSlotCount
    && SlotsCollected(memory, roots, c, d.slots)
  }

  /** Exactly the reachable objects survive, in their order, with their strong slots. */
  ghost predicate Collected(before: Memory, roots: seq<Tuple>, chain: seq<Address>, after: Memory,
                            afterChain: seq<Address>) {
    && afterChain == LiveChain(before, roots, chain)
    && (forall a :: a in after <==> a in before && Reachable(before, roots, a))
    && (forall a :: a in after ==> CellCollected(before, roots, before[a], after[a]))
  }

  lemma {:induction false} SurvivorsAreLive(p: Palette, before: Memory, roots: seq<Tuple>, marked: Memory,
                                            chain: seq<Address>)
    requires forall a :: a in chain ==> a in marked && (marked[a].color == p.black <==> Reachable(before, roots, a))
    ensures Survivors(p, marked, chain) == LiveChain(before, roots, chain)
  {
    hide Reachable;
    if chain != [] {
      assert chain[|chain| - 1] in chain;
      SurvivorsAreLive(p, before, roots, marked, chain[..|chain| - 1]);
    }
  }

  /** Strong slots never become tombstones: their referents are reachable. */
  lemma StrongSlotsStay(before: Memory, roots: seq<Tuple>, chain: seq<Address>, after: Memory, afterChain: seq<Address>,
                        a: Address, i: nat)
    requires NoDangling(before) && ShapesFit(before) && Collected(before, roots, chain, after, afterChain)
    requires a in after && i < |before[a].slots| && StrongSlot(before, before[a], i)
    ensures i < |after[a].slots| && after[a].slots[i] == before[a].slots[i]
    ensures after[a].slots[i].Pointer? ==> after[a].slots[i].address in after
  {
    hide Reachable, LiveChain, StrongSlot, ShapesFit, Edge;
    var t := before[a].slots[i];
    assert CellCollected(before, roots, before[a], after[a]);
    if t.Pointer? {
      EdgeIff(before, a, t.address);
      assert Sound(before, t) by { assert AllSound(before, before[a].slots); }
      EdgeReachable(before, roots, a, t.address);
    }
  }

  /** After a cycle nothing dangles: every pointer of a survivor, strong or weak, leads to a survivor. */
  lemma CollectedSound(before: Memory, roots: seq<Tuple>, chain: seq<Address>, after: Memory, afterChain: seq<Address>)
    requires NoDangling(before) && ShapesFit(before) && Collected(before, roots, chain, after, afterChain)
    ensures NoDangling(after) && ShapesFit(after)
  {
    hide Reachable, LiveChain;
    forall a | a in after ensures Sound(after, after[a].typePointer) && AllSound(after, after[a].slots) {
      assert CellCollected(before, roots, before[a], after[a]) && AllSound(before, before[a].slots);
      var t := after[a].typePointer;
      if t.Pointer? {
        assert StrongTuples(before, before[a])[0] == t;
        assert Edge(before, a, t.address);
        EdgeReachable(before, roots, a, t.address);
      }
      forall i | 0 <= i < |after[a].slots| ensures Sound(after, after[a].slots[i]) {
        hide Reachable, LiveChain;
        assert CellCollected(before, roots, before[a], after[a]) && AllSound(before, before[a].slots);
        var t := before[a].slots[i];
        assert Sound(before, t);
        if t.Pointer? && before[a].kind.Pointers? {
          assert StrongTuples(before, before[a])[1 + i] == t;
          assert Edge(before, a, t.address);
          EdgeReachable(before, roots, a, t.address);
        }
      }
    }
  }

  // Linking and accounting.

  /** The memory after linking a cell behind the last one of the list. */
  function Appended(memory: Memory, last: Address, a: Address): Memory {
    if last in memory then memory[last := memory[last].(next := a)] else memory
  }

  lemma AppendLinked(memory: Memory, first: Address, last: Address, chain: seq<Address>, a: Address)
    requires Linked(memory, first, last, chain) && Distinct(chain) && NULL !in memory
    requires a in memory && a !in chain && a != NULL && memory[a].next == NULL
    ensures Linked(Appended(memory, last, a), if first == NULL then a else first, a, chain + [a])
  {
    var after := Appended(memory, last, a);
    if chain != [] {
      assert chain[|chain| - 1] == last;
      assert a != last;
    }
  }

  /** A cell outside of the list may change, or go, without disturbing the list. */
  lemma LinkedElsewhere(m: Memory, n: Memory, first: Address, last: Address, chain: seq<Address>)
    requires Linked(m, first, last, chain)
    requires forall a :: a in chain ==> a in n && n[a] == m[a]
    ensures Linked(n, first, last, chain)
  {
  }

  lemma {:induction false} SumSplit(memory: Memory, chain: seq<Address>, n: nat)
    requires n <= |chain| && forall i :: 0 <= i < |chain| ==> chain[i] in memory
    ensures SumSizes(memory, chain[..n]) <= SumSizes(memory, chain)
    decreases |chain| - n
  {
    if n == |chain| {
      assert chain[..n] == chain;
    } else {
      SumSplit(memory, chain, n + 1);
      assert chain[..n + 1][..n] == chain[..n];
    }
  }

  /** Of the first n objects, the sizes of those that are not black have been subtracted. */
  ghost predicate Accounted(p: Palette, before: Memory, chain: seq<Address>, n: nat, total: nat, size: nat) {
    && n <= |chain| && (forall i :: 0 <= i < |chain| ==> chain[i] in before)
    && (forall a :: a in Survivors(p, before, chain[..n]) ==> a in before)
    && size + SumSizes(before, chain[..n]) == total + SumSizes(before, Survivors(p, before, chain[..n]))
  }

  lemma SurvivorsNext(p: Palette, before: Memory, chain: seq<Address>, n: nat)
    requires n < |chain|
    ensures Survivors(p, before, chain[..n + 1]) ==
            Survivors(p, before, chain[..n]) + if chain[n] in before && before[chain[n]].color == p.black
              then [chain[n]] else []
  {
    assert chain[..n + 1][..n] == chain[..n];
  }

  lemma SumAppend(memory: Memory, chain: seq<Address>, a: Address)
    requires (forall i :: 0 <= i < |chain| ==> chain[i] in memory) && a in memory
    ensures SumSizes(memory, chain + [a]) == SumSizes(memory, chain) + memory[a].size
  {
    assert (chain + [a])[..|chain|] == chain;
  }

  /** The size of the next object can be subtracted, and keeps the accounts. */
  lemma AccountNext(p: Palette, before: Memory, chain: seq<Address>, n: nat, total: nat, size: nat)
    requires Accounted(p, before, chain, n, total, size) && n < |chain| && total >= SumSizes(before, chain)
    ensures before[chain[n]].color == p.black ==> Accounted(p, before, chain, n + 1, total, size)
    ensures before[chain[n]].color != p.black ==>
              size >= before[chain[n]].size && Accounted(p, before, chain, n + 1, total, size - before[chain[n]].size)
  {
    hide SumSizes, Survivors;
    var a, kept := chain[n], Survivors(p, before, chain[..n]);
    SurvivorsNext(p, before, chain, n);
    SumAppend(before, chain[..n], a);
    assert chain[..n + 1] == chain[..n] + [a];
    SumSplit(before, chain, n + 1);
    SurvivorsFrom(p, before, chain[..n]);
    SumAppend(before, kept, a);
    assert kept + [] == kept;
  }

  /** Detaching the next object of the list. */
  function Detached(memory: Memory, a: Address): Memory
    requires a in memory
  {
    memory[a := memory[a].(next := NULL)]
  }

  lemma SweepKeep(p: Palette, before: Memory, memory: Memory, first: Address, last: Address, chain: seq<Address>,
                  n: nat)
    requires Sweeping(p, before, memory, first, last, chain, n) && n < |chain| && Distinct(chain) && NULL !in before
    requires before[chain[n]].color == p.black
    ensures var a := chain[n];
            Sweeping(p, before, Appended(Detached(memory, a), last, a), if first == NULL then a
                     else first, a, chain, n + 1)
  {
    hide Linked, Survivors, Appended, Detached, SameButNext, Distinct;
    var a, kept := chain[n], Survivors(p, before, chain[..n]);
    SurvivorsFrom(p, before, chain[..n]);
    SurvivorsNext(p, before, chain, n);
    NotBefore(chain, n);
    var detached := Detached(memory, a);
    DetachedFrame(memory, a, kept);
    LinkedElsewhere(memory, detached, first, last, kept);
    AppendLinked(detached, first, last, kept, a) by { KeptDistinct(p, before, chain, n); }
    assert last == NULL || last in kept;
    SweepRest(before, memory, Appended(detached, last, a), chain, n, kept, last);
    assert forall a :: a in kept + [chain[n]] || a in chain[n + 1..] <==> a in kept || a in chain[n..] by {
      assert chain[n..] == [chain[n]] + chain[n + 1..];
    }
  }

  lemma DetachedFrame(memory: Memory, a: Address, kept: seq<Address>)
    requires a in memory && NULL !in memory && a !in kept && forall b :: b in kept ==> b in memory
    ensures var detached := Detached(memory, a);
            && NULL !in detached && a in detached && detached[a].next == NULL && a != NULL
            && (forall b :: b in kept ==> b in detached && detached[b] == memory[b])
  {
  }

  lemma KeptDistinct(p: Palette, before: Memory, chain: seq<Address>, n: nat)
    requires Distinct(chain) && n <= |chain|
    ensures Distinct(Survivors(p, before, chain[..n]))
  {
    hide Survivors;
    SurvivorsFrom(p, before, chain[..n]);
  }

  lemma NotBefore(chain: seq<Address>, n: nat)
    requires Distinct(chain) && n < |chain|
    ensures chain[n] !in chain[..n] && chain[n] !in chain[n + 1..]
    ensures chain[n..] == [chain[n]] + chain[n + 1..]
    ensures forall a :: a in chain[..n] ==> a !in chain[n..]
  {
  }

  lemma SweepRest(before: Memory, memory: Memory, after: Memory, chain: seq<Address>, n: nat, kept: seq<Address>,
                  last: Address)
    requires n < |chain| && Distinct(chain) && chain[n] in memory
    requires after == Appended(Detached(memory, chain[n]), last, chain[n])
    requires (last == NULL || last in kept) && NULL !in memory
    requires forall a :: a in kept ==> a in chain[..n] && a in memory
    requires forall i :: n <= i < |chain| ==>
               chain[i] in before && chain[i] in memory && memory[chain[i]] == before[chain[i]]
    requires forall a :: a in memory ==> a in before && SameButNext(before[a], memory[a])
    ensures forall i :: n + 1 <= i < |chain| ==> chain[i] in after && after[chain[i]] == before[chain[i]]
    ensures forall a :: a in after <==> a in memory
    ensures forall a :: a in after ==> a in before && SameButNext(before[a], after[a])
  {
    NotBefore(chain, n);
    forall i | n + 1 <= i < |chain| ensures chain[i] in after && after[chain[i]] == before[chain[i]] {
      assert chain[i] in chain[n..];
      assert chain[i] != chain[n] && chain[i] != last;
    }
  }

  lemma FreeRest(before: Memory, memory: Memory, chain: seq<Address>, n: nat)
    requires n < |chain| && Distinct(chain) && chain[n] in memory
    requires forall i :: n <= i < |chain| ==>
               chain[i] in before && chain[i] in memory && memory[chain[i]] == before[chain[i]]
    requires forall a :: a in memory ==> a in before && SameButNext(before[a], memory[a])
    ensures var after := Detached(memory, chain[n]) - {chain[n]};
            && (forall i :: n + 1 <= i < |chain| ==> chain[i] in after && after[chain[i]] == before[chain[i]])
            && (forall a :: a in after <==> a in memory && a != chain[n])
            && (forall a :: a in after ==> after[a] == memory[a] && a in before && SameButNext(before[a], after[a]))
  {
    hide SameButNext;
  }

  lemma SweepFree(p: Palette, before: Memory, memory: Memory, first: Address, last: Address, chain: seq<Address>,
                  n: nat)
    requires Sweeping(p, before, memory, first, last, chain, n) && n < |chain| && Distinct(chain)
    requires before[chain[n]].color != p.black
    ensures Sweeping(p, before, Detached(memory, chain[n]) - {chain[n]}, first, last, chain, n + 1)
  {
    hide Linked, Survivors, SameButNext, Detached, Distinct;
    var a, kept := chain[n], Survivors(p, before, chain[..n]);
    SurvivorsFrom(p, before, chain[..n]);
    SurvivorsNext(p, before, chain, n);
    NotBefore(chain, n);
    assert kept + [] == kept;
    FreeRest(before, memory, chain, n);
    assert forall a :: a in kept || a in chain[n + 1..] <==> (a in kept || a in chain[n..]) && a != chain[n] by {
      assert chain[n..] == [chain[n]] + chain[n + 1..];
      assert chain[n] !in chain[n + 1..];
    }
    LinkedElsewhere(memory, Detached(memory, a) - {a}, first, last, kept);
  }
}
