/** Objects on the collected heap: cells linked in allocation order, and reachability along strong edges. */
module ObjectMemory {

  type Address = nat          // zero is the null pointer

  const NULL: Address := 0

  datatype Tuple = Null | Tombstone | Immediate(bits: nat) | Pointer(address: Address)

  datatype Kind = Pointers | WeakPointers | Bytes

  /** The allocator's header and the object behind it. */
  datatype Cell = Cell(
    next: Address,
    size: nat,
    color: nat,
    kind: Kind,
    typePointer: Tuple,
    slots: seq<Tuple>,
    instanceSlotCount: nat)        // of a type: how many slots its instances declare

  type Memory = map<Address, Cell>

  /** How many slots of a cell marking reads, whether it has so many or not. */
  function SlotsRead(memory: Memory, c: Cell): nat {
    match c.kind
    case Bytes => 0
    case Pointers => |c.slots|
    case WeakPointers =>
      if c.typePointer.Pointer? && c.typePointer.address in memory
      then memory[c.typePointer.address].instanceSlotCount else 0
  }

  /** How many slots of a cell keep their referents alive. */
  function StrongCount(memory: Memory, c: Cell): (count: nat)
    ensures count <= |c.slots|
  {
    if SlotsRead(memory, c) <= |c.slots| then SlotsRead(memory, c) else 0
  }

  /** The type and the strong slots of a cell. */
  function StrongTuples(memory: Memory, c: Cell): seq<Tuple> {
    [c.typePointer] + c.slots[..StrongCount(memory, c)]
  }

  /** The slots that keep their referents alive: all of an ordinary object, the declared ones of a weak one. */
  predicate StrongSlot(memory: Memory, c: Cell, i: nat) {
    match c.kind
    case Bytes => false
    case Pointers => i < |c.slots|
    case WeakPointers =>
      c.typePointer.Pointer? && c.typePointer.address in memory
      && i < memory[c.typePointer.address].instanceSlotCount
  }

  ghost predicate Edge(memory: Memory, a: Address, b: Address) {
    a in memory && Pointer(b) in StrongTuples(memory, memory[a])
  }

  ghost predicate IsPath(memory: Memory, path: seq<Address>) {
    && |path| > 0
    && (forall i :: 0 <= i < |path| ==> path[i] in memory)
    && (forall i :: 0 <= i < |path| - 1 ==> Edge(memory, path[i], path[i + 1]))
  }

  ghost predicate IsPathTo(memory: Memory, roots: seq<Tuple>, path: seq<Address>, a: Address) {
    IsPath(memory, path) && Pointer(path[0]) in roots && path[|path| - 1] == a
  }

  /** Some chain of strong edges leads from a root to the cell. */
  ghost predicate Reachable(memory: Memory, roots: seq<Tuple>, a: Address) {
    exists path :: IsPathTo(memory, roots, path, a)
  }

  lemma RootReachable(memory: Memory, roots: seq<Tuple>, a: Address)
    requires Pointer(a) in roots && a in memory
    ensures Reachable(memory, roots, a)
  {
    assert IsPathTo(memory, roots, [a], a);
  }

  lemma EdgeReachable(memory: Memory, roots: seq<Tuple>, a: Address, b: Address)
    requires Reachable(memory, roots, a) && Edge(memory, a, b) && b in memory
    ensures Reachable(memory, roots, b)
  {
    hide Edge;
    var path :| IsPathTo(memory, roots, path, a);
    assert IsPathTo(memory, roots, path + [b], b);
  }

  /** A set that contains the roots and is closed under strong edges contains everything reachable. */
  lemma {:induction false} ClosedCoversPath(memory: Memory, roots: seq<Tuple>, path: seq<Address>, closed: set<Address>)
    requires IsPath(memory, path) && Pointer(path[0]) in roots
    requires forall a :: Pointer(a) in roots ==> a in closed
    requires forall a, b :: a in closed && Edge(memory, a, b) ==> b in closed
    ensures path[|path| - 1] in closed
    decreases |path|
  {
    hide Edge;
    if |path| > 1 {
      var shorter := path[..|path| - 1];
      ClosedCoversPath(memory, roots, shorter, closed);
      assert Edge(memory, path[|path| - 2], path[|path| - 1]);
    }
  }

  /** Pointers lead to allocated cells. */
  ghost predicate Sound(memory: Memory, t: Tuple) {
    t.Pointer? ==> t.address in memory
  }

  ghost predicate AllSound(memory: Memory, ts: seq<Tuple>) {
    forall i :: 0 <= i < |ts| ==> Sound(memory, ts[i])
  }

  /** No slot and no type pointer of any cell dangles. */
  ghost predicate NoDangling(memory: Memory) {
    forall a :: a in memory ==> Sound(memory, memory[a].typePointer) && AllSound(memory, memory[a].slots)
  }

  predicate DeclaresFewSlots(memory: Memory, c: Cell) {
    c.typePointer.Pointer? && c.typePointer.address in memory ==>
      memory[c.typePointer.address].instanceSlotCount <= |c.slots|
  }

  /** Every weak instance of the type has at least n slots. */
  predicate InstancesHave(memory: Memory, a: Address, n: nat) {
    forall b :: b in memory && memory[b].kind.WeakPointers? && memory[b].typePointer == Pointer(a) ==>
        n <= |memory[b].slots|
  }

  /** Only the allocator's header and the colour may differ. */
  predicate SameContent(c: Cell, d: Cell) {
    c.kind == d.kind && c.typePointer == d.typePointer && c.slots == d.slots
      && c.instanceSlotCount == d.instanceSlotCount
  }

  /** Byte objects have no slots, and weak objects have at least those that their type declares. */
  ghost predicate ShapesFit(memory: Memory) {
    forall a :: a in memory ==>
      && (memory[a].kind.Bytes? ==> memory[a].slots == [])
      && (memory[a].kind.WeakPointers? ==> DeclaresFewSlots(memory, memory[a]))
  }

  /** In a memory whose shapes fit, the first slots up to the count are the strong ones. */
  lemma StrongSlotsCounted(memory: Memory, a: Address)
    requires ShapesFit(memory) && a in memory
    ensures forall i: nat :: StrongSlot(memory, memory[a], i) <==> i < StrongCount(memory, memory[a])
  {
  }

  /** Strong edges lead from an object to its type and to what is in its strong slots, and nowhere else. */
  lemma EdgeIff(memory: Memory, a: Address, b: Address)
    requires ShapesFit(memory) && a in memory
    ensures Edge(memory, a, b)
            <==> memory[a].typePointer == Pointer(b)
                 || exists i :: 0 <= i < |memory[a].slots| && StrongSlot(memory, memory[a], i)
                                && memory[a].slots[i] == Pointer(b)
  {
    var c, tuples := memory[a], StrongTuples(memory, memory[a]);
    StrongSlotsCounted(memory, a);
    hide ShapesFit, StrongSlot, StrongCount;
    assert tuples[0] == c.typePointer;
    if Edge(memory, a, b) {
      var j :| 0 <= j < |tuples| && tuples[j] == Pointer(b);
      if j > 0 { assert StrongSlot(memory, c, j - 1) && c.slots[j - 1] == Pointer(b); }
    }
    if i :| 0 <= i < |c.slots| && StrongSlot(memory, c, i) && c.slots[i] == Pointer(b) {
      assert tuples[1 + i] == Pointer(b);
    }
  }

  /** The set contains the roots, and with each object its type and what is in its strong slots. */
  ghost predicate ClosedUnderSlots(memory: Memory, roots: seq<Tuple>, closed: set<Address>) {
    && (forall a :: Pointer(a) in roots ==> a in closed)
    && (forall a, b :: a in closed && a in memory && memory[a].typePointer == Pointer(b) ==> b in closed)
    && (forall a, i ::
          a in closed && a in memory && 0 <= i < |memory[a].slots| && StrongSlot(memory, memory[a], i) ==>
            memory[a].slots[i].Pointer? ==> memory[a].slots[i].address in closed)
  }

  /** What is reachable is the least such set. */
  lemma ReachableIff(memory: Memory, roots: seq<Tuple>, x: Address)
    requires NoDangling(memory) && ShapesFit(memory) && AllSound(memory, roots)
    ensures Reachable(memory, roots, x)
            <==> forall closed: set<Address> :: ClosedUnderSlots(memory, roots, closed) ==> x in closed
  {
    hide StrongSlot, ShapesFit, Edge;
    if Reachable(memory, roots, x) {
      var path :| IsPathTo(memory, roots, path, x);
      forall closed: set<Address> | ClosedUnderSlots(memory, roots, closed) ensures x in closed {
        forall a, b | a in closed && Edge(memory, a, b) ensures b in closed {
          assert a in memory by { EdgeStarts(memory, a, b); }
          EdgeIff(memory, a, b);
        }
        ClosedCoversPath(memory, roots, path, closed);
      }
    }
    var all := set a | a in memory && Reachable(memory, roots, a);
    assert ClosedUnderSlots(memory, roots, all) by {
      hide Reachable;
      forall a | Pointer(a) in roots ensures a in all {
        var i :| 0 <= i < |roots| && roots[i] == Pointer(a);
        assert Sound(memory, roots[i]);
        RootReachable(memory, roots, a);
      }
      forall a, b | a in all && memory[a].typePointer == Pointer(b) ensures b in all {
        EdgeIff(memory, a, b);
        assert Sound(memory, memory[a].typePointer);
        EdgeReachable(memory, roots, a, b);
      }
      forall a, i | a in all && 0 <= i < |memory[a].slots| && StrongSlot(memory, memory[a], i)
                    && memory[a].slots[i].Pointer?
        ensures memory[a].slots[i].address in all
      {
        var b := memory[a].slots[i].address;
        EdgeIff(memory, a, b);
        assert AllSound(memory, memory[a].slots) && Sound(memory, memory[a].slots[i]);
        EdgeReachable(memory, roots, a, b);
      }
    }
  }

  lemma EdgeStarts(memory: Memory, a: Address, b: Address)
    requires Edge(memory, a, b)
    ensures a in memory
  {
  }

  // The allocation list.

  ghost predicate Distinct(chain: seq<Address>) {
    forall i, j :: 0 <= i < j < |chain| ==> chain[i] != chain[j]
  }

  /** The cells of a chain are linked in order, and the last one ends the list. */
  ghost predicate Linked(memory: Memory, first: Address, last: Address, chain: seq<Address>) {
    && (forall i :: 0 <= i < |chain| ==> chain[i] in memory && chain[i] != NULL)
    && first == (if chain == [] then NULL else chain[0])
    && last == (if chain == [] then NULL else chain[|chain| - 1])
    && (forall i :: 0 <= i < |chain| ==> memory[chain[i]].next == if i + 1 < |chain| then chain[i + 1] else NULL)
  }

  /** The chain holds every allocated cell exactly once. */
  ghost predicate Listed(memory: Memory, first: Address, last: Address, chain: seq<Address>) {
    && Distinct(chain) && Linked(memory, first, last, chain)
    && (forall a :: a in memory <==> a in chain)
  }

  function SumSizes(memory: Memory, chain: seq<Address>): nat
    requires forall i :: 0 <= i < |chain| ==> chain[i] in memory
  {
    if chain == [] then 0 else SumSizes(memory, chain[..|chain| - 1]) + memory[chain[|chain| - 1]].size
  }

  lemma {:induction false} SumAgrees(m: Memory, n: Memory, chain: seq<Address>)
    requires forall i :: 0 <= i < |chain| ==> chain[i] in m && chain[i] in n && m[chain[i]].size == n[chain[i]].size
    ensures SumSizes(m, chain) == SumSizes(n, chain)
  {
    if chain != [] { SumAgrees(m, n, chain[..|chain| - 1]); }
  }

  lemma LinkedAlike(m: Memory, n: Memory, first: Address, last: Address, chain: seq<Address>)
    requires Linked(m, first, last, chain)
    requires forall i :: 0 <= i < |chain| ==> chain[i] in n && n[chain[i]].next == m[chain[i]].next
    ensures Linked(n, first, last, chain)
  {
  }

  /** The same links and sizes make the same list. */
  lemma ListedAlike(m: Memory, n: Memory, first: Address, last: Address, chain: seq<Address>)
    requires Listed(m, first, last, chain) && n.Keys == m.Keys
    requires forall a :: a in m ==> n[a].next == m[a].next && n[a].size == m[a].size
    ensures Listed(n, first, last, chain) && SumSizes(n, chain) == SumSizes(m, chain)
  {
    hide SumSizes, Distinct;
    LinkedAlike(m, n, first, last, chain);
    SumAgrees(n, m, chain);
  }

  // Colours.

  datatype Palette = Palette(white: nat, gray: nat, black: nat)

  predicate ValidPalette(p: Palette) {
    p.white != p.gray && p.gray != p.black && p.white != p.black
  }

  /** The memories differ in colours only. */
  ghost predicate SameButColors(m: Memory, n: Memory) {
    m.Keys == n.Keys && forall a :: a in m ==> n[a] == m[a].(color := n[a].color)
  }
}
