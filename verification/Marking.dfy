/** The marking phase on memory and marking stack. */
module Marking {
  import opened ObjectMemory

  datatype Marks = Marks(memory: Memory, stack: seq<Address>)

  /** Greys and pushes a white object. */
  function MarkPointer(p: Palette, s: Marks, t: Tuple): Marks {
    if t.Pointer? && t.address in s.memory && s.memory[t.address].color == p.white
    then Marks(s.memory[t.address := s.memory[t.address].(color := p.gray)], s.stack + [t.address])
    else s
  }

  function MarkAll(p: Palette, s: Marks, ts: seq<Tuple>): Marks {
    if ts == [] then s else MarkPointer(p, MarkAll(p, s, ts[..|ts| - 1]), ts[|ts| - 1])
  }

  /** Marks what an object refers to strongly, and blackens the object. */
  function MarkContent(p: Palette, s: Marks, a: Address): Marks
    requires a in s.memory
  {
    var after := MarkAll(p, s, StrongTuples(s.memory, s.memory[a]));
    if a in after.memory then after.(memory := after.memory[a := after.memory[a].(color := p.black)]) else after
  }

  ghost predicate Marked(p: Palette, memory: Memory, t: Tuple) {
    t.Pointer? && t.address in memory ==> memory[t.address].color != p.white
  }

  /** Everything a black object refers to strongly is grey or black. */
  ghost predicate NoBlackToWhite(p: Palette, memory: Memory) {
    forall a, b :: a in memory && memory[a].color == p.black && Edge(memory, a, b) && b in memory ==>
        memory[b].color != p.white
  }

  /** Grey objects are those on the stack, once each, and those being traversed. */
  ghost predicate GraysPending(p: Palette, s: Marks, open: set<Address>) {
    && Distinct(s.stack)
    && (forall a :: a in s.stack ==> a in s.memory && a !in open)
    && (forall a :: a in s.memory ==> (s.memory[a].color == p.gray <==> a in s.stack || a in open))
  }

  ghost predicate OnlyReachableMarked(p: Palette, memory: Memory, roots: seq<Tuple>) {
    forall a :: a in memory && memory[a].color != p.white ==> Reachable(memory, roots, a)
  }

  ghost predicate ThreeColors(p: Palette, memory: Memory) {
    forall a :: a in memory ==> memory[a].color == p.white || memory[a].color == p.gray || memory[a].color == p.black
  }

  /** The invariant of marking; `before` is the memory in front of the cycle. */
  ghost predicate Tricolor(p: Palette, before: Memory, s: Marks, roots: seq<Tuple>, open: set<Address>) {
    && ValidPalette(p) && SameButColors(before, s.memory) && NoDangling(before)
    && ThreeColors(p, s.memory) && NoBlackToWhite(p, s.memory)
    && GraysPending(p, s, open)
    && OnlyReachableMarked(p, s.memory, roots)
  }

  function Whites(p: Palette, memory: Memory): set<Address> {
    set a | a in memory && memory[a].color == p.white
  }

  lemma EdgeSame(m: Memory, n: Memory)
    requires SameButColors(m, n)
    ensures forall a, b :: Edge(m, a, b) <==> Edge(n, a, b)
  {
    forall a | a in m ensures StrongTuples(m, m[a]) == StrongTuples(n, n[a]) {}
  }

  lemma ReachableSame(m: Memory, n: Memory, roots: seq<Tuple>, a: Address)
    requires SameButColors(m, n) && Reachable(m, roots, a)
    ensures Reachable(n, roots, a)
  {
    EdgeSame(m, n);
    hide Edge;
    var path :| IsPathTo(m, roots, path, a);
    assert IsPathTo(n, roots, path, a);
  }

  function Grayed(p: Palette, memory: Memory, a: Address): Memory
    requires a in memory
  {
    memory[a := memory[a].(color := p.gray)]
  }

  lemma GrayedReachable(p: Palette, memory: Memory, roots: seq<Tuple>, a: Address)
    requires OnlyReachableMarked(p, memory, roots) && a in memory && Reachable(memory, roots, a)
    ensures OnlyReachableMarked(p, Grayed(p, memory, a), roots)
  {
    hide Reachable;
    var after := Grayed(p, memory, a);
    assert SameButColors(memory, after);
    forall b | b in after && after[b].color != p.white ensures Reachable(after, roots, b) {
      ReachableSame(memory, after, roots, b);
    }
  }

  /** Marking a reachable pointer keeps the invariant, and no object is greyed twice. */
  lemma MarkPointerKeeps(p: Palette, before: Memory, s: Marks, roots: seq<Tuple>, open: set<Address>, t: Tuple)
    requires Tricolor(p, before, s, roots, open)
    requires t.Pointer? ==> t.address in s.memory && Reachable(s.memory, roots, t.address)
    ensures var after := MarkPointer(p, s, t);
            && Tricolor(p, before, after, roots, open) && Marked(p, after.memory, t)
            && SameButColors(s.memory, after.memory)
            && (forall u :: Marked(p, s.memory, u) ==> Marked(p, after.memory, u))
            && Whites(p, after.memory) <= Whites(p, s.memory)
            && |after.stack| + |Whites(p, after.memory)| == |s.stack| + |Whites(p, s.memory)|
  {
    hide NoDangling, OnlyReachableMarked, Reachable;
    if t.Pointer? && s.memory[t.address].color == p.white {
      var a := t.address;
      assert SameButColors(before, Grayed(p, s.memory, a)) && SameButColors(s.memory, Grayed(p, s.memory, a))
             && ThreeColors(p, Grayed(p, s.memory, a)) && NoBlackToWhite(p, Grayed(p, s.memory, a)) by {
        EdgeSame(s.memory, Grayed(p, s.memory, a));
      }
      GrayedReachable(p, s.memory, roots, a);
      assert GraysPending(p, Marks(Grayed(p, s.memory, a), s.stack + [a]), open);
      assert Whites(p, Grayed(p, s.memory, a)) == Whites(p, s.memory) - {a} && a in Whites(p, s.memory);
    } else {
      assert SameButColors(s.memory, s.memory);
    }
  }

  lemma {:induction false} MarkAllKeeps(p: Palette, before: Memory, s: Marks, roots: seq<Tuple>, open: set<Address>,
                                        ts: seq<Tuple>)
    requires Tricolor(p, before, s, roots, open)
    requires forall i :: 0 <= i < |ts| && ts[i].Pointer? ==>
               ts[i].address in s.memory && Reachable(s.memory, roots, ts[i].address)
    ensures var after := MarkAll(p, s, ts);
            && Tricolor(p, before, after, roots, open)
            && (forall i :: 0 <= i < |ts| ==> Marked(p, after.memory, ts[i]))
            && SameButColors(s.memory, after.memory)
            && |after.stack| + |Whites(p, after.memory)| == |s.stack| + |Whites(p, s.memory)|
            && |Whites(p, after.memory)| <= |Whites(p, s.memory)|
    decreases |ts|
  {
    hide Tricolor, Reachable, Whites, Marked;
    if ts != [] {
      var last := ts[|ts| - 1];
      MarkAllKeeps(p, before, s, roots, open, ts[..|ts| - 1]);
      var middle := MarkAll(p, s, ts[..|ts| - 1]);
      if last.Pointer? { ReachableSame(s.memory, middle.memory, roots, last.address); }
      MarkPointerKeeps(p, before, middle, roots, open, last);
      var after := MarkAll(p, s, ts);
      SubsetSize(Whites(p, after.memory), Whites(p, middle.memory));
    }
  }

  lemma SubsetSize<T>(a: set<T>, b: set<T>)
    requires a <= b
    ensures |a| <= |b|
  {
    assert b == a + (b - a);
  }

  lemma PopKeeps(p: Palette, before: Memory, s: Marks, roots: seq<Tuple>)
    requires Tricolor(p, before, s, roots, {}) && |s.stack| > 0
    ensures var a := s.stack[|s.stack| - 1];
            && a in s.memory && s.memory[a].color == p.gray
            && Tricolor(p, before, Marks(s.memory, s.stack[..|s.stack| - 1]), roots, {a})
  {
    hide SameButColors, NoDangling, ThreeColors, NoBlackToWhite, OnlyReachableMarked;
    var last := |s.stack| - 1;
    forall a | a in s.memory ensures a in s.stack[..last] || a == s.stack[last] <==> a in s.stack {
      if a in s.stack {
        var i :| 0 <= i < |s.stack| && s.stack[i] == a;
        assert i < last ==> s.stack[..last][i] == a;
      }
    }
  }

  /** What an object refers to strongly is reachable when the object is. */
  lemma TuplesReachable(p: Palette, before: Memory, s: Marks, roots: seq<Tuple>, open: set<Address>, a: Address)
    requires Tricolor(p, before, s, roots, open) && a in s.memory && s.memory[a].color != p.white
    ensures var ts := StrongTuples(s.memory, s.memory[a]);
            forall i :: 0 <= i < |ts| && ts[i].Pointer? ==>
                ts[i].address in s.memory && Reachable(s.memory, roots, ts[i].address)
  {
    hide Reachable, GraysPending, ThreeColors, NoBlackToWhite, StrongCount;
    var ts := StrongTuples(s.memory, s.memory[a]);
    forall i | 0 <= i < |ts| && ts[i].Pointer? ensures ts[i].address in s.memory
      && Reachable(s.memory, roots, ts[i].address) {
      assert ts[i] in ts;
      assert Edge(s.memory, a, ts[i].address);
      assert Sound(s.memory, StrongTuples(s.memory, s.memory[a])[i]) by {
        var c := s.memory[a];
        assert AllSound(before, before[a].slots) && c.slots == before[a].slots;
        if i > 0 { assert StrongTuples(s.memory, c)[i] == c.slots[i - 1]; }
      }
      EdgeReachable(s.memory, roots, a, ts[i].address);
    }
  }

  function Blackened(p: Palette, memory: Memory, a: Address): Memory
    requires a in memory
  {
    memory[a := memory[a].(color := p.black)]
  }

  lemma BlackenKeeps(p: Palette, before: Memory, s: Marks, roots: seq<Tuple>, a: Address)
    requires Tricolor(p, before, s, roots, {a}) && a in s.memory
    requires forall i :: 0 <= i < |StrongTuples(s.memory, s.memory[a])| ==>
               Marked(p, s.memory, StrongTuples(s.memory, s.memory[a])[i])
    ensures Tricolor(p, before, Marks(Blackened(p, s.memory, a), s.stack), roots, {})
    ensures Whites(p, Blackened(p, s.memory, a)) == Whites(p, s.memory)
  {
    hide Reachable, StrongTuples, NoDangling;
    var after := Blackened(p, s.memory, a);
    EdgeSame(s.memory, after);
    EdgesMarked(p, s.memory, a);
    hide Edge;
    forall b | b in after && after[b].color != p.white ensures Reachable(after, roots, b) {
      ReachableSame(s.memory, after, roots, b);
    }
  }

  lemma EdgesMarked(p: Palette, memory: Memory, a: Address)
    requires a in memory
    requires forall i :: 0 <= i < |StrongTuples(memory, memory[a])| ==>
               Marked(p, memory, StrongTuples(memory, memory[a])[i])
    ensures forall b :: Edge(memory, a, b) && b in memory ==> memory[b].color != p.white
  {
    hide StrongTuples;
    forall b | Edge(memory, a, b) && b in memory ensures memory[b].color != p.white {
      var i :| 0 <= i < |StrongTuples(memory, memory[a])| && StrongTuples(memory, memory[a])[i] == Pointer(b);
      assert Marked(p, memory, Pointer(b));
    }
  }

  /** Traversing an object that was popped keeps the invariant; no work is added. */
  lemma MarkContentKeeps(p: Palette, before: Memory, s: Marks, roots: seq<Tuple>, a: Address)
    requires Tricolor(p, before, s, roots, {a}) && a in s.memory && s.memory[a].color == p.gray
    ensures var after := MarkContent(p, s, a);
            && Tricolor(p, before, after, roots, {})
            && |after.stack| + |Whites(p, after.memory)| == |s.stack| + |Whites(p, s.memory)|
            && (forall t: Tuple :: Marked(p, s.memory, t) ==> Marked(p, after.memory, t))
  {
    hide Reachable, Whites, NoDangling, ThreeColors, NoBlackToWhite, OnlyReachableMarked, GraysPending;
    TuplesReachable(p, before, s, roots, {a}, a);
    var ts := StrongTuples(s.memory, s.memory[a]);
    MarkAllKeeps(p, before, s, roots, {a}, ts);
    MarkAllMonotone(p, s, ts);
    var middle := MarkAll(p, s, ts);
    assert StrongTuples(s.memory, s.memory[a]) == StrongTuples(middle.memory, middle.memory[a]);
    BlackenKeeps(p, before, middle, roots, a);
  }

  /** Marking never makes an object white again. */
  lemma {:induction false} MarkAllMonotone(p: Palette, s: Marks, ts: seq<Tuple>)
    requires ValidPalette(p)
    ensures forall t: Tuple :: Marked(p, s.memory, t) ==> Marked(p, MarkAll(p, s, ts).memory, t)
    ensures MarkAll(p, s, ts).memory.Keys == s.memory.Keys
  {
    if ts != [] { MarkAllMonotone(p, s, ts[..|ts| - 1]); }
  }

  function Blacks(p: Palette, memory: Memory): set<Address> {
    set a | a in memory && memory[a].color == p.black
  }

  lemma BlacksClosed(p: Palette, before: Memory, s: Marks, roots: seq<Tuple>, a: Address, b: Address)
    requires Tricolor(p, before, s, roots, {}) && s.stack == []
    requires a in Blacks(p, s.memory) && Edge(s.memory, a, b)
    ensures b in Blacks(p, s.memory)
  {
    hide OnlyReachableMarked;
    assert b in s.memory by {
      var ts := StrongTuples(s.memory, s.memory[a]);
      var i :| 0 <= i < |ts| && ts[i] == Pointer(b);
      assert Sound(s.memory, StrongTuples(s.memory, s.memory[a])[i]) by {
        var c := s.memory[a];
        assert AllSound(before, before[a].slots) && c.slots == before[a].slots;
        if i > 0 { assert StrongTuples(s.memory, c)[i] == c.slots[i - 1]; }
      }
    }
  }

  lemma RootsBlack(p: Palette, before: Memory, s: Marks, roots: seq<Tuple>, a: Address)
    requires Tricolor(p, before, s, roots, {}) && s.stack == []
    requires forall i :: 0 <= i < |roots| ==> Sound(before, roots[i]) && Marked(p, s.memory, roots[i])
    requires Pointer(a) in roots
    ensures a in Blacks(p, s.memory)
  {
    hide NoBlackToWhite, OnlyReachableMarked;
    var i :| 0 <= i < |roots| && roots[i] == Pointer(a);
    assert Sound(before, roots[i]) && Marked(p, s.memory, roots[i]);
  }

  /** With an empty stack and marked roots, the black objects are exactly the reachable ones. */
  lemma MarkingExact(p: Palette, before: Memory, s: Marks, roots: seq<Tuple>, a: Address)
    requires Tricolor(p, before, s, roots, {}) && s.stack == [] && a in s.memory
    requires forall i :: 0 <= i < |roots| ==> Sound(before, roots[i]) && Marked(p, s.memory, roots[i])
    ensures s.memory[a].color == p.black <==> Reachable(before, roots, a)
    ensures s.memory[a].color == p.black || s.memory[a].color == p.white
  {
    hide Edge, NoBlackToWhite, NoDangling, SameButColors, IsPath;
    if s.memory[a].color == p.black { ReachableSame(s.memory, before, roots, a) by { SameBack(before, s.memory); } }
    if Reachable(before, roots, a) {
      ReachableSame(before, s.memory, roots, a);
      var path :| IsPathTo(s.memory, roots, path, a);
      forall x | Pointer(x) in roots ensures x in Blacks(p, s.memory) { RootsBlack(p, before, s, roots, x); }
      forall x, y | x in Blacks(p, s.memory) && Edge(s.memory, x, y) ensures y in Blacks(p, s.memory) {
        BlacksClosed(p, before, s, roots, x, y);
      }
      ClosedCoversPath(s.memory, roots, path, Blacks(p, s.memory));
    }
  }

  lemma SameBack(m: Memory, n: Memory)
    requires SameButColors(m, n)
    ensures SameButColors(n, m)
  {
  }

  // Declared slots that a weak object does not have.

  /** A cycle traverses the reachable objects; all slots that it reads are there. */
  ghost predicate ReadsExistingSlots(memory: Memory, roots: seq<Tuple>) {
    forall a :: a in memory && Reachable(memory, roots, a) ==> SlotsRead(memory, memory[a]) <= |memory[a].slots|
  }

  /** That is so just when every weak object that a cycle reaches has the slots that its type declares. */
  lemma ReadsExistingIff(memory: Memory, roots: seq<Tuple>)
    ensures ReadsExistingSlots(memory, roots) <==>
            (forall a :: a in memory && Reachable(memory, roots, a) && memory[a].kind.WeakPointers? ==>
               DeclaresFewSlots(memory, memory[a]))
  {
    hide Reachable;
    forall a | a in memory ensures SlotsRead(memory, memory[a]) <= |memory[a].slots|
                                   <==> (memory[a].kind.WeakPointers? ==> DeclaresFewSlots(memory, memory[a])) {}
  }

  /** A type that declares a slot, and a weak instance without one. */
  function Overdeclared(): Memory {
    map[1 := Cell(2, 0, 0, Pointers, Null, [], 1), 2 := Cell(NULL, 0, 0, WeakPointers, Pointer(1), [], 0)]
  }

  lemma OverdeclaredIsRead()
    ensures NoDangling(Overdeclared()) && !ReadsExistingSlots(Overdeclared(), [Pointer(2)])
  {
    assert IsPathTo(Overdeclared(), [Pointer(2)], [2], 2);
  }
}
