/** Collections are invisible: every run is one of a memory that is never collected, up to names and dead weak slots. */
module Transparency {
  import opened ObjectMemory
  import opened Sweeping
  import opened MutatorRuns

  /** A memory that only grows, and its roots. */
  datatype Reference = Reference(memory: Memory, roots: seq<Tuple>)

  /** Where the objects of the collected heap are in the one that is never collected. */
  type Renaming = map<Address, Address>

  function At(r: Renaming, a: Address): Address {
    if a in r then r[a] else a
  }

  function RenamedTuple(r: Renaming, t: Tuple): Tuple {
    if t.Pointer? then Pointer(At(r, t.address)) else t
  }

  function RenamedTuples(r: Renaming, ts: seq<Tuple>): (rs: seq<Tuple>)
    ensures |rs| == |ts| && forall i :: 0 <= i < |ts| ==> rs[i] == RenamedTuple(r, ts[i])
  {
    seq(|ts|, i requires 0 <= i < |ts| => RenamedTuple(r, ts[i]))
  }

  /** The same step of the mutator; new objects get the address `name`. */
  function RenamedStep(r: Renaming, step: Step, name: Address): Step {
    match step
    case AllocateBytes(n, _) => AllocateBytes(n, name)
    case AllocatePointers(n, _) => AllocatePointers(n, name)
    case Copy(o, n, _) => Copy(At(r, o), n, name)
    case Write(o, i, t) => Write(At(r, o), i, RenamedTuple(r, t))
    case SetType(o, t) => SetType(At(r, o), RenamedTuple(r, t))
    case MarkWeak(o) => MarkWeak(At(r, o))
    case DeclareSlots(o, n) => DeclareSlots(At(r, o), n)
    case ChangeRoots(ts) => ChangeRoots(RenamedTuples(r, ts))
    case _ => step
  }

  function KeysAfter(s: Reference, step: Step): set<Address> {
    s.memory.Keys + set a | a in Allocated(step)
  }

  /** What a step does to a memory that is never collected. */
  function ReferenceStep(s: Reference, step: Step): Reference
    requires Addressed(s.memory, step)
  {
    Reference(map a | a in KeysAfter(s, step) :: Changed(s.memory, step, a), RootsAfter(step, s.roots))
  }

  // The relation.

  /** A weak slot that a collection has buried; nothing of the collected heap is what it led to. */
  ghost predicate Lost(r: Renaming, kind: Kind, t: Tuple, t2: Tuple, addresses: set<Address>) {
    t == Tombstone && kind.WeakPointers? && t2.Pointer? && t2.address in addresses && t2.address !in r.Values
  }

  ghost predicate SlotsAlike(r: Renaming, c: Cell, d: Cell, addresses: set<Address>) {
    && |d.slots| == |c.slots|
    && forall i :: 0 <= i < |c.slots| ==>
         d.slots[i] == RenamedTuple(r, c.slots[i]) || Lost(r, c.kind, c.slots[i], d.slots[i], addresses)
  }

  /** The same object, up to addresses and lost slots. */
  ghost predicate CellsAlike(r: Renaming, c: Cell, d: Cell, addresses: set<Address>) {
    && d.kind == c.kind && d.instanceSlotCount == c.instanceSlotCount && d.typePointer == RenamedTuple(r, c.typePointer)
    && SlotsAlike(r, c, d, addresses)
  }

  ghost predicate Injective(r: Renaming) {
    forall a, b :: a in r && b in r && r[a] == r[b] ==> a == b
  }

  /** Every object of the collected heap is in the other one. */
  ghost predicate Corresponds(r: Renaming, s: State, s2: Reference) {
    && r.Keys == s.memory.Keys && Injective(r) && r.Values <= s2.memory.Keys
    && s2.roots == RenamedTuples(r, s.roots)
    && forall a :: a in s.memory ==> r[a] in s2.memory && CellsAlike(r, s.memory[a], s2.memory[r[a]], s2.memory.Keys)
  }

  // Steps of the mutator.

  /** A new object gets a new name; all others keep theirs. */
  function Extended(r: Renaming, step: Step, name: Address): Renaming {
    if Allocated(step) == [] then r else r[Allocated(step)[0] := name]
  }

  /** An object that was there before, under the names after the step. */
  lemma StillAlike(r: Renaming, s: State, s2: Reference, step: Step, name: Address, a: Address)
    requires Corresponds(r, s, s2) && SoundState(s) && Allowed(s.memory, step) && name !in s2.memory && a in s.memory
    ensures var r1 := Extended(r, step, name);
            && a in r && r1[a] == r[a] && r[a] in s2.memory && r[a] != name && a !in Allocated(step)
            && CellsAlike(r1, s.memory[a], s2.memory[r[a]], KeysAfter(s2, RenamedStep(r, step, name)))
  {
    hide ShapesFit;
    assert AllSound(s.memory, s.memory[a].slots);
    assert CellsAlike(Extended(r, step, name), s.memory[a], s2.memory[r[a]],
                      KeysAfter(s2, RenamedStep(r, step, name))) by {
      var r1 := Extended(r, step, name);
      assert RenamedTuple(Extended(r, step, name), s.memory[a].typePointer) == RenamedTuple(r, s.memory[a].typePointer);
      forall i | 0 <= i < |s.memory[a].slots|
        ensures s2.memory[r[a]].slots[i] == RenamedTuple(r1, s.memory[a].slots[i])
                || Lost(r1, s.memory[a].kind, s.memory[a].slots[i], s2.memory[r[a]].slots[i],
                        KeysAfter(s2, RenamedStep(r, step, name)))
      {
        assert Sound(s.memory, s.memory[a].slots[i]);
        assert RenamedTuple(Extended(r, step, name), s.memory[a].slots[i]) == RenamedTuple(r, s.memory[a].slots[i]);
      }
    }
  }

  lemma StepAddressed(r: Renaming, s: State, s2: Reference, step: Step, name: Address)
    requires Corresponds(r, s, s2) && Allowed(s.memory, step)
    ensures Addressed(s2.memory, RenamedStep(r, step, name))
    ensures Allocated(RenamedStep(r, step, name)) == if Allocated(step) == [] then [] else [name]
  {
    match step
    case Write(o, _, _) => assert CellsAlike(r, s.memory[o], s2.memory[r[o]], s2.memory.Keys);
    case _ =>
  }

  /** The step does to the object what the renamed step does to its counterpart. */
  lemma ChangedAlike(r: Renaming, s: State, s2: Reference, step: Step, name: Address, a: Address)
    requires Corresponds(r, s, s2) && SoundState(s) && Allowed(s.memory, step) && name !in s2.memory
    requires Addressed(s2.memory, RenamedStep(r, step, name))
    requires a in s.memory || a in Allocated(step)
    ensures var step2, r1 := RenamedStep(r, step, name), Extended(r, step, name);
            && a in r1 && (r1[a] in s2.memory || r1[a] in Allocated(step2))
            && CellsAlike(r1, Changed(s.memory, step, a), Changed(s2.memory, step2, r1[a]),
                          KeysAfter(s2, RenamedStep(r, step, name)))
  {
    if a in s.memory {
      StillAlike(r, s, s2, step, name, a);
      OldAlike(r, s, s2, step, name, a) by { hide SoundState; }
    } else if step.Copy? {
      StillAlike(r, s, s2, step, name, step.original);
    }
  }

  lemma OldAlike(r: Renaming, s: State, s2: Reference, step: Step, name: Address, a: Address)
    requires r.Keys == s.memory.Keys && Injective(r) && Allowed(s.memory, step) && name !in s2.memory
    requires Addressed(s2.memory, RenamedStep(r, step, name)) && a in s.memory && r[a] in s2.memory
             && a !in Allocated(step)
    requires CellsAlike(Extended(r, step, name), s.memory[a], s2.memory[r[a]],
                        KeysAfter(s2, RenamedStep(r, step, name)))
    ensures CellsAlike(Extended(r, step, name), Changed(s.memory, step, a),
                       Changed(s2.memory, RenamedStep(r, step, name), r[a]),
                       KeysAfter(s2, RenamedStep(r, step, name)))
  {
  }

  lemma ExtendedInjective(r: Renaming, s: State, s2: Reference, step: Step, name: Address)
    requires Corresponds(r, s, s2) && Allowed(s.memory, step) && name !in s2.memory
    ensures var r1 := Extended(r, step, name);
            && Injective(r1) && (forall a :: a in r1 <==> a in s.memory || a in Allocated(step))
            && (forall a :: a in r1 ==> r1[a] in s2.memory || (r1[a] == name && Allocated(step) != []))
  {
  }

  lemma RootsAlike(r: Renaming, s: State, s2: Reference, step: Step, name: Address)
    requires Corresponds(r, s, s2) && SoundState(s) && Allowed(s.memory, step)
    ensures RootsAfter(RenamedStep(r, step, name), s2.roots)
            == RenamedTuples(Extended(r, step, name), RootsAfter(step, s.roots))
  {
    hide NoDangling, ShapesFit;
    var r1, ts := Extended(r, step, name), RootsAfter(step, s.roots);
    forall i | 0 <= i < |ts| ensures RenamedTuple(r1, ts[i]) == RenamedTuple(r, ts[i]) {
      assert Sound(s.memory, ts[i]);
      assert RenamedTuple(Extended(r, step, name), ts[i]) == RenamedTuple(r, ts[i]);
    }
  }

  /** Steps of the mutator keep the correspondence. */
  lemma MutationAlike(r: Renaming, s: State, s2: Reference, step: Step, name: Address, s1: State)
    requires Corresponds(r, s, s2) && SoundState(s) && Allowed(s.memory, step) && name !in s2.memory
    requires Mutated(s, step, s1) && s1.roots == RootsAfter(step, s.roots)
    ensures Addressed(s2.memory, RenamedStep(r, step, name))
    ensures Corresponds(Extended(r, step, name), s1, ReferenceStep(s2, RenamedStep(r, step, name)))
  {
    StepAddressed(r, s, s2, step, name);
    ExtendedInjective(r, s, s2, step, name);
    RootsAlike(r, s, s2, step, name);
    var r1, step2 := Extended(r, step, name), RenamedStep(r, step, name);
    var next := ReferenceStep(s2, step2);
    assert next.memory.Keys == KeysAfter(s2, step2);
    forall a | a in s1.memory
      ensures r1[a] in next.memory && CellsAlike(r1, s1.memory[a], next.memory[r1[a]], next.memory.Keys)
    {
      hide SoundState, Corresponds, CellsAlike, Changed, Allowed, Addressed, RenamedStep, Extended;
      ChangedAlike(r, s, s2, step, name, a);
      assert CellsAlike(r1, s1.memory[a], next.memory[r1[a]], next.memory.Keys);
    }
  }

  /** The collection keeps the objects that it reaches; what it buries, no object of the heap is any more. */
  function Restricted(r: Renaming, memory: Memory): Renaming {
    map a | a in r && a in memory :: r[a]
  }

  lemma SlotCollected(r: Renaming, s: State, s1: State, a: Address, i: nat, t2: Tuple, addresses: set<Address>)
    requires r.Keys == s.memory.Keys && Injective(r) && r.Values <= addresses && SoundState(s) && SoundState(s1)
    requires Collected(s.memory, s.roots, s.chain, s1.memory, s1.chain) && a in s1.memory && i < |s.memory[a].slots|
    requires var t := s.memory[a].slots[i]; t2 == RenamedTuple(r, t) || Lost(r, s.memory[a].kind, t, t2, addresses)
    ensures i < |s1.memory[a].slots|
    ensures var r1, t1 := Restricted(r, s1.memory), s1.memory[a].slots[i];
            t2 == RenamedTuple(r1, t1) || Lost(r1, s1.memory[a].kind, t1, t2, addresses)
  {
    hide Reachable, LiveChain, ShapesFit;
    assert CellCollected(s.memory, s.roots, s.memory[a], s1.memory[a]);
    var t, t1 := s.memory[a].slots[i], s1.memory[a].slots[i];
    assert Sound(s.memory, t) by { assert AllSound(s.memory, s.memory[a].slots); }
    assert Sound(s1.memory, t1) by { assert AllSound(s1.memory, s1.memory[a].slots); }
    if t1 != t {
      assert t.Pointer? && !Reachable(s.memory, s.roots, t.address);
      assert t2.address == r[t.address] && t2.address in r.Values;
    }
  }

  /** A collection keeps the correspondence with a memory in which nothing happens. */
  lemma CollectionAlike(r: Renaming, s: State, s2: Reference, s1: State)
    requires Corresponds(r, s, s2) && SoundState(s) && SoundState(s1) && s1.roots == s.roots
    requires Collected(s.memory, s.roots, s.chain, s1.memory, s1.chain)
    ensures Corresponds(Restricted(r, s1.memory), s1, s2)
  {
    hide Reachable, LiveChain, ShapesFit;
    var r1, addresses := Restricted(r, s1.memory), s2.memory.Keys;
    assert forall a :: a in s1.memory ==> a in s.memory;
    forall a | a in s1.memory ensures r1[a] in s2.memory && CellsAlike(r1, s1.memory[a], s2.memory[r1[a]], addresses) {
      assert CellCollected(s.memory, s.roots, s.memory[a], s1.memory[a]);
      assert CellsAlike(r, s.memory[a], s2.memory[r[a]], addresses);
      assert Sound(s1.memory, s1.memory[a].typePointer);
      forall i | 0 <= i < |s1.memory[a].slots|
        ensures var t1, t2 := s1.memory[a].slots[i], s2.memory[r[a]].slots[i];
                t2 == RenamedTuple(r1, t1) || Lost(r1, s1.memory[a].kind, t1, t2, addresses)
      {
        SlotCollected(r, s, s1, a, i, s2.memory[r[a]].slots[i], addresses);
      }
    }
    forall i | 0 <= i < |s1.roots| ensures RenamedTuple(r1, s1.roots[i]) == RenamedTuple(r, s1.roots[i]) {
      assert Sound(s1.memory, s1.roots[i]);
    }
    assert RenamedTuples(r1, s1.roots) == RenamedTuples(r, s1.roots);
  }

  // Runs.

  /** The uncollected memory makes the renamed step; a new object is named after the number of the step. */
  ghost predicate Mirrors(s: State, step: Step, r: Renaming, s2: Reference, name: Address, r1: Renaming,
                          next: Reference) {
    if Allowed(s.memory, step) then
      && Addressed(s2.memory, RenamedStep(r, step, name)) && next == ReferenceStep(s2, RenamedStep(r, step, name))
      && (forall a :: a in r && a in r1 ==> r1[a] == r[a])
    else next == s2 && r1 == r
  }

  /** Addresses of the uncollected memory are numbers of steps. */
  predicate Numbered(s: Reference, k: nat) {
    forall a :: a in s.memory ==> a <= k
  }

  /** A run of the collected heap beside a run without collections. */
  ghost predicate RunsBeside(steps: seq<Step>, trace: seq<State>, renamings: seq<Renaming>,
                             references: seq<Reference>) {
    && |trace| == |renamings| == |references| == |steps| + 1 && references[0] == Reference(map[], [])
    && (forall k :: 0 <= k <= |steps| ==>
          Corresponds(renamings[k], trace[k], references[k]) && Numbered(references[k], k))
    && (forall k :: 0 <= k < |steps| ==>
          Mirrors(trace[k], steps[k], renamings[k], references[k], k + 1, renamings[k + 1], references[k + 1]))
  }

  lemma ExtendedKeeps(r: Renaming, s: State, s2: Reference, step: Step, k: nat)
    requires Corresponds(r, s, s2) && Allowed(s.memory, step) && Numbered(s2, k)
    requires Addressed(s2.memory, RenamedStep(r, step, k + 1))
    ensures forall a :: a in r ==> a in Extended(r, step, k + 1) && Extended(r, step, k + 1)[a] == r[a]
    ensures Numbered(ReferenceStep(s2, RenamedStep(r, step, k + 1)), k + 1)
  {
  }

  lemma MutationBeside(r: Renaming, s: State, s2: Reference, step: Step, k: nat, s1: State)
    returns (r1: Renaming, next: Reference)
    requires Corresponds(r, s, s2) && Numbered(s2, k) && SoundState(s) && Allowed(s.memory, step)
    requires Mutated(s, step, s1) && s1.roots == RootsAfter(step, s.roots)
    ensures Corresponds(r1, s1, next) && Numbered(next, k + 1) && Mirrors(s, step, r, s2, k + 1, r1, next)
  {
    hide Corresponds, SoundState, Mutated, Extended;
    MutationAlike(r, s, s2, step, k + 1, s1);
    ExtendedKeeps(r, s, s2, step, k);
    r1, next := Extended(r, step, k + 1), ReferenceStep(s2, RenamedStep(r, step, k + 1));
  }

  lemma StepBeside(r: Renaming, s: State, s2: Reference, step: Step, k: nat, s1: State)
    returns (r1: Renaming, next: Reference)
    requires Corresponds(r, s, s2) && Numbered(s2, k) && SoundState(s) && SoundState(s1) && Follows(s, step, s1)
    ensures Corresponds(r1, s1, next) && Numbered(next, k + 1) && Mirrors(s, step, r, s2, k + 1, r1, next)
  {
    hide Corresponds, SoundState, Collected, Mutated;
    r1, next := r, s2;
    if Allowed(s.memory, step) {
      if Collects(s, step) {
        CollectionAlike(r, s, s2, s1);
        r1 := Restricted(r, s1.memory);
        assert Mirrors(s, step, r, s2, k + 1, Restricted(r, s1.memory), s2) by {
          assert KeysAfter(s2, step) == s2.memory.Keys;
        }
      } else {
        r1, next := MutationBeside(r, s, s2, step, k, s1);
      }
    } else {
      assert Mirrors(s, step, r, s2, k + 1, r, s2);
    }
  }

  /**
   Collections are transparent: beside every run there is the same run of a memory that is never collected. At every
   point the two agree on all objects of the collected heap, up to addresses and to weak slots that were buried; and an
   object keeps its counterpart as long as it lives.
   */
  lemma {:induction false} CollectionsInvisible(steps: seq<Step>, trace: seq<State>)
    returns (renamings: seq<Renaming>, references: seq<Reference>)
    requires IsRun(steps, trace)
    ensures RunsBeside(steps, trace, renamings, references)
    decreases |steps|
  {
    hide Mirrors, Follows, SoundState;
    if steps == [] {
      renamings, references := [map[]], [Reference(map[], [])];
      assert Corresponds(map[], START, Reference(map[], [])) && Numbered(Reference(map[], []), 0);
    } else {
      var n := |steps| - 1;
      var before, states := steps[..n], trace[..n + 1];
      assert IsRun(before, states) by {
        forall k | 0 <= k < n ensures Follows(states[k], before[k], states[k + 1]) {
          assert Follows(trace[k], steps[k], trace[k + 1]);
        }
      }
      renamings, references := CollectionsInvisible(before, states);
      var r, next := StepBeside(renamings[n], trace[n], references[n], steps[n], n, trace[n + 1]);
      assert RunsBeside(steps, trace, renamings + [r], references + [next]) by {
        hide Corresponds, Mirrors, Numbered;
        var n := |steps| - 1;
        var rs, ss, before, states := renamings + [r], references + [next], steps[..n], trace[..n + 1];
        forall k | 0 <= k <= |steps| ensures Corresponds(rs[k], trace[k], ss[k]) && Numbered(ss[k], k) {
          if k <= n { assert Corresponds(renamings[k], states[k], references[k]) && Numbered(references[k], k); }
        }
        forall k | 0 <= k < |steps| ensures Mirrors(trace[k], steps[k], rs[k], ss[k], k + 1, rs[k + 1], ss[k + 1]) {
          if k < n {
            assert Mirrors(states[k], before[k], renamings[k], references[k], k
                           + 1, renamings[k + 1], references[k + 1]);
          }
        }
      }
      renamings, references := renamings + [r], references + [next];
    }
  }

  // What is alive.

  /** No slot that a type declares has been buried: types declare their slots before their weak instances lose any. */
  ghost predicate DeclaredHeld(memory: Memory) {
    forall a, i ::
      a in memory && memory[a].kind.WeakPointers? && 0 <= i < |memory[a].slots| && StrongSlot(memory, memory[a], i) ==>
        memory[a].slots[i] != Tombstone
  }

  lemma CountsAlike(r: Renaming, s: State, s2: Reference, a: Address)
    requires Corresponds(r, s, s2) && SoundState(s) && a in s.memory
    ensures r[a] in s2.memory && StrongCount(s2.memory, s2.memory[r[a]]) == StrongCount(s.memory, s.memory[a])
  {
    hide SlotsAlike;
    var c, d := s.memory[a], s2.memory[r[a]];
    assert CellsAlike(r, c, d, s2.memory.Keys) && Sound(s.memory, c.typePointer);
    assert |d.slots| == |c.slots| by { SameCount(r, c, d, s2.memory.Keys); }
    if c.typePointer.Pointer? {
      var t := c.typePointer.address;
      assert CellsAlike(r, s.memory[t], s2.memory[r[t]], s2.memory.Keys);
    }
  }

  lemma SameCount(r: Renaming, c: Cell, d: Cell, addresses: set<Address>)
    requires CellsAlike(r, c, d, addresses)
    ensures |d.slots| == |c.slots|
  {
  }

  /** Place j among the strong tuples of an object is place j among those of its counterpart. */
  lemma StrongTupleAlike(r: Renaming, s: State, s2: Reference, a: Address, j: nat)
    requires Corresponds(r, s, s2) && SoundState(s) && a in s.memory && j < |StrongTuples(s.memory, s.memory[a])|
    ensures r[a] in s2.memory && j < |StrongTuples(s2.memory, s2.memory[r[a]])|
    ensures var t, t2 := StrongTuples(s.memory, s.memory[a])[j], StrongTuples(s2.memory, s2.memory[r[a]])[j];
            && Sound(s.memory, t)
            && (t2 == RenamedTuple(r, t)
                || (t == Tombstone && s.memory[a].kind.WeakPointers? && j > 0 && t == s.memory[a].slots[j - 1]))
  {
    CountsAlike(r, s, s2, a);
    assert CellsAlike(r, s.memory[a], s2.memory[r[a]], s2.memory.Keys);
    assert Sound(s.memory, s.memory[a].typePointer) && AllSound(s.memory, s.memory[a].slots);
  }

  lemma NamesCover(r: Renaming, s: State, s2: Reference)
    requires Corresponds(r, s, s2)
    ensures r.Keys == s.memory.Keys && Injective(r) && s2.roots == RenamedTuples(r, s.roots)
    ensures forall a :: a in r ==> r[a] in s2.memory
  {
  }

  /** Without buried declared slots the reference has no other strong edges. */
  lemma EdgeFrom(r: Renaming, s: State, s2: Reference, a: Address, y: Address) returns (b: Address)
    requires Corresponds(r, s, s2) && SoundState(s) && DeclaredHeld(s.memory) && a in s.memory
             && Edge(s2.memory, r[a], y)
    ensures b in s.memory && r[b] == y && Edge(s.memory, a, b)
  {
    hide Corresponds, SoundState;
    NamesCover(r, s, s2);
    CountsAlike(r, s, s2, a);
    var j: nat :| j < |StrongTuples(s2.memory, s2.memory[r[a]])|
      && StrongTuples(s2.memory, s2.memory[r[a]])[j] == Pointer(y);
    assert |StrongTuples(s.memory, s.memory[a])| == |StrongTuples(s2.memory, s2.memory[r[a]])|;
    StrongTupleAlike(r, s, s2, a, j);
    var t := StrongTuples(s.memory, s.memory[a])[j];
    if t == Tombstone {
      assert StrongTuples(s.memory, s.memory[a])[j] != Tombstone;
    }
    b := t.address;
    assert Pointer(b) in StrongTuples(s.memory, s.memory[a]);
  }

  lemma {:induction false} PathMapped(r: Renaming, s: State, s2: Reference, path: seq<Address>)
    requires Corresponds(r, s, s2) && SoundState(s) && |path| > 0 && IsPathTo(s.memory, s.roots, path, path[|path| - 1])
    ensures Reachable(s2.memory, s2.roots, r[path[|path| - 1]])
    decreases |path|
  {
    hide Reachable;
    NamesCover(r, s, s2);
    if |path| == 1 {
      var i: nat :| i < |s.roots| && s.roots[i] == Pointer(path[0]);
      assert s2.roots[i] == Pointer(r[path[0]]);
      RootReachable(s2.memory, s2.roots, r[path[0]]);
    } else {
      var n := |path| - 1;
      PathMapped(r, s, s2, path[..n]);
      assert Edge(s.memory, path[n - 1], path[n]);
      assert path[n] in s.memory && Edge(s2.memory, r[path[n - 1]], r[path[n]]) by {
        var j: nat :| j < |StrongTuples(s.memory, s.memory[path[n - 1]])|
          && StrongTuples(s.memory, s.memory[path[n - 1]])[j] == Pointer(path[n]);
        StrongTupleAlike(r, s, s2, path[n - 1], j);
        NamesCover(r, s, s2);
        assert StrongTuples(s2.memory, s2.memory[r[path[n - 1]]])[j] == Pointer(r[path[n]]);
      }
      EdgeReachable(s2.memory, s2.roots, r[path[n - 1]], r[path[n]]);
    }
  }

  /** The reference reaches exactly the counterparts of what the collected heap reaches: nothing alive was freed. */
  lemma AliveAlike(r: Renaming, s: State, s2: Reference, x: Address)
    requires Corresponds(r, s, s2) && SoundState(s) && DeclaredHeld(s.memory)
    ensures Reachable(s2.memory, s2.roots, x)
            <==> exists a :: a in s.memory && r[a] == x && Reachable(s.memory, s.roots, a)
  {
    hide Corresponds, SoundState, DeclaredHeld, Edge;
    NamesCover(r, s, s2);
    if a :| a in s.memory && r[a] == x && Reachable(s.memory, s.roots, a) {
      var path :| IsPathTo(s.memory, s.roots, path, a);
      PathMapped(r, s, s2, path);
    }
    if Reachable(s2.memory, s2.roots, x) {
      var path :| IsPathTo(s2.memory, s2.roots, path, x);
      var closed := set a | a in s.memory && Reachable(s.memory, s.roots, a) :: r[a];
      ClosedUnderEdges(r, s, s2, closed);
      ClosedCoversPath(s2.memory, s2.roots, path, closed);
    }
  }

  lemma ClosedUnderEdges(r: Renaming, s: State, s2: Reference, closed: set<Address>)
    requires Corresponds(r, s, s2) && SoundState(s) && DeclaredHeld(s.memory) && r.Keys == s.memory.Keys
    requires closed == set a | a in s.memory && Reachable(s.memory, s.roots, a) :: r[a]
    ensures forall x :: Pointer(x) in s2.roots ==> x in closed
    ensures forall x, y :: x in closed && Edge(s2.memory, x, y) ==> y in closed
  {
    hide Corresponds, DeclaredHeld, Edge, Reachable;
    NamesCover(r, s, s2);
    forall x | Pointer(x) in s2.roots ensures x in closed {
      var i: nat :| i < |s2.roots| && s2.roots[i] == Pointer(x);
      assert Sound(s.memory, s.roots[i]);
      RootReachable(s.memory, s.roots, s.roots[i].address);
    }
    forall x, y | x in closed && Edge(s2.memory, x, y) ensures y in closed {
      var a :| a in s.memory && Reachable(s.memory, s.roots, a) && r[a] == x;
      var b := EdgeFrom(r, s, s2, a, y);
      EdgeReachable(s.memory, s.roots, a, b);
    }
  }
}
