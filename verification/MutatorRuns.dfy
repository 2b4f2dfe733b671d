/** Every run of a mutator with collections at its safepoints. */
module MutatorRuns {
  import opened ObjectMemory
  import opened Sweeping
  import opened Collector

  datatype Step =
    | AllocateBytes(byteSize: nat, address: Address)
    | AllocatePointers(slotCount: nat, address: Address)
    | Copy(original: Address, byteSize: nat, address: Address)
    | Write(object: Address, index: nat, value: Tuple)
    | SetType(object: Address, newType: Tuple)
    | MarkWeak(object: Address)
    | DeclareSlots(object: Address, declared: nat)
    | ChangeRoots(roots: seq<Tuple>)
    | Lock | Unlock | Safepoint | Collect

  predicate SoundTuple(memory: Memory, t: Tuple) {
    t.Pointer? ==> t.address in memory
  }

  /**
   What the mutator and malloc owe the heap: pointers they hold lead to objects, new memory is new, and weak objects
   have the slots that their types declare.
   */
  predicate Allowed(memory: Memory, step: Step) {
    match step
    case AllocateBytes(_, a) => a != NULL && a !in memory
    case AllocatePointers(_, a) => a != NULL && a !in memory
    case Copy(o, _, a) => o in memory && a != NULL && a !in memory
    case Write(o, i, t) => o in memory && i < |memory[o].slots| && SoundTuple(memory, t)
    case SetType(o, t) =>
      && o in memory && SoundTuple(memory, t)
      && (memory[o].kind.WeakPointers? ==> DeclaresFewSlots(memory, memory[o].(typePointer := t)))
    case MarkWeak(o) => o in memory && memory[o].kind.Pointers? && DeclaresFewSlots(memory, memory[o])
    case DeclareSlots(o, n) => o in memory && InstancesHave(memory, o, n)
    case ChangeRoots(ts) => forall i :: 0 <= i < |ts| ==> SoundTuple(memory, ts[i])
    case Lock => true
    case Unlock => true
    case Safepoint => true
    case Collect => true
  }

  /** The allocation fits the 32-bit size field of its header. */
  predicate FitsHeader(step: Step) {
    match step
    case AllocateBytes(n, _) => MALLOC_HEADER_SIZE + OBJECT_TUPLE_SIZE + n < SIZE_LIMIT
    case AllocatePointers(n, _) => MALLOC_HEADER_SIZE + OBJECT_TUPLE_SIZE + SLOT_SIZE * n < SIZE_LIMIT
    case Copy(_, n, _) => MALLOC_HEADER_SIZE + OBJECT_TUPLE_SIZE + n < SIZE_LIMIT
    case _ => true
  }

  // What a step does, apart from collecting.

  function Allocated(step: Step): seq<Address> {
    match step
    case AllocateBytes(_, a) => [a]
    case AllocatePointers(_, a) => [a]
    case Copy(_, _, a) => [a]
    case _ => []
  }

  /** The objects and slots that the step mentions are there. */
  predicate Addressed(memory: Memory, step: Step) {
    match step
    case Copy(o, _, _) => o in memory
    case Write(o, i, _) => o in memory && i < |memory[o].slots|
    case SetType(o, _) => o in memory
    case MarkWeak(o) => o in memory
    case DeclareSlots(o, _) => o in memory
    case _ => true
  }

  /** The object at an address after a step of the mutator. */
  function Changed(memory: Memory, step: Step, a: Address): Cell
    requires Addressed(memory, step) && (a in memory || a in Allocated(step))
  {
    match step
    case AllocateBytes(_, x) => if a == x then Cell(NULL, 0, 0, Bytes, Null, [], 0) else memory[a]
    case AllocatePointers(n, x) => if a == x then Cell(NULL, 0, 0, Pointers, Null, NullSlots(n), 0) else memory[a]
    case Copy(o, _, x) => if a == x then memory[o] else memory[a]
    case Write(o, i, t) => if a == o then memory[o].(slots := memory[o].slots[i := t]) else memory[a]
    case SetType(o, t) => if a == o then memory[o].(typePointer := t) else memory[a]
    case MarkWeak(o) => if a == o then memory[o].(kind := WeakPointers) else memory[a]
    case DeclareSlots(o, n) => if a == o then memory[o].(instanceSlotCount := n) else memory[a]
    case _ => memory[a]
  }

  function RootsAfter(step: Step, roots: seq<Tuple>): seq<Tuple> {
    if step.ChangeRoots? then step.roots else roots
  }

  function LocksAfter(step: Step, lockCount: nat): nat {
    match step
    case Lock => (lockCount + 1) % LOCK_LIMIT
    case Unlock => (lockCount - 1) % LOCK_LIMIT
    case _ => lockCount
  }

  // Collections.

  datatype State = State(memory: Memory, chain: seq<Address>, roots: seq<Tuple>, lockCount: nat, requested: bool,
                         disabled: bool)

  const START := State(map[], [], [], 0, false, false)

  ghost function StateOf(heap: ObjectHeap): State
    reads heap
  {
    State(heap.memory, heap.chain, heap.roots, heap.perThreadLockCount, heap.shouldAttemptToCollect, heap.gcDisabled)
  }

  /** The steps that are safepoints collect when no lock is left, collection is enabled, and somebody asked for it. */
  predicate Collects(s: State, step: Step) {
    match step
    case Unlock => s.lockCount == 1 && s.requested && !s.disabled
    case Safepoint => s.lockCount == 0 && s.requested && !s.disabled
    case Collect => s.lockCount == 0 && !s.disabled
    case _ => false
  }

  /** The exact effect of a step on objects, list, roots and locks. */
  ghost predicate Transition(s: State, step: Step, s1: State)
    requires Allowed(s.memory, step)
  {
    && s1.roots == RootsAfter(step, s.roots) && s1.lockCount == LocksAfter(step, s.lockCount)
       && s1.disabled == s.disabled
    && if Collects(s, step) then Collected(s.memory, s.roots, s.chain, s1.memory, s1.chain)
       else Mutated(s, step, s1)
  }

  ghost predicate Mutated(s: State, step: Step, s1: State)
    requires Allowed(s.memory, step)
  {
    && s1.chain == s.chain + Allocated(step)
    && (forall a :: a in s1.memory <==> a in s.memory || a in Allocated(step))
    && (forall a :: a in s1.memory ==> SameContent(s1.memory[a], Changed(s.memory, step, a)))
  }

  /** Nothing dangles, weak objects have their declared slots, and the list holds every object once. */
  ghost predicate SoundState(s: State) {
    && NoDangling(s.memory) && ShapesFit(s.memory) && AllSound(s.memory, s.roots)
    && Distinct(s.chain) && (forall a :: a in s.memory <==> a in s.chain)
  }

  method Allocate(heap: ObjectHeap, step: Step)
    requires heap.Valid() && Allowed(heap.memory, step) && Allocated(step) != []
    modifies heap
    ensures heap.Valid() && Transition(old(StateOf(heap)), step, StateOf(heap))
    ensures FitsHeader(step) ==> heap.Excess() == old(heap.totalSize - SumSizes(heap.memory, heap.chain))
  {
    hide heap.Valid, Listed, NoDangling, ShapesFit, SumSizes, Collected, AllSound, SoundState;
    ChainAllocated(heap);
    match step
    case AllocateBytes(n, a) => heap.AllocateByteTuple(n, a);
    case AllocatePointers(n, a) => heap.AllocatePointerTuple(n, a);
    case Copy(o, n, a) => heap.ShallowCopyTuple(o, n, a);
  }

  predicate IsChange(step: Step) {
    step.Write? || step.SetType? || step.MarkWeak? || step.DeclareSlots? || step.ChangeRoots?
  }

  method Change(heap: ObjectHeap, step: Step)
    requires heap.Valid() && Allowed(heap.memory, step) && IsChange(step)
    modifies heap
    ensures heap.Valid() && Transition(old(StateOf(heap)), step, StateOf(heap))
    ensures heap.Excess() == old(heap.totalSize - SumSizes(heap.memory, heap.chain))
  {
    hide heap.Valid, Listed, NoDangling, ShapesFit, SumSizes, Collected, SoundState;
    ChainAllocated(heap);
    match step
    case Write(o, i, t) => heap.WriteSlot(o, i, t);
    case SetType(o, t) => heap.SetType(o, t);
    case MarkWeak(o) => heap.MarkWeak(o);
    case DeclareSlots(o, n) => heap.DeclareSlots(o, n);
    case ChangeRoots(ts) => heap.ChangeRoots(ts);
  }

  method ReachSafepoint(heap: ObjectHeap, step: Step)
    requires heap.Valid() && (step.Lock? || step.Unlock? || step.Safepoint? || step.Collect?)
    modifies heap
    ensures heap.Valid() && Transition(old(StateOf(heap)), step, StateOf(heap))
    ensures heap.Excess() == old(heap.totalSize - SumSizes(heap.memory, heap.chain))
  {
    hide heap.Valid, Listed, NoDangling, ShapesFit, SumSizes, Collected, AllSound, SoundState;
    ChainAllocated(heap);
    match step
    case Lock => heap.Lock();
    case Unlock => heap.Unlock();
    case Safepoint => heap.Safepoint();
    case Collect => heap.Collect();
  }

  method Perform(heap: ObjectHeap, step: Step)
    requires heap.Valid() && Allowed(heap.memory, step)
    modifies heap
    ensures heap.Valid() && Transition(old(StateOf(heap)), step, StateOf(heap))
    ensures forall i :: 0 <= i < |heap.chain| ==> heap.chain[i] in heap.memory
    ensures FitsHeader(step) ==> heap.Excess() == old(heap.totalSize - SumSizes(heap.memory, heap.chain))
  {
    hide Transition, Allowed, FitsHeader, SumSizes, heap.Valid;
    ChainAllocated(heap);
    if Allocated(step) != [] {
      Allocate(heap, step);
    } else if IsChange(step) {
      Change(heap, step);
    } else {
      ReachSafepoint(heap, step);
    }
    ChainAllocated(heap);
  }

  lemma ChainAllocated(heap: ObjectHeap)
    requires heap.Valid()
    ensures forall i :: 0 <= i < |heap.chain| ==> heap.chain[i] in heap.memory
    ensures SoundState(StateOf(heap))
  {
  }

  /** What a step that is not allowed leaves alone, any other changes exactly as its transition says. */
  ghost predicate Follows(s: State, step: Step, s1: State) {
    if Allowed(s.memory, step) then Transition(s, step, s1) else s1 == s
  }

  /** The states of a run, from the empty heap on. */
  ghost predicate IsRun(steps: seq<Step>, trace: seq<State>) {
    && |trace| == |steps| + 1 && trace[0] == START
    && (forall k :: 0 <= k < |trace| ==> SoundState(trace[k]))
    && (forall k :: 0 <= k < |steps| ==> Follows(trace[k], steps[k], trace[k + 1]))
  }

  lemma RunStarts()
    ensures IsRun([], [START])
  {
  }

  lemma RunGoesOn(steps: seq<Step>, trace: seq<State>, step: Step, s: State)
    requires IsRun(steps, trace) && Follows(trace[|steps|], step, s) && SoundState(s)
    ensures IsRun(steps + [step], trace + [s])
  {
    hide Follows, SoundState;
    var all, states := steps + [step], trace + [s];
    forall k | 0 <= k < |all| ensures Follows(states[k], all[k], states[k + 1]) {
      if k < |steps| { assert Follows(trace[k], steps[k], trace[k + 1]); }
    }
  }

  /**
   Over every run of the mutator, whatever it allocates, writes, declares, roots or collects: every step has exactly its
   effect, nothing dangles, every listed object is white between steps, the list holds every object once, and the
   accounted size is the sum of the listed sizes as long as no allocation exceeds its size field.
   */
  method Run(steps: seq<Step>) returns (heap: ObjectHeap, ghost trace: seq<State>)
    ensures fresh(heap) && heap.Valid()
    ensures IsRun(steps, trace) && trace[|steps|] == StateOf(heap)
    ensures forall i :: 0 <= i < |heap.chain| ==> heap.chain[i] in heap.memory
    ensures (forall k :: 0 <= k < |steps| ==> FitsHeader(steps[k])) ==>
              heap.totalSize == SumSizes(heap.memory, heap.chain)
  {
    hide Allowed, FitsHeader, SumSizes, Transition, SoundState, IsRun;
    heap := new ObjectHeap();
    trace := [START];
    RunStarts();
    assert steps[..0] == [];
    for k := 0 to |steps|
      invariant fresh(heap) && heap.Valid()
      invariant |trace| == k + 1 && IsRun(steps[..k], trace) && trace[k] == StateOf(heap)
      invariant forall i :: 0 <= i < |heap.chain| ==> heap.chain[i] in heap.memory
      invariant (forall j :: 0 <= j < k ==> FitsHeader(steps[j])) ==> heap.Excess() == 0
    {
      if Allowed(heap.memory, steps[k]) { Perform(heap, steps[k]); }
      ChainAllocated(heap);
      RunGoesOn(steps[..k], trace, steps[k], StateOf(heap));
      trace := trace + [StateOf(heap)];
      assert steps[..k + 1] == steps[..k] + [steps[k]];
    }
    assert steps[..|steps|] == steps;
  }

  // What may happen to an object in a step of a run.

  /** Objects go only in collections that cannot reach them. */
  lemma OnlyGarbageGoes(steps: seq<Step>, trace: seq<State>, k: nat, a: Address)
    requires IsRun(steps, trace) && k < |steps| && a in trace[k].memory && a !in trace[k + 1].memory
    ensures Collects(trace[k], steps[k]) && !Reachable(trace[k].memory, trace[k].roots, a)
  {
    hide Reachable, SoundState, LiveChain, CellCollected;
    assert Follows(trace[k], steps[k], trace[k + 1]);
  }

  /** The slot of a weak object that its type does not declare, leading to an object that strong edges do not reach. */
  ghost predicate DeadWeakSlot(s: State, a: Address, i: nat)
    requires a in s.memory && i < |s.memory[a].slots|
  {
    var c := s.memory[a];
    c.kind.WeakPointers? && !StrongSlot(s.memory, c, i) && c.slots[i].Pointer?
      && !Reachable(s.memory, s.roots, c.slots[i].address)
  }

  /** A slot changes only when it is written, or when a collection buries a dead weak reference. */
  lemma OnlyDeadSlotsAreBuried(steps: seq<Step>, trace: seq<State>, k: nat, a: Address, i: nat)
    requires IsRun(steps, trace) && k < |steps| && a in trace[k].memory && a in trace[k + 1].memory
             && i < |trace[k].memory[a].slots|
    ensures |trace[k + 1].memory[a].slots| == |trace[k].memory[a].slots|
    ensures var t, t1 := trace[k].memory[a].slots[i], trace[k + 1].memory[a].slots[i];
            if Collects(trace[k], steps[k]) then t1 == if DeadWeakSlot(trace[k], a, i) then Tombstone else t
            else t1 == t || steps[k] == Write(a, i, t1)
  {
    hide Reachable, LiveChain, ShapesFit;
    var s, s1 := trace[k], trace[k + 1];
    assert Follows(s, steps[k], s1) && SoundState(s);
    if Collects(s, steps[k]) {
      assert CellCollected(s.memory, s.roots, s.memory[a], s1.memory[a]);
      if StrongSlot(s.memory, s.memory[a], i) {
        StrongSlotsStay(s.memory, s.roots, s.chain, s1.memory, s1.chain, a, i);
      }
    }
  }
}
