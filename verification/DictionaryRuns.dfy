/** Dictionaries over every sequence of operations, with values that die at any time. */
module DictionaryRuns {
  import opened ObjectMemory
  import opened Probing
  import opened Dictionary
  import opened MethodDictionaries

  /** `Dies` lets the collector bury the value of a key of a weak dictionary. */
  datatype Operation = AtPut(key: Tuple, value: Tuple) | Add(association: Entry) | Dies(key: Tuple)

  /** What a key is bound to after a run: the reference that every dictionary is compared with. */
  function Expected(variant: Variant, h: Hasher, run: seq<Operation>, key: Tuple): Option<Tuple>
    decreases |run|
  {
    if run == [] then None
    else
      var earlier := Expected(variant, h, run[..|run| - 1], key);
      match run[|run| - 1]
      case AtPut(k, v) => if !h.equals(k, key) then earlier else if Live(variant, v) then Some(v) else None
      case Add(a) =>
        if variant.WeakValue? || !h.equals(a.key, key) then earlier
        else if variant.Identity? || earlier.None? then Some(a.value) else earlier
      case Dies(k) => if variant.WeakValue? && h.equals(k, key) then None else earlier
  }

  /** Equal keys are expected to have equal bindings. */
  lemma {:induction false} ExpectedRespectsEquality(variant: Variant, h: Hasher, run: seq<Operation>, a: Tuple,
                                                    b: Tuple)
    requires ValidHasher(h) && h.equals(a, b)
    ensures Expected(variant, h, run, a) == Expected(variant, h, run, b)
    decreases |run|
  {
    if run != [] {
      ExpectedRespectsEquality(variant, h, run[..|run| - 1], a, b);
      forall k ensures h.equals(k, a) <==> h.equals(k, b) {
        assert h.equals(b, a);
        assert h.equals(k, a) ==> h.equals(k, b);
      }
    }
  }

  ghost predicate Refines(d: AssociationDictionary, run: seq<Operation>)
    reads d, d.storage
  {
    forall k, v :: Bound(d.variant, d.hasher, d.storage[..], k, v) <==> Expected(d.variant, d.hasher, run, k) == Some(v)
  }

  lemma HoldsRespectsEquality(h: Hasher, slots: Slots, a: Tuple, b: Tuple, v: Tuple)
    requires ValidHasher(h) && h.equals(a, b)
    ensures Holds(h, slots, a, v) <==> Holds(h, slots, b, v)
  {
    assert h.equals(b, a);
    if Holds(h, slots, a, v) {
      var i: nat :| HoldsAt(h, slots, a, v, i);
      assert HoldsAt(h, slots, b, v, i);
    }
    if Holds(h, slots, b, v) {
      var i: nat :| HoldsAt(h, slots, b, v, i);
      assert HoldsAt(h, slots, a, v, i);
    }
  }

  lemma EqualToBoth(h: Hasher, key: Tuple, stored: Tuple)
    requires ValidHasher(h) && h.equals(key, stored)
    ensures forall k :: h.equals(k, stored) <==> h.equals(key, k)
  {
    forall k ensures h.equals(k, stored) <==> h.equals(key, k) {
      assert h.equals(stored, key);
      assert h.equals(k, stored) ==> h.equals(k, key);
      assert h.equals(key, k) ==> h.equals(k, key);
    }
  }

  /** Buries the value of a key, if the dictionary holds one. */
  method BuryKey(d: AssociationDictionary, key: Tuple)
    requires d.Valid() && d.variant.WeakValue?
    modifies d.storage
    ensures d.Valid()
    ensures forall k, v :: Bound(d.variant, d.hasher, d.storage[..], k, v) <==>
              Bound(d.variant, d.hasher, old(d.storage[..]), k, v) && !d.hasher.equals(key, k)
  {
    hide ValidHasher, WellPlaced, Occupied, Holds;
    var index := d.ScanFor(key);
    if index >= 0 && d.storage[index].Some? {
      EqualToBoth(d.hasher, key, d.storage[index].value.key);
      d.Bury(index);
    } else {
      assert forall k, v :: d.hasher.equals(key, k) ==> !Holds(d.hasher, d.storage[..], k, v) by {
        hide WellPlaced, Occupied, Holds;
        if index < 0 { d.NothingHeld(key); }
        forall k, v | d.hasher.equals(key, k) ensures !Holds(d.hasher, d.storage[..], k, v) {
          if index >= 0 { ScanFinds(d.hasher, d.storage[..], key, index, v); }
          HoldsRespectsEquality(d.hasher, d.storage[..], key, k, v);
        }
      }
    }
  }

  /** One operation keeps the dictionary in step with the reference. */
  method Perform(d: AssociationDictionary, operation: Operation, ghost run: seq<Operation>)
    requires d.Valid() && Refines(d, run)
    modifies d, d.storage
    ensures d.Valid() && (d.storage == old(d.storage) || fresh(d.storage)) && Refines(d, run + [operation])
  {
    hide ValidHasher, WellPlaced, Occupied;
    ghost var after := run + [operation];
    assert after[..|after| - 1] == run;
    match operation
    case AtPut(k, v) => d.AtPut(k, v);
    case Add(a) =>
      if !d.variant.WeakValue? {
        assert (exists v :: Holds(d.hasher, d.storage[..], a.key, v))
               <==> Expected(d.variant, d.hasher, run, a.key).Some? by {
          if Expected(d.variant, d.hasher, run, a.key).Some? {
            assert Bound(d.variant, d.hasher, d.storage[..], a.key, Expected(d.variant, d.hasher, run, a.key).value);
          }
          if v :| Holds(d.hasher, d.storage[..], a.key, v) {
            assert Bound(d.variant, d.hasher, d.storage[..], a.key, v);
          }
        }
        d.AllBoundLive(d.storage[..]);
        d.Add(a);
        d.AllBoundLive(d.storage[..]);
        assert forall k :: d.hasher.equals(a.key, k) ==>
               Expected(d.variant, d.hasher, run, k) == Expected(d.variant, d.hasher, run, a.key) by {
          hide ValidHasher;
          forall k | d.hasher.equals(a.key, k) ensures Expected(d.variant, d.hasher, run, k)
            == Expected(d.variant, d.hasher, run, a.key) {
            ExpectedRespectsEquality(d.variant, d.hasher, run, a.key, k);
          }
        }
      }
    case Dies(k) =>
      if d.variant.WeakValue? { BuryKey(d, k); }
  }

  /**
   Over every run, an identity, ordinary or weak-value dictionary finds exactly what the reference expects: the value
   last put under an equal key, unless it has died since. Ordinary dictionaries may be made for any expected capacity.
   */
  method Run(variant: Variant, h: Hasher, expectedCapacity: nat, run: seq<Operation>, key: Tuple)
    returns (found: Option<Tuple>)
    requires ValidHasher(h)
    ensures found == Expected(variant, h, run, key)
  {
    hide ValidHasher, WellPlaced, Occupied, Holds;
    var d := Create(variant, h, expectedCapacity);
    for i := 0 to |run|
      invariant fresh(d) && fresh(d.storage) && d.Valid() && d.variant == variant && d.hasher == h
      invariant Refines(d, run[..i])
    {
      Perform(d, run[i], run[..i]);
      assert run[..i + 1] == run[..i] + [run[i]];
    }
    assert run[..|run|] == run;
    found := d.Find(key);
    assert found == Expected(d.variant, d.hasher, run, key) by {
      var expected := Expected(d.variant, d.hasher, run, key);
      if found.Some? { assert found == Some(found.value); }
      if expected.Some? { assert Bound(d.variant, d.hasher, d.storage[..], key, expected.value); }
    }
  }

  /** Only ordinary dictionaries are made with a capacity. */
  method Create(variant: Variant, h: Hasher, expectedCapacity: nat) returns (d: AssociationDictionary)
    requires ValidHasher(h)
    ensures fresh(d) && fresh(d.storage) && d.Valid() && d.variant == variant && d.hasher == h && Refines(d, [])
    ensures d.storage.Length == if variant.Ordinary? then expectedCapacity * 130 / 100 else 0
  {
    hide ValidHasher;
    if variant.Ordinary? {
      d := new AssociationDictionary.WithCapacity(h, expectedCapacity);
    } else {
      d := new AssociationDictionary(variant, h);
    }
  }

  // Method dictionaries refine finite maps.

  function MapOf(run: seq<(Tuple, Tuple)>): map<Tuple, Tuple> {
    if run == [] then map[]
    else
      var (k, v) := run[|run| - 1];
      if k == EMPTY_ELEMENT then MapOf(run[..|run| - 1]) else MapOf(run[..|run| - 1])[k := v]
  }

  /**
   Preallocated with any capacity, a method dictionary finds after every run what the map of its bindings says; the
   empty marker is never a key.
   */
  method RunMethods(hash: Tuple -> nat, initialCapacity: nat, run: seq<(Tuple, Tuple)>, key: Tuple)
    returns (found: Option<Tuple>)
    ensures found == if key in MapOf(run) then Some(MapOf(run)[key]) else None
  {
    hide WellPlaced, Occupied, Holds, IdentityHasher;
    var d := new MethodDictionary.WithCapacity(hash, initialCapacity);
    for i := 0 to |run|
      invariant fresh(d) && fresh(d.storage) && d.Valid()
      invariant forall k, v :: Holds(d.H(), d.Table(), k, v) <==> k in MapOf(run[..i]) && MapOf(run[..i])[k] == v
    {
      d.AtPut(run[i].0, run[i].1);
      assert run[..i + 1][..i] == run[..i];
    }
    assert run[..|run|] == run;
    found := d.Find(key);
    if found.Some? { assert found == Some(found.value); }
    if key in MapOf(run) { assert Holds(d.H(), d.Table(), key, MapOf(run)[key]); }
  }
}
