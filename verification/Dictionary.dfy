/** Identity, ordinary and weak-value dictionaries: storage slots hold associations. */
module Dictionary {
  import opened ObjectMemory
  import opened Probing

  datatype Variant = Identity | Ordinary | WeakValue

  /** Values of weak associations die when the collector buries them. */
  predicate Live(variant: Variant, value: Tuple) {
    variant.WeakValue? ==> value != Tombstone
  }

  /** The key is bound to the value, and the value is alive. */
  ghost predicate Bound(variant: Variant, h: Hasher, slots: Slots, key: Tuple, value: Tuple) {
    Holds(h, slots, key, value) && Live(variant, value)
  }

  /** At most four fifths of the slots are occupied. */
  predicate Sparse(size: nat, capacity: nat) {
    size == 0 || size < capacity * 4 / 5
  }

  class AssociationDictionary {
    const variant: Variant
    const hasher: Hasher
    var storage: array<Option<Entry>>
    var size: nat

    ghost predicate Placed()
      reads this, storage
    {
      WellPlaced(hasher, storage[..]) && size == Occupied(storage[..])
    }

    ghost predicate Valid()
      reads this, storage
    {
      ValidHasher(hasher) && Placed() && Sparse(size, storage.Length)
    }

    constructor (variant: Variant, hasher: Hasher)
      requires ValidHasher(hasher)
      ensures Valid() && this.variant == variant && this.hasher == hasher && fresh(storage) && storage.Length == 0
    {
      this.variant, this.hasher := variant, hasher;
      storage := new Option<Entry>[0];
      size := 0;
    }

    /** Dictionaries may be created with storage for an expected number of entries. */
    constructor WithCapacity(hasher: Hasher, expectedCapacity: nat)
      requires ValidHasher(hasher)
      ensures Valid() && variant == Ordinary && this.hasher == hasher && fresh(storage)
      ensures storage.Length == expectedCapacity * 130 / 100
      ensures forall k, v :: !Holds(hasher, storage[..], k, v)
    {
      var requiredStorageCapacity := expectedCapacity * 130 / 100;
      variant, this.hasher := Ordinary, hasher;
      storage := new Option<Entry>[requiredStorageCapacity](i => None);
      size := 0;
      new;
      assert storage[..] == Empty(requiredStorageCapacity);
      EmptyOccupied(requiredStorageCapacity);
    }

    /** The first slot in circular order that is free or has an equal key, or -1. */
    method ScanFor(key: Tuple) returns (index: int)
      ensures index < 0 ==> forall i :: 0 <= i < storage.Length ==> !Stops(hasher, storage[..], key, i)
      ensures index >= 0 ==> IsScan(hasher, storage[..], key, index)
    {
      var capacity := storage.Length;
      if capacity == 0 { return -1; }
      var hashIndex := hasher.hash(key) % capacity;
      for i := hashIndex to capacity
        invariant forall j :: hashIndex <= j < i ==> !Stops(hasher, storage[..], key, j)
      {
        if storage[i].None? || hasher.equals(key, storage[i].value.key) { return i; }
      }
      for i := 0 to hashIndex
        invariant forall j :: hashIndex <= j < capacity ==> !Stops(hasher, storage[..], key, j)
        invariant forall j :: 0 <= j < i ==> !Stops(hasher, storage[..], key, j)
      {
        if storage[i].None? || hasher.equals(key, storage[i].value.key) { return i; }
      }
      return -1;
    }

    /** With a free slot, a scan always succeeds. */
    lemma ScanSucceeds(key: Tuple)
      requires Occupied(storage[..]) < storage.Length
      ensures exists i :: 0 <= i < storage.Length && Stops(hasher, storage[..], key, i)
    {
      var i := FreeSlot(storage[..]);
      assert Stops(hasher, storage[..], key, i);
    }

    /** The live value last put under an equal key, if any. */
    method Find(key: Tuple) returns (found: Option<Tuple>)
      requires Valid()
      ensures forall v :: found == Some(v) <==> Bound(variant, hasher, storage[..], key, v)
    {
      hide ValidHasher, WellPlaced, Occupied, Holds;
      var index := ScanFor(key);
      if index < 0 {
        NothingHeld(key);
        return None;
      }
      forall v ensures Holds(hasher, storage[..], key, v) <==> storage[index].Some? && storage[index].value.value == v {
        ScanFinds(hasher, storage[..], key, index, v);
      }
      if storage[index].None? || (variant.WeakValue? && storage[index].value.value == Tombstone) { return None; }
      found := Some(storage[index].value.value);
    }

    lemma NothingHeld(key: Tuple)
      requires forall i :: 0 <= i < storage.Length ==> !Stops(hasher, storage[..], key, i)
      ensures forall v :: !Holds(hasher, storage[..], key, v)
    {
      forall v ensures !Holds(hasher, storage[..], key, v) {
        if Holds(hasher, storage[..], key, v) {
          var i: nat :| HoldsAt(hasher, storage[..], key, v, i);
          assert Stops(hasher, storage[..], key, i);
        }
      }
    }

    // Growth.

    /** Stores an association whose key is not present; a slot is free. */
    method InsertNoCheck(entry: Entry)
      requires ValidHasher(hasher) && WellPlaced(hasher, storage[..]) && Occupied(storage[..]) < storage.Length
      requires forall v :: !Holds(hasher, storage[..], entry.key, v)
      modifies storage
      ensures WellPlaced(hasher, storage[..]) && Occupied(storage[..]) == old(Occupied(storage[..])) + 1
      ensures forall k, v :: Holds(hasher, storage[..], k, v) <==>
                if hasher.equals(entry.key, k) then v == entry.value else Holds(hasher, old(storage[..]), k, v)
    {
      hide ValidHasher, WellPlaced, Occupied;
      var elementIndex := ScanFor(entry.key);
      ScanSucceeds(entry.key);
      assert elementIndex >= 0;
      ghost var before := storage[..];
      assert before[elementIndex].None? by {
        if before[elementIndex].Some? {
          assert HoldsAt(hasher, before, entry.key, before[elementIndex].value.value, elementIndex);
        }
        assert before[elementIndex].Some? ==> Holds(hasher, before, entry.key, before[elementIndex].value.value);
      }
      PutPlaces(hasher, before, entry.key, entry.value, elementIndex);
      OccupiedUpdate(before, elementIndex, entry);
      forall k, v ensures Holds(hasher, Put(before, entry.key, entry.value, elementIndex), k, v) <==>
                          if hasher.equals(entry.key, k) then v == entry.value else Holds(hasher, before, k, v) {
        PutHolds(hasher, before, entry.key, entry.value, elementIndex, k, v);
      }
      storage[elementIndex] := Some(entry);
      assert storage[..] == Put(before, entry.key, entry.value, elementIndex);
    }

    /** Doubles the storage, to at least eight slots, and moves every live association to its new place. */
    method IncreaseCapacity()
      requires ValidHasher(hasher) && Placed()
      modifies this`storage, this`size
      ensures Placed() && fresh(storage)
      ensures storage.Length == if old(storage.Length) < 4 then 8 else 2 * old(storage.Length)
      ensures size <= old(size) && (!variant.WeakValue? ==> size == old(size))
      ensures forall k, v :: Holds(hasher, storage[..], k, v) <==> Bound(variant, hasher, old(storage[..]), k, v)
    {
      hide ValidHasher;
      var oldStorage := storage;
      ghost var before := storage[..];
      var oldCapacity := oldStorage.Length;
      var newCapacity := oldCapacity * 2;
      if newCapacity < 8 { newCapacity := 8; }
      var newSize := 0;
      storage := new Option<Entry>[newCapacity](i => None);
      assert storage[..] == Empty(newCapacity);
      assert WellPlaced(hasher, Empty(newCapacity)) && Occupied(Empty(newCapacity)) == 0 && Occupied(before[..0]) == 0
             && (forall k, v :: !Holds(hasher, Empty(newCapacity), k, v) && !HoldsBefore(hasher, before, 0, k, v)) by {
        EmptyOccupied(newCapacity);
      }
      for i := 0 to oldCapacity
        invariant fresh(storage) && storage.Length == newCapacity && oldStorage[..] == before && size == old(size)
        invariant Rehashing(before, i, storage[..], newSize)
      {
        newSize := Reinsert(oldStorage[i], before, i, newSize);
      }
      assert newSize == Occupied(storage[..]) <= Occupied(before) && WellPlaced(hasher, storage[..])
             && (!variant.WeakValue? ==> newSize == Occupied(before))
             && (forall k, v :: Holds(hasher, storage[..], k, v) <==> Bound(variant, hasher, before, k, v)) by {
        assert before[..|before|] == before;
        forall k, v ensures HoldsBefore(hasher, before, |before|, k, v) <==> Holds(hasher, before, k, v) {
          HoldsBeforeAll(hasher, before, k, v);
        }
      }
      if !variant.Identity? { size := newSize; }
    }

    /** The first n old slots have been moved: the live ones are held, and nothing else. */
    ghost predicate Rehashing(before: Slots, n: nat, slots: Slots, newSize: nat)
    {
      && n <= |before| && newSize == Occupied(slots) <= Occupied(before[..n])
      && WellPlaced(hasher, slots)
      && (!variant.WeakValue? ==> newSize == Occupied(before[..n]))
      && (forall k, v :: Holds(hasher, slots, k, v) <==> HoldsBefore(hasher, before, n, k, v) && Live(variant, v))
    }

    method Reinsert(slot: Option<Entry>, ghost before: Slots, ghost i: nat, newSize: nat) returns (size': nat)
      requires ValidHasher(hasher) && WellPlaced(hasher, before) && i < |before| && slot == before[i]
      requires Rehashing(before, i, storage[..], newSize) && |before| < storage.Length
      modifies storage
      ensures Rehashing(before, i + 1, storage[..], size')
    {
      hide ValidHasher, WellPlaced, Holds, HoldsBefore;
      size' := newSize;
      assert Occupied(before[..i + 1]) == Occupied(before[..i]) + if before[i].Some? then 1 else 0 by {
        assert before[..i + 1][..i] == before[..i];
      }
      HoldsNext(hasher, before, i);
      assert Occupied(before[..i]) <= i;
      if slot.Some? && !(variant.WeakValue? && slot.value.value == Tombstone) {
        NotYetHeld(hasher, before, i);
        InsertNoCheck(slot.value);
        size' := size' + 1;
      }
      HeldNext(before, i, old(storage[..]), storage[..]);
    }

    /** Moving one slot, or leaving it out when it is free or its value is dead. */
    lemma HeldNext(before: Slots, i: nat, slots: Slots, slots': Slots)
      requires ValidHasher(hasher) && WellPlaced(hasher, before) && i < |before|
      requires forall k, v :: Holds(hasher, slots, k, v) <==> HoldsBefore(hasher, before, i, k, v) && Live(variant, v)
      requires if before[i].Some? && !(variant.WeakValue? && before[i].value.value == Tombstone)
               then forall k, v :: Holds(hasher, slots', k, v) <==>
                      if hasher.equals(before[i].value.key, k) then v == before[i].value.value
                        else Holds(hasher, slots, k, v)
               else slots' == slots
      ensures forall k, v ::
                Holds(hasher, slots', k, v) <==> HoldsBefore(hasher, before, i + 1, k, v) && Live(variant, v)
    {
      hide ValidHasher, WellPlaced, Holds, HoldsBefore;
      HoldsNext(hasher, before, i);
      if before[i].Some? { NotYetHeld(hasher, before, i); }
      hide HoldsAt;
      if before[i].None? {
        assert forall k, v :: !HoldsAt(hasher, before, k, v, i);
      }
      forall k, v ensures Holds(hasher, slots', k, v)
        <==> HoldsBefore(hasher, before, i + 1, k, v) && Live(variant, v) {
        assert Holds(hasher, slots, k, v) <==> HoldsBefore(hasher, before, i, k, v) && Live(variant, v);
      }
    }

    // Putting.

    /** Binds a key; the dictionary grows when it gets too full, and never runs out of slots. */
    method AtPut(key: Tuple, value: Tuple)
      requires Valid()
      modifies this`storage, this`size, storage
      ensures Valid() && (storage == old(storage) || fresh(storage))
      ensures forall k, v :: Bound(variant, hasher, storage[..], k, v) <==>
                if hasher.equals(key, k) then v == value && Live(variant, v)
                  else Bound(variant, hasher, old(storage[..]), k, v)
      ensures size > 0 ==> size < storage.Length * 4 / 5
    {
      hide ValidHasher, WellPlaced, Occupied, Holds;
      var elementIndex := SlotFor(key);
      ghost var before := storage[..];
      PutPlaces(hasher, before, key, value, elementIndex);
      forall k, v ensures Holds(hasher, Put(before, key, value, elementIndex), k, v) <==>
                          if hasher.equals(key, k) then v == value else Holds(hasher, before, k, v) {
        PutHolds(hasher, before, key, value, elementIndex, k, v);
      }
      OccupiedUpdate(before, elementIndex, Put(before, key, value, elementIndex)[elementIndex].value);
      if storage[elementIndex].Some? {
        assert Occupied(before) > 0 by {
          OccupiedUpdate(before[elementIndex := None], elementIndex, before[elementIndex].value);
          assert before[elementIndex := None][elementIndex := before[elementIndex]] == before;
        }
        storage[elementIndex] := Some(storage[elementIndex].value.(value := value));
        assert storage[..] == Put(before, key, value, elementIndex);
      } else {
        storage[elementIndex] := Some(Entry(key, value));
        assert storage[..] == Put(before, key, value, elementIndex);
        CountInsertion();
      }
    }

    /** A slot for the key, after growing an empty storage; the scan cannot fail twice. */
    method SlotFor(key: Tuple) returns (elementIndex: nat)
      requires Valid()
      modifies this`storage, this`size
      ensures ValidHasher(hasher) && Placed() && Sparse(size, storage.Length) && storage.Length > 0
      ensures IsScan(hasher, storage[..], key, elementIndex)
      ensures storage == old(storage) || fresh(storage)
      ensures forall k, v ::
                Bound(variant, hasher, storage[..], k, v) <==> Bound(variant, hasher, old(storage[..]), k, v)
    {
      hide ValidHasher, WellPlaced, Occupied, Holds;
      var index := ScanFor(key);
      if index < 0 {
        if storage.Length > 0 {
          assert size < storage.Length;
          ScanSucceeds(key);
        }
        IncreaseCapacity();
        index := ScanFor(key);
        assert size < storage.Length;
        ScanSucceeds(key);
        assert index >= 0;
      }
      elementIndex := index;
    }

    /** Counts a new entry, and grows at an occupancy of four fifths. */
    method CountInsertion()
      requires ValidHasher(hasher) && WellPlaced(hasher, storage[..]) && Occupied(storage[..]) == size + 1
      requires Sparse(size, storage.Length)
      modifies this`storage, this`size
      ensures Valid() && (storage == old(storage) || fresh(storage))
      ensures size > 0 ==> size < storage.Length * 4 / 5
      ensures forall k, v ::
                Bound(variant, hasher, storage[..], k, v) <==> Bound(variant, hasher, old(storage[..]), k, v)
    {
      hide ValidHasher, WellPlaced, Occupied, Holds;
      size := size + 1;
      var capacityThreshold := storage.Length * 4 / 5;
      if size >= capacityThreshold { IncreaseCapacity(); }
    }

    /**
     Adding an association binds a new key.  With an equal key present, the identity dictionary replaces the association
     and the ordinary one keeps it.
     */
    method Add(association: Entry)
      requires Valid() && !variant.WeakValue?
      modifies this`storage, this`size, storage
      ensures Valid() && (storage == old(storage) || fresh(storage))
      ensures var present := exists v :: Holds(hasher, old(storage[..]), association.key, v);
              forall k, v :: Holds(hasher, storage[..], k, v) <==>
                if hasher.equals(association.key, k) && (variant.Identity? || !present) then v == association.value
                else Holds(hasher, old(storage[..]), k, v)
    {
      hide ValidHasher, WellPlaced, Occupied, Holds;
      var found := Find(association.key);
      assert found.Some? ==> Holds(hasher, storage[..], association.key, found.value);
      forall v ensures Bound(variant, hasher, storage[..], association.key, v)
        <==> Holds(hasher, storage[..], association.key, v) {}
      assert found.None? ==> forall v :: !Holds(hasher, storage[..], association.key, v);
      AllBoundLive(storage[..]);
      if found.None? || variant.Identity? { AtPut(association.key, association.value); }
      AllBoundLive(storage[..]);
    }

    lemma AllBoundLive(slots: Slots)
      requires !variant.WeakValue?
      ensures forall k, v :: Bound(variant, hasher, slots, k, v) <==> Holds(hasher, slots, k, v)
    {
    }

    /** The collector buries the value of one association. */
    method Bury(i: nat)
      requires Valid() && variant.WeakValue? && i < storage.Length && storage[i].Some?
      modifies storage
      ensures Valid()
      ensures forall k, v :: Bound(variant, hasher, storage[..], k, v) <==>
                Bound(variant, hasher, old(storage[..]), k, v) && !hasher.equals(k, old(storage[i].value.key))
    {
      hide Occupied;
      ghost var before := storage[..];
      OverwritePlaces(hasher, before, Tombstone, i);
      OccupiedUpdate(before, i, before[i].value.(value := Tombstone));
      storage[i] := Some(storage[i].value.(value := Tombstone));
      assert storage[..] == before[i := Some(before[i].value.(value := Tombstone))];
      forall k, v ensures Bound(variant, hasher, storage[..], k, v) <==>
                          Bound(variant, hasher, before, k, v) && !hasher.equals(k, before[i].value.key) {
        var after := before[i := Some(before[i].value.(value := Tombstone))];
        if v != Tombstone {
          if Holds(hasher, after, k, v) {
            var j: nat :| HoldsAt(hasher, after, k, v, j);
            assert HoldsAt(hasher, before, k, v, j);
            assert !SameKeyAt(hasher, before, i, j);
            DifferentKeys(hasher, k, before[i].value.key, before[j].value.key);
          }
          if Holds(hasher, before, k, v) && !hasher.equals(k, before[i].value.key) {
            var j: nat :| HoldsAt(hasher, before, k, v, j);
            assert HoldsAt(hasher, after, k, v, j);
          }
        }
      }
    }
  }

  lemma DifferentKeys(h: Hasher, k: Tuple, a: Tuple, b: Tuple)
    requires ValidHasher(h) && h.equals(k, b) && !h.equals(a, b)
    ensures !h.equals(k, a)
  {
    assert h.equals(k, a) ==> h.equals(a, k);
  }
}
