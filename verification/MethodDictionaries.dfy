/** The method dictionary: keys and values interleaved in one array, with a marker for empty keys. */
module MethodDictionaries {
  import opened ObjectMemory
  import opened Probing

  const EMPTY_ELEMENT := Immediate(0x3F)       // the trivial immediate that marks empty hash table slots

  function IdentityHasher(hash: Tuple -> nat): Hasher {
    Hasher(hash, (a, b) => a == b)
  }

  function SlotOf(key: Tuple, value: Tuple): Option<Entry> {
    if key == EMPTY_ELEMENT then None else Some(Entry(key, value))
  }

  /** The table that an interleaved array stands for. */
  function TableOf(elements: seq<Tuple>): (slots: Slots)
    ensures |slots| == |elements| / 2
    ensures forall i :: 0 <= i < |slots| ==> slots[i] == SlotOf(elements[2 * i], elements[2 * i + 1])
  {
    seq(|elements| / 2, i requires 0 <= i < |elements| / 2 => SlotOf(elements[2 * i], elements[2 * i + 1]))
  }

  /** At most three quarters of the slots are occupied. */
  predicate Sparse(size: nat, capacity: nat) {
    size == 0 || size < capacity * 3 / 4
  }

  class MethodDictionary {
    const hash: Tuple -> nat
    var storage: array<Tuple>
    var size: nat

    function H(): Hasher { IdentityHasher(hash) }

    ghost function Table(): Slots
      reads this, storage
    {
      TableOf(storage[..])
    }

    ghost predicate Placed()
      reads this, storage
    {
      WellPlaced(H(), Table()) && size == Occupied(Table())
    }

    ghost predicate Valid()
      reads this, storage
    {
      Placed() && Sparse(size, storage.Length / 2)
    }

    constructor (hash: Tuple -> nat)
      ensures Valid() && this.hash == hash && fresh(storage) && storage.Length == 0
    {
      this.hash := hash;
      storage := new Tuple[0];
      size := 0;
    }

    /** Storage for an expected number of entries, all marked empty. */
    constructor WithCapacity(hash: Tuple -> nat, initialCapacity: nat)
      ensures Valid() && this.hash == hash && fresh(storage)
      ensures forall k, v :: !Holds(H(), Table(), k, v)
    {
      var entryCount := initialCapacity * 130 / 100 * 2;
      this.hash := hash;
      storage := new Tuple[entryCount](i => EMPTY_ELEMENT);
      size := 0;
      new;
      assert Table() == Empty(entryCount / 2);
      EmptyOccupied(entryCount / 2);
    }

    method ScanFor(element: Tuple) returns (index: int)
      ensures index < 0 ==> forall i :: 0 <= i < |Table()| ==> !Stops(H(), Table(), element, i)
      ensures index >= 0 ==> IsScan(H(), Table(), element, index)
    {
      var capacity := storage.Length / 2;
      if capacity == 0 { return -1; }
      var hashIndex := hash(element) % capacity;
      for i := hashIndex to capacity
        invariant forall j :: hashIndex <= j < i ==> !Stops(H(), Table(), element, j)
      {
        var dictionaryKey := storage[i * 2];
        if dictionaryKey == EMPTY_ELEMENT || element == dictionaryKey { return i; }
      }
      for i := 0 to hashIndex
        invariant forall j :: hashIndex <= j < capacity ==> !Stops(H(), Table(), element, j)
        invariant forall j :: 0 <= j < i ==> !Stops(H(), Table(), element, j)
      {
        var dictionaryKey := storage[i * 2];
        if dictionaryKey == EMPTY_ELEMENT || element == dictionaryKey { return i; }
      }
      return -1;
    }

    lemma ScanSucceeds(element: Tuple)
      requires Occupied(Table()) < |Table()|
      ensures exists i :: 0 <= i < |Table()| && Stops(H(), Table(), element, i)
    {
      var i := FreeSlot(Table());
      assert Stops(H(), Table(), element, i);
    }

    lemma IdentityValid()
      ensures ValidHasher(H())
    {
    }

    method Find(element: Tuple) returns (found: Option<Tuple>)
      requires Valid()
      ensures forall v :: found == Some(v) <==> Holds(H(), Table(), element, v)
    {
      IdentityValid();
      hide ValidHasher, WellPlaced, Occupied, Holds, IdentityHasher;
      var index := ScanFor(element);
      if index < 0 {
        NothingHeld(element);
        return None;
      }
      forall v ensures Holds(H(), Table(), element, v) <==> Table()[index].Some? && Table()[index].value.value == v {
        ScanFinds(H(), Table(), element, index, v);
      }
      if storage[index * 2] == EMPTY_ELEMENT { return None; }
      found := Some(storage[index * 2 + 1]);
    }

    lemma NothingHeld(element: Tuple)
      requires forall i :: 0 <= i < |Table()| ==> !Stops(H(), Table(), element, i)
      ensures forall v :: !Holds(H(), Table(), element, v)
    {
      forall v ensures !Holds(H(), Table(), element, v) {
        if Holds(H(), Table(), element, v) {
          var i: nat :| HoldsAt(H(), Table(), element, v, i);
          assert Stops(H(), Table(), element, i);
        }
      }
    }

    /** Writes a key and a value to a slot that a scan found. */
    method Store(index: nat, key: Tuple, value: Tuple)
      requires IsScan(H(), Table(), key, index) && WellPlaced(H(), Table()) && key != EMPTY_ELEMENT
      modifies storage
      ensures Table() == Put(old(Table()), key, value, index)
      ensures WellPlaced(H(), Table())
      ensures Occupied(Table()) == old(Occupied(Table())) + if old(Table()[index]).None? then 1 else 0
      ensures forall k, v ::
                Holds(H(), Table(), k, v) <==> if key == k then v == value else Holds(H(), old(Table()), k, v)
    {
      IdentityValid();
      ghost var before := Table();
      assert before[index].Some? ==> before[index].value.key == key;
      storage[index * 2] := key;
      storage[index * 2 + 1] := value;
      assert Table() == Put(before, key, value, index);
      hide ValidHasher, WellPlaced, Occupied, Holds;
      PutPlaces(H(), before, key, value, index);
      OccupiedUpdate(before, index, Entry(key, value));
      forall k, v ensures Holds(H(), Table(), k, v) <==> if key == k then v == value else Holds(H(), before, k, v) {
        PutHolds(H(), before, key, value, index, k, v);
      }
    }

    /** Storage whose keys are all marked empty. */
    static method EmptyStorage(capacity: nat) returns (elements: array<Tuple>)
      ensures fresh(elements) && elements.Length == 2 * capacity && TableOf(elements[..]) == Empty(capacity)
    {
      elements := new Tuple[2 * capacity](i => Null);
      for i := 0 to capacity
        invariant forall j :: 0 <= j < i ==> elements[2 * j] == EMPTY_ELEMENT
      {
        elements[2 * i] := EMPTY_ELEMENT;
      }
      forall j | 0 <= j < capacity ensures TableOf(elements[..])[j] == None { assert elements[2 * j] == EMPTY_ELEMENT; }
    }

    /** Doubles the storage, to at least eight entries, and moves every entry to its new place. */
    method IncreaseCapacity()
      requires Placed()
      modifies this`storage
      ensures Placed() && fresh(storage)
      ensures storage.Length / 2 == if old(storage.Length / 2) < 4 then 8 else 2 * old(storage.Length / 2)
      ensures forall k, v :: Holds(H(), Table(), k, v) <==> Holds(H(), old(Table()), k, v)
    {
      hide WellPlaced, Occupied, Holds, Rehashing, IdentityHasher;
      var oldStorage := storage;
      ghost var before := Table();
      var oldCapacity := oldStorage.Length / 2;
      var newCapacity := oldCapacity * 2;
      if newCapacity < 8 { newCapacity := 8; }
      storage := EmptyStorage(newCapacity);
      RehashStarts(before, newCapacity);
      for i := 0 to oldCapacity
        modifies storage
        invariant oldStorage.Length == old(storage.Length) && TableOf(oldStorage[..]) == before
        invariant |Table()| == newCapacity && Rehashing(before, i, Table())
      {
        var key, value := oldStorage[i * 2], oldStorage[i * 2 + 1];
        assert before[i] == SlotOf(key, value);
        Reinsert(key, value, before, i);
      }
      RehashEnds(before, Table());
    }

    /** The first n old entries have been moved. */
    ghost predicate Rehashing(before: Slots, n: nat, slots: Slots) {
      && n <= |before| && WellPlaced(H(), slots) && Occupied(slots) == Occupied(before[..n])
      && (forall k, v :: Holds(H(), slots, k, v) <==> HoldsBefore(H(), before, n, k, v))
    }

    method Reinsert(key: Tuple, value: Tuple, ghost before: Slots, ghost i: nat)
      requires WellPlaced(H(), before) && i < |before| && before[i] == SlotOf(key, value)
      requires Rehashing(before, i, Table()) && |before| < |Table()|
      modifies storage
      ensures |Table()| == old(|Table()|) && Rehashing(before, i + 1, Table())
    {
      hide WellPlaced, HoldsBefore, IdentityHasher;
      ghost var slots := Table();
      assert Occupied(before[..i + 1]) == Occupied(before[..i]) + if before[i].Some? then 1 else 0 by {
        assert before[..i + 1][..i] == before[..i];
      }
      assert Occupied(before[..i]) <= i;
      if key != EMPTY_ELEMENT {
        var elementIndex := ScanFor(key);
        ScanSucceeds(key);
        assert elementIndex >= 0;
        assert slots[elementIndex].None? by {
          hide WellPlaced, HoldsBefore;
          IdentityValid();
          NotYetHeld(H(), before, i);
          assert slots[elementIndex].None? by {
            if slots[elementIndex].Some? {
              assert HoldsAt(H(), slots, before[i].value.key, slots[elementIndex].value.value, elementIndex);
            }
            assert slots[elementIndex].Some? ==>
                     Holds(H(), slots, before[i].value.key, slots[elementIndex].value.value);
          }
        }
        Store(elementIndex, key, value);
      }
      HeldNext(before, i, slots, Table());
    }

    lemma RehashStarts(before: Slots, capacity: nat)
      ensures Rehashing(before, 0, Empty(capacity))
    {
      EmptyOccupied(capacity);
    }

    /** Moving one entry, or skipping an empty one. */
    lemma HeldNext(before: Slots, i: nat, slots: Slots, slots': Slots)
      requires WellPlaced(H(), before) && i < |before|
      requires forall k, v :: Holds(H(), slots, k, v) <==> HoldsBefore(H(), before, i, k, v)
      requires if before[i].Some?
               then forall k, v :: Holds(H(), slots', k, v) <==>
                      if before[i].value.key == k then v == before[i].value.value else Holds(H(), slots, k, v)
               else slots' == slots
      ensures forall k, v :: Holds(H(), slots', k, v) <==> HoldsBefore(H(), before, i + 1, k, v)
    {
      hide WellPlaced, Holds, HoldsBefore;
      IdentityValid();
      HoldsNext(H(), before, i);
      if before[i].Some? { NotYetHeld(H(), before, i); }
      hide HoldsAt;
      if before[i].None? {
        assert forall k, v :: !HoldsAt(H(), before, k, v, i);
      }
      forall k, v ensures Holds(H(), slots', k, v) <==> HoldsBefore(H(), before, i + 1, k, v) {
        assert Holds(H(), slots, k, v) <==> HoldsBefore(H(), before, i, k, v);
      }
    }

    lemma RehashEnds(before: Slots, slots: Slots)
      requires Rehashing(before, |before|, slots)
      ensures WellPlaced(H(), slots) && Occupied(slots) == Occupied(before)
      ensures forall k, v :: Holds(H(), slots, k, v) <==> Holds(H(), before, k, v)
    {
      hide WellPlaced, Occupied;
      assert before[..|before|] == before;
      forall k, v ensures Holds(H(), slots, k, v) <==> Holds(H(), before, k, v) { HoldsBeforeAll(H(), before, k, v); }
    }

    /** Binds a key other than the marker; the marker is ignored. */
    method AtPut(key: Tuple, value: Tuple)
      requires Valid()
      modifies this`storage, this`size, storage
      ensures Valid() && (storage == old(storage) || fresh(storage))
      ensures forall k, v :: Holds(H(), Table(), k, v) <==>
                if key == k && key != EMPTY_ELEMENT then v == value else Holds(H(), old(Table()), k, v)
      ensures size > 0 ==> size < storage.Length / 2 * 3 / 4
    {
      hide WellPlaced, Occupied, Holds, IdentityHasher, Put;
      if key == EMPTY_ELEMENT { return; }
      var elementIndex := SlotFor(key);
      ghost var before := Table();
      var isNewElement := storage[elementIndex * 2] == EMPTY_ELEMENT;
      Store(elementIndex, key, value);
      if isNewElement {
        CountInsertion();
      } else {
        assert Occupied(before) > 0 by {
          OccupiedUpdate(before[elementIndex := None], elementIndex, before[elementIndex].value);
          assert before[elementIndex := None][elementIndex := before[elementIndex]] == before;
        }
      }
    }

    /** Counts a new element and grows beyond three quarters of the capacity. */
    method CountInsertion()
      requires WellPlaced(H(), Table()) && size + 1 == Occupied(Table()) && Sparse(size, storage.Length / 2)
      modifies this`storage, this`size
      ensures Valid() && (storage == old(storage) || fresh(storage))
      ensures size > 0 ==> size < storage.Length / 2 * 3 / 4
      ensures forall k, v :: Holds(H(), Table(), k, v) <==> Holds(H(), old(Table()), k, v)
    {
      hide WellPlaced, Occupied, Holds, IdentityHasher;
      size := size + 1;
      var capacityThreshold := storage.Length / 2 * 3 / 4;
      if size >= capacityThreshold { IncreaseCapacity(); }
    }

    method SlotFor(key: Tuple) returns (elementIndex: nat)
      requires Valid() && key != EMPTY_ELEMENT
      modifies this`storage
      ensures Placed() && Sparse(size, storage.Length / 2) && storage.Length / 2 > 0
      ensures IsScan(H(), Table(), key, elementIndex)
      ensures storage == old(storage) || fresh(storage)
      ensures forall k, v :: Holds(H(), Table(), k, v) <==> Holds(H(), old(Table()), k, v)
    {
      hide WellPlaced, Occupied, Holds;
      var index := ScanFor(key);
      if index < 0 {
        if storage.Length / 2 > 0 { ScanSucceeds(key); }
        IncreaseCapacity();
        index := ScanFor(key);
        ScanSucceeds(key);
        assert index >= 0;
      }
      elementIndex := index;
    }
  }
}
