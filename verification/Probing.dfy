/** Open addressing with circular probing: when scanning finds what was put. */
module Probing {
  import opened ObjectMemory

  datatype Option<+T> = None | Some(value: T)

  /** An association of the VM. */
  datatype Entry = Entry(key: Tuple, value: Tuple)

  type Slots = seq<Option<Entry>>

  datatype Hasher = Hasher(hash: Tuple -> nat, equals: (Tuple, Tuple) -> bool)

  /** Equality of keys is an equivalence, and equal keys hash alike. */
  ghost predicate ValidHasher(h: Hasher) {
    && (forall a :: h.equals(a, a))
    && (forall a, b :: h.equals(a, b) ==> h.equals(b, a) && h.hash(a) == h.hash(b))
    && (forall a, b, c :: h.equals(a, b) && h.equals(b, c) ==> h.equals(a, c))
  }

  /** The steps a circular scan takes from `start` to `i`. */
  function Distance(start: nat, i: nat, capacity: nat): int {
    if i >= start then i - start else i + capacity - start
  }

  function Home(h: Hasher, key: Tuple, capacity: nat): (home: nat)
    requires capacity > 0
    ensures home < capacity
  {
    h.hash(key) % capacity
  }

  /** A scan for a key stops at free slots and at an equal key. */
  predicate Stops(h: Hasher, slots: Slots, key: Tuple, i: nat)
    requires i < |slots|
  {
    slots[i].None? || h.equals(key, slots[i].value.key)
  }

  /** The result of a scan: the first slot in circular order where it stops. */
  ghost predicate IsScan(h: Hasher, slots: Slots, key: Tuple, i: nat) {
    && i < |slots| && Stops(h, slots, key, i)
    && var home := Home(h, key, |slots|);
       forall j :: 0 <= j < |slots| && Distance(home, j, |slots|) < Distance(home, i, |slots|) ==>
           !Stops(h, slots, key, j)
  }

  /** No gap between where an entry belongs and where it is. */
  ghost predicate GapFree(h: Hasher, slots: Slots, i: nat)
    requires i < |slots| && slots[i].Some?
  {
    var home := Home(h, slots[i].value.key, |slots|);
    forall j :: 0 <= j < |slots| && Distance(home, j, |slots|) < Distance(home, i, |slots|) ==> slots[j].Some?
  }

  predicate SameKeyAt(h: Hasher, slots: Slots, i: nat, j: nat)
    requires i < |slots| && j < |slots|
  {
    slots[i].Some? && slots[j].Some? && h.equals(slots[i].value.key, slots[j].value.key)
  }

  ghost predicate KeysDistinct(h: Hasher, slots: Slots) {
    forall i, j :: 0 <= i < |slots| && 0 <= j < |slots| && SameKeyAt(h, slots, i, j) ==> i == j
  }

  ghost predicate WellPlaced(h: Hasher, slots: Slots) {
    && KeysDistinct(h, slots)
    && forall i :: 0 <= i < |slots| && slots[i].Some? ==> GapFree(h, slots, i)
  }

  /** Some slot associates an equal key with the value. */
  ghost predicate Holds(h: Hasher, slots: Slots, key: Tuple, value: Tuple) {
    exists i: nat :: HoldsAt(h, slots, key, value, i)
  }

  ghost predicate HoldsAt(h: Hasher, slots: Slots, key: Tuple, value: Tuple, i: nat) {
    i < |slots| && slots[i].Some? && h.equals(key, slots[i].value.key) && slots[i].value.value == value
  }

  /** A scan that ends at a free slot proves that no equal key is present. */
  lemma FreeMeansAbsent(h: Hasher, slots: Slots, key: Tuple, i: nat, j: nat)
    requires ValidHasher(h) && WellPlaced(h, slots) && IsScan(h, slots, key, i) && slots[i].None?
    requires j < |slots| && slots[j].Some?
    ensures !h.equals(key, slots[j].value.key)
  {
    if h.equals(key, slots[j].value.key) {
      var home := Home(h, key, |slots|);
      assert home == Home(h, slots[j].value.key, |slots|);
      assert GapFree(h, slots, j);
      DistanceInjective(home, i, j, |slots|);
      assert Stops(h, slots, key, j);
    }
  }

  lemma DistanceInjective(start: nat, i: nat, j: nat, capacity: nat)
    requires start < capacity && i < capacity && j < capacity
    ensures Distance(start, i, capacity) == Distance(start, j, capacity) <==> i == j
    ensures 0 <= Distance(start, i, capacity) < capacity
  {
  }

  /** Scanning is exact: the slot it stops at holds the value of the key, or the key has none. */
  lemma ScanFinds(h: Hasher, slots: Slots, key: Tuple, i: nat, value: Tuple)
    requires ValidHasher(h) && WellPlaced(h, slots) && IsScan(h, slots, key, i)
    ensures Holds(h, slots, key, value) <==> slots[i].Some? && slots[i].value.value == value
  {
    hide GapFree, Distance, Home;
    if Holds(h, slots, key, value) {
      var j: nat :| HoldsAt(h, slots, key, value, j);
      if slots[i].None? {
        FreeMeansAbsent(h, slots, key, i, j);
      } else {
        assert h.equals(slots[i].value.key, slots[j].value.key) by {
          assert h.equals(slots[i].value.key, key);
        }
        assert SameKeyAt(h, slots, i, j);
      }
    }
    if slots[i].Some? && slots[i].value.value == value { assert HoldsAt(h, slots, key, value, i); }
  }

  lemma ScanPassed(h: Hasher, slots: Slots, key: Tuple, value: Tuple, i: nat)
    requires IsScan(h, slots, key, i) && slots[i].None?
    ensures GapFree(h, slots[i := Some(Entry(key, value))], i)
  {
    hide Distance, Home;
  }

  /** Overwriting the value of an entry moves nothing. */
  lemma OverwritePlaces(h: Hasher, slots: Slots, value: Tuple, i: nat)
    requires WellPlaced(h, slots) && i < |slots| && slots[i].Some?
    ensures WellPlaced(h, slots[i := Some(slots[i].value.(value := value))])
  {
    hide Distance, Home;
    var after := slots[i := Some(slots[i].value.(value := value))];
    forall j | 0 <= j < |after| && after[j].Some? ensures GapFree(h, after, j) {
      assert GapFree(h, slots, j);
    }
    forall a, b | 0 <= a < |after| && 0 <= b < |after| && SameKeyAt(h, after, a, b) ensures a == b {
      assert SameKeyAt(h, slots, a, b);
    }
  }

  /** What a slot that a scan found holds after the value was put there. */
  function Put(slots: Slots, key: Tuple, value: Tuple, i: nat): Slots
    requires i < |slots|
  {
    slots[i := Some(if slots[i].Some? then slots[i].value.(value := value) else Entry(key, value))]
  }

  lemma PutPlaces(h: Hasher, slots: Slots, key: Tuple, value: Tuple, i: nat)
    requires ValidHasher(h) && WellPlaced(h, slots) && IsScan(h, slots, key, i)
    ensures WellPlaced(h, Put(slots, key, value, i))
  {
    assert i < |slots| && Stops(h, slots, key, i);
    if slots[i].Some? { OverwritePlaces(h, slots, value, i); } else {
      assert WellPlaced(h, slots[i := Some(Entry(key, value))]) by {
        var after := slots[i := Some(Entry(key, value))];
        forall j | 0 <= j < |after| && after[j].Some? ensures GapFree(h, after, j) {
          if j == i { ScanPassed(h, slots, key, value, i); } else { assert GapFree(h, slots, j); }
        }
        assert KeysDistinct(h, slots[i := Some(Entry(key, value))]) by {
          var after := slots[i := Some(Entry(key, value))];
          forall j | 0 <= j < |slots| && j != i && slots[j].Some?
            ensures !h.equals(key, slots[j].value.key) && !h.equals(slots[j].value.key, key)
          {
            FreeMeansAbsent(h, slots, key, i, j);
          }
          assert KeysDistinct(h, slots);
          forall a, b | 0 <= a < |after| && 0 <= b < |after| && SameKeyAt(h, after, a, b) ensures a == b {
            if a != i && b != i { assert SameKeyAt(h, slots, a, b); }
          }
        }
      }
    }
  }

  /** Putting binds the key and its equals, and changes the bindings of no other key. */
  lemma PutHolds(h: Hasher, slots: Slots, key: Tuple, value: Tuple, i: nat, other: Tuple, v: Tuple)
    requires ValidHasher(h) && WellPlaced(h, slots) && IsScan(h, slots, key, i)
    ensures Holds(h, Put(slots, key, value, i), other, v) <==>
            if h.equals(key, other) then v == value else Holds(h, slots, other, v)
  {
    hide GapFree, Distance, Home;
    var after := Put(slots, key, value, i);
    var k := after[i].value.key;
    assert h.equals(key, k);
    if h.equals(key, other) {
      assert h.equals(other, k) by {
        assert h.equals(other, key);
      }
      assert HoldsAt(h, after, other, value, i);
      PutPlaces(h, slots, key, value, i);
      if Holds(h, after, other, v) {
        var j: nat :| HoldsAt(h, after, other, v, j);
        assert h.equals(k, after[j].value.key) by {
          assert h.equals(k, other);
        }
        assert SameKeyAt(h, after, i, j);
      }
    } else {
      assert Holds(h, Put(slots, key, value, i), other, v) <==> Holds(h, slots, other, v) by {
        hide Distance, Home;
        var after := Put(slots, key, value, i);
        var k := after[i].value.key;
        assert h.equals(key, k);
        assert h.equals(other, k) ==> h.equals(k, other);
        assert !h.equals(other, k);
        if Holds(h, after, other, v) {
          var j: nat :| HoldsAt(h, after, other, v, j);
          assert HoldsAt(h, slots, other, v, j);
        }
        if Holds(h, slots, other, v) {
          var j: nat :| HoldsAt(h, slots, other, v, j);
          assert j != i;
          assert HoldsAt(h, after, other, v, j);
        }
      }
    }
  }

  // Occupancy.

  function Occupied(slots: Slots): (n: nat)
    ensures n <= |slots|
  {
    if slots == [] then 0 else Occupied(slots[..|slots| - 1]) + if slots[|slots| - 1].Some? then 1 else 0
  }

  /** A table that is not full has a free slot. */
  lemma {:induction false} FreeSlot(slots: Slots) returns (i: nat)
    requires Occupied(slots) < |slots|
    ensures i < |slots| && slots[i].None?
  {
    var last := |slots| - 1;
    if slots[last].None? { i := last; } else { i := FreeSlot(slots[..last]); }
  }

  lemma {:induction false} OccupiedUpdate(slots: Slots, i: nat, entry: Entry)
    requires i < |slots|
    ensures Occupied(slots[i := Some(entry)]) == Occupied(slots) + if slots[i].None? then 1 else 0
  {
    var last := |slots| - 1;
    var after := slots[i := Some(entry)];
    if i < last {
      assert after[..last] == slots[..last][i := Some(entry)];
      OccupiedUpdate(slots[..last], i, entry);
    } else {
      assert after[..last] == slots[..last];
    }
  }

  function Empty(capacity: nat): (slots: Slots)
    ensures |slots| == capacity && forall i :: 0 <= i < capacity ==> slots[i] == None
  {
    seq(capacity, i => None)
  }

  lemma {:induction false} EmptyOccupied(capacity: nat)
    ensures Occupied(Empty(capacity)) == 0
  {
    if capacity > 0 {
      assert Empty(capacity)[..capacity - 1] == Empty(capacity - 1);
      EmptyOccupied(capacity - 1);
    }
  }

  // Moving associations to another table.

  /** Some slot in front of position n binds the key. */
  ghost predicate HoldsBefore(h: Hasher, slots: Slots, n: nat, key: Tuple, value: Tuple) {
    exists i: nat :: i < n && HoldsAt(h, slots, key, value, i)
  }

  lemma HoldsNext(h: Hasher, before: Slots, i: nat)
    requires i < |before|
    ensures forall k, v :: HoldsBefore(h, before, i + 1, k, v) <==>
              HoldsBefore(h, before, i, k, v) || HoldsAt(h, before, k, v, i)
  {
    hide HoldsAt;
    forall k, v
      ensures HoldsBefore(h, before, i + 1, k, v) <==> HoldsBefore(h, before, i, k, v) || HoldsAt(h, before, k, v, i)
    {
      if HoldsBefore(h, before, i, k, v) {
        var j: nat :| j < i && HoldsAt(h, before, k, v, j);
        assert j < i + 1;
      }
    }
  }

  lemma HoldsBeforeAll(h: Hasher, before: Slots, k: Tuple, v: Tuple)
    ensures HoldsBefore(h, before, |before|, k, v) <==> Holds(h, before, k, v)
  {
    if Holds(h, before, k, v) {
      var j: nat :| HoldsAt(h, before, k, v, j);
      assert j < |before|;
    }
  }

  /** An association that is still to be moved has a key that no moved one has. */
  lemma NotYetHeld(h: Hasher, before: Slots, i: nat)
    requires ValidHasher(h) && WellPlaced(h, before) && i < |before| && before[i].Some?
    ensures forall v :: !HoldsBefore(h, before, i, before[i].value.key, v)
    ensures forall k, v :: h.equals(before[i].value.key, k) ==> !HoldsBefore(h, before, i, k, v)
    ensures forall k, v ::
              HoldsAt(h, before, k, v, i) <==> h.equals(before[i].value.key, k) && v == before[i].value.value
  {
    hide GapFree;
    var key := before[i].value.key;
    assert h.equals(key, key);
    forall k, v | h.equals(key, k) ensures !HoldsBefore(h, before, i, k, v) {
      forall j: nat | j < i ensures !HoldsAt(h, before, k, v, j) { assert !SameKeyAt(h, before, i, j); }
    }
  }
}
