/** Tuples, the object memory and the environment that answers allocations and calls. */
module Values {

  datatype Option<+T> = None | Some(value: T)

  /** A result, or the error the original raises. */
  datatype Attempt<+T> = Success(value: T) | Failure(message: string) {
    predicate IsFailure() { Failure? }
    function PropagateFailure<U>(): Attempt<U> requires Failure? { Failure(message) }
    function Extract(): T requires Success? { value }
  }

  type Byte = b: int | 0 <= b < 256

  type Address = nat

  /** A tuple value: immediates, plain object pointers and the two pointer-like values of the VM. */
  datatype Value =
    | Null
    | Void
    | Boolean(isTrue: bool)
    | Atom(id: nat)
    | TypeSlot(index: nat)
    | Object(address: Address)
    | Box(address: Address, pointerType: Value)    // a pointer whose storage is a value box
    | SlotReference(base: Value, slot: Value)      // a pointer made from a tuple and a type slot

  /** Slots of every allocated object; a value box is an object with a single slot. */
  type Heap = map<Address, seq<Value>>

  /** Every address a value mentions. */
  function Addresses(v: Value): set<Address> {
    match v
    case Object(a) => {a}
    case Box(a, t) => {a} + Addresses(t)
    case SlotReference(b, s) => Addresses(b) + Addresses(s)
    case _ => {}
  }

  ghost predicate Avoids(hidden: set<Address>, v: Value) {
    Addresses(v) !! hidden
  }

  ghost predicate AllAvoid(hidden: set<Address>, vs: seq<Value>) {
    forall i :: 0 <= i < |vs| ==> Avoids(hidden, vs[i])
  }

  ghost predicate Closed(heap: Heap, v: Value) {
    Addresses(v) <= heap.Keys
  }

  ghost predicate AllClosed(heap: Heap, vs: seq<Value>) {
    forall i :: 0 <= i < |vs| ==> Closed(heap, vs[i])
  }

  ghost predicate HeapClosed(heap: Heap) {
    forall a :: a in heap ==> AllClosed(heap, heap[a])
  }

  /** What the environment answers: the address malloc returned, or what a callee did. */
  datatype Answer = Placed(address: Address) | Replied(value: Value, heap: Heap) | Raised

  type Tape = seq<Answer>
}
