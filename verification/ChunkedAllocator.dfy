/** The chunked allocator: bump allocation in a chain of chunks, and the iterator over the chain. */
module ChunkedAllocator {
  import opened Values

  const CHUNK_HEADER_SIZE := 64
  const WORD_MODULUS := 0x1_0000_0000_0000_0000

  // Rounding up, and the room left in a chunk, in words.

  /** Alignments are powers of two, for which masking the low bits rounds down to a multiple. */
  predicate PowerOfTwo(n: nat) {
    n == 1 || (n > 1 && n % 2 == 0 && PowerOfTwo(n / 2))
  }

  predicate Divides(d: nat, n: int)
    requires d > 0
  {
    n % d == 0
  }

  function AlignedTo(size: nat, alignment: nat): (aligned: nat)
    requires alignment > 0
  {
    (size + alignment - 1) / alignment * alignment
  }

  /** The next multiple of the alignment. */
  lemma AlignedIsNext(size: nat, alignment: nat)
    requires alignment > 0
    ensures size <= AlignedTo(size, alignment) < size + alignment && Divides(alignment, AlignedTo(size, alignment))
  {
    MultipleOf((size + alignment - 1) / alignment, alignment);
  }

  lemma MultipleOf(k: int, d: int)
    requires d > 0
    ensures Divides(d, k * d) && k * d / d == k
  {
    var p := k * d / d;
    assert k * d == d * p + k * d % d;
    var difference := k - p;
    assert d * difference == k * d % d;
    assert difference >= 1 ==> d * difference >= d;
    assert difference <= -1 ==> d * -difference >= d;
  }

  /** No multiple lies strictly between two neighbouring ones. */
  lemma RoundsWithin(size: nat, capacity: nat, alignment: nat)
    requires alignment > 0 && Divides(alignment, capacity) && size <= capacity
    ensures AlignedTo(size, alignment) <= capacity
  {
    AlignedIsNext(size, alignment);
    var aligned := AlignedTo(size, alignment);
    var k := aligned / alignment - capacity / alignment;
    assert aligned - capacity == alignment * k;
    assert k >= 1 ==> alignment * k >= alignment;
  }

  lemma NothingRounds(alignment: nat)
    requires alignment > 0
    ensures AlignedTo(0, alignment) == 0
  {
  }

  /** What the search loop computes: an unsigned subtraction. */
  function Room(capacity: nat, size: nat, alignment: nat): nat
    requires alignment > 0
  {
    (capacity - AlignedTo(size, alignment)) % WORD_MODULUS
  }

  /** The subtraction is exact at every fill level just when the alignment divides the capacity. */
  lemma RoomExactIff(capacity: nat, alignment: nat)
    requires 0 < alignment && capacity + alignment <= WORD_MODULUS
    ensures (forall size: nat :: size <= capacity ==>
               Room(capacity, size, alignment) == capacity - AlignedTo(size, alignment))
            <==> Divides(alignment, capacity)
  {
    hide AlignedTo;
    if Divides(alignment, capacity) {
      forall size: nat | size <= capacity ensures Room(capacity, size, alignment)
        == capacity - AlignedTo(size, alignment) {
        hide AlignedTo, Divides;
        RoundsWithin(size, capacity, alignment);
      }
    } else {
      AlignedIsNext(capacity, alignment);
      assert AlignedTo(capacity, alignment) > capacity;
      assert Room(capacity, capacity, alignment) != capacity - AlignedTo(capacity, alignment);
    }
  }

  /** A chunk filled beyond its capacity seems to have room for anything, and every request to it fails. */
  lemma OverfullStaysOverfull(capacity: nat, size: nat, alignment: nat, request: nat)
    requires 0 < alignment && capacity < size && size + alignment + request < WORD_MODULUS / 2
    ensures Room(capacity, size, alignment) >= AlignedTo(request, alignment)
    ensures AlignedTo(size, alignment) + request > capacity
  {
    hide AlignedTo, Divides;
    AlignedIsNext(size, alignment);
    AlignedIsNext(request, alignment);
    assert Room(capacity, size, alignment) == capacity - AlignedTo(size, alignment) + WORD_MODULUS;
  }

  // Allocated ranges.

  /** A range of a chunk, the chunk given by its place in the chain. */
  datatype Range = Range(chunk: nat, offset: nat, length: nat)

  predicate Apart(a: Range, b: Range) {
    a.chunk == b.chunk ==> a.offset + a.length <= b.offset || b.offset + b.length <= a.offset
  }

  predicate AllApart(ranges: seq<Range>) {
    forall i, j :: 0 <= i < j < |ranges| ==> Apart(ranges[i], ranges[j])
  }

  /** Every range lies in the used part of its chunk. */
  predicate Within(ranges: seq<Range>, sizes: seq<nat>) {
    forall i :: 0 <= i < |ranges| ==>
        ranges[i].chunk < |sizes| && ranges[i].offset + ranges[i].length <= sizes[ranges[i].chunk]
  }

  class Chunk {
    var previous: Chunk?
    var next: Chunk?
    const capacity: nat
    var size: nat

    constructor (capacity: nat)
      ensures previous == null && next == null && this.capacity == capacity && size == 0
    {
      previous, next, this.capacity, size := null, null, capacity, 0;
    }
  }

  datatype Block = Block(chunk: Chunk, offset: nat)

  ghost function SizesOf(chunks: seq<Chunk>): (sizes: seq<nat>)
    reads chunks
    ensures |sizes| == |chunks| && forall k :: 0 <= k < |chunks| ==> sizes[k] == chunks[k].size
  {
    seq(|chunks|, k requires 0 <= k < |chunks| reads chunks => chunks[k].size)
  }

  class Allocator {
    const chunkSize: nat
    var firstChunk: Chunk?
    var lastChunk: Chunk?
    var currentChunk: Chunk?
    ghost var chunks: seq<Chunk>
    ghost var ranges: seq<Range>      // in the order of allocation

    function Capacity(): nat {
      if chunkSize >= CHUNK_HEADER_SIZE then chunkSize - CHUNK_HEADER_SIZE else 0
    }

    ghost predicate Linked(k: nat)
      requires k < |chunks|
      reads this`chunks, chunks
    {
      && chunks[k].previous == (if k == 0 then null else chunks[k - 1])
      && chunks[k].next == (if k == |chunks| - 1 then null else chunks[k + 1])
      && chunks[k].capacity == Capacity() && chunks[k].size <= Capacity()
    }

    ghost predicate Chained()
      reads this`firstChunk, this`lastChunk, this`currentChunk, this`chunks, chunks
    {
      && CHUNK_HEADER_SIZE <= chunkSize < WORD_MODULUS / 2
      && (forall i, j :: 0 <= i < j < |chunks| ==> chunks[i] != chunks[j])
      && firstChunk == (if chunks == [] then null else chunks[0])
      && lastChunk == currentChunk == (if chunks == [] then null else chunks[|chunks| - 1])
      && (forall k :: 0 <= k < |chunks| ==> Linked(k))
    }

    /** The chain is well linked, and ranges are disjoint parts of the chunks. */
    ghost predicate Valid()
      reads this, chunks
    {
      Chained() && AllApart(ranges) && Within(ranges, SizesOf(chunks))
    }

    constructor (chunkSize: nat)
      requires CHUNK_HEADER_SIZE <= chunkSize < WORD_MODULUS / 2
      ensures Valid() && this.chunkSize == chunkSize && chunks == [] && ranges == []
    {
      this.chunkSize := chunkSize;
      firstChunk, lastChunk, currentChunk, chunks, ranges := null, null, null, [], [];
    }

    /** The last chunk, which is the current one, has the room. */
    ghost predicate HasRoom(size: nat, alignment: nat)
      requires alignment > 0
      reads this`chunks, chunks
    {
      chunks != [] && AlignedTo(chunks[|chunks| - 1].size, alignment) + AlignedTo(size, alignment) <= Capacity()
    }

    /** The search loop: stays at the current chunk if that has the room, and runs off the chain otherwise. */
    method AdvanceCurrentChunk(size: nat, alignment: nat)
      requires Valid() && 0 < alignment && PowerOfTwo(alignment) && Divides(alignment, Capacity())
               && size + alignment < WORD_MODULUS
      modifies this`currentChunk
      ensures currentChunk == null || (currentChunk == lastChunk && Valid())
      ensures currentChunk != null <==> HasRoom(size, alignment)
    {
      hide PowerOfTwo;
      var requiredAlignedSize := AlignedTo(size, alignment);
      if chunks != [] {
        assert Linked(|chunks| - 1);
        assert Room(Capacity(), currentChunk.size, alignment)
               == Capacity() - AlignedTo(currentChunk.size, alignment) by {
          RoundsWithin(currentChunk.size, Capacity(), alignment);
        }
      }
      while currentChunk != null && Room(currentChunk.capacity, currentChunk.size, alignment) < requiredAlignedSize
        invariant currentChunk == null || currentChunk == old(currentChunk)
        invariant currentChunk == null ==> !HasRoom(size, alignment)
        decreases currentChunk != null
      {
        currentChunk := currentChunk.next;
      }
    }

    /** The current chunk if it has the room, a new chunk at the end of the chain otherwise. */
    method EnsureChunkWithRequiredCapacity(size: nat, alignment: nat) returns (chunk: Chunk)
      requires Valid() && 0 < alignment && PowerOfTwo(alignment) && Divides(alignment, Capacity())
               && size + alignment < WORD_MODULUS
      modifies this`firstChunk, this`lastChunk, this`currentChunk, this`chunks, chunks
      ensures Valid() && chunks != [] && chunk == chunks[|chunks| - 1]
      ensures chunks == old(chunks) || (chunks == old(chunks) + [chunk] && fresh(chunk))
      ensures SizesOf(chunks) == old(SizesOf(chunks)) + if chunks == old(chunks) then [] else [0]
      ensures chunks == old(chunks) <==> old(HasRoom(size, alignment))
    {
      hide PowerOfTwo, AlignedTo, Divides;
      AdvanceCurrentChunk(size, alignment);
      if currentChunk == null {
        var newChunk := new Chunk(chunkSize - CHUNK_HEADER_SIZE);
        Append(newChunk);
      }
      chunk := currentChunk;
    }

    method Append(newChunk: Chunk)
      requires currentChunk == null && newChunk !in chunks
      requires newChunk.previous == newChunk.next == null && newChunk.size == 0 && newChunk.capacity == Capacity()
      requires CHUNK_HEADER_SIZE <= chunkSize < WORD_MODULUS / 2
      requires forall i, j :: 0 <= i < j < |chunks| ==> chunks[i] != chunks[j]
      requires firstChunk == (if chunks == [] then null else chunks[0])
      requires lastChunk == (if chunks == [] then null else chunks[|chunks| - 1])
      requires forall k :: 0 <= k < |chunks| ==> Linked(k)
      requires AllApart(ranges) && Within(ranges, SizesOf(chunks))
      modifies this`firstChunk, this`lastChunk, this`currentChunk, this`chunks, chunks, newChunk
      ensures Valid() && chunks == old(chunks) + [newChunk] && currentChunk == newChunk
      ensures SizesOf(chunks) == old(SizesOf(chunks)) + [0]
    {
      hide AllApart;
      assert Within(ranges, SizesOf(chunks) + [0]);
      if firstChunk == null { firstChunk := newChunk; }
      if lastChunk != null {
        lastChunk.next := newChunk;
        newChunk.previous := lastChunk;
      }
      lastChunk := newChunk;
      currentChunk := newChunk;
      chunks := chunks + [newChunk];
      forall k | 0 <= k < |chunks| ensures Linked(k) {
        if k < |chunks| - 1 { assert old(Linked(k)); }
      }
      assert SizesOf(chunks) == old(SizesOf(chunks)) + [0];
    }

    /**
     Succeeds for every request that fits a chunk, with an aligned range apart from all others. The assertion comes
     after the bump, so that a larger request spoils its chunk.
     */
    method Allocate(size: nat, alignment: nat) returns (r: Attempt<Block>)
      requires Valid() && 0 < alignment && PowerOfTwo(alignment) && Divides(alignment, Capacity())
               && size + alignment < WORD_MODULUS
      modifies this, chunks
      ensures r.Success? <==> size <= Capacity()
      ensures Valid() <==> size <= Capacity()
      ensures chunks != []
      ensures r.Success? ==>
        && (chunks == old(chunks) || (chunks == old(chunks) + [r.value.chunk] && fresh(r.value.chunk)))
        && r.value.chunk == chunks[|chunks| - 1] && Divides(alignment, r.value.offset)
        && ranges == old(ranges) + [Range(|chunks| - 1, r.value.offset, size)]
      ensures r.Success? && old(Uniform(size)) && Divides(alignment, size) ==> Uniform(size)
    {
      hide PowerOfTwo, AlignedTo, Divides, AllApart, Within, IsLayout, Chained, SizesOf;
      var chunk := EnsureChunkWithRequiredCapacity(size, alignment);
      LastFits();
      var alignedOffset := AlignedTo(chunk.size, alignment);
      AlignedIsNext(chunk.size, alignment);
      NothingRounds(alignment);
      AlignedIsNext(size, alignment);
      if old(Uniform(size)) && Divides(alignment, size) {
        EntryAppended(old(ranges), old(SizesOf(chunks)), SizesOf(chunks), size, alignment);
      }
      Take(chunk, alignedOffset, size);
      if chunk.size > chunk.capacity {
        return Failure("chunk->size <= chunk->capacity");
      }
      r := Success(Block(chunk, alignedOffset));
    }

    method Take(chunk: Chunk, alignedOffset: nat, size: nat)
      requires Valid() && chunks != [] && chunk == chunks[|chunks| - 1] && chunk.size <= alignedOffset
      modifies chunk`size, this`ranges
      ensures Valid() <==> alignedOffset + size <= Capacity()
      ensures chunk.size == alignedOffset + size
      ensures ranges == old(ranges) + [Range(|chunks| - 1, alignedOffset, size)]
      ensures var sizes := old(SizesOf(chunks))[|chunks| - 1 := alignedOffset + size];
              IsLayout(old(ranges) + [Range(|chunks| - 1, alignedOffset, size)], sizes, size) ==> Uniform(size)
    {
      hide Chained, IsLayout, SizesOf;
      assert AllApart(ranges + [Range(|SizesOf(chunks)| - 1, alignedOffset, size)])
             && Within(ranges + [Range(|SizesOf(chunks)| - 1, alignedOffset, size)],
                       SizesOf(chunks)[|SizesOf(chunks)| - 1 := alignedOffset + size]);
      Bump(chunk, alignedOffset + size);
      ranges := ranges + [Range(|chunks| - 1, alignedOffset, size)];
    }

    lemma LastFits()
      requires Chained() && chunks != []
      ensures var last := chunks[|chunks| - 1]; last.capacity == Capacity() && last.size <= Capacity()
      ensures SizesOf(chunks)[|chunks| - 1] == chunks[|chunks| - 1].size
    {
      assert Linked(|chunks| - 1);
    }

    method Bump(chunk: Chunk, size: nat)
      requires Chained() && chunks != [] && chunk == chunks[|chunks| - 1]
      modifies chunk`size
      ensures chunk.size == size
      ensures SizesOf(chunks) == old(SizesOf(chunks))[|chunks| - 1 := size]
      ensures Chained() <==> size <= Capacity()
    {
      hide Linked;
      SetSize(chunk, size);
      assert Linked(|chunks| - 1) <==> size <= Capacity();
    }

    method SetSize(chunk: Chunk, size: nat)
      requires Chained() && chunks != [] && chunk == chunks[|chunks| - 1]
      modifies chunk`size
      ensures chunk.size == size
      ensures SizesOf(chunks) == old(SizesOf(chunks))[|chunks| - 1 := size]
      ensures forall k :: 0 <= k < |chunks| - 1 ==> Linked(k)
      ensures Linked(|chunks| - 1) <==> size <= Capacity()
    {
      assert Linked(|chunks| - 1);
      chunk.size := size;
      forall k | 0 <= k < |chunks| - 1 ensures Linked(k) {
        assert old(Linked(k)) && chunks[k] != chunk;
      }
    }

    /** Only entries of one size were ever allocated: they fill the chunks without gaps, one chunk after the other. */
    ghost predicate Uniform(entrySize: nat)
      reads this`chunks, this`ranges, chunks
    {
      IsLayout(ranges, SizesOf(chunks), entrySize)
    }
  }

  // Entries of one size.

  function EntriesOf(chunk: nat, count: nat, entrySize: nat): (entries: seq<Range>)
    ensures |entries| == count && forall j :: 0 <= j < count ==> entries[j] == Range(chunk, j * entrySize, entrySize)
  {
    seq(count, j requires 0 <= j < count => Range(chunk, j * entrySize, entrySize))
  }

  /** What the chunks hold when only entries of one size were allocated. */
  function Layout(sizes: seq<nat>, entrySize: nat): seq<Range>
    requires entrySize > 0
  {
    if sizes == [] then []
    else Layout(sizes[..|sizes| - 1], entrySize) + EntriesOf(|sizes| - 1, sizes[|sizes| - 1] / entrySize, entrySize)
  }

  predicate IsLayout(ranges: seq<Range>, sizes: seq<nat>, entrySize: nat) {
    entrySize > 0 && ranges == Layout(sizes, entrySize) && forall k :: 0 <= k < |sizes| ==> Divides(entrySize, sizes[k])
  }

  /** An entry more goes right behind the last one, in the last chunk or in a new one. */
  lemma EntryAppended(ranges: seq<Range>, sizes: seq<nat>, extended: seq<nat>, entrySize: nat, alignment: nat)
    requires IsLayout(ranges, sizes, entrySize) && alignment > 0 && Divides(alignment, entrySize)
    requires extended != [] && (extended == sizes || extended == sizes + [0])
    ensures var last := extended[|extended| - 1];
            && AlignedTo(last, alignment) == last
            && IsLayout(ranges + [Range(|extended| - 1, last, entrySize)],
                        extended[|extended| - 1 := last + entrySize], entrySize)
  {
    hide AlignedTo, Divides, Layout;
    var last, k := extended[|extended| - 1], |extended| - 1;
    if extended == sizes + [0] {
      NewChunkIsEmpty(sizes, entrySize);
    }
    var count := NextMultiple(last, entrySize, alignment);
    LayoutLast(extended, entrySize);
    LayoutLast(extended[k := last + entrySize], entrySize);
    assert extended[k := last + entrySize][..k] == extended[..k];
    assert EntriesOf(k, count + 1, entrySize)
           == EntriesOf(k, count, entrySize) + [Range(k, count * entrySize, entrySize)];
  }

  lemma LayoutLast(sizes: seq<nat>, entrySize: nat)
    requires entrySize > 0 && sizes != []
    ensures var k := |sizes| - 1;
            Layout(sizes, entrySize) == Layout(sizes[..k], entrySize) + EntriesOf(k, sizes[k] / entrySize, entrySize)
  {
  }

  lemma NewChunkIsEmpty(sizes: seq<nat>, entrySize: nat)
    requires entrySize > 0
    ensures Layout(sizes + [0], entrySize) == Layout(sizes, entrySize) && Divides(entrySize, 0)
  {
    assert (sizes + [0])[..|sizes|] == sizes;
    assert 0 / entrySize == 0;
    assert EntriesOf(|sizes|, 0, entrySize) == [];
  }

  lemma NextMultiple(last: nat, entrySize: nat, alignment: nat) returns (count: nat)
    requires entrySize > 0 && alignment > 0 && Divides(alignment, entrySize) && Divides(entrySize, last)
    ensures AlignedTo(last, alignment) == last && Divides(entrySize, last + entrySize)
    ensures count == last / entrySize && (last + entrySize) / entrySize == count + 1 && count * entrySize == last
  {
    hide AlignedTo;
    count := last / entrySize;
    assert last == count * entrySize;
    MultipleOf(count + 1, entrySize);
    assert (count + 1) * entrySize == last + entrySize;
    var factor := entrySize / alignment;
    assert entrySize == factor * alignment;
    assert count * (factor * alignment) == count * factor * alignment;
    MultipleOf(count * factor, alignment);
    assert AlignedTo(last, alignment) == last by {
      AlignedIsNext(last, alignment);
      RoundsWithin(last, last, alignment);
    }
  }
}
