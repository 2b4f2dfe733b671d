/** Iterating over the chunks of an allocator: how the collector enumerates the root table and the inline caches. */
module RootTables {
  import opened ChunkedAllocator

  const ROOT_TABLE_ENTRY_SIZE := 8
  const PIC_SIZE := 104
  const PIC_ENTRY_COUNT := 4

  class ChunkIterator {
    var chunk: Chunk?
    var size: nat

    /** The iterator stands at the chunk with this place in the chain, or behind the last one. */
    ghost predicate At(allocator: Allocator, place: nat)
      reads this, allocator, allocator.chunks
    {
      && place <= |allocator.chunks|
      && chunk == (if place == |allocator.chunks| then null else allocator.chunks[place])
      && size == (if place == |allocator.chunks| then 0 else allocator.chunks[place].size)
    }

    constructor Begin(allocator: Allocator)
      requires allocator.Valid()
      ensures At(allocator, 0)
    {
      chunk := allocator.firstChunk;
      size := if allocator.firstChunk == null then 0 else allocator.firstChunk.size;
    }

    method Advance(ghost allocator: Allocator, ghost place: nat)
      requires allocator.Valid() && place < |allocator.chunks| && At(allocator, place)
      modifies this
      ensures At(allocator, place + 1)
    {
      assert allocator.Linked(place);
      if chunk != null {
        chunk := chunk.next;
        size := if chunk == null then 0 else chunk.size;
      }
    }

    predicate IsValid()
      reads this
    {
      chunk != null
    }
  }

  predicate InChunks(ranges: seq<Range>, count: nat) {
    forall i :: 0 <= i < |ranges| ==> ranges[i].chunk < count
  }

  ghost function BlocksOf(chunks: seq<Chunk>, ranges: seq<Range>): (blocks: seq<Block>)
    requires InChunks(ranges, |chunks|)
    ensures |blocks| == |ranges|
    ensures forall i :: 0 <= i < |ranges| ==> blocks[i] == Block(chunks[ranges[i].chunk], ranges[i].offset)
  {
    seq(|ranges|, i requires 0 <= i < |ranges| => Block(chunks[ranges[i].chunk], ranges[i].offset))
  }

  lemma {:induction false} LayoutInChunks(sizes: seq<nat>, entrySize: nat)
    requires entrySize > 0
    ensures InChunks(Layout(sizes, entrySize), |sizes|)
  {
    if sizes != [] { LayoutInChunks(sizes[..|sizes| - 1], entrySize); }
  }

  /** Visits every entry that was ever allocated, once, in the order of allocation, and nothing else. */
  method VisitEntries(allocator: Allocator, entrySize: nat) returns (visited: seq<Block>)
    requires allocator.Valid() && allocator.Uniform(entrySize)
    ensures InChunks(allocator.ranges, |allocator.chunks|)
    ensures visited == BlocksOf(allocator.chunks, allocator.ranges)
    ensures forall i, j :: 0 <= i < j < |visited| ==> visited[i] != visited[j]
  {
    hide allocator.Chained, AllApart, Divides;
    ghost var chunks, sizes := allocator.chunks, SizesOf(allocator.chunks);
    LayoutInChunks(sizes, entrySize);
    var walk := new ChunkIterator.Begin(allocator);
    ghost var place := 0;
    visited := [];
    assert Layout(sizes[..0], entrySize) == [];
    while walk.IsValid()
      invariant fresh(walk) && walk.At(allocator, place) && place <= |chunks|
      invariant InChunks(Layout(sizes[..place], entrySize), |chunks|)
      invariant visited == BlocksOf(chunks, Layout(sizes[..place], entrySize))
      decreases |chunks| - place
      modifies walk
    {
      var more := VisitChunk(walk.chunk, walk.size, entrySize);
      assert InChunks(Layout(sizes[..place + 1], entrySize), |chunks|)
             && visited + more == BlocksOf(chunks, Layout(sizes[..place + 1], entrySize)) by {
        var after := sizes[..place + 1];
        assert after[..place] == sizes[..place] && after[place] == sizes[place];
        LayoutLast(after, entrySize);
      }
      visited := visited + more;
      walk.Advance(allocator, place);
      place := place + 1;
    }
    assert sizes[..place] == sizes;
    NoEntryTwice(allocator, entrySize);
  }

  /** Ranges that are apart and not empty are different blocks. */
  lemma NoEntryTwice(allocator: Allocator, entrySize: nat)
    requires allocator.Valid() && allocator.Uniform(entrySize) && InChunks(allocator.ranges, |allocator.chunks|)
    ensures var blocks := BlocksOf(allocator.chunks, allocator.ranges);
            forall i, j :: 0 <= i < j < |blocks| ==> blocks[i] != blocks[j]
  {
    hide Layout, Divides;
    var ranges := allocator.ranges;
    LayoutLengths(SizesOf(allocator.chunks), entrySize);
    forall i, j | 0 <= i < j < |ranges|
      ensures Block(allocator.chunks[ranges[i].chunk], ranges[i].offset) != Block(allocator.chunks[ranges[j].chunk],
                                                                                  ranges[j].offset)
    {
      assert Apart(ranges[i], ranges[j]);
    }
  }

  lemma {:induction false} LayoutLengths(sizes: seq<nat>, entrySize: nat)
    requires entrySize > 0
    ensures forall i :: 0 <= i < |Layout(sizes, entrySize)| ==> Layout(sizes, entrySize)[i].length == entrySize
  {
    if sizes != [] { LayoutLengths(sizes[..|sizes| - 1], entrySize); }
  }

  method VisitChunk(chunk: Chunk, size: nat, entrySize: nat) returns (visited: seq<Block>)
    requires entrySize > 0
    ensures |visited| == size / entrySize
    ensures forall i :: 0 <= i < |visited| ==> visited[i] == Block(chunk, i * entrySize)
  {
    var entryCount := size / entrySize;
    visited := [];
    for i := 0 to entryCount
      invariant |visited| == i && forall k :: 0 <= k < i ==> visited[k] == Block(chunk, k * entrySize)
    {
      visited := visited + [Block(chunk, i * entrySize)];
    }
  }

  // The roots in the two tables.

  datatype Root = TableEntry(block: Block) | Selector(cache: Block, entry: nat) | Type(cache: Block, entry: nat)
    | Method(cache: Block, entry: nat)

  function CacheWords(cache: Block, count: nat): seq<Root> {
    if count == 0 then []
    else CacheWords(cache, count - 1) + [Selector(cache, count - 1), Type(cache, count - 1), Method(cache, count - 1)]
  }

  function TableRoots(table: seq<Block>): seq<Root> {
    if table == [] then [] else TableRoots(table[..|table| - 1]) + [TableEntry(table[|table| - 1])]
  }

  function CacheRoots(caches: seq<Block>): seq<Root> {
    if caches == [] then [] else CacheRoots(caches[..|caches| - 1]) + CacheWords(caches[|caches| - 1], PIC_ENTRY_COUNT)
  }

  /** A word is among the roots just when its table entry or its cache was allocated. */
  lemma {:induction false} TableRootIff(table: seq<Block>, block: Block)
    ensures TableEntry(block) in TableRoots(table) <==> block in table
  {
    if table != [] {
      assert table == table[..|table| - 1] + [table[|table| - 1]];
      TableRootIff(table[..|table| - 1], block);
    }
  }

  lemma {:induction false} CacheRootIff(caches: seq<Block>, cache: Block, entry: nat)
    ensures Selector(cache, entry) in CacheRoots(caches) <==> cache in caches && entry < PIC_ENTRY_COUNT
    ensures Type(cache, entry) in CacheRoots(caches) <==> cache in caches && entry < PIC_ENTRY_COUNT
    ensures Method(cache, entry) in CacheRoots(caches) <==> cache in caches && entry < PIC_ENTRY_COUNT
  {
    if caches != [] {
      assert caches == caches[..|caches| - 1] + [caches[|caches| - 1]];
      CacheRootIff(caches[..|caches| - 1], cache, entry);
      CacheWordIff(caches[|caches| - 1], PIC_ENTRY_COUNT, cache, entry);
    }
  }

  lemma {:induction false} CacheWordIff(cache: Block, count: nat, other: Block, entry: nat)
    ensures Selector(other, entry) in CacheWords(cache, count) <==> other == cache && entry < count
    ensures Type(other, entry) in CacheWords(cache, count) <==> other == cache && entry < count
    ensures Method(other, entry) in CacheWords(cache, count) <==> other == cache && entry < count
  {
    if count > 0 { CacheWordIff(cache, count - 1, other, entry); }
  }

  /** The part of the root iteration over the root table and over the inline caches. */
  method IterateTableRoots(roots: Allocator, caches: Allocator) returns (visited: seq<Root>)
    requires roots.Valid() && roots.Uniform(ROOT_TABLE_ENTRY_SIZE)
    requires caches.Valid() && caches.Uniform(PIC_SIZE)
    ensures InChunks(roots.ranges, |roots.chunks|) && InChunks(caches.ranges, |caches.chunks|)
    ensures visited == TableRoots(BlocksOf(roots.chunks, roots.ranges))
            + CacheRoots(BlocksOf(caches.chunks, caches.ranges))
  {
    hide roots.Valid, roots.Uniform, BlocksOf, CacheWords;
    var entries := VisitEntries(roots, ROOT_TABLE_ENTRY_SIZE);
    visited := [];
    for i := 0 to |entries|
      invariant visited == TableRoots(entries[..i])
    {
      assert entries[..i + 1][..i] == entries[..i];
      visited := visited + [TableEntry(entries[i])];
    }
    assert entries[..|entries|] == entries;
    ghost var first := visited;
    var pics := VisitEntries(caches, PIC_SIZE);
    for i := 0 to |pics|
      invariant visited == first + CacheRoots(pics[..i])
    {
      assert pics[..i + 1][..i] == pics[..i];
      var words := VisitCache(pics[i]);
      visited := visited + words;
    }
    assert pics[..|pics|] == pics;
  }

  method VisitCache(cache: Block) returns (visited: seq<Root>)
    ensures visited == CacheWords(cache, PIC_ENTRY_COUNT)
  {
    visited := [];
    for j := 0 to PIC_ENTRY_COUNT
      invariant visited == CacheWords(cache, j)
    {
      visited := visited + [Selector(cache, j), Type(cache, j), Method(cache, j)];
    }
  }
}
