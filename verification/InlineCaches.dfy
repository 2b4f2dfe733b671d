/** Method lookup: the walk up the supertypes, the global cache in front of it, and inline caches in front of that. */
module InlineCaches {
  const NULL := 0
  const PIC_ENTRY_COUNT := 4
  const GLOBAL_LOOKUP_CACHE_ENTRY_COUNT := 256
  const UINT32_MODULUS := 0x1_0000_0000

  // Types and the methods that lookup finds.

  datatype Class = Class(supertype: nat, methods: map<nat, nat>)

  /** Types that are pointers to real types; the depth of a type is more than its supertype's. */
  datatype World = World(classes: map<nat, Class>, depth: map<nat, nat>)

  ghost predicate Acyclic(w: World) {
    && NULL !in w.classes
    && forall t :: t in w.classes ==>
         t in w.depth && (w.classes[t].supertype in w.classes ==>
                            w.classes[t].supertype in w.depth && w.depth[w.classes[t].supertype] < w.depth[t])
  }

  ghost function LookupRecursively(w: World, t: nat, selector: nat): nat
    requires Acyclic(w)
    decreases if t in w.classes then w.depth[t] + 1 else 0
  {
    if t !in w.classes then NULL
    else if selector in w.classes[t].methods then w.classes[t].methods[selector]
    else LookupRecursively(w, w.classes[t].supertype, selector)
  }

  function WithMethod(w: World, t: nat, selector: nat, newMethod: nat): World {
    if t in w.classes then w.(classes :=
      w.classes[t := w.classes[t].(methods := w.classes[t].methods[selector := newMethod])]) else w
  }

  /** Setting a method changes lookups of its selector only. */
  lemma {:induction false} OtherSelectorsStay(w: World, t: nat, selector: nat, newMethod: nat, u: nat, other: nat)
    requires Acyclic(w) && other != selector
    ensures Acyclic(WithMethod(w, t, selector, newMethod))
    ensures LookupRecursively(WithMethod(w, t, selector, newMethod), u, other) == LookupRecursively(w, u, other)
    decreases if u in w.classes then w.depth[u] + 1 else 0
  {
    if u in w.classes && other !in w.classes[u].methods {
      OtherSelectorsStay(w, t, selector, newMethod, w.classes[u].supertype, other);
    }
  }

  /** The walk from u reaches t: neither u nor a type in between has a method of its own for the selector. */
  ghost predicate Inherits(w: World, u: nat, t: nat, selector: nat)
    requires Acyclic(w)
    decreases if u in w.classes then w.depth[u] + 1 else 0
  {
    u in w.classes && (u == t || (selector !in w.classes[u].methods
                                  && Inherits(w, w.classes[u].supertype, t, selector)))
  }

  /** The types that find the new method are those that reach the changed type; all others find what they found. */
  lemma {:induction false} LookupAfter(w: World, t: nat, selector: nat, newMethod: nat, u: nat)
    requires Acyclic(w)
    ensures Acyclic(WithMethod(w, t, selector, newMethod))
    ensures LookupRecursively(WithMethod(w, t, selector, newMethod), u, selector)
            == if Inherits(w, u, t, selector) then newMethod else LookupRecursively(w, u, selector)
    decreases if u in w.classes then w.depth[u] + 1 else 0
  {
    if u in w.classes && u != t && selector !in w.classes[u].methods {
      LookupAfter(w, t, selector, newMethod, w.classes[u].supertype);
    }
  }

  // Cache entries. Cleared ones are all null.

  datatype Entry = Entry(selector: nat, t: nat, found: nat)

  const CLEARED := Entry(NULL, NULL, NULL)

  ghost predicate Agree(w: World, entries: seq<Entry>)
    requires Acyclic(w)
  {
    forall i :: 0 <= i < |entries| ==> entries[i].found == LookupRecursively(w, entries[i].t, entries[i].selector)
  }

  /** What a scan of all entries leaves as its answer. */
  function LastMatch(entries: seq<Entry>, t: nat, selector: nat): (i: int)
    ensures -1 <= i < |entries|
    ensures i >= 0 ==> entries[i].t == t && entries[i].selector == selector
  {
    if entries == [] then -1
    else if entries[|entries| - 1].selector == selector && entries[|entries| - 1].t == t then |entries| - 1
    else LastMatch(entries[..|entries| - 1], t, selector)
  }

  function Flushed(entries: seq<Entry>, selector: nat): (flushed: seq<Entry>)
    ensures |flushed| == |entries|
    ensures forall i :: 0 <= i < |entries| ==> flushed[i] == if entries[i].selector == selector then CLEARED
              else entries[i]
  {
    seq(|entries|, i requires 0 <= i < |entries| => if entries[i].selector == selector then CLEARED else entries[i])
  }

  /** Flushing the selector makes every cache agree with the changed world. */
  lemma FlushedAgrees(w: World, t: nat, selector: nat, newMethod: nat, entries: seq<Entry>)
    requires Acyclic(w) && Agree(w, entries)
    ensures Acyclic(WithMethod(w, t, selector, newMethod))
            && Agree(WithMethod(w, t, selector, newMethod), Flushed(entries, selector))
  {
    var after := WithMethod(w, t, selector, newMethod);
    assert Acyclic(after);
    forall i | 0 <= i < |entries|
      ensures Flushed(entries, selector)[i].found
           == LookupRecursively(after, Flushed(entries, selector)[i].t, Flushed(entries, selector)[i].selector)
    {
      if entries[i].selector != selector {
        OtherSelectorsStay(w, t, selector, newMethod, entries[i].t, entries[i].selector);
      }
    }
  }

  /**
   Without the flush a cache stays correct exactly when the cached types that reach the changed type already found the
   new method: an override on the way, another selector or another branch of the type hierarchy keeps an entry correct.
   */
  lemma StaleWithoutFlush(w: World, t: nat, selector: nat, newMethod: nat, entries: seq<Entry>)
    requires Acyclic(w) && Agree(w, entries)
    ensures var after := WithMethod(w, t, selector, newMethod);
            Acyclic(after)
            && (Agree(after, entries) <==>
                forall i ::
                  0 <= i < |entries| && entries[i].selector == selector && Inherits(w, entries[i].t, t, selector) ==>
                    entries[i].found == newMethod)
  {
    hide LookupRecursively, Inherits, WithMethod, Acyclic;
    var after := WithMethod(w, t, selector, newMethod);
    LookupAfter(w, t, selector, newMethod, t);
    forall i | 0 <= i < |entries|
      ensures entries[i].found == LookupRecursively(after, entries[i].t, entries[i].selector)
          <==> (entries[i].selector == selector && Inherits(w, entries[i].t, t, selector) ==>
                  entries[i].found == newMethod)
    {
      if entries[i].selector == selector {
        LookupAfter(w, t, selector, newMethod, entries[i].t);
      } else {
        OtherSelectorsStay(w, t, selector, newMethod, entries[i].t, entries[i].selector);
      }
    }
  }

  class InlineCache {
    var preSequence: nat
    var postSequence: nat
    const entries: array<Entry>

    /** No writer is between its lock and its unlock. */
    ghost predicate Valid()
      reads this
    {
      entries.Length == PIC_ENTRY_COUNT && preSequence == postSequence < UINT32_MODULUS
    }

    constructor ()
      ensures Valid() && fresh(entries) && entries[..] == seq(PIC_ENTRY_COUNT, i => CLEARED)
    {
      preSequence, postSequence := 0, 0;
      entries := new Entry[PIC_ENTRY_COUNT](i => CLEARED);
      new;
      assert entries[..] == seq(PIC_ENTRY_COUNT, i => CLEARED);
    }

    method LookupTypeAndSelector(selector: nat, t: nat) returns (hasFoundEntry: bool, found: nat)
      requires Valid()
      ensures hasFoundEntry <==> LastMatch(entries[..], t, selector) >= 0
      ensures found == if hasFoundEntry then entries[..][LastMatch(entries[..], t, selector)].found else NULL
    {
      var entrySequence := preSequence;
      hasFoundEntry, found := false, NULL;
      for i := 0 to PIC_ENTRY_COUNT
        invariant hasFoundEntry <==> LastMatch(entries[..i], t, selector) >= 0
        invariant found == if hasFoundEntry then entries[..i][LastMatch(entries[..i], t, selector)].found else NULL
      {
        assert entries[..i + 1][..i] == entries[..i];
        if entries[i].selector == selector && entries[i].t == t {
          hasFoundEntry, found := true, entries[i].found;
        }
      }
      assert entries[..PIC_ENTRY_COUNT] == entries[..];
      var exitSequence := postSequence;
      hasFoundEntry := hasFoundEntry && entrySequence == exitSequence;
    }

    /** Replaces the entries in turn. */
    method AddSelectorTypeAndMethod(selector: nat, t: nat, found: nat)
      requires Valid()
      modifies this, entries
      ensures Valid() && preSequence == (old(preSequence) + 1) % UINT32_MODULUS
      ensures entries[..] == old(entries[..])[preSequence % PIC_ENTRY_COUNT := Entry(selector, t, found)]
    {
      var sequence := WriteLock();
      var entryIndex := sequence % PIC_ENTRY_COUNT;
      entries[entryIndex] := Entry(selector, t, found);
      postSequence := sequence;
    }

    method WriteLock() returns (sequence: nat)
      modifies this`preSequence
      ensures sequence == preSequence == (old(preSequence) + 1) % UINT32_MODULUS
    {
      preSequence := (preSequence + 1) % UINT32_MODULUS;
      sequence := preSequence;
    }

    method FlushSelector(selector: nat)
      requires Valid()
      modifies this, entries
      ensures Valid() && entries[..] == Flushed(old(entries[..]), selector)
    {
      var sequence := WriteLock();
      for i := 0 to PIC_ENTRY_COUNT
        invariant preSequence == sequence < UINT32_MODULUS
        invariant forall k :: 0 <= k < PIC_ENTRY_COUNT ==>
                    entries[k] == if k < i && old(entries[k]).selector == selector then CLEARED else old(entries[k])
      {
        if entries[i].selector == selector { entries[i] := CLEARED; }
      }
      postSequence := sequence;
    }
  }

  class Context {
    var world: World
    const cacheIndex: (nat, nat) -> nat
    const globalMethodLookupCache: array<Entry>
    const pics: seq<InlineCache>

    ghost function Arrays(): set<object> {
      (set p | p in pics :: p.entries as object) + {globalMethodLookupCache}
    }

    ghost predicate Separate() {
      && globalMethodLookupCache.Length == GLOBAL_LOOKUP_CACHE_ENTRY_COUNT
      && (forall i :: 0 <= i < |pics| ==> pics[i].entries != globalMethodLookupCache)
      && (forall i, j :: 0 <= i < j < |pics| ==> pics[i] != pics[j] && pics[i].entries != pics[j].entries)
    }

    /** Every entry of every cache holds what the walk up the supertypes would find. */
    ghost predicate Coherent()
      reads this, pics, Arrays()
    {
      && Separate() && Acyclic(world)
      && Agree(world, globalMethodLookupCache[..])
      && forall i :: 0 <= i < |pics| ==> pics[i].Valid() && Agree(world, pics[i].entries[..])
    }

    constructor (world: World, cacheIndex: (nat, nat) -> nat, picCount: nat)
      requires Acyclic(world)
      ensures Coherent() && this.world == world && |pics| == picCount && fresh(pics) && fresh(Arrays())
    {
      this.world, this.cacheIndex := world, cacheIndex;
      var cache := new Entry[GLOBAL_LOOKUP_CACHE_ENTRY_COUNT](i => CLEARED);
      var all: seq<InlineCache> := [];
      for i := 0 to picCount
        invariant |all| == i && fresh(all) && forall k :: 0 <= k < cache.Length ==> cache[k] == CLEARED
        invariant forall k :: 0 <= k < i ==>
                    all[k].Valid() && fresh(all[k].entries) && all[k].entries[..] == seq(PIC_ENTRY_COUNT, j => CLEARED)
        invariant forall k :: 0 <= k < i ==> all[k].entries != cache
        invariant forall k, m :: 0 <= k < m < i ==> all[k] != all[m] && all[k].entries != all[m].entries
      {
        var pic := new InlineCache();
        all := all + [pic];
      }
      globalMethodLookupCache, pics := cache, all;
      new;
      assert Agree(world, globalMethodLookupCache[..]);
      forall k | 0 <= k < picCount ensures Agree(world, pics[k].entries[..]) {
      }
    }

    method WalkSupertypes(t: nat, selector: nat) returns (found: nat)
      requires Acyclic(world)
      ensures found == LookupRecursively(world, t, selector)
      decreases if t in world.classes then world.depth[t] + 1 else 0
    {
      if t !in world.classes { return NULL; }
      var c := world.classes[t];
      if selector in c.methods { return c.methods[selector]; }
      found := WalkSupertypes(c.supertype, selector);
    }

    /** Through the global cache, which remembers methods and not their absence. */
    method LookupSelector(t: nat, selector: nat) returns (found: nat)
      requires Coherent()
      modifies globalMethodLookupCache
      ensures Coherent() && found == LookupRecursively(world, t, selector)
    {
      if t !in world.classes { return NULL; }
      var cacheEntryIndex := cacheIndex(t, selector) % GLOBAL_LOOKUP_CACHE_ENTRY_COUNT;
      var cacheEntry := globalMethodLookupCache[cacheEntryIndex];
      assert cacheEntry == globalMethodLookupCache[..][cacheEntryIndex];
      if cacheEntry.t != t || cacheEntry.selector != selector {
        found := WalkSupertypes(t, selector);
        if found != NULL {
          globalMethodLookupCache[cacheEntryIndex] := Entry(selector, t, found);
          assert globalMethodLookupCache[..]
                 == old(globalMethodLookupCache[..])[cacheEntryIndex := Entry(selector, t, found)];
        }
      } else {
        found := cacheEntry.found;
      }
    }

    /** Through an inline cache: the answer is always that of the walk. */
    method LookupSelectorWithPIC(t: nat, selector: nat, k: nat) returns (found: nat)
      requires Coherent() && k < |pics|
      modifies globalMethodLookupCache, pics[k], pics[k].entries
      ensures Coherent() && found == LookupRecursively(world, t, selector)
    {
      hide LastMatch;
      var pic := pics[k];
      var hasFoundEntry;
      hasFoundEntry, found := pic.LookupTypeAndSelector(selector, t);
      if hasFoundEntry {
        AgreeAt(world, pic.entries[..], LastMatch(pic.entries[..], t, selector));
      } else {
        found := LookupSelector(t, selector);
        ghost var before := pic.entries[..];
        pic.AddSelectorTypeAndMethod(selector, t, found);
        assert Agree(world, before[(pic.preSequence % PIC_ENTRY_COUNT) := Entry(selector, t, found)]);
      }
    }

    /** Sets a method. The caches may be stale until the selector is flushed. */
    method SetMethodWithSelector(t: nat, selector: nat, newMethod: nat)
      requires Acyclic(world)
      modifies this`world
      ensures world == WithMethod(old(world), t, selector, newMethod)
    {
      if t in world.classes {
        var c := world.classes[t];
        world := world.(classes := world.classes[t := c.(methods := c.methods[selector := newMethod])]);
      }
    }

    /** Clears the entries of a selector in the global cache and in every inline cache. */
    method FlushLookupSelector(selector: nat)
      requires Separate() && forall i :: 0 <= i < |pics| ==> pics[i].Valid()
      modifies pics, Arrays()
      ensures forall i :: 0 <= i < |pics| ==> pics[i].Valid()
      ensures globalMethodLookupCache[..] == Flushed(old(globalMethodLookupCache[..]), selector)
      ensures forall i :: 0 <= i < |pics| ==> pics[i].entries[..] == Flushed(old(pics[i].entries[..]), selector)
    {
      FlushGlobalCache(selector);
      for i := 0 to |pics|
        invariant globalMethodLookupCache[..] == Flushed(old(globalMethodLookupCache[..]), selector)
        invariant forall k :: 0 <= k < |pics| ==> pics[k].Valid()
        invariant forall k :: 0 <= k < i ==> pics[k].entries[..] == Flushed(old(pics[k].entries[..]), selector)
        invariant forall k :: i <= k < |pics| ==> pics[k].entries[..] == old(pics[k].entries[..])
      {
        hide Flushed;
        pics[i].FlushSelector(selector);
      }
    }

    method FlushGlobalCache(selector: nat)
      modifies globalMethodLookupCache
      ensures globalMethodLookupCache[..] == Flushed(old(globalMethodLookupCache[..]), selector)
    {
      var n := globalMethodLookupCache.Length;
      for i := 0 to n
        invariant forall k :: 0 <= k < n ==>
                    globalMethodLookupCache[k] == if k < i && old(globalMethodLookupCache[k]).selector == selector
                      then CLEARED
                                                  else old(globalMethodLookupCache[k])
      {
        if globalMethodLookupCache[i].selector == selector { globalMethodLookupCache[i] := CLEARED; }
      }
    }

    /** Setting a method and flushing its selector leaves no stale entry anywhere. */
    method Redefine(t: nat, selector: nat, newMethod: nat)
      requires Coherent()
      modifies this`world, pics, Arrays()
      ensures Coherent() && world == WithMethod(old(world), t, selector, newMethod)
    {
      hide Agree, Flushed, Acyclic, WithMethod;
      FlushedAgrees(world, t, selector, newMethod, globalMethodLookupCache[..]);
      forall i | 0 <= i < |pics|
        ensures Agree(WithMethod(world, t, selector, newMethod), Flushed(pics[i].entries[..], selector))
      {
        FlushedAgrees(world, t, selector, newMethod, pics[i].entries[..]);
      }
      SetMethodWithSelector(t, selector, newMethod);
      FlushLookupSelector(selector);
    }
  }

  // Runs.

  datatype Operation = Lookup(t: nat, selector: nat, pic: nat) | SetAndFlush(t: nat, selector: nat, newMethod: nat)

  /** The world after a run, and the answers that walking up the supertypes would give on the way. */
  function WorldAfter(w: World, run: seq<Operation>): World {
    if run == [] then w
    else
      var before := WorldAfter(w, run[..|run| - 1]);
      match run[|run| - 1]
      case Lookup(_, _, _) => before
      case SetAndFlush(t, selector, newMethod) => WithMethod(before, t, selector, newMethod)
  }

  /** Over every run of lookups and redefinitions, every cached lookup answers as the walk would at that point. */
  method Run(context: Context, run: seq<Operation>) returns (answers: seq<nat>)
    requires context.Coherent()
    requires forall i :: 0 <= i < |run| && run[i].Lookup? ==> run[i].pic < |context.pics|
    modifies context`world, context.pics, context.Arrays()
    ensures context.Coherent() && context.world == WorldAfter(old(context.world), run)
    ensures |answers| == |run|
    ensures forall i :: 0 <= i < |run| && run[i].Lookup? ==>
              Acyclic(WorldAfter(old(context.world), run[..i]))
              && answers[i] == LookupRecursively(WorldAfter(old(context.world), run[..i]), run[i].t, run[i].selector)
  {
    hide context.Coherent, Acyclic, LookupRecursively;
    answers := [];
    for i := 0 to |run|
      invariant context.Coherent() && context.world == WorldAfter(old(context.world), run[..i]) && |answers| == i
      invariant forall k :: 0 <= k < i && run[k].Lookup? ==>
                  Acyclic(WorldAfter(old(context.world), run[..k]))
                  && answers[k] == LookupRecursively(WorldAfter(old(context.world), run[..k]), run[k].t,
                                                     run[k].selector)
    {
      assert WorldAfter(old(context.world), run[..i + 1])
             == match run[i]
                case Lookup(_, _, _) => WorldAfter(old(context.world), run[..i])
                case SetAndFlush(t, selector, newMethod) => WithMethod(WorldAfter(old(context.world), run[..i]), t,
                                                                       selector, newMethod) by {
        assert run[..i + 1][..i] == run[..i];
      }
      CoherentIsAcyclic(context);
      match run[i] {
        case Lookup(t, selector, pic) =>
          var found := context.LookupSelectorWithPIC(t, selector, pic);
          answers := answers + [found];
        case SetAndFlush(t, selector, newMethod) =>
          context.Redefine(t, selector, newMethod);
          answers := answers + [NULL];
      }
    }
    assert run[..|run|] == run;
  }

  lemma CoherentIsAcyclic(context: Context)
    requires context.Coherent()
    ensures Acyclic(context.world)
  {
  }

  lemma AgreeAt(w: World, entries: seq<Entry>, i: nat)
    requires Acyclic(w) && Agree(w, entries) && i < |entries|
    ensures entries[i].found == LookupRecursively(w, entries[i].t, entries[i].selector)
  {
  }
}
