/**
 Adding a patch, and the blocks of the jump heap: whose they are, and who can still branch to them.
 */
module Ownership {
  import opened Words
  import opened Machine
  import opened CodeGen
  import opened Dispatch
  import opened PatchStack
  import opened Writing
  import opened Chain
  import opened Keeping
  import opened Removal

  // ----- blocks -----

  function AllBlocks(es: seq<Entry>): set<Block>
    decreases |es|
  {
    if es == [] then {} else AllBlocks(es[..|es| - 1]) + BlocksOf(es[|es| - 1])
  }

  /** The live blocks of the jump heap are exactly the buffers of the listed patches. */
  ghost predicate Owns(s: State) {
    s.heap == AllBlocks(s.entries)
  }

  lemma {:induction false} AllBlocksMeans(es: seq<Entry>, b: Block)
    ensures b in AllBlocks(es) <==> exists i :: 0 <= i < |es| && b in BlocksOf(es[i])
    decreases |es|
  {
    hide BlocksOf;
    if es != [] {
      AllBlocksMeans(es[..|es| - 1], b);
    }
  }

  lemma {:induction false} AllBlocksAdd(es: seq<Entry>, fs: seq<Entry>)
    ensures AllBlocks(es + fs) == AllBlocks(es) + AllBlocks(fs)
    decreases |fs|
  {
    hide BlocksOf;
    if fs == [] {
      assert es + fs == es;
    } else {
      assert (es + fs)[..|es + fs| - 1] == es + fs[..|fs| - 1];
      AllBlocksAdd(es, fs[..|fs| - 1]);
    }
  }

  lemma {:induction false} SameConfigSameBlocks(es: seq<Entry>, fs: seq<Entry>)
    requires |es| == |fs| && forall i :: 0 <= i < |es| ==> SameConfig(es[i], fs[i])
    ensures AllBlocks(es) == AllBlocks(fs)
    decreases |es|
  {
    if es != [] {
      SameConfigSameBlocks(es[..|es| - 1], fs[..|es| - 1]);
    }
  }

  lemma BlockCells(e: Entry, b: Block)
    requires b in BlocksOf(e)
    ensures Cells(b.base, b.words) <= OwnCells(e) && b.base in OwnCells(e)
  {
    hide Next;
    assert b.base in Cells(b.base, b.words);
  }

  lemma ApartBlocks(e: Entry, f: Entry)
    requires OwnCells(e) !! OwnCells(f)
    ensures BlocksOf(e) !! BlocksOf(f)
  {
    hide OwnCells, BlocksOf;
    forall b | b in BlocksOf(e) && b in BlocksOf(f)
      ensures false
    {
      BlockCells(e, b);
      BlockCells(f, b);
    }
  }

  /** Giving back the blocks of the erased entry leaves those of the others. */
  lemma EraseOwns(s: State, w: World, k: nat)
    requires Owns(s) && LaidOut(s, w) && k < |s.entries|
    ensures s.heap - BlocksOf(s.entries[k]) == AllBlocks(Erase(s.entries, k))
  {
    hide BlocksOf, AllBlocks, OwnCells, EntryLaidOut;
    var heap', e := s.heap - BlocksOf(s.entries[k]), s.entries[k];
    forall b
      ensures b in heap' <==> b in AllBlocks(Erase(s.entries, k))
    {
      AllBlocksMeans(s.entries, b);
      AllBlocksMeans(Erase(s.entries, k), b);
      if b in AllBlocks(Erase(s.entries, k)) {
        var i :| 0 <= i < |Erase(s.entries, k)| && b in BlocksOf(Erase(s.entries, k)[i]);
        ErasedAt(s.entries, k, i);
        ApartBlocks(s.entries[OldIndex(k, i)], e);
      }
      if b in heap' {
        var j :| 0 <= j < |s.entries| && b in BlocksOf(s.entries[j]);
        var i := if j < k then j else j - 1;
        ErasedAt(s.entries, k, i);
      }
    }
  }

  /** PatchFunction on any entries, as often as one likes, keeps everything but the chains, and is never fatal. */
  lemma {:induction false} PatchManyKeepsWhole(s: State, w: World, idxs: seq<nat>)
    requires Whole(s, w) && IndicesOf(idxs, |s.entries|)
    ensures var r := PatchMany(s, idxs);
            && r.Some? && |r.value.entries| == |s.entries| && r.value.env == s.env && r.value.heap == s.heap && Whole(r.value, w)
            && (forall i :: 0 <= i < |s.entries| ==> SameConfig(s.entries[i], r.value.entries[i]))
    decreases |idxs|
  {
    hide Whole, Steady, PatchEntry, SiteOf, PatchedState, SameShape, SameConfig, Waiting;
    if idxs == [] {
      SameConfigReflexive();
    } else {
      WholeIsSteady(s, w);
      var s' := PatchAny(s, w, idxs[0]);
      PatchManyKeepsWhole(s', w, idxs[1..]);
      SameConfigsTransitive(s.entries, s'.entries, PatchMany(s', idxs[1..]).value.entries);
    }
  }

  lemma WholeIsSteady(s: State, w: World)
    requires Whole(s, w)
    ensures Steady(s, w) && Assumed(s, w) && LaidOut(s, w) && s.env.readable
  {
    hide LaidOut, PlainCode, Located, WordsRight, BuffersFilled, Injective, SiteSound;
  }

  /**
   A removal, in either form of the code and whatever the order of patches, is never fatal, frees the
   removed patch's blocks, and no others.
   */
  lemma RemovalOwns(s: State, w: World, k: nat, guardFirst: bool)
    requires Whole(s, w) && Owns(s) && k < |s.entries|
    ensures var r := Remove(s, k, guardFirst); r.Some? && Whole(r.value, w) && Owns(r.value)
  {
    hide Whole, BlocksOf, AllBlocks, Unstacked, Erase, PatchMany, LaterFrom, SameConfig, OffOrSame;
    var s1 := Unstacked(s, k);
    var s2 := s1.(entries := Erase(s1.entries, k));
    UnstackedKeepsWhole(s, w, k);
    OffOrSameConfig(s.entries, s1.entries);
    SameConfigSameBlocks(s.entries, s1.entries);
    EraseKeepsWhole(s1, s2, w, k);
    WholeIsSteady(s1, w);
    EraseOwns(s1, w, k);
    SameConfigBlocksOf(s.entries[k], s1.entries[k]);
    var idxs := Shifted(LaterFrom(s.entries, k, k + 1));
    ErasedLength(s1.entries, k);
    PatchManyKeepsWhole(s2, w, idxs);
    SameConfigSameBlocks(s2.entries, PatchMany(s2, idxs).value.entries);
    HeapIsNotWhole(s2, w, s.heap - BlocksOf(s.entries[k]));
    HeapIsNotWhole(PatchMany(s2, idxs).value, w, s.heap - BlocksOf(s.entries[k]));
  }

  lemma SameConfigBlocksOf(e: Entry, f: Entry)
    requires SameConfig(e, f)
    ensures BlocksOf(e) == BlocksOf(f)
  {
  }

  lemma HeapIsNotWhole(s: State, w: World, heap: set<Block>)
    ensures Whole(s.(heap := heap), w) <==> Whole(s, w)
  {
    hide SiteSound, EntryLaidOut, OwnCells, Injective, SiteOf, Reachable, Emitted, PlainAt, Restorable;
  }

  // ----- adding -----

  /**
   What is assumed of a new patch: its target is sound; the heap is in the data region, and its
   upper blocks can be branched to (H5); pointer cells are data outside of all buffers.
   */
  ghost predicate RequestSound(s: State, w: World, q: Request, choice1: Addr, choice2: Addr) {
    var e := NewEntry(q, if NeedsTrampoline(q.process, q.repl) then choice1 else 0, choice2);
    && SiteSound(s.env, w, e) && Aligned(q.repl)
    && (NeedsTrampoline(q.process, q.repl) ==> Short(choice1))
    && (forall c :: c in OwnCells(e) ==> s.env.xl(c) in w.data)
    && s.env.xl(q.realCall) in w.data && q.realCall !in OwnCells(e)
    && (forall i :: 0 <= i < |s.entries| ==>
          q.realCall !in OwnCells(s.entries[i]) && s.entries[i].realCall !in OwnCells(e))
  }

  /** The list with the new, not yet patched, entry. */
  function Listed(s: State, q: Request, choice1: Addr, choice2: Addr): State {
    var e := NewEntry(q, if NeedsTrampoline(q.process, q.repl) then choice1 else 0, choice2);
    s.(heap := s.heap + BlocksOf(e), entries := s.entries + [e])
  }

  /** Both blocks are granted. */
  predicate Granted(s: State, q: Request, choice1: Addr, choice2: Addr) {
    var needs := NeedsTrampoline(q.process, q.repl);
    var heap1 := if needs then s.heap + {Block(choice1, 15)} else s.heap;
    && (needs ==> choice1 != 0 && Allocate(s.heap, choice1, 15) == choice1)
    && choice2 != 0 && Allocate(heap1, choice2, 5) == choice2
  }

  /** FPAddFunctionPatch fails, with the heap as it was, unless both blocks are granted; else it patches the listed entry. */
  lemma AddCases(s: State, q: Request, choice1: Addr, choice2: Addr)
    ensures Granted(s, q, choice1, choice2) ==>
              var r := PatchEntry(Listed(s, q, choice1, choice2), |s.entries|);
              Add(s, q, choice1, choice2) == if r.Some? then Added(r.value) else Stopped
    ensures !Granted(s, q, choice1, choice2) ==> Add(s, q, choice1, choice2) == NoMemory(s.heap)
  {
    hide PatchEntry, NeedsTrampoline, Cells;
    var needs := NeedsTrampoline(q.process, q.repl);
    if needs && choice1 != 0 && Allocate(s.heap, choice1, 15) == choice1 {
      var b := Block(choice1, 15);
      CellsHaveBase(choice1, 15);
      assert b !in s.heap;
      assert (s.heap + {b}) - {b} == s.heap;
    }
    if Granted(s, q, choice1, choice2) {
      var e := NewEntry(q, if needs then choice1 else 0, choice2);
      assert s.heap + BlocksOf(e) == (if needs then s.heap + {Block(choice1, 15)} else s.heap) + {Block(choice2, 5)};
    }
  }

  lemma CellsHaveBase(b: Addr, n: nat)
    requires n > 0
    ensures b in Cells(b, n)
  {
    hide Next;
  }

  lemma ListedOwns(s: State, q: Request, choice1: Addr, choice2: Addr)
    requires Owns(s)
    ensures Owns(Listed(s, q, choice1, choice2))
  {
    hide BlocksOf, NeedsTrampoline;
    var e := NewEntry(q, if NeedsTrampoline(q.process, q.repl) then choice1 else 0, choice2);
    AllBlocksAdd(s.entries, [e]);
    assert [e][..0] == [];
    assert AllBlocks([e]) == AllBlocks([e][..0]) + BlocksOf(e);
  }

  /** A granted block shares no cell with the buffers of a listed entry. */
  lemma GrantedApart(heap: set<Block>, e: Entry, choice: Addr, words: nat)
    requires e.jumpToOriginal != 0 && BlocksOf(e) <= heap && choice != 0 && Allocate(heap, choice, words) == choice
    ensures Cells(choice, words) !! OwnCells(e)
  {
    hide Cells;
    assert Block(e.jumpToOriginal, 5) in heap;
    assert DisjointBlocks(Block(e.jumpToOriginal, 5), Block(choice, words));
    if e.jumpData != 0 {
      assert Block(e.jumpData, 15) in heap;
      assert DisjointBlocks(Block(e.jumpData, 15), Block(choice, words));
    }
  }

  lemma AllocateInMore(heap: set<Block>, heap': set<Block>, choice: Addr, words: nat)
    requires heap <= heap' && choice != 0 && Allocate(heap', choice, words) == choice
    ensures Allocate(heap, choice, words) == choice
  {
  }

  lemma ListedBlocks(s: State, i: nat)
    requires Owns(s) && i < |s.entries|
    ensures BlocksOf(s.entries[i]) <= s.heap
  {
    hide BlocksOf;
    forall b | b in BlocksOf(s.entries[i])
      ensures b in s.heap
    {
      AllBlocksMeans(s.entries, b);
    }
  }

  lemma NewEntryLaidOut(s: State, w: World, q: Request, choice1: Addr, choice2: Addr)
    requires RequestSound(s, w, q, choice1, choice2) && Granted(s, q, choice1, choice2)
    ensures var e := NewEntry(q, if NeedsTrampoline(q.process, q.repl) then choice1 else 0, choice2);
            EntryLaidOut(s.env, w, e)
  {
    hide Cells, Short, Aligned, NeedsTrampoline, SiteSound;
    if NeedsTrampoline(q.process, q.repl) {
      assert DisjointBlocks(Block(choice1, 15), Block(choice2, 5));
    }
  }

  lemma NewEntryApart(s: State, w: World, q: Request, choice1: Addr, choice2: Addr, i: nat)
    requires Owns(s) && LaidOut(s, w) && i < |s.entries|
    requires Granted(s, q, choice1, choice2)
    ensures var e := NewEntry(q, if NeedsTrampoline(q.process, q.repl) then choice1 else 0, choice2);
            OwnCells(e) !! OwnCells(s.entries[i])
  {
    assert EntryLaidOut(s.env, w, s.entries[i]);
    hide Cells, Short, Aligned, NeedsTrampoline, LaidOut, BlocksOf, AllBlocks, Owns, Allocate;
    ListedBlocks(s, i);
    var heap1 := if NeedsTrampoline(q.process, q.repl) then s.heap + {Block(choice1, 15)} else s.heap;
    AllocateInMore(s.heap, heap1, choice2, 5);
    GrantedApart(s.heap, s.entries[i], choice2, 5);
    if NeedsTrampoline(q.process, q.repl) {
      GrantedApart(s.heap, s.entries[i], choice1, 15);
    }
  }

  lemma ListedLaidOut(s: State, w: World, q: Request, choice1: Addr, choice2: Addr)
    requires Assumed(s, w) && LaidOut(s, w) && Owns(s)
    requires RequestSound(s, w, q, choice1, choice2) && Granted(s, q, choice1, choice2)
    ensures Assumed(Listed(s, q, choice1, choice2), w) && LaidOut(Listed(s, q, choice1, choice2), w)
  {
    hide SiteSound, EntryLaidOut, OwnCells, Injective, NeedsTrampoline, Granted, Owns, BlocksOf, Short, Aligned, NewEntry;
    NewEntryLaidOut(s, w, q, choice1, choice2);
    var e := NewEntry(q, if NeedsTrampoline(q.process, q.repl) then choice1 else 0, choice2);
    forall i: nat | i < |s.entries|
      ensures OwnCells(e) !! OwnCells(s.entries[i])
    {
      NewEntryApart(s, w, q, choice1, choice2, i);
    }
    NewEntryFields(q, if NeedsTrampoline(q.process, q.repl) then choice1 else 0, choice2);
  }

  lemma NewEntryFields(q: Request, jumpData: Addr, jumpToOriginal: Addr)
    ensures var e := NewEntry(q, jumpData, jumpToOriginal); e.realCall == q.realCall && !e.isPatched
  {
  }

  lemma ListedIsWhole(s: State, w: World, q: Request, choice1: Addr, choice2: Addr)
    requires Whole(s, w) && Owns(s)
    requires RequestSound(s, w, q, choice1, choice2) && Granted(s, q, choice1, choice2)
    ensures Whole(Listed(s, q, choice1, choice2), w)
  {
    hide Assumed, LaidOut, PlainCode, SiteOf, Reachable, Restorable, Emitted, NeedsTrampoline, RequestSound, Granted, Owns, BlocksOf, NewEntry;
    NewEntryFields(q, if NeedsTrampoline(q.process, q.repl) then choice1 else 0, choice2);
    ListedLaidOut(s, w, q, choice1, choice2);
    SameMemoryIsPlain(s, Listed(s, q, choice1, choice2), w);
  }

  /** FPAddFunctionPatch, whatever the order of patches: it is never fatal and keeps the ownership of blocks. */
  lemma AddOwns(s: State, w: World, q: Request, choice1: Addr, choice2: Addr)
    requires Whole(s, w) && Owns(s)
    requires RequestSound(s, w, q, choice1, choice2)
    ensures !Add(s, q, choice1, choice2).Stopped?
    ensures Add(s, q, choice1, choice2).NoMemory? ==> Add(s, q, choice1, choice2).heap == s.heap
    ensures Add(s, q, choice1, choice2).Added? ==>
              Whole(Add(s, q, choice1, choice2).state, w) && Owns(Add(s, q, choice1, choice2).state)
  {
    hide Whole, Steady, SiteOf, Granted, BlocksOf, AllBlocks, SameConfig, RequestSound, PatchEntry, PatchedState, Waiting, SameShape, Add, NewEntry;
    AddCases(s, q, choice1, choice2);
    if Granted(s, q, choice1, choice2) {
      var l := Listed(s, q, choice1, choice2);
      ListedIsWhole(s, w, q, choice1, choice2);
      ListedOwns(s, q, choice1, choice2);
      WholeIsSteady(l, w);
      var s' := PatchAny(l, w, |s.entries|);
      SameConfigSameBlocks(l.entries, s'.entries);
    }
  }

  /** The new entry is listed behind all others, which wait or do not as before. */
  lemma ListedIsPre(s: State, w: World, q: Request, choice1: Addr, choice2: Addr)
    requires Pre(s, w) && Owns(s)
    requires RequestSound(s, w, q, choice1, choice2) && Granted(s, q, choice1, choice2)
    ensures Pre(Listed(s, q, choice1, choice2), w)
    ensures forall i :: 0 <= i < |s.entries| ==> (Waiting(Listed(s, q, choice1, choice2), w, i) <==> Waiting(s, w, i))
  {
    hide Assumed, LaidOut, SiteOf, Reachable, Emitted, ChainAt, NeedsTrampoline, RequestSound, Granted, Owns, BlocksOf, NewEntry;
    var e := NewEntry(q, if NeedsTrampoline(q.process, q.repl) then choice1 else 0, choice2);
    NewEntryFields(q, if NeedsTrampoline(q.process, q.repl) then choice1 else 0, choice2);
    ListedLaidOut(s, w, q, choice1, choice2);
    forall a | a !in w.data
      ensures ChainAt(s.mem, w.pristine, s.entries + [e], a)
    {
      assert ChainAt(s.mem, w.pristine, s.entries, a);
      OnAdd(s.entries, [e], a);
      OnOne(e, a);
      SameOnSameChain(s.mem, w.pristine, s.entries, s.entries + [e], a);
    }
    var l := Listed(s, q, choice1, choice2);
    forall i: nat | i < |s.entries|
      ensures Waiting(l, w, i) <==> Waiting(s, w, i)
    {
      assert l.entries[i] == s.entries[i];
    }
  }

  // ----- adding while patches are waiting -----

  /** Patching the last entry of the list keeps the invariant: nothing can be patched above it. */
  lemma PatchLast(s: State, w: World) returns (s': State)
    requires Pre(s, w) && s.entries != [] && !s.entries[|s.entries| - 1].isPatched
    ensures PatchEntry(s, |s.entries| - 1) == Some(s') && Pre(s', w)
    ensures s'.env == s.env && s'.heap == s.heap && |s'.entries| == |s.entries|
    ensures forall i :: 0 <= i < |s.entries| ==> SameConfig(s.entries[i], s'.entries[i])
    ensures SameShape(s.env, w.pristine, s.entries, s'.entries)
    ensures forall i :: 0 <= i < |s.entries| - 1 ==> s'.entries[i] == s.entries[i]
    ensures forall i :: 0 <= i < |s.entries| ==> (Waiting(s', w, i) <==> Waiting(s, w, i) && i != |s.entries| - 1)
    ensures var site := SiteOf(s.env, w.pristine, s.entries[|s.entries| - 1]);
            s' == if site.Resolved? then PatchedState(s, |s.entries| - 1, site.eff, site.phys) else s
  {
    hide Pre, Steady, SiteOf, PatchEntry, PatchWrites, Filled, SameShape, SameConfig;
    var k := |s.entries| - 1;
    PreIsSteady(s, w);
    s' := PatchAny(s, w, k);
    if Waiting(s, w, k) {
      var site := SiteOf(s.env, w.pristine, s.entries[k]);
      PatchKeepsPre(s, w, k, site.eff, site.phys);
    }
  }

  /**
   FPAddFunctionPatch while patches may be waiting: it never stops the console, keeps the chains of
   all addresses and the ownership of blocks, and leaves every other entry as it was.
   */
  lemma AddKeepsPre(s: State, w: World, q: Request, choice1: Addr, choice2: Addr)
    requires Pre(s, w) && Owns(s)
    requires RequestSound(s, w, q, choice1, choice2)
    ensures !Add(s, q, choice1, choice2).Stopped?
    ensures Add(s, q, choice1, choice2).NoMemory? ==> Add(s, q, choice1, choice2).heap == s.heap
    ensures Add(s, q, choice1, choice2).Added? ==>
              var s' := Add(s, q, choice1, choice2).state;
              && Pre(s', w) && Owns(s') && s'.env == s.env
              && |s'.entries| == |s.entries| + 1 && s'.entries[..|s.entries|] == s.entries && !Waiting(s', w, |s.entries|)
              && var e := NewEntry(q, if NeedsTrampoline(q.process, q.repl) then choice1 else 0, choice2);
                 SameConfig(e, s'.entries[|s.entries|]) && SameSite(s.env, w.pristine, e, s'.entries[|s.entries|])
  {
    hide Pre, SiteOf, NeedsTrampoline, Granted, BlocksOf, AllBlocks, SameSite, SameBuffers, RequestSound, PatchEntry, Waiting, SameShape, Add, NewEntry;
    AddCases(s, q, choice1, choice2);
    if Granted(s, q, choice1, choice2) {
      var l := Listed(s, q, choice1, choice2);
      ListedIsPre(s, w, q, choice1, choice2);
      ListedOwns(s, q, choice1, choice2);
      NewEntryFields(q, if NeedsTrampoline(q.process, q.repl) then choice1 else 0, choice2);
      var s' := PatchLast(l, w);
      SameConfigSameBlocks(l.entries, s'.entries);
      assert SameConfig(l.entries[|s.entries|], s'.entries[|s.entries|]);
      ShapeAt(s.env, w.pristine, l.entries, s'.entries, |s.entries|);
      assert forall i :: 0 <= i < |s.entries| ==> l.entries[..|s.entries|][i] == s.entries[i];
    }
  }

  lemma ShapeAt(env: Env, pristine: Memory, es: seq<Entry>, fs: seq<Entry>, i: nat)
    requires SameShape(env, pristine, es, fs) && i < |es|
    ensures SameSite(env, pristine, es[i], fs[i])
  {
  }

  /** If nothing was waiting, nothing is. */
  lemma AddKeepsInv(s: State, w: World, q: Request, choice1: Addr, choice2: Addr)
    requires Inv(s, w) && Owns(s)
    requires RequestSound(s, w, q, choice1, choice2)
    ensures Add(s, q, choice1, choice2).Added? ==> Inv(Add(s, q, choice1, choice2).state, w)
  {
    hide Pre, SiteOf, NeedsTrampoline, AllBlocks, SameConfig, SameSite, RequestSound, Add, NewEntry;
    AddKeepsPre(s, w, q, choice1, choice2);
    if Add(s, q, choice1, choice2).Added? {
      var s' := Add(s, q, choice1, choice2).state;
      forall i | 0 <= i < |s.entries|
        ensures !Waiting(s', w, i)
      {
        assert s'.entries[..|s.entries|][i] == s.entries[i] && !Waiting(s, w, i);
      }
    }
  }

  /**
   The order of list and memory: after an add no patched entry is above a waiting one of its address
   if and only if that was so before and, where the new patch is applied, none is waiting.
   */
  lemma AddIsOrderedIff(s: State, w: World, q: Request, choice1: Addr, choice2: Addr)
    requires Pre(s, w) && Owns(s)
    requires RequestSound(s, w, q, choice1, choice2) && Add(s, q, choice1, choice2).Added?
    ensures var site := SiteOf(s.env, w.pristine, NewEntry(q, if NeedsTrampoline(q.process, q.repl) then choice1 else 0, choice2));
            Ordered(Add(s, q, choice1, choice2).state, w)
            <==> Ordered(s, w) && (site.Resolved? ==> NoneWaitsBelow(s, w, |s.entries|, site.phys))
  {
    hide Pre, SiteOf, NeedsTrampoline, Granted, BlocksOf, AllBlocks, RequestSound, PatchEntry, SameShape, SameConfig, Add, NewEntry, Ordered, NoneWaitsBelow;
    AddCases(s, q, choice1, choice2);
    var l := Listed(s, q, choice1, choice2);
    ListedIsPre(s, w, q, choice1, choice2);
    NewEntryFields(q, if NeedsTrampoline(q.process, q.repl) then choice1 else 0, choice2);
    var s' := PatchLast(l, w);
    LastIsOrderedIff(s, s', w, l.entries[|s.entries|]);
  }

  /** `s'` has one entry more, patched at the site of `e` if that resolves. */
  lemma LastIsOrderedIff(s: State, s': State, w: World, e: Entry)
    requires s'.env == s.env && |s'.entries| == |s.entries| + 1 && s'.entries[..|s.entries|] == s.entries
    requires var site, f := SiteOf(s.env, w.pristine, e), s'.entries[|s.entries|];
             f.isPatched == site.Resolved? && (site.Resolved? ==> f.phys == site.phys)
    ensures var site := SiteOf(s.env, w.pristine, e);
            Ordered(s', w) <==> Ordered(s, w) && (site.Resolved? ==> NoneWaitsBelow(s, w, |s.entries|, site.phys))
  {
    hide SiteOf;
    var n := |s.entries|;
    assert forall i :: 0 <= i < n ==> s'.entries[i] == s'.entries[..n][i] == s.entries[i];
    if Ordered(s', w) {
      forall i, j | 0 <= i < j < n && s.entries[j].isPatched && GoesTo(s.env, w.pristine, s.entries[i], s.entries[j].phys)
        ensures s.entries[i].isPatched
      {
        assert GoesTo(s'.env, w.pristine, s'.entries[i], s'.entries[j].phys);
      }
      forall i | 0 <= i < n && s'.entries[n].isPatched && GoesTo(s.env, w.pristine, s.entries[i], s'.entries[n].phys)
        ensures s.entries[i].isPatched
      {
        assert GoesTo(s'.env, w.pristine, s'.entries[i], s'.entries[n].phys);
      }
    }
    if Ordered(s, w) && (SiteOf(s.env, w.pristine, e).Resolved? ==> NoneWaitsBelow(s, w, n, SiteOf(s.env, w.pristine, e).phys)) {
      forall i, j | 0 <= i < j < n + 1 && s'.entries[j].isPatched && GoesTo(s'.env, w.pristine, s'.entries[i], s'.entries[j].phys)
        ensures s'.entries[i].isPatched
      {
        assert GoesTo(s.env, w.pristine, s.entries[i], s'.entries[j].phys);
        if j == n {
          assert !Waiting(s, w, i);
        }
      }
    }
  }
}
