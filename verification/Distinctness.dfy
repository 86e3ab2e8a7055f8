/**
 Branch words identify patches: what follows for restores out of order, for walks through the
 stack, and for trampolines that have been given back.
 */
module Distinctness {
  import opened Words
  import opened Machine
  import opened CodeGen
  import opened Dispatch
  import opened PatchStack
  import opened Writing
  import opened Chain
  import opened Keeping
  import opened Removal
  import opened Rebuilding
  import opened Scanning

  /**
   Replacement functions do not lie in trampolines, and patches without a trampoline on one address
   have different replacement functions (H5).
   */
  ghost predicate ReplacementsApart(s: State) {
    && (forall i, j :: 0 <= i < |s.entries| && 0 <= j < |s.entries| ==> s.entries[i].repl !in OwnCells(s.entries[j]))
    && (forall i, j :: 0 <= i < |s.entries| && 0 <= j < |s.entries| && i != j
          && s.entries[i].isPatched && s.entries[j].isPatched && s.entries[i].phys == s.entries[j].phys
          && !NeedsTrampoline(s.entries[i].process, s.entries[i].repl)
          && !NeedsTrampoline(s.entries[j].process, s.entries[j].repl)
          ==> s.entries[i].repl != s.entries[j].repl)
  }

  /** Where the branch word of an entry goes: into its trampoline or its replacement. */
  function BranchTarget(e: Entry): Addr {
    if NeedsTrampoline(e.process, e.repl) then e.jumpData else e.repl
  }

  lemma BranchWord(e: Entry)
    requires Reachable(e)
    ensures Short(BranchTarget(e)) && e.replaceWith == Ba(BranchTarget(e))
    ensures Decode(e.replaceWith) == BranchAbs(BranchTarget(e))
  {
    hide Decode, Ba, Short, NeedsTrampoline;
    if !NeedsTrampoline(e.process, e.repl) {
      DirectIsShort(e);
    }
    BaDecodes(BranchTarget(e));
  }

  lemma TrampolineIsOwn(env: Env, w: World, e: Entry)
    requires EntryLaidOut(env, w, e) && NeedsTrampoline(e.process, e.repl)
    ensures e.jumpData in OwnCells(e)
  {
    hide Next, Short, Aligned, NeedsTrampoline;
    assert e.jumpData in Cells(e.jumpData, 15);
  }

  /** No two patches on one address write the same branch word. */
  lemma BranchWordsDiffer(s: State, w: World, i: nat, j: nat)
    requires Whole(s, w) && ReplacementsApart(s)
    requires i < |s.entries| && j < |s.entries| && i != j
    requires s.entries[i].isPatched && s.entries[j].isPatched && s.entries[i].phys == s.entries[j].phys
    ensures s.entries[i].replaceWith != s.entries[j].replaceWith
  {
    hide SiteOf, NeedsTrampoline, Cells, OwnCells, Short, Ba, Decode, Aligned, PlainCode, Located, BuffersFilled, Assumed, Reachable, EntryLaidOut;
    var e, f := s.entries[i], s.entries[j];
    BranchWord(e);
    BranchWord(f);
    if NeedsTrampoline(e.process, e.repl) {
      TrampolineIsOwn(s.env, w, e);
    }
    if NeedsTrampoline(f.process, f.repl) {
      TrampolineIsOwn(s.env, w, f);
    }
    BaInjective(BranchTarget(e), BranchTarget(f));
  }

  /** A patch can be restored by itself exactly when it is on top; otherwise the attempt fails and changes nothing. */
  lemma OnlyTheTopCanBeRestored(s: State, w: World, i: nat)
    requires Pre(s, w) && ReplacementsApart(s) && i < |s.entries| && s.entries[i].isPatched
    ensures RestoreSucceeds(s, i) <==> OnTop(s, w, i)
    ensures !OnTop(s, w, i) ==> RestoreEntry(s, i) == s
  {
    hide Pre, Whole, ReplacementsApart, SiteOf, Reachable, Injective;
    if OnTop(s, w, i) {
      RestoreTopGuards(s, w, i);
    } else {
      var a, l := s.entries[i].phys, LastAt(s.entries, |s.entries|, s.entries[i].phys);
      PatchedFacts(s, w, i);
      PreIsWhole(s, w);
      ChainIsStillThere(s.mem, w.pristine, s.entries, a);
      LastAtMeans(s.entries, |s.entries|, a);
      BranchWordsDiffer(s, w, i, l);
    }
  }

  /** The original word at `a` is no branch word of a patch there (H3). */
  ghost predicate PristineApart(s: State, w: World, a: Addr) {
    forall i :: 0 <= i < |s.entries| && s.entries[i].isPatched && s.entries[i].phys == a ==>
      s.entries[i].replaceWith != w.pristine(a)
  }

  lemma {:induction false} OnWordsDiffer(s: State, w: World, a: Addr, n: nat)
    requires Pre(s, w) && ReplacementsApart(s) && PristineApart(s, w, a) && n <= |s.entries|
    ensures DistinctWords(w.pristine(a), On(s.entries[..n], a))
  {
    hide Pre, Whole, ReplacementsApart, DistinctWords, On;
    assert s.entries[..0] == [];
    OnEmpty(w.pristine(a), a);
    if n > 0 {
      OnWordsDiffer(s, w, a, n - 1);
      var es, e := On(s.entries[..n - 1], a), s.entries[n - 1];
      OnSnoc(s.entries, n, a);
      if e.isPatched && e.phys == a {
        forall t: nat | t < |es|
          ensures es[t].replaceWith != e.replaceWith
        {
          var i := OnIndex(s.entries[..n - 1], a, t);
          PreIsWhole(s, w);
          BranchWordsDiffer(s, w, i, n - 1);
        }
        DistinctMore(w.pristine(a), es, e);
      } else {
        assert es + [] == es;
      }
    }
  }

  lemma OnEmpty(x: Word, a: Addr)
    ensures On([], a) == [] && DistinctWords(x, On([], a))
  {
  }

  lemma OnSnoc(es: seq<Entry>, n: nat, a: Addr)
    requires 0 < n <= |es|
    ensures On(es[..n], a) == On(es[..n - 1], a) + if es[n - 1].isPatched && es[n - 1].phys == a then [es[n - 1]] else []
  {
    assert es[..n][..n - 1] == es[..n - 1];
  }

  lemma DistinctMore(x: Word, es: seq<Entry>, e: Entry)
    requires DistinctWords(x, es) && e.replaceWith != x
    requires forall t: nat :: t < |es| ==> es[t].replaceWith != e.replaceWith
    ensures DistinctWords(x, es + [e])
  {
  }

  /**
   In every state that satisfies the invariant, following displaced words from patch to patch goes
   strictly down the stack of an address and ends at the original word.
   */
  lemma NoDispatchCycle(s: State, w: World, a: Addr, path: seq<nat>, t: nat)
    requires Pre(s, w) && ReplacementsApart(s) && PristineApart(s, w, a) && a !in w.data
    requires FollowsDisplaced(On(s.entries, a), path) && t < |path|
    ensures t <= path[0] && path[t] == path[0] - t
    ensures On(s.entries, a)[path[t]].replaced == w.pristine(a) <==> path[t] == 0
  {
    hide ReplacementsApart, PristineApart, SiteOf, On, Linked, DistinctWords, Located, BuffersFilled, Assumed, LaidOut, WordsRight;
    OnWordsDiffer(s, w, a, |s.entries|);
    assert s.entries[..|s.entries|] == s.entries;
    assert ChainAt(s.mem, w.pristine, s.entries, a);
    DisplacedWordsDescend(w.pristine(a), On(s.entries, a), path, t);
  }

  // ----- trampolines that have been given back -----

  /** The word branches into the buffers of `e`. */
  predicate BranchesInto(v: Word, e: Entry) {
    Decode(v).BranchAbs? && Decode(v).target in OwnCells(e)
  }

  /** The listed patches have nothing to do with the buffers of `e`. */
  ghost predicate Strangers(s: State, e: Entry) {
    forall i :: 0 <= i < |s.entries| ==> OwnCells(s.entries[i]) !! OwnCells(e) && s.entries[i].repl !in OwnCells(e)
  }

  lemma StrangerDoesNotBranchInto(env: Env, w: World, f: Entry, e: Entry)
    requires Reachable(f) && EntryLaidOut(env, w, f) && OwnCells(f) !! OwnCells(e) && f.repl !in OwnCells(e)
    ensures !BranchesInto(f.replaceWith, e)
  {
    hide Decode, Ba, Short, Aligned, Cells, OwnCells, Reachable, EntryLaidOut;
    BranchWord(f);
    if NeedsTrampoline(f.process, f.repl) {
      TrampolineIsOwn(env, w, f);
    }
  }

  /** No word found in a chain of strangers branches into the buffers of `e`, if the original word does not. */
  lemma BelowDoesNotBranchInto(s: State, w: World, e: Entry, a: Addr, n: nat)
    requires Pre(s, w) && Strangers(s, e) && !BranchesInto(w.pristine(a), e) && n <= |s.entries|
    ensures var on := On(s.entries[..n], a); !BranchesInto(Below(w.pristine(a), on, |on|), e)
  {
    hide BranchesInto, OwnCells, SiteOf, Reachable, EntryLaidOut, Chained, Located, BuffersFilled, Assumed;
    var on := On(s.entries[..n], a);
    if on != [] {
      var i := OnIndex(s.entries[..n], a, |on| - 1);
      StrangerDoesNotBranchInto(s.env, w, s.entries[i], e);
    }
  }

  /**
   After patch `k` is removed, in either form of the code, neither a word of code nor the displaced
   word of a patched entry branches into the buffers that were given back.
   */
  lemma FreedBuffersAreUnreachable(s: State, w: World, k: nat, guardFirst: bool)
    requires Pre(s, w) && (guardFirst ==> Inv(s, w)) && ReplacementsApart(s) && k < |s.entries|
    requires forall a :: a !in w.data ==> !BranchesInto(w.pristine(a), s.entries[k])
    ensures var r := Remove(s, k, guardFirst);
            && r.Some?
            && (forall a :: a !in w.data ==> !BranchesInto(r.value.mem(a), s.entries[k]))
            && (forall i :: 0 <= i < |r.value.entries| && r.value.entries[i].isPatched ==>
                  !BranchesInto(r.value.entries[i].replaced, s.entries[k]))
  {
    hide Pre, Waiting, SiteOf, BranchesInto, Remove, Strangers, ReplacementsApart;
    var e := s.entries[k];
    RemovedIsStrange(s, w, k, guardFirst);
    var r := Remove(s, k, guardFirst).value;
    forall a | a !in w.data
      ensures !BranchesInto(r.mem(a), e)
    {
      BelowDoesNotBranchInto(r, w, e, a, |r.entries|);
      assert r.entries[..|r.entries|] == r.entries;
      PreChain(r, w, a);
    }
    forall i: nat | i < |r.entries| && r.entries[i].isPatched
      ensures !BranchesInto(r.entries[i].replaced, e)
    {
      PatchedFacts(r, w, i);
      SavedIsBelow(r.mem, w.pristine, r.entries, i);
      BelowDoesNotBranchInto(r, w, e, r.entries[i].phys, i);
    }
  }

  lemma PreChain(s: State, w: World, a: Addr)
    requires Pre(s, w) && a !in w.data
    ensures s.mem(a) == Below(w.pristine(a), On(s.entries, a), |On(s.entries, a)|)
  {
    hide Assumed, LaidOut, Located, WordsRight, BuffersFilled, Linked, On;
    assert ChainAt(s.mem, w.pristine, s.entries, a);
  }

  lemma RemovedIsStrange(s: State, w: World, k: nat, guardFirst: bool)
    requires Pre(s, w) && (guardFirst ==> Inv(s, w)) && ReplacementsApart(s) && k < |s.entries|
    ensures var r := Remove(s, k, guardFirst); r.Some? && Pre(r.value, w) && Strangers(r.value, s.entries[k])
  {
    hide SiteOf, Remove, Erase, Waiting, OwnCells, Assumed, Chained, Located, WordsRight, BuffersFilled, EntryLaidOut, BeforeReapply, Unstacked, SameSite;
    if guardFirst {
      IntendedRemovalKeepsInv(s, w, k);
    }
    AsWrittenIsBeforeReapply(s, w, k);
    BeforeReapplyIsPre(s, w, k);
    BeforeReapplyPatches(s, w, k);
    HeapIsIrrelevant(BeforeReapply(s, k), w, s.heap - BlocksOf(s.entries[k]));
    var r := Remove(s, k, guardFirst).value;
    forall i: nat | i < |r.entries|
      ensures OwnCells(r.entries[i]) !! OwnCells(s.entries[k]) && r.entries[i].repl !in OwnCells(s.entries[k])
    {
      ErasedAt(s.entries, k, i);
      assert SameConfig(Erase(s.entries, k)[i], r.entries[i]);
      SameBuffersSameLayout(s.env, w, s.entries[OldIndex(k, i)], r.entries[i]);
    }
  }

  lemma BeforeReapplyPatches(s: State, w: World, k: nat)
    requires Pre(s, w) && k < |s.entries|
    ensures SamePatches(s.env, w.pristine, Erase(s.entries, k), BeforeReapply(s, k).entries)
  {
    hide Pre, SamePatches, Unstacked;
    UnstackedSamePatches(s, w, k);
    EraseSamePatches(s.env, w.pristine, s.entries, Unstacked(s, k).entries, k);
  }
}
