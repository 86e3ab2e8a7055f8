/**
 The invariant determines the patched memory, so a removal is the same as building the remaining
 stack anew from the original memory.
 */
module Rebuilding {
  import opened Words
  import opened Machine
  import opened CodeGen
  import opened Loading
  import opened Dispatch
  import opened PatchStack
  import opened Writing
  import opened Chain
  import opened Keeping
  import opened Removal

  // ----- the invariant determines the state -----

  /** The same entries are patched, with the same values in every field. */
  ghost predicate SamePatched(es: seq<Entry>, fs: seq<Entry>) {
    && |es| == |fs|
    && forall i :: 0 <= i < |es| ==> es[i].isPatched == fs[i].isPatched && (es[i].isPatched ==> es[i] == fs[i])
  }

  lemma {:induction false} OnSamePatched(es: seq<Entry>, fs: seq<Entry>, a: Addr)
    requires SamePatched(es, fs)
    ensures On(es, a) == On(fs, a)
    decreases |es|
  {
    if es != [] {
      var n := |es| - 1;
      assert SamePatched(es[..n], fs[..n]);
      OnSamePatched(es[..n], fs[..n], a);
    }
  }

  /** A patched entry has saved the word that the entries before it leave at its address. */
  lemma SavedIsBelow(mem: Memory, pristine: Memory, es: seq<Entry>, i: nat)
    requires i < |es| && es[i].isPatched && ChainAt(mem, pristine, es, es[i].phys)
    ensures var a := es[i].phys;
            es[i].replaced == Below(pristine(a), On(es[..i], a), |On(es[..i], a)|)
  {
    hide On;
    var a := es[i].phys;
    OnSplit(es, i, a);
    var before, all := On(es[..i], a), On(es, a);
    assert all[|before|] == es[i];
    assert all[|before|].replaced == Below(pristine(a), all, |before|);
    assert |before| > 0 ==> all[|before| - 1] == before[|before| - 1];
  }

  lemma PatchedIffResolved(s: State, w: World, i: nat)
    requires Inv(s, w) && i < |s.entries|
    ensures s.entries[i].isPatched <==> SiteOf(s.env, w.pristine, s.entries[i]).Resolved?
  {
    hide SiteOf, Assumed, LaidOut, Chained, Ordered, WordsRight, BuffersFilled;
    assert !Waiting(s, w, i);
  }

  /** One more entry agrees when all before it do. */
  lemma NextAgrees(s: State, t: State, w: World, n: nat)
    requires Inv(s, w) && Inv(t, w) && s.env == t.env
    requires SamePatches(s.env, w.pristine, s.entries, t.entries)
    requires n < |s.entries| && SamePatched(s.entries[..n], t.entries[..n])
    ensures s.entries[n].isPatched == t.entries[n].isPatched
    ensures s.entries[n].isPatched ==> s.entries[n] == t.entries[n]
  {
    hide Pre, Waiting, SiteOf, ChainAt, On, Short, Aligned, IsRelativeBranch, ReplacementWord, Injective;
    var e, f := s.entries[n], t.entries[n];
    assert SameConfig(e, f) && SameSite(s.env, w.pristine, e, f);
    PatchedIffResolved(s, w, n);
    PatchedIffResolved(t, w, n);
    if e.isPatched {
      PatchedFacts(s, w, n);
      PatchedFacts(t, w, n);
      assert e.eff == f.eff && e.phys == f.phys;
      SavedIsBelow(s.mem, w.pristine, s.entries, n);
      SavedIsBelow(t.mem, w.pristine, t.entries, n);
      OnSamePatched(s.entries[..n], t.entries[..n], e.phys);
    }
  }

  lemma {:induction false} PrefixAgrees(s: State, t: State, w: World, n: nat)
    requires Inv(s, w) && Inv(t, w) && s.env == t.env
    requires SamePatches(s.env, w.pristine, s.entries, t.entries)
    requires n <= |s.entries|
    ensures SamePatched(s.entries[..n], t.entries[..n])
  {
    hide Inv, SiteOf, SameConfig, SameSite;
    if n > 0 {
      PrefixAgrees(s, t, w, n - 1);
      NextAgrees(s, t, w, n - 1);
      assert forall i :: 0 <= i < n - 1 ==> s.entries[..n][i] == s.entries[..n - 1][i] && t.entries[..n][i] == t.entries[..n - 1][i];
    }
  }

  /** Two states agree on the entries that are patched and on all code. */
  ghost predicate Agree(s: State, t: State, w: World) {
    SamePatched(s.entries, t.entries) && forall a :: a !in w.data ==> s.mem(a) == t.mem(a)
  }

  /**
   For one original memory and one list of patches there is only one way to satisfy the invariant:
   which entries are patched, every word they saved and wrote, and every word of code are determined.
   */
  lemma InvariantDeterminesState(s: State, t: State, w: World)
    requires Inv(s, w) && Inv(t, w) && s.env == t.env
    requires SamePatches(s.env, w.pristine, s.entries, t.entries)
    ensures Agree(s, t, w)
  {
    hide Assumed, LaidOut, Located, WordsRight, BuffersFilled, Waiting, SiteOf, SameConfig, SameSite, On, Linked;
    PrefixAgrees(s, t, w, |s.entries|) by { hide Pre; }
    assert s.entries[..|s.entries|] == s.entries && t.entries[..|s.entries|] == t.entries;
    forall a | a !in w.data
      ensures s.mem(a) == t.mem(a)
    {
      OnSamePatched(s.entries, t.entries, a);
      assert ChainAt(s.mem, w.pristine, s.entries, a) && ChainAt(t.mem, w.pristine, t.entries, a);
    }
  }

  /** ... and so is every word of the buffers that can be executed. */
  lemma InvariantDeterminesBuffers(s: State, t: State, w: World, i: nat, n: nat)
    requires Inv(s, w) && Inv(t, w) && s.env == t.env && Agree(s, t, w)
    requires i < |s.entries| && s.entries[i].isPatched
    ensures var e := s.entries[i];
            var v, v' := View(s.mem, s.env.xl), View(t.mem, t.env.xl);
            && (n < |JumpToOriginalWords(e.eff, e.replaced)| ==>
                  v(Advance(e.jumpToOriginal, n)) == v'(Advance(e.jumpToOriginal, n)))
            && (NeedsTrampoline(e.process, e.repl)
                && n < |TrampolineWords(e.process, s.env.plat, e.eff, e.replaced, e.repl)| ==>
                  v(Advance(e.jumpData, n)) == v'(Advance(e.jumpData, n)))
  {
    hide Assumed, LaidOut, Located, WordsRight, Chained, Waiting, SiteOf, View, JumpToOriginalWords, TrampolineWords, Holds, Advance, NeedsTrampoline;
    var e := s.entries[i];
    var v, v' := View(s.mem, s.env.xl), View(t.mem, t.env.xl);
    assert Emitted(v, s.env.plat, e) && Emitted(v', s.env.plat, t.entries[i]);
    if n < |JumpToOriginalWords(e.eff, e.replaced)| {
      HoldsAt(v, e.jumpToOriginal, JumpToOriginalWords(e.eff, e.replaced), n);
      HoldsAt(v', e.jumpToOriginal, JumpToOriginalWords(e.eff, e.replaced), n);
    }
    var tramp := TrampolineWords(e.process, s.env.plat, e.eff, e.replaced, e.repl);
    if NeedsTrampoline(e.process, e.repl) && n < |tramp| {
      HoldsAt(v, e.jumpData, tramp, n);
      HoldsAt(v', e.jumpData, tramp, n);
    }
  }

  lemma {:induction false} HoldsAt(v: Memory, b: Addr, ws: seq<Word>, n: nat)
    requires Holds(v, b, ws) && n < |ws|
    ensures v(Advance(b, n)) == ws[n]
    decreases n
  {
    hide Next;
    if n > 0 {
      HoldsAt(v, Next(b), ws[1..], n - 1);
    }
  }

  // ----- building anew -----

  /** Original code, and no entry patched. */
  ghost function Blank(s: State, w: World): State {
    s.(mem := (a: Addr) => if a in w.data then s.mem(a) else w.pristine(a),
       entries := seq(|s.entries|, i requires 0 <= i < |s.entries| => Off(s.entries[i])))
  }

  lemma BlankSamePatches(s: State, w: World)
    ensures SamePatches(s.env, w.pristine, s.entries, Blank(s, w).entries)
    ensures SameShape(s.env, w.pristine, s.entries, Blank(s, w).entries)
  {
    hide SiteOf, SameSite, SameBuffers;
    forall i | 0 <= i < |s.entries|
      ensures SameConfig(s.entries[i], Off(s.entries[i])) && SameSite(s.env, w.pristine, s.entries[i], Off(s.entries[i]))
      ensures SameBuffers(s.entries[i], Off(s.entries[i]))
    {
      OffHasSameShape(s.env, w.pristine, s.entries[i]);
    }
  }

  lemma BlankIsPre(s: State, w: World)
    requires Assumed(s, w) && LaidOut(s, w)
    ensures Pre(Blank(s, w), w) && Ordered(Blank(s, w), w)
  {
    hide Assumed, LaidOut, SiteOf, Reachable, Emitted, SameShape, SamePatches;
    var b := Blank(s, w);
    BlankSamePatches(s, w);
    SameShapeKeeps(s, b, w);
    forall a | a !in w.data
      ensures ChainAt(b.mem, w.pristine, b.entries, a)
    {
      OnNone(b.entries, a);
    }
  }

  /** Applying all patches, in list order, to the original code. */
  ghost function Rebuilt(s: State, w: World): Option<State> {
    Sweep(Blank(s, w))
  }

  lemma RebuiltIsInv(s: State, w: World)
    requires Assumed(s, w) && LaidOut(s, w)
    ensures var r := Rebuilt(s, w);
            r.Some? && Inv(r.value, w) && r.value.env == s.env
            && SamePatches(s.env, w.pristine, s.entries, r.value.entries)
  {
    hide Assumed, LaidOut, SiteOf, Pre, SameSite, SameBuffers, Waiting;
    var b := Blank(s, w);
    BlankIsPre(s, w);
    BlankSamePatches(s, w);
    var idxs := Upto(|b.entries|);
    assert AllWaitingIn(b, w, idxs) by {
      forall i: nat | i < |b.entries| ensures i in idxs { assert idxs[i] == i; }
    }
    PatchManyEstablishesInv(b, w, idxs);
    ShapeAndConfig(s.env, w.pristine, b.entries, Sweep(b).value.entries);
    SamePatchesTransitive(s.env, w.pristine, s.entries, b.entries, Sweep(b).value.entries);
  }

  /** Any state that satisfies the invariant is the one built anew from its own list. */
  lemma InvIsRebuilt(s: State, w: World)
    requires Inv(s, w)
    ensures Rebuilt(s, w).Some? && Agree(s, Rebuilt(s, w).value, w)
  {
    hide Assumed, LaidOut, Chained, Located, WordsRight, BuffersFilled, Waiting, SiteOf, Rebuilt, Agree, SamePatches;
    RebuiltIsInv(s, w);
    InvariantDeterminesState(s, Rebuilt(s, w).value, w);
  }

  // ----- removal as intended is rebuilding -----

  function Without(s: State, k: nat): State
    requires k < |s.entries|
  {
    s.(entries := Erase(s.entries, k))
  }

  /**
   Removing patch `k`, with the guard read before the restores, gives the code memory, the flags and
   the saved words that applying the other patches in list order to the original code gives.
   */
  lemma RemovalIsRebuilding(s: State, w: World, k: nat)
    requires Inv(s, w) && k < |s.entries|
    ensures Remove(s, k, true).Some? && Rebuilt(Without(s, k), w).Some?
    ensures Agree(Remove(s, k, true).value, Rebuilt(Without(s, k), w).value, w)
  {
    hide Chained, Located, WordsRight, BuffersFilled, Assumed, LaidOut, Waiting, SiteOf, Rebuilt, Agree, SamePatches, Remove, Erase;
    IntendedRemovalKeepsInv(s, w, k);
    var rest, r := Without(s, k), Remove(s, k, true).value;
    EraseKeepsLayout(s, rest, w, k);
    RebuiltIsInv(rest, w);
    var b := Rebuilt(rest, w).value;
    SamePatchesTransitive(s.env, w.pristine, rest.entries, r.entries, r.entries) by {
      SamePatchesReflexive(s.env, w.pristine, r.entries);
    }
    SamePatchesTransitive(s.env, w.pristine, r.entries, rest.entries, b.entries);
    InvariantDeterminesState(r, b, w);
  }

  lemma SamePatchesReflexive(env: Env, pristine: Memory, es: seq<Entry>)
    ensures SamePatches(env, pristine, es, es)
  {
    hide SiteOf;
  }

  lemma {:induction false} OnPointwise(es: seq<Entry>, fs: seq<Entry>, a: Addr)
    requires |es| == |fs|
    requires forall i :: 0 <= i < |es| && ((es[i].isPatched && es[i].phys == a) || (fs[i].isPatched && fs[i].phys == a)) ==> es[i] == fs[i]
    ensures On(es, a) == On(fs, a)
    decreases |es|
  {
    if es != [] {
      var n := |es| - 1;
      OnPointwise(es[..n], fs[..n], a);
    }
  }

  /** Code at every other address keeps its word. */
  lemma RemovalLeavesOtherAddresses(s: State, w: World, k: nat, a: Addr)
    requires Inv(s, w) && k < |s.entries| && a !in w.data && a != s.entries[k].phys
    ensures Remove(s, k, true).Some? && Remove(s, k, true).value.mem(a) == s.mem(a)
    ensures On(Remove(s, k, true).value.entries, a) == On(s.entries, a)
  {
    hide Pre, Waiting, SiteOf, Remove, Unstacked, On, SameConfig;
    IntendedRemovalKeepsInv(s, w, k);
    var r, rest := Remove(s, k, true).value, Erase(s.entries, k);
    forall i: nat | i < |rest| && ((rest[i].isPatched && rest[i].phys == a) || (r.entries[i].isPatched && r.entries[i].phys == a))
      ensures rest[i] == r.entries[i]
    {
      OtherEntryKept(s, w, k, a, i);
    }
    OnPointwise(rest, r.entries, a);
    OnErased(s.entries, k, a);
    ChainOf(s, w, a);
    ChainOf(r, w, a);
  }

  lemma ChainOf(s: State, w: World, a: Addr)
    requires Inv(s, w) && a !in w.data
    ensures s.mem(a) == Below(w.pristine(a), On(s.entries, a), |On(s.entries, a)|)
  {
    hide Assumed, LaidOut, Located, WordsRight, BuffersFilled, Waiting, Linked, On;
    assert ChainAt(s.mem, w.pristine, s.entries, a);
  }

  lemma OtherEntryKept(s: State, w: World, k: nat, a: Addr, i: nat)
    requires Inv(s, w) && k < |s.entries| && a != s.entries[k].phys && i < |s.entries| - 1
    requires var r := Remove(s, k, true);
             && r.Some? && Inv(r.value, w) && r.value.env == s.env
             && SamePatches(s.env, w.pristine, Erase(s.entries, k), r.value.entries)
             && (forall i: nat :: i < |r.value.entries| && !Waiting(BeforeReapply(s, k), w, i) ==>
                   r.value.entries[i] == BeforeReapply(s, k).entries[i])
    requires var e, f := Erase(s.entries, k)[i], Remove(s, k, true).value.entries[i];
             (e.isPatched && e.phys == a) || (f.isPatched && f.phys == a)
    ensures Erase(s.entries, k)[i] == Remove(s, k, true).value.entries[i]
  {
    hide Pre, SiteOf, Remove, RestoreMany, RestoreEntry, SameConfig, Waiting;
    var r, e := Remove(s, k, true).value, Erase(s.entries, k)[i];
    var f := r.entries[i];
    BeforeReapplyFacts(s, w, k);
    ErasedAt(s.entries, k, i);
    LaterMeans(s.entries, k, k);
    var j := OldIndex(k, i);
    if Waiting(BeforeReapply(s, k), w, i) {
      assert e.phys == s.entries[k].phys && e.isPatched;
      assert SameSite(s.env, w.pristine, e, f);
      PatchedFacts(s, w, j);
      PatchedIffResolved(r, w, i);
      PatchedFacts(r, w, i);
      assert false;
    } else {
      ErasedAt(Unstacked(s, k).entries, k, i);
      NotWaitingIsKept(s, w, k, j);
    }
  }

  /** An entry that does not have to be applied again has gone through the restores unchanged. */
  lemma NotWaitingIsKept(s: State, w: World, k: nat, i: nat)
    requires Inv(s, w) && k < |s.entries| && i < |s.entries|
    requires !(s.entries[k].isPatched && i in LaterFrom(s.entries, k, k) && s.entries[i].isPatched)
    ensures Unstacked(s, k).entries[i] == s.entries[i]
  {
    hide Pre, SiteOf, RestoreMany, RestoreEntry, Waiting;
    if s.entries[k].isPatched {
      UnstackedFacts(s, w, k);
    }
  }

  // ----- removal as written -----

  /** A later entry on the same address is patched. */
  ghost predicate PatchedLater(es: seq<Entry>, k: nat)
    requires k < |es|
  {
    exists j :: k < j < |es| && es[j].isPatched && es[j].phys == es[k].phys
  }

  /**
   As written, removing a patched entry gives the function the word it had just before that patch
   was applied, leaves the later patches on its address off, and changes nothing else: no other
   address, no other entry.
   */
  lemma RemovalAsWritten(s: State, w: World, k: nat)
    requires Pre(s, w) && k < |s.entries| && s.entries[k].isPatched
    ensures var r := Remove(s, k, false);
            && r.Some? && Pre(r.value, w) && r.value.env == s.env && |r.value.entries| == |s.entries| - 1
            && r.value.mem(s.entries[k].phys) == s.entries[k].replaced
            && SameElsewhere(s.mem, r.value.mem, s.entries[k].phys)
            && OffFrom(s.entries, r.value.entries, k)
  {
    hide Pre, SiteOf, Unstacked, Waiting, BlocksOf, OffFrom, Remove, LaterFrom, Erase;
    UnstackedFacts(s, w, k);
    BeforeReapplyIsPre(s, w, k);
    AsWrittenIsBeforeReapply(s, w, k);
    HeapIsIrrelevant(BeforeReapply(s, k), w, s.heap - BlocksOf(s.entries[k]));
    ErasedIsOffFrom(s.entries, Unstacked(s, k).entries, k);
  }

  /** `fs` is `es` without entry `k`, with the later entries of its address off. */
  ghost predicate OffFrom(es: seq<Entry>, fs: seq<Entry>, k: nat)
    requires k < |es|
  {
    && |fs| == |es| - 1
    && forall i: nat :: i < |fs| ==>
         var e := es[OldIndex(k, i)];
         fs[i] == if i >= k && e.phys == es[k].phys then Off(e) else e
  }

  lemma ErasedIsOffFrom(es: seq<Entry>, us: seq<Entry>, k: nat)
    requires k < |es| && TurnedOff(es, us, LaterFrom(es, k, k))
    ensures OffFrom(es, Erase(us, k), k)
  {
    hide Erase, LaterFrom;
    LaterMeans(es, k, k);
    forall i: nat | i < |es| - 1
      ensures |Erase(us, k)| == |es| - 1 && Erase(us, k)[i] == us[OldIndex(k, i)]
    {
      ErasedAt(us, k, i);
    }
    ErasedLength(us, k);
  }

  lemma AsWrittenIsBeforeReapply(s: State, w: World, k: nat)
    requires Pre(s, w) && k < |s.entries|
    ensures Remove(s, k, false) == Some(BeforeReapply(s, k).(heap := s.heap - BlocksOf(s.entries[k])))
  {
    hide Pre, SiteOf, RestoreMany, RestoreEntry, Waiting, BlocksOf, Unstacked;
    BeforeReapplyIsPre(s, w, k);
  }

  /** The removal as written always keeps the weaker invariant, in which patches may be waiting. */
  lemma RemovalAsWrittenKeepsPre(s: State, w: World, k: nat)
    requires Pre(s, w) && k < |s.entries|
    ensures var r := Remove(s, k, false); r.Some? && Pre(r.value, w) && (Ordered(s, w) ==> Ordered(r.value, w))
  {
    hide Pre, Ordered, SiteOf, Waiting, BlocksOf, Unstacked, Remove, BeforeReapply;
    BeforeReapplyIsPre(s, w, k);
    AsWrittenIsBeforeReapply(s, w, k);
    HeapIsIrrelevant(BeforeReapply(s, k), w, s.heap - BlocksOf(s.entries[k]));
  }

  /**
   The removal as written keeps the invariant exactly when no later patch on the same address is
   patched.
   */
  lemma RemovalAsWrittenKeepsInvIff(s: State, w: World, k: nat)
    requires Inv(s, w) && k < |s.entries|
    ensures Remove(s, k, false).Some?
    ensures Inv(Remove(s, k, false).value, w) <==> !(s.entries[k].isPatched && PatchedLater(s.entries, k))
  {
    hide Pre, Ordered, SiteOf, Waiting, BlocksOf, Unstacked, Remove, BeforeReapply, LaterFrom;
    var s2 := BeforeReapply(s, k);
    BeforeReapplyFacts(s, w, k);
    LaterMeans(s.entries, k, k);
    AsWrittenIsBeforeReapply(s, w, k);
    HeapIsIrrelevant(s2, w, s.heap - BlocksOf(s.entries[k]));
    if s.entries[k].isPatched && PatchedLater(s.entries, k) {
      var j :| k < j < |s.entries| && s.entries[j].isPatched && s.entries[j].phys == s.entries[k].phys;
      assert OldIndex(k, j - 1) == j && Waiting(s2, w, j - 1);
    } else {
      forall i: nat | i < |s2.entries|
        ensures !Waiting(s2, w, i)
      {
        assert OldIndex(k, i) != k;
      }
    }
  }

  /**
   The next load sweep makes up for it, if by then no patched entry is above a waiting one of its
   address: the stack built anew results. Patches may be waiting from earlier removals, and the
   removal itself puts nothing out of order.
   */
  lemma SweepAfterRemovalIsRebuilding(s: State, w: World, k: nat)
    requires Pre(s, w) && k < |s.entries|
    ensures var r := Remove(s, k, false);
            && r.Some? && (Ordered(s, w) ==> Ordered(r.value, w)) && Rebuilt(Without(s, k), w).Some?
            && (Ordered(r.value, w) ==>
                  && Sweep(r.value).Some? && Inv(Sweep(r.value).value, w)
                  && Agree(Sweep(r.value).value, Rebuilt(Without(s, k), w).value, w))
  {
    hide Ordered, Chained, Located, WordsRight, BuffersFilled, Assumed, LaidOut, Waiting, SiteOf, Rebuilt, Agree, SamePatches, Remove, Erase, Unstacked, BlocksOf, PatchMany;
    AsWrittenIsBeforeReapply(s, w, k);
    BeforeReapplyIsPre(s, w, k);
    var rest, r := Without(s, k), Remove(s, k, false).value;
    HeapIsIrrelevant(BeforeReapply(s, k), w, s.heap - BlocksOf(s.entries[k]));
    EraseKeepsLayout(s, rest, w, k);
    RebuiltIsInv(rest, w);
    if !Ordered(r, w) {
      return;
    }
    SweptKeepsPatches(r, w);
    var t, b := Sweep(r).value, Rebuilt(rest, w).value;
    UnstackedSamePatches(s, w, k);
    EraseSamePatches(s.env, w.pristine, s.entries, Unstacked(s, k).entries, k);
    SamePatchesTransitive(s.env, w.pristine, rest.entries, r.entries, t.entries);
    SamePatchesTransitive(s.env, w.pristine, rest.entries, t.entries, t.entries) by {
      SamePatchesReflexive(s.env, w.pristine, t.entries);
    }
    SamePatchesTransitive(s.env, w.pristine, t.entries, rest.entries, b.entries);
    InvariantDeterminesState(t, b, w);
  }

  lemma SweptKeepsPatches(s: State, w: World)
    requires Pre(s, w) && Ordered(s, w)
    ensures var r := Sweep(s);
            r.Some? && Inv(r.value, w) && r.value.env == s.env && r.value.heap == s.heap
            && SamePatches(s.env, w.pristine, s.entries, r.value.entries)
  {
    hide Pre, SiteOf, SameSite, SameBuffers, Waiting;
    var idxs := Upto(|s.entries|);
    assert AllWaitingIn(s, w, idxs) by {
      forall i: nat | i < |s.entries| ensures i in idxs { assert idxs[i] == i; }
    }
    PatchManyEstablishesInv(s, w, idxs);
    ShapeAndConfig(s.env, w.pristine, s.entries, Sweep(s).value.entries);
  }
}
