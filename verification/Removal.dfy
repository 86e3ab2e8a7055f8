/**
 Removing a patch from the middle of a stack, as intended and as written.
 */
module Removal {
  import opened Words
  import opened Machine
  import opened CodeGen
  import opened Dispatch
  import opened PatchStack
  import opened Writing
  import opened Chain
  import opened Keeping

  // ----- the entries to be restored temporarily -----

  lemma LaterMeans(es: seq<Entry>, k: nat, j: nat)
    requires k < |es| && j <= |es|
    ensures Ascending(LaterFrom(es, k, j))
    ensures forall i :: i in LaterFrom(es, k, j) <==> j <= i < |es| && es[i].phys == es[k].phys
  {
    hide LaterFrom, Ascending;
    LaterAscends(es, k, j);
    forall i: nat
      ensures i in LaterFrom(es, k, j) <==> j <= i < |es| && es[i].phys == es[k].phys
    {
      LaterMember(es, k, j, i);
    }
  }

  lemma {:induction false} LaterMember(es: seq<Entry>, k: nat, j: nat, i: nat)
    requires k < |es| && j <= |es|
    ensures i in LaterFrom(es, k, j) <==> j <= i < |es| && es[i].phys == es[k].phys
    decreases |es| - j
  {
    if j < |es| {
      LaterMember(es, k, j + 1, i);
    }
  }

  lemma {:induction false} LaterAscends(es: seq<Entry>, k: nat, j: nat)
    requires k < |es| && j <= |es|
    ensures Ascending(LaterFrom(es, k, j))
    decreases |es| - j
  {
    hide Ascending;
    if j < |es| {
      LaterAscends(es, k, j + 1);
      var rest := LaterFrom(es, k, j + 1);
      if es[j].phys == es[k].phys {
        AscendingFrom(j, rest);
      } else {
        assert LaterFrom(es, k, j) == [] + rest == rest;
      }
    } else {
      NothingAscends();
    }
  }

  lemma NothingAscends()
    ensures Ascending([])
  {
  }

  lemma AscendingFrom(j: nat, rest: seq<nat>)
    requires Ascending(rest) && forall t :: 0 <= t < |rest| ==> j < rest[t]
    ensures Ascending([j] + rest)
  {
    var all := [j] + rest;
    forall p, q | 0 <= p < q < |all|
      ensures all[p] < all[q]
    {
      assert all[q] == rest[q - 1];
      if p > 0 {
        assert all[p] == rest[p - 1];
      }
    }
  }

  /** `idxs` names, in ascending order, entries of address `a`, among them all patched ones from position `from` on. */
  ghost predicate CoversTop(es: seq<Entry>, a: Addr, from: nat, idxs: seq<nat>) {
    && Ascending(idxs) && IndicesOf(idxs, |es|)
    && (forall i :: i in idxs ==> from <= i < |es| && es[i].phys == a)
    && (forall i :: from <= i < |es| && es[i].isPatched && es[i].phys == a ==> i in idxs)
  }

  /** The entries of `idxs` are off, everything else of the list is as before. */
  ghost predicate TurnedOff(es: seq<Entry>, fs: seq<Entry>, idxs: seq<nat>) {
    && |es| == |fs|
    && forall i: nat :: i < |es| ==> fs[i] == if i in idxs then Off(es[i]) else es[i]
  }

  ghost predicate SameElsewhere(m: Memory, m': Memory, a: Addr) {
    forall p :: p != a ==> m(p) == m'(p)
  }

  /** The entries of `idxs`, all of them at `a`, have been restored, and nothing else has changed. */
  ghost predicate RestoredAll(s: State, r: State, w: World, a: Addr, idxs: seq<nat>) {
    && r.env == s.env && r.heap == s.heap
    && TurnedOff(s.entries, r.entries, idxs) && SameElsewhere(s.mem, r.mem, a)
    && forall i: nat :: i < |s.entries| ==>
         (Waiting(r, w, i) <==> Waiting(s, w, i) || (i in idxs && s.entries[i].isPatched))
  }

  lemma LastIsTop(s: State, w: World, a: Addr, from: nat, idxs: seq<nat>)
    requires Pre(s, w) && CoversTop(s.entries, a, from, idxs) && idxs != []
    requires s.entries[idxs[|idxs| - 1]].isPatched
    ensures OnTop(s, w, idxs[|idxs| - 1]) && s.entries[idxs[|idxs| - 1]].phys == a
  {
    hide Pre;
    var m := idxs[|idxs| - 1];
    assert m in idxs;
    forall j | m < j < |s.entries|
      ensures !(s.entries[j].isPatched && s.entries[j].phys == s.entries[m].phys)
    {
      if j in idxs {
        var t :| 0 <= t < |idxs| && idxs[t] == j;
      }
    }
  }

  lemma ShorterCovers(es: seq<Entry>, fs: seq<Entry>, a: Addr, from: nat, idxs: seq<nat>)
    requires CoversTop(es, a, from, idxs) && idxs != []
    requires fs == es[idxs[|idxs| - 1] := Off(es[idxs[|idxs| - 1]])]
    ensures CoversTop(fs, a, from, idxs[..|idxs| - 1])
    ensures idxs[|idxs| - 1] !in idxs[..|idxs| - 1]
  {
    var n := |idxs| - 1;
    var m, short := idxs[n], idxs[..n];
    assert forall i :: 0 <= i < n ==> short[i] == idxs[i] && short[i] < m;
    forall i | i in short
      ensures i in idxs && i < m
    {
      var t :| 0 <= t < n && short[t] == i;
    }
    forall i | from <= i < |fs| && fs[i].isPatched && fs[i].phys == a
      ensures i in short
    {
      assert i in idxs;
      var t :| 0 <= t < |idxs| && idxs[t] == i;
      assert t < n;
      assert short[t] == i;
    }
  }

  /** Restoring a top part of a stack, last one first, keeps the invariant; exactly the restored entries come to wait. */
  lemma {:induction false} RestoreManyKeepsPre(s: State, w: World, a: Addr, from: nat, idxs: seq<nat>)
    requires Pre(s, w) && CoversTop(s.entries, a, from, idxs)
    ensures var r := RestoreMany(s, idxs);
            RestoredAll(s, r, w, a, idxs) && Pre(r, w) && (Ordered(s, w) ==> Ordered(r, w))
    decreases |idxs|
  {
    hide Pre, Ordered, SiteOf, Waiting, RestoredAll, RestoreEntry, CoversTop, SameElsewhere;
    if idxs == [] {
      NothingRestored(s, w, a);
    } else {
      var n := |idxs| - 1;
      var m, short := idxs[n], idxs[..n];
      CoveredIndices(s.entries, a, from, idxs);
      var s1 := RestoreEntry(s, m);
      RestoreLastOfMany(s, w, a, from, idxs);
      ShorterCovers(s.entries, s1.entries, a, from, idxs);
      CoveredIndices(s1.entries, a, from, short);
      RestoreManyKeepsPre(s1, w, a, from, short);
      OneMoreRestored(s, s1, RestoreMany(s1, short), w, a, short, m);
      assert idxs == short + [m];
    }
  }

  lemma CoveredIndices(es: seq<Entry>, a: Addr, from: nat, idxs: seq<nat>)
    requires CoversTop(es, a, from, idxs)
    ensures IndicesOf(idxs, |es|)
  {
  }

  lemma NothingRestored(s: State, w: World, a: Addr)
    ensures RestoredAll(s, s, w, a, [])
  {
    hide Waiting;
  }

  /** Entry `m` first, then those of `idxs`. */
  lemma OneMoreRestored(s: State, s1: State, r: State, w: World, a: Addr, idxs: seq<nat>, m: nat)
    requires m < |s.entries| && m !in idxs && RestoredAll(s1, r, w, a, idxs)
    requires s1.entries == s.entries[m := Off(s.entries[m])] && s1.env == s.env && s1.heap == s.heap && SameElsewhere(s.mem, s1.mem, a)
    requires forall i: nat :: i < |s.entries| ==> (Waiting(s1, w, i) <==> Waiting(s, w, i) || (i == m && s.entries[m].isPatched))
    ensures RestoredAll(s, r, w, a, idxs + [m])
  {
    hide Waiting;
  }

  /** Those of `idxs` first, then entry `m`. */
  lemma OneLessRestored(s: State, s1: State, r: State, w: World, a: Addr, idxs: seq<nat>, m: nat)
    requires m < |s.entries| && m !in idxs && RestoredAll(s, s1, w, a, idxs) && s1.entries[m] == s.entries[m]
    requires r.entries == s1.entries[m := Off(s1.entries[m])] && r.env == s1.env && r.heap == s1.heap && SameElsewhere(s1.mem, r.mem, a)
    requires forall i: nat :: i < |s.entries| ==> (Waiting(r, w, i) <==> Waiting(s1, w, i) || (i == m && s.entries[m].isPatched))
    ensures RestoredAll(s, r, w, a, [m] + idxs)
  {
    hide Waiting;
  }

  lemma RestoreLastOfMany(s: State, w: World, a: Addr, from: nat, idxs: seq<nat>)
    requires Pre(s, w) && CoversTop(s.entries, a, from, idxs) && idxs != []
    ensures var m := idxs[|idxs| - 1];
            var r := RestoreEntry(s, m);
            && r.entries == s.entries[m := Off(s.entries[m])] && r.env == s.env && r.heap == s.heap
            && SameElsewhere(s.mem, r.mem, a) && Pre(r, w) && (Ordered(s, w) ==> Ordered(r, w))
            && (forall i: nat :: i < |s.entries| ==>
                  (Waiting(r, w, i) <==> Waiting(s, w, i) || (i == m && s.entries[m].isPatched)))
  {
    hide Pre, Ordered, Waiting;
    var m := idxs[|idxs| - 1];
    if s.entries[m].isPatched {
      LastIsTop(s, w, a, from, idxs);
      RestoreTopKeepsPre(s, w, m);
    } else {
      assert Off(s.entries[m]) == s.entries[m];
    }
  }

  lemma LaterCoversTop(es: seq<Entry>, k: nat, j: nat)
    requires k < |es| && j <= |es|
    ensures CoversTop(es, es[k].phys, j, LaterFrom(es, k, j))
  {
    LaterMeans(es, k, j);
  }

  /** After the temporary restores, entry `k` is on top. */
  lemma LaterRestored(s: State, w: World, k: nat)
    requires Pre(s, w) && k < |s.entries| && s.entries[k].isPatched
    ensures var later := LaterFrom(s.entries, k, k + 1);
            var r := RestoreMany(s, later);
            && r.entries[k] == s.entries[k] && RestoredAll(s, r, w, s.entries[k].phys, later)
            && OnTop(r, w, k) && (Ordered(s, w) ==> Ordered(r, w))
  {
    hide Pre, Ordered, Waiting, SiteOf, RestoreMany;
    LaterCoversTop(s.entries, k, k + 1);
    LaterMeans(s.entries, k, k + 1);
    RestoreManyKeepsPre(s, w, s.entries[k].phys, k + 1, LaterFrom(s.entries, k, k + 1));
  }

  /**
   After the restores of a removal: the function starts with the word it had just before patch `k`
   was applied; patch `k` and the later ones on its address are off; nothing else has changed.
   */
  lemma UnstackedFacts(s: State, w: World, k: nat)
    requires Pre(s, w) && k < |s.entries| && s.entries[k].isPatched
    ensures var idxs := LaterFrom(s.entries, k, k);
            var r := Unstacked(s, k);
            && r.mem(s.entries[k].phys) == s.entries[k].replaced && RestoredAll(s, r, w, s.entries[k].phys, idxs)
            && Pre(r, w) && (Ordered(s, w) ==> Ordered(r, w))
  {
    hide Pre, OnTop, Ordered, Waiting, SiteOf, RestoreMany, RestoreEntry, RestoredAll;
    var later := LaterFrom(s.entries, k, k + 1);
    var s1 := RestoreMany(s, later);
    assert LaterFrom(s.entries, k, k) == [k] + later;
    LaterRestored(s, w, k);
    RestoreTopKeepsPre(s1, w, k);
    LaterMeans(s.entries, k, k + 1);
    OneLessRestored(s, s1, Unstacked(s, k), w, s.entries[k].phys, later, k);
  }

  // ----- restores whatever the order -----

  /** Entries are as they were, or off, and only code has been written. */
  ghost predicate OnlyRestored(s: State, r: State, w: World) {
    && r.env == s.env && r.heap == s.heap && OffOrSame(s.entries, r.entries)
    && forall p :: p in w.data ==> r.mem(p) == s.mem(p)
  }

  ghost predicate OffOrSame(es: seq<Entry>, fs: seq<Entry>) {
    && |es| == |fs|
    && forall i: nat :: i < |es| ==> fs[i] == es[i] || fs[i] == Off(es[i])
  }

  lemma OffOrSameConfig(es: seq<Entry>, fs: seq<Entry>)
    requires OffOrSame(es, fs)
    ensures |fs| == |es| && forall i :: 0 <= i < |es| ==> SameConfig(es[i], fs[i]) && (fs[i].isPatched ==> fs[i] == es[i])
  {
  }

  lemma RestoredIsOnlyRestored(s: State, w: World, k: nat)
    requires Whole(s, w) && k < |s.entries|
    ensures OnlyRestored(s, RestoreEntry(s, k), w)
  {
    hide Whole, RestoreEntry, SiteOf, Reachable, Injective, Restorable;
    RestoreKeepsWhole(s, w, k);
    if s.entries[k].isPatched {
      PatchedAnyhow(s, w, k);
    }
  }

  lemma {:induction false} RestoreManyKeepsWhole(s: State, w: World, idxs: seq<nat>)
    requires Whole(s, w) && IndicesOf(idxs, |s.entries|)
    ensures Whole(RestoreMany(s, idxs), w) && OnlyRestored(s, RestoreMany(s, idxs), w)
    decreases |idxs|
  {
    hide Whole, RestoreEntry;
    if idxs != [] {
      var m := idxs[|idxs| - 1];
      RestoreKeepsWhole(s, w, m);
      RestoredIsOnlyRestored(s, w, m);
      RestoreManyKeepsWhole(RestoreEntry(s, m), w, idxs[..|idxs| - 1]);
    }
  }

  lemma UnstackedKeepsWhole(s: State, w: World, k: nat)
    requires Whole(s, w) && k < |s.entries|
    ensures Whole(Unstacked(s, k), w) && OnlyRestored(s, Unstacked(s, k), w)
  {
    hide Whole, RestoreEntry, RestoreMany, LaterFrom;
    if s.entries[k].isPatched {
      var s1 := RestoreMany(s, LaterFrom(s.entries, k, k + 1));
      RestoreManyKeepsWhole(s, w, LaterFrom(s.entries, k, k + 1));
      RestoreKeepsWhole(s1, w, k);
      RestoredIsOnlyRestored(s1, w, k);
    }
  }

  // ----- erasing an entry that is off -----

  lemma OnErased(es: seq<Entry>, k: nat, a: Addr)
    requires k < |es| && !(es[k].isPatched && es[k].phys == a)
    ensures On(Erase(es, k), a) == On(es, a)
  {
    hide On;
    OnSplit(es, k, a);
    OnAdd(es[..k], es[k + 1..], a);
    assert On(es[..k], a) + [] == On(es[..k], a);
  }

  /** The old position of what is now at position `i`. */
  function OldIndex(k: nat, i: nat): nat {
    if i < k then i else i + 1
  }

  lemma ErasedAt(es: seq<Entry>, k: nat, i: nat)
    requires k < |es| && i < |es| - 1
    ensures |Erase(es, k)| == |es| - 1 && Erase(es, k)[i] == es[OldIndex(k, i)]
  {
  }

  lemma ErasedLength(es: seq<Entry>, k: nat)
    requires k < |es|
    ensures |Erase(es, k)| == |es| - 1
  {
  }

  lemma EraseKeepsLayout(s: State, s': State, w: World, k: nat)
    requires Assumed(s, w) && LaidOut(s, w) && k < |s.entries| && s'.env == s.env && s'.entries == Erase(s.entries, k)
    ensures Assumed(s', w) && LaidOut(s', w)
  {
    hide SiteSound, EntryLaidOut, OwnCells, Injective, Erase;
    ErasedLength(s.entries, k);
    forall i | 0 <= i < |s'.entries|
      ensures s'.entries[i] == s.entries[OldIndex(k, i)]
    {
      ErasedAt(s.entries, k, i);
    }
  }

  /** Erasing any entry, patched or not, keeps what is said of the others. */
  lemma EraseKeepsWhole(s: State, s': State, w: World, k: nat)
    requires Whole(s, w) && k < |s.entries| && s' == s.(entries := Erase(s.entries, k))
    ensures Whole(s', w)
  {
    hide SiteOf, Reachable, Restorable, Emitted, PlainCode, Assumed, LaidOut, Erase;
    ErasedLength(s.entries, k);
    forall i: nat | i < |s'.entries|
      ensures s'.entries[i] == s.entries[OldIndex(k, i)]
    {
      ErasedAt(s.entries, k, i);
    }
    EraseKeepsLayout(s, s', w, k);
    SameMemoryIsPlain(s, s', w);
  }

  lemma SameMemoryIsPlain(s: State, s': State, w: World)
    requires PlainCode(s, w) && s'.mem == s.mem
    ensures PlainCode(s', w)
  {
    hide PlainAt;
  }

  lemma EraseKeepsPre(s: State, s': State, w: World, k: nat)
    requires Pre(s, w) && k < |s.entries| && !s.entries[k].isPatched
    requires s' == s.(entries := Erase(s.entries, k))
    ensures Pre(s', w) && (Ordered(s, w) ==> Ordered(s', w))
    ensures forall i: nat :: i < |s'.entries| ==> (Waiting(s', w, i) <==> Waiting(s, w, OldIndex(k, i)))
  {
    hide SiteOf, Reachable, Emitted, Chained, Assumed, LaidOut, Erase;
    ErasedLength(s.entries, k);
    forall i: nat | i < |s'.entries|
      ensures s'.entries[i] == s.entries[OldIndex(k, i)]
    {
      ErasedAt(s.entries, k, i);
    }
    EraseKeepsLayout(s, s', w, k);
    EraseKeepsChained(s, s', w, k);
  }

  lemma EraseKeepsChained(s: State, s': State, w: World, k: nat)
    requires Chained(s, w) && k < |s.entries| && !s.entries[k].isPatched
    requires s' == s.(entries := Erase(s.entries, k))
    ensures Chained(s', w)
  {
    hide ChainAt, On, Erase;
    forall a | a !in w.data
      ensures ChainAt(s'.mem, w.pristine, s'.entries, a)
    {
      assert ChainAt(s.mem, w.pristine, s.entries, a);
      OnErased(s.entries, k, a);
      SameOnSameChain(s.mem, w.pristine, s.entries, s'.entries, a);
    }
  }

  lemma SameOnSameChain(mem: Memory, pristine: Memory, es: seq<Entry>, fs: seq<Entry>, a: Addr)
    requires ChainAt(mem, pristine, es, a) && On(es, a) == On(fs, a)
    ensures ChainAt(mem, pristine, fs, a)
  {
  }

  /** The state in which the later patches are to be applied again. */
  function BeforeReapply(s: State, k: nat): State
    requires k < |s.entries|
  {
    var s1 := Unstacked(s, k);
    s1.(entries := Erase(s1.entries, k))
  }

  /** Before the later patches are applied again, they wait, and so do those that waited before the removal. */
  lemma BeforeReapplyIsPre(s: State, w: World, k: nat)
    requires Pre(s, w) && k < |s.entries|
    ensures var s2 := BeforeReapply(s, k);
            && Pre(s2, w) && (Ordered(s, w) ==> Ordered(s2, w)) && s2.env == s.env && s2.heap == s.heap && |s2.entries| == |s.entries| - 1
            && !Unstacked(s, k).entries[k].isPatched
            && (forall i: nat :: i < |s2.entries| ==>
                  (Waiting(s2, w, i) <==>
                     || Waiting(s, w, OldIndex(k, i))
                     || (s.entries[k].isPatched && OldIndex(k, i) in LaterFrom(s.entries, k, k) && s.entries[OldIndex(k, i)].isPatched)))
  {
    hide Pre, Ordered, Waiting, SiteOf, RestoreMany, RestoreEntry;
    if s.entries[k].isPatched {
      UnstackedFacts(s, w, k);
      LaterMeans(s.entries, k, k);
      EraseKeepsPre(Unstacked(s, k), BeforeReapply(s, k), w, k);
    } else {
      EraseKeepsPre(s, BeforeReapply(s, k), w, k);
    }
  }

  lemma BeforeReapplyFacts(s: State, w: World, k: nat)
    requires Inv(s, w) && k < |s.entries|
    ensures var s2 := BeforeReapply(s, k);
            && Pre(s2, w) && Ordered(s2, w) && s2.env == s.env && s2.heap == s.heap && |s2.entries| == |s.entries| - 1
            && !Unstacked(s, k).entries[k].isPatched
            && (forall i: nat :: i < |s2.entries| ==>
                  (Waiting(s2, w, i) <==>
                     s.entries[k].isPatched && OldIndex(k, i) in LaterFrom(s.entries, k, k) && s.entries[OldIndex(k, i)].isPatched))
  {
    hide Pre, Ordered, Waiting, SiteOf, Unstacked, BeforeReapply;
    InvIsOrdered(s, w);
    BeforeReapplyIsPre(s, w, k);
  }

  lemma ShiftedCoversWaiting(s: State, w: World, k: nat)
    requires Inv(s, w) && k < |s.entries| && s.entries[k].isPatched
    ensures var s2, idxs := BeforeReapply(s, k), Shifted(LaterFrom(s.entries, k, k + 1));
            IndicesOf(idxs, |s2.entries|) && Ascending(idxs) && AllWaitingIn(s2, w, idxs)
  {
    hide Pre, Ordered, Inv, Waiting, BeforeReapply, LaterFrom;
    BeforeReapplyFacts(s, w, k);
    LaterMeans(s.entries, k, k + 1);
    LaterMeans(s.entries, k, k);
    var s2, later := BeforeReapply(s, k), LaterFrom(s.entries, k, k + 1);
    var idxs := Shifted(later);
    forall i: nat | i < |s2.entries| && Waiting(s2, w, i)
      ensures i in idxs
    {
      assert i + 1 in later;
      var t :| 0 <= t < |later| && later[t] == i + 1;
      assert idxs[t] == i;
    }
  }

  lemma HeapIsIrrelevant(s: State, w: World, heap: set<Block>)
    ensures Pre(s.(heap := heap), w) <==> Pre(s, w)
    ensures Ordered(s.(heap := heap), w) <==> Ordered(s, w)
    ensures Inv(s.(heap := heap), w) <==> Inv(s, w)
  {
    hide SiteSound, EntryLaidOut, OwnCells, Injective, SiteOf, Reachable, Emitted, ChainAt;
    var t := s.(heap := heap);
    assert forall i: nat :: i < |s.entries| ==> (Waiting(t, w, i) <==> Waiting(s, w, i));
  }

  /** The entries at the same place are one patch, at one site. */
  ghost predicate SamePatches(env: Env, pristine: Memory, es: seq<Entry>, fs: seq<Entry>) {
    && |es| == |fs|
    && forall i :: 0 <= i < |es| ==> SameConfig(es[i], fs[i]) && SameSite(env, pristine, es[i], fs[i])
  }

  lemma SamePatchesTransitive(env: Env, pristine: Memory, es: seq<Entry>, fs: seq<Entry>, gs: seq<Entry>)
    requires SamePatches(env, pristine, es, fs) && SamePatches(env, pristine, fs, gs)
    ensures SamePatches(env, pristine, es, gs) && SamePatches(env, pristine, fs, es)
  {
    hide SiteOf;
  }

  lemma TurnedOffSamePatches(env: Env, pristine: Memory, es: seq<Entry>, fs: seq<Entry>, idxs: seq<nat>)
    requires TurnedOff(es, fs, idxs)
    ensures SamePatches(env, pristine, es, fs)
  {
    hide SiteOf, SameSite, SameBuffers;
    forall i: nat | i < |es|
      ensures SameConfig(es[i], fs[i]) && SameSite(env, pristine, es[i], fs[i])
    {
      OffHasSameShape(env, pristine, es[i]);
      SameConfigReflexive();
      SameSiteReflexive(env, pristine, es[i]);
    }
  }

  lemma SameSiteReflexive(env: Env, pristine: Memory, e: Entry)
    ensures SameSite(env, pristine, e, e)
  {
  }

  lemma UnstackedSamePatches(s: State, w: World, k: nat)
    requires Pre(s, w) && k < |s.entries|
    ensures SamePatches(s.env, w.pristine, s.entries, Unstacked(s, k).entries)
  {
    hide Pre, Ordered, SiteOf, RestoreMany, RestoreEntry, Waiting;
    if s.entries[k].isPatched {
      UnstackedFacts(s, w, k);
      TurnedOffSamePatches(s.env, w.pristine, s.entries, Unstacked(s, k).entries, LaterFrom(s.entries, k, k));
    } else {
      assert TurnedOff(s.entries, Unstacked(s, k).entries, []);
      TurnedOffSamePatches(s.env, w.pristine, s.entries, Unstacked(s, k).entries, []);
    }
  }

  lemma EraseSamePatches(env: Env, pristine: Memory, es: seq<Entry>, fs: seq<Entry>, k: nat)
    requires SamePatches(env, pristine, es, fs) && k < |es|
    ensures SamePatches(env, pristine, Erase(es, k), Erase(fs, k))
  {
    hide SameSite, SameConfig;
    forall i | 0 <= i < |es| - 1
      ensures SameConfig(Erase(es, k)[i], Erase(fs, k)[i]) && SameSite(env, pristine, Erase(es, k)[i], Erase(fs, k)[i])
    {
      ErasedAt(es, k, i);
      ErasedAt(fs, k, i);
    }
  }

  // ----- removal as intended -----

  /** With the guard read before the restores, removing any patch keeps the invariant and never stops the console. */
  lemma IntendedRemovalKeepsInv(s: State, w: World, k: nat)
    requires Inv(s, w) && k < |s.entries|
    ensures var r := Remove(s, k, true);
            && r.Some? && Inv(r.value, w) && r.value.env == s.env
            && r.value.heap == s.heap - BlocksOf(s.entries[k])
            && SamePatches(s.env, w.pristine, Erase(s.entries, k), r.value.entries)
            && (forall i: nat :: i < |r.value.entries| && !Waiting(BeforeReapply(s, k), w, i) ==>
                  r.value.entries[i] == BeforeReapply(s, k).entries[i])
  {
    hide Pre, Ordered, SiteOf, RestoreMany, RestoreEntry, Waiting, SameConfig, SameSite, PatchMany, SameShape, Unstacked, BlocksOf;
    var s2 := BeforeReapply(s, k);
    BeforeReapplyFacts(s, w, k);
    UnstackedSamePatches(s, w, k);
    EraseSamePatches(s.env, w.pristine, s.entries, Unstacked(s, k).entries, k);
    if s.entries[k].isPatched {
      var idxs := Shifted(LaterFrom(s.entries, k, k + 1));
      ShiftedCoversWaiting(s, w, k);
      PatchManyEstablishesInv(s2, w, idxs);
      var s3 := PatchMany(s2, idxs).value;
      ShapeAndConfig(s.env, w.pristine, s2.entries, s3.entries);
      SamePatchesTransitive(s.env, w.pristine, Erase(s.entries, k), s2.entries, s3.entries);
      HeapIsIrrelevant(s3, w, s.heap - BlocksOf(s.entries[k]));
    } else {
      HeapIsIrrelevant(s2, w, s.heap - BlocksOf(s.entries[k]));
    }
  }

  lemma ShapeAndConfig(env: Env, pristine: Memory, es: seq<Entry>, fs: seq<Entry>)
    requires SameShape(env, pristine, es, fs)
    requires forall i :: 0 <= i < |es| ==> SameConfig(es[i], fs[i])
    ensures SamePatches(env, pristine, es, fs)
  {
    hide SameSite, SameConfig, SameBuffers;
  }
}
