/**
 Restores undo patches: one after one, and any number in reverse order.
 */
module Undoing {
  import opened Words
  import opened Machine
  import opened CodeGen
  import opened PatchStack
  import opened Writing
  import opened Chain
  import opened Keeping

  lemma LastWriteWins(env: Env, mem: Memory, e: Entry)
    ensures Apply(mem, PatchWrites(env, e))(e.phys) == e.replaceWith
  {
    hide BufferWrites;
    ApplyLast(mem, BufferWrites(env, e), e.phys, e.replaceWith);
  }

  /**
   Restoring an entry right after it has been patched. It is undone exactly when the word found was
   not zero and the effective address is not zero; for any other target RestoreFunction refuses.
   */
  lemma PatchThenRestore(s: State, k: nat, eff: Addr, phys: Addr)
    requires k < |s.entries| && !s.entries[k].isPatched && SiteOf(s.env, s.mem, s.entries[k]) == Resolved(eff, phys)
    requires PatchEntry(s, k).Some?
    ensures var s1 := PatchEntry(s, k).value;
            var s2 := RestoreEntry(s1, k);
            && s1.entries[k].isPatched
            && (RestoreSucceeds(s1, k) <==> s.mem(phys) != 0 && eff != 0)
            && (RestoreSucceeds(s1, k) ==>
                  && !s2.entries[k].isPatched && s2.mem(phys) == s.mem(phys)
                  && (forall p :: p != phys ==> s2.mem(p) == s1.mem(p)))
            && (!RestoreSucceeds(s1, k) ==> s2 == s1)
  {
    var s1 := PatchedState(s, k, eff, phys);
    LastWriteWins(s.env, s.mem, PatchedEntry(s, k, eff, phys));
    SiteIsTranslated(s.env, s.mem, s.entries[k], eff, phys);
    hide SiteOf, PatchWrites, ReplacementWord, BuffersUsable;
  }

  lemma SiteIsTranslated(env: Env, mem: Memory, e: Entry, eff: Addr, phys: Addr)
    requires SiteOf(env, mem, e) == Resolved(eff, phys)
    ensures !e.target.GivenAddress? ==> env.xl(eff) == phys
    ensures e.target.GivenAddress? ==> eff == e.eff && phys == e.phys
  {
  }

  /** The physical address is one of the entry's own buffer cells or its pointer cell. */
  ghost predicate InFootprint(env: Env, e: Entry, p: Addr) {
    env.xl(e.realCall) == p || exists c :: c in OwnCells(e) && env.xl(c) == p
  }

  ghost predicate InFootprints(env: Env, es: seq<Entry>, idxs: seq<nat>, p: Addr)
    requires IndicesOf(idxs, |es|)
  {
    exists t :: 0 <= t < |idxs| && InFootprint(env, es[idxs[t]], p)
  }

  lemma {:induction false} RestoreFirstLast(s: State, k: nat, rest: seq<nat>)
    requires k < |s.entries| && IndicesOf(rest, |s.entries|)
    ensures IndicesOf([k] + rest, |s.entries|)
    ensures RestoreMany(s, [k] + rest) == RestoreEntry(RestoreMany(s, rest), k)
    decreases |rest|
  {
    hide RestoreEntry;
    var all := [k] + rest;
    assert forall i :: 0 <= i < |all| ==> all[i] < |s.entries|;
    if rest == [] {
      assert all[..0] == [] && all[0] == k;
      assert RestoreMany(RestoreEntry(s, k), all[..0]) == RestoreEntry(s, k);
    } else {
      var n := |rest| - 1;
      assert all[|all| - 1] == rest[n] && all[..|all| - 1] == [k] + rest[..n];
      RestoreFirstLast(RestoreEntry(s, rest[n]), k, rest[..n]);
    }
  }

  lemma PatchOneCode(s: State, w: World, k: nat, s': State, p: Addr)
    requires Steady(s, w) && k < |s.entries| && Waiting(s, w, k)
    requires var site := SiteOf(s.env, w.pristine, s.entries[k]); s' == PatchedState(s, k, site.eff, site.phys)
    requires !InFootprint(s.env, s.entries[k], p)
    ensures var site := SiteOf(s.env, w.pristine, s.entries[k]);
            s'.mem(p) == if p == site.phys then s'.entries[k].replaceWith else s.mem(p)
  {
    hide Steady, SiteOf, OwnCells, PatchWrites, ReplacementWord, BuffersUsable, EntryLaidOut;
    var site := SiteOf(s.env, w.pristine, s.entries[k]);
    TargetIsCode(s, w, k, site.eff, site.phys);
    FilledKeepsLayout(s.env, w, s.entries[k], site.eff, site.phys, s.mem(site.phys));
    UsableOf(s.env, w, PatchedEntry(s, k, site.eff, site.phys));
    PatchedMemory(s.env, s.mem, PatchedEntry(s, k, site.eff, site.phys), p);
  }

  lemma UsableOf(env: Env, w: World, e: Entry)
    requires EntryLaidOut(env, w, e)
    ensures BuffersUsable(e)
  {
  }

  /** `u` is `s` again, up to the buffers and pointer cells of the entries in `idxs`, which are off. */
  ghost predicate BackTo(s: State, u: State, idxs: seq<nat>)
    requires IndicesOf(idxs, |s.entries|)
  {
    && u.env == s.env && |u.entries| == |s.entries|
    && (forall i: nat :: i < |s.entries| ==>
          if i in idxs then !u.entries[i].isPatched else u.entries[i] == s.entries[i])
    && (forall p :: !InFootprints(s.env, s.entries, idxs, p) ==> u.mem(p) == s.mem(p))
  }

  /** Code is in nobody's footprint. */
  lemma CodeIsOutside(s: State, w: World, idxs: seq<nat>, p: Addr)
    requires LaidOut(s, w) && IndicesOf(idxs, |s.entries|) && p !in w.data
    ensures !InFootprints(s.env, s.entries, idxs, p)
  {
    hide OwnCells, BuffersUsable;
    forall t | 0 <= t < |idxs|
      ensures !InFootprint(s.env, s.entries[idxs[t]], p)
    {
      assert EntryLaidOut(s.env, w, s.entries[idxs[t]]);
    }
  }

  lemma FootprintsOfMore(s: State, s': State, k: nat, rest: seq<nat>, p: Addr)
    requires k < |s.entries| && IndicesOf(rest, |s.entries|) && |s'.entries| == |s.entries| && s'.env == s.env
    requires forall i :: 0 <= i < |s.entries| ==> SameConfig(s.entries[i], s'.entries[i])
    requires IndicesOf([k] + rest, |s.entries|) && !InFootprints(s.env, s.entries, [k] + rest, p)
    ensures !InFootprint(s.env, s.entries[k], p) && !InFootprints(s'.env, s'.entries, rest, p)
  {
    hide OwnCells, InFootprint, SameBuffers;
    var all := [k] + rest;
    assert all[0] == k;
    forall t | 0 <= t < |rest|
      ensures !InFootprint(s'.env, s'.entries[rest[t]], p)
    {
      assert all[t + 1] == rest[t];
      SameFootprint(s.env, s.entries[rest[t]], s'.entries[rest[t]], p);
    }
  }

  lemma SameFootprint(env: Env, e: Entry, f: Entry, p: Addr)
    requires SameConfig(e, f)
    ensures InFootprint(env, e, p) <==> InFootprint(env, f, p)
  {
    hide Cells;
  }

  lemma UndoneState(s: State, w: World, s': State, u: State, k: nat, rest: seq<nat>, eff: Addr, phys: Addr, e: Entry)
    requires k < |s.entries| && About(s, w, k, eff, phys) && s' == PatchedState(s, k, eff, phys) && e == PatchedEntry(s, k, eff, phys)
    requires LaidOut(s', w) && IndicesOf(rest, |s.entries|) && k !in rest && BackTo(s', u, rest)
    ensures e.phys !in w.data && e.replaced == s.mem(e.phys)
    ensures RestoreEntry(u, k) == u.(mem := Updated(u.mem, e.phys, e.replaced), entries := u.entries[k := Off(e)])
  {
    assert s.env.readable;
    hide Steady, SiteOf, PatchWrites, InFootprints, ReplacementWord, Injective, EntryLaidOut;
    TargetIsCode(s, w, k, eff, phys);
    FoundIsRestorable(s, w, phys);
    CodeIsOutside(s', w, rest, e.phys);
    LastWriteWins(s.env, s.mem, e);
    SiteIsTranslated(s.env, w.pristine, s.entries[k], eff, phys);
  }

  /** Undoing the first of several patches, after the others have been undone. */
  lemma UndoFirst(s: State, w: World, s': State, u: State, k: nat, rest: seq<nat>)
    requires Steady(s, w) && LaidOut(s', w) && k < |s.entries| && Waiting(s, w, k)
    requires var site := SiteOf(s.env, w.pristine, s.entries[k]); s' == PatchedState(s, k, site.eff, site.phys)
    requires IndicesOf(rest, |s.entries|) && k !in rest && BackTo(s', u, rest)
    requires forall i :: 0 <= i < |s.entries| ==> SameConfig(s.entries[i], s'.entries[i])
    ensures IndicesOf([k] + rest, |s.entries|) && BackTo(s, RestoreEntry(u, k), [k] + rest)
  {
    hide Steady, LaidOut, SiteOf, SameConfig, Filled, PatchWrites, InFootprints, InFootprint, RestoreEntry;
    var all := [k] + rest;
    assert forall i :: 0 <= i < |all| ==> all[i] < |s.entries|;
    var e := s'.entries[k];
    var site := SiteOf(s.env, w.pristine, s.entries[k]);
    UndoneState(s, w, s', u, k, rest, site.eff, site.phys, e);
    PatchedTarget(s, w, k);
    forall p | !InFootprints(s.env, s.entries, all, p)
      ensures RestoreEntry(u, k).mem(p) == s.mem(p)
    {
      FootprintsOfMore(s, s', k, rest, p);
      PatchOneCode(s, w, k, s', p);
    }
  }

  lemma PatchedTarget(s: State, w: World, k: nat)
    requires k < |s.entries| && Waiting(s, w, k)
    ensures var site := SiteOf(s.env, w.pristine, s.entries[k]);
            PatchedState(s, k, site.eff, site.phys).entries[k].phys == site.phys
  {
    hide SiteOf, PatchWrites, ReplacementWord;
  }

  lemma SkipFirst(s: State, u: State, k: nat, rest: seq<nat>)
    requires k < |s.entries| && !s.entries[k].isPatched && IndicesOf(rest, |s.entries|) && k !in rest && BackTo(s, u, rest)
    ensures IndicesOf([k] + rest, |s.entries|) && BackTo(s, RestoreEntry(u, k), [k] + rest)
  {
    hide InFootprint, CanRestore;
    var all := [k] + rest;
    assert forall i :: 0 <= i < |all| ==> all[i] < |s.entries|;
    assert RestoreEntry(u, k) == u;
    forall p | !InFootprints(s.env, s.entries, all, p)
      ensures !InFootprints(s.env, s.entries, rest, p)
    {
      forall t | 0 <= t < |rest| ensures !InFootprint(s.env, s.entries[rest[t]], p) { assert all[t + 1] == rest[t]; }
    }
  }

  predicate Distinct(idxs: seq<nat>) {
    forall i, j :: 0 <= i < j < |idxs| ==> idxs[i] != idxs[j]
  }

  /**
   Any unpatched entries, patched in any order and restored in the reverse one, whoever else is
   patched or waiting: exactly the initial code memory is back, at the targets and everywhere outside
   the patches' own buffers and pointer cells.
   */
  lemma {:induction false} PatchesThenRestores(s: State, w: World, idxs: seq<nat>)
    requires Steady(s, w) && IndicesOf(idxs, |s.entries|) && Distinct(idxs)
    requires forall t :: 0 <= t < |idxs| ==> !s.entries[idxs[t]].isPatched
    ensures PatchMany(s, idxs).Some? && BackTo(s, RestoreMany(PatchMany(s, idxs).value, idxs), idxs)
    decreases |idxs|
  {
    hide Steady, Waiting, BackTo, RestoreEntry, RestoreMany, PatchEntry, PatchedState, SiteOf, SameShape, SameConfig, Whole;
    if idxs == [] {
      NothingToUndo(s);
    } else {
      var k, rest := idxs[0], idxs[1..];
      assert idxs == [k] + rest;
      var s' := PatchAny(s, w, k);
      forall t | 0 <= t < |rest|
        ensures rest[t] < |s'.entries| && rest[t] != k && !s'.entries[rest[t]].isPatched
      {
        assert rest[t] == idxs[t + 1];
      }
      PatchesThenRestores(s', w, rest);
      var r := PatchMany(s', rest).value;
      RestoreFirstLast(r, k, rest);
      FirstUndone(s, w, s', RestoreMany(r, rest), k, rest);
    }
  }

  lemma NothingToUndo(s: State)
    ensures RestoreMany(s, []) == s && BackTo(s, s, [])
  {
  }

  lemma FirstUndone(s: State, w: World, s': State, u: State, k: nat, rest: seq<nat>)
    requires Steady(s, w) && k < |s.entries| && !s.entries[k].isPatched
    requires var site := SiteOf(s.env, w.pristine, s.entries[k]);
             s' == if Waiting(s, w, k) then PatchedState(s, k, site.eff, site.phys) else s
    requires Steady(s', w) && |s'.entries| == |s.entries|
    requires IndicesOf(rest, |s.entries|) && k !in rest && BackTo(s', u, rest)
    requires forall i :: 0 <= i < |s.entries| ==> SameConfig(s.entries[i], s'.entries[i])
    ensures IndicesOf([k] + rest, |s.entries|) && BackTo(s, RestoreEntry(u, k), [k] + rest)
  {
    hide SiteOf, SameConfig, RestoreEntry, BackTo, PatchWrites, PlainCode, Assumed, LaidOut;
    if Waiting(s, w, k) {
      UndoFirst(s, w, s', u, k, rest);
    } else {
      SkipFirst(s, u, k, rest);
    }
  }
}
