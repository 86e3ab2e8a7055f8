/**
 The cells through which replacement functions call the originals: each holds the address of its
 patch's `jumpToOriginal` as long as no two listed patches share a cell.
 */
module Pointers {
  import opened Words
  import opened Machine
  import opened CodeGen
  import opened Dispatch
  import opened PatchStack
  import opened Writing
  import opened Chain
  import opened Keeping
  import opened Removal
  import opened Ownership
  import opened PatchOrder
  import opened Publication
  import opened Runs

  /** No two listed patches were given the same pointer cell. */
  ghost predicate OwnPointerCells(es: seq<Entry>) {
    forall i, j :: 0 <= i < |es| && 0 <= j < |es| && i != j ==> es[i].realCall != es[j].realCall
  }

  /** The cell of a patched entry points to its `jumpToOriginal`. */
  ghost predicate PointersHeld(s: State) {
    forall i :: 0 <= i < |s.entries| && s.entries[i].isPatched ==>
      View(s.mem, s.env.xl)(s.entries[i].realCall) == s.entries[i].jumpToOriginal
  }

  ghost predicate Pointing(s: State) {
    OwnPointerCells(s.entries) && PointersHeld(s)
  }

  lemma CellIsThere(s: State, w: World, i: nat)
    requires LaidOut(s, w) && i < |s.entries|
    ensures s.env.xl(s.entries[i].realCall) in w.data
    ensures forall j :: 0 <= j < |s.entries| ==> s.entries[i].realCall !in OwnCells(s.entries[j])
  {
    hide OwnCells;
    assert EntryLaidOut(s.env, w, s.entries[i]);
  }

  /** A word is not stored where a different word is, if that has a physical address. */
  lemma StoredElsewhere(xl: Memory, cells: set<Addr>, c: Addr)
    requires Injective(xl) && xl(c) != 0 && c !in cells
    ensures forall d :: d in cells ==> xl(d) != xl(c)
  {
  }

  // ----- patching -----

  /** The pointer cell gets the buffer's address, and nothing that is written later changes it. */
  lemma PointerFilled(env: Env, w: World, mem: Memory, e: Entry)
    requires Injective(env.xl) && 0 !in w.data && EntryLaidOut(env, w, e) && e.phys !in w.data && e.realCall !in OwnCells(e)
    ensures Apply(mem, PatchWrites(env, e))(env.xl(e.realCall)) == e.jumpToOriginal
  {
    WordCounts(e, env.plat);
    hide JumpToOriginalWords, TrampolineWords, Cells, Misses, Short, Aligned, BlockWrites, NeedsTrampoline, Apply, Injective;
    var p := env.xl(e.realCall);
    var tramp := TrampolineWords(e.process, env.plat, e.eff, e.replaced, e.repl);
    var block := BlockWrites(env.xl, e.jumpToOriginal, JumpToOriginalWords(e.eff, e.replaced));
    var last := if NeedsTrampoline(e.process, e.repl) then BlockWrites(env.xl, e.jumpData, tramp) else [];
    StoredElsewhere(env.xl, OwnCells(e), e.realCall);
    CellsGrow(e.jumpData, |tramp|, 15);
    if NeedsTrampoline(e.process, e.repl) {
      BlockWritesMiss(env.xl, e.jumpData, tramp, p);
    } else {
      NothingMisses(p);
    }
    OneMisses(e.phys, e.replaceWith, p);
    MissesAdd(last, [(e.phys, e.replaceWith)], p);
    var a := block + [(p, e.jumpToOriginal)];
    assert PatchWrites(env, e) == a + (last + [(e.phys, e.replaceWith)]);
    ApplyAdd(mem, a, last + [(e.phys, e.replaceWith)]);
    ApplyMisses(Apply(mem, a), last + [(e.phys, e.replaceWith)], p);
    ApplyLast(mem, block, p, e.jumpToOriginal);
  }

  lemma NothingMisses(p: Addr)
    ensures Misses([], p)
  {
  }

  lemma PatchKeepsPointers(s: State, w: World, k: nat, eff: Addr, phys: Addr)
    requires k < |s.entries| && About(s, w, k, eff, phys) && Pointing(s)
    ensures Pointing(PatchedState(s, k, eff, phys))
  {
    hide Steady, SiteOf, ReplacementWord, PatchWrites, View, OwnCells, EntryLaidOut, Injective, BuffersUsable;
    var s', e := PatchedState(s, k, eff, phys), PatchedEntry(s, k, eff, phys);
    TargetIsCode(s, w, k, eff, phys);
    FilledKeepsLayout(s.env, w, s.entries[k], eff, phys, s.mem(phys));
    SteadyIsLaidOut(s, w);
    CellIsThere(s, w, k);
    PointerFilled(s.env, w, s.mem, e);
    forall i: nat | i < |s'.entries| && s'.entries[i].isPatched
      ensures View(s'.mem, s'.env.xl)(s'.entries[i].realCall) == s'.entries[i].jumpToOriginal
    {
      var c := s'.entries[i].realCall;
      ViewAt(s'.mem, s.env.xl, c);
      if i != k {
        ViewAt(s.mem, s.env.xl, c);
        OtherCellKept(s, w, k, e, i);
      }
    }
  }

  lemma SteadyIsLaidOut(s: State, w: World)
    requires Steady(s, w)
    ensures LaidOut(s, w) && Injective(s.env.xl) && 0 !in w.data
  {
    hide LaidOut, PlainCode, Injective, SiteSound;
  }

  lemma OtherCellKept(s: State, w: World, k: nat, e: Entry, i: nat)
    requires LaidOut(s, w) && Injective(s.env.xl) && 0 !in w.data && OwnPointerCells(s.entries)
    requires k < |s.entries| && i < |s.entries| && i != k
    requires EntryLaidOut(s.env, w, e) && OwnCells(e) == OwnCells(s.entries[k]) && e.realCall == s.entries[k].realCall && e.phys !in w.data
    ensures Apply(s.mem, PatchWrites(s.env, e))(s.env.xl(s.entries[i].realCall)) == s.mem(s.env.xl(s.entries[i].realCall))
  {
    hide LaidOut, OwnCells, PatchWrites, Apply, Cells, Short, Aligned, NeedsTrampoline;
    CellIsThere(s, w, i);
    var c := s.entries[i].realCall;
    StoredElsewhere(s.env.xl, OwnCells(e), c);
    StoredElsewhere(s.env.xl, {e.realCall}, c);
    PatchedMemory(s.env, s.mem, e, s.env.xl(c));
  }

  lemma SameConfigOwnCells(es: seq<Entry>, fs: seq<Entry>)
    requires |es| == |fs| && (forall i :: 0 <= i < |es| ==> SameConfig(es[i], fs[i])) && OwnPointerCells(es)
    ensures OwnPointerCells(fs)
  {
  }

  lemma PatchAnyKeepsPointers(s: State, w: World, k: nat, s': State)
    requires Steady(s, w) && k < |s.entries| && Pointing(s)
    requires var site := SiteOf(s.env, w.pristine, s.entries[k]);
             s' == if Waiting(s, w, k) then PatchedState(s, k, site.eff, site.phys) else s
    ensures Pointing(s')
  {
    hide Steady, SiteOf, Pointing, Filled, PatchWrites;
    if Waiting(s, w, k) {
      var site := SiteOf(s.env, w.pristine, s.entries[k]);
      PatchKeepsPointers(s, w, k, site.eff, site.phys);
    }
  }

  lemma {:induction false} PatchManyKeepsPointers(s: State, w: World, idxs: seq<nat>)
    requires Steady(s, w) && IndicesOf(idxs, |s.entries|) && Pointing(s)
    ensures PatchMany(s, idxs).Some? && Pointing(PatchMany(s, idxs).value)
    decreases |idxs|
  {
    hide Steady, Whole, SiteOf, Pointing, PatchEntry, Waiting, PatchedState, SameShape, SameConfig;
    if idxs != [] {
      var s' := PatchAny(s, w, idxs[0]);
      PatchAnyKeepsPointers(s, w, idxs[0], s');
      PatchManyKeepsPointers(s', w, idxs[1..]);
    }
  }

  // ----- removing -----

  /** Code is written and entries are turned off. */
  lemma RestoringKeepsPointers(s: State, r: State, w: World)
    requires LaidOut(s, w) && Pointing(s) && OnlyRestored(s, r, w)
    ensures Pointing(r)
  {
    hide LaidOut, View, OffOrSame, SameConfig, OnlyRestored;
    assert OffOrSame(s.entries, r.entries) && r.env == s.env by { OnlyRestoredMeans(s, r, w); }
    OffOrSameConfig(s.entries, r.entries);
    SameConfigOwnCells(s.entries, r.entries);
    forall i: nat | i < |r.entries| && r.entries[i].isPatched
      ensures View(r.mem, r.env.xl)(r.entries[i].realCall) == r.entries[i].jumpToOriginal
    {
      assert r.entries[i] == s.entries[i];
      CellIsThere(s, w, i);
      ViewAt(s.mem, s.env.xl, s.entries[i].realCall);
      ViewAt(r.mem, s.env.xl, s.entries[i].realCall);
      DataKept(s, r, w, s.env.xl(s.entries[i].realCall));
    }
  }

  lemma OnlyRestoredMeans(s: State, r: State, w: World)
    requires OnlyRestored(s, r, w)
    ensures OffOrSame(s.entries, r.entries) && r.env == s.env
  {
  }

  lemma DataKept(s: State, r: State, w: World, p: Addr)
    requires OnlyRestored(s, r, w) && p in w.data
    ensures r.mem(p) == s.mem(p) && r.env == s.env
  {
  }

  lemma EraseKeepsPointers(s: State, k: nat)
    requires k < |s.entries| && Pointing(s)
    ensures Pointing(s.(entries := Erase(s.entries, k)))
  {
    hide View;
    forall i: nat | i < |s.entries| - 1
      ensures Erase(s.entries, k)[i] == s.entries[OldIndex(k, i)]
    {
      ErasedAt(s.entries, k, i);
    }
  }

  /** A removal, in either form and whatever the order of patches. */
  lemma RemovalKeepsPointers(s: State, w: World, k: nat, guardFirst: bool)
    requires Whole(s, w) && k < |s.entries| && Pointing(s)
    ensures Remove(s, k, guardFirst).Some? ==> Pointing(Remove(s, k, guardFirst).value)
  {
    hide Whole, Steady, Pointing, Unstacked, Erase, PatchMany, BlocksOf, LaterFrom, OnlyRestored, LaidOut;
    var s1 := Unstacked(s, k);
    var s2 := s1.(entries := Erase(s1.entries, k));
    WholeIsSteady(s, w);
    UnstackedKeepsWhole(s, w, k);
    RestoringKeepsPointers(s, s1, w);
    EraseKeepsPointers(s1, k);
    EraseKeepsWhole(s1, s2, w, k);
    WholeIsSteady(s2, w);
    ErasedLength(s1.entries, k);
    PatchManyKeepsPointers(s2, w, Shifted(LaterFrom(s.entries, k, k + 1)));
    HeapHoldsNoPointers();
  }

  lemma HeapHoldsNoPointers()
    ensures forall s: State, heap :: Pointing(s) ==> Pointing(s.(heap := heap))
  {
    hide View;
  }

  // ----- adding -----

  /** The new patch brings a cell that no listed patch has. */
  predicate FreshCell(s: State, q: Request) {
    forall i :: 0 <= i < |s.entries| ==> s.entries[i].realCall != q.realCall
  }

  lemma AddKeepsPointers(s: State, w: World, q: Request, choice1: Addr, choice2: Addr)
    requires Whole(s, w) && Owns(s) && Pointing(s) && FreshCell(s, q)
    requires RequestSound(s, w, q, choice1, choice2)
    ensures Add(s, q, choice1, choice2).Added? ==> Pointing(Add(s, q, choice1, choice2).state)
  {
    hide Steady, Whole, Owns, Pointing, FreshCell, SiteOf, Granted, RequestSound, PatchEntry, PatchedState, SameShape, SameConfig, Add, Waiting, NewEntry, Listed;
    AddCases(s, q, choice1, choice2);
    if Granted(s, q, choice1, choice2) {
      var l := Listed(s, q, choice1, choice2);
      ListedIsWhole(s, w, q, choice1, choice2);
      ListedPoints(s, q, choice1, choice2);
      WholeIsSteady(l, w);
      var s' := PatchAny(l, w, |s.entries|);
      PatchAnyKeepsPointers(l, w, |s.entries|, s');
    }
  }

  lemma ListedPoints(s: State, q: Request, choice1: Addr, choice2: Addr)
    requires Pointing(s) && FreshCell(s, q)
    ensures Pointing(Listed(s, q, choice1, choice2)) && |Listed(s, q, choice1, choice2).entries| == |s.entries| + 1
  {
    hide View, NeedsTrampoline, BlocksOf;
  }

  // ----- callbacks -----

  lemma ChangeKeepsPointers(s: State, w: World, ch: Change, t: State)
    requires LaidOut(s, w) && ChangeSound(s, w, ch) && Pointing(s)
    requires t == Changed(s, ch).(entries := t.entries) && OffOrSame(s.entries, t.entries)
    ensures Pointing(t)
  {
    hide LaidOut, View, Assumed, SitesKept, OffOrSame, SameConfig;
    OffOrSameConfig(s.entries, t.entries);
    SameConfigOwnCells(s.entries, t.entries);
    forall i: nat | i < |t.entries| && t.entries[i].isPatched
      ensures View(t.mem, t.env.xl)(t.entries[i].realCall) == t.entries[i].jumpToOriginal
    {
      var c := s.entries[i].realCall;
      assert t.entries[i] == s.entries[i];
      CellIsThere(s, w, i);
      ViewAt(s.mem, s.env.xl, c);
      ViewAt(t.mem, t.env.xl, c);
    }
  }

  lemma CheckKeepsPointers(s: State, w: World, ch: Change, cleared: seq<Entry>)
    requires Whole(s, w) && VanishSound(s, w, ch, cleared) && Pointing(s)
    ensures Pointing(Checked(Changed(s, ch).(entries := cleared)))
  {
    hide Whole, LaidOut, Steady, Pointing, ChangeSound, Checked, OffOrSame;
    VanishIsReadable(s, w, ch, cleared);
    CheckLeavesRegion(s, w, ch, cleared);
    WholeIsSteady(s, w);
    ChangeKeepsPointers(s, w, ch, Checked(Changed(s, ch).(entries := cleared)));
  }

  lemma SameIsOffOrSame(es: seq<Entry>)
    ensures OffOrSame(es, es)
  {
  }

  lemma SweptKeepsPointers(s: State, w: World, ev: Event)
    requires Whole(s, w) && EventSound(s, w, ev) && Swept(s, ev).Some? && Pointing(s)
    ensures Pointing(Swept(s, ev).value)
  {
    hide Whole, LaidOut, Steady, Pointing, ChangeSound, Checked, RequestSound, OffOrSame, SiteOf;
    WholeIsSteady(s, w);
    match ev {
      case ModuleLoaded(ch) =>
        SameIsOffOrSame(s.entries);
        ChangeKeepsPointers(s, w, ch, Changed(s, ch));
      case ApplicationStarts(ch, _) =>
        assert Changed(s, ch).(entries := s.entries) == Changed(s, ch);
        CheckKeepsPointers(s, w, ch, s.entries);
      case AddPatch(_, _, _) =>
      case RemovePatch(_) =>
      case ModuleUnloaded(_, _) =>
    }
  }

  // ----- runs -----

  ghost predicate FreshEvent(s: State, ev: Event) {
    ev.AddPatch? ==> FreshCell(s, ev.request)
  }

  /** Each patch that is added brings a cell that no patch listed then has. */
  ghost predicate RunFresh(s: State, evs: seq<Event>, guardFirst: bool)
    decreases |evs|
  {
    evs != [] ==>
      && FreshEvent(s, evs[0])
      && (React(s, evs[0], guardFirst).Some? ==> RunFresh(React(s, evs[0], guardFirst).value, evs[1..], guardFirst))
  }

  lemma EventKeepsPointers(s: State, w: World, ev: Event, guardFirst: bool)
    requires Whole(s, w) && Owns(s) && EventSound(s, w, ev) && Pointing(s) && FreshEvent(s, ev)
    ensures var r := React(s, ev, guardFirst); r.Some? ==> Pointing(r.value)
  {
    hide Whole, Owns, Pointing, EventSound, Swept, React, FreshEvent;
    if Swept(s, ev).Some? {
      SweepEventKeepsPointers(s, w, ev, guardFirst);
    } else {
      OtherEventKeepsPointers(s, w, ev, guardFirst);
    }
  }

  lemma OtherEventKeepsPointers(s: State, w: World, ev: Event, guardFirst: bool)
    requires Whole(s, w) && Owns(s) && EventSound(s, w, ev) && Swept(s, ev).None? && Pointing(s) && FreshEvent(s, ev)
    ensures var r := React(s, ev, guardFirst); r.Some? ==> Pointing(r.value)
  {
    hide Whole, Owns, Pointing, RequestSound, VanishSound, Add, Remove, Checked, Find, FreshCell, LoadSound, SiteOf;
    match ev {
      case AddPatch(q, choice1, choice2) =>
        AddKeepsPointers(s, w, q, choice1, choice2);
        HeapHoldsNoPointers();
      case RemovePatch(handle) =>
        if Find(s.entries, handle) < |s.entries| {
          RemovalKeepsPointers(s, w, Find(s.entries, handle), guardFirst);
        }
      case ModuleUnloaded(ch, library) =>
        CheckKeepsPointers(s, w, ch, Invalidated(s.entries, library));
      case ModuleLoaded(_) =>
      case ApplicationStarts(_, _) =>
    }
  }

  lemma SweepEventKeepsPointers(s: State, w: World, ev: Event, guardFirst: bool)
    requires Whole(s, w) && EventSound(s, w, ev) && Swept(s, ev).Some? && Pointing(s)
    ensures var r := React(s, ev, guardFirst); r.Some? ==> Pointing(r.value)
  {
    hide Whole, Steady, Pointing, EventSound, Swept, React, PatchMany, OffOrSame;
    var t, w' := Swept(s, ev).value, WorldAfter(w, ev);
    SweptIsWhole(s, w, ev, guardFirst);
    SweptKeepsPointers(s, w, ev);
    WholeIsSteady(t, w');
    PatchManyKeepsPointers(t, w', Upto(|t.entries|));
  }

  lemma {:induction false} RunKeepsPointers(s: State, w: World, evs: seq<Event>, guardFirst: bool)
    requires Whole(s, w) && Owns(s) && RunSound(s, w, evs, guardFirst) && RunFresh(s, evs, guardFirst) && Pointing(s)
    ensures Exec(s, evs, guardFirst).Some? && Pointing(Exec(s, evs, guardFirst).value)
    decreases |evs|
  {
    hide Whole, Owns, EventSound, React, WorldAfter, Pointing, FreshEvent;
    if evs != [] {
      EventKeepsPointers(s, w, evs[0], guardFirst);
      EventIsSafe(s, w, evs[0], guardFirst);
      RunKeepsPointers(React(s, evs[0], guardFirst).value, WorldAfter(w, evs[0]), evs[1..], guardFirst);
    }
  }

  /**
   After every run, in either form of the code and whatever order its sweeps find, in which callers
   do not share cells, the cell of each patched entry points to its `jumpToOriginal`.
   */
  lemma EveryRunHoldsPointers(mem: Memory, env: Env, data: iset<Addr>, evs: seq<Event>, guardFirst: bool)
    requires AnyRun(mem, env, data, evs, guardFirst) && RunFresh(Initial(mem, env), evs, guardFirst)
    ensures Exec(Initial(mem, env), evs, guardFirst).Some? && PointersHeld(Exec(Initial(mem, env), evs, guardFirst).value)
  {
    hide Pre, Inv, Whole, Owns, RunSound, RunFresh, Exec, Injective, PointersHeld;
    InitialIsInv(mem, env, data);
    PreIsWhole(Initial(mem, env), World(mem, data));
    InitialPoints(mem, env);
    RunKeepsPointers(Initial(mem, env), World(mem, data), evs, guardFirst);
  }

  lemma InitialPoints(mem: Memory, env: Env)
    ensures Pointing(Initial(mem, env))
  {
  }

  /** So a call through the cell of the `k`-th patch applied to a function is what `CallThroughBuffer` says. */
  lemma CallThroughSavedPointer(s: State, w: World, st: Stacks, sem: Semantics, a: Addr, k: nat, c: Cpu) returns (n: nat, m: nat)
    requires Carries(s, w, st) && PointersHeld(s) && s.env.xl(a) !in w.data && k < |st(s.env.xl(a))|
    requires c.pc == View(s.mem, s.env.xl)(st(s.env.xl(a))[k].realCall) && Aligned(Next(a))
    requires Displaceable(sem, w.pristine(s.env.xl(a))) && s.env.xl(s.env.plat.UpidCell()) != s.env.xl(a)
    ensures var x, es := w.pristine(s.env.xl(a)), st(s.env.xl(a));
            var d, d' := Run(View(s.mem, s.env.xl), sem, c, n), Run(View(Before(s, es[k]), s.env.xl), sem, c.(pc := a), m);
            var j := Chosen(es, Upid(s), k);
            && -1 <= j < k && d.pc == d'.pc == Destination(a, es, j)
            && (SameVisible(d, d') <==>
                  || j >= 0
                  || Short(Next(a))
                  || SameVisible(sem(x, c.(ctr := Next(a))), sem(x, c)))
  {
    hide *;
    ElementPoints(s, w, st, s.env.xl(a), k);
    n, m := CallThroughBuffer(s, w, st, sem, a, k, c);
  }

  lemma ElementPoints(s: State, w: World, st: Stacks, p: Addr, k: nat)
    requires Carries(s, w, st) && PointersHeld(s) && p !in w.data && k < |st(p)|
    ensures View(s.mem, s.env.xl)(st(p)[k].realCall) == st(p)[k].jumpToOriginal
  {
    hide Whole, View, Linked;
    assert CarriesAt(s, w, st(p), p);
    var i :| 0 <= i < |s.entries| && s.entries[i] == st(p)[k];
  }
}
