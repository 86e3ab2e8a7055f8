/**
 Whole runs: patches are added and removed, modules are loaded and unloaded, applications start.
 */
module Runs {
  import opened Words
  import opened Machine
  import opened CodeGen
  import opened Loading
  import opened Dispatch
  import opened PatchStack
  import opened Writing
  import opened Chain
  import opened Keeping
  import opened Removal
  import opened Rebuilding
  import opened Scanning
  import opened Ownership
  import opened PatchOrder
  import opened Publication

  // ----- what happens outside the module -----

  /** The surroundings after an event, and the physical addresses whose contents it replaced. */
  datatype Change = Change(env: Env, mem: Memory, region: iset<Addr>)

  /** The original code after the event: new in the region, as before elsewhere. */
  ghost function NewWorld(w: World, ch: Change): World {
    w.(pristine := (a: Addr) => if a in ch.region then ch.mem(a) else w.pristine(a))
  }

  /** The state in which the module is called back. */
  function Changed(s: State, ch: Change): State {
    s.(env := ch.env, mem := ch.mem)
  }

  /**
   Outside the region an entry resolves as before (H1, H2): an event that replaces code of one
   region changes only who resolves into that region.
   */
  ghost predicate SitesKept(s: State, w: World, ch: Change, e: Entry) {
    var was, site := SiteOf(s.env, w.pristine, e), SiteOf(ch.env, NewWorld(w, ch).pristine, e);
    && (was.Resolved? && was.phys !in ch.region ==> site == was)
    && (site.Resolved? && site.phys !in ch.region ==> was == site)
  }

  /** An event leaves the module's data, its translation and all code outside the region alone. */
  ghost predicate ChangeSound(s: State, w: World, ch: Change) {
    && ch.region !! w.data
    && (forall p :: p !in ch.region ==> ch.mem(p) == s.mem(p))
    && (forall c :: s.env.xl(c) in w.data ==> ch.env.xl(c) == s.env.xl(c))
    && ch.env.plat == s.env.plat
    && Assumed(Changed(s, ch), NewWorld(w, ch))
    && (forall i :: 0 <= i < |s.entries| ==> SitesKept(s, w, ch, s.entries[i]))
  }

  /** The patches in the region are off, all others are as they were. */
  ghost predicate RegionOff(es: seq<Entry>, fs: seq<Entry>, region: iset<Addr>) {
    && |es| == |fs|
    && forall i: nat :: i < |es| ==> fs[i] == if es[i].isPatched && es[i].phys in region then Off(es[i]) else es[i]
  }

  lemma RegionOffOn(es: seq<Entry>, fs: seq<Entry>, region: iset<Addr>, a: Addr)
    requires RegionOff(es, fs, region)
    ensures On(fs, a) == if a in region then [] else On(es, a)
  {
    if a in region {
      OnNone(fs, a);
    } else {
      OnPointwise(es, fs, a);
    }
  }

  lemma OffOrSameShape(env: Env, w: World, es: seq<Entry>, fs: seq<Entry>)
    requires OffOrSame(es, fs)
    ensures SameShape(env, w.pristine, es, fs)
  {
    hide SiteOf, SameSite, SameBuffers;
    forall i: nat | i < |es|
      ensures SameSite(env, w.pristine, es[i], fs[i]) && SameBuffers(es[i], fs[i])
    {
      OffHasSameShape(env, w.pristine, es[i]);
      SameSiteReflexive(env, w.pristine, es[i]);
      SameConfigReflexive();
      assert SameConfig(es[i], es[i]);
    }
  }

  lemma ChangedLaidOut(s: State, w: World, ch: Change)
    requires LaidOut(s, w) && ChangeSound(s, w, ch)
    ensures LaidOut(Changed(s, ch), NewWorld(w, ch))
  {
    hide Assumed, OwnCells, BuffersUsable, Aligned, SitesKept, NeedsTrampoline;
    forall i | 0 <= i < |s.entries|
      ensures EntryLaidOut(ch.env, NewWorld(w, ch), s.entries[i])
    {
      assert EntryLaidOut(s.env, w, s.entries[i]);
    }
  }

  lemma ChangedBuffers(s: State, w: World, ch: Change, i: nat)
    requires LaidOut(s, w) && BuffersFilled(s) && ChangeSound(s, w, ch) && i < |s.entries| && s.entries[i].isPatched
    ensures Emitted(View(ch.mem, ch.env.xl), ch.env.plat, s.entries[i])
  {
    hide Assumed, LaidOut, OwnCells, Emitted, SitesKept, View;
    forall c | c in OwnCells(s.entries[i])
      ensures View(s.mem, s.env.xl)(c) == View(ch.mem, ch.env.xl)(c)
    {
      CellIsData(s, w, i, c);
      ViewAt(s.mem, s.env.xl, c);
      ViewAt(ch.mem, ch.env.xl, c);
    }
    TrampolineAllocated(s, w, i);
    EmittedFrame(View(s.mem, s.env.xl), View(ch.mem, ch.env.xl), s.env.plat, s.entries[i]);
  }

  lemma ChangedSites(s: State, w: World, ch: Change, i: nat)
    requires Located(s, w) && ChangeSound(s, w, ch) && i < |s.entries|
    ensures SitesKept(s, w, ch, s.entries[i])
    ensures s.entries[i].isPatched ==> SiteOf(s.env, w.pristine, s.entries[i]) == Resolved(s.entries[i].eff, s.entries[i].phys)
  {
    hide Assumed, SiteOf, SitesKept;
  }

  /** Entries are as they were, or off, and none is patched in the region. */
  ghost predicate LeavesRegion(es: seq<Entry>, fs: seq<Entry>, region: iset<Addr>) {
    OffOrSame(es, fs) && forall i :: 0 <= i < |fs| && fs[i].isPatched ==> fs[i].phys !in region
  }

  /** What is kept in any order of patches, after an event that leaves none patched in the region. */
  lemma ChangedIsWhole(s: State, w: World, ch: Change, t: State)
    requires Whole(s, w) && ChangeSound(s, w, ch)
    requires t == Changed(s, ch).(entries := t.entries) && LeavesRegion(s.entries, t.entries, ch.region)
    ensures Whole(t, NewWorld(w, ch))
  {
    hide SiteOf, Located, Assumed, LaidOut, PlainCode, WordsRight, BuffersFilled, LeavesRegion, ChangeSound;
    ChangedAssumed(s, w, ch, t);
    ChangedLocated(s, w, ch, t);
    ChangedEntries(s, w, ch, t);
    ChangedPlain(s, w, ch, t);
  }

  lemma ChangedAssumed(s: State, w: World, ch: Change, t: State)
    requires LaidOut(s, w) && ChangeSound(s, w, ch)
    requires t == Changed(s, ch).(entries := t.entries) && LeavesRegion(s.entries, t.entries, ch.region)
    ensures Assumed(t, NewWorld(w, ch)) && LaidOut(t, NewWorld(w, ch))
  {
    hide SiteOf, Assumed, LaidOut, SameShape, SitesKept, OffOrSame, Injective;
    ChangedLaidOut(s, w, ch);
    OffOrSameShape(ch.env, NewWorld(w, ch), s.entries, t.entries);
    SameShapeKeeps(Changed(s, ch), t, NewWorld(w, ch));
  }

  lemma ChangedPlain(s: State, w: World, ch: Change, t: State)
    requires PlainCode(s, w) && ChangeSound(s, w, ch) && t.mem == ch.mem
    ensures PlainCode(t, NewWorld(w, ch))
  {
    hide Assumed, SitesKept, Restorable, IsRelativeBranch;
    forall a | a !in w.data
      ensures PlainAt(t.mem, NewWorld(w, ch).pristine, a)
    {
      assert PlainAt(s.mem, w.pristine, a);
    }
  }

  lemma ChangedEntries(s: State, w: World, ch: Change, t: State)
    requires LaidOut(s, w) && WordsRight(s) && BuffersFilled(s) && ChangeSound(s, w, ch)
    requires t == Changed(s, ch).(entries := t.entries) && LeavesRegion(s.entries, t.entries, ch.region)
    ensures WordsRight(t) && BuffersFilled(t)
  {
    hide LaidOut, Emitted, Reachable, Restorable, ChangeSound, View;
    OffOrSameConfig(s.entries, t.entries);
    forall i: nat | i < |t.entries| && t.entries[i].isPatched
      ensures Emitted(View(t.mem, t.env.xl), t.env.plat, t.entries[i])
      ensures Reachable(t.entries[i]) && Restorable(t.entries[i].replaced)
    {
      assert t.entries[i] == s.entries[i];
      ChangedBuffers(s, w, ch, i);
    }
  }

  lemma ChangedLocated(s: State, w: World, ch: Change, t: State)
    requires Located(s, w) && ChangeSound(s, w, ch)
    requires t == Changed(s, ch).(entries := t.entries) && LeavesRegion(s.entries, t.entries, ch.region)
    ensures Located(t, NewWorld(w, ch))
  {
    hide SiteOf, ChangeSound, OffOrSame;
    OffOrSameConfig(s.entries, t.entries);
    forall i: nat | i < |t.entries| && t.entries[i].isPatched
      ensures SiteOf(t.env, NewWorld(w, ch).pristine, t.entries[i]) == Resolved(t.entries[i].eff, t.entries[i].phys)
    {
      ChangedSites(s, w, ch, i);
      assert t.entries[i] == s.entries[i];
    }
  }

  /** The invariant after an event, once exactly the patches in the region are off. */
  lemma ChangedIsPre(s: State, w: World, ch: Change, t: State)
    requires Pre(s, w) && ChangeSound(s, w, ch)
    requires t == Changed(s, ch).(entries := t.entries) && RegionOff(s.entries, t.entries, ch.region)
    ensures Pre(t, NewWorld(w, ch)) && (Ordered(s, w) ==> Ordered(t, NewWorld(w, ch)))
  {
    hide SiteOf, Chained, Located, Ordered, Assumed, LaidOut, PlainCode, WordsRight, BuffersFilled, RegionOff, LeavesRegion, ChangeSound;
    PreIsWhole(s, w);
    RegionOffLeaves(s.entries, t.entries, ch.region);
    ChangedIsWhole(s, w, ch, t);
    ChangedChained(s, w, ch, t);
    if Ordered(s, w) {
      ChangedOrdered(s, w, ch, t);
    }
  }

  lemma RegionOffLeaves(es: seq<Entry>, fs: seq<Entry>, region: iset<Addr>)
    requires RegionOff(es, fs, region)
    ensures LeavesRegion(es, fs, region)
  {
  }

  lemma ChangedChained(s: State, w: World, ch: Change, t: State)
    requires Pre(s, w) && ChangeSound(s, w, ch)
    requires t == Changed(s, ch).(entries := t.entries) && RegionOff(s.entries, t.entries, ch.region)
    ensures Chained(t, NewWorld(w, ch))
  {
    hide Assumed, Located, WordsRight, LaidOut, BuffersFilled, SiteOf, SitesKept, On, RegionOff, Waiting;
    var w' := NewWorld(w, ch);
    forall a | a !in w.data
      ensures ChainAt(t.mem, w'.pristine, t.entries, a)
    {
      assert ChainAt(s.mem, w.pristine, s.entries, a);
      RegionOffOn(s.entries, t.entries, ch.region, a);
    }
  }

  lemma ChangedOrdered(s: State, w: World, ch: Change, t: State)
    requires Located(s, w) && Ordered(s, w) && ChangeSound(s, w, ch)
    requires t == Changed(s, ch).(entries := t.entries) && RegionOff(s.entries, t.entries, ch.region)
    ensures Ordered(t, NewWorld(w, ch))
  {
    hide Located, SiteOf, ChangeSound;
    var w' := NewWorld(w, ch);
    forall i: nat, j: nat | i < j < |t.entries| && t.entries[j].isPatched && GoesTo(t.env, w'.pristine, t.entries[i], t.entries[j].phys)
      ensures t.entries[i].isPatched
    {
      OffHasSameShape(t.env, w'.pristine, s.entries[i]);
      ResolvedBefore(s, w, ch, i, t.entries[j].phys);
      OrderedAt(s, w, i, j);
    }
  }

  /** An entry that resolves to a place outside the region did so before the event. */
  lemma ResolvedBefore(s: State, w: World, ch: Change, i: nat, a: Addr)
    requires Located(s, w) && ChangeSound(s, w, ch) && i < |s.entries| && a !in ch.region
    requires GoesTo(ch.env, NewWorld(w, ch).pristine, s.entries[i], a)
    ensures GoesTo(s.env, w.pristine, s.entries[i], a)
    ensures s.entries[i].isPatched ==> s.entries[i].phys == a
  {
    hide Located, SiteOf, ChangeSound;
    ChangedSites(s, w, ch, i);
  }

  lemma OrderedAt(s: State, w: World, i: nat, j: nat)
    requires Ordered(s, w) && i < j < |s.entries| && s.entries[j].isPatched
    requires GoesTo(s.env, w.pristine, s.entries[i], s.entries[j].phys)
    ensures s.entries[i].isPatched
  {
    hide SiteOf;
  }

  // ----- the three callbacks -----

  /** A load puts fresh code where no patch is (H3). */
  ghost predicate LoadSound(s: State, w: World, ch: Change) {
    && ChangeSound(s, w, ch)
    && forall i :: 0 <= i < |s.entries| && s.entries[i].isPatched ==> s.entries[i].phys !in ch.region
  }

  /** Before the sweep of a load the invariant holds of the new surroundings. */
  lemma ChangedByLoad(s: State, w: World, ch: Change)
    requires Pre(s, w) && LoadSound(s, w, ch)
    ensures Pre(Changed(s, ch), NewWorld(w, ch)) && (Ordered(s, w) ==> Ordered(Changed(s, ch), NewWorld(w, ch)))
  {
    hide Pre, Ordered, SiteOf, ChangeSound, Waiting;
    var t := Changed(s, ch);
    assert RegionOff(s.entries, t.entries, ch.region);
    ChangedIsPre(s, w, ch, t);
  }

  lemma LoadKeepsInv(s: State, w: World, ch: Change)
    requires Pre(s, w) && Ordered(s, w) && LoadSound(s, w, ch)
    ensures var r := Loaded(Changed(s, ch));
            && r.Some? && Inv(r.value, NewWorld(w, ch)) && r.value.heap == s.heap
            && |r.value.entries| == |s.entries|
            && (forall i :: 0 <= i < |s.entries| ==> SameConfig(s.entries[i], r.value.entries[i]))
  {
    hide Pre, Ordered, SiteOf, LoadSound, Waiting, SameConfig, Sweep;
    ChangedByLoad(s, w, ch);
    SweepEstablishesInv(Changed(s, ch), NewWorld(w, ch));
  }

  /** Code of the region that still looks patched belongs to entries that the callback has cleared (H3). */
  ghost predicate VanishSound(s: State, w: World, ch: Change, cleared: seq<Entry>) {
    && ChangeSound(s, w, ch)
    && |cleared| == |s.entries|
    && (forall i: nat :: i < |s.entries| ==>
          cleared[i] == s.entries[i]
          || (cleared[i] == Off(s.entries[i]) && (s.entries[i].isPatched ==> s.entries[i].phys in ch.region)))
    && (forall i :: 0 <= i < |s.entries| && cleared[i].isPatched && cleared[i].phys in ch.region ==>
          ch.mem(cleared[i].phys) != cleared[i].replaceWith)
  }

  /** The memory check then leaves exactly the patches outside the region. */
  lemma CheckAfterVanish(s: State, w: World, ch: Change, cleared: seq<Entry>)
    requires Pre(s, w) && VanishSound(s, w, ch, cleared)
    ensures var t := Checked(Changed(s, ch).(entries := cleared));
            && RegionOff(s.entries, t.entries, ch.region) && t == Changed(s, ch).(entries := t.entries)
            && Pre(t, NewWorld(w, ch)) && (Ordered(s, w) ==> Ordered(t, NewWorld(w, ch)))
  {
    hide Pre, Ordered, SiteOf, ChangeSound, Waiting, Checked, StillThere;
    var u := Changed(s, ch).(entries := cleared);
    ClearedChains(s, w, ch, cleared);
    CheckedMeans(u);
    CheckedLeavesTheLive(u, NewWorld(w, ch), ch.region);
    ChangedIsPre(s, w, ch, Checked(u));
  }

  lemma ClearedChains(s: State, w: World, ch: Change, cleared: seq<Entry>)
    requires Pre(s, w) && VanishSound(s, w, ch, cleared)
    ensures ch.env.readable
    ensures forall i :: 0 <= i < |cleared| && cleared[i].isPatched ==> cleared[i].phys !in w.data
    ensures forall a :: a !in w.data && a !in ch.region ==> ChainAt(ch.mem, NewWorld(w, ch).pristine, cleared, a)
  {
    hide SiteOf, SitesKept, Waiting, Located, WordsRight, BuffersFilled, LaidOut, Linked, On, SiteSound, Injective;
    forall a | a !in w.data && a !in ch.region
      ensures ChainAt(ch.mem, NewWorld(w, ch).pristine, cleared, a)
    {
      assert ChainAt(s.mem, w.pristine, s.entries, a);
      OnPointwise(s.entries, cleared, a);
    }
    forall i: nat | i < |cleared| && cleared[i].isPatched
      ensures cleared[i].phys !in w.data
    {
      PatchedIsCode(s, w, i);
    }
  }

  lemma PatchedIsCode(s: State, w: World, i: nat)
    requires Pre(s, w) && i < |s.entries| && s.entries[i].isPatched
    ensures s.entries[i].phys !in w.data
  {
    hide Pre, SiteOf, ChainAt, Reachable, Injective, IsRelativeBranch;
    PatchedFacts(s, w, i);
  }

  /**
   An unload takes the region away: no entry resolves into it any more. The patches of the library
   that is recognised, if any, all lie in it.
   */
  ghost predicate UnloadSound(s: State, w: World, ch: Change, library: Option<Library>) {
    && VanishSound(s, w, ch, Invalidated(s.entries, library))
    && forall i :: 0 <= i < |s.entries| ==>
         var site := SiteOf(ch.env, NewWorld(w, ch).pristine, s.entries[i]);
         site.Resolved? ==> site.phys !in ch.region
  }

  lemma RegionOffConfig(es: seq<Entry>, fs: seq<Entry>, region: iset<Addr>)
    requires RegionOff(es, fs, region)
    ensures forall i :: 0 <= i < |es| ==> SameConfig(es[i], fs[i])
  {
  }

  lemma UnloadKeepsPre(s: State, w: World, ch: Change, library: Option<Library>)
    requires Pre(s, w) && UnloadSound(s, w, ch, library)
    ensures var r := Unloaded(Changed(s, ch), library);
            && Pre(r, NewWorld(w, ch)) && (Ordered(s, w) ==> Ordered(r, NewWorld(w, ch)))
            && r.heap == s.heap && RegionOff(s.entries, r.entries, ch.region)
            && (forall i :: 0 <= i < |s.entries| ==> (Waiting(r, NewWorld(w, ch), i) ==> Waiting(s, w, i)))
  {
    hide Pre, Ordered, SiteOf, ChangeSound, Waiting, Checked, Invalidated;
    var w' := NewWorld(w, ch);
    CheckAfterVanish(s, w, ch, Invalidated(s.entries, library));
    var r := Unloaded(Changed(s, ch), library);
    forall i: nat | i < |r.entries| && Waiting(r, w', i)
      ensures Waiting(s, w, i)
    {
      WaitedBeforeUnload(s, w, ch, library, r, i);
    }
  }

  lemma WaitedBeforeUnload(s: State, w: World, ch: Change, library: Option<Library>, r: State, i: nat)
    requires Pre(s, w) && UnloadSound(s, w, ch, library) && RegionOff(s.entries, r.entries, ch.region)
    requires i < |s.entries| && r.env == ch.env && Waiting(r, NewWorld(w, ch), i)
    ensures Waiting(s, w, i)
  {
    hide Pre, SiteOf, ChangeSound, Invalidated;
    var w' := NewWorld(w, ch);
    OffHasSameShape(ch.env, w'.pristine, s.entries[i]);
    var site := SiteOf(ch.env, w'.pristine, s.entries[i]);
    assert Located(s, w) by { PreIsLocated(s, w); }
    ResolvedBefore(s, w, ch, i, site.phys);
  }

  lemma PreIsLocated(s: State, w: World)
    requires Pre(s, w)
    ensures Located(s, w)
  {
    hide Located;
  }

  lemma UnloadKeepsInv(s: State, w: World, ch: Change, library: Option<Library>)
    requires Inv(s, w) && UnloadSound(s, w, ch, library)
    ensures var r := Unloaded(Changed(s, ch), library);
            && Inv(r, NewWorld(w, ch)) && r.heap == s.heap && RegionOff(s.entries, r.entries, ch.region)
  {
    hide Pre, SiteOf, ChangeSound, Waiting, UnloadSound, Unloaded;
    UnloadKeepsPre(s, w, ch, library);
  }

  /** An application start: the code of the region may be anything but a branch word of a patch there. */
  ghost predicate StartSound(s: State, w: World, ch: Change) {
    VanishSound(s, w, ch, s.entries)
  }

  /** Before the sweep of an application start the memory check has restored the invariant. */
  lemma CheckedByStart(s: State, w: World, ch: Change)
    requires Pre(s, w) && StartSound(s, w, ch)
    ensures var t := Checked(Changed(s, ch));
            && Pre(t, NewWorld(w, ch)) && (Ordered(s, w) ==> Ordered(t, NewWorld(w, ch))) && t.heap == s.heap
            && |t.entries| == |s.entries|
            && (forall i :: 0 <= i < |s.entries| ==> SameConfig(s.entries[i], t.entries[i]))
  {
    hide Pre, Ordered, SiteOf, ChangeSound, Waiting, Checked, SameConfig;
    assert Changed(s, ch).(entries := s.entries) == Changed(s, ch);
    CheckAfterVanish(s, w, ch, s.entries);
    RegionOffConfig(s.entries, Checked(Changed(s, ch)).entries, ch.region);
  }

  lemma StartKeepsInv(s: State, w: World, ch: Change, upid: Word)
    requires Pre(s, w) && Ordered(s, w) && StartSound(s, w, ch) && (upid == 2 || upid == 15)
    ensures var r := Started(Changed(s, ch), upid);
            && r.Some? && Inv(r.value, NewWorld(w, ch)) && r.value.heap == s.heap
            && |r.value.entries| == |s.entries|
            && (forall i :: 0 <= i < |s.entries| ==> SameConfig(s.entries[i], r.value.entries[i]))
  {
    hide Pre, Ordered, SiteOf, StartSound, Waiting, Checked, Sweep, SameBuffers;
    var t := Checked(Changed(s, ch));
    CheckedByStart(s, w, ch);
    SweepEstablishesInv(t, NewWorld(w, ch));
    SameConfigsTransitive(s.entries, t.entries, Sweep(t).value.entries);
  }

  // ----- runs -----

  datatype Event =
    | AddPatch(request: Request, choice1: Addr, choice2: Addr)
    | RemovePatch(handle: nat)
    | ModuleLoaded(change: Change)
    | ModuleUnloaded(change: Change, library: Option<Library>)
    | ApplicationStarts(change: Change, upid: Word)

  /** What is assumed of an event in a state. */
  ghost predicate EventSound(s: State, w: World, ev: Event) {
    match ev
    case AddPatch(q, choice1, choice2) => RequestSound(s, w, q, choice1, choice2)
    case RemovePatch(_) => true
    case ModuleLoaded(ch) => LoadSound(s, w, ch)
    case ModuleUnloaded(ch, library) => UnloadSound(s, w, ch, library)
    case ApplicationStarts(ch, upid) => StartSound(s, w, ch) && (upid == 2 || upid == 15)
  }

  /** The event and the module's reaction, with removal as intended or, without `guardFirst`, as written. */
  function React(s: State, ev: Event, guardFirst: bool): Option<State> {
    match ev
    case AddPatch(q, choice1, choice2) =>
      (match Add(s, q, choice1, choice2)
       case NoMemory(heap) => Some(s.(heap := heap))
       case Stopped => None
       case Added(s') => Some(s'))
    case RemovePatch(handle) =>
      var k := Find(s.entries, handle);
      if k < |s.entries| then Remove(s, k, guardFirst) else Some(s)
    case ModuleLoaded(ch) => Loaded(Changed(s, ch))
    case ModuleUnloaded(ch, library) => Some(Unloaded(Changed(s, ch), library))
    case ApplicationStarts(ch, upid) => Started(Changed(s, ch), upid)
  }

  ghost function WorldAfter(w: World, ev: Event): World {
    match ev
    case AddPatch(_, _, _) => w
    case RemovePatch(_) => w
    case ModuleLoaded(ch) => NewWorld(w, ch)
    case ModuleUnloaded(ch, _) => NewWorld(w, ch)
    case ApplicationStarts(ch, _) => NewWorld(w, ch)
  }

  // ----- what every event keeps, whatever the order of patches -----

  lemma LoadIsWhole(s: State, w: World, ch: Change)
    requires Whole(s, w) && LoadSound(s, w, ch)
    ensures Whole(Changed(s, ch), NewWorld(w, ch))
  {
    hide Whole, ChangeSound;
    assert LeavesRegion(s.entries, Changed(s, ch).entries, ch.region);
    ChangedIsWhole(s, w, ch, Changed(s, ch));
  }

  /** After the memory check no entry is patched in the region, even if it turns off others as well. */
  lemma CheckLeavesRegion(s: State, w: World, ch: Change, cleared: seq<Entry>)
    requires VanishSound(s, w, ch, cleared) && ch.env.readable
    ensures var t := Checked(Changed(s, ch).(entries := cleared));
            t == Changed(s, ch).(entries := t.entries) && LeavesRegion(s.entries, t.entries, ch.region)
  {
    hide ChangeSound, Checked;
    var u := Changed(s, ch).(entries := cleared);
    CheckedMeans(u);
    forall i: nat | i < |cleared| && Checked(u).entries[i].isPatched
      ensures Checked(u).entries[i].phys !in ch.region
    {
      LastAtMeans(cleared, |cleared|, cleared[i].phys);
    }
    assert OffOrSame(s.entries, Checked(u).entries);
  }

  lemma CheckIsWhole(s: State, w: World, ch: Change, cleared: seq<Entry>)
    requires Whole(s, w) && VanishSound(s, w, ch, cleared)
    ensures var t := Checked(Changed(s, ch).(entries := cleared));
            Whole(t, NewWorld(w, ch)) && t.heap == s.heap && OffOrSame(s.entries, t.entries)
  {
    hide Whole, Checked, Assumed, OffOrSame;
    VanishIsReadable(s, w, ch, cleared);
    CheckLeavesRegion(s, w, ch, cleared);
    ChangedIsWhole(s, w, ch, Checked(Changed(s, ch).(entries := cleared)));
  }

  lemma VanishIsReadable(s: State, w: World, ch: Change, cleared: seq<Entry>)
    requires VanishSound(s, w, ch, cleared)
    ensures ch.env.readable && ChangeSound(s, w, ch)
  {
    hide SitesKept, SiteSound, Injective;
  }

  /** A sweep is never fatal, whatever is patched above what, and frees nothing. */
  lemma SweepIsSafe(s: State, w: World)
    requires Whole(s, w) && Owns(s)
    ensures Sweep(s).Some? && Whole(Sweep(s).value, w) && Owns(Sweep(s).value)
  {
    hide Whole, PatchMany, AllBlocks, SameConfig;
    PatchManyKeepsWhole(s, w, Upto(|s.entries|));
    SameConfigSameBlocks(s.entries, Sweep(s).value.entries);
  }

  lemma OffOrSameOwns(s: State, t: State)
    requires Owns(s) && t.heap == s.heap && OffOrSame(s.entries, t.entries)
    ensures Owns(t)
  {
    hide AllBlocks, OffOrSame, SameConfig;
    OffOrSameConfig(s.entries, t.entries);
    SameConfigSameBlocks(s.entries, t.entries);
  }

  /** No event is fatal, and each keeps the layout, the buffers and the ownership of blocks, in either form of the code. */
  lemma EventIsSafe(s: State, w: World, ev: Event, guardFirst: bool)
    requires Whole(s, w) && Owns(s) && EventSound(s, w, ev)
    ensures var r := React(s, ev, guardFirst); r.Some? && Whole(r.value, WorldAfter(w, ev)) && Owns(r.value)
  {
    hide Whole, Owns, RequestSound, ChangeSound, Waiting, SiteOf, Add, Remove, Find, Sweep, Checked, OffOrSame;
    match ev {
      case AddPatch(q, choice1, choice2) =>
        AddOwns(s, w, q, choice1, choice2);
        assert s.(heap := s.heap) == s;
      case RemovePatch(handle) =>
        if Find(s.entries, handle) < |s.entries| {
          RemovalOwns(s, w, Find(s.entries, handle), guardFirst);
        }
      case ModuleLoaded(ch) =>
        LoadIsWhole(s, w, ch);
        SameBlocksOwned(s, Changed(s, ch));
        SweepIsSafe(Changed(s, ch), NewWorld(w, ch));
      case ModuleUnloaded(ch, library) =>
        CheckIsWhole(s, w, ch, Invalidated(s.entries, library));
        OffOrSameOwns(s, Unloaded(Changed(s, ch), library));
      case ApplicationStarts(ch, upid) =>
        assert Changed(s, ch).(entries := s.entries) == Changed(s, ch);
        CheckIsWhole(s, w, ch, s.entries);
        OffOrSameOwns(s, Checked(Changed(s, ch)));
        SweepIsSafe(Checked(Changed(s, ch)), NewWorld(w, ch));
    }
  }

  lemma SameBlocksOwned(s: State, t: State)
    requires Owns(s) && t.heap == s.heap && t.entries == s.entries
    ensures Owns(t)
  {
  }

  /** Every event keeps the invariant and the ownership of the heap's blocks, and none stops the console. */
  lemma EventKeepsInv(s: State, w: World, ev: Event)
    requires Inv(s, w) && Owns(s) && EventSound(s, w, ev)
    ensures var r := React(s, ev, true); r.Some? && Inv(r.value, WorldAfter(w, ev)) && Owns(r.value)
  {
    hide Inv, Pre, Whole, Ordered, Owns, RequestSound, LoadSound, UnloadSound, StartSound, Add, Remove, Loaded, Unloaded, Started, Find;
    InvIsOrdered(s, w);
    PreIsWhole(s, w);
    EventIsSafe(s, w, ev, true);
    match ev {
      case AddPatch(q, choice1, choice2) =>
        AddKeepsInv(s, w, q, choice1, choice2);
        AddOwns(s, w, q, choice1, choice2);
        HeapIsIrrelevant(s, w, s.heap);
      case RemovePatch(handle) =>
        if Find(s.entries, handle) < |s.entries| {
          RemovalKeepsInv(s, w, Find(s.entries, handle));
        }
      case ModuleLoaded(ch) =>
        LoadMakesInv(s, w, ch);
      case ModuleUnloaded(ch, library) =>
        UnloadMakesInv(s, w, ch, library);
      case ApplicationStarts(ch, upid) =>
        StartMakesInv(s, w, ch, upid);
    }
  }

  // The part of a longer contract that is needed for an event.

  lemma RemovalKeepsInv(s: State, w: World, k: nat)
    requires Inv(s, w) && k < |s.entries|
    ensures Remove(s, k, true).Some? && Inv(Remove(s, k, true).value, w)
  {
    hide Inv, Remove, SamePatches, Waiting, BeforeReapply;
    IntendedRemovalKeepsInv(s, w, k);
  }

  lemma LoadMakesInv(s: State, w: World, ch: Change)
    requires Pre(s, w) && Ordered(s, w) && LoadSound(s, w, ch)
    ensures Loaded(Changed(s, ch)).Some? && Inv(Loaded(Changed(s, ch)).value, NewWorld(w, ch))
  {
    hide Pre, Ordered, Inv, LoadSound, Loaded, SameConfig;
    LoadKeepsInv(s, w, ch);
  }

  lemma UnloadMakesInv(s: State, w: World, ch: Change, library: Option<Library>)
    requires Inv(s, w) && UnloadSound(s, w, ch, library)
    ensures Inv(Unloaded(Changed(s, ch), library), NewWorld(w, ch))
  {
    hide Inv, UnloadSound, Unloaded, RegionOff;
    UnloadKeepsInv(s, w, ch, library);
  }

  lemma StartMakesInv(s: State, w: World, ch: Change, upid: Word)
    requires Pre(s, w) && Ordered(s, w) && StartSound(s, w, ch) && (upid == 2 || upid == 15)
    ensures Started(Changed(s, ch), upid).Some? && Inv(Started(Changed(s, ch), upid).value, NewWorld(w, ch))
  {
    hide Pre, Ordered, Inv, StartSound, Started, SameConfig;
    StartKeepsInv(s, w, ch, upid);
  }

  // ----- removal as written -----

  /** The state that the event's sweep finds, if it has one: after a load, or after the memory check of an application start. */
  function Swept(s: State, ev: Event): Option<State> {
    match ev
    case AddPatch(_, _, _) => None
    case RemovePatch(_) => None
    case ModuleLoaded(ch) => Some(Changed(s, ch))
    case ModuleUnloaded(_, _) => None
    case ApplicationStarts(ch, _) => Some(Checked(Changed(s, ch)))
  }

  /** H3 and H5 for the patches that the event's sweep will leave behind. */
  ghost predicate EventApart(s: State, w: World, ev: Event) {
    Swept(s, ev).Some? ==> SitesApart(Swept(s, ev).value, WorldAfter(w, ev))
  }

  /** The event sweeps, if at all, a list in which no patched entry is above a waiting one of its address. */
  ghost predicate EventInOrder(s: State, w: World, ev: Event) {
    Swept(s, ev).Some? ==> Ordered(Swept(s, ev).value, WorldAfter(w, ev))
  }

  /** What the event's sweep finds, whatever the order, and that the event is that sweep. */
  lemma SweptIsWhole(s: State, w: World, ev: Event, guardFirst: bool)
    requires Whole(s, w) && EventSound(s, w, ev) && Swept(s, ev).Some?
    ensures var t := Swept(s, ev).value;
            && Whole(t, WorldAfter(w, ev)) && t.heap == s.heap && OffOrSame(s.entries, t.entries)
            && React(s, ev, guardFirst) == Sweep(t)
  {
    hide Whole, ChangeSound, Checked, Sweep, RequestSound, SiteOf;
    match ev {
      case ModuleLoaded(ch) =>
        LoadIsWhole(s, w, ch);
      case ApplicationStarts(ch, upid) =>
        assert Changed(s, ch).(entries := s.entries) == Changed(s, ch);
        CheckIsWhole(s, w, ch, s.entries);
      case AddPatch(_, _, _) =>
      case RemovePatch(_) =>
      case ModuleUnloaded(_, _) =>
    }
  }

  lemma SweptIsPre(s: State, w: World, ev: Event)
    requires Pre(s, w) && EventSound(s, w, ev) && Swept(s, ev).Some?
    ensures var t := Swept(s, ev).value;
            && t.heap == s.heap && |t.entries| == |s.entries|
            && (forall i :: 0 <= i < |s.entries| ==> SameConfig(s.entries[i], t.entries[i]))
            && Pre(t, WorldAfter(w, ev)) && (Ordered(s, w) ==> Ordered(t, WorldAfter(w, ev)))
            && React(s, ev, false) == Sweep(t)
  {
    hide Pre, Ordered, LoadSound, UnloadSound, StartSound, SameConfig, Checked, Sweep, RequestSound;
    SameConfigReflexive();
    match ev {
      case ModuleLoaded(ch) =>
        ChangedByLoad(s, w, ch);
      case ApplicationStarts(ch, upid) =>
        CheckedByStart(s, w, ch);
      case AddPatch(_, _, _) =>
      case RemovePatch(_) =>
      case ModuleUnloaded(_, _) =>
    }
  }

  /**
   With removal as written, patches may be waiting between events. No event stops the console, all
   keep the ownership of blocks, and each keeps the chains in list order, and with them the whole
   invariant, if and only if it does not sweep a list that is out of order.
   */
  lemma EventAsWritten(s: State, w: World, ev: Event)
    requires Pre(s, w) && Owns(s) && EventSound(s, w, ev) && EventApart(s, w, ev)
    ensures var r := React(s, ev, false);
            && r.Some? && Owns(r.value)
            && (Chained(r.value, WorldAfter(w, ev)) <==> EventInOrder(s, w, ev))
            && (EventInOrder(s, w, ev) ==> Pre(r.value, WorldAfter(w, ev)))
  {
    hide Pre, Inv, Whole, Ordered, Chained, EventSound, Owns, React, Swept, SitesApart, SameConfig, Sweep;
    PreIsWhole(s, w);
    EventIsSafe(s, w, ev, false);
    if Swept(s, ev).Some? {
      var t := Swept(s, ev).value;
      SweptIsPre(s, w, ev);
      SweepChainsIff(t, WorldAfter(w, ev));
      if Ordered(t, WorldAfter(w, ev)) {
        InvIsPre(Sweep(t).value, WorldAfter(w, ev));
      }
    } else {
      OtherEventAsWritten(s, w, ev);
      PreIsChained(React(s, ev, false).value, WorldAfter(w, ev));
    }
  }

  lemma PreIsChained(s: State, w: World)
    requires Pre(s, w)
    ensures Chained(s, w)
  {
    hide Chained;
  }

  lemma SameConfigOwns(s: State, t: State)
    requires Owns(s) && t.heap == s.heap && |t.entries| == |s.entries|
    requires forall i :: 0 <= i < |s.entries| ==> SameConfig(s.entries[i], t.entries[i])
    ensures Owns(t)
  {
    hide SameConfig, AllBlocks;
    SameConfigSameBlocks(s.entries, t.entries);
  }

  /** An event without a sweep: adding, removing, unloading. */
  lemma OtherEventAsWritten(s: State, w: World, ev: Event)
    requires Pre(s, w) && Owns(s) && EventSound(s, w, ev) && Swept(s, ev).None?
    ensures var r := React(s, ev, false); r.Some? && Pre(r.value, WorldAfter(w, ev)) && Owns(r.value)
  {
    hide Pre, Whole, Ordered, Owns, Waiting, RequestSound, LoadSound, UnloadSound, StartSound, Add, Remove, Find, Unloaded, SameConfig, SameSite, NewEntry, RegionOff;
    PreIsWhole(s, w);
    EventIsSafe(s, w, ev, false);
    match ev {
      case AddPatch(q, choice1, choice2) =>
        AddKeepsPre(s, w, q, choice1, choice2);
        HeapIsIrrelevant(s, w, s.heap);
      case RemovePatch(handle) =>
        if Find(s.entries, handle) < |s.entries| {
          RemovalAsWrittenKeepsPre(s, w, Find(s.entries, handle));
        }
      case ModuleUnloaded(ch, library) =>
        UnloadKeepsPre(s, w, ch, library);
      case ModuleLoaded(_) =>
      case ApplicationStarts(_, _) =>
    }
  }

  // ----- all events of a run -----

  function Exec(s: State, evs: seq<Event>, guardFirst: bool): Option<State>
    decreases |evs|
  {
    if evs == [] then Some(s)
    else match React(s, evs[0], guardFirst)
      case None => None
      case Some(s') => Exec(s', evs[1..], guardFirst)
  }

  ghost function WorldAfterAll(w: World, evs: seq<Event>): World
    decreases |evs|
  {
    if evs == [] then w else WorldAfterAll(WorldAfter(w, evs[0]), evs[1..])
  }

  /** The assumptions hold of each event in the state in which it happens. */
  ghost predicate RunSound(s: State, w: World, evs: seq<Event>, guardFirst: bool)
    decreases |evs|
  {
    evs != [] ==>
      && EventSound(s, w, evs[0])
      && (React(s, evs[0], guardFirst).Some? ==>
            RunSound(React(s, evs[0], guardFirst).value, WorldAfter(w, evs[0]), evs[1..], guardFirst))
  }

  lemma {:induction false} RunKeepsInv(s: State, w: World, evs: seq<Event>)
    requires Inv(s, w) && Owns(s) && RunSound(s, w, evs, true)
    ensures var r := Exec(s, evs, true); r.Some? && Inv(r.value, WorldAfterAll(w, evs)) && Owns(r.value)
    decreases |evs|
  {
    hide Inv, Owns, EventSound, React, WorldAfter;
    if evs != [] {
      EventKeepsInv(s, w, evs[0]);
      RunKeepsInv(React(s, evs[0], true).value, WorldAfter(w, evs[0]), evs[1..]);
    }
  }

  /** Every sweep of the run, with removal as written, finds its list in order. */
  ghost predicate RunInOrder(s: State, w: World, evs: seq<Event>)
    decreases |evs|
  {
    evs != [] ==>
      && EventInOrder(s, w, evs[0])
      && (React(s, evs[0], false).Some? ==> RunInOrder(React(s, evs[0], false).value, WorldAfter(w, evs[0]), evs[1..]))
  }

  ghost predicate RunApart(s: State, w: World, evs: seq<Event>)
    decreases |evs|
  {
    evs != [] ==>
      && EventApart(s, w, evs[0])
      && (React(s, evs[0], false).Some? ==> RunApart(React(s, evs[0], false).value, WorldAfter(w, evs[0]), evs[1..]))
  }

  /** No event stops the console, and the chains of all addresses are in list order before and after each. */
  ghost predicate AlwaysChained(s: State, w: World, evs: seq<Event>)
    decreases |evs|
  {
    && Chained(s, w)
    && (evs != [] ==>
          && React(s, evs[0], false).Some?
          && AlwaysChained(React(s, evs[0], false).value, WorldAfter(w, evs[0]), evs[1..]))
  }

  /** With removal as written, a run keeps the chains throughout if and only if every sweep finds the list in order. */
  lemma {:induction false} RunAsWrittenIff(s: State, w: World, evs: seq<Event>)
    requires Pre(s, w) && Owns(s) && RunSound(s, w, evs, false) && RunApart(s, w, evs)
    ensures AlwaysChained(s, w, evs) <==> RunInOrder(s, w, evs)
    ensures RunInOrder(s, w, evs) ==>
              var r := Exec(s, evs, false); r.Some? && Pre(r.value, WorldAfterAll(w, evs)) && Owns(r.value)
    decreases |evs|
  {
    hide Pre, Owns, Chained, EventSound, EventApart, React, WorldAfter, EventInOrder;
    PreIsChained(s, w);
    if evs != [] {
      EventAsWritten(s, w, evs[0]);
      var s', w' := React(s, evs[0], false).value, WorldAfter(w, evs[0]);
      if EventInOrder(s, w, evs[0]) {
        RunAsWrittenIff(s', w', evs[1..]);
      } else {
        NotAlways(s', w', evs[1..]);
      }
    }
  }

  lemma NotAlways(s: State, w: World, evs: seq<Event>)
    requires !Chained(s, w)
    ensures !AlwaysChained(s, w, evs)
  {
  }

  /** ... and in such a run the invariant holds at the end, even if nothing is assumed of replacement functions. */
  lemma {:induction false} RunInOrderKeepsPre(s: State, w: World, evs: seq<Event>)
    requires Pre(s, w) && Owns(s) && RunSound(s, w, evs, false) && RunInOrder(s, w, evs)
    ensures var r := Exec(s, evs, false); r.Some? && Pre(r.value, WorldAfterAll(w, evs)) && Owns(r.value)
    decreases |evs|
  {
    hide Pre, Owns, EventSound, React, WorldAfter, EventInOrder;
    if evs != [] {
      EventInOrderKeepsPre(s, w, evs[0]);
      RunInOrderKeepsPre(React(s, evs[0], false).value, WorldAfter(w, evs[0]), evs[1..]);
    }
  }

  lemma EventInOrderKeepsPre(s: State, w: World, ev: Event)
    requires Pre(s, w) && Owns(s) && EventSound(s, w, ev) && EventInOrder(s, w, ev)
    ensures var r := React(s, ev, false); r.Some? && Owns(r.value) && Pre(r.value, WorldAfter(w, ev))
  {
    hide Pre, Inv, Whole, Ordered, EventSound, Owns, React, Swept, SameConfig, Sweep, Waiting;
    PreIsWhole(s, w);
    EventIsSafe(s, w, ev, false);
    if Swept(s, ev).Some? {
      var t := Swept(s, ev).value;
      SweptIsPre(s, w, ev);
      SweepEstablishesInv(t, WorldAfter(w, ev));
      InvIsPre(Sweep(t).value, WorldAfter(w, ev));
    } else {
      OtherEventAsWritten(s, w, ev);
    }
  }

  /** A patch is added, and applied, at an address where another is waiting. */
  ghost predicate AddsOntoWaiting(s: State, w: World, ev: Event) {
    ev.AddPatch? && Add(s, ev.request, ev.choice1, ev.choice2).Added? &&
    var q := ev.request;
    var site := SiteOf(s.env, w.pristine, NewEntry(q, if NeedsTrampoline(q.process, q.repl) then ev.choice1 else 0, ev.choice2));
    site.Resolved? && !NoneWaitsBelow(s, w, |s.entries|, site.phys)
  }

  /** A list that is in order goes out of order exactly by an add onto a waiting patch. */
  lemma DisorderComesFromAdding(s: State, w: World, ev: Event)
    requires Pre(s, w) && Owns(s) && EventSound(s, w, ev) && Ordered(s, w)
    ensures EventInOrder(s, w, ev)
    ensures var r := React(s, ev, false);
            r.Some? && (Ordered(r.value, WorldAfter(w, ev)) <==> !AddsOntoWaiting(s, w, ev))
  {
    hide Pre, Ordered, RequestSound, UnloadSound, StartSound, LoadSound, Owns, Add, Remove, Unloaded, Checked, SameConfig, SameSite, Sweep, Waiting, SiteOf, NewEntry, NoneWaitsBelow, NeedsTrampoline;
    EventInOrderFromOrdered(s, w, ev);
    match ev {
      case AddPatch(q, choice1, choice2) =>
        AddKeepsPre(s, w, q, choice1, choice2);
        HeapIsIrrelevant(s, w, s.heap);
        if Add(s, q, choice1, choice2).Added? {
          AddIsOrderedIff(s, w, q, choice1, choice2);
        }
      case RemovePatch(handle) =>
        if Find(s.entries, handle) < |s.entries| {
          RemovalAsWrittenKeepsPre(s, w, Find(s.entries, handle));
        }
      case ModuleUnloaded(ch, library) =>
        UnloadKeepsPre(s, w, ch, library);
      case ModuleLoaded(ch) =>
        SweptIsInv(s, w, ev);
      case ApplicationStarts(ch, upid) =>
        SweptIsInv(s, w, ev);
    }
  }

  ghost predicate NeverAddsOntoWaiting(s: State, w: World, evs: seq<Event>)
    decreases |evs|
  {
    evs != [] ==>
      && !AddsOntoWaiting(s, w, evs[0])
      && (React(s, evs[0], false).Some? ==> NeverAddsOntoWaiting(React(s, evs[0], false).value, WorldAfter(w, evs[0]), evs[1..]))
  }

  /** So it is enough that callers never add a patch where another is waiting. */
  lemma {:induction false} NeverAddingOntoWaitingSuffices(s: State, w: World, evs: seq<Event>)
    requires Pre(s, w) && Owns(s) && Ordered(s, w) && RunSound(s, w, evs, false) && NeverAddsOntoWaiting(s, w, evs)
    ensures RunInOrder(s, w, evs)
    decreases |evs|
  {
    hide Pre, Owns, Ordered, EventSound, React, WorldAfter, EventInOrder, AddsOntoWaiting;
    if evs != [] {
      DisorderComesFromAdding(s, w, evs[0]);
      EventInOrderKeepsPre(s, w, evs[0]);
      NeverAddingOntoWaitingSuffices(React(s, evs[0], false).value, WorldAfter(w, evs[0]), evs[1..]);
    }
  }

  lemma EventInOrderFromOrdered(s: State, w: World, ev: Event)
    requires Pre(s, w) && EventSound(s, w, ev) && Ordered(s, w)
    ensures EventInOrder(s, w, ev)
  {
    hide Pre, Ordered, EventSound, React, Swept, SameConfig, Sweep;
    if Swept(s, ev).Some? {
      SweptIsPre(s, w, ev);
    }
  }

  lemma SweptIsInv(s: State, w: World, ev: Event)
    requires Pre(s, w) && EventSound(s, w, ev) && Ordered(s, w) && Swept(s, ev).Some?
    ensures React(s, ev, false).Some? && Ordered(React(s, ev, false).value, WorldAfter(w, ev))
  {
    hide Pre, Inv, Ordered, EventSound, React, Swept, SameConfig, Sweep, Waiting;
    SweptIsPre(s, w, ev);
    SweepEstablishesInv(Swept(s, ev).value, WorldAfter(w, ev));
    InvIsOrdered(React(s, ev, false).value, WorldAfter(w, ev));
  }

  /** The module's state after its initialisation: nothing patched, an empty jump heap. */
  function Initial(mem: Memory, env: Env): State {
    State(mem, env, [], {})
  }

  lemma InitialIsInv(mem: Memory, env: Env, data: iset<Addr>)
    requires Injective(env.xl) && env.readable && 0 !in data
    ensures Inv(Initial(mem, env), World(mem, data)) && Pre(Initial(mem, env), World(mem, data)) && Owns(Initial(mem, env))
  {
    hide Injective;
  }

  lemma {:induction false} RunIsSafe(s: State, w: World, evs: seq<Event>, guardFirst: bool)
    requires Whole(s, w) && Owns(s) && RunSound(s, w, evs, guardFirst)
    ensures var r := Exec(s, evs, guardFirst); r.Some? && Whole(r.value, WorldAfterAll(w, evs)) && Owns(r.value)
    decreases |evs|
  {
    hide Whole, Owns, EventSound, React, WorldAfter;
    if evs != [] {
      EventIsSafe(s, w, evs[0], guardFirst);
      RunIsSafe(React(s, evs[0], guardFirst).value, WorldAfter(w, evs[0]), evs[1..], guardFirst);
    }
  }

  /** A run from the initialisation, in either form of the code, in which all assumptions hold. */
  ghost predicate AnyRun(mem: Memory, env: Env, data: iset<Addr>, evs: seq<Event>, guardFirst: bool) {
    && Injective(env.xl) && env.readable && 0 !in data
    && RunSound(Initial(mem, env), World(mem, data), evs, guardFirst)
  }

  /**
   No run reaches OSFatal, in either form of the code and whatever order its sweeps find. In every
   state that a run reaches, the live blocks of the jump heap are exactly the buffers of the listed
   patches; patched entries are where they resolve to, their buffers hold what the generators emit
   for them; and code that is patched holds a word that can be put back and is not followed.
   */
  lemma EveryRunIsSafe(mem: Memory, env: Env, data: iset<Addr>, evs: seq<Event>, guardFirst: bool)
    requires AnyRun(mem, env, data, evs, guardFirst)
    ensures var r := Exec(Initial(mem, env), evs, guardFirst);
            r.Some? && Whole(r.value, WorldAfterAll(World(mem, data), evs)) && Owns(r.value)
  {
    hide Pre, Inv, Whole, Owns, RunSound, Exec, Injective;
    InitialIsInv(mem, env, data);
    PreIsWhole(Initial(mem, env), World(mem, data));
    RunIsSafe(Initial(mem, env), World(mem, data), evs, guardFirst);
  }

  /** So in every state that a run reaches, each listed target resolves as it would in the original memory. */
  lemma EveryRunResolves(mem: Memory, env: Env, data: iset<Addr>, evs: seq<Event>, guardFirst: bool)
    requires AnyRun(mem, env, data, evs, guardFirst)
    ensures var r, w := Exec(Initial(mem, env), evs, guardFirst), WorldAfterAll(World(mem, data), evs);
            r.Some? && forall k :: 0 <= k < |r.value.entries| ==>
              SiteOf(r.value.env, r.value.mem, r.value.entries[k]) == SiteOf(r.value.env, w.pristine, r.value.entries[k])
  {
    hide *;
    EveryRunIsSafe(mem, env, data, evs, guardFirst);
    var s, w := Exec(Initial(mem, env), evs, guardFirst).value, WorldAfterAll(World(mem, data), evs);
    WholeIsSteady(s, w);
    forall k: nat | k < |s.entries|
      ensures SiteOf(s.env, s.mem, s.entries[k]) == SiteOf(s.env, w.pristine, s.entries[k])
    {
      ResolutionIsStable(s, w, k);
    }
  }

  /**
   In every state that a run from the initialisation can reach, the patched entries of every code
   address form, in list order, a chain from the original word to the word in memory; whatever
   resolves is patched; and the live blocks of the jump heap are exactly the buffers of the listed
   patches. OSFatal is never reached.
   */
  lemma EveryRunKeepsTheChain(mem: Memory, env: Env, data: iset<Addr>, evs: seq<Event>)
    requires Injective(env.xl) && env.readable && 0 !in data
    requires RunSound(Initial(mem, env), World(mem, data), evs, true)
    ensures var r := Exec(Initial(mem, env), evs, true);
            r.Some? && Inv(r.value, WorldAfterAll(World(mem, data), evs)) && Owns(r.value)
  {
    hide Inv, Owns, RunSound, Exec, Injective;
    InitialIsInv(mem, env, data);
    RunKeepsInv(Initial(mem, env), World(mem, data), evs);
  }

  /**
   With removal as written: the chains are in list order in every state of the run if and only if
   no sweep finds a patched entry above a waiting one of its address. The rest of the invariant then
   holds as well; but entries may be waiting for the next sweep. In order or not, no run reaches
   OSFatal, and the live blocks are those of the listed patches.
   */
  lemma EveryRunAsWritten(mem: Memory, env: Env, data: iset<Addr>, evs: seq<Event>)
    requires Injective(env.xl) && env.readable && 0 !in data
    requires RunSound(Initial(mem, env), World(mem, data), evs, false)
    requires RunApart(Initial(mem, env), World(mem, data), evs)
    ensures AlwaysChained(Initial(mem, env), World(mem, data), evs) <==> RunInOrder(Initial(mem, env), World(mem, data), evs)
    ensures var r := Exec(Initial(mem, env), evs, false);
            && r.Some? && Owns(r.value)
            && (RunInOrder(Initial(mem, env), World(mem, data), evs) ==> Pre(r.value, WorldAfterAll(World(mem, data), evs)))
  {
    hide Inv, Owns, Pre, Whole, RunSound, RunApart, Exec, Injective, AlwaysChained, RunInOrder;
    EveryRunIsSafe(mem, env, data, evs, false);
    InitialIsInv(mem, env, data);
    RunAsWrittenIff(Initial(mem, env), World(mem, data), evs);
  }

  /** A run of either kind; one with removal as written has found its list in order at every sweep. */
  ghost predicate RunOf(mem: Memory, env: Env, data: iset<Addr>, evs: seq<Event>, guardFirst: bool) {
    && AnyRun(mem, env, data, evs, guardFirst)
    && (!guardFirst ==> RunInOrder(Initial(mem, env), World(mem, data), evs))
  }

  lemma EveryRunKeepsPre(mem: Memory, env: Env, data: iset<Addr>, evs: seq<Event>, guardFirst: bool)
    requires RunOf(mem, env, data, evs, guardFirst)
    ensures var r := Exec(Initial(mem, env), evs, guardFirst);
            r.Some? && Pre(r.value, WorldAfterAll(World(mem, data), evs)) && Owns(r.value)
  {
    hide Pre, Owns, RunSound, Exec, Injective, RunInOrder;
    InitialIsInv(mem, env, data);
    if guardFirst {
      EveryRunKeepsTheChain(mem, env, data, evs);
      InvIsPre(Exec(Initial(mem, env), evs, true).value, WorldAfterAll(World(mem, data), evs));
    } else {
      RunInOrderKeepsPre(Initial(mem, env), World(mem, data), evs);
    }
  }

  /** After every such run, a call of any function is dispatched by the patches on it in list order. */
  lemma EveryRunDispatches(mem: Memory, env: Env, data: iset<Addr>, evs: seq<Event>, guardFirst: bool, sem: Semantics, a: Addr, c: Cpu)
    returns (n: nat)
    requires RunOf(mem, env, data, evs, guardFirst) && Exec(Initial(mem, env), evs, guardFirst).Some?
    requires var s, w := Exec(Initial(mem, env), evs, guardFirst).value, WorldAfterAll(World(mem, data), evs);
             && s.env.xl(a) !in w.data && c.pc == a && Aligned(Next(a))
             && Displaceable(sem, w.pristine(s.env.xl(a)))
    ensures var s, w := Exec(Initial(mem, env), evs, guardFirst).value, WorldAfterAll(World(mem, data), evs);
            Dispatches(s, w, sem, a, c, On(s.entries, s.env.xl(a)), n)
  {
    hide *;
    EveryRunKeepsPre(mem, env, data, evs, guardFirst);
    n := CallOfAnyFunction(Exec(Initial(mem, env), evs, guardFirst).value, WorldAfterAll(World(mem, data), evs), sem, a, c);
  }

  /**
   ... and when one more sweep, in or out of order, has followed, by the patches that were on it
   before and, on top of them, those that the sweep has applied.
   */
  lemma EverySweepDispatches(mem: Memory, env: Env, data: iset<Addr>, evs: seq<Event>, guardFirst: bool, ev: Event, sem: Semantics, a: Addr, c: Cpu)
    returns (n: nat)
    requires RunOf(mem, env, data, evs, guardFirst) && Exec(Initial(mem, env), evs, guardFirst).Some?
    requires var s, w := Exec(Initial(mem, env), evs, guardFirst).value, WorldAfterAll(World(mem, data), evs);
             && EventSound(s, w, ev) && Swept(s, ev).Some?
             && var t, w' := Swept(s, ev).value, WorldAfter(w, ev);
                && t.env.xl(a) !in w'.data && c.pc == a && Aligned(Next(a))
                && Displaceable(sem, w'.pristine(t.env.xl(a)))
    ensures var s, w := Exec(Initial(mem, env), evs, guardFirst).value, WorldAfterAll(World(mem, data), evs);
            var t, w' := Swept(s, ev).value, WorldAfter(w, ev);
            && Sweep(t).Some? && React(s, ev, guardFirst) == Sweep(t) && |Sweep(t).value.entries| == |t.entries|
            && var p := t.env.xl(a);
               Dispatches(Sweep(t).value, w', sem, a, c, On(t.entries, p) + Applied(t, Sweep(t).value, Upto(|t.entries|), p), n)
  {
    hide *;
    var s, w := Exec(Initial(mem, env), evs, guardFirst).value, WorldAfterAll(World(mem, data), evs);
    EveryRunKeepsPre(mem, env, data, evs, guardFirst);
    SweptIsPre(s, w, ev);
    SweepHasNoGuard(s, ev, guardFirst);
    n := CallAfterSweep(Swept(s, ev).value, WorldAfter(w, ev), sem, a, c);
  }

  lemma SweepHasNoGuard(s: State, ev: Event, guardFirst: bool)
    requires Swept(s, ev).Some?
    ensures React(s, ev, guardFirst) == React(s, ev, false)
  {
  }

  /**
   After every run, in either form of the code and whatever order its sweeps find, each listed patch,
   waiting or not, has live blocks of its own for what the generators will write: `jumpToOriginal`
   always, and a trampoline that can be branched to exactly if it needs one. So no generator stops
   the console.
   */
  lemma EveryRunHasBuffers(mem: Memory, env: Env, data: iset<Addr>, evs: seq<Event>, guardFirst: bool)
    requires AnyRun(mem, env, data, evs, guardFirst)
    ensures var r := Exec(Initial(mem, env), evs, guardFirst);
            r.Some? && forall i :: 0 <= i < |r.value.entries| ==>
              var e := r.value.entries[i];
              && BuffersUsable(e) && (NeedsTrampoline(e.process, e.repl) <==> e.jumpData != 0)
              && Block(e.jumpToOriginal, 5) in r.value.heap && (e.jumpData != 0 ==> Block(e.jumpData, 15) in r.value.heap)
              && (forall j :: 0 <= j < |r.value.entries| && j != i ==> BlocksOf(e) !! BlocksOf(r.value.entries[j]))
  {
    hide *;
    EveryRunIsSafe(mem, env, data, evs, guardFirst);
    var s, w := Exec(Initial(mem, env), evs, guardFirst).value, WorldAfterAll(World(mem, data), evs);
    WholeIsSteady(s, w);
    forall i: nat | i < |s.entries|
      ensures BuffersUsable(s.entries[i]) && (NeedsTrampoline(s.entries[i].process, s.entries[i].repl) <==> s.entries[i].jumpData != 0)
      ensures Block(s.entries[i].jumpToOriginal, 5) in s.heap && (s.entries[i].jumpData != 0 ==> Block(s.entries[i].jumpData, 15) in s.heap)
      ensures forall j :: 0 <= j < |s.entries| && j != i ==> BlocksOf(s.entries[i]) !! BlocksOf(s.entries[j])
    {
      EntryHasBuffers(s, w, i);
    }
  }

  lemma EntryHasBuffers(s: State, w: World, i: nat)
    requires LaidOut(s, w) && Owns(s) && i < |s.entries|
    ensures BuffersUsable(s.entries[i]) && (NeedsTrampoline(s.entries[i].process, s.entries[i].repl) <==> s.entries[i].jumpData != 0)
    ensures Block(s.entries[i].jumpToOriginal, 5) in s.heap && (s.entries[i].jumpData != 0 ==> Block(s.entries[i].jumpData, 15) in s.heap)
    ensures forall j :: 0 <= j < |s.entries| && j != i ==> BlocksOf(s.entries[i]) !! BlocksOf(s.entries[j])
  {
    hide OwnCells, EntryLaidOut, NeedsTrampoline, BlocksOf, Short, Owns;
    TrampolineAllocated(s, w, i);
    ListedBlocks(s, i);
    NamedBlocks(s.entries[i]);
    forall j: nat | j < |s.entries| && j != i
      ensures BlocksOf(s.entries[i]) !! BlocksOf(s.entries[j])
    {
      ApartBlocks(s.entries[i], s.entries[j]);
    }
  }

  lemma NamedBlocks(e: Entry)
    ensures e.jumpToOriginal != 0 ==> Block(e.jumpToOriginal, 5) in BlocksOf(e)
    ensures e.jumpData != 0 ==> Block(e.jumpData, 15) in BlocksOf(e)
  {
  }

  lemma InvIsPre(s: State, w: World)
    requires Inv(s, w)
    ensures Pre(s, w)
  {
  }
}
