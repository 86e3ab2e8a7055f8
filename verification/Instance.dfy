/**
 Two runs that satisfy all assumptions of module `Runs`. In the first, removal as written leaves a
 patch waiting, another is added above it, and the next load sweeps a list that is out of order. In
 the second, two patches follow a library through loads, an unload and an application start.
 */
module Instance {
  import opened Words
  import opened Machine
  import opened CodeGen
  import opened Loading
  import opened Dispatch
  import opened PatchStack
  import opened Writing
  import opened Chain
  import opened Keeping
  import opened Removal
  import opened Rebuilding
  import opened Ownership
  import opened PatchOrder
  import opened Runs
  import opened Divergence

  const GIVEN: Target := GivenAddress(ADDRESS, ADDRESS)
  const LIBRARY: Library := Rpl("library")
  const EXPORTED: Target := LibraryFunction(LIBRARY, "function")
  const EXPORT_ADDRESS: Addr := 0x03000010
  const NOP: Word := 0x60000000

  function First(target: Target): Request { Request(1, target, AllProcesses, 0x00800000, 0x00A00000) }
  function Second(target: Target): Request { Request(2, target, OneProcess(5), 0x00800100, 0x00A00004) }

  predicate InData(p: Addr) {
    0x00900000 <= p < 0x00B00000
  }

  /** Buffers and pointer cells lie at 0x00900000 and above. */
  ghost function Data(): iset<Addr> {
    iset p: Addr | InData(p)
  }

  function NoOps(): Memory {
    (p: Addr) => NOP
  }

  /** The surroundings with or without the library. */
  function Where(loaded: bool): Env {
    Env(if loaded then Loader(map[LIBRARY := 1], map[(1, "function") := EXPORT_ADDRESS]) else Loader(map[], map[]),
        {LIBRARY}, map[], {}, (p: Addr) => p, true, Platform(0, 0))
  }

  function Start(): State {
    Initial(NoOps(), Where(false))
  }

  // ----- where the buffers are -----

  /** Each block lies in a stretch of 256 bytes of its own. */
  function Page(c: Addr): Addr {
    c & 0xFFFFFF00
  }

  predicate InPage(b: Addr, n: nat, page: Addr)
    decreases n
  {
    n == 0 || (Page(b) == page && InPage(Next(b), n - 1, page))
  }

  lemma {:induction false} CellsInPage(b: Addr, n: nat, page: Addr)
    requires InPage(b, n, page)
    ensures forall c :: c in Cells(b, n) ==> Page(c) == page
    decreases n
  {
    hide Next, Page;
    if n > 0 {
      CellsInPage(Next(b), n - 1, page);
    }
  }

  lemma Pages()
    ensures InPage(0x00900000, 5, 0x00900000)
    ensures InPage(0x00900200, 15, 0x00900200)
    ensures InPage(0x00900300, 5, 0x00900300)
    ensures InPage(0x00900400, 5, 0x00900400)
  {
    assert InPage(0x00900228, 5, 0x00900200);
    assert InPage(0x00900214, 10, 0x00900200);
  }

  lemma CellsLie()
    ensures forall c :: c in Cells(0x00900000, 5) ==> Page(c) == 0x00900000
    ensures forall c :: c in Cells(0x00900200, 15) ==> Page(c) == 0x00900200
    ensures forall c :: c in Cells(0x00900300, 5) ==> Page(c) == 0x00900300
    ensures forall c :: c in Cells(0x00900400, 5) ==> Page(c) == 0x00900400
  {
    hide *;
    Pages();
    CellsInPage(0x00900000, 5, 0x00900000);
    CellsInPage(0x00900200, 15, 0x00900200);
    CellsInPage(0x00900300, 5, 0x00900300);
    CellsInPage(0x00900400, 5, 0x00900400);
  }

  predicate IsBufferAddress(c: Addr) {
    0x00900000 <= c < 0x00A00000
  }

  lemma PagesAreBelow(c: Addr)
    requires Page(c) == 0x00900000 || Page(c) == 0x00900200 || Page(c) == 0x00900300 || Page(c) == 0x00900400
    ensures IsBufferAddress(c)
  {
  }

  function E1(target: Target): Entry { NewEntry(First(target), 0, 0x00900000) }
  function E2(target: Target): Entry { NewEntry(Second(target), 0x00900200, 0x00900300) }
  function E3(): Entry { NewEntry(THIRD, 0, 0x00900400) }

  function Tramp(q: Request, choice: Addr): Addr {
    if NeedsTrampoline(q.process, q.repl) then choice else 0
  }

  /** The buffers of an entry lie below 0x00A00000, its pointer cell above, its replacement elsewhere. */
  ghost predicate Tidy(e: Entry) {
    && (forall c :: c in OwnCells(e) ==> IsBufferAddress(c))
    && 0x00A00000 <= e.realCall < 0x00B00000 && 0x00800000 <= e.repl < 0x00900000
  }

  lemma AllTidy(target: Target)
    ensures Tidy(E1(target)) && Tidy(E2(target)) && Tidy(E3())
  {
    hide Cells, Page, IsBufferAddress;
    CellsLie();
    forall c | c in Cells(0x00900000, 5) || c in Cells(0x00900200, 15) || c in Cells(0x00900300, 5) || c in Cells(0x00900400, 5)
      ensures IsBufferAddress(c)
    {
      PagesAreBelow(c);
    }
  }

  lemma SameConfigTidy(e: Entry, f: Entry)
    requires Tidy(e) && SameConfig(e, f)
    ensures Tidy(f)
  {
    hide Cells;
    assert OwnCells(e) == OwnCells(f);
  }

  ghost function W(): World {
    World(NoOps(), Data())
  }

  lemma RequestIsSound(s: State, q: Request, choice1: Addr, choice2: Addr)
    requires forall i :: 0 <= i < |s.entries| ==> Tidy(s.entries[i])
    requires s.env == Where(false) && SiteSound(s.env, W(), NewEntry(q, Tramp(q, choice1), choice2)) && Aligned(q.repl)
    requires Tidy(NewEntry(q, Tramp(q, choice1), choice2)) && (NeedsTrampoline(q.process, q.repl) ==> Short(choice1))
    ensures RequestSound(s, W(), q, choice1, choice2)
  {
    hide OwnCells, NeedsTrampoline, Short, Aligned, SiteSound;
  }

  lemma GivenSite(env: Env, pristine: Memory, e: Entry)
    requires e.target == GIVEN
    ensures SiteOf(env, pristine, e) == Resolved(e.eff, e.phys)
  {
  }

  lemma GivenIsSound(env: Env, w: World, e: Entry)
    requires e.target == GIVEN && e.eff == ADDRESS && e.phys == ADDRESS && env.xl(ADDRESS) == ADDRESS
    requires w.pristine(ADDRESS) == NOP && w.data == Data()
    ensures SiteSound(env, w, e)
  {
    assert !IsRelativeBranch(NOP);
    GivenSite(env, w.pristine, e);
  }

  /** Where the exported function resolves to. */
  lemma ExportedSite(w: World, e: Entry, loaded: bool)
    requires e.target == EXPORTED && w.pristine(EXPORT_ADDRESS) == NOP && w.data == Data()
    ensures SiteOf(Where(loaded), w.pristine, e) == if loaded then Resolved(EXPORT_ADDRESS, EXPORT_ADDRESS) else NotResolved
    ensures SiteSound(Where(loaded), w, e)
  {
    assert !IsRelativeBranch(NOP);
  }

  // ----- stages -----

  /** The patches of a state are those of `es`. */
  ghost predicate Holding(s: State, es: seq<Entry>) {
    Pre(s, W()) && Owns(s) && s.env == Where(false) && SamePatches(Where(false), NoOps(), es, s.entries)
  }

  lemma HoldingTidy(s: State, es: seq<Entry>)
    requires Holding(s, es) && forall i :: 0 <= i < |es| ==> Tidy(es[i])
    ensures forall i :: 0 <= i < |s.entries| ==> Tidy(s.entries[i])
    ensures s.heap == AllBlocks(es)
  {
    hide Tidy, Pre, SameSite, SameConfig, AllBlocks;
    SameConfigSameBlocks(es, s.entries);
    forall i | 0 <= i < |s.entries|
      ensures Tidy(s.entries[i])
    {
      SameConfigTidy(es[i], s.entries[i]);
    }
  }

  lemma BlocksApart(a: Block, p: Addr, b: Block, q: Addr)
    requires forall c :: c in Cells(a.base, a.words) ==> Page(c) == p
    requires forall c :: c in Cells(b.base, b.words) ==> Page(c) == q
    requires p != q
    ensures DisjointBlocks(a, b)
  {
    hide Cells, Page;
    var cs, ds := Cells(a.base, a.words), Cells(b.base, b.words);
    assert forall c :: c in cs ==> c !in ds;
  }

  /** The heap has room for each of the three, next to the ones that are there. */
  lemma AllGranted(s: State, t: Target)
    ensures s.heap == AllBlocks([]) ==> Granted(s, First(t), 0, 0x00900000)
    ensures s.heap == AllBlocks([E1(t)]) ==> Granted(s, Second(t), 0x00900200, 0x00900300)
    ensures s.heap == AllBlocks([E2(t)]) ==> Granted(s, THIRD, 0, 0x00900400)
  {
    hide Cells, DisjointBlocks, Page;
    CellsLie();
    var b1, b2, t2, b3 := Block(0x00900000, 5), Block(0x00900300, 5), Block(0x00900200, 15), Block(0x00900400, 5);
    BlocksApart(b1, 0x00900000, b2, 0x00900300);
    BlocksApart(b1, 0x00900000, t2, 0x00900200);
    BlocksApart(t2, 0x00900200, b2, 0x00900300);
    BlocksApart(b2, 0x00900300, b3, 0x00900400);
    BlocksApart(t2, 0x00900200, b3, 0x00900400);
    BlocksOfOne(E1(t));
    BlocksOfOne(E2(t));
  }

  lemma BlocksOfOne(e: Entry)
    ensures AllBlocks([e]) == BlocksOf(e) && AllBlocks([]) == {}
  {
    hide BlocksOf;
    assert [e][..0] == [];
    assert AllBlocks([e]) == AllBlocks([e][..0]) + BlocksOf(e);
  }

  lemma AddStage(s: State, es: seq<Entry>, q: Request, choice1: Addr, choice2: Addr, guardFirst: bool) returns (s': State)
    requires Holding(s, es) && (forall i :: 0 <= i < |es| ==> Tidy(es[i]))
    requires SiteSound(s.env, W(), NewEntry(q, Tramp(q, choice1), choice2)) && Aligned(q.repl)
    requires Tidy(NewEntry(q, Tramp(q, choice1), choice2)) && (NeedsTrampoline(q.process, q.repl) ==> Short(choice1))
    requires Granted(s, q, choice1, choice2)
    ensures EventSound(s, W(), AddPatch(q, choice1, choice2))
    ensures React(s, AddPatch(q, choice1, choice2), guardFirst) == Some(s')
    ensures Holding(s', es + [NewEntry(q, Tramp(q, choice1), choice2)]) && (Inv(s, W()) ==> Inv(s', W()))
    ensures |s'.entries| == |es| + 1 == |s.entries| + 1 && s'.entries[..|es|] == s.entries && !Waiting(s', W(), |es|)
  {
    hide Pre, Inv, Waiting, SameSite, SameConfig, AllBlocks, Tidy, Granted, NewEntry, NeedsTrampoline, Short, Aligned, Add, RequestSound, SiteSound, PatchEntry;
    HoldingTidy(s, es);
    RequestIsSound(s, q, choice1, choice2);
    AddKeepsPre(s, W(), q, choice1, choice2);
    AddCases(s, q, choice1, choice2);
    if Inv(s, W()) {
      AddKeepsInv(s, W(), q, choice1, choice2);
    }
    s' := Add(s, q, choice1, choice2).state;
  }

  lemma StartsInv()
    ensures Inv(Start(), W()) && Holding(Start(), [])
  {
  }

  lemma FirstTwo(t: Target, guardFirst: bool) returns (s1: State, s2: State)
    requires t == GIVEN || t == EXPORTED
    ensures EventSound(Start(), W(), AddPatch(First(t), 0, 0x00900000))
    ensures EventSound(s1, W(), AddPatch(Second(t), 0x00900200, 0x00900300))
    ensures React(Start(), AddPatch(First(t), 0, 0x00900000), guardFirst) == Some(s1)
    ensures React(s1, AddPatch(Second(t), 0x00900200, 0x00900300), guardFirst) == Some(s2)
    ensures Inv(s2, W()) && Holding(s2, [E1(t), E2(t)])
  {
    hide Inv, Holding, Tidy, EventSound, React, Granted, AllBlocks, SiteSound;
    var s0 := Start();
    AllTidy(t);
    StartsInv();
    AllGranted(s0, t);
    HoldingTidy(s0, []);
    NewOnesAreSound(t);
    assert s0.env == Where(false);
    s1 := AddStage(s0, [], First(t), 0, 0x00900000, guardFirst);
    assert [] + [E1(t)] == [E1(t)];
    AllGranted(s1, t);
    HoldingTidy(s1, [E1(t)]);
    assert s1.env == Where(false) by { HoldingHere(s1, [E1(t)]); }
    s2 := AddStage(s1, [E1(t)], Second(t), 0x00900200, 0x00900300, guardFirst);
    assert [E1(t)] + [E2(t)] == [E1(t), E2(t)];
  }

  lemma HoldingHere(s: State, es: seq<Entry>)
    requires Holding(s, es)
    ensures s.env == Where(false) && |s.entries| == |es|
  {
    hide Pre, Owns, SameSite, SameConfig;
  }

  lemma NewOnesAreSound(t: Target)
    requires t == GIVEN || t == EXPORTED
    ensures SiteSound(Where(false), W(), E1(t)) && SiteSound(Where(false), W(), E2(t)) && SiteSound(Where(false), W(), E3())
  {
    hide SiteSound;
    if t == GIVEN {
      GivenIsSound(Where(false), W(), E1(t));
      GivenIsSound(Where(false), W(), E2(t));
    } else {
      ExportedSite(W(), E1(t), false);
      ExportedSite(W(), E2(t), false);
    }
    GivenIsSound(Where(false), W(), E3());
  }

  // ----- out of order -----

  lemma StillOwned(s: State, k: nat, guardFirst: bool)
    requires Pre(s, W()) && Owns(s) && k < |s.entries|
    ensures Remove(s, k, guardFirst).Some? && Owns(Remove(s, k, guardFirst).value)
  {
    hide *;
    PreIsWhole(s, W());
    RemovalOwns(s, W(), k, guardFirst);
  }

  lemma FirstIsFound(s: State)
    requires Holding(s, [E1(GIVEN), E2(GIVEN)])
    ensures |s.entries| == 2 && Find(s.entries, 1) == 0
    ensures SameConfig(E2(GIVEN), s.entries[1]) && SameSite(Where(false), NoOps(), E2(GIVEN), s.entries[1])
    ensures s.entries[0].phys == ADDRESS && s.entries[1].phys == ADDRESS
  {
    hide Pre, Owns, SameBuffers;
    var es := [E1(GIVEN), E2(GIVEN)];
    assert SameConfig(es[0], s.entries[0]) && SameSite(Where(false), NoOps(), es[0], s.entries[0]);
    assert SameConfig(es[1], s.entries[1]) && SameSite(Where(false), NoOps(), es[1], s.entries[1]);
  }

  /** Removal of the first patch, as intended. */
  lemma IntendedStage(s: State) returns (s': State)
    requires Inv(s, W()) && Holding(s, [E1(GIVEN), E2(GIVEN)])
    ensures React(s, RemovePatch(1), true) == Some(s') && Inv(s', W()) && Holding(s', [E2(GIVEN)])
  {
    hide Pre, Owns, SameSite, SameConfig, Waiting, Remove, BeforeReapply, Erase, E1, E2;
    FirstIsFound(s);
    IntendedRemovalKeepsInv(s, W(), 0);
    StillOwned(s, 0, true);
    s' := Remove(s, 0, true).value;
    EraseSamePatches(Where(false), NoOps(), [E1(GIVEN), E2(GIVEN)], s.entries, 0);
    ErasedFirst(E1(GIVEN), E2(GIVEN));
    SamePatchesTransitive(Where(false), NoOps(), [E2(GIVEN)], Erase(s.entries, 0), s'.entries);
  }

  lemma ErasedFirst(e: Entry, f: Entry)
    ensures Erase([e, f], 0) == [f]
  {
  }

  lemma BothPatched(s: State)
    requires Inv(s, W()) && Holding(s, [E1(GIVEN), E2(GIVEN)])
    ensures s.entries[0].isPatched && s.entries[1].isPatched
  {
    hide Pre, Owns, SameBuffers, Waiting, SiteOf;
    var es := [E1(GIVEN), E2(GIVEN)];
    assert SameConfig(es[0], s.entries[0]) && SameConfig(es[1], s.entries[1]);
    GivenSite(s.env, NoOps(), s.entries[0]);
    GivenSite(s.env, NoOps(), s.entries[1]);
    PatchedIffResolved(s, W(), 0);
    PatchedIffResolved(s, W(), 1);
  }

  /** Removal of the first patch, as written: the second is left waiting. */
  lemma WrittenStage(s: State) returns (s': State)
    requires Inv(s, W()) && Holding(s, [E1(GIVEN), E2(GIVEN)])
    ensures React(s, RemovePatch(1), false) == Some(s') && Holding(s', [E2(GIVEN)])
    ensures !s'.entries[0].isPatched
  {
    hide Pre, Owns, Remove, E1, SiteOf;
    FirstIsFound(s);
    StillOwned(s, 0, false);
    BothPatched(s);
    RemovalAsWritten(s, W(), 0);
    s' := Remove(s, 0, false).value;
    assert s'.entries[0] == Off(s.entries[OldIndex(0, 0)]);
    OffHasSameShape(Where(false), NoOps(), s.entries[1]);
    assert SameConfig(E2(GIVEN), s'.entries[0]);
  }

  function Story(): seq<Event> {
    [AddPatch(First(GIVEN), 0, 0x00900000), AddPatch(Second(GIVEN), 0x00900200, 0x00900300), RemovePatch(1), AddPatch(THIRD, 0, 0x00900400)]
  }

  /** A load that replaces no code. */
  function Nothing(s: State): Change {
    Change(s.env, s.mem, iset{})
  }

  /** The state in which the patch added last lies above the waiting one. */
  ghost predicate Disordered(s: State) {
    && Holding(s, [E2(GIVEN), E3()]) && |s.entries| == 2
    && !s.entries[0].isPatched && s.entries[1].isPatched
  }

  lemma ThirdStage(s: State, guardFirst: bool) returns (s': State)
    requires Holding(s, [E2(GIVEN)])
    ensures EventSound(s, W(), Story()[3]) && React(s, Story()[3], guardFirst) == Some(s')
    ensures !s.entries[0].isPatched ==> Disordered(s')
  {
    hide Pre, Owns, SamePatches, Tidy, Granted, AllBlocks, RequestSound, EventSound, React, SiteSound, E2;
    AllTidy(GIVEN);
    NewOnesAreSound(GIVEN);
    HoldingTidy(s, [E2(GIVEN)]);
    HoldingHere(s, [E2(GIVEN)]);
    AllGranted(s, GIVEN);
    s' := AddStage(s, [E2(GIVEN)], THIRD, 0, 0x00900400, guardFirst);
    assert [E2(GIVEN)] + [E3()] == [E2(GIVEN), E3()];
    assert s'.entries[..1][0] == s'.entries[0];
    ThirdIsPatched(s');
  }

  lemma ThirdIsPatched(s: State)
    requires Holding(s, [E2(GIVEN), E3()]) && !Waiting(s, W(), 1)
    ensures |s.entries| == 2 && s.entries[1].isPatched
  {
    hide Pre, Owns, SiteOf, SameBuffers;
    assert SameConfig([E2(GIVEN), E3()][1], s.entries[1]);
    GivenSite(s.env, NoOps(), s.entries[1]);
  }

  /** Both entries of that state go to the address, in any world. */
  lemma DisorderedEntries(s: State, i: nat)
    requires Disordered(s) && i < 2
    ensures var e := s.entries[i];
            && e.target == GIVEN && e.eff == ADDRESS && e.phys == ADDRESS && Tidy(e)
            && (i == 0 ==> e.process == OneProcess(5) && e.jumpData == 0x00900200)
            && (i == 1 ==> e.process == AllProcesses && e.repl == 0x00800200 && e.jumpData == 0)
  {
    hide Pre, Owns, Tidy;
    AllTidy(GIVEN);
    var es := [E2(GIVEN), E3()];
    assert SameConfig(es[0], s.entries[0]) && SameSite(Where(false), NoOps(), es[0], s.entries[0]);
    assert SameConfig(es[1], s.entries[1]) && SameSite(Where(false), NoOps(), es[1], s.entries[1]);
    SameConfigTidy(es[i], s.entries[i]);
  }

  /** The next load is sound, its patches are apart, and its sweep finds the list out of order. */
  lemma LoadStage(s: State)
    requires Disordered(s)
    ensures var ev := ModuleLoaded(Nothing(s));
            EventSound(s, W(), ev) && EventApart(s, W(), ev) && !EventInOrder(s, W(), ev)
  {
    hide Disordered, LoadSound, SitesApart, Ordered;
    NothingIsSound(s);
    DisorderedIsApart(s);
    DisorderedIsNotOrdered(s);
  }

  lemma NothingIsSound(s: State)
    requires Disordered(s)
    ensures LoadSound(s, W(), Nothing(s))
  {
    hide Tidy, Pre, Owns, SamePatches, Injective, SiteSound, SiteOf;
    var ch, w' := Nothing(s), NewWorld(W(), Nothing(s));
    forall i: nat | i < 2
      ensures SiteSound(ch.env, w', s.entries[i]) && SitesKept(s, W(), ch, s.entries[i])
    {
      DisorderedEntries(s, i);
      GivenIsSound(ch.env, w', s.entries[i]);
      GivenSite(s.env, W().pristine, s.entries[i]);
      GivenSite(ch.env, w'.pristine, s.entries[i]);
    }
    PreIsAssumed(s, W());
  }

  lemma PreIsAssumed(s: State, w: World)
    requires Pre(s, w)
    ensures Injective(s.env.xl) && s.env.readable && 0 !in w.data
  {
    hide LaidOut, Chained, Located, WordsRight, BuffersFilled, SiteSound, Injective;
  }

  lemma DisorderedIsApart(s: State)
    requires Disordered(s)
    ensures SitesApart(Changed(s, Nothing(s)), NewWorld(W(), Nothing(s)))
  {
    hide Disordered, SiteOf, OwnCells, IsBufferAddress;
    var w' := NewWorld(W(), Nothing(s));
    DisorderedIsTwo(s);
    DisorderedEntries(s, 0);
    DisorderedEntries(s, 1);
    GivenSite(s.env, w'.pristine, s.entries[0]);
    GivenSite(s.env, w'.pristine, s.entries[1]);
    assert !IsBufferAddress(s.entries[0].repl) && !IsBufferAddress(s.entries[1].repl) by { NotBuffers(s.entries[0].repl); NotBuffers(s.entries[1].repl); }
    assert w'.pristine(ADDRESS) == NOP;
  }

  lemma NotBuffers(a: Addr)
    requires 0x00800000 <= a < 0x00900000
    ensures !IsBufferAddress(a)
  {
  }

  lemma DisorderedIsTwo(s: State)
    requires Disordered(s)
    ensures |s.entries| == 2 && !s.entries[0].isPatched && s.entries[1].isPatched
  {
    hide Holding;
  }

  lemma DisorderedIsNotOrdered(s: State)
    requires Disordered(s)
    ensures !Ordered(Changed(s, Nothing(s)), NewWorld(W(), Nothing(s)))
  {
    hide Disordered, SiteOf, Tidy;
    var t, w' := Changed(s, Nothing(s)), NewWorld(W(), Nothing(s));
    DisorderedIsTwo(s);
    DisorderedEntries(s, 0);
    DisorderedEntries(s, 1);
    GivenSite(s.env, w'.pristine, s.entries[0]);
    assert GoesTo(t.env, w'.pristine, t.entries[0], t.entries[1].phys);
  }

  lemma Step(s: State, w: World, ev: Event, s': State, rest: seq<Event>, guardFirst: bool)
    requires EventSound(s, w, ev) && React(s, ev, guardFirst) == Some(s') && RunSound(s', WorldAfter(w, ev), rest, guardFirst)
    ensures RunSound(s, w, [ev] + rest, guardFirst)
  {
    hide EventSound, React, WorldAfter;
    assert ([ev] + rest)[1..] == rest;
  }

  /** An event without a sweep neither needs nor breaks an order. */
  lemma OrderStep(s: State, w: World, ev: Event, s': State, rest: seq<Event>)
    requires Swept(s, ev).None? && React(s, ev, false) == Some(s')
    ensures RunInOrder(s, w, [ev] + rest) <==> RunInOrder(s', WorldAfter(w, ev), rest)
    ensures RunApart(s, w, [ev] + rest) <==> RunApart(s', WorldAfter(w, ev), rest)
  {
    hide React, WorldAfter;
    assert ([ev] + rest)[1..] == rest;
  }

  /** As intended. */
  lemma StoryIsSound()
    ensures RunSound(Start(), W(), Story(), true)
  {
    hide Inv, Holding, EventSound, React, RunSound, E1, E2, First, Second, THIRD, Disordered, Start;
    var evs := Story();
    var s1, s2 := FirstTwo(GIVEN, true);
    var s3 := IntendedStage(s2);
    var s4 := ThirdStage(s3, true);
    assert EventSound(s2, W(), evs[2]) by { RemovalIsSound(s2); }
    assert RunSound(s4, W(), [], true) by { NoEvents(s4, W(), true); }
    Step(s3, W(), evs[3], s4, [], true);
    Step(s2, W(), evs[2], s3, [evs[3]] + [], true);
    Step(s1, W(), evs[1], s2, [evs[2]] + ([evs[3]] + []), true);
    Step(Start(), W(), evs[0], s1, [evs[1]] + ([evs[2]] + ([evs[3]] + [])), true);
    assert [evs[0]] + ([evs[1]] + ([evs[2]] + ([evs[3]] + []))) == evs;
  }

  lemma NoEvents(s: State, w: World, guardFirst: bool)
    ensures RunSound(s, w, [], guardFirst) && RunInOrder(s, w, []) && RunApart(s, w, [])
  {
  }

  lemma RemovalIsSound(s: State)
    ensures EventSound(s, W(), RemovePatch(1))
  {
  }

  /**
   As written, the first patch of two is removed, and a third is added while the second is waiting:
   the chains are still in list order. A load follows: its sweep breaks them.
   */
  lemma StoryAsWritten() returns (evs: seq<Event>)
    ensures |evs| == 5 && evs[..4] == Story() && evs[4].ModuleLoaded?
    ensures RunSound(Start(), W(), evs, false) && RunApart(Start(), W(), evs)
    ensures AlwaysChained(Start(), W(), evs[..4]) && !AlwaysChained(Start(), W(), evs)
  {
    hide Inv, Holding, Pre, Owns, Chained, EventSound, React, RunSound, RunInOrder, RunApart, AlwaysChained, E1, E2, First, Second, THIRD, Disordered, Start;
    var s1, s2 := FirstTwo(GIVEN, false);
    var s3 := WrittenStage(s2);
    var s4 := ThirdStage(s3, false);
    evs := Story() + [ModuleLoaded(Nothing(s4))];
    assert evs[..4] == Story();
    assert EventSound(s2, W(), evs[2]) by { RemovalIsSound(s2); }
    LoadStage(s4);
    EndsWithLoad(s4, evs[4]);
    var tail := [evs[4]];
    FourMore(s1, s2, s3, s4, tail);
    assert Story() + tail == evs;
    NoEvents(s4, W(), false);
    FourMore(s1, s2, s3, s4, []);
    assert Story() + [] == Story();
    StartsInv();
    InvIsOwned();
    RunAsWrittenIff(Start(), W(), evs);
    RunAsWrittenIff(Start(), W(), Story());
  }

  lemma InvIsOwned()
    ensures Pre(Start(), W()) && Owns(Start())
  {
    StartsInv();
  }

  /** The four steps of the story in front of more events. */
  lemma FourMore(s1: State, s2: State, s3: State, s4: State, rest: seq<Event>)
    requires var evs := Story();
             && EventSound(Start(), W(), evs[0]) && React(Start(), evs[0], false) == Some(s1)
             && EventSound(s1, W(), evs[1]) && React(s1, evs[1], false) == Some(s2)
             && EventSound(s2, W(), evs[2]) && React(s2, evs[2], false) == Some(s3)
             && EventSound(s3, W(), evs[3]) && React(s3, evs[3], false) == Some(s4)
    requires RunSound(s4, W(), rest, false) && RunApart(s4, W(), rest)
    ensures RunSound(Start(), W(), Story() + rest, false) && RunApart(Start(), W(), Story() + rest)
    ensures RunInOrder(Start(), W(), Story() + rest) <==> RunInOrder(s4, W(), rest)
  {
    hide EventSound, React, RunSound, RunInOrder, RunApart, Start;
    var evs := Story();
    var r3 := [evs[3]] + rest;
    var r2 := [evs[2]] + r3;
    var r1 := [evs[1]] + r2;
    Step(s3, W(), evs[3], s4, rest, false);
    OrderStep(s3, W(), evs[3], s4, rest);
    Step(s2, W(), evs[2], s3, r3, false);
    OrderStep(s2, W(), evs[2], s3, r3);
    Step(s1, W(), evs[1], s2, r2, false);
    OrderStep(s1, W(), evs[1], s2, r2);
    Step(Start(), W(), evs[0], s1, r1, false);
    OrderStep(Start(), W(), evs[0], s1, r1);
    assert [evs[0]] + r1 == evs + rest;
  }

  lemma EndsWithLoad(s: State, ev: Event)
    requires EventSound(s, W(), ev) && EventApart(s, W(), ev) && !EventInOrder(s, W(), ev)
    ensures RunSound(s, W(), [ev], false) && RunApart(s, W(), [ev]) && !RunInOrder(s, W(), [ev])
  {
    hide EventSound, EventApart, EventInOrder, React;
    assert [ev][1..] == [];
  }

  // ----- loads, an unload and an application start -----

  /** The library's code comes, goes, or is replaced. */
  function Swap(s: State, loaded: bool): Change {
    Change(Where(loaded), (p: Addr) => if p == EXPORT_ADDRESS then NOP else s.mem(p), iset{EXPORT_ADDRESS})
  }

  /** The two patches of the exported function between events. */
  ghost predicate Following(s: State, w: World, loaded: bool) {
    && Inv(s, w) && Owns(s) && s.env == Where(loaded)
    && w.data == Data() && (forall a :: w.pristine(a) == NOP)
    && |s.entries| == 2 && SameConfig(E1(EXPORTED), s.entries[0]) && SameConfig(E2(EXPORTED), s.entries[1])
  }

  /** While the library is loaded both are patched, on top of each other; otherwise neither is. */
  lemma FollowingEntries(s: State, w: World, loaded: bool, i: nat)
    requires Following(s, w, loaded) && i < 2
    ensures var e := s.entries[i];
            && e.target == EXPORTED && (e.isPatched <==> loaded) && (loaded ==> e.phys == EXPORT_ADDRESS)
            && (e.isPatched ==> e.replaceWith != NOP)
  {
    hide Pre, SiteOf, Waiting, SameBuffers, ReplacementWord, Owns;
    var e := s.entries[i];
    assert e.target == EXPORTED;
    ExportedSite(w, e, loaded);
    PatchedIffResolved(s, w, i);
    if e.isPatched {
      PatchedPlace(s, w, i);
      NotANop(s, w, i);
    }
  }

  lemma PatchedPlace(s: State, w: World, i: nat)
    requires Inv(s, w) && i < |s.entries| && s.entries[i].isPatched
    ensures SiteOf(s.env, w.pristine, s.entries[i]) == Resolved(s.entries[i].eff, s.entries[i].phys)
  {
    hide SiteOf, Waiting, Assumed, LaidOut, Chained, WordsRight, BuffersFilled;
  }

  lemma NotANop(s: State, w: World, i: nat)
    requires Inv(s, w) && i < |s.entries| && s.entries[i].isPatched
    ensures s.entries[i].replaceWith != NOP
  {
    hide SiteOf, Waiting, Assumed, LaidOut, Chained, Located, BuffersFilled, NeedsTrampoline, Ba, Short, Aligned;
    var e := s.entries[i];
    assert Reachable(e);
    BranchIsNoNop(if NeedsTrampoline(e.process, e.repl) then e.jumpData else e.repl);
  }

  lemma BranchIsNoNop(a: Addr)
    ensures Ba(a) != NOP
  {
  }

  lemma SwapIsSound(s: State, w: World, loaded: bool, loaded': bool)
    requires Following(s, w, loaded)
    ensures ChangeSound(s, w, Swap(s, loaded'))
  {
    hide Inv, Owns, SiteOf, SiteSound, Injective, SameConfig;
    var ch := Swap(s, loaded');
    var w' := NewWorld(w, ch);
    forall i: nat | i < 2
      ensures SiteSound(ch.env, w', s.entries[i]) && SitesKept(s, w, ch, s.entries[i])
    {
      FollowingEntries(s, w, loaded, i);
      ExportedSite(w', s.entries[i], loaded');
      ExportedSite(w, s.entries[i], loaded);
    }
    WhereIsSound(loaded');
  }

  lemma WhereIsSound(loaded: bool)
    ensures Injective(Where(loaded).xl) && Where(loaded).readable && 0 !in Data() && EXPORT_ADDRESS !in Data()
    ensures forall a :: Where(loaded).xl(a) == a
    ensures Where(loaded).plat == Platform(0, 0)
  {
  }

  lemma SameConfigTwice(e: Entry, f: Entry, g: Entry)
    requires SameConfig(e, f) && SameConfig(f, g)
    ensures SameConfig(e, g)
  {
  }

  /** A state with the same patches, in the new surroundings. */
  lemma StillFollowing(s: State, w: World, ch: Change, s': State, loaded: bool, loaded': bool)
    requires Following(s, w, loaded) && ch == Swap(s, loaded')
    requires Inv(s', NewWorld(w, ch)) && s'.env == Where(loaded') && s'.heap == s.heap && |s'.entries| == |s.entries|
    requires forall i :: 0 <= i < |s.entries| ==> SameConfig(s.entries[i], s'.entries[i])
    ensures Following(s', NewWorld(w, ch), loaded')
  {
    hide Inv, SameConfig, AllBlocks;
    SameConfigOwns(s, s');
    SameConfigTwice(E1(EXPORTED), s.entries[0], s'.entries[0]);
    SameConfigTwice(E2(EXPORTED), s.entries[1], s'.entries[1]);
  }

  lemma FollowingIsInv(s: State, w: World, loaded: bool)
    requires Following(s, w, loaded)
    ensures Inv(s, w) && Pre(s, w) && Ordered(s, w) && |s.entries| == 2
  {
    hide Inv, Pre, Ordered, Owns, SameConfig;
    InvIsOrdered(s, w);
  }

  lemma AllFollowing(s: State, w: World, loaded: bool)
    requires Following(s, w, loaded)
    ensures forall i :: 0 <= i < |s.entries| ==>
              var e := s.entries[i];
              && e.target == EXPORTED && (e.isPatched <==> loaded) && (loaded ==> e.phys == EXPORT_ADDRESS)
              && (e.isPatched ==> e.replaceWith != NOP)
  {
    hide Following, Inv, Pre, Ordered;
    FollowingIsInv(s, w, loaded);
    FollowingEntries(s, w, loaded, 0);
    FollowingEntries(s, w, loaded, 1);
  }

  lemma LoadIsSound(s: State, w: World)
    requires Following(s, w, false)
    ensures LoadSound(s, w, Swap(s, true))
  {
    hide Following, ChangeSound, Inv, Pre, Ordered, Where;
    SwapIsSound(s, w, false, true);
    AllFollowing(s, w, false);
  }

  lemma LoadFollows(s: State, w: World) returns (s': State)
    requires Following(s, w, false)
    ensures EventSound(s, w, ModuleLoaded(Swap(s, true)))
    ensures React(s, ModuleLoaded(Swap(s, true)), true) == Some(s') && Following(s', NewWorld(w, Swap(s, true)), true)
  {
    hide Inv, Pre, Ordered, Following, LoadSound, SameConfig, Loaded, Where;
    var ch := Swap(s, true);
    FollowingIsInv(s, w, false);
    LoadIsSound(s, w);
    LoadKeepsInv(s, w, ch);
    s' := Loaded(Changed(s, ch)).value;
    LoadedEnv(s, w, ch);
    StillFollowing(s, w, ch, s', false, true);
  }

  lemma LoadedEnv(s: State, w: World, ch: Change)
    requires Pre(s, w) && Ordered(s, w) && LoadSound(s, w, ch) && Loaded(Changed(s, ch)).Some?
    ensures Loaded(Changed(s, ch)).value.env == ch.env
  {
    hide Pre, Ordered, LoadSound, SameConfig, Sweep, Waiting;
    ChangedByLoad(s, w, ch);
    SweepEstablishesInv(Changed(s, ch), NewWorld(w, ch));
  }

  lemma UnloadIsSound(s: State, w: World)
    requires Following(s, w, true)
    ensures UnloadSound(s, w, Swap(s, false), Some(LIBRARY))
  {
    hide Following, ChangeSound, SiteOf, Inv, Pre, Ordered, Where, NewWorld;
    var ch := Swap(s, false);
    SwapIsSound(s, w, true, false);
    AllFollowing(s, w, true);
    FollowingPristine(s, w, ch);
    forall i: nat | i < |s.entries|
      ensures SiteOf(ch.env, NewWorld(w, ch).pristine, s.entries[i]).NotResolved?
    {
      ExportedSite(NewWorld(w, ch), s.entries[i], false);
    }
  }

  lemma FollowingPristine(s: State, w: World, ch: Change)
    requires Following(s, w, true) && ch == Swap(s, false)
    ensures NewWorld(w, ch).pristine(EXPORT_ADDRESS) == NOP && NewWorld(w, ch).data == Data()
  {
    hide Inv, Owns, SameConfig;
  }

  lemma UnloadFollows(s: State, w: World) returns (s': State)
    requires Following(s, w, true)
    ensures EventSound(s, w, ModuleUnloaded(Swap(s, false), Some(LIBRARY)))
    ensures React(s, ModuleUnloaded(Swap(s, false), Some(LIBRARY)), true) == Some(s')
    ensures Following(s', NewWorld(w, Swap(s, false)), false)
  {
    hide Inv, Pre, Ordered, Following, UnloadSound, SameConfig, Checked, RegionOff, Where;
    var ch := Swap(s, false);
    FollowingIsInv(s, w, true);
    UnloadIsSound(s, w);
    UnloadKeepsInv(s, w, ch, Some(LIBRARY));
    s' := Unloaded(Changed(s, ch), Some(LIBRARY));
    RegionOffMeans(s.entries, s'.entries, ch.region);
    CheckedEnv(Changed(s, ch).(entries := Invalidated(s.entries, Some(LIBRARY))));
    StillFollowing(s, w, ch, s', true, false);
  }

  lemma RegionOffMeans(es: seq<Entry>, fs: seq<Entry>, region: iset<Addr>)
    requires RegionOff(es, fs, region)
    ensures |fs| == |es| && forall i :: 0 <= i < |es| ==> SameConfig(es[i], fs[i])
  {
    hide SameConfig;
    RegionOffConfig(es, fs, region);
  }

  lemma CheckedEnv(s: State)
    ensures Checked(s).env == s.env && Checked(s).heap == s.heap
  {
  }

  lemma StartIsSound(s: State, w: World)
    requires Following(s, w, true)
    ensures StartSound(s, w, Swap(s, true))
  {
    hide Following, ChangeSound, Inv, Pre, Ordered, Where;
    SwapIsSound(s, w, true, true);
    AllFollowing(s, w, true);
  }

  lemma StartFollows(s: State, w: World) returns (s': State)
    requires Following(s, w, true)
    ensures EventSound(s, w, ApplicationStarts(Swap(s, true), 2))
    ensures React(s, ApplicationStarts(Swap(s, true), 2), true) == Some(s') && Following(s', NewWorld(w, Swap(s, true)), true)
  {
    hide Inv, Pre, Ordered, Following, StartSound, SameConfig, Started, Where;
    var ch := Swap(s, true);
    FollowingIsInv(s, w, true);
    StartIsSound(s, w);
    StartKeepsInv(s, w, ch, 2);
    s' := Started(Changed(s, ch), 2).value;
    StartedEnv(s, w, ch);
    StillFollowing(s, w, ch, s', true, true);
  }

  lemma StartedEnv(s: State, w: World, ch: Change)
    requires Pre(s, w) && Ordered(s, w) && StartSound(s, w, ch) && Started(Changed(s, ch), 2).Some?
    ensures Started(Changed(s, ch), 2).value.env == ch.env
  {
    hide Pre, Ordered, StartSound, SameConfig, Sweep, Waiting, Checked;
    CheckedByStart(s, w, ch);
    CheckedEnv(Changed(s, ch));
    SweepEstablishesInv(Checked(Changed(s, ch)), NewWorld(w, ch));
  }

  lemma TwoFollow(s: State)
    requires Inv(s, W()) && Holding(s, [E1(EXPORTED), E2(EXPORTED)])
    ensures Following(s, W(), false)
  {
    hide Inv, Pre, Owns, SiteOf, SameBuffers;
    var es := [E1(EXPORTED), E2(EXPORTED)];
    assert SameConfig(es[0], s.entries[0]) && SameConfig(es[1], s.entries[1]);
  }

  /** Two entries are listed, and both are patched in the region. */
  ghost predicate BothPatchedIn(r: Option<State>, region: iset<Addr>) {
    && r.Some? && |r.value.entries| == 2
    && forall i :: 0 <= i < 2 ==> r.value.entries[i].isPatched && r.value.entries[i].phys in region
  }

  lemma FollowersPatched(s: State, w: World)
    requires Following(s, w, true)
    ensures BothPatchedIn(Some(s), iset{EXPORT_ADDRESS})
  {
    hide Following, Inv, Pre, Ordered;
    FollowingIsInv(s, w, true);
    AllFollowing(s, w, true);
  }

  /**
   Two patches of a function of a library that is not loaded; then the library is loaded, unloaded
   with both patches on its code, loaded again, and replaced before an application start. The last
   three changes take patched code away, and all assumptions hold of every event.
   */
  lemma LibraryStory() returns (evs: seq<Event>)
    ensures |evs| == 6 && evs[0].AddPatch? && evs[1].AddPatch?
    ensures evs[2].ModuleLoaded? && evs[3].ModuleUnloaded? && evs[4].ModuleLoaded? && evs[5].ApplicationStarts?
    ensures RunSound(Start(), W(), evs, true)
    ensures BothPatchedIn(Exec(Start(), evs[..3], true), evs[3].change.region)
    ensures BothPatchedIn(Exec(Start(), evs[..5], true), evs[5].change.region)
    ensures BothPatchedIn(Exec(Start(), evs, true), iset{EXPORT_ADDRESS})
  {
    hide Inv, Holding, Following, EventSound, React, RunSound, Exec, E1, E2, First, Second, Start, NewWorld, Swap, BothPatchedIn;
    var s1, s2 := FirstTwo(EXPORTED, true);
    TwoFollow(s2);
    var w2 := W();
    var s3 := LoadFollows(s2, w2);
    var w3 := NewWorld(w2, Swap(s2, true));
    var s4 := UnloadFollows(s3, w3);
    var w4 := NewWorld(w3, Swap(s3, false));
    var s5 := LoadFollows(s4, w4);
    var w5 := NewWorld(w4, Swap(s4, true));
    var s6 := StartFollows(s5, w5);
    var w6 := NewWorld(w5, Swap(s5, true));
    var e0, e1 := AddPatch(First(EXPORTED), 0, 0x00900000), AddPatch(Second(EXPORTED), 0x00900200, 0x00900300);
    var e2, e3 := ModuleLoaded(Swap(s2, true)), ModuleUnloaded(Swap(s3, false), Some(LIBRARY));
    var e4, e5 := ModuleLoaded(Swap(s4, true)), ApplicationStarts(Swap(s5, true), 2);
    NoEvents(s6, w6, true);
    StepExec(s5, w5, e5, s6, []);
    StepExec(s4, w4, e4, s5, [e5] + []);
    StepExec(s3, w3, e3, s4, [e4] + ([e5] + []));
    StepExec(s2, w2, e2, s3, [e3] + ([e4] + ([e5] + [])));
    StepExec(s1, W(), e1, s2, [e2] + ([e3] + ([e4] + ([e5] + []))));
    StepExec(Start(), W(), e0, s1, [e1] + ([e2] + ([e3] + ([e4] + ([e5] + [])))));
    evs := [e0] + ([e1] + ([e2] + ([e3] + ([e4] + ([e5] + [])))));
    ExecNothing(s6);
    FollowersPatched(s6, w6);
    FollowersPatched(s5, w5);
    FollowersPatched(s3, w3);
    ExecNothing(s3);
    ExecStep(s2, e2, s3, []);
    ExecStep(s1, e1, s2, [e2] + []);
    ExecStep(Start(), e0, s1, [e1] + ([e2] + []));
    assert evs[..3] == [e0] + ([e1] + ([e2] + []));
    ExecNothing(s5);
    ExecStep(s4, e4, s5, []);
    ExecStep(s3, e3, s4, [e4] + []);
    ExecStep(s2, e2, s3, [e3] + ([e4] + []));
    ExecStep(s1, e1, s2, [e2] + ([e3] + ([e4] + [])));
    ExecStep(Start(), e0, s1, [e1] + ([e2] + ([e3] + ([e4] + []))));
    assert evs[..5] == [e0] + ([e1] + ([e2] + ([e3] + ([e4] + []))));
    RegionOfSwap(s3, false);
    RegionOfSwap(s5, true);
  }

  lemma StepExec(s: State, w: World, ev: Event, s': State, rest: seq<Event>)
    requires EventSound(s, w, ev) && React(s, ev, true) == Some(s') && RunSound(s', WorldAfter(w, ev), rest, true)
    ensures RunSound(s, w, [ev] + rest, true) && Exec(s, [ev] + rest, true) == Exec(s', rest, true)
  {
    hide EventSound, React, WorldAfter;
    Step(s, w, ev, s', rest, true);
    ExecStep(s, ev, s', rest);
  }

  lemma ExecStep(s: State, ev: Event, s': State, rest: seq<Event>)
    requires React(s, ev, true) == Some(s')
    ensures Exec(s, [ev] + rest, true) == Exec(s', rest, true)
  {
    hide React;
    assert ([ev] + rest)[1..] == rest;
  }

  lemma RegionOfSwap(s: State, loaded: bool)
    ensures Swap(s, loaded).region == iset{EXPORT_ADDRESS}
  {
  }

  lemma ExecNothing(s: State)
    ensures Exec(s, [], true) == Some(s)
  {
  }
}
