/**
 Runs of the code as written in which list order and patch order may differ: as long as every removal
 takes its patch off and every memory check clears only what has vanished, the memory holds each
 function's stack in patch order, and calls are dispatched by it. When that is so is told by the two
 orders.
 */
module OrderlyRuns {
  import opened Words
  import opened Machine
  import opened CodeGen
  import opened Dispatch
  import opened PatchStack
  import opened Writing
  import opened Chain
  import opened Keeping
  import opened Removal
  import opened Scanning
  import opened Undoing
  import opened Ownership
  import opened Distinctness
  import opened PatchOrder
  import opened StackPositions
  import opened Publication
  import opened Runs

  // ----- adding -----

  lemma ListedAt(s: State, w: World, q: seq<nat>, p: Addr, s': State)
    requires StackedAt(s, w, q, p) && s'.mem == s.mem
    requires |s'.entries| == |s.entries| + 1 && s'.entries[..|s.entries|] == s.entries && !s'.entries[|s.entries|].isPatched
    ensures StackedAt(s', w, q, p)
  {
    hide Linked;
    assert forall i :: 0 <= i < |s.entries| ==> s'.entries[i] == s'.entries[..|s.entries|][i] == s.entries[i];
    assert At(s'.entries, q) == At(s.entries, q);
  }

  lemma AddTops(s: State, w: World, ord: Order, q: Request, choice1: Addr, choice2: Addr) returns (ord': Order)
    requires Stacked(s, w, ord) && Owns(s) && RequestSound(s, w, q, choice1, choice2)
    ensures Add(s, q, choice1, choice2).Added? ==> Stacked(Add(s, q, choice1, choice2).state, w, ord') && Extends(ord, ord')
  {
    hide Whole, StackedAt, Extends, Granted, RequestSound, PatchEntry, Add, Waiting, SameConfig, NewEntry, BlocksOf;
    AddCases(s, q, choice1, choice2);
    ord' := ord;
    if Granted(s, q, choice1, choice2) {
      var l := Listed(s, q, choice1, choice2);
      ListedIsWhole(s, w, q, choice1, choice2);
      NewEntryFields(q, if NeedsTrampoline(q.process, q.repl) then choice1 else 0, choice2);
      forall p | p !in w.data
        ensures StackedAt(l, w, ord(p), p)
      {
        assert StackedAt(s, w, ord(p), p);
        ListedAt(s, w, ord(p), p, l);
      }
      var s';
      s', ord' := PatchOneTops(l, w, ord, |s.entries|);
    }
  }

  // ----- removing -----

  /** Positions behind `k` move down by one. */
  function Moved(q: seq<nat>, k: nat): (r: seq<nat>)
    ensures |r| == |q| && forall t :: 0 <= t < |q| ==> r[t] == if q[t] > k then q[t] - 1 else q[t]
  {
    seq(|q|, t requires 0 <= t < |q| => if q[t] > k then q[t] - 1 else q[t])
  }

  lemma MovedAt(s: State, w: World, q: seq<nat>, p: Addr, k: nat, s': State)
    requires StackedAt(s, w, q, p) && k < |s.entries| && !s.entries[k].isPatched
    requires s'.mem == s.mem && s'.entries == Erase(s.entries, k)
    ensures StackedAt(s', w, Moved(q, k), p)
  {
    hide Linked, Below, Erase, Distinct;
    var r := Moved(q, k);
    assert k !in q;
    MovedEntries(s.entries, q, k);
    MovedDistinct(q, k);
    assert At(s'.entries, r) == At(s.entries, q);
    forall i: nat | i < |s'.entries| && s'.entries[i].isPatched && s'.entries[i].phys == p
      ensures i in r
    {
      ErasedAt(s.entries, k, i);
      MovedMember(q, k, i);
    }
  }

  lemma MovedEntries(es: seq<Entry>, q: seq<nat>, k: nat)
    requires IndicesOf(q, |es|) && k < |es| && k !in q
    ensures |Erase(es, k)| == |es| - 1
    ensures forall t :: 0 <= t < |q| ==> Moved(q, k)[t] < |es| - 1 && Erase(es, k)[Moved(q, k)[t]] == es[q[t]]
  {
    hide Erase;
    ErasedLength(es, k);
    forall t | 0 <= t < |q|
      ensures Moved(q, k)[t] < |es| - 1 && Erase(es, k)[Moved(q, k)[t]] == es[q[t]]
    {
      assert q[t] != k;
      ErasedAt(es, k, Moved(q, k)[t]);
    }
  }

  lemma MovedMember(q: seq<nat>, k: nat, i: nat)
    requires OldIndex(k, i) in q
    ensures i in Moved(q, k)
  {
    var t :| 0 <= t < |q| && q[t] == OldIndex(k, i);
    assert Moved(q, k)[t] == i;
  }

  lemma MovedDistinct(q: seq<nat>, k: nat)
    requires Distinct(q) && k !in q
    ensures Distinct(Moved(q, k))
  {
    assert forall t :: 0 <= t < |q| ==> q[t] != k;
  }

  /** The removal as written takes its patch off, if that is on. */
  ghost predicate TakesOff(s: State, k: nat)
    requires k < |s.entries|
  {
    s.entries[k].isPatched ==> !Unstacked(s, k).entries[k].isPatched
  }

  lemma RemovalMoves(s: State, w: World, ord: Order, k: nat) returns (ord': Order)
    requires Stacked(s, w, ord) && ReplacementsApart(s) && k < |s.entries| && TakesOff(s, k)
    ensures Remove(s, k, false).Some? && Stacked(Remove(s, k, false).value, w, ord')
  {
    hide Whole, StackedAt, ReplacementsApart, Unstacked, Erase, BlocksOf, OffOrSame, PatchMany, LaterFrom;
    var s1 := Unstacked(s, k);
    var s2 := s1.(entries := Erase(s1.entries, k));
    var ord1 := AfterRestores(s, w, ord, k);
    StillOff(s, w, k);
    EraseKeepsWhole(s1, s2, w, k);
    HeapIsNotWhole(s2, w, s.heap - BlocksOf(s.entries[k]));
    var r := Remove(s, k, false).value;
    HeapOfUnstacked(s, w, k);
    ord' := (p: Addr) => Moved(ord1(p), k);
    forall p | p !in w.data
      ensures StackedAt(r, w, ord'(p), p)
    {
      assert StackedAt(s1, w, ord1(p), p);
      MovedAt(s1, w, ord1(p), p, k, r);
    }
  }

  lemma StillOff(s: State, w: World, k: nat)
    requires Whole(s, w) && k < |s.entries| && TakesOff(s, k)
    ensures !Unstacked(s, k).entries[k].isPatched
  {
    hide Whole, Unstacked;
    UnstackedKeepsWhole(s, w, k);
  }

  lemma HeapOfUnstacked(s: State, w: World, k: nat)
    requires Whole(s, w) && k < |s.entries|
    ensures Unstacked(s, k).heap == s.heap
  {
    hide Whole, Unstacked, OffOrSame;
    UnstackedKeepsWhole(s, w, k);
  }

  // ----- changes of the surroundings -----

  /** Nothing is on top of anything in the region. */
  ghost function Outside(ord: Order, region: iset<Addr>): Order {
    (p: Addr) => if p in region then [] else ord(p)
  }

  lemma ClearedAt(s: State, w: World, q: seq<nat>, p: Addr, ch: Change, t: State)
    requires StackedAt(s, w, q, p) && p !in w.data && ChangeSound(s, w, ch)
    requires t == Changed(s, ch).(entries := t.entries) && RegionOff(s.entries, t.entries, ch.region)
    ensures StackedAt(t, NewWorld(w, ch), if p in ch.region then [] else q, p)
  {
    hide Linked, Assumed, SitesKept;
    if p in ch.region {
      assert Linked(NewWorld(w, ch).pristine(p), At(t.entries, [])) by { NothingLinked(NewWorld(w, ch).pristine(p)); }
    } else {
      assert At(t.entries, q) == At(s.entries, q);
    }
  }

  lemma NothingLinked(x: Word)
    ensures Linked(x, [])
  {
  }

  lemma ChangeClears(s: State, w: World, ord: Order, ch: Change, t: State)
    requires Stacked(s, w, ord) && ChangeSound(s, w, ch)
    requires t == Changed(s, ch).(entries := t.entries) && RegionOff(s.entries, t.entries, ch.region)
    ensures Stacked(t, NewWorld(w, ch), Outside(ord, ch.region))
  {
    hide Whole, StackedAt, ChangeSound, RegionOff, LeavesRegion;
    RegionOffLeaves(s.entries, t.entries, ch.region);
    ChangedIsWhole(s, w, ch, t);
    forall p | p !in w.data
      ensures StackedAt(t, NewWorld(w, ch), Outside(ord, ch.region)(p), p)
    {
      assert StackedAt(s, w, ord(p), p);
      ClearedAt(s, w, ord(p), p, ch, t);
    }
  }

  // ----- when the memory check clears only what has vanished -----

  /** Outside the region the topmost patch of each stack is the last one of its address in the list. */
  ghost predicate TopsAreLast(w: World, ord: Order, region: iset<Addr>) {
    forall p, t :: p !in w.data && p !in region && 0 <= t < |ord(p)| ==> ord(p)[t] <= ord(p)[|ord(p)| - 1]
  }

  /** For one address: the check keeps its patches if and only if its last listed patch is the topmost. */
  lemma StillThereIff(s: State, w: World, ord: Order, ch: Change, cleared: seq<Entry>, i: nat)
    requires Stacked(s, w, ord) && ReplacementsApart(s) && VanishSound(s, w, ch, cleared)
    requires i < |s.entries| && s.entries[i].isPatched && s.entries[i].phys !in ch.region
    ensures s.entries[i].phys !in w.data && cleared[i] == s.entries[i]
    ensures var p := s.entries[i].phys;
            && ord(p) != []
            && (StillThere(ch.mem, cleared, |cleared|, p)
                <==> forall t :: 0 <= t < |ord(p)| ==> ord(p)[t] <= ord(p)[|ord(p)| - 1])
  {
    hide Stacked, ReplacementsApart, VanishSound, LastAt, Distinct;
    var p := s.entries[i].phys;
    RestoredIffOnTop(s, w, ord, i);
    StackedMeans(s, w, ord, p);
    VanishMeans(s, w, ch, cleared);
    MemoryOutside(s, w, ch, cleared, p);
    var q, l := ord(p), LastAt(cleared, |cleared|, p);
    LastAtMeans(cleared, |cleared|, p);
    assert cleared[i] == s.entries[i];
    assert 0 <= l && cleared[l] == s.entries[l];
    RestoredIffOnTop(s, w, ord, l);
    LastIsGreatest(s, q, p, l, cleared);
  }

  lemma MemoryOutside(s: State, w: World, ch: Change, cleared: seq<Entry>, p: Addr)
    requires VanishSound(s, w, ch, cleared) && p !in ch.region
    ensures ch.mem(p) == s.mem(p)
  {
    hide Assumed, SitesKept;
  }

  lemma LastIsGreatest(s: State, q: seq<nat>, p: Addr, l: nat, cleared: seq<Entry>)
    requires |cleared| == |s.entries| && l < |cleared| && l in q && IndicesOf(q, |s.entries|)
    requires forall t :: 0 <= t < |q| ==> s.entries[q[t]].isPatched && s.entries[q[t]].phys == p
    requires forall i: nat :: i < |cleared| && s.entries[i].isPatched && s.entries[i].phys == p ==> cleared[i] == s.entries[i]
    requires forall i :: l < i < |cleared| ==> !(cleared[i].isPatched && cleared[i].phys == p)
    ensures q[|q| - 1] == l <==> forall t :: 0 <= t < |q| ==> q[t] <= q[|q| - 1]
  {
    forall t | 0 <= t < |q|
      ensures q[t] <= l
    {
      assert cleared[q[t]] == s.entries[q[t]];
    }
    var u :| 0 <= u < |q| && q[u] == l;
  }

  /**
   The memory check turns off exactly the patches whose code has vanished if and only if, outside the
   region, each stack has the last listed patch of its address on top.
   */
  lemma CheckIsGentleIff(s: State, w: World, ord: Order, ch: Change, cleared: seq<Entry>)
    requires Stacked(s, w, ord) && ReplacementsApart(s) && VanishSound(s, w, ch, cleared)
    ensures RegionOff(s.entries, Checked(Changed(s, ch).(entries := cleared)).entries, ch.region)
       <==> TopsAreLast(w, ord, ch.region)
  {
    hide Stacked, ReplacementsApart, VanishSound, Checked, LeavesRegion, StillThere;
    var u := Changed(s, ch).(entries := cleared);
    var r := Checked(u);
    VanishIsReadable(s, w, ch, cleared);
    CheckLeavesRegion(s, w, ch, cleared);
    CheckedMeans(u);
    LeavesMeans(s.entries, r.entries, ch.region);
    VanishMeans(s, w, ch, cleared);
    if TopsAreLast(w, ord, ch.region) {
      forall i: nat | i < |s.entries|
        ensures r.entries[i] == if s.entries[i].isPatched && s.entries[i].phys in ch.region then Off(s.entries[i]) else s.entries[i]
      {
        if s.entries[i].isPatched && s.entries[i].phys !in ch.region {
          StillThereIff(s, w, ord, ch, cleared, i);
        }
      }
    }
    if RegionOff(s.entries, r.entries, ch.region) {
      forall p, t | p !in w.data && p !in ch.region && 0 <= t < |ord(p)|
        ensures ord(p)[t] <= ord(p)[|ord(p)| - 1]
      {
        StackedMeans(s, w, ord, p);
        StillThereIff(s, w, ord, ch, cleared, ord(p)[t]);
      }
    }
  }

  lemma LeavesMeans(es: seq<Entry>, fs: seq<Entry>, region: iset<Addr>)
    requires LeavesRegion(es, fs, region)
    ensures |fs| == |es|
    ensures forall i: nat :: i < |es| ==>
      && (fs[i] == es[i] || fs[i] == Off(es[i])) && (fs[i].isPatched ==> fs[i].phys !in region)
  {
  }

  lemma VanishMeans(s: State, w: World, ch: Change, cleared: seq<Entry>)
    requires VanishSound(s, w, ch, cleared)
    ensures |cleared| == |s.entries|
    ensures forall i: nat :: i < |s.entries| ==>
      cleared[i] == s.entries[i] || (cleared[i] == Off(s.entries[i]) && (s.entries[i].isPatched ==> s.entries[i].phys in ch.region))
  {
    hide ChangeSound;
  }

  // ----- runs -----

  /** A removal takes its patch off; a memory check turns off exactly the patches whose code has vanished. */
  ghost predicate Gentle(s: State, ev: Event) {
    match ev
    case AddPatch(_, _, _) => true
    case RemovePatch(handle) => var k := Find(s.entries, handle); k < |s.entries| ==> TakesOff(s, k)
    case ModuleLoaded(_) => true
    case ModuleUnloaded(ch, library) => RegionOff(s.entries, Unloaded(Changed(s, ch), library).entries, ch.region)
    case ApplicationStarts(ch, _) => RegionOff(s.entries, Checked(Changed(s, ch)).entries, ch.region)
  }

  /** With removal as written, a gentle event keeps the stacks. */
  lemma EventKeepsStacks(s: State, w: World, ord: Order, ev: Event) returns (ord': Order)
    requires Stacked(s, w, ord) && Owns(s) && EventSound(s, w, ev) && Gentle(s, ev)
    requires ev.RemovePatch? ==> ReplacementsApart(s)
    ensures React(s, ev, false).Some? && Stacked(React(s, ev, false).value, WorldAfter(w, ev), ord')
  {
    hide Stacked, Owns, ReplacementsApart, RequestSound, ChangeSound, Add, Remove, Find, Sweep, Checked, RegionOff, SiteOf, Extends, TakesOff, Waiting, SameConfig;
    match ev {
      case AddPatch(q, choice1, choice2) =>
        ord' := AddTops(s, w, ord, q, choice1, choice2);
        WholeOfStacked(s, w, ord);
        AddOwns(s, w, q, choice1, choice2);
        if !Add(s, q, choice1, choice2).Added? {
          ord' := ord;
          assert s.(heap := s.heap) == s;
        }
      case RemovePatch(handle) =>
        ord' := ord;
        if Find(s.entries, handle) < |s.entries| {
          ord' := RemovalMoves(s, w, ord, Find(s.entries, handle));
        }
      case ModuleLoaded(ch) =>
        var t := Changed(s, ch);
        LoadIsRegionOff(s, w, ch);
        ChangeClears(s, w, ord, ch, t);
        ord' := SweepTops(t, NewWorld(w, ch), Outside(ord, ch.region));
      case ModuleUnloaded(ch, library) =>
        VanishIsReadable(s, w, ch, Invalidated(s.entries, library));
        CheckedIsCheckOnly(Changed(s, ch).(entries := Invalidated(s.entries, library)));
        ChangeClears(s, w, ord, ch, Unloaded(Changed(s, ch), library));
        ord' := Outside(ord, ch.region);
      case ApplicationStarts(ch, upid) =>
        var t := Checked(Changed(s, ch));
        VanishIsReadable(s, w, ch, s.entries);
        CheckedIsCheckOnly(Changed(s, ch));
        ChangeClears(s, w, ord, ch, t);
        ord' := SweepTops(t, NewWorld(w, ch), Outside(ord, ch.region));
    }
  }

  lemma LoadIsRegionOff(s: State, w: World, ch: Change)
    requires LoadSound(s, w, ch)
    ensures RegionOff(s.entries, Changed(s, ch).entries, ch.region) && ChangeSound(s, w, ch)
    ensures Changed(s, ch) == Changed(s, ch).(entries := Changed(s, ch).entries)
  {
    hide ChangeSound;
  }

  lemma CheckedIsCheckOnly(s: State)
    ensures Checked(s) == s.(entries := Checked(s).entries)
  {
  }

  ghost predicate RunGentle(s: State, evs: seq<Event>)
    decreases |evs|
  {
    evs != [] ==>
      && Gentle(s, evs[0]) && (evs[0].RemovePatch? ==> ReplacementsApart(s))
      && (React(s, evs[0], false).Some? ==> RunGentle(React(s, evs[0], false).value, evs[1..]))
  }

  lemma {:induction false} RunKeepsStacks(s: State, w: World, ord: Order, evs: seq<Event>) returns (ord': Order)
    requires Stacked(s, w, ord) && Owns(s) && RunSound(s, w, evs, false) && RunGentle(s, evs)
    ensures Exec(s, evs, false).Some? && Stacked(Exec(s, evs, false).value, WorldAfterAll(w, evs), ord')
    decreases |evs|
  {
    hide Stacked, Owns, EventSound, React, WorldAfter, Gentle, ReplacementsApart;
    ord' := ord;
    if evs != [] {
      var ord1 := EventKeepsStacks(s, w, ord, evs[0]);
      WholeOfStacked(s, w, ord);
      EventIsSafe(s, w, evs[0], false);
      ord' := RunKeepsStacks(React(s, evs[0], false).value, WorldAfter(w, evs[0]), ord1, evs[1..]);
    }
  }

  /**
   After every run as written in which removals take their patches off and memory checks turn off only
   what has vanished, in whatever order its sweeps have found their lists, a call of any function is
   dispatched by the patches on it in the order in which they were applied.
   */
  lemma EveryGentleRunDispatches(mem: Memory, env: Env, data: iset<Addr>, evs: seq<Event>, sem: Semantics, a: Addr, c: Cpu)
    returns (ord: Order, n: nat)
    requires AnyRun(mem, env, data, evs, false) && RunGentle(Initial(mem, env), evs)
    requires Exec(Initial(mem, env), evs, false).Some?
    requires var s, w := Exec(Initial(mem, env), evs, false).value, WorldAfterAll(World(mem, data), evs);
             && s.env.xl(a) !in w.data && c.pc == a && Aligned(Next(a))
             && Displaceable(sem, w.pristine(s.env.xl(a)))
    ensures var s, w := Exec(Initial(mem, env), evs, false).value, WorldAfterAll(World(mem, data), evs);
            && Stacked(s, w, ord) && IndicesOf(ord(s.env.xl(a)), |s.entries|)
            && Dispatches(s, w, sem, a, c, At(s.entries, ord(s.env.xl(a))), n)
  {
    hide Inv, Pre, Stacked, Owns, RunSound, RunGentle, Exec, Injective, Displaceable, Dispatches, Carries, Aligned, Next;
    var s0, w0 := Initial(mem, env), World(mem, data);
    InitialIsInv(mem, env, data);
    PreStacked(s0, w0);
    ord := RunKeepsStacks(s0, w0, ListPositions(s0), evs);
    var s, w := Exec(s0, evs, false).value, WorldAfterAll(w0, evs);
    StackedCarries(s, w, ord);
    n := CallInPatchOrder(s, w, StacksOf(s, w, ord), sem, a, c);
  }
}
