/**
 The invariant of the patch list joined with the meaning of the emitted code: what callers of a
 patched function, and callers of a saved pointer, get in every state the module can be in, and
 while a patch is being published.
 */
module Publication {
  import opened Words
  import opened Machine
  import opened CodeGen
  import opened Dispatch
  import opened PatchStack
  import opened Writing
  import opened Chain
  import opened Keeping
  import opened Removal
  import opened Rebuilding
  import opened Undoing
  import opened Ownership
  import opened PatchOrder

  lemma ElementFacts(s: State, w: World, e: Entry, a: Addr)
    requires Whole(s, w) && s.env.xl(a) !in w.data && e in s.entries && e.isPatched && e.phys == s.env.xl(a)
    ensures e.eff == a && Reachable(e) && Emitted(View(s.mem, s.env.xl), s.env.plat, e)
  {
    var i :| 0 <= i < |s.entries| && s.entries[i] == e;
    assert SiteSound(s.env, w, e);
    hide SiteOf, Reachable, Emitted, PlainCode, LaidOut, View;
  }

  /** Each function that is patched carries its whole stack, in the order in which the patches were applied. */
  lemma StackIsInMemory(s: State, w: World, st: Stacks, a: Addr)
    requires Carries(s, w, st) && s.env.xl(a) !in w.data
    ensures StackIn(View(s.mem, s.env.xl), s.env.plat, w.pristine(s.env.xl(a)), a, st(s.env.xl(a)))
  {
    hide Reachable, Emitted, Linked, Whole;
    var es := st(s.env.xl(a));
    assert CarriesAt(s, w, es, s.env.xl(a));
    forall t | 0 <= t < |es|
      ensures es[t].eff == a && Reachable(es[t]) && Emitted(View(s.mem, s.env.xl), s.env.plat, es[t])
    {
      ElementFacts(s, w, es[t], a);
    }
    ViewAt(s.mem, s.env.xl, a);
  }

  /** The running process id, as OSGetUPID finds it. */
  function Upid(s: State): Word {
    View(s.mem, s.env.xl)(s.env.plat.UpidCell())
  }

  /** A call of any function reaches the last applied patch on it that admits the running process. */
  lemma CallInPatchOrder(s: State, w: World, st: Stacks, sem: Semantics, a: Addr, c: Cpu) returns (n: nat)
    requires Carries(s, w, st) && s.env.xl(a) !in w.data && c.pc == a && Aligned(Next(a))
    requires Displaceable(sem, w.pristine(s.env.xl(a)))
    ensures Dispatches(s, w, sem, a, c, st(s.env.xl(a)), n)
  {
    hide Carries, StackIn, View, Displaceable, Run, Chosen, Destination, SameVisible, Arrival, Next, Aligned;
    StackIsInMemory(s, w, st, a);
    n := StackDispatch(View(s.mem, s.env.xl), sem, s.env.plat, w.pristine(s.env.xl(a)), a, st(s.env.xl(a)), c);
  }

  /**
   From `a`, `n` steps lead into the replacement of the last patch of `es` that admits the running
   process, or else through the original first instruction and behind it; nothing else than r11, CTR
   and CR0 changes.
   */
  ghost predicate Dispatches(s: State, w: World, sem: Semantics, a: Addr, c: Cpu, es: seq<Entry>, n: nat) {
    var j := Chosen(es, Upid(s), |es|);
    var d := Run(View(s.mem, s.env.xl), sem, c, n);
    && -1 <= j < |es|
    && d.pc == Destination(a, es, j) && SameVisible(d, Arrival(sem, w.pristine(s.env.xl(a)), c, j))
    && n <= StepBound(|es|, j)
  }

  /**
   In every state of the invariant, a call of any function, patched or not, is dispatched by the
   patches on it in list order. Patches may be waiting, in any order.
   */
  lemma CallOfAnyFunction(s: State, w: World, sem: Semantics, a: Addr, c: Cpu) returns (n: nat)
    requires Pre(s, w) && s.env.xl(a) !in w.data && c.pc == a && Aligned(Next(a))
    requires Displaceable(sem, w.pristine(s.env.xl(a)))
    ensures Dispatches(s, w, sem, a, c, On(s.entries, s.env.xl(a)), n)
  {
    hide Pre, Carries, Dispatches, Displaceable, On, Next, Aligned;
    PreCarries(s, w);
    n := CallInPatchOrder(s, w, ListOrder(s), sem, a, c);
  }

  /**
   After a sweep in any state of the invariant, ordered or not, a call is dispatched by the patches
   that were on the function before and, on top of them, those that the sweep has applied.
   */
  lemma CallAfterSweep(s: State, w: World, sem: Semantics, a: Addr, c: Cpu) returns (n: nat)
    requires Pre(s, w) && s.env.xl(a) !in w.data && c.pc == a && Aligned(Next(a))
    requires Displaceable(sem, w.pristine(s.env.xl(a)))
    ensures Sweep(s).Some? && |Sweep(s).value.entries| == |s.entries|
    ensures var r, p := Sweep(s).value, s.env.xl(a);
            Dispatches(r, w, sem, a, c, On(s.entries, p) + Applied(s, r, Upto(|s.entries|), p), n)
  {
    hide Pre, Carries, Dispatches, Displaceable, On, Next, Aligned, Applied, Sweep, Waiting, SamePatches;
    PreCarries(s, w);
    SweepCarries(s, w, ListOrder(s));
    n := CallInPatchOrder(Sweep(s).value, w, Grown(ListOrder(s), s, Sweep(s).value, Upto(|s.entries|)), sem, a, c);
  }

  // ----- changes of memory that callers do not notice -----

  /** `m` has the words of `s.mem` everywhere but in the footprint of entry `k`. */
  ghost predicate SameOutside(s: State, k: nat, m: Memory)
    requires k < |s.entries|
  {
    forall p :: !InFootprint(s.env, s.entries[k], p) ==> m(p) == s.mem(p)
  }

  lemma CellsOutside(s: State, w: World, k: nat, i: nat, c: Addr)
    requires Steady(s, w) && k < |s.entries| && i < |s.entries| && i != k && c in OwnCells(s.entries[i])
    ensures !InFootprint(s.env, s.entries[k], s.env.xl(c))
  {
    hide PlainCode, SiteSound, EntryLaidOut, OwnCells;
    CellIsData(s, w, i, c);
    NotItsOwn(s.env, s.entries[k], c);
  }

  lemma NotItsOwn(env: Env, e: Entry, c: Addr)
    requires Injective(env.xl) && env.xl(c) != 0 && c !in OwnCells(e) && c != e.realCall
    ensures !InFootprint(env, e, env.xl(c))
  {
    hide OwnCells;
  }

  lemma CellIsData(s: State, w: World, i: nat, c: Addr)
    requires LaidOut(s, w) && i < |s.entries| && c in OwnCells(s.entries[i])
    ensures s.env.xl(c) in w.data
  {
    hide OwnCells;
    assert EntryLaidOut(s.env, w, s.entries[i]);
  }

  /** While only the buffers of an unpatched entry differ, every function still carries its old stack. */
  lemma OldStackStays(s: State, w: World, st: Stacks, k: nat, m: Memory, a: Addr)
    requires Carries(s, w, st) && k < |s.entries| && !s.entries[k].isPatched && SameOutside(s, k, m)
    requires s.env.xl(a) !in w.data
    ensures StackIn(View(m, s.env.xl), s.env.plat, w.pristine(s.env.xl(a)), a, st(s.env.xl(a)))
  {
    hide Whole, Reachable, Emitted, Linked, InFootprint, OwnCells, View;
    var p := s.env.xl(a);
    var es := st(p);
    StackIsInMemory(s, w, st, a);
    forall t | 0 <= t < |es|
      ensures Emitted(View(m, s.env.xl), s.env.plat, es[t])
    {
      assert CarriesAt(s, w, es, p);
      ElementStays(s, w, k, m, a, es[t]);
    }
    CodeNotInFootprint(s, w, k, p) by { hide *; WholeIsSteady(s, w); }
    ViewAt(s.mem, s.env.xl, a);
    ViewAt(m, s.env.xl, a);
  }

  lemma CodeNotInFootprint(s: State, w: World, k: nat, p: Addr)
    requires LaidOut(s, w) && k < |s.entries| && p !in w.data
    ensures !InFootprint(s.env, s.entries[k], p)
  {
    hide OwnCells, BuffersUsable;
    assert EntryLaidOut(s.env, w, s.entries[k]);
  }

  lemma ElementStays(s: State, w: World, k: nat, m: Memory, a: Addr, e: Entry)
    requires Whole(s, w) && k < |s.entries| && !s.entries[k].isPatched && SameOutside(s, k, m)
    requires s.env.xl(a) !in w.data && e in s.entries && e.isPatched && e.phys == s.env.xl(a)
    ensures Emitted(View(m, s.env.xl), s.env.plat, e)
  {
    hide Whole, Steady, LaidOut, Assumed, Reachable, Emitted, InFootprint, OwnCells, View;
    var v, v' := View(s.mem, s.env.xl), View(m, s.env.xl);
    var i :| 0 <= i < |s.entries| && s.entries[i] == e;
    ElementFacts(s, w, e, a);
    WholeIsSteady(s, w);
    forall c | c in OwnCells(e)
      ensures v(c) == v'(c)
    {
      CellsOutside(s, w, k, i, c);
      ViewAt(s.mem, s.env.xl, c);
      ViewAt(m, s.env.xl, c);
    }
    TrampolineAllocated(s, w, i);
    EmittedFrame(v, v', s.env.plat, e);
  }

  lemma TrampolineAllocated(s: State, w: World, i: nat)
    requires LaidOut(s, w) && i < |s.entries|
    ensures BuffersUsable(s.entries[i])
    ensures NeedsTrampoline(s.entries[i].process, s.entries[i].repl) <==> s.entries[i].jumpData != 0
  {
    hide OwnCells, BuffersUsable, NeedsTrampoline;
    assert EntryLaidOut(s.env, w, s.entries[i]);
  }

  // ----- publication -----

  lemma PrefixMisses(ws: Writes, n: nat, p: Addr)
    requires Misses(ws, p) && n <= |ws|
    ensures Misses(ws[..n], p)
  {
  }

  lemma BeforeLastWrite(s: State, w: World, k: nat, eff: Addr, phys: Addr, n: nat)
    requires k < |s.entries| && About(s, w, k, eff, phys) && n < |PatchWrites(s.env, PatchedEntry(s, k, eff, phys))|
    ensures SameOutside(s, k, Apply(s.mem, PatchWrites(s.env, PatchedEntry(s, k, eff, phys))[..n]))
  {
    hide Steady, SiteOf, BufferWrites, OwnCells, ReplacementWord, BuffersUsable, EntryLaidOut, Misses, Injective;
    var e := PatchedEntry(s, k, eff, phys);
    var ws := BufferWrites(s.env, e);
    TargetIsCode(s, w, k, eff, phys);
    FilledKeepsLayout(s.env, w, s.entries[k], eff, phys, s.mem(phys));
    UsableOf(s.env, w, e);
    assert PatchWrites(s.env, e)[..n] == ws[..n];
    forall p | !InFootprint(s.env, s.entries[k], p)
      ensures Apply(s.mem, ws[..n])(p) == s.mem(p)
    {
      BufferWritesMiss(s.env, e, p);
      PrefixMisses(ws, n, p);
      ApplyMisses(s.mem, ws[..n], p);
    }
  }

  /**
   PatchFunction on any entry, cut off after any number of its single-word writes: until the last
   one, every function carries exactly the stack it had; the last one puts the new patch on top of
   its own function's, and of no other's.
   */
  lemma PublishedAtTheLastWrite(s: State, w: World, st: Stacks, k: nat, eff: Addr, phys: Addr, n: nat, a: Addr)
    requires k < |s.entries| && About(s, w, k, eff, phys) && Carries(s, w, st) && s.env.xl(a) !in w.data
    requires n <= |PatchWrites(s.env, PatchedEntry(s, k, eff, phys))|
    ensures var e := PatchedEntry(s, k, eff, phys);
            var ws := PatchWrites(s.env, e);
            var under := st(s.env.xl(a));
            var stack := if n == |ws| && s.env.xl(a) == phys then under + [e] else under;
            StackIn(View(Apply(s.mem, ws[..n]), s.env.xl), s.env.plat, w.pristine(s.env.xl(a)), a, stack)
  {
    hide Steady, Carries, SiteOf, PatchWrites, Filled, StackIn, View, SameOutside;
    var ws := PatchWrites(s.env, PatchedEntry(s, k, eff, phys));
    if n < |ws| {
      BeforeLastWrite(s, w, k, eff, phys, n);
      OldStackStays(s, w, st, k, Apply(s.mem, ws[..n]), a);
    } else {
      assert ws[..n] == ws;
      PatchCarries(s, w, st, k, eff, phys);
      PatchedEntryIs(s, k, eff, phys);
      StackIsInMemory(PatchedState(s, k, eff, phys), w, Pushed(st, PatchedEntry(s, k, eff, phys)), a);
      assert st(s.env.xl(a)) + [] == st(s.env.xl(a));
    }
  }

  /**
   So a caller that enters any function between two of those writes arrives where it would have
   arrived before the first: in the last patch applied so far that admits the process, or behind the
   original instruction.
   */
  lemma CallDuringPublication(s: State, w: World, st: Stacks, k: nat, eff: Addr, phys: Addr, n: nat, sem: Semantics, a: Addr, c: Cpu)
    returns (m: nat, m': nat)
    requires k < |s.entries| && About(s, w, k, eff, phys) && Carries(s, w, st)
    requires s.env.xl(a) !in w.data && c.pc == a && Aligned(Next(a))
    requires n < |PatchWrites(s.env, PatchedEntry(s, k, eff, phys))|
    requires Displaceable(sem, w.pristine(s.env.xl(a)))
    requires !InFootprint(s.env, s.entries[k], s.env.xl(s.env.plat.UpidCell()))
    ensures var during := Apply(s.mem, PatchWrites(s.env, PatchedEntry(s, k, eff, phys))[..n]);
            var d, d' := Run(View(s.mem, s.env.xl), sem, c, m), Run(View(during, s.env.xl), sem, c, m');
            var es := st(s.env.xl(a));
            var j := Chosen(es, Upid(s), |es|);
            var arrival := Arrival(sem, w.pristine(s.env.xl(a)), c, j);
            && -1 <= j < |es| && d.pc == d'.pc == Destination(a, es, j)
            && SameVisible(d, arrival) && SameVisible(d', arrival) && SameVisible(d, d')
            && m <= StepBound(|es|, j) && m' <= StepBound(|es|, j)
  {
    hide Steady, Carries, SiteOf, PatchWrites, Filled, StackIn, View, Displaceable, Run, Chosen, Destination, Arrival, Next, Aligned, InFootprint, LoadedCell;
    var es := st(s.env.xl(a));
    var during := Apply(s.mem, PatchWrites(s.env, PatchedEntry(s, k, eff, phys))[..n]);
    BeforeLastWrite(s, w, k, eff, phys, n);
    OldStackStays(s, w, st, k, during, a);
    m := CallInPatchOrder(s, w, st, sem, a, c);
    m' := StackDispatch(View(during, s.env.xl), sem, s.env.plat, w.pristine(s.env.xl(a)), a, es, c);
    ViewAt(s.mem, s.env.xl, s.env.plat.UpidCell());
    ViewAt(during, s.env.xl, s.env.plat.UpidCell());
  }

  // ----- the saved pointer -----

  /** The memory with the function's word as it was just before the patch `e` on it was applied. */
  function Before(s: State, e: Entry): Memory {
    Updated(s.mem, e.phys, e.replaced)
  }

  lemma LowerStackBefore(s: State, w: World, st: Stacks, a: Addr, k: nat)
    requires Carries(s, w, st) && s.env.xl(a) !in w.data && k < |st(s.env.xl(a))|
    ensures StackIn(View(Before(s, st(s.env.xl(a))[k]), s.env.xl), s.env.plat, w.pristine(s.env.xl(a)), a, st(s.env.xl(a))[..k])
  {
    hide Whole, Reachable, Emitted, OwnCells, View, Linked;
    var p := s.env.xl(a);
    var es := st(p);
    var before := Before(s, es[k]);
    StackIsInMemory(s, w, st, a);
    assert CarriesAt(s, w, es, p);
    forall t | 0 <= t < k
      ensures Emitted(View(before, s.env.xl), s.env.plat, es[..k][t])
    {
      CodeWriteKeepsElement(s, w, a, es[t], es[k].replaced);
    }
    ViewAt(before, s.env.xl, a);
    LinkedPrefix(w.pristine(p), es, k);
  }

  lemma LinkedPrefix(x: Word, es: seq<Entry>, k: nat)
    requires Linked(x, es) && k < |es|
    ensures Linked(x, es[..k]) && es[k].replaced == Below(x, es[..k], k)
  {
    assert es[k].replaced == Below(x, es, k);
    forall t | 0 <= t < k
      ensures es[..k][t].replaced == Below(x, es[..k], t)
    {
      assert es[t].replaced == Below(x, es, t);
    }
  }

  lemma CodeWriteKeepsElement(s: State, w: World, a: Addr, e: Entry, v: Word)
    requires Whole(s, w) && s.env.xl(a) !in w.data && e in s.entries && e.isPatched && e.phys == s.env.xl(a)
    ensures Emitted(View(Updated(s.mem, s.env.xl(a), v), s.env.xl), s.env.plat, e)
  {
    hide Whole, LaidOut, Assumed, Steady, Reachable, Emitted, OwnCells, View;
    var m := Updated(s.mem, s.env.xl(a), v);
    var i :| 0 <= i < |s.entries| && s.entries[i] == e;
    ElementFacts(s, w, e, a);
    WholeIsSteady(s, w);
    forall c | c in OwnCells(e)
      ensures View(s.mem, s.env.xl)(c) == View(m, s.env.xl)(c)
    {
      CellIsData(s, w, i, c);
      ViewAt(s.mem, s.env.xl, c);
      ViewAt(m, s.env.xl, c);
    }
    TrampolineAllocated(s, w, i);
    EmittedFrame(View(s.mem, s.env.xl), View(m, s.env.xl), s.env.plat, e);
  }

  /**
   Calling through the buffer of the `k`-th patch applied to a function goes where a call of the
   function went just before that patch was applied; and it does so with the same visible state,
   unless the original instruction is reached in the 5-word form and its effect depends on CTR.
   */
  lemma CallThroughBuffer(s: State, w: World, st: Stacks, sem: Semantics, a: Addr, k: nat, c: Cpu) returns (n: nat, m: nat)
    requires Carries(s, w, st) && s.env.xl(a) !in w.data && k < |st(s.env.xl(a))|
    requires c.pc == st(s.env.xl(a))[k].jumpToOriginal && Aligned(Next(a))
    requires Displaceable(sem, w.pristine(s.env.xl(a))) && s.env.xl(s.env.plat.UpidCell()) != s.env.xl(a)
    ensures var x, es := w.pristine(s.env.xl(a)), st(s.env.xl(a));
            var d, d' := Run(View(s.mem, s.env.xl), sem, c, n), Run(View(Before(s, es[k]), s.env.xl), sem, c.(pc := a), m);
            var j := Chosen(es, Upid(s), k);
            && -1 <= j < k && d.pc == d'.pc == Destination(a, es, j)
            && (SameVisible(d, d') <==>
                  || j >= 0
                  || Short(Next(a))
                  || SameVisible(sem(x, c.(ctr := Next(a))), sem(x, c)))
  {
    hide Whole, View, Displaceable, Run, Chosen, Next, Aligned, SameVisible, StackBodies, LoadedCell, Linked, Destination;
    var es := st(s.env.xl(a));
    var cell := s.env.plat.UpidCell();
    StackIsInMemory(s, w, st, a);
    LowerStackBefore(s, w, st, a, k);
    assert CarriesAt(s, w, es, s.env.xl(a));
    ViewAt(s.mem, s.env.xl, cell);
    ViewAt(Before(s, es[k]), s.env.xl, cell);
    n, m := SavedPointerIsOldCall(View(s.mem, s.env.xl), View(Before(s, es[k]), s.env.xl), sem, s.env.plat,
                                  w.pristine(s.env.xl(a)), a, es, k, c);
  }

  // ----- a removal and the stack built anew -----

  /** Patching any entries leaves data outside their buffers and pointer cells alone. */
  lemma {:induction false} PatchManyLeaves(s: State, w: World, idxs: seq<nat>, p: Addr)
    requires Whole(s, w) && IndicesOf(idxs, |s.entries|) && p in w.data
    requires forall i :: 0 <= i < |s.entries| ==> !InFootprint(s.env, s.entries[i], p)
    ensures PatchMany(s, idxs).Some? && PatchMany(s, idxs).value.mem(p) == s.mem(p)
    decreases |idxs|
  {
    hide Whole, Steady, PatchEntry, SiteOf, PatchedState, SameShape, SameConfig, Waiting, InFootprint;
    if idxs != [] {
      WholeIsSteady(s, w);
      var s' := PatchAny(s, w, idxs[0]);
      PatchAnyLeaves(s, w, idxs[0], s', p);
      forall i: nat | i < |s.entries|
        ensures !InFootprint(s'.env, s'.entries[i], p)
      {
        SameFootprint(s.env, s.entries[i], s'.entries[i], p);
      }
      PatchManyLeaves(s', w, idxs[1..], p);
    }
  }

  lemma PatchAnyLeaves(s: State, w: World, k: nat, s': State, p: Addr)
    requires Steady(s, w) && k < |s.entries| && p in w.data && !InFootprint(s.env, s.entries[k], p)
    requires var site := SiteOf(s.env, w.pristine, s.entries[k]);
             s' == if Waiting(s, w, k) then PatchedState(s, k, site.eff, site.phys) else s
    ensures s'.mem(p) == s.mem(p)
  {
    hide Steady, SiteOf, PatchWrites, Filled, InFootprint;
    if Waiting(s, w, k) {
      var site := SiteOf(s.env, w.pristine, s.entries[k]);
      PatchOneCode(s, w, k, s', p);
      TargetIsCode(s, w, k, site.eff, site.phys);
    }
  }

  /** So does a removal. */
  lemma RemovalLeaves(s: State, w: World, k: nat, guardFirst: bool, p: Addr)
    requires Whole(s, w) && k < |s.entries| && p in w.data
    requires forall i :: 0 <= i < |s.entries| ==> !InFootprint(s.env, s.entries[i], p)
    ensures Remove(s, k, guardFirst).Some? && Remove(s, k, guardFirst).value.mem(p) == s.mem(p)
  {
    hide Whole, Unstacked, Erase, PatchMany, LaterFrom, InFootprint, OffOrSame, BlocksOf, SameConfig;
    var s1 := Unstacked(s, k);
    var s2 := s1.(entries := Erase(s1.entries, k));
    UnstackedKeepsWhole(s, w, k);
    OffOrSameConfig(s.entries, s1.entries);
    EraseKeepsWhole(s1, s2, w, k);
    ErasedLength(s1.entries, k);
    forall i: nat | i < |s2.entries|
      ensures !InFootprint(s2.env, s2.entries[i], p)
    {
      ErasedAt(s1.entries, k, i);
      SameFootprint(s.env, s.entries[OldIndex(k, i)], s1.entries[OldIndex(k, i)], p);
    }
    PatchManyLeaves(s2, w, Shifted(LaterFrom(s.entries, k, k + 1)), p);
  }

  /** And so does building anew. */
  lemma RebuildingLeaves(s: State, w: World, p: Addr)
    requires Assumed(s, w) && LaidOut(s, w) && p in w.data
    requires forall i :: 0 <= i < |s.entries| ==> !InFootprint(s.env, s.entries[i], p)
    ensures Rebuilt(s, w).Some? && Rebuilt(s, w).value.mem(p) == s.mem(p)
  {
    hide Assumed, LaidOut, Pre, Whole, Ordered, InFootprint, PatchMany;
    var b := Blank(s, w);
    BlankIsPre(s, w);
    PreIsWhole(b, w);
    forall i: nat | i < |b.entries|
      ensures !InFootprint(b.env, b.entries[i], p)
    {
      SameFootprint(s.env, s.entries[i], b.entries[i], p);
    }
    PatchManyLeaves(b, w, Upto(|b.entries|), p);
  }

  /** The process id is found in both states, if it is kept outside of all buffers and pointer cells. */
  lemma SameUpid(s: State, w: World, k: nat)
    requires Inv(s, w) && k < |s.entries|
    requires forall i :: 0 <= i < |s.entries| ==> !InFootprint(s.env, s.entries[i], s.env.xl(s.env.plat.UpidCell()))
    requires Remove(s, k, true).Some? && Rebuilt(Without(s, k), w).Some?
    requires Agree(Remove(s, k, true).value, Rebuilt(Without(s, k), w).value, w)
    requires Remove(s, k, true).value.env == s.env && Rebuilt(Without(s, k), w).value.env == s.env
    ensures Upid(Remove(s, k, true).value) == Upid(Rebuilt(Without(s, k), w).value)
  {
    hide Pre, Whole, Waiting, Remove, Rebuilt, InFootprint, Erase, View, LoadedCell, SamePatched, LaidOut, Assumed;
    var p, cell := s.env.xl(s.env.plat.UpidCell()), s.env.plat.UpidCell();
    var r, b := Remove(s, k, true).value, Rebuilt(Without(s, k), w).value;
    ViewAt(r.mem, s.env.xl, cell);
    ViewAt(b.mem, s.env.xl, cell);
    if p in w.data {
      PreIsWhole(s, w);
      RemovalLeaves(s, w, k, true, p);
      WithoutIsLaidOut(s, w, k);
      ErasedLength(s.entries, k);
      forall i: nat | i < |Without(s, k).entries|
        ensures !InFootprint(s.env, Without(s, k).entries[i], p)
      {
        ErasedAt(s.entries, k, i);
      }
      RebuildingLeaves(Without(s, k), w, p);
    }
  }

  lemma WithoutIsLaidOut(s: State, w: World, k: nat)
    requires Whole(s, w) && k < |s.entries|
    ensures Assumed(Without(s, k), w) && LaidOut(Without(s, k), w)
  {
    hide Whole, Assumed, LaidOut, Erase;
    WholeIsSteady(s, w);
    EraseKeepsLayout(s, Without(s, k), w, k);
  }

  /** Every word of the executable buffers of patched entries is the same. */
  ghost predicate SameBufferWords(s: State, t: State) {
    forall i, n: nat :: 0 <= i < |s.entries| && s.entries[i].isPatched ==> SameWordsOf(s, t, s.entries[i], n)
  }

  /** ... word `n` of each buffer, if the generators emit so many. */
  predicate SameWordsOf(s: State, t: State, e: Entry, n: nat) {
    var v, v' := View(s.mem, s.env.xl), View(t.mem, t.env.xl);
    && (n < |JumpToOriginalWords(e.eff, e.replaced)| ==>
          v(Advance(e.jumpToOriginal, n)) == v'(Advance(e.jumpToOriginal, n)))
    && (NeedsTrampoline(e.process, e.repl) && n < |TrampolineWords(e.process, s.env.plat, e.eff, e.replaced, e.repl)| ==>
          v(Advance(e.jumpData, n)) == v'(Advance(e.jumpData, n)))
  }

  /**
   Removal as intended and the stack built anew from the other patches: code, flags and saved words
   agree, every word of the executable buffers is the same, and a call of any function arrives at the
   same place with the same visible state.
   */
  lemma RemovalBehavesAsRebuilt(s: State, w: World, k: nat, sem: Semantics, a: Addr, c: Cpu) returns (n: nat, n': nat)
    requires Inv(s, w) && k < |s.entries| && s.env.xl(a) !in w.data && c.pc == a && Aligned(Next(a))
    requires Displaceable(sem, w.pristine(s.env.xl(a)))
    requires forall i :: 0 <= i < |s.entries| ==> !InFootprint(s.env, s.entries[i], s.env.xl(s.env.plat.UpidCell()))
    ensures Remove(s, k, true).Some? && Rebuilt(Without(s, k), w).Some?
    ensures var r, b := Remove(s, k, true).value, Rebuilt(Without(s, k), w).value;
            var es := On(r.entries, s.env.xl(a));
            var d, d' := Run(View(r.mem, r.env.xl), sem, c, n), Run(View(b.mem, b.env.xl), sem, c, n');
            && Agree(r, b, w) && SameBufferWords(r, b)
            && Dispatches(r, w, sem, a, c, es, n) && Dispatches(b, w, sem, a, c, es, n')
            && d.pc == d'.pc && SameVisible(d, d')
  {
    hide *;
    var r, b := RemovedAndRebuilt(s, w, k);
    SameUpid(s, w, k);
    BuffersAgree(r, b, w);
    OnAgrees(r, b, w, s.env.xl(a));
    InvIsOrdered(r, w);
    InvIsOrdered(b, w);
    n := CallOfAnyFunction(r, w, sem, a, c);
    n' := CallOfAnyFunction(b, w, sem, a, c);
    DispatchesAlike(r, b, w, sem, a, c, On(r.entries, s.env.xl(a)), n, n');
  }

  lemma RemovedAndRebuilt(s: State, w: World, k: nat) returns (r: State, b: State)
    requires Inv(s, w) && k < |s.entries|
    ensures Remove(s, k, true) == Some(r) && Rebuilt(Without(s, k), w) == Some(b)
    ensures Agree(r, b, w) && Inv(r, w) && Inv(b, w) && r.env == s.env && b.env == s.env
  {
    hide Inv, Whole, Remove, Rebuilt, Agree, SamePatches, Waiting, BeforeReapply, Erase, Assumed, LaidOut;
    IntendedRemovalKeepsInv(s, w, k);
    RemovalIsRebuilding(s, w, k);
    InvIsOrdered(s, w);
    PreIsWhole(s, w);
    WithoutIsLaidOut(s, w, k);
    RebuiltIsInv(Without(s, k), w);
    r, b := Remove(s, k, true).value, Rebuilt(Without(s, k), w).value;
  }

  lemma BuffersAgree(r: State, b: State, w: World)
    requires Inv(r, w) && Inv(b, w) && r.env == b.env && Agree(r, b, w)
    ensures SameBufferWords(r, b)
  {
    hide Inv, Agree, View, JumpToOriginalWords, TrampolineWords, NeedsTrampoline, Advance;
    forall i, n: nat | 0 <= i < |r.entries| && r.entries[i].isPatched
      ensures SameWordsOf(r, b, r.entries[i], n)
    {
      InvariantDeterminesBuffers(r, b, w, i, n);
    }
  }

  lemma OnAgrees(r: State, b: State, w: World, p: Addr)
    requires Agree(r, b, w)
    ensures On(r.entries, p) == On(b.entries, p)
  {
    hide SamePatched, On;
    OnSamePatched(r.entries, b.entries, p);
  }

  lemma DispatchesAlike(r: State, b: State, w: World, sem: Semantics, a: Addr, c: Cpu, es: seq<Entry>, n: nat, n': nat)
    requires r.env == b.env && Upid(r) == Upid(b)
    requires Dispatches(r, w, sem, a, c, es, n) && Dispatches(b, w, sem, a, c, es, n')
    ensures var d, d' := Run(View(r.mem, r.env.xl), sem, c, n), Run(View(b.mem, b.env.xl), sem, c, n');
            d.pc == d'.pc && SameVisible(d, d')
  {
    hide View, Run, Upid, Chosen, Destination, Arrival;
  }
}
