/**
 Patching the next waiting entry, and restoring the last patched entry of an address, keep the
 invariant of module `Chain`.
 */
module Keeping {
  import opened Words
  import opened Machine
  import opened CodeGen
  import opened Loading
  import opened Dispatch
  import opened PatchStack
  import opened Writing
  import opened Chain

  // ----- patching -----

  /** Entry `k` is about to be patched at this site. */
  ghost predicate About(s: State, w: World, k: nat, eff: Addr, phys: Addr) {
    && Steady(s, w) && k < |s.entries|
    && !s.entries[k].isPatched && SiteOf(s.env, w.pristine, s.entries[k]) == Resolved(eff, phys)
  }

  /** No entry from position `k` on is patched at this address. */
  ghost predicate NonePatchedAbove(s: State, k: nat, phys: Addr) {
    forall j :: k <= j < |s.entries| ==> !(s.entries[j].isPatched && s.entries[j].phys == phys)
  }

  /** No entry before position `k` is waiting to be patched at this address. */
  ghost predicate NoneWaitsBelow(s: State, w: World, k: nat, phys: Addr)
    requires k <= |s.entries|
  {
    forall i :: 0 <= i < k ==> !(Waiting(s, w, i) && GoesTo(s.env, w.pristine, s.entries[i], phys))
  }

  function PatchedEntry(s: State, k: nat, eff: Addr, phys: Addr): Entry
    requires k < |s.entries|
  {
    Filled(s.entries[k], eff, phys, s.mem(phys))
  }

  function PatchedState(s: State, k: nat, eff: Addr, phys: Addr): State
    requires k < |s.entries|
  {
    var e := PatchedEntry(s, k, eff, phys);
    s.(mem := Apply(s.mem, PatchWrites(s.env, e)), entries := s.entries[k := e])
  }

  /** Filling in an entry changes nothing that its site or its layout depends on. */
  lemma FilledKeepsSite(env: Env, mem: Memory, e: Entry, eff: Addr, phys: Addr, found: Word)
    requires SiteOf(env, mem, e) == Resolved(eff, phys)
    ensures SiteOf(env, mem, Filled(e, eff, phys, found)) == SiteOf(env, mem, e)
  {
    hide Lookup, ReplacementWord;
  }

  lemma FilledKeepsLayout(env: Env, w: World, e: Entry, eff: Addr, phys: Addr, found: Word)
    ensures EntryLaidOut(env, w, Filled(e, eff, phys, found)) <==> EntryLaidOut(env, w, e)
    ensures OwnCells(Filled(e, eff, phys, found)) == OwnCells(e)
  {
    hide ReplacementWord, Cells, Short, Aligned;
  }

  /** What PatchFunction does with an entry is decided by where its target resolves to in the original memory. */
  lemma PatchEntryCases(s: State, w: World, k: nat)
    requires Steady(s, w) && k < |s.entries|
    ensures var site := SiteOf(s.env, w.pristine, s.entries[k]);
            PatchEntry(s, k) == Some(if !s.entries[k].isPatched && site.Resolved?
                                     then PatchedState(s, k, site.eff, site.phys) else s)
  {
    ResolutionIsStable(s, w, k);
    assert SiteSound(s.env, w, s.entries[k]) && EntryLaidOut(s.env, w, s.entries[k]);
    hide SiteOf, PatchWrites, Filled, PlainCode;
  }

  /** A list that agrees with `s` in all that sites and layouts depend on. */
  ghost predicate SameShape(env: Env, pristine: Memory, es: seq<Entry>, fs: seq<Entry>) {
    && |es| == |fs|
    && forall i :: 0 <= i < |es| ==> SameSite(env, pristine, es[i], fs[i]) && SameBuffers(es[i], fs[i])
  }

  ghost predicate SameSite(env: Env, pristine: Memory, e: Entry, f: Entry) {
    e.target == f.target && SiteOf(env, pristine, e) == SiteOf(env, pristine, f)
  }

  predicate SameBuffers(e: Entry, f: Entry) {
    && e.process == f.process && e.repl == f.repl && e.realCall == f.realCall
    && e.jumpData == f.jumpData && e.jumpToOriginal == f.jumpToOriginal
  }

  lemma SameBuffersSameLayout(env: Env, w: World, e: Entry, f: Entry)
    requires SameBuffers(e, f)
    ensures EntryLaidOut(env, w, e) <==> EntryLaidOut(env, w, f)
    ensures OwnCells(e) == OwnCells(f) && e.realCall == f.realCall
  {
    hide Cells, Short, Aligned;
  }

  lemma SameShapeKeeps(s: State, s': State, w: World)
    requires Assumed(s, w) && LaidOut(s, w) && s'.env == s.env
    requires SameShape(s.env, w.pristine, s.entries, s'.entries)
    ensures Assumed(s', w) && LaidOut(s', w)
  {
    var es, fs := s.entries, s'.entries;
    forall i | 0 <= i < |fs|
      ensures SiteSound(s'.env, w, fs[i])
    {
      assert SiteSound(s.env, w, es[i]) && SameSite(s.env, w.pristine, es[i], fs[i]);
      hide SiteOf, EntryLaidOut, OwnCells, Injective, LaidOut;
    }
    LayoutKept(s, s', w);
  }

  lemma LayoutKept(s: State, s': State, w: World)
    requires LaidOut(s, w) && s'.env == s.env
    requires SameShape(s.env, w.pristine, s.entries, s'.entries)
    ensures LaidOut(s', w)
  {
    hide SameSite, SameBuffers, EntryLaidOut, OwnCells;
    forall i | 0 <= i < |s'.entries|
      ensures EntryLaidOut(s'.env, w, s'.entries[i])
      ensures OwnCells(s'.entries[i]) == OwnCells(s.entries[i]) && s'.entries[i].realCall == s.entries[i].realCall
    {
      assert EntryLaidOut(s.env, w, s.entries[i]) && SameBuffers(s.entries[i], s'.entries[i]);
      SameBuffersSameLayout(s.env, w, s.entries[i], s'.entries[i]);
    }
  }

  lemma UpdateKeepsShape(env: Env, pristine: Memory, es: seq<Entry>, k: nat, e: Entry)
    requires k < |es| && SameSite(env, pristine, es[k], e) && SameBuffers(es[k], e)
    ensures SameShape(env, pristine, es, es[k := e])
  {
    hide SiteOf;
  }

  lemma FilledHasSameShape(env: Env, pristine: Memory, e: Entry, eff: Addr, phys: Addr, found: Word)
    requires SiteOf(env, pristine, e) == Resolved(eff, phys)
    ensures SameSite(env, pristine, e, Filled(e, eff, phys, found)) && SameBuffers(e, Filled(e, eff, phys, found))
  {
    FilledKeepsSite(env, pristine, e, eff, phys, found);
    hide SiteOf, ReplacementWord;
  }

  lemma PatchKeepsAssumed(s: State, w: World, k: nat, eff: Addr, phys: Addr)
    requires k < |s.entries| && About(s, w, k, eff, phys)
    ensures var s' := PatchedState(s, k, eff, phys); Assumed(s', w) && LaidOut(s', w)
  {
    FilledHasSameShape(s.env, w.pristine, s.entries[k], eff, phys, s.mem(phys));
    hide SiteOf, SameSite, SameBuffers, Filled, PatchWrites, SameShape, PlainCode, Assumed, LaidOut;
    UpdateKeepsShape(s.env, w.pristine, s.entries, k, PatchedEntry(s, k, eff, phys));
    SameShapeKeeps(s, PatchedState(s, k, eff, phys), w);
  }

  /** Nothing behind an entry that is about to be patched is patched at its address. */
  lemma NoneAbove(s: State, w: World, k: nat, eff: Addr, phys: Addr)
    requires k < |s.entries| && About(s, w, k, eff, phys) && Ordered(s, w)
    ensures NonePatchedAbove(s, k, phys)
  {
    hide SiteOf, PlainCode, Assumed, LaidOut;
  }

  /** Turning on an entry behind which nothing is patched at its address puts it on top there. */
  lemma OnPushed(es: seq<Entry>, k: nat, e: Entry, a: Addr)
    requires k < |es| && !es[k].isPatched && e.isPatched
    requires forall j :: k <= j < |es| ==> !(es[j].isPatched && es[j].phys == e.phys)
    ensures On(es[k := e], a) == On(es, a) + if a == e.phys then [e] else []
  {
    OnUpdated(es, k, e, a);
    OnSplit(es, k, a);
    if a == e.phys {
      OnNone(es[k + 1..], a);
    }
  }

  /** The patched entries on each address after entry `k` is patched: its own address has one more, on top. */
  lemma OnPatched(s: State, w: World, k: nat, eff: Addr, phys: Addr, a: Addr)
    requires k < |s.entries| && About(s, w, k, eff, phys) && NonePatchedAbove(s, k, phys)
    ensures On(PatchedState(s, k, eff, phys).entries, a)
         == On(s.entries, a) + if a == phys then [PatchedEntry(s, k, eff, phys)] else []
  {
    hide SiteOf, Steady, PatchWrites, ReplacementWord, On;
    OnPushed(s.entries, k, PatchedEntry(s, k, eff, phys), a);
  }

  lemma LinkedMore(x: Word, es: seq<Entry>, e: Entry)
    requires Linked(x, es) && e.replaced == Below(x, es, |es|)
    ensures Linked(x, es + [e]) && Below(x, es + [e], |es| + 1) == e.replaceWith
  {
    var all := es + [e];
    forall i | 0 <= i < |all|
      ensures all[i].replaced == Below(x, all, i)
    {
      BelowMore(x, es, e, i);
    }
  }

  lemma BelowMore(x: Word, es: seq<Entry>, e: Entry, i: nat)
    requires i <= |es|
    ensures Below(x, es + [e], i) == Below(x, es, i)
    ensures (es + [e])[i] == if i < |es| then es[i] else e
  {
  }

  lemma TargetIsCode(s: State, w: World, k: nat, eff: Addr, phys: Addr)
    requires k < |s.entries| && About(s, w, k, eff, phys)
    ensures phys !in w.data && s.env.xl(eff) == phys && eff != 0 && phys != 0
    ensures Restorable(w.pristine(phys))
    ensures EntryLaidOut(s.env, w, PatchedEntry(s, k, eff, phys)) && Injective(s.env.xl) && 0 !in w.data
  {
    assert SiteSound(s.env, w, s.entries[k]);
    assert EntryLaidOut(s.env, w, s.entries[k]);
    FilledKeepsLayout(s.env, w, s.entries[k], eff, phys, s.mem(phys));
    hide SiteOf, PlainCode, EntryLaidOut, Injective, IsRelativeBranch;
  }

  lemma PatchedCodeMemory(s: State, w: World, k: nat, eff: Addr, phys: Addr, a: Addr)
    requires k < |s.entries| && About(s, w, k, eff, phys) && a !in w.data
    ensures PatchedState(s, k, eff, phys).mem(a)
         == if a == phys then PatchedEntry(s, k, eff, phys).replaceWith else s.mem(a)
  {
    TargetIsCode(s, w, k, eff, phys);
    hide Steady, SiteOf, ReplacementWord, Cells, OwnCells, PatchWrites, Short, Aligned;
    PatchedMemory(s.env, s.mem, PatchedEntry(s, k, eff, phys), a);
  }

  lemma PatchKeepsChained(s: State, w: World, k: nat, eff: Addr, phys: Addr)
    requires k < |s.entries| && About(s, w, k, eff, phys) && Chained(s, w) && NonePatchedAbove(s, k, phys)
    ensures Chained(PatchedState(s, k, eff, phys), w)
  {
    hide About, NonePatchedAbove, ChainAt, PatchedState;
    forall a | a !in w.data
      ensures ChainAt(PatchedState(s, k, eff, phys).mem, w.pristine, PatchedState(s, k, eff, phys).entries, a)
    {
      PatchKeepsChainAt(s, w, k, eff, phys, a);
    }
  }

  lemma PatchKeepsChainAt(s: State, w: World, k: nat, eff: Addr, phys: Addr, a: Addr)
    requires k < |s.entries| && About(s, w, k, eff, phys) && NonePatchedAbove(s, k, phys)
    requires a !in w.data && ChainAt(s.mem, w.pristine, s.entries, a)
    ensures ChainAt(PatchedState(s, k, eff, phys).mem, w.pristine, PatchedState(s, k, eff, phys).entries, a)
  {
    hide SiteOf, Steady, PatchWrites, ReplacementWord, Linked, On, NonePatchedAbove;
    OnPatched(s, w, k, eff, phys, a);
    PatchedCodeMemory(s, w, k, eff, phys, a);
    if a == phys {
      LinkedMore(w.pristine(a), On(s.entries, a), PatchedEntry(s, k, eff, phys));
    } else {
      assert On(s.entries, a) + [] == On(s.entries, a);
    }
  }

  lemma PatchKeepsLocated(s: State, w: World, k: nat, eff: Addr, phys: Addr)
    requires k < |s.entries| && About(s, w, k, eff, phys) && Located(s, w)
    ensures Located(PatchedState(s, k, eff, phys), w)
  {
    FilledKeepsSite(s.env, w.pristine, s.entries[k], eff, phys, s.mem(phys));
    hide SiteOf, Steady, PatchWrites, ReplacementWord;
  }

  lemma PatchKeepsOrdered(s: State, w: World, k: nat, eff: Addr, phys: Addr)
    requires k < |s.entries| && About(s, w, k, eff, phys) && Ordered(s, w)
    requires NoneWaitsBelow(s, w, k, phys)
    ensures Ordered(PatchedState(s, k, eff, phys), w)
  {
    FilledKeepsSite(s.env, w.pristine, s.entries[k], eff, phys, s.mem(phys));
    assert forall i :: 0 <= i < k && GoesTo(s.env, w.pristine, s.entries[i], phys) ==> s.entries[i].isPatched by {
      hide SiteOf, Steady, Ordered;
    }
    hide SiteOf, Steady, PatchWrites, ReplacementWord, NoneWaitsBelow, Ordered;
    UpdateKeepsOrdered(s, PatchedState(s, k, eff, phys), w, k, PatchedEntry(s, k, eff, phys));
  }

  lemma UpdateKeepsOrdered(s: State, s': State, w: World, k: nat, e: Entry)
    requires Ordered(s, w) && k < |s.entries| && s'.env == s.env && s'.entries == s.entries[k := e]
    requires e.isPatched && SiteOf(s.env, w.pristine, e) == SiteOf(s.env, w.pristine, s.entries[k])
    requires forall i :: 0 <= i < k && GoesTo(s.env, w.pristine, s.entries[i], e.phys) ==> s.entries[i].isPatched
    ensures Ordered(s', w)
  {
    hide SiteOf;
    forall i, j | 0 <= i < j < |s'.entries| && s'.entries[j].isPatched && GoesTo(s'.env, w.pristine, s'.entries[i], s'.entries[j].phys)
      ensures s'.entries[i].isPatched
    {
      if i != k {
        assert GoesTo(s.env, w.pristine, s.entries[i], s'.entries[j].phys);
      }
    }
  }

  /** The word found by a patch can be put back. */
  lemma FoundIsRestorable(s: State, w: World, a: Addr)
    requires Steady(s, w) && a !in w.data && Restorable(w.pristine(a))
    ensures Restorable(s.mem(a))
  {
    hide LaidOut, Assumed, IsRelativeBranch;
    assert PlainAt(s.mem, w.pristine, a);
  }

  lemma PatchKeepsPlainCode(s: State, w: World, k: nat, eff: Addr, phys: Addr)
    requires k < |s.entries| && About(s, w, k, eff, phys)
    ensures PlainCode(PatchedState(s, k, eff, phys), w)
  {
    TargetIsCode(s, w, k, eff, phys);
    hide LaidOut, Assumed, IsRelativeBranch, SiteOf, PatchWrites, Ba, NeedsTrampoline;
    var e, s' := PatchedEntry(s, k, eff, phys), PatchedState(s, k, eff, phys);
    forall a | a !in w.data
      ensures PlainAt(s'.mem, w.pristine, a)
    {
      PatchedCodeMemory(s, w, k, eff, phys, a);
      assert PlainAt(s.mem, w.pristine, a);
      BaIsNotZeroNorRelative(if NeedsTrampoline(e.process, e.repl) then e.jumpData else e.repl);
      BaIsNotFollowed(if NeedsTrampoline(e.process, e.repl) then e.jumpData else e.repl);
    }
  }

  lemma PatchKeepsWordsRight(s: State, w: World, k: nat, eff: Addr, phys: Addr)
    requires k < |s.entries| && About(s, w, k, eff, phys) && WordsRight(s)
    ensures WordsRight(PatchedState(s, k, eff, phys))
  {
    TargetIsCode(s, w, k, eff, phys);
    FoundIsRestorable(s, w, phys);
    FilledIsReachable(s, w, k, eff, phys);
    hide Steady, SiteOf, PatchWrites, ReplacementWord, Reachable, BuffersUsable, EntryLaidOut, Restorable;
    var e := PatchedEntry(s, k, eff, phys);
    assert e.replaced == s.mem(phys);
    UpdateKeepsWordsRight(s, PatchedState(s, k, eff, phys), k, e);
  }

  lemma UpdateKeepsWordsRight(s: State, s': State, k: nat, e: Entry)
    requires k < |s.entries| && s'.entries == s.entries[k := e]
    requires WordsRight(s) && (e.isPatched ==> Reachable(e) && Restorable(e.replaced))
    ensures WordsRight(s')
  {
    hide Reachable, Restorable;
  }

  lemma FilledIsReachable(s: State, w: World, k: nat, eff: Addr, phys: Addr)
    requires k < |s.entries| && About(s, w, k, eff, phys)
    ensures Reachable(PatchedEntry(s, k, eff, phys))
  {
    TargetIsCode(s, w, k, eff, phys);
    hide Steady, SiteOf, Short, Aligned, Cells;
  }

  lemma PatchKeepsBuffersFilled(s: State, w: World, k: nat, eff: Addr, phys: Addr)
    requires k < |s.entries| && About(s, w, k, eff, phys) && BuffersFilled(s)
    ensures BuffersFilled(PatchedState(s, k, eff, phys))
  {
    hide About, PatchedEntry, PatchWrites, Emitted, View;
    var s' := PatchedState(s, k, eff, phys);
    forall i | 0 <= i < |s'.entries| && s'.entries[i].isPatched
      ensures Emitted(View(s'.mem, s'.env.xl), s'.env.plat, s'.entries[i])
    {
      if i == k {
        OwnBuffersFilled(s, w, k, eff, phys);
      } else {
        OtherBuffersKept(s, w, k, eff, phys, i);
      }
    }
  }

  lemma OwnBuffersFilled(s: State, w: World, k: nat, eff: Addr, phys: Addr)
    requires k < |s.entries| && About(s, w, k, eff, phys)
    ensures var s' := PatchedState(s, k, eff, phys);
            Emitted(View(s'.mem, s'.env.xl), s'.env.plat, s'.entries[k])
  {
    TargetIsCode(s, w, k, eff, phys);
    var e := PatchedEntry(s, k, eff, phys);
    assert e.realCall !in OwnCells(e) by {
      assert LaidOut(s, w);
      FilledKeepsLayout(s.env, w, s.entries[k], eff, phys, s.mem(phys));
    }
    hide Steady, SiteOf, ReplacementWord, PatchWrites, Cells, OwnCells, EntryLaidOut, View, Holds, JumpToOriginalWords, TrampolineWords, NeedsTrampoline;
    JumpToOriginalFilled(s.env, w, s.mem, e);
    if NeedsTrampoline(e.process, e.repl) {
      TrampolineFilled(s.env, w, s.mem, e);
    }
  }

  lemma OtherBuffersKept(s: State, w: World, k: nat, eff: Addr, phys: Addr, i: nat)
    requires k < |s.entries| && About(s, w, k, eff, phys) && i < |s.entries| && i != k && s.entries[i].isPatched
    requires BuffersFilled(s)
    ensures var s' := PatchedState(s, k, eff, phys);
            Emitted(View(s'.mem, s'.env.xl), s'.env.plat, s.entries[i])
  {
    var e, f := PatchedEntry(s, k, eff, phys), s.entries[i];
    TargetIsCode(s, w, k, eff, phys);
    FilledKeepsLayout(s.env, w, s.entries[k], eff, phys, s.mem(phys));
    assert EntryLaidOut(s.env, w, f) && Emitted(View(s.mem, s.env.xl), s.env.plat, f);
    assert OwnCells(e) !! OwnCells(f) && e.realCall !in OwnCells(f) by { assert LaidOut(s, w); }
    hide Steady;
    ApartKeepsEmitted(s.env, w, s.mem, e, f);
  }

  lemma ApartKeepsEmitted(env: Env, w: World, mem: Memory, e: Entry, f: Entry)
    requires Injective(env.xl) && 0 !in w.data && EntryLaidOut(env, w, e) && EntryLaidOut(env, w, f) && e.phys !in w.data
    requires OwnCells(e) !! OwnCells(f) && e.realCall !in OwnCells(f)
    requires Emitted(View(mem, env.xl), env.plat, f)
    ensures Emitted(View(Apply(mem, PatchWrites(env, e)), env.xl), env.plat, f)
  {
    hide PatchWrites, Cells, OwnCells, View, Emitted, Short, Aligned;
    var mem' := Apply(mem, PatchWrites(env, e));
    var v, v' := View(mem, env.xl), View(mem', env.xl);
    forall c | c in OwnCells(f)
      ensures v(c) == v'(c)
    {
      assert env.xl(c) in w.data && env.xl(c) != 0;
      PatchedMemory(env, mem, e, env.xl(c));
      ViewAt(mem, env.xl, c);
      ViewAt(mem', env.xl, c);
    }
    EmittedFrame(v, v', env.plat, f);
  }

  /** Patching any entry keeps everything but the chains. */
  lemma PatchKeepsWhole(s: State, w: World, k: nat, eff: Addr, phys: Addr)
    requires k < |s.entries| && About(s, w, k, eff, phys)
    ensures Steady(PatchedState(s, k, eff, phys), w)
    ensures Whole(s, w) ==> Whole(PatchedState(s, k, eff, phys), w)
    ensures forall i :: 0 <= i < |s.entries| ==>
      (Waiting(PatchedState(s, k, eff, phys), w, i) <==> Waiting(s, w, i) && i != k)
  {
    hide SiteOf, Located, WordsRight, BuffersFilled, Assumed, LaidOut, PlainCode, PatchWrites, ReplacementWord;
    PatchKeepsAssumed(s, w, k, eff, phys);
    PatchKeepsPlainCode(s, w, k, eff, phys);
    if Whole(s, w) {
      PatchKeepsLocated(s, w, k, eff, phys);
      PatchKeepsWordsRight(s, w, k, eff, phys);
      PatchKeepsBuffersFilled(s, w, k, eff, phys);
    }
  }

  /** Patching an entry above which none is patched at its address keeps the chains, too. */
  lemma PatchKeepsPre(s: State, w: World, k: nat, eff: Addr, phys: Addr)
    requires k < |s.entries| && About(s, w, k, eff, phys)
    requires Pre(s, w) && NonePatchedAbove(s, k, phys)
    ensures Pre(PatchedState(s, k, eff, phys), w)
  {
    PreIsWhole(s, w);
    hide SiteOf, Chained, Located, WordsRight, BuffersFilled, Assumed, LaidOut, PlainCode, PatchWrites, ReplacementWord, NonePatchedAbove;
    PatchKeepsWhole(s, w, k, eff, phys);
    PatchKeepsChained(s, w, k, eff, phys);
  }

  // ----- restoring -----

  /** Entry `k` is patched, and no entry behind it is patched at its address. */
  ghost predicate OnTop(s: State, w: World, k: nat) {
    && Pre(s, w) && k < |s.entries| && s.entries[k].isPatched
    && forall j :: k < j < |s.entries| ==> !(s.entries[j].isPatched && s.entries[j].phys == s.entries[k].phys)
  }

  function Off(e: Entry): Entry {
    e.(isPatched := false)
  }

  function RestoredState(s: State, k: nat): State
    requires k < |s.entries|
  {
    s.(mem := Updated(s.mem, s.entries[k].phys, s.entries[k].replaced), entries := s.entries[k := Off(s.entries[k])])
  }

  /** Turning off the last patched entry of an address takes it from the top there. */
  lemma OnPopped(es: seq<Entry>, k: nat, a: Addr)
    requires k < |es| && es[k].isPatched
    requires forall j :: k < j < |es| ==> !(es[j].isPatched && es[j].phys == es[k].phys)
    ensures On(es, a) == On(es[k := Off(es[k])], a) + if a == es[k].phys then [es[k]] else []
  {
    OnUpdated(es, k, Off(es[k]), a);
    OnSplit(es, k, a);
    if a == es[k].phys {
      OnNone(es[k + 1..], a);
    }
  }

  lemma LinkedLess(x: Word, es: seq<Entry>, e: Entry)
    requires Linked(x, es + [e])
    ensures Linked(x, es) && e.replaced == Below(x, es, |es|) && Below(x, es + [e], |es| + 1) == e.replaceWith
  {
    assert (es + [e])[|es|].replaced == Below(x, es + [e], |es|);
    forall i | 0 <= i < |es|
      ensures es[i].replaced == Below(x, es, i)
    {
      assert (es + [e])[i].replaced == Below(x, es + [e], i);
    }
  }

  /** What is known of a patched entry, whatever the order of the patches. */
  lemma PatchedAnyhow(s: State, w: World, k: nat)
    requires Whole(s, w) && k < |s.entries| && s.entries[k].isPatched
    ensures var e := s.entries[k];
            && SiteOf(s.env, w.pristine, e) == Resolved(e.eff, e.phys)
            && e.eff != 0 && e.phys !in w.data && s.env.xl(e.eff) == e.phys
            && Restorable(e.replaced) && Reachable(e) && Restorable(w.pristine(e.phys))
            && s.env.readable && Injective(s.env.xl) && e.phys != 0
  {
    assert SiteSound(s.env, w, s.entries[k]);
    hide SiteOf, PlainCode, LaidOut, BuffersFilled, Injective, Reachable, IsRelativeBranch;
  }

  lemma PatchedFacts(s: State, w: World, k: nat)
    requires Pre(s, w) && k < |s.entries| && s.entries[k].isPatched
    ensures var e := s.entries[k];
            && SiteOf(s.env, w.pristine, e) == Resolved(e.eff, e.phys)
            && e.eff != 0 && e.phys !in w.data && s.env.xl(e.eff) == e.phys
            && Restorable(e.replaced) && Reachable(e) && Restorable(w.pristine(e.phys))
            && ChainAt(s.mem, w.pristine, s.entries, e.phys)
            && s.env.readable && Injective(s.env.xl) && e.phys != 0
  {
    hide Whole, Assumed, LaidOut, Located, WordsRight, BuffersFilled, SiteOf, ChainAt, Injective, Reachable, Restorable;
    PreIsWhole(s, w);
    PatchedAnyhow(s, w, k);
  }

  lemma TopOfChain(mem: Memory, pristine: Memory, es: seq<Entry>, k: nat)
    requires k < |es| && es[k].isPatched && ChainAt(mem, pristine, es, es[k].phys)
    requires forall j :: k < j < |es| ==> !(es[j].isPatched && es[j].phys == es[k].phys)
    ensures mem(es[k].phys) == es[k].replaceWith
    ensures ChainAt(Updated(mem, es[k].phys, es[k].replaced), pristine, es[k := Off(es[k])], es[k].phys)
  {
    var a, e, fs := es[k].phys, es[k], es[k := Off(es[k])];
    hide Linked, On;
    OnPopped(es, k, a);
    LinkedLess(pristine(a), On(fs, a), e);
  }

  /** The guards of RestoreFunction let the top of a stack pass, and the write goes to its target. */
  lemma RestoreTopGuards(s: State, w: World, k: nat)
    requires k < |s.entries| && OnTop(s, w, k)
    ensures s.mem(s.entries[k].phys) == s.entries[k].replaceWith
    ensures RestoreSucceeds(s, k) && RestoreEntry(s, k) == RestoredState(s, k)
  {
    hide Pre, SiteOf, Reachable, ChainAt, Injective, IsRelativeBranch;
    PatchedFacts(s, w, k);
    TopOfChain(s.mem, w.pristine, s.entries, k);
  }

  lemma OffHasSameShape(env: Env, pristine: Memory, e: Entry)
    ensures SameSite(env, pristine, e, Off(e)) && SameBuffers(e, Off(e))
  {
    hide Lookup;
  }

  lemma RestoreKeepsChained(s: State, w: World, k: nat)
    requires k < |s.entries| && OnTop(s, w, k)
    ensures Chained(RestoredState(s, k), w)
  {
    var s', e := RestoredState(s, k), s.entries[k];
    PatchedFacts(s, w, k);
    assert Chained(s, w);
    hide Pre, SiteOf, Reachable, ChainAt, Injective;
    forall a | a !in w.data
      ensures ChainAt(s'.mem, w.pristine, s'.entries, a)
    {
      if a == e.phys {
        TopOfChain(s.mem, w.pristine, s.entries, k);
      } else {
        ElsewhereInChain(s.mem, w.pristine, s.entries, k, a);
      }
    }
  }

  lemma ElsewhereInChain(mem: Memory, pristine: Memory, es: seq<Entry>, k: nat, a: Addr)
    requires k < |es| && es[k].isPatched && a != es[k].phys && ChainAt(mem, pristine, es, a)
    requires forall j :: k < j < |es| ==> !(es[j].isPatched && es[j].phys == es[k].phys)
    ensures ChainAt(Updated(mem, es[k].phys, es[k].replaced), pristine, es[k := Off(es[k])], a)
  {
    hide Linked, On;
    OnPopped(es, k, a);
    assert On(es[k := Off(es[k])], a) + [] == On(es[k := Off(es[k])], a);
  }

  lemma OffKeepsLocatedAndOrdered(s: State, s': State, w: World, k: nat)
    requires k < |s.entries| && s'.env == s.env && s'.entries == s.entries[k := Off(s.entries[k])]
    requires Located(s, w)
    requires forall j :: k < j < |s.entries| ==> !(s.entries[j].isPatched && s.entries[j].phys == s.entries[k].phys)
    requires SiteOf(s.env, w.pristine, s.entries[k]) == Resolved(s.entries[k].eff, s.entries[k].phys)
    ensures Located(s', w) && (Ordered(s, w) ==> Ordered(s', w))
  {
    OffHasSameShape(s.env, w.pristine, s.entries[k]);
    hide SiteOf, SameBuffers;
    if Ordered(s, w) {
      forall i, j | 0 <= i < j < |s'.entries| && s'.entries[j].isPatched && GoesTo(s'.env, w.pristine, s'.entries[i], s'.entries[j].phys)
        ensures s'.entries[i].isPatched
      {
        assert GoesTo(s.env, w.pristine, s.entries[i], s.entries[j].phys);
      }
    }
  }

  lemma CodeWriteKeepsBuffers(s: State, s': State, w: World, p: Addr, v: Word)
    requires BuffersFilled(s) && LaidOut(s, w) && p !in w.data
    requires s'.mem == Updated(s.mem, p, v) && s'.env == s.env && |s'.entries| == |s.entries|
    requires forall i :: 0 <= i < |s.entries| && s'.entries[i].isPatched ==> s'.entries[i] == s.entries[i]
    ensures BuffersFilled(s')
  {
    hide EntryLaidOut, Emitted, OwnCells, View;
    forall i | 0 <= i < |s'.entries| && s'.entries[i].isPatched
      ensures Emitted(View(s'.mem, s'.env.xl), s'.env.plat, s'.entries[i])
    {
      CodeWriteKeepsEntry(s.env, w, s.mem, p, v, s.entries[i]);
    }
  }

  lemma CodeWriteKeepsEntry(env: Env, w: World, mem: Memory, p: Addr, v: Word, e: Entry)
    requires EntryLaidOut(env, w, e) && Emitted(View(mem, env.xl), env.plat, e) && p !in w.data
    ensures Emitted(View(Updated(mem, p, v), env.xl), env.plat, e)
  {
    hide Emitted, Cells, OwnCells, Short, Aligned, View;
    var view, view' := View(mem, env.xl), View(Updated(mem, p, v), env.xl);
    forall c | c in OwnCells(e)
      ensures view(c) == view'(c)
    {
      ViewAt(mem, env.xl, c);
      ViewAt(Updated(mem, p, v), env.xl, c);
    }
    EmittedFrame(view, view', env.plat, e);
  }

  /** Restoring the top of a stack keeps the invariant; the entry then waits again. */
  lemma RestoreTopKeepsPre(s: State, w: World, k: nat)
    requires k < |s.entries| && OnTop(s, w, k)
    ensures RestoreEntry(s, k) == RestoredState(s, k) && Pre(RestoredState(s, k), w)
    ensures Ordered(s, w) ==> Ordered(RestoredState(s, k), w)
    ensures forall i :: 0 <= i < |s.entries| ==> (Waiting(RestoredState(s, k), w, i) <==> Waiting(s, w, i) || i == k)
  {
    hide Chained, SiteOf, Reachable, ChainAt, Injective, RestoreEntry, SameBuffers, Assumed, LaidOut, Located, Ordered, WordsRight, BuffersFilled, IsRelativeBranch;
    RestoreTopGuards(s, w, k);
    RestoreKeepsChained(s, w, k);
    RestoreKeepsTheRest(s, w, k);
    RestoreWaits(s, w, k);
  }

  lemma RestoreWaits(s: State, w: World, k: nat)
    requires k < |s.entries| && OnTop(s, w, k)
    ensures forall i :: 0 <= i < |s.entries| ==> (Waiting(RestoredState(s, k), w, i) <==> Waiting(s, w, i) || i == k)
  {
    hide Pre, SiteOf, Reachable, ChainAt, Injective, SameBuffers, IsRelativeBranch;
    OffHasSameShape(s.env, w.pristine, s.entries[k]);
    PatchedFacts(s, w, k);
  }

  lemma RestoreKeepsTheRest(s: State, w: World, k: nat)
    requires k < |s.entries| && OnTop(s, w, k)
    ensures var s' := RestoredState(s, k);
            && Assumed(s', w) && LaidOut(s', w) && Located(s', w) && WordsRight(s') && BuffersFilled(s')
            && (Ordered(s, w) ==> Ordered(s', w))
  {
    hide Chained, SiteOf, Reachable, ChainAt, Injective, SameSite, SameBuffers, SameShape, Assumed, LaidOut, Located, Ordered, WordsRight, BuffersFilled, IsRelativeBranch;
    var s', e := RestoredState(s, k), s.entries[k];
    PatchedFacts(s, w, k);
    OffHasSameShape(s.env, w.pristine, e);
    UpdateKeepsShape(s.env, w.pristine, s.entries, k, Off(e));
    SameShapeKeeps(s, s', w);
    OffKeepsLocatedAndOrdered(s, s', w, k);
    UpdateKeepsWordsRight(s, s', k, Off(e));
    CodeWriteKeepsBuffers(s, s', w, e.phys, e.replaced);
  }

  /** RestoreFunction on any entry, on top or not: it does nothing, or puts the saved word back and turns the entry off. */
  lemma RestoreKeepsWhole(s: State, w: World, k: nat)
    requires Whole(s, w) && k < |s.entries|
    ensures RestoreEntry(s, k) == (if s.entries[k].isPatched && s.mem(s.entries[k].phys) == s.entries[k].replaceWith
                                   then RestoredState(s, k) else s)
    ensures Whole(RestoreEntry(s, k), w)
  {
    hide Steady, Located, WordsRight, BuffersFilled, SiteOf, Reachable, Injective, IsRelativeBranch;
    var e := s.entries[k];
    if e.isPatched {
      PatchedAnyhow(s, w, k);
      if s.mem(e.phys) == e.replaceWith {
        RestoredIsWhole(s, w, k);
      }
    }
  }

  lemma RestoredIsWhole(s: State, w: World, k: nat)
    requires Whole(s, w) && k < |s.entries| && s.entries[k].isPatched
    ensures Whole(RestoredState(s, k), w)
  {
    hide Assumed, LaidOut, PlainCode, Located, WordsRight, BuffersFilled, SiteOf, Reachable, Injective, Restorable, SameShape, SameSite, SameBuffers;
    var s', e := RestoredState(s, k), s.entries[k];
    PatchedAnyhow(s, w, k);
    OffHasSameShape(s.env, w.pristine, e);
    UpdateKeepsShape(s.env, w.pristine, s.entries, k, Off(e));
    SameShapeKeeps(s, s', w);
    OffKeepsLocated(s, s', w, k);
    UpdateKeepsWordsRight(s, s', k, Off(e));
    CodeWriteKeepsBuffers(s, s', w, e.phys, e.replaced);
    RestorableIsPlain(s, s', w, e.phys, e.replaced);
  }

  lemma OffKeepsLocated(s: State, s': State, w: World, k: nat)
    requires k < |s.entries| && s'.env == s.env && s'.entries == s.entries[k := Off(s.entries[k])] && Located(s, w)
    ensures Located(s', w)
  {
    hide SiteOf;
  }

  lemma RestorableIsPlain(s: State, s': State, w: World, p: Addr, v: Word)
    requires PlainCode(s, w) && Restorable(v) && Restorable(w.pristine(p)) && s'.mem == Updated(s.mem, p, v)
    ensures PlainCode(s', w)
  {
    hide IsRelativeBranch;
    forall a | a !in w.data
      ensures PlainAt(s'.mem, w.pristine, a)
    {
      assert PlainAt(s.mem, w.pristine, a);
    }
  }

  // ----- many entries -----

  predicate Ascending(idxs: seq<nat>) {
    forall i, j :: 0 <= i < j < |idxs| ==> idxs[i] < idxs[j]
  }

  ghost predicate AllWaitingIn(s: State, w: World, idxs: seq<nat>) {
    forall i :: 0 <= i < |s.entries| && Waiting(s, w, i) ==> i in idxs
  }

  /**
   Patching a list of entries in ascending order, among them all that wait, establishes the
   invariant; OSFatal is not reached, and nothing is changed of an entry that was not waiting.
   */
  lemma {:induction false} PatchManyEstablishesInv(s: State, w: World, idxs: seq<nat>)
    requires Pre(s, w) && Ordered(s, w) && IndicesOf(idxs, |s.entries|) && Ascending(idxs) && AllWaitingIn(s, w, idxs)
    ensures var r := PatchMany(s, idxs);
            && r.Some? && Inv(r.value, w)
            && r.value.env == s.env && r.value.heap == s.heap
            && SameShape(s.env, w.pristine, s.entries, r.value.entries)
            && (forall i :: 0 <= i < |s.entries| && !Waiting(s, w, i) ==> r.value.entries[i] == s.entries[i])
            && (forall i :: 0 <= i < |s.entries| ==> SameConfig(s.entries[i], r.value.entries[i]))
    decreases |idxs|
  {
    hide Pre, Ordered, SiteOf, SameSite, SameBuffers;
    if idxs == [] {
      SameShapeReflexive(s.env, w.pristine, s.entries);
      assert forall i :: 0 <= i < |s.entries| ==> !Waiting(s, w, i);
    } else {
      var k, rest := idxs[0], idxs[1..];
      var s' := PatchOne(s, w, k);
      assert AllWaitingIn(s', w, rest) by {
        forall i | 0 <= i < |s'.entries| && Waiting(s', w, i) ensures i in rest {
          assert i in idxs && i != k;
        }
      }
      PatchManyEstablishesInv(s', w, rest);
      SameShapeTransitive(s.env, w.pristine, s.entries, s'.entries, PatchMany(s', rest).value.entries);
    }
  }

  /** Everything an entry keeps for life. */
  predicate SameConfig(e: Entry, f: Entry) {
    && e.handle == f.handle && e.target == f.target && SameBuffers(e, f)
  }

  lemma SameShapeReflexive(env: Env, pristine: Memory, es: seq<Entry>)
    ensures SameShape(env, pristine, es, es)
  {
    hide SiteOf;
  }

  lemma SameShapeTransitive(env: Env, pristine: Memory, es: seq<Entry>, fs: seq<Entry>, gs: seq<Entry>)
    requires SameShape(env, pristine, es, fs) && SameShape(env, pristine, fs, gs)
    ensures SameShape(env, pristine, es, gs)
  {
    hide SiteOf;
  }

  /** PatchFunction on any entry. */
  lemma PatchAny(s: State, w: World, k: nat) returns (s': State)
    requires Steady(s, w) && k < |s.entries|
    ensures PatchEntry(s, k) == Some(s') && Steady(s', w) && (Whole(s, w) ==> Whole(s', w))
    ensures var site := SiteOf(s.env, w.pristine, s.entries[k]);
            s' == if Waiting(s, w, k) then PatchedState(s, k, site.eff, site.phys) else s
    ensures s'.env == s.env && s'.heap == s.heap && |s'.entries| == |s.entries|
    ensures forall i :: 0 <= i < |s.entries| ==> (Waiting(s', w, i) <==> Waiting(s, w, i) && i != k)
    ensures SameShape(s.env, w.pristine, s.entries, s'.entries)
    ensures forall i :: 0 <= i < |s.entries| && !(Waiting(s, w, i) && i == k) ==> s'.entries[i] == s.entries[i]
    ensures forall i :: 0 <= i < |s.entries| ==> SameConfig(s.entries[i], s'.entries[i])
  {
    hide PatchEntry, SiteOf, Steady, Whole, PatchWrites, Filled, SameSite, SameBuffers, SameShape;
    PatchEntryCases(s, w, k);
    if Waiting(s, w, k) {
      var site := SiteOf(s.env, w.pristine, s.entries[k]);
      s' := PatchedState(s, k, site.eff, site.phys);
      PatchKeepsWhole(s, w, k, site.eff, site.phys);
      PatchKeepsOthers(s, w.pristine, k, site.eff, site.phys, s');
    } else {
      s' := s;
      SameShapeReflexive(s.env, w.pristine, s.entries);
      SameConfigReflexive();
    }
  }

  /** ... and on one that is next in turn. */
  lemma PatchOne(s: State, w: World, k: nat) returns (s': State)
    requires Pre(s, w) && Ordered(s, w) && k < |s.entries|
    requires var site := SiteOf(s.env, w.pristine, s.entries[k]);
             site.Resolved? ==> NoneWaitsBelow(s, w, k, site.phys)
    ensures PatchEntry(s, k) == Some(s') && Pre(s', w) && Ordered(s', w)
    ensures s'.env == s.env && s'.heap == s.heap && |s'.entries| == |s.entries|
    ensures forall i :: 0 <= i < |s.entries| ==> (Waiting(s', w, i) <==> Waiting(s, w, i) && i != k)
    ensures SameShape(s.env, w.pristine, s.entries, s'.entries)
    ensures forall i :: 0 <= i < |s.entries| && !Waiting(s, w, i) ==> s'.entries[i] == s.entries[i]
    ensures forall i :: 0 <= i < |s.entries| ==> SameConfig(s.entries[i], s'.entries[i])
  {
    hide PatchEntry, SiteOf, Pre, Steady, PatchWrites, Filled, SameSite, SameBuffers, SameShape, Ordered, NoneWaitsBelow, NonePatchedAbove;
    PreIsSteady(s, w);
    s' := PatchAny(s, w, k);
    if Waiting(s, w, k) {
      var site := SiteOf(s.env, w.pristine, s.entries[k]);
      NoneAbove(s, w, k, site.eff, site.phys);
      PatchKeepsPre(s, w, k, site.eff, site.phys);
      PatchKeepsOrdered(s, w, k, site.eff, site.phys);
    }
  }

  lemma PreIsSteady(s: State, w: World)
    requires Pre(s, w)
    ensures Steady(s, w)
  {
    hide Pre, Steady;
    PreIsWhole(s, w);
  }

  lemma SameConfigReflexive()
    ensures forall e :: SameConfig(e, e)
  {
  }

  lemma SameConfigsTransitive(es: seq<Entry>, fs: seq<Entry>, gs: seq<Entry>)
    requires |es| == |fs| == |gs|
    requires forall i :: 0 <= i < |es| ==> SameConfig(es[i], fs[i]) && SameConfig(fs[i], gs[i])
    ensures forall i :: 0 <= i < |es| ==> SameConfig(es[i], gs[i])
  {
  }

  lemma PatchKeepsOthers(s: State, pristine: Memory, k: nat, eff: Addr, phys: Addr, s': State)
    requires k < |s.entries| && s' == PatchedState(s, k, eff, phys)
    requires SiteOf(s.env, pristine, s.entries[k]) == Resolved(eff, phys)
    ensures s'.env == s.env && s'.heap == s.heap && |s'.entries| == |s.entries|
    ensures SameShape(s.env, pristine, s.entries, s'.entries)
    ensures forall i :: 0 <= i < |s.entries| && i != k ==> s'.entries[i] == s.entries[i]
    ensures forall i :: 0 <= i < |s.entries| ==> SameConfig(s.entries[i], s'.entries[i])
  {
    hide SiteOf, PatchWrites, SameSite, Filled, SameShape, SameConfig;
    FilledHasSameShape(s.env, pristine, s.entries[k], eff, phys, s.mem(phys));
    UpdateKeepsShape(s.env, pristine, s.entries, k, PatchedEntry(s, k, eff, phys));
    SameConfigReflexive();
    FilledKeepsConfig(s.entries[k], eff, phys, s.mem(phys));
  }

  lemma FilledKeepsConfig(e: Entry, eff: Addr, phys: Addr, found: Word)
    ensures SameConfig(e, Filled(e, eff, phys, found))
  {
    hide ReplacementWord;
  }

  /** The patch-all loop establishes the invariant. */
  lemma SweepEstablishesInv(s: State, w: World)
    requires Pre(s, w) && Ordered(s, w)
    ensures var r := Sweep(s);
            && r.Some? && Inv(r.value, w)
            && r.value.env == s.env && r.value.heap == s.heap && |r.value.entries| == |s.entries|
            && (forall i :: 0 <= i < |s.entries| && !Waiting(s, w, i) ==> r.value.entries[i] == s.entries[i])
            && (forall i :: 0 <= i < |s.entries| ==> SameConfig(s.entries[i], r.value.entries[i]))
  {
    hide Pre, Ordered, SiteOf, SameSite, SameBuffers, Waiting;
    var idxs := Upto(|s.entries|);
    forall i | 0 <= i < |s.entries| && Waiting(s, w, i)
      ensures i in idxs
    {
      assert idxs[i] == i;
    }
    PatchManyEstablishesInv(s, w, idxs);
  }
}
