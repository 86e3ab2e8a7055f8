/**
 The invariant of the patch list: at every code address the patched entries, in list order, form a
 chain from the original word to the word in memory.
 */
module Chain {
  import opened Words
  import opened Machine
  import opened CodeGen
  import opened Loading
  import opened Dispatch
  import opened PatchStack
  import opened Writing

  /**
   `pristine` is the memory without any patch; `data` holds the physical addresses of the jump heap
   and of the cells that receive the pointers to the original functions. Everything else is called code.
   */
  datatype World = World(pristine: Memory, data: iset<Addr>)

  /** The patched entries on the physical address `a`, in list order. */
  function On(es: seq<Entry>, a: Addr): seq<Entry>
    decreases |es|
  {
    if es == [] then []
    else
      var e := es[|es| - 1];
      On(es[..|es| - 1], a) + (if e.isPatched && e.phys == a then [e] else [])
  }

  ghost predicate ChainAt(mem: Memory, pristine: Memory, es: seq<Entry>, a: Addr) {
    Linked(pristine(a), On(es, a)) && mem(a) == Below(pristine(a), On(es, a), |On(es, a)|)
  }

  /** At every code address: first.replaced = original word, next.replaced = previous.replaceWith, memory = last.replaceWith. */
  ghost predicate Chained(s: State, w: World) {
    forall a :: a !in w.data ==> ChainAt(s.mem, w.pristine, s.entries, a)
  }

  /** A patched entry is where its target resolves to. */
  ghost predicate Located(s: State, w: World) {
    forall i :: 0 <= i < |s.entries| && s.entries[i].isPatched ==>
      SiteOf(s.env, w.pristine, s.entries[i]) == Resolved(s.entries[i].eff, s.entries[i].phys)
  }

  /** Entry `i` resolves to the physical address `a`. */
  predicate GoesTo(env: Env, pristine: Memory, e: Entry, a: Addr) {
    var site := SiteOf(env, pristine, e);
    site.Resolved? && site.phys == a
  }

  /** Below a patched entry, no entry of the same address is waiting to be patched. */
  ghost predicate Ordered(s: State, w: World) {
    forall i, j :: 0 <= i < j < |s.entries| && s.entries[j].isPatched ==>
      GoesTo(s.env, w.pristine, s.entries[i], s.entries[j].phys) ==> s.entries[i].isPatched
  }

  /** A word that RestoreFunction can put back, and that the resolver does not follow. */
  predicate Restorable(v: Word) {
    v != 0 && !IsRelativeBranch(v)
  }

  ghost predicate WordsRight(s: State) {
    forall i :: 0 <= i < |s.entries| && s.entries[i].isPatched ==> Reachable(s.entries[i]) && Restorable(s.entries[i].replaced)
  }

  ghost predicate BuffersFilled(s: State) {
    forall i :: 0 <= i < |s.entries| && s.entries[i].isPatched ==>
      Emitted(View(s.mem, s.env.xl), s.env.plat, s.entries[i])
  }

  /** The effective addresses of the buffers of an entry. */
  function OwnCells(e: Entry): set<Addr> {
    Cells(e.jumpToOriginal, 5) + if e.jumpData != 0 then Cells(e.jumpData, 15) else {}
  }

  ghost predicate EntryLaidOut(env: Env, w: World, e: Entry) {
    && BuffersUsable(e) && Aligned(e.repl)
    && (NeedsTrampoline(e.process, e.repl) <==> e.jumpData != 0)
    && (e.jumpData != 0 ==> Cells(e.jumpToOriginal, 5) !! Cells(e.jumpData, 15))
    && (forall c :: c in OwnCells(e) ==> env.xl(c) in w.data)
    && env.xl(e.realCall) in w.data
  }

  /** The buffers lie in the data region, apart from each other and from the cells that receive pointers. */
  ghost predicate LaidOut(s: State, w: World) {
    && (forall i :: 0 <= i < |s.entries| ==> EntryLaidOut(s.env, w, s.entries[i]))
    && (forall i, j :: 0 <= i < |s.entries| && 0 <= j < |s.entries| && i != j ==>
          OwnCells(s.entries[i]) !! OwnCells(s.entries[j]))
    && (forall i, j :: 0 <= i < |s.entries| && 0 <= j < |s.entries| ==>
          s.entries[i].realCall !in OwnCells(s.entries[j]))
  }

  /** What is assumed of the target of an entry. */
  ghost predicate SiteSound(env: Env, w: World, e: Entry) {
    var site := SiteOf(env, w.pristine, e);
    && !site.Untranslatable?
    && (site.Resolved? ==>
          && site.eff != 0 && site.phys != 0 && site.phys !in w.data && env.xl(site.eff) == site.phys
          && w.pristine(site.phys) != 0 && !IsRelativeBranch(w.pristine(site.phys)))
    && (e.target.LibraryFunction? ==>
          var x := FindExport(env.loader, LoadedHandle(env.loader, e.target.library), e.target.name);
          x != 0 ==> env.xl(x) !in w.data)
  }

  /**
   The hypotheses on the surroundings: translation is injective (H2), reads succeed, targets are
   code with a nonzero first word that is not a relative branch (H3, H4).
   */
  ghost predicate Assumed(s: State, w: World) {
    && Injective(s.env.xl) && s.env.readable && 0 !in w.data
    && (forall i :: 0 <= i < |s.entries| ==> SiteSound(s.env, w, s.entries[i]))
  }

  /** Code holds its original word, or else a word over it that RestoreFunction and the resolver can cope with. */
  ghost predicate PlainCode(s: State, w: World) {
    forall a :: a !in w.data ==> PlainAt(s.mem, w.pristine, a)
  }

  predicate PlainAt(mem: Memory, pristine: Memory, a: Addr) {
    mem(a) == pristine(a) || (Restorable(mem(a)) && !IsRelativeBranch(pristine(a)))
  }

  /** What any patch in any order keeps: enough to resolve, to patch and to restore. */
  ghost predicate Steady(s: State, w: World) {
    Assumed(s, w) && LaidOut(s, w) && PlainCode(s, w)
  }

  /** ... and what else any patch keeps, whether or not the chains are in list order. */
  ghost predicate Whole(s: State, w: World) {
    Steady(s, w) && Located(s, w) && WordsRight(s) && BuffersFilled(s)
  }

  /** The invariant while patches may be waiting: the chains are in list order. */
  ghost predicate Pre(s: State, w: World) {
    && Assumed(s, w) && LaidOut(s, w)
    && Chained(s, w) && Located(s, w) && WordsRight(s) && BuffersFilled(s)
  }

  /** Entry `i` resolves, but is not patched. */
  predicate Waiting(s: State, w: World, i: nat) {
    i < |s.entries| && !s.entries[i].isPatched && SiteOf(s.env, w.pristine, s.entries[i]).Resolved?
  }

  /** The invariant between the module's operations: in addition, whatever resolves is patched. */
  ghost predicate Inv(s: State, w: World) {
    Pre(s, w) && forall i :: 0 <= i < |s.entries| ==> !Waiting(s, w, i)
  }

  // ----- the list of patched entries on one address -----

  lemma {:induction false} OnAdd(es: seq<Entry>, fs: seq<Entry>, a: Addr)
    ensures On(es + fs, a) == On(es, a) + On(fs, a)
    decreases |fs|
  {
    if fs == [] {
      assert es + fs == es;
    } else {
      var e := fs[|fs| - 1];
      assert (es + fs)[..|es + fs| - 1] == es + fs[..|fs| - 1];
      OnAdd(es, fs[..|fs| - 1], a);
    }
  }

  lemma {:induction false} OnNone(es: seq<Entry>, a: Addr)
    requires forall i :: 0 <= i < |es| ==> !(es[i].isPatched && es[i].phys == a)
    ensures On(es, a) == []
    decreases |es|
  {
    if es != [] {
      OnNone(es[..|es| - 1], a);
    }
  }

  lemma {:induction false} OnIndex(es: seq<Entry>, a: Addr, t: nat) returns (i: nat)
    requires t < |On(es, a)|
    ensures i < |es| && es[i] == On(es, a)[t] && es[i].isPatched && es[i].phys == a
    decreases |es|
  {
    var n := |es| - 1;
    if t < |On(es[..n], a)| {
      i := OnIndex(es[..n], a, t);
    } else {
      i := n;
    }
  }

  lemma OnOne(e: Entry, a: Addr)
    ensures On([e], a) == if e.isPatched && e.phys == a then [e] else []
  {
    assert [e][..0] == [];
    assert On([e][..0], a) == [];
  }

  /** The entries on an address: those before position `k`, entry `k` itself, and those behind. */
  lemma OnSplit(es: seq<Entry>, k: nat, a: Addr)
    requires k < |es|
    ensures On(es, a) == On(es[..k], a) + (if es[k].isPatched && es[k].phys == a then [es[k]] else []) + On(es[k + 1..], a)
  {
    assert es == (es[..k] + [es[k]]) + es[k + 1..];
    OnAdd(es[..k] + [es[k]], es[k + 1..], a);
    OnAdd(es[..k], [es[k]], a);
    OnOne(es[k], a);
  }

  lemma OnUpdated(es: seq<Entry>, k: nat, e: Entry, a: Addr)
    requires k < |es|
    ensures On(es[k := e], a) == On(es[..k], a) + (if e.isPatched && e.phys == a then [e] else []) + On(es[k + 1..], a)
  {
    var es' := es[k := e];
    OnSplit(es', k, a);
    assert es'[..k] == es[..k] && es'[k + 1..] == es[k + 1..];
  }

  // ----- resolution does not notice patches -----

  /** The word in a patched function is the branch of its last patch. */
  lemma PatchedWordIsPlain(s: State, w: World, p: Addr)
    requires Pre(s, w) && p !in w.data
    ensures PlainAt(s.mem, w.pristine, p)
  {
    hide Ba, Short, Aligned, IsRelativeBranch, Emitted, LaidOut, BuffersFilled, SiteOf;
    var es := On(s.entries, p);
    assert ChainAt(s.mem, w.pristine, s.entries, p);
    if es != [] {
      var i := OnIndex(s.entries, p, |es| - 1);
      assert SiteOf(s.env, w.pristine, s.entries[i]) == Resolved(s.entries[i].eff, p);
      assert SiteSound(s.env, w, s.entries[i]);
      var e := s.entries[i];
      BaIsNotFollowed(if NeedsTrampoline(e.process, e.repl) then e.jumpData else e.repl);
      BaIsNotZeroNorRelative(if NeedsTrampoline(e.process, e.repl) then e.jumpData else e.repl);
    }
  }

  lemma PreIsWhole(s: State, w: World)
    requires Pre(s, w)
    ensures Whole(s, w)
  {
    hide Assumed, LaidOut, Located, WordsRight, BuffersFilled, PlainAt, Chained;
    forall p | p !in w.data
      ensures PlainAt(s.mem, w.pristine, p)
    {
      PatchedWordIsPlain(s, w, p);
    }
  }

  lemma InvIsOrdered(s: State, w: World)
    requires Inv(s, w)
    ensures Pre(s, w) && Ordered(s, w)
  {
    hide Pre, SiteOf;
    forall i, j | 0 <= i < j < |s.entries| && s.entries[j].isPatched && GoesTo(s.env, w.pristine, s.entries[i], s.entries[j].phys)
      ensures s.entries[i].isPatched
    {
      assert !Waiting(s, w, i);
    }
  }

  /**
   Resolving a target in the patched memory gives the same site as resolving it in the original
   memory, whatever stacks of patches have been applied.
   */
  lemma ResolutionIsStable(s: State, w: World, k: nat)
    requires Steady(s, w) && k < |s.entries|
    ensures SiteOf(s.env, s.mem, s.entries[k]) == SiteOf(s.env, w.pristine, s.entries[k])
  {
    var e := s.entries[k];
    assert SiteSound(s.env, w, e);
    if e.target.LibraryFunction? {
      var x := FindExport(s.env.loader, LoadedHandle(s.env.loader, e.target.library), e.target.name);
      if x != 0 {
        assert PlainAt(s.mem, w.pristine, s.env.xl(x));
      }
    }
    hide Steady, SiteSound, IsRelativeBranch, Plus, RelativeOffset;
  }

  // ----- the footprint of one patch -----

  lemma WordCounts(e: Entry, plat: Platform)
    ensures |JumpToOriginalWords(e.eff, e.replaced)| <= 5
    ensures |TrampolineWords(e.process, plat, e.eff, e.replaced, e.repl)| <= 15
  {
    TrampolineLayout(e.process, plat, e.eff, e.replaced, e.repl);
  }

  /** The buffer writes touch no physical address but those of the entry's own cells and of its pointer cell. */
  lemma BufferWritesMiss(env: Env, e: Entry, p: Addr)
    requires BuffersUsable(e) && env.xl(e.realCall) != p
    requires forall c :: c in OwnCells(e) ==> env.xl(c) != p
    ensures Misses(BufferWrites(env, e), p)
  {
    WordCounts(e, env.plat);
    hide JumpToOriginalWords, TrampolineWords, Cells, Misses, Short, BlockWrites;
    var jto, tramp := JumpToOriginalWords(e.eff, e.replaced), TrampolineWords(e.process, env.plat, e.eff, e.replaced, e.repl);
    CellsGrow(e.jumpToOriginal, |jto|, 5);
    BlockWritesMiss(env.xl, e.jumpToOriginal, jto, p);
    var a, b := BlockWrites(env.xl, e.jumpToOriginal, jto), [(env.xl(e.realCall), e.jumpToOriginal)];
    OneMisses(b[0].0, b[0].1, p);
    MissesAdd(a, b, p);
    if NeedsTrampoline(e.process, e.repl) {
      CellsGrow(e.jumpData, |tramp|, 15);
      BlockWritesMiss(env.xl, e.jumpData, tramp, p);
      MissesAdd(a + b, BlockWrites(env.xl, e.jumpData, tramp), p);
    } else {
      assert BufferWrites(env, e) == a + b;
    }
  }

  lemma OneMisses(q: Addr, v: Word, p: Addr)
    requires q != p
    ensures Misses([(q, v)], p)
  {
  }

  lemma {:induction false} ApplyLast(mem: Memory, ws: Writes, p: Addr, v: Word)
    ensures Apply(mem, ws + [(p, v)]) == Updated(Apply(mem, ws), p, v)
  {
    ApplyAdd(mem, ws, [(p, v)]);
    var m := Apply(mem, ws);
    assert [(p, v)][1..] == [];
    assert Apply(m, [(p, v)]) == Apply(Updated(m, p, v), []);
  }

  /** Patching changes a physical address outside the entry's own data only if it is the target. */
  lemma PatchedMemory(env: Env, mem: Memory, e: Entry, p: Addr)
    requires BuffersUsable(e) && env.xl(e.realCall) != p
    requires forall c :: c in OwnCells(e) ==> env.xl(c) != p
    ensures Apply(mem, PatchWrites(env, e))(p) == if p == e.phys then e.replaceWith else mem(p)
  {
    hide BufferWrites, OwnCells, BuffersUsable;
    BufferWritesMiss(env, e, p);
    ApplyMisses(mem, BufferWrites(env, e), p);
    ApplyLast(mem, BufferWrites(env, e), e.phys, e.replaceWith);
  }

  /** The cells of another entry keep their words. */
  lemma EmittedFrame(v: Memory, v': Memory, plat: Platform, e: Entry)
    requires Emitted(v, plat, e) && (NeedsTrampoline(e.process, e.repl) ==> e.jumpData != 0)
    requires forall c :: c in OwnCells(e) ==> v(c) == v'(c)
    ensures Emitted(v', plat, e)
  {
    WordCounts(e, plat);
    hide JumpToOriginalWords, TrampolineWords, Cells, Holds;
    CellsGrow(e.jumpToOriginal, |JumpToOriginalWords(e.eff, e.replaced)|, 5);
    HoldsFrame(v, v', e.jumpToOriginal, JumpToOriginalWords(e.eff, e.replaced));
    if NeedsTrampoline(e.process, e.repl) {
      var tramp := TrampolineWords(e.process, plat, e.eff, e.replaced, e.repl);
      CellsGrow(e.jumpData, |tramp|, 15);
      HoldsFrame(v, v', e.jumpData, tramp);
    }
  }

  lemma JumpToOriginalFilled(env: Env, w: World, mem: Memory, e: Entry)
    requires Injective(env.xl) && 0 !in w.data && EntryLaidOut(env, w, e) && e.phys !in w.data && e.realCall !in OwnCells(e)
    ensures Holds(View(Apply(mem, PatchWrites(env, e)), env.xl), e.jumpToOriginal, JumpToOriginalWords(e.eff, e.replaced))
  {
    WordCounts(e, env.plat);
    hide JumpToOriginalWords, TrampolineWords, Cells, Misses, Short, Aligned, BlockWrites, Holds, View, NeedsTrampoline;
    var jto, tramp := JumpToOriginalWords(e.eff, e.replaced), TrampolineWords(e.process, env.plat, e.eff, e.replaced, e.repl);
    var a := BlockWrites(env.xl, e.jumpToOriginal, jto);
    var rest := [(env.xl(e.realCall), e.jumpToOriginal)]
                + (if NeedsTrampoline(e.process, e.repl) then BlockWrites(env.xl, e.jumpData, tramp) else [])
                + [(e.phys, e.replaceWith)];
    assert PatchWrites(env, e) == a + rest;
    ApplyAdd(mem, a, rest);
    CellsGrow(e.jumpToOriginal, |jto|, 5);
    assert forall c :: c in Cells(e.jumpToOriginal, |jto|) ==> c in OwnCells(e) && env.xl(c) in w.data;
    BlockWritten(mem, env.xl, e.jumpToOriginal, jto);
    var v, v' := View(Apply(mem, a), env.xl), View(Apply(mem, PatchWrites(env, e)), env.xl);
    forall c | c in Cells(e.jumpToOriginal, |jto|)
      ensures v(c) == v'(c)
    {
      var p := env.xl(c);
      RestMisses(env, w, e, c);
      ApplyMisses(Apply(mem, a), rest, p);
      ViewAt(Apply(mem, a), env.xl, c);
      ViewAt(Apply(mem, PatchWrites(env, e)), env.xl, c);
    }
    HoldsFrame(v, v', e.jumpToOriginal, jto);
  }

  lemma RestMisses(env: Env, w: World, e: Entry, c: Addr)
    requires Injective(env.xl) && 0 !in w.data && EntryLaidOut(env, w, e) && e.phys !in w.data && e.realCall !in OwnCells(e)
    requires c in Cells(e.jumpToOriginal, 5)
    ensures var tramp := TrampolineWords(e.process, env.plat, e.eff, e.replaced, e.repl);
            Misses([(env.xl(e.realCall), e.jumpToOriginal)]
                   + (if NeedsTrampoline(e.process, e.repl) then BlockWrites(env.xl, e.jumpData, tramp) else [])
                   + [(e.phys, e.replaceWith)], env.xl(c))
  {
    WordCounts(e, env.plat);
    hide TrampolineWords, Cells, Misses, Short, Aligned, BlockWrites, NeedsTrampoline;
    var tramp := TrampolineWords(e.process, env.plat, e.eff, e.replaced, e.repl);
    var p := env.xl(c);
    var b1 := [(env.xl(e.realCall), e.jumpToOriginal)];
    OneMisses(env.xl(e.realCall), e.jumpToOriginal, p);
    OneMisses(e.phys, e.replaceWith, p);
    if NeedsTrampoline(e.process, e.repl) {
      CellsGrow(e.jumpData, |tramp|, 15);
      BlockWritesMiss(env.xl, e.jumpData, tramp, p);
      MissesAdd(b1, BlockWrites(env.xl, e.jumpData, tramp), p);
      MissesAdd(b1 + BlockWrites(env.xl, e.jumpData, tramp), [(e.phys, e.replaceWith)], p);
    } else {
      assert b1 + [] == b1;
      MissesAdd(b1, [(e.phys, e.replaceWith)], p);
    }
  }

  lemma TrampolineFilled(env: Env, w: World, mem: Memory, e: Entry)
    requires Injective(env.xl) && 0 !in w.data && EntryLaidOut(env, w, e) && e.phys !in w.data
    requires NeedsTrampoline(e.process, e.repl)
    ensures Holds(View(Apply(mem, PatchWrites(env, e)), env.xl), e.jumpData,
                  TrampolineWords(e.process, env.plat, e.eff, e.replaced, e.repl))
  {
    WordCounts(e, env.plat);
    hide JumpToOriginalWords, TrampolineWords, Cells, Misses, Short, Aligned, BlockWrites, Holds, View, NeedsTrampoline;
    var tramp := TrampolineWords(e.process, env.plat, e.eff, e.replaced, e.repl);
    var a := BlockWrites(env.xl, e.jumpToOriginal, JumpToOriginalWords(e.eff, e.replaced)) + [(env.xl(e.realCall), e.jumpToOriginal)];
    var b := BlockWrites(env.xl, e.jumpData, tramp);
    assert BufferWrites(env, e) == a + b;
    var mem3 := Apply(mem, a + b);
    ApplyAdd(mem, a, b);
    ApplyLast(mem, a + b, e.phys, e.replaceWith);
    CellsGrow(e.jumpData, |tramp|, 15);
    assert forall c :: c in Cells(e.jumpData, |tramp|) ==> c in OwnCells(e) && env.xl(c) in w.data;
    BlockWritten(Apply(mem, a), env.xl, e.jumpData, tramp);
    var v, v' := View(mem3, env.xl), View(Updated(mem3, e.phys, e.replaceWith), env.xl);
    forall c | c in Cells(e.jumpData, |tramp|)
      ensures v(c) == v'(c)
    {
      assert env.xl(c) in w.data;
      ViewAt(mem3, env.xl, c);
      ViewAt(Updated(mem3, e.phys, e.replaceWith), env.xl, c);
    }
    HoldsFrame(v, v', e.jumpData, tramp);
  }
}
