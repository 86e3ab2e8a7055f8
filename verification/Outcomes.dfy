/**
 What single operations do, in terms of what a caller passes and of the console: for every state,
 with or without an invariant, and with all error cases.
 */
module Outcomes {
  import opened Words
  import opened Machine
  import opened CodeGen
  import opened Loading
  import opened Dispatch
  import opened PatchStack
  import opened Writing
  import opened Chain
  import opened Keeping
  import opened Scanning
  import opened Undoing
  import opened Ownership

  // ----- PatchFunction -----

  /**
   The outcome of PatchFunction on entry `k` whose target has been found at these addresses: fatal if
   there is no physical address, if the word cannot be read, or if a buffer is missing or out of
   reach; otherwise the entry has saved the word found at the target, and the target holds an absolute
   branch to the trampoline or the replacement. Nothing is changed of the other entries.
   */
  ghost predicate PatchedOrFatal(s: State, k: nat, eff: Addr, phys: Addr, translated: bool)
    requires k < |s.entries|
  {
    var e := s.entries[k];
    var far := e.repl > 0x01FFFFFC || e.process != AllProcesses;
    && (PatchEntry(s, k).None? <==>
          || !translated || !s.env.readable || e.jumpToOriginal == 0
          || (far && (e.jumpData == 0 || !Short(e.jumpData))))
    && (PatchEntry(s, k).Some? ==>
          var r := PatchEntry(s, k).value;
          var word := Ba(if far then e.jumpData else e.repl);
          && r.env == s.env && r.heap == s.heap && |r.entries| == |s.entries|
          && (forall i :: 0 <= i < |s.entries| && i != k ==> r.entries[i] == s.entries[i])
          && r.entries[k] == e.(eff := eff, phys := phys, replaced := s.mem(phys), replaceWith := word, isPatched := true)
          && r.mem(phys) == word)
  }

  lemma ResolvedOutcome(s: State, k: nat, eff: Addr, phys: Addr)
    requires k < |s.entries| && !s.entries[k].isPatched && SiteOf(s.env, s.mem, s.entries[k]) == Resolved(eff, phys)
    ensures PatchedOrFatal(s, k, eff, phys, true)
  {
    hide SiteOf, PatchWrites, BuffersUsable, ReplacementWord, Short, Ba;
    UsableSpelledOut(s.entries[k]);
    WordSpelledOut(s.entries[k]);
    LastWriteWins(s.env, s.mem, Filled(s.entries[k], eff, phys, s.mem(phys)));
  }

  lemma UsableSpelledOut(e: Entry)
    ensures var far := e.repl > 0x01FFFFFC || e.process != AllProcesses;
            !BuffersUsable(e) <==> e.jumpToOriginal == 0 || (far && (e.jumpData == 0 || !Short(e.jumpData)))
  {
    hide Short;
  }

  lemma WordSpelledOut(e: Entry)
    ensures var far := e.repl > 0x01FFFFFC || e.process != AllProcesses;
            ReplacementWord(e.process, e.repl, e.jumpData) == Ba(if far then e.jumpData else e.repl)
  {
    hide Ba;
  }

  lemma UntranslatableOutcome(s: State, k: nat, eff: Addr, phys: Addr)
    requires k < |s.entries| && !s.entries[k].isPatched && SiteOf(s.env, s.mem, s.entries[k]).Untranslatable?
    ensures PatchedOrFatal(s, k, eff, phys, false)
  {
    hide SiteOf, PatchWrites, Short, Ba;
  }

  lemma NotResolvedOutcome(s: State, k: nat)
    requires k < |s.entries| && (s.entries[k].isPatched || SiteOf(s.env, s.mem, s.entries[k]).NotResolved?)
    ensures PatchEntry(s, k) == Some(s)
  {
    hide SiteOf;
  }

  /**
   An executable: patched if and only if the running title is accepted and the executable is found, by
   name with an address that is not null; then at that address and its translation.
   */
  lemma PatchOfExecutable(s: State, k: nat)
    requires k < |s.entries| && !s.entries[k].isPatched && s.entries[k].target.InExecutable?
    ensures var t := s.entries[k].target;
            var found := t in s.env.accepted && t in s.env.executables && (t.site.ByName? ==> s.env.executables[t] != 0);
            && (!found ==> PatchEntry(s, k) == Some(s))
            && (found ==>
                  var a := s.env.executables[t];
                  PatchedOrFatal(s, k, a, s.env.xl(a), s.env.xl(a) != 0))
  {
    hide PatchEntry, PatchedOrFatal;
    var t := s.entries[k].target;
    var site := SiteOf(s.env, s.mem, s.entries[k]);
    match site {
      case NotResolved => NotResolvedOutcome(s, k);
      case Untranslatable =>
        UntranslatableOutcome(s, k, s.env.executables[t], s.env.xl(s.env.executables[t]));
      case Resolved(eff, phys) => ResolvedOutcome(s, k, eff, phys);
    }
  }

  /** Given addresses: used as they are, for any title and without translation. */
  lemma PatchOfGivenAddress(s: State, k: nat)
    requires k < |s.entries| && !s.entries[k].isPatched && s.entries[k].target.GivenAddress?
    ensures PatchedOrFatal(s, k, s.entries[k].eff, s.entries[k].phys, true)
  {
    hide PatchEntry, PatchedOrFatal;
    ResolvedOutcome(s, k, s.entries[k].eff, s.entries[k].phys);
  }

  /**
   A function of a library: patched if and only if the library has a row, is loaded and exports the
   name; then where the export, or the relative branch in its first word, leads.
   */
  lemma PatchOfLibraryFunction(s: State, k: nat)
    requires k < |s.entries| && !s.entries[k].isPatched && s.entries[k].target.LibraryFunction?
    ensures var t := s.entries[k].target;
            var handle := if t.library in s.env.known && t.library in s.env.loader.handles then s.env.loader.handles[t.library] else 0;
            var x := if handle != 0 && (handle, t.name) in s.env.loader.exports then s.env.loader.exports[(handle, t.name)] else 0;
            var a := match Decode(s.mem(s.env.xl(x))) case BranchRel(disp) => Plus(x, disp) case _ => x;
            && (x == 0 || a == 0 ==> PatchEntry(s, k) == Some(s))
            && (x != 0 && a != 0 ==> PatchedOrFatal(s, k, a, s.env.xl(a), s.env.xl(a) != 0))
  {
    hide PatchEntry, PatchedOrFatal, SiteOf, Decode, Plus;
    var site := LibrarySite(s, k);
    match site {
      case NotResolved => NotResolvedOutcome(s, k);
      case Untranslatable =>
        var t := s.entries[k].target;
        var x := s.env.loader.exports[(s.env.loader.handles[t.library], t.name)];
        var a := match Decode(s.mem(s.env.xl(x))) case BranchRel(disp) => Plus(x, disp) case _ => x;
        UntranslatableOutcome(s, k, a, s.env.xl(a));
      case Resolved(eff, phys) => ResolvedOutcome(s, k, eff, phys);
    }
  }

  lemma LibrarySite(s: State, k: nat) returns (site: Site)
    requires k < |s.entries| && s.entries[k].target.LibraryFunction?
    ensures site == SiteOf(s.env, s.mem, s.entries[k])
    ensures var t := s.entries[k].target;
            var handle := if t.library in s.env.known && t.library in s.env.loader.handles then s.env.loader.handles[t.library] else 0;
            var x := if handle != 0 && (handle, t.name) in s.env.loader.exports then s.env.loader.exports[(handle, t.name)] else 0;
            var a := match Decode(s.mem(s.env.xl(x))) case BranchRel(disp) => Plus(x, disp) case _ => x;
            site == if x == 0 || a == 0 then NotResolved else if s.env.xl(a) == 0 then Untranslatable else Resolved(a, s.env.xl(a))
  {
    hide Decode, Plus, LookupIn;
    var t := s.entries[k].target;
    var handle := if t.library in s.env.known && t.library in s.env.loader.handles then s.env.loader.handles[t.library] else 0;
    ResolutionIs(s.env.loader, handle, s.mem, s.env.xl, t.name);
    site := SiteOf(s.env, s.mem, s.entries[k]);
  }

  /** A patched entry is left alone. */
  lemma PatchOfPatched(s: State, k: nat)
    requires k < |s.entries| && s.entries[k].isPatched
    ensures PatchEntry(s, k) == Some(s)
  {
    NotResolvedOutcome(s, k);
  }

  // ----- RestoreFunction -----

  /**
   A patched entry is restored if and only if there is a saved word and an address, the target can be
   read and still holds the entry's word. The saved word then goes to the given physical address, or to
   the translation of the effective one, and the entry is off. In all other cases nothing changes.
   */
  lemma RestoreOutcome(s: State, k: nat, p: Addr)
    requires k < |s.entries|
    ensures var e := s.entries[k];
            var ready := e.replaced != 0 && e.eff != 0 && s.env.readable && s.mem(e.phys) == e.replaceWith;
            var r, to := RestoreEntry(s, k), if e.target.GivenAddress? then e.phys else s.env.xl(e.eff);
            && (RestoreSucceeds(s, k) <==> !e.isPatched || ready)
            && (!(e.isPatched && ready) ==> r == s)
            && (e.isPatched && ready ==>
                  && r.mem(p) == (if p == to then e.replaced else s.mem(p))
                  && r == s.(mem := r.mem, entries := s.entries[k := e.(isPatched := false)]))
  {
  }

  // ----- FPAddFunctionPatch -----

  /**
   The list gets the requested patch at its end, and no other entry changes. The new entry has two
   blocks or one, depending on the request; it is fatal or fails for want of memory, or it is this.
   */
  lemma AddedEntry(s: State, q: Request, choice1: Addr, choice2: Addr)
    requires Add(s, q, choice1, choice2).Added?
    ensures var r := Add(s, q, choice1, choice2).state;
            && r.env == s.env && |r.entries| == |s.entries| + 1 && r.entries[..|s.entries|] == s.entries
            && var f := r.entries[|s.entries|];
               var far := q.repl > 0x01FFFFFC || q.process != AllProcesses;
               && f.handle == q.handle && f.target == q.target && f.process == q.process
               && f.repl == q.repl && f.realCall == q.realCall
               && (q.target.GivenAddress? ==> f.eff == q.target.eff && f.phys == q.target.phys)
               && f.jumpToOriginal == choice2 != 0 && f.jumpData == (if far then choice1 else 0) && (far ==> choice1 != 0)
               && r.heap == s.heap + {Block(choice2, 5)} + (if far then {Block(choice1, 15)} else {})
  {
    hide PatchEntry;
    var e := NewEntry(q, if NeedsTrampoline(q.process, q.repl) then choice1 else 0, choice2);
    hide Allocate;
    AddCases(s, q, choice1, choice2);
    var l := Listed(s, q, choice1, choice2);
    OnePatched(l, |s.entries|);
    assert forall i :: 0 <= i < |s.entries| ==> l.entries[i] == s.entries[i];
    assert l.entries[|s.entries|] == e;
  }

  /** What PatchFunction leaves of an entry and of everything else. */
  lemma OnePatched(s: State, k: nat)
    requires k < |s.entries| && PatchEntry(s, k).Some?
    ensures var r := PatchEntry(s, k).value;
            && r.env == s.env && r.heap == s.heap && |r.entries| == |s.entries|
            && (forall i :: 0 <= i < |s.entries| && i != k ==> r.entries[i] == s.entries[i])
            && var e, f := s.entries[k], r.entries[k];
               && f.handle == e.handle && f.target == e.target && f.process == e.process && f.repl == e.repl
               && f.realCall == e.realCall && f.jumpData == e.jumpData && f.jumpToOriginal == e.jumpToOriginal
               && (e.target.GivenAddress? ==> f.eff == e.eff && f.phys == e.phys)
  {
    hide PatchWrites, ReplacementWord, Lookup, BuffersUsable;
  }

  /**
   The law of an add that has patched: a call of the function by any process that the request admits
   arrives in the requested replacement, within 11 instructions and with nothing but r11, CTR and CR0
   changed.
   */
  lemma AddThenCall(s: State, w: World, q: Request, choice1: Addr, choice2: Addr, sem: Semantics, c: Cpu) returns (n: nat)
    requires Whole(s, w) && Owns(s) && RequestSound(s, w, q, choice1, choice2)
    requires Add(s, q, choice1, choice2).Added?
    requires var r := Add(s, q, choice1, choice2).state;
             |r.entries| == |s.entries| + 1 && r.entries[|s.entries|].isPatched && c.pc == r.entries[|s.entries|].eff
    requires var r := Add(s, q, choice1, choice2).state;
             var u := View(r.mem, r.env.xl)(r.env.plat.UpidCell());
             || q.process == AllProcesses
             || (q.process == GameAndMenu && (u == WII_U_MENU || u == GAME))
             || (q.process.OneProcess? && u == q.process.id)
    ensures var r := Add(s, q, choice1, choice2).state;
            var d := Run(View(r.mem, r.env.xl), sem, c, n);
            n <= 11 && d.pc == q.repl && SameVisible(d, c)
  {
    hide Whole, Owns, RequestSound, Add, View, Run, SameVisible, SiteOf, Reachable, Emitted, LoadedCell, BuffersFilled, Restorable;
    AddedEntry(s, q, choice1, choice2);
    AddOwns(s, w, q, choice1, choice2);
    var r := Add(s, q, choice1, choice2).state;
    var e := r.entries[|s.entries|];
    PatchedAnyhow(r, w, |s.entries|);
    EmittedAt(r, w, |s.entries|);
    AddedWord(s, q, choice1, choice2);
    ViewAt(r.mem, r.env.xl, c.pc);
    n := PatchRuns(View(r.mem, r.env.xl), sem, r.env.plat, e, c);
  }

  lemma EmittedAt(s: State, w: World, i: nat)
    requires Whole(s, w) && i < |s.entries| && s.entries[i].isPatched
    ensures Emitted(View(s.mem, s.env.xl), s.env.plat, s.entries[i])
  {
    hide Steady, Located, WordsRight, Emitted, View;
  }

  /** The function of a patch that has just been added holds that patch's word. */
  lemma AddedWord(s: State, q: Request, choice1: Addr, choice2: Addr)
    requires Add(s, q, choice1, choice2).Added?
    requires var r := Add(s, q, choice1, choice2).state; |r.entries| == |s.entries| + 1 && r.entries[|s.entries|].isPatched
    ensures var r := Add(s, q, choice1, choice2).state;
            r.mem(r.entries[|s.entries|].phys) == r.entries[|s.entries|].replaceWith
  {
    hide PatchEntry, Allocate, NeedsTrampoline, Granted, Add, BlocksOf;
    AddCases(s, q, choice1, choice2);
    var l := Listed(s, q, choice1, choice2);
    NewEntryFields(q, if NeedsTrampoline(q.process, q.repl) then choice1 else 0, choice2);
    assert !l.entries[|s.entries|].isPatched;
    WordAfterPatch(l, |s.entries|);
  }

  lemma WordAfterPatch(s: State, k: nat)
    requires k < |s.entries| && !s.entries[k].isPatched && PatchEntry(s, k).Some? && PatchEntry(s, k).value.entries[k].isPatched
    ensures var r := PatchEntry(s, k).value; r.mem(r.entries[k].phys) == r.entries[k].replaceWith
  {
    hide PatchWrites, SiteOf, ReplacementWord, BuffersUsable;
    var site := SiteOf(s.env, s.mem, s.entries[k]);
    if site.Resolved? {
      LastWriteWins(s.env, s.mem, Filled(s.entries[k], site.eff, site.phys, s.mem(site.phys)));
    }
  }

  // ----- FPRemoveFunctionPatch -----

  /** Removing a patch that is off touches neither memory nor the other entries, in either form of the code. */
  lemma RemovalOfUnpatched(s: State, k: nat, guardFirst: bool)
    requires k < |s.entries| && !s.entries[k].isPatched
    ensures var e := s.entries[k];
            Remove(s, k, guardFirst) ==
            Some(s.(entries := s.entries[..k] + s.entries[k + 1..],
                    heap := s.heap - (if e.jumpToOriginal != 0 then {Block(e.jumpToOriginal, 5)} else {})
                                   - (if e.jumpData != 0 then {Block(e.jumpData, 15)} else {})))
  {
    var e := s.entries[k];
    assert s.heap - BlocksOf(e) == s.heap - (if e.jumpToOriginal != 0 then {Block(e.jumpToOriginal, 5)} else {})
                                          - (if e.jumpData != 0 then {Block(e.jumpData, 15)} else {});
  }

  // ----- the callbacks -----

  /** An unload clears the patches of the library that is recognised, and no others, before it checks the memory. */
  lemma InvalidatedEntries(es: seq<Entry>, library: Option<Library>)
    ensures |Invalidated(es, library)| == |es|
    ensures forall i :: 0 <= i < |es| ==>
              Invalidated(es, library)[i] ==
              if es[i].target.LibraryFunction? && library == Some(es[i].target.library) then es[i].(isPatched := false) else es[i]
  {
  }

  /**
   After an unload: a patch of the recognised library is off. Any other stays as it is if the memory can be
   read and the last patch at its address that is still on has its word there, or if the memory cannot
   be read; else it is off.
   */
  lemma UnloadedEntries(s: State, library: Option<Library>)
    ensures var r := Unloaded(s, library);
            && r.mem == s.mem && r.env == s.env && r.heap == s.heap && |r.entries| == |s.entries|
            && forall i :: 0 <= i < |s.entries| ==>
                 var e := s.entries[i];
                 var named := e.target.LibraryFunction? && library == Some(e.target.library);
                 && (named ==> r.entries[i] == e.(isPatched := false))
                 && (!named && !s.env.readable ==> r.entries[i] == e)
                 && (!named && s.env.readable ==>
                       r.entries[i] == if e.isPatched && !StillThere(s.mem, Invalidated(s.entries, library), |s.entries|, e.phys)
                                       then e.(isPatched := false) else e)
  {
    hide StillThere, Checked;
    var u := s.(entries := Invalidated(s.entries, library));
    InvalidatedEntries(s.entries, library);
    CheckedMeans(u);
  }

  /** An application start under another process id than 2 and 15 does nothing. */
  lemma StartedElsewhere(s: State, upid: Word)
    requires upid != 2 && upid != 15
    ensures Started(s, upid) == Some(s)
  {
  }

  /** Under 2 and 15 it is the memory check, and then the sweep of what that has left. */
  lemma StartedHere(s: State, upid: Word)
    requires upid == 2 || upid == 15
    ensures Started(s, upid) == PatchMany(Checked(s), Upto(|s.entries|))
  {
    hide Scan, PatchMany;
  }

  // ----- the order of the writes -----

  /**
   PatchFunction cut off after any number of single-word writes: the pointer cell keeps its old content
   until all words of `jumpToOriginal` are in place; from then on it holds that buffer's address, and
   the buffer stays complete.
   */
  lemma PointerAfterBuffer(env: Env, w: World, mem: Memory, e: Entry, n: nat)
    requires Injective(env.xl) && 0 !in w.data && EntryLaidOut(env, w, e) && e.phys !in w.data && e.realCall !in OwnCells(e)
    requires n <= |PatchWrites(env, e)|
    ensures var m := Apply(mem, PatchWrites(env, e)[..n]);
            var words := JumpToOriginalWords(e.eff, e.replaced);
            if n <= |words| then m(env.xl(e.realCall)) == mem(env.xl(e.realCall))
            else m(env.xl(e.realCall)) == e.jumpToOriginal && Holds(View(m, env.xl), e.jumpToOriginal, words)
  {
    hide Injective, EntryLaidOut, OwnCells, JumpToOriginalWords, BlockWrites, Apply, Misses, Holds, View, TrampolineWords, NeedsTrampoline;
    var words := JumpToOriginalWords(e.eff, e.replaced);
    var block := BlockWrites(env.xl, e.jumpToOriginal, words);
    BlockLength(env.xl, e.jumpToOriginal, words);
    var rest := RestOfWrites(env, e);
    if n <= |words| {
      assert PatchWrites(env, e)[..n] == block[..n];
      BlockBeforePointer(env, w, e);
      ShortMisses(block, n, env.xl(e.realCall));
      ApplyMisses(mem, block[..n], env.xl(e.realCall));
    } else {
      var k := n - |words| - 1;
      assert PatchWrites(env, e)[..n] == block + ([(env.xl(e.realCall), e.jumpToOriginal)] + rest[..k]);
      PointerStays(env, w, mem, e, k);
      BufferStays(env, w, mem, e, k);
    }
  }

  /** The writes behind that of the pointer cell. */
  function RestOfWrites(env: Env, e: Entry): Writes {
    (if NeedsTrampoline(e.process, e.repl)
     then BlockWrites(env.xl, e.jumpData, TrampolineWords(e.process, env.plat, e.eff, e.replaced, e.repl)) else [])
    + [(e.phys, e.replaceWith)]
  }

  lemma {:induction false} BlockLength(xl: Memory, b: Addr, ws: seq<Word>)
    ensures |BlockWrites(xl, b, ws)| == |ws|
    decreases |ws|
  {
    hide Next;
    if ws != [] {
      BlockLength(xl, Next(b), ws[1..]);
    }
  }

  lemma ShortMisses(ws: Writes, n: nat, p: Addr)
    requires Misses(ws, p) && n <= |ws|
    ensures Misses(ws[..n], p)
  {
  }

  lemma BlockBeforePointer(env: Env, w: World, e: Entry)
    requires Injective(env.xl) && 0 !in w.data && EntryLaidOut(env, w, e) && e.realCall !in OwnCells(e)
    ensures Misses(BlockWrites(env.xl, e.jumpToOriginal, JumpToOriginalWords(e.eff, e.replaced)), env.xl(e.realCall))
  {
    WordCounts(e, env.plat);
    hide JumpToOriginalWords, Cells, Misses, Short, Aligned, BlockWrites, NeedsTrampoline;
    CellsGrow(e.jumpToOriginal, |JumpToOriginalWords(e.eff, e.replaced)|, 5);
    BlockWritesMiss(env.xl, e.jumpToOriginal, JumpToOriginalWords(e.eff, e.replaced), env.xl(e.realCall));
  }

  /** No later write is to the pointer cell. */
  lemma RestMissesPointer(env: Env, w: World, e: Entry)
    requires Injective(env.xl) && 0 !in w.data && EntryLaidOut(env, w, e) && e.phys !in w.data && e.realCall !in OwnCells(e)
    ensures Misses(RestOfWrites(env, e), env.xl(e.realCall))
  {
    WordCounts(e, env.plat);
    hide JumpToOriginalWords, TrampolineWords, Cells, Misses, Short, Aligned, BlockWrites, NeedsTrampoline;
    var p := env.xl(e.realCall);
    var tramp := TrampolineWords(e.process, env.plat, e.eff, e.replaced, e.repl);
    OneMisses(e.phys, e.replaceWith, p);
    if NeedsTrampoline(e.process, e.repl) {
      CellsGrow(e.jumpData, |tramp|, 15);
      BlockWritesMiss(env.xl, e.jumpData, tramp, p);
      MissesAdd(BlockWrites(env.xl, e.jumpData, tramp), [(e.phys, e.replaceWith)], p);
    } else {
      assert [] + [(e.phys, e.replaceWith)] == [(e.phys, e.replaceWith)];
    }
  }

  lemma PointerStays(env: Env, w: World, mem: Memory, e: Entry, k: nat)
    requires Injective(env.xl) && 0 !in w.data && EntryLaidOut(env, w, e) && e.phys !in w.data && e.realCall !in OwnCells(e)
    requires k <= |RestOfWrites(env, e)|
    ensures var block := BlockWrites(env.xl, e.jumpToOriginal, JumpToOriginalWords(e.eff, e.replaced));
            Apply(mem, block + ([(env.xl(e.realCall), e.jumpToOriginal)] + RestOfWrites(env, e)[..k]))(env.xl(e.realCall)) == e.jumpToOriginal
  {
    hide Injective, EntryLaidOut, OwnCells, JumpToOriginalWords, BlockWrites, Apply, Misses, RestOfWrites;
    var p := env.xl(e.realCall);
    var block, tail := BlockWrites(env.xl, e.jumpToOriginal, JumpToOriginalWords(e.eff, e.replaced)), RestOfWrites(env, e)[..k];
    var a := block + [(p, e.jumpToOriginal)];
    assert block + ([(p, e.jumpToOriginal)] + tail) == a + tail;
    RestMissesPointer(env, w, e);
    ShortMisses(RestOfWrites(env, e), k, p);
    ApplyAdd(mem, a, tail);
    ApplyMisses(Apply(mem, a), tail, p);
    ApplyLast(mem, block, p, e.jumpToOriginal);
  }

  lemma BufferStays(env: Env, w: World, mem: Memory, e: Entry, k: nat)
    requires Injective(env.xl) && 0 !in w.data && EntryLaidOut(env, w, e) && e.phys !in w.data && e.realCall !in OwnCells(e)
    requires k <= |RestOfWrites(env, e)|
    ensures var words := JumpToOriginalWords(e.eff, e.replaced);
            var block := BlockWrites(env.xl, e.jumpToOriginal, words);
            Holds(View(Apply(mem, block + ([(env.xl(e.realCall), e.jumpToOriginal)] + RestOfWrites(env, e)[..k])), env.xl), e.jumpToOriginal, words)
  {
    WordCounts(e, env.plat);
    hide Injective, JumpToOriginalWords, TrampolineWords, Cells, BlockWrites, Apply, Misses, Holds, View, Short, Aligned, NeedsTrampoline;
    var words := JumpToOriginalWords(e.eff, e.replaced);
    var block := BlockWrites(env.xl, e.jumpToOriginal, words);
    var more := [(env.xl(e.realCall), e.jumpToOriginal)] + RestOfWrites(env, e);
    var tail := [(env.xl(e.realCall), e.jumpToOriginal)] + RestOfWrites(env, e)[..k];
    assert tail == more[..k + 1];
    CellsGrow(e.jumpToOriginal, |words|, 5);
    assert forall c :: c in Cells(e.jumpToOriginal, |words|) ==> c in OwnCells(e) && env.xl(c) in w.data;
    BlockWritten(mem, env.xl, e.jumpToOriginal, words);
    ApplyAdd(mem, block, tail);
    var m, m' := Apply(mem, block), Apply(mem, block + tail);
    forall c | c in Cells(e.jumpToOriginal, |words|)
      ensures View(m, env.xl)(c) == View(m', env.xl)(c)
    {
      RestMisses(env, w, e, c);
      assert more == [(env.xl(e.realCall), e.jumpToOriginal)]
                     + (if NeedsTrampoline(e.process, e.repl)
                        then BlockWrites(env.xl, e.jumpData, TrampolineWords(e.process, env.plat, e.eff, e.replaced, e.repl)) else [])
                     + [(e.phys, e.replaceWith)];
      ShortMisses(more, k + 1, env.xl(c));
      ApplyMisses(m, tail, env.xl(c));
      ViewAt(m, env.xl, c);
      ViewAt(m', env.xl, c);
    }
    HoldsFrame(View(m, env.xl), View(m', env.xl), e.jumpToOriginal, words);
  }
}
