/**
 What the removal as written leads to when a patch is added before the next sweep.
 */
module Divergence {
  import opened Words
  import opened Machine
  import opened CodeGen
  import opened Loading
  import opened Dispatch
  import opened PatchStack
  import opened Keeping
  import opened Undoing
  import opened Ownership

  /** A patch of a given address, with usable buffers, on `a`. */
  predicate GivenOn(e: Entry, a: Addr) {
    e.target.GivenAddress? && e.phys == a && e.eff != 0 && BuffersUsable(e)
  }

  function WordOf(e: Entry): Word {
    ReplacementWord(e.process, e.repl, e.jumpData)
  }

  /** Patching such an entry links it to whatever word it finds. */
  lemma PatchGiven(s: State, k: nat, a: Addr) returns (s': State)
    requires k < |s.entries| && GivenOn(s.entries[k], a) && !s.entries[k].isPatched && s.env.readable
    ensures PatchEntry(s, k) == Some(s')
    ensures s'.env == s.env && s'.heap == s.heap && s'.mem(a) == WordOf(s.entries[k])
    ensures s'.entries == s.entries[k := Filled(s.entries[k], s.entries[k].eff, a, s.mem(a))]
  {
    hide PatchWrites, BuffersUsable, ReplacementWord;
    var e := s.entries[k];
    var e' := Filled(e, e.eff, a, s.mem(a));
    s' := s.(mem := Apply(s.mem, PatchWrites(s.env, e')), entries := s.entries[k := e']);
    LastWriteWins(s.env, s.mem, e');
  }

  lemma FilledGiven(e: Entry, eff: Addr, a: Addr, v: Word)
    requires GivenOn(e, a) && eff == e.eff
    ensures var f := Filled(e, eff, a, v);
            && GivenOn(f, a) && WordOf(f) == WordOf(e) && f.isPatched && f.replaced == v && f.replaceWith == WordOf(e)
            && f.eff == e.eff
    ensures GivenOn(Off(e), a) && WordOf(Off(e)) == WordOf(e) && !Off(e).isPatched && Off(e).eff == e.eff
  {
    hide ReplacementWord, NeedsTrampoline, Short;
  }

  /** Sweeping two entries of which only the first is off. */
  lemma SweepFirstOfTwo(s: State, a: Addr) returns (s': State)
    requires |s.entries| == 2 && GivenOn(s.entries[0], a) && !s.entries[0].isPatched && s.entries[1].isPatched && s.env.readable
    ensures Sweep(s) == Some(s') && s'.env == s.env && s'.mem(a) == WordOf(s.entries[0])
    ensures s'.entries == [Filled(s.entries[0], s.entries[0].eff, a, s.mem(a)), s.entries[1]]
  {
    hide PatchWrites, BuffersUsable, ReplacementWord, Filled, PatchValue;
    s' := PatchGiven(s, 0, a);
    assert Upto(2) == [0, 1] && [0, 1][1..] == [1] && [1][1..] == [];
    PatchedIsSkipped(s', 1);
    assert PatchMany(s', [1]) == PatchMany(s', []) == Some(s');
  }

  lemma PatchedIsSkipped(s: State, k: nat)
    requires k < |s.entries| && s.entries[k].isPatched
    ensures PatchEntry(s, k) == Some(s)
  {
  }

  /** Sweeping two entries that are both off. */
  lemma SweepTwo(s: State, a: Addr) returns (s': State)
    requires |s.entries| == 2 && GivenOn(s.entries[0], a) && GivenOn(s.entries[1], a)
    requires !s.entries[0].isPatched && !s.entries[1].isPatched && s.env.readable
    ensures Sweep(s) == Some(s')
    ensures |s'.entries| == 2 && s'.entries[0] == Filled(s.entries[0], s.entries[0].eff, a, s.mem(a))
  {
    hide PatchWrites, BuffersUsable, ReplacementWord, Filled, PatchValue, GivenOn;
    var s1 := PatchGiven(s, 0, a);
    s' := PatchGiven(s1, 1, a);
    assert Upto(2) == [0, 1] && [0, 1][1..] == [1] && [1][1..] == [];
    assert PatchMany(s1, [1]) == PatchMany(s', []) == Some(s');
  }

  /** The memory check of two patched entries, the second of which is not the one on top. */
  lemma CheckOfTwo(s: State, a: Addr)
    requires |s.entries| == 2 && s.env.readable
    requires s.entries[0].isPatched && s.entries[1].isPatched && s.entries[0].phys == a && s.entries[1].phys == a
    requires s.mem(a) != s.entries[1].replaceWith
    ensures Checked(s) == s.(entries := [Off(s.entries[0]), Off(s.entries[1])])
  {
    var es := s.entries;
    var es1 := es[1 := Off(es[1])];
    var es2 := es1[0 := Off(es[0])];
    assert Scan(s.mem, true, es, 2, {}, {}) == Scan(s.mem, true, es1, 1, {}, {} + {a});
    assert Scan(s.mem, true, es1, 1, {}, {} + {a}) == Scan(s.mem, true, es2, 0, {}, {} + {a});
    assert es2 == [Off(es[0]), Off(es[1])];
  }

  /** Two patches of given addresses on one function, the second applied on top of the first. */
  ghost predicate TwoPatches(s: State, a: Addr) {
    && |s.entries| == 2 && s.env.readable
    && GivenOn(s.entries[0], a) && GivenOn(s.entries[1], a) && s.entries[0].isPatched && s.entries[1].isPatched
    && s.entries[0].replaced != 0 && s.entries[0].replaceWith != 0
    && s.entries[1].replaced == s.entries[0].replaceWith && s.mem(a) == s.entries[1].replaceWith
    && s.entries[1].replaceWith == WordOf(s.entries[1])
  }

  /** As written, removing the first of them leaves the second off, on the original word. */
  lemma RemoveFirstOfTwo(s: State, a: Addr) returns (s': State)
    requires TwoPatches(s, a)
    ensures Remove(s, 0, false) == Some(s') && s'.env == s.env
    ensures s'.entries == [Off(s.entries[1])] && s'.mem(a) == s.entries[0].replaced
    ensures s'.heap == s.heap - BlocksOf(s.entries[0])
  {
    hide BlocksOf, ReplacementWord, BuffersUsable;
    var es := s.entries;
    assert LaterFrom(es, 0, 2) == [];
    assert LaterFrom(es, 0, 1) == [1] + LaterFrom(es, 0, 2) == [1];
    assert [1][..0] == [];
    var s1 := RestoreEntry(s, 1);
    assert s1 == s.(mem := Updated(s.mem, a, es[1].replaced), entries := es[1 := Off(es[1])]);
    assert RestoreMany(s, [1]) == RestoreMany(s1, []) == s1;
    var s2 := RestoreEntry(s1, 0);
    assert s2.entries == [Off(es[0]), Off(es[1])] && s2.mem == Updated(s1.mem, a, es[0].replaced);
    assert Erase(s2.entries, 0) == [Off(es[1])];
    assert Unstacked(s, 0) == s2;
    s' := s2.(entries := [Off(es[1])], heap := s.heap - BlocksOf(es[0]));
  }

  /**
   Two patches on one function; the first is removed as the code is written, a third is added, and
   the patches are swept. Patch order and list order then differ: the older patch lies on top of the
   newer one. After the next memory check and sweep it has displaced its own branch word: a process
   that it does not admit is sent round and round.
   */
  lemma RemoveAddSweepLinksToItself(s: State, a: Addr, q: Request, choice1: Addr, choice2: Addr)
    requires TwoPatches(s, a)
    requires Granted(s.(heap := s.heap - BlocksOf(s.entries[0])), q, choice1, choice2)
    requires var e := NewEntry(q, if NeedsTrampoline(q.process, q.repl) then choice1 else 0, choice2);
             GivenOn(e, a) && WordOf(e) != WordOf(s.entries[1])
    ensures var s1 := Remove(s, 0, false);
            s1.Some? &&
            var s2 := Add(s1.value, q, choice1, choice2);
            s2.Added? && |s2.state.entries| == 2 && !s2.state.entries[0].isPatched && s2.state.entries[1].isPatched &&
            var s3 := Sweep(s2.state);
            s3.Some? && |s3.value.entries| == 2
            && s3.value.entries[0].replaced == s3.value.entries[1].replaceWith
            && s3.value.mem(a) == s3.value.entries[0].replaceWith &&
            var s5 := Sweep(Checked(s3.value));
            s5.Some? && |s5.value.entries| == 2 && s5.value.entries[0].isPatched
            && s5.value.entries[0].replaced == s5.value.entries[0].replaceWith
  {
    hide BlocksOf, ReplacementWord, BuffersUsable, GivenOn, WordOf, Granted, Remove, Add, Sweep, Checked, NewEntry, Filled, PatchEntry, NeedsTrampoline;
    var y := Off(s.entries[1]);
    var e := NewEntry(q, if NeedsTrampoline(q.process, q.repl) then choice1 else 0, choice2);
    FilledGiven(s.entries[1], s.entries[1].eff, a, 0);
    NewEntryFields(q, if NeedsTrampoline(q.process, q.repl) then choice1 else 0, choice2);
    var s1 := RemoveFirstOfTwo(s, a);
    AddCasesOfHeap(s, s1, q, choice1, choice2);
    var l := Listed(s1, q, choice1, choice2);
    assert l.entries == [y, e];
    var s2 := PatchGiven(l, 1, a);
    FilledGiven(e, e.eff, a, s1.mem(a));
    var z := Filled(e, e.eff, a, s1.mem(a));
    assert s2.entries == [y, z];
    var s3 := SweepFirstOfTwo(s2, a);
    FilledGiven(y, y.eff, a, s2.mem(a));
    var y3 := Filled(y, y.eff, a, s2.mem(a));
    GivenIsOn(y3, a);
    GivenIsOn(z, a);
    CheckOfTwo(s3, a);
    var s4 := Checked(s3);
    FilledGiven(y3, y3.eff, a, s3.mem(a));
    FilledGiven(z, z.eff, a, s3.mem(a));
    FilledGiven(Off(y3), y3.eff, a, s3.mem(a));
    var s5 := SweepTwo(s4, a);
  }

  lemma GivenIsOn(e: Entry, a: Addr)
    requires GivenOn(e, a)
    ensures e.phys == a
  {
  }

  lemma AddCasesOfHeap(s: State, s1: State, q: Request, choice1: Addr, choice2: Addr)
    requires |s.entries| > 0 && s1.heap == s.heap - BlocksOf(s.entries[0])
    requires Granted(s.(heap := s.heap - BlocksOf(s.entries[0])), q, choice1, choice2)
    ensures var r := PatchEntry(Listed(s1, q, choice1, choice2), |s1.entries|);
            Add(s1, q, choice1, choice2) == if r.Some? then Added(r.value) else Stopped
  {
    hide BlocksOf, PatchEntry, Listed, Add, NeedsTrampoline;
    AddCases(s1, q, choice1, choice2);
  }

  /** A patch that has displaced its own branch word keeps every process it does not admit for any number of steps. */
  lemma {:induction false} SelfLinkedPatchLoops(code: Memory, sem: Semantics, plat: Platform, e: Entry, c: Cpu, rounds: nat)
    returns (n: nat)
    requires Reachable(e) && Emitted(code, plat, e) && NeedsTrampoline(e.process, e.repl)
    requires e.replaced == e.replaceWith && !Admits(e.process, code(plat.UpidCell()))
    requires code(c.pc) == e.replaceWith
    ensures n >= rounds && code(Run(code, sem, c, n).pc) == e.replaceWith
    decreases rounds
  {
    hide *;
    n := 0;
    RunZero(code, sem, c);
    if rounds > 0 {
      var m := PatchRuns(code, sem, plat, e, c);
      var d := Run(code, sem, c, m);
      ResumeHeld(code, d.pc, e.eff, e.replaced);
      var k := SelfLinkedPatchLoops(code, sem, plat, e, d, rounds - 1);
      RunAdd(code, sem, c, m, k);
      n := m + k;
    }
  }

  lemma RunZero(code: Memory, sem: Semantics, c: Cpu)
    ensures Run(code, sem, c, 0) == c
  {
  }

  // ----- an instance -----

  const ADDRESS: Addr := 0x02000010

  /** A patch for all processes, and on top of it one for a single process, on the same function. */
  function ExampleEntries(): seq<Entry> {
    var site := GivenAddress(ADDRESS, ADDRESS);
    var x := Entry(1, site, AllProcesses, 0x00800000, 0x00A00000, 0, 0x00900000, ADDRESS, ADDRESS, 0x60000000, Ba(0x00800000), true);
    var y := Entry(2, site, OneProcess(5), 0x00800100, 0x00A00004, 0x00900200, 0x00900300, ADDRESS, ADDRESS, Ba(0x00800000), Ba(0x00900200), true);
    [x, y]
  }

  function Example(): State {
    State((p: Addr) => if p == ADDRESS then Ba(0x00900200) else 0x60000000,
          Env(Loader(map[], map[]), {}, map[], {}, (p: Addr) => p, true, Platform(0, 0)),
          ExampleEntries(), {})
  }

  const THIRD := Request(3, GivenAddress(ADDRESS, ADDRESS), AllProcesses, 0x00800200, 0x00A00008)

  /** The situation of `RemoveAddSweepLinksToItself` occurs. */
  lemma ExampleDiverges()
    ensures TwoPatches(Example(), ADDRESS)
    ensures var s1 := Remove(Example(), 0, false);
            s1.Some? &&
            var s2 := Add(s1.value, THIRD, 0, 0x00900400);
            s2.Added? &&
            var s3 := Sweep(s2.state);
            s3.Some? &&
            var s5 := Sweep(Checked(s3.value));
            s5.Some? && |s5.value.entries| == 2 && s5.value.entries[0].replaced == s5.value.entries[0].replaceWith
  {
    ExampleIsSuch();
    hide *;
    RemoveAddSweepLinksToItself(Example(), ADDRESS, THIRD, 0, 0x00900400);
  }

  lemma ExampleIsSuch()
    ensures TwoPatches(Example(), ADDRESS)
    ensures Granted(Example().(heap := Example().heap - BlocksOf(Example().entries[0])), THIRD, 0, 0x00900400)
    ensures var e := NewEntry(THIRD, if NeedsTrampoline(THIRD.process, THIRD.repl) then 0 else 0, 0x00900400);
            GivenOn(e, ADDRESS) && WordOf(e) != WordOf(Example().entries[1])
  {
    hide Cells;
    assert Short(0x00900200);
    assert Ba(0x00800000) != 0 && Ba(0x00800200) != Ba(0x00900200);
  }
}
