/**
 What a call of a patched function does, for a stack of patches of any height.

 `es` lists the patches on one function from the first applied to the last; `w` is the word the
 function started with before any of them; `a` is the function's address.
 */
module Dispatch {
  import opened Words
  import opened Machine
  import opened CodeGen

  /** The word found below patch `i`: the original word, or the branch of the patch before. */
  function Below(w: Word, es: seq<Entry>, i: nat): Word
    requires i <= |es|
  {
    if i == 0 then w else es[i - 1].replaceWith
  }

  /** Each patch has saved the word that the patch before it had written. */
  predicate Linked(w: Word, es: seq<Entry>) {
    forall i :: 0 <= i < |es| ==> es[i].replaced == Below(w, es, i)
  }

  /** The buffers of a patch hold what the generators emit for it. */
  predicate Emitted(code: Memory, plat: Platform, e: Entry) {
    && Holds(code, e.jumpToOriginal, JumpToOriginalWords(e.eff, e.replaced))
    && (NeedsTrampoline(e.process, e.repl) ==>
          Holds(code, e.jumpData, TrampolineWords(e.process, plat, e.eff, e.replaced, e.repl)))
  }

  /** The addresses of a patch can be branched to, and its branch word is the one for them. */
  predicate Reachable(e: Entry) {
    && Aligned(e.repl)
    && (NeedsTrampoline(e.process, e.repl) ==> Short(e.jumpData))
    && e.replaceWith == ReplacementWord(e.process, e.repl, e.jumpData)
  }

  ghost predicate StackBodies(code: Memory, plat: Platform, w: Word, a: Addr, es: seq<Entry>) {
    && Linked(w, es)
    && (forall i :: 0 <= i < |es| ==> es[i].eff == a && Reachable(es[i]) && Emitted(code, plat, es[i]))
  }

  /** The memory holds the whole stack, with the last patch's branch in the function itself. */
  ghost predicate StackIn(code: Memory, plat: Platform, w: Word, a: Addr, es: seq<Entry>) {
    StackBodies(code, plat, w, a, es) && code(a) == Below(w, es, |es|)
  }

  /** The most recently applied of the first `i` patches that admits process `u`; -1 if there is none. */
  function Chosen(es: seq<Entry>, u: Word, i: nat): int
    requires i <= |es|
  {
    if i == 0 then -1 else if Admits(es[i - 1].process, u) then i - 1 else Chosen(es, u, i - 1)
  }

  lemma {:induction false} ChosenIsLast(es: seq<Entry>, u: Word, i: nat)
    requires i <= |es|
    ensures var j := Chosen(es, u, i);
            && -1 <= j < i
            && (0 <= j ==> Admits(es[j].process, u))
            && (forall k :: j < k < i ==> !Admits(es[k].process, u))
  {
    if i > 0 {
      ChosenIsLast(es, u, i - 1);
    }
  }

  /** Where a call ends up: in the replacement of patch `j`, or behind the original first instruction. */
  function Destination(a: Addr, es: seq<Entry>, j: int): Addr
    requires -1 <= j < |es|
  {
    if j < 0 then Next(a) else es[j].repl
  }

  /** The state, up to r11, CTR and CR0, in which it ends up there. */
  ghost function Arrival(sem: Semantics, w: Word, c: Cpu, j: int): Cpu {
    if j < 0 then sem(w, c) else c
  }

  // ----- one level of the stack -----

  lemma StepOther(code: Memory, sem: Semantics, c: Cpu)
    requires Decode(code(c.pc)).Other?
    ensures Run(code, sem, c, 1) == sem(code(c.pc), c)
  {
    hide Decode;
    OneStep(code, sem, c);
  }

  lemma StepBa(code: Memory, sem: Semantics, c: Cpu, t: Addr)
    requires code(c.pc) == Ba(t) && Short(t)
    ensures Run(code, sem, c, 1) == c.(pc := t)
  {
    hide Decode, Ba, Short;
    BaDecodes(t);
    OneStep(code, sem, c);
  }

  lemma DirectIsShort(e: Entry)
    requires Reachable(e) && !NeedsTrampoline(e.process, e.repl)
    ensures Short(e.repl) && e.replaceWith == Ba(e.repl)
  {
    hide Ba, Short;
    ShortMeans(e.repl);
  }

  /**
   Running the branch word of a patch: a process the patch admits arrives in the replacement; any
   other arrives at the displaced word, which the jump back to the function follows.
   */
  lemma PatchRuns(code: Memory, sem: Semantics, plat: Platform, e: Entry, c: Cpu) returns (n: nat)
    requires Reachable(e) && Emitted(code, plat, e) && code(c.pc) == e.replaceWith
    ensures var d := Run(code, sem, c, n);
            && n > 0 && SameVisible(d, c)
            && (if Admits(e.process, code(plat.UpidCell())) then n <= 11 && d.pc == e.repl
                else n <= 7 && d.ctr == c.ctr && Holds(code, d.pc, ResumeWords(e.eff, e.replaced)))
  {
    hide Run, Holds, Ba, Short, LoadedCell, TrampolineWords, ResumeWords, JumpToOriginalWords;
    if NeedsTrampoline(e.process, e.repl) {
      StepBa(code, sem, c, e.jumpData);
      var c1 := c.(pc := e.jumpData);
      n := TrampolineRuns(code, sem, c1, e.process, plat, e.eff, e.replaced, e.repl);
      RunAdd(code, sem, c, 1, n);
      n := n + 1;
    } else {
      DirectIsShort(e);
      StepBa(code, sem, c, e.repl);
      n := 1;
    }
  }

  // ----- the whole stack -----

  /** Steps of a run that passes `i` levels and ends at patch `j`, or at the bottom. */
  function StepBound(i: nat, j: int): int {
    if j < 0 then 7 * i + 5 else 7 * (i - 1 - j) + 11
  }

  /**
   Executing, at any address, the word found below patch `i`. At the bottom (`i == 0`) that is the
   original instruction, which falls through to whatever follows.
   */
  lemma {:induction false} WordRuns(code: Memory, sem: Semantics, plat: Platform, w: Word, a: Addr, es: seq<Entry>, i: nat, c: Cpu)
    returns (n: nat)
    requires StackBodies(code, plat, w, a, es) && i <= |es|
    requires Displaceable(sem, w) && Aligned(Next(a))
    requires code(c.pc) == Below(w, es, i)
    ensures var j := Chosen(es, code(plat.UpidCell()), i);
            var d := Run(code, sem, c, n);
            && -1 <= j < i
            && n <= StepBound(i, j)
            && (i == 0 ==> n == 1 && d == sem(w, c))
            && (i > 0 ==> d.pc == Destination(a, es, j) && SameVisible(d, Arrival(sem, w, c, j)))
    decreases i
  {
    hide Run, Holds, Ba, Short, LoadedCell, TrampolineWords, JumpToOriginalWords, Next, Reachable, Emitted, Aligned, Decode;
    if i == 0 {
      StepOther(code, sem, c);
      n := 1;
    } else {
      var e := es[i - 1];
      n := PatchRuns(code, sem, plat, e, c);
      if !Admits(e.process, code(plat.UpidCell())) {
        n := DisplacedWordRuns(code, sem, plat, w, a, es, i, c, n);
      }
    }
  }

  lemma {:induction false} DisplacedWordRuns(code: Memory, sem: Semantics, plat: Platform, w: Word, a: Addr, es: seq<Entry>, i: nat, c: Cpu, m: nat)
    returns (n: nat)
    requires StackBodies(code, plat, w, a, es) && 0 < i <= |es|
    requires Displaceable(sem, w) && Aligned(Next(a))
    requires var d := Run(code, sem, c, m);
             m <= 7 && SameVisible(d, c) && d.ctr == c.ctr && Holds(code, d.pc, ResumeWords(a, es[i - 1].replaced))
    ensures var j := Chosen(es, code(plat.UpidCell()), i - 1);
            var d := Run(code, sem, c, n);
            && -1 <= j < i - 1
            && n <= StepBound(i, j)
            && d.pc == Destination(a, es, j) && SameVisible(d, Arrival(sem, w, c, j))
    decreases i, 0
  {
    hide *;
    var d := Run(code, sem, c, m);
    SavedWordIsBelow(code, plat, w, a, es, i);
    ResumeHeld(code, d.pc, a, es[i - 1].replaced);
    n := WordRuns(code, sem, plat, w, a, es, i - 1, d);
    RunAdd(code, sem, c, m, n);
    if i == 1 {
      n := BottomResumes(code, sem, w, a, es, c, m);
      ChosenAtBottom(es, code(plat.UpidCell()));
    } else {
      var j := Chosen(es, code(plat.UpidCell()), i - 1);
      ArrivalSame(sem, w, d, c, j);
      StepBoundGrows(i - 1, j);
      n := m + n;
      SameVisibleTransitive(Run(code, sem, c, n), Arrival(sem, w, d, j), Arrival(sem, w, c, j));
    }
  }

  lemma SavedWordIsBelow(code: Memory, plat: Platform, w: Word, a: Addr, es: seq<Entry>, i: nat)
    requires StackBodies(code, plat, w, a, es) && 0 < i <= |es|
    ensures es[i - 1].replaced == Below(w, es, i - 1)
  {
    hide Emitted, Reachable;
  }

  lemma ChosenAtBottom(es: seq<Entry>, u: Word)
    ensures Chosen(es, u, 0) == -1
  {
  }

  lemma StepBoundGrows(i: nat, j: int)
    requires j < i
    ensures StepBound(i, j) + 7 == StepBound(i + 1, j)
  {
  }

  /** Behind the original instruction, the lowest trampoline jumps back into the function. */
  lemma BottomResumes(code: Memory, sem: Semantics, w: Word, a: Addr, es: seq<Entry>, c: Cpu, m: nat) returns (n: nat)
    requires Displaceable(sem, w) && Aligned(Next(a)) && m <= 7
    requires var d := Run(code, sem, c, m);
             && SameVisible(d, c) && d.ctr == c.ctr
             && Run(code, sem, c, m + 1) == sem(w, d)
             && Holds(code, Next(d.pc), JumpWords(Next(a)))
    ensures var d := Run(code, sem, c, n);
            n <= StepBound(1, -1) && d.pc == Destination(a, es, -1) && SameVisible(d, Arrival(sem, w, c, -1))
  {
    hide *;
    var d := Run(code, sem, c, m);
    var e := sem(w, d);
    DisplaceableAt(sem, w, d, c);
    JumpRuns(code, sem, e, Next(a));
    JumpSize(Next(a));
    n := m + 1 + |JumpWords(Next(a))|;
    RunAdd(code, sem, c, m + 1, |JumpWords(Next(a))|);
    SameVisibleTransitive(Run(code, sem, c, n), e, sem(w, c));
    BottomMeans(sem, w, a, es, c);
  }

  lemma BottomMeans(sem: Semantics, w: Word, a: Addr, es: seq<Entry>, c: Cpu)
    ensures Destination(a, es, -1) == Next(a) && Arrival(sem, w, c, -1) == sem(w, c) && StepBound(1, -1) == 12
  {
  }

  lemma DisplaceableAt(sem: Semantics, w: Word, d: Cpu, c: Cpu)
    requires Displaceable(sem, w) && SameVisible(d, c) && d.ctr == c.ctr
    ensures sem(w, d).pc == Next(d.pc) && SameVisible(sem(w, d), sem(w, c))
  {
    hide SameVisible, Next, Decode;
  }

  lemma ArrivalSame(sem: Semantics, w: Word, d: Cpu, c: Cpu, j: int)
    requires Displaceable(sem, w) && SameVisible(d, c) && d.ctr == c.ctr
    ensures SameVisible(Arrival(sem, w, d, j), Arrival(sem, w, c, j))
  {
  }

  lemma ResumeHeld(code: Memory, p: Addr, a: Addr, replaced: Word)
    requires Holds(code, p, ResumeWords(a, replaced))
    ensures code(p) == replaced && Holds(code, Next(p), JumpWords(Next(a)))
  {
    hide Next, JumpWords;
    assert ResumeWords(a, replaced)[1..] == JumpWords(Next(a));
  }

  /**
   A call of a patched function reaches the replacement of the most recently applied patch that
   admits the running process. If no patch does, the original first instruction is executed and
   control arrives behind it. Nothing else than r11, CTR and CR0 is changed on the way, and a patch
   that does not admit the process costs at most 7 instructions.
   */
  lemma StackDispatch(code: Memory, sem: Semantics, plat: Platform, w: Word, a: Addr, es: seq<Entry>, c: Cpu)
    returns (n: nat)
    requires StackIn(code, plat, w, a, es) && c.pc == a
    requires Displaceable(sem, w) && Aligned(Next(a))
    ensures var j := Chosen(es, code(plat.UpidCell()), |es|);
            var d := Run(code, sem, c, n);
            && -1 <= j < |es|
            && d.pc == Destination(a, es, j) && SameVisible(d, Arrival(sem, w, c, j))
            && n <= StepBound(|es|, j)
  {
    TopWord(code, plat, w, a, es);
    hide *;
    n := WordRuns(code, sem, plat, w, a, es, |es|, c);
    if es == [] {
      DisplaceableAt(sem, w, c, c) by { SameVisibleReflexive(c); }
      BottomMeans(sem, w, a, es, c);
      SameVisibleReflexive(sem(w, c));
      ChosenAtBottom(es, code(plat.UpidCell()));
    }
  }

  lemma TopWord(code: Memory, plat: Platform, w: Word, a: Addr, es: seq<Entry>)
    requires StackIn(code, plat, w, a, es)
    ensures StackBodies(code, plat, w, a, es) && code(a) == Below(w, es, |es|)
  {
  }

  lemma SameVisibleReflexive(c: Cpu)
    ensures SameVisible(c, c)
  {
  }

  // ----- calling through the saved pointer -----

  /** What the original instruction sees: the 5-word form has loaded CTR before it runs. */
  function BeforeDisplaced(a: Addr, c: Cpu): Cpu {
    if Short(Next(a)) then c else c.(ctr := Next(a))
  }

  /**
   Jumping to the `jumpToOriginal` buffer of patch `k` goes where a call went just before patch `k`
   was applied: into the most recent of the patches below, or through the original instruction.
   */
  lemma SavedPointerRuns(code: Memory, sem: Semantics, plat: Platform, w: Word, a: Addr, es: seq<Entry>, k: nat, c: Cpu)
    returns (n: nat)
    requires StackBodies(code, plat, w, a, es) && k < |es| && c.pc == es[k].jumpToOriginal
    requires Displaceable(sem, w) && Aligned(Next(a))
    ensures var j := Chosen(es, code(plat.UpidCell()), k);
            var d := Run(code, sem, c, n);
            && -1 <= j < k
            && d.pc == Destination(a, es, j) && SameVisible(d, Arrival(sem, w, BeforeDisplaced(a, c), j))
  {
    hide *;
    if Short(Next(a)) {
      n := TwoWordFormRuns(code, sem, plat, w, a, es, k, c);
    } else {
      n := FiveWordFormRuns(code, sem, plat, w, a, es, k, c);
    }
  }

  lemma TwoWordFormRuns(code: Memory, sem: Semantics, plat: Platform, w: Word, a: Addr, es: seq<Entry>, k: nat, c: Cpu)
    returns (n: nat)
    requires StackBodies(code, plat, w, a, es) && k < |es| && c.pc == es[k].jumpToOriginal
    requires Displaceable(sem, w) && Aligned(Next(a)) && Short(Next(a))
    ensures var j := Chosen(es, code(plat.UpidCell()), k);
            var d := Run(code, sem, c, n);
            && -1 <= j < k
            && d.pc == Destination(a, es, j) && SameVisible(d, Arrival(sem, w, BeforeDisplaced(a, c), j))
  {
    hide *;
    JumpToOriginalHeld(code, plat, w, a, es, k);
    n := WordRuns(code, sem, plat, w, a, es, k, c);
    BeforeDisplacedMeans(a, c);
    if k == 0 {
      SameVisibleReflexive(c);
      DisplaceableAt(sem, w, c, c);
      StepBa(code, sem, sem(w, c), Next(a));
      n := FinishBottom(code, sem, plat, w, a, es, c, c, n, 1);
    }
  }

  lemma FiveWordFormRuns(code: Memory, sem: Semantics, plat: Platform, w: Word, a: Addr, es: seq<Entry>, k: nat, c: Cpu)
    returns (n: nat)
    requires StackBodies(code, plat, w, a, es) && k < |es| && c.pc == es[k].jumpToOriginal
    requires Displaceable(sem, w) && Aligned(Next(a)) && !Short(Next(a))
    ensures var j := Chosen(es, code(plat.UpidCell()), k);
            var d := Run(code, sem, c, n);
            && -1 <= j < k
            && d.pc == Destination(a, es, j) && SameVisible(d, Arrival(sem, w, BeforeDisplaced(a, c), j))
  {
    hide *;
    var a' := Next(a);
    JumpToOriginalHeld(code, plat, w, a, es, k);
    LoadAddressRuns(code, sem, c, a');
    var c3 := c.(pc := Next(Next(Next(c.pc))), r11 := a', ctr := a');
    n := WordRuns(code, sem, plat, w, a, es, k, c3);
    RunAdd(code, sem, c, 3, n);
    LoadedIsBefore(c, c3, a);
    if k == 0 {
      SameVisibleReflexive(c3);
      DisplaceableAt(sem, w, c3, c3);
      KeepsCtr(sem, w, c3);
      ReturnsThroughCtr(code, sem, sem(w, c3), a');
      n := FinishBottom(code, sem, plat, w, a, es, c, c3, 3 + n, 1);
    } else {
      n := 3 + n;
      var j := Chosen(es, code(plat.UpidCell()), k);
      ArrivalSame(sem, w, c3, BeforeDisplaced(a, c), j);
      SameVisibleTransitive(Run(code, sem, c, n), Arrival(sem, w, c3, j), Arrival(sem, w, BeforeDisplaced(a, c), j));
    }
  }

  lemma JumpToOriginalHeld(code: Memory, plat: Platform, w: Word, a: Addr, es: seq<Entry>, k: nat)
    requires StackBodies(code, plat, w, a, es) && k < |es|
    ensures var p := es[k].jumpToOriginal;
            var a' := Next(a);
            var saved := Below(w, es, k);
            if Short(a') then code(p) == saved && code(Next(p)) == Ba(a')
            else && code(p) == Lis(Hi(a')) && code(Next(p)) == Ori(Lo(a')) && code(Next(Next(p))) == MTCTR
                 && code(Next(Next(Next(p)))) == saved && code(Next(Next(Next(Next(p))))) == BCTR
  {
    var p := es[k].jumpToOriginal;
    var a' := Next(a);
    var saved := Below(w, es, k);
    assert es[k].replaced == saved && es[k].eff == a && Emitted(code, plat, es[k]);
    assert Holds(code, p, JumpToOriginalWords(a, saved));
    if Short(a') {
      assert JumpToOriginalWords(a, saved) == [saved, Ba(a')];
      hide *;
      TwoHeld(code, p, saved, Ba(a'));
    } else {
      assert JumpToOriginalWords(a, saved) == [Lis(Hi(a')), Ori(Lo(a')), MTCTR, saved] + [BCTR];
      hide *;
      FiveHeld(code, p, Lis(Hi(a')), Ori(Lo(a')), MTCTR, saved, BCTR);
    }
  }

  lemma FiveHeld(code: Memory, p: Addr, w0: Word, w1: Word, w2: Word, w3: Word, w4: Word)
    requires Holds(code, p, [w0, w1, w2, w3] + [w4])
    ensures code(p) == w0 && code(Next(p)) == w1 && code(Next(Next(p))) == w2
    ensures code(Next(Next(Next(p)))) == w3 && code(Next(Next(Next(Next(p))))) == w4
  {
    hide Next;
    HoldsSplit(code, p, [w0, w1, w2, w3], [w4]);
    FourHeld(code, p, w0, w1, w2, w3);
    AdvanceOne(p, 0); AdvanceOne(p, 1); AdvanceOne(p, 2); AdvanceOne(p, 3);
  }

  lemma BeforeDisplacedMeans(a: Addr, c: Cpu)
    ensures BeforeDisplaced(a, c) == if Short(Next(a)) then c else c.(ctr := Next(a))
  {
  }

  lemma LoadedIsBefore(c: Cpu, c3: Cpu, a: Addr)
    requires !Short(Next(a)) && c3 == c.(pc := c3.pc, r11 := c3.r11, ctr := Next(a))
    ensures SameVisible(c3, BeforeDisplaced(a, c)) && c3.ctr == BeforeDisplaced(a, c).ctr
  {
  }

  lemma KeepsCtr(sem: Semantics, w: Word, c: Cpu)
    requires Displaceable(sem, w)
    ensures sem(w, c).ctr == c.ctr
  {
  }

  lemma ReturnsThroughCtr(code: Memory, sem: Semantics, c: Cpu, a: Addr)
    requires code(c.pc) == BCTR && c.ctr == a && Aligned(a)
    ensures Run(code, sem, c, 1) == c.(pc := a)
  {
    hide *;
    StepBctr(code, sem, c);
    AlignedBits(a);
    OneStep(code, sem, c);
  }

  /** The original instruction has run from `e` after `m` steps; `n` more lead back into the function. */
  lemma FinishBottom(code: Memory, sem: Semantics, plat: Platform, w: Word, a: Addr, es: seq<Entry>, c: Cpu, e: Cpu, m: nat, n: nat)
    returns (r: nat)
    requires Displaceable(sem, w)
    requires Run(code, sem, c, m) == sem(w, e) && Run(code, sem, sem(w, e), n) == sem(w, e).(pc := Next(a))
    requires SameVisible(e, BeforeDisplaced(a, c)) && e.ctr == BeforeDisplaced(a, c).ctr
    ensures var j := Chosen(es, code(plat.UpidCell()), 0);
            var d := Run(code, sem, c, r);
            && j == -1 && d.pc == Destination(a, es, j) && SameVisible(d, Arrival(sem, w, BeforeDisplaced(a, c), j))
  {
    hide Run, Next, Short, BeforeDisplaced, Displaceable;
    RunAdd(code, sem, c, m, n);
    r := m + n;
    DisplaceableAt(sem, w, e, BeforeDisplaced(a, c));
  }

  lemma {:induction false} ChosenOfPrefix(es: seq<Entry>, u: Word, k: nat, i: nat)
    requires i <= k <= |es|
    ensures Chosen(es[..k], u, i) == Chosen(es, u, i)
  {
    if i > 0 {
      ChosenOfPrefix(es, u, k, i - 1);
    }
  }

  /**
   `before` is the memory of a moment when only the patches below `k` were applied. Calling through
   the saved pointer of patch `k` now, and calling the function then, go to the same place. They
   also agree on everything but r11, CTR and CR0, except when the original instruction runs in the
   5-word form and can tell the CTR that form has loaded from the caller's.
   */
  lemma SavedPointerIsOldCall(code: Memory, before: Memory, sem: Semantics, plat: Platform, w: Word, a: Addr,
                              es: seq<Entry>, k: nat, c: Cpu)
    returns (n: nat, m: nat)
    requires StackBodies(code, plat, w, a, es) && k < |es| && c.pc == es[k].jumpToOriginal
    requires StackIn(before, plat, w, a, es[..k])
    requires before(plat.UpidCell()) == code(plat.UpidCell())
    requires Displaceable(sem, w) && Aligned(Next(a))
    ensures var d, d' := Run(code, sem, c, n), Run(before, sem, c.(pc := a), m);
            var j := Chosen(es, code(plat.UpidCell()), k);
            && -1 <= j < k && d.pc == d'.pc == Destination(a, es, j)
            && (SameVisible(d, d') <==>
                  || j >= 0
                  || Short(Next(a))
                  || SameVisible(sem(w, c.(ctr := Next(a))), sem(w, c)))
  {
    hide *;
    var u := code(plat.UpidCell());
    n := SavedPointerRuns(code, sem, plat, w, a, es, k, c);
    m := StackDispatch(before, sem, plat, w, a, es[..k], c.(pc := a));
    ChosenOfPrefix(es, u, k, k);
    var j := Chosen(es, u, k);
    DestinationOfPrefix(a, es, k, j);
    BeforeDisplacedMeans(a, c);
    SamePlace(c, a);
    ArrivalSame(sem, w, c.(pc := a), c, j);
    ArrivalsCompare(sem, w, c, Next(a), j);
    SameVisibleCompare(Run(code, sem, c, n), Run(before, sem, c.(pc := a), m),
                       Arrival(sem, w, BeforeDisplaced(a, c), j), Arrival(sem, w, c.(pc := a), j), Arrival(sem, w, c, j));
  }

  lemma DestinationOfPrefix(a: Addr, es: seq<Entry>, k: nat, j: int)
    requires -1 <= j < k <= |es|
    ensures Destination(a, es[..k], j) == Destination(a, es, j)
  {
  }

  lemma SamePlace(c: Cpu, a: Addr)
    ensures SameVisible(c.(pc := a), c)
  {
  }

  lemma ArrivalsCompare(sem: Semantics, w: Word, c: Cpu, v: Word, j: int)
    ensures SameVisible(Arrival(sem, w, c, j), Arrival(sem, w, c, j))
    ensures SameVisible(Arrival(sem, w, c.(ctr := v), j), Arrival(sem, w, c, j))
       <==> j >= 0 || SameVisible(sem(w, c.(ctr := v)), sem(w, c))
  {
  }

  lemma SameVisibleCompare(d: Cpu, d': Cpu, e: Cpu, e': Cpu, f: Cpu)
    requires SameVisible(d, e) && SameVisible(d', e') && SameVisible(e', f)
    ensures SameVisible(d, d') <==> SameVisible(e, f)
  {
  }

  /** mfctr r0 */
  const MFCTR: Word := 0x7c0902a6

  function MoveFromCtr(w: Word, c: Cpu): Cpu {
    c.(pc := Next(c.pc), rest := c.rest.(gpr := c.rest.gpr[0 := c.ctr]))
  }

  /** The exception is real: an instruction that copies CTR may be displaced, and does tell the difference. */
  lemma CtrReaderTellsTheDifference(a: Addr, c: Cpu)
    requires c.ctr != Next(a)
    ensures Displaceable(MoveFromCtr, MFCTR)
    ensures !SameVisible(MoveFromCtr(MFCTR, c.(ctr := Next(a))), MoveFromCtr(MFCTR, c))
  {
    assert Decode(MFCTR).Other?;
    hide Decode, Next;
    var d, d' := MoveFromCtr(MFCTR, c.(ctr := Next(a))), MoveFromCtr(MFCTR, c);
    assert d.rest.gpr[0] == Next(a) && d'.rest.gpr[0] == c.ctr;
  }

  // ----- no cycle through the stack -----

  /** No two patches of a stack share a branch word, and none has the word the function started with. */
  ghost predicate DistinctWords(w: Word, es: seq<Entry>) {
    && (forall i, k :: 0 <= i < k < |es| ==> es[i].replaceWith != es[k].replaceWith)
    && (forall i :: 0 <= i < |es| ==> es[i].replaceWith != w)
  }

  /** Each patch of the path has displaced the branch word of the next one. */
  ghost predicate FollowsDisplaced(es: seq<Entry>, path: seq<nat>) {
    && (forall t :: 0 <= t < |path| ==> path[t] < |es|)
    && (forall t :: 0 <= t < |path| - 1 ==> es[path[t]].replaced == es[path[t + 1]].replaceWith)
  }

  /**
   Following displaced words from any patch goes down one patch at a time: no path visits a patch
   twice, and a path that cannot be continued has reached the word the function started with.
   */
  lemma {:induction false} DisplacedWordsDescend(w: Word, es: seq<Entry>, path: seq<nat>, t: nat)
    requires Linked(w, es) && DistinctWords(w, es) && FollowsDisplaced(es, path) && t < |path|
    ensures t <= path[0] && path[t] == path[0] - t
    ensures es[path[t]].replaced == w <==> path[t] == 0
  {
    if t > 0 {
      DisplacedWordsDescend(w, es, path, t - 1);
      var i, k := path[t - 1], path[t];
      assert es[i].replaced == es[k].replaceWith;
      assert es[i].replaced == Below(w, es, i);
    }
    assert es[path[t]].replaced == Below(w, es, path[t]);
  }
}
