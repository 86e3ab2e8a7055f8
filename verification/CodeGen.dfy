/**
 What the generators of PatchedFunctionData.cpp emit, word by word, and what those words do
 when they are run.
 */
module CodeGen {
  import opened Words
  import opened Machine

  /** A process id as it is put into `cmpwi`: a non-negative 16-bit immediate. */
  type ProcessId = w: Word | w < 0x8000

  // FP_TARGET_PROCESS_WII_U_MENU and FP_TARGET_PROCESS_GAME: their values are in a header that
  // is not part of this model.
  const WII_U_MENU: ProcessId
  const GAME: ProcessId

  datatype TargetProcess = AllProcesses | GameAndMenu | OneProcess(id: ProcessId)

  /** The processes a patch is meant for. */
  predicate Admits(p: TargetProcess, u: Word) {
    match p
    case AllProcesses => true
    case GameAndMenu => u == WII_U_MENU || u == GAME
    case OneProcess(id) => u == id
  }

  /** The first two words of OSGetUPID: a lis/lwz pair that locates the current process id. */
  datatype Platform = Platform(upidWord0: Word, upidWord1: Word) {
    function UpidCell(): Addr {
      LoadedCell(upidWord0, upidWord1)
    }
  }

  /**
   The cell is at the first word's low half, as the upper half of an address, plus the second word's
   low half, read as a signed number: where the lis/lwz pair of OSGetUPID itself finds the id.
   */
  lemma UpidCellIs(plat: Platform)
    ensures plat.upidWord1 & 0x8000 == 0 ==> plat.UpidCell() == (plat.upidWord0 << 16) + (plat.upidWord1 & 0xFFFF)
    ensures plat.upidWord1 & 0x8000 != 0 ==> plat.UpidCell() == (plat.upidWord0 << 16) + ((plat.upidWord1 & 0xFFFF) - 0x10000)
  {
    hide *;
    CellIsSum(plat.upidWord0, plat.upidWord1);
    UpperHalf(plat.upidWord0);
    SignExtend16Subtracts(plat.upidWord1);
    UpidCellIsLoaded(plat);
  }

  lemma UpidCellIsLoaded(plat: Platform)
    ensures plat.UpidCell() == LoadedCell(plat.upidWord0, plat.upidWord1)
  {
    hide LoadedCell;
  }

  lemma UpidCellExample()
    ensures Platform(0x3C601006, 0x8063F4A0).UpidCell() == 0x1005F4A0
  {
  }

  lemma CellIsSum(w0: Word, w1: Word)
    ensures LoadedCell(w0, w1) == ShiftUp(Lo(w0)) + SignExtend16(w1)
  {
    hide ShiftUp, Lo, SignExtend16;
  }

  lemma UpperHalf(w: Word)
    ensures ShiftUp(Lo(w)) == w << 16
  {
  }

  /**
   A patch does without a trampoline exactly if it is for all processes and its replacement is where a
   `ba` in the function itself can go.
   */
  lemma NeedsTrampolineIff(process: TargetProcess, repl: Addr)
    requires Aligned(repl)
    ensures !NeedsTrampoline(process, repl) <==> process == AllProcesses && Decode(Ba(repl)) == BranchAbs(repl)
  {
    BaDecodes(repl);
    ReachIsBelow(repl);
    hide Decode, Ba;
  }

  lemma ReachIsBelow(a: Addr)
    requires a & 3 == 0
    ensures a > 0x01FFFFFC <==> a & 0x01FFFFFC != a
  {
  }

  /** A library that has a row in the provider's table; LIBRARY_OTHER is the absence of one. */
  datatype Library = Rpl(name: string)

  datatype ExecutableSite = ByName(name: string) | ByOffset(textOffset: Addr)

  /** Where a patch wants to go: the three kinds of FunctionPatcherFunctionType. */
  datatype Target =
    | LibraryFunction(library: Library, name: string)
    | GivenAddress(eff: Addr, phys: Addr)
    | InExecutable(executable: string, site: ExecutableSite)

  /** The value of one PatchedFunctionData object. A null buffer pointer is 0. */
  datatype Entry = Entry(
    handle: nat,
    target: Target, process: TargetProcess, repl: Addr, realCall: Addr,
    jumpData: Addr, jumpToOriginal: Addr,
    eff: Addr, phys: Addr,
    replaced: Word, replaceWith: Word, isPatched: bool)

  predicate NeedsTrampoline(process: TargetProcess, repl: Addr) {
    repl > 0x01FFFFFC || process != AllProcesses
  }

  /** The word generateReplacementJump leaves in replaceWithInstruction. */
  function ReplacementWord(process: TargetProcess, repl: Addr, jumpData: Addr): Word {
    if NeedsTrampoline(process, repl) then Ba(jumpData) else Ba(repl)
  }

  function JumpToOriginalWords(eff: Addr, replaced: Word): seq<Word> {
    var a := Next(eff);
    if Short(a) then [replaced, Ba(a)] else [Lis(Hi(a)), Ori(Lo(a)), MTCTR, replaced, BCTR]
  }

  function TestWords(process: TargetProcess, short: bool): seq<Word> {
    match process
    case AllProcesses => []
    case GameAndMenu =>
      [Cmpwi(WII_U_MENU), Beq(if short then 0x14 else 0x20), Cmpwi(GAME), Beq(if short then 0x0C else 0x18)]
    case OneProcess(id) =>
      [Cmpwi(id), Beq(if short then 0x0C else 0x18)]
  }

  function GuardWords(process: TargetProcess, plat: Platform, short: bool): seq<Word> {
    [Lis(plat.upidWord0), Lwz(plat.upidWord1)] + TestWords(process, short)
  }

  /** The part of the trampoline that goes on as the original function would. */
  function ResumeWords(eff: Addr, replaced: Word): seq<Word> {
    [replaced] + JumpWords(Next(eff))
  }

  function TrampolineWords(process: TargetProcess, plat: Platform, eff: Addr, replaced: Word, repl: Addr): seq<Word> {
    if process == AllProcesses then JumpWords(repl)
    else GuardWords(process, plat, Short(Next(eff))) + ResumeWords(eff, replaced) + JumpWords(repl)
  }

  // ----- the layout of the trampoline -----

  /** The index of the first word of the jump to the replacement. */
  function MyFunc(process: TargetProcess, eff: Addr): nat {
    if process == AllProcesses then 0 else
      2 + (if process.GameAndMenu? then 4 else 2) + 1 + (if Short(Next(eff)) then 1 else 4)
  }

  /** The word index a `beq` at word index `i` with this displacement goes to. */
  function BeqLanding(i: nat, disp: Word): nat {
    if disp == 0x0C then i + 3
    else if disp == 0x14 then i + 5
    else if disp == 0x18 then i + 6
    else i + 8
  }

  /** `BeqLanding` is the effect of the branch on addresses. */
  lemma BeqLands(p: Addr, i: nat, disp: Word)
    requires disp == 0x0C || disp == 0x14 || disp == 0x18 || disp == 0x20
    ensures Plus(Advance(p, i), disp) == Advance(p, BeqLanding(i, disp))
  {
    hide Advance, Plus, Next;
    var q := Advance(p, i);
    EightWordsOn(q);
    SumsOf(q);
    AdvanceAdd(p, i, 3); AdvanceAdd(p, i, 5); AdvanceAdd(p, i, 6); AdvanceAdd(p, i, 8);
  }

  lemma EightWordsOn(q: Addr)
    ensures Advance(q, 3) == q + 12 && Advance(q, 5) == q + 20 && Advance(q, 6) == q + 24 && Advance(q, 8) == q + 32
  {
    hide Next;
    SumsOf(q);
    AdvanceOne(q, 0); AdvanceOne(q, 1); AdvanceOne(q, 2); AdvanceOne(q, 3);
    AdvanceOne(q, 4); AdvanceOne(q, 5); AdvanceOne(q, 6); AdvanceOne(q, 7);
  }

  lemma SumsOf(q: Addr)
    ensures Next(q) == q + 4 && Next(q + 4) == q + 8 && Next(q + 8) == q + 12 && Next(q + 12) == q + 16
    ensures Next(q + 16) == q + 20 && Next(q + 20) == q + 24 && Next(q + 24) == q + 28 && Next(q + 28) == q + 32
    ensures Plus(q, 0x0C) == q + 12 && Plus(q, 0x14) == q + 20 && Plus(q, 0x18) == q + 24 && Plus(q, 0x20) == q + 32
  {
  }

  /** A word that unconditionally leaves the emitted code. */
  ghost predicate Leaves(w: Word) {
    w == BCTR || exists a: Addr :: w == Ba(a)
  }

  /**
   For every kind of target process, original address and replacement address: the buffer of 15
   words suffices, both ways out end in an unconditional branch, and the replacement jump starts
   at `MyFunc`.
   */
  lemma TrampolineLayout(process: TargetProcess, plat: Platform, eff: Addr, replaced: Word, repl: Addr)
    ensures var ws := TrampolineWords(process, plat, eff, replaced, repl);
            var m := MyFunc(process, eff);
            && |ws| == m + |JumpWords(repl)| <= 15
            && ws[m..] == JumpWords(repl)
            && Leaves(ws[|ws| - 1])
            && (m > 0 ==> ws[..m] == GuardWords(process, plat, Short(Next(eff))) + ResumeWords(eff, replaced)
                          && Leaves(ws[m - 1]))
  {
    hide Leaves, Short, Next, JumpWords, GuardWords;
    JumpFacts(repl);
    if process != AllProcesses {
      var guard, back, jump := GuardWords(process, plat, Short(Next(eff))), JumpWords(Next(eff)), JumpWords(repl);
      JumpFacts(Next(eff));
      GuardSize(process, plat, Short(Next(eff)));
      var front := guard + ResumeWords(eff, replaced);
      assert TrampolineWords(process, plat, eff, replaced, repl) == front + jump;
      assert (front + jump)[..|front|] == front && (front + jump)[|front|..] == jump;
      assert front[|front| - 1] == back[|back| - 1];
    }
  }

  lemma GuardSize(process: TargetProcess, plat: Platform, short: bool)
    requires process != AllProcesses
    ensures |GuardWords(process, plat, short)| == if process.GameAndMenu? then 6 else 4
  {
    hide Lis, Lwz, Cmpwi, Beq;
  }

  lemma JumpFacts(a: Addr)
    ensures |JumpWords(a)| == (if Short(a) then 1 else 4) && Leaves(JumpWords(a)[|JumpWords(a)| - 1])
  {
    hide Ba, Short, Lis, Ori, Hi, Lo;
  }

  /** Every `beq` of the guard, wherever the buffer stands, lands exactly on the replacement jump. */
  lemma BeqLandsOnMyFunc(process: TargetProcess, plat: Platform, eff: Addr, replaced: Word, repl: Addr, p: Addr, i: nat)
    requires process != AllProcesses
    requires i == 3 || (process.GameAndMenu? && i == 5)
    ensures var ws := TrampolineWords(process, plat, eff, replaced, repl);
            && i < |ws| && Decode(ws[i]).BranchIfEqual?
            && Plus(Advance(p, i), Decode(ws[i]).disp) == Advance(p, MyFunc(process, eff))
  {
    var disp := EmittedDisp(process, Short(Next(eff)), i);
    var ws := TrampolineWords(process, plat, eff, replaced, repl);
    assert |ws| > i && ws[i] == Beq(disp) by { hide Ba, Short, Next, Lis, Ori, Lwz, Cmpwi, Beq, Hi, Lo; }
    hide *;
    assert disp == 0x0C || disp == 0x14 || disp == 0x18 || disp == 0x20 by { DispIsOneOfFour(process, Short(Next(eff)), i); }
    MovesDecode();
    BeqLands(p, i, disp);
    LandingIsMyFunc(process, eff, i);
  }

  lemma DispIsOneOfFour(process: TargetProcess, short: bool, i: nat)
    ensures var disp := EmittedDisp(process, short, i);
            disp == 0x0C || disp == 0x14 || disp == 0x18 || disp == 0x20
  {
  }

  /** The displacement emitted at word index 3 or 5. */
  function EmittedDisp(process: TargetProcess, short: bool, i: nat): Word {
    if process.GameAndMenu? && i == 3 then (if short then 0x14 else 0x20)
    else if short then 0x0C else 0x18
  }

  lemma LandingIsMyFunc(process: TargetProcess, eff: Addr, i: nat)
    requires process != AllProcesses && (i == 3 || (process.GameAndMenu? && i == 5))
    ensures BeqLanding(i, EmittedDisp(process, Short(Next(eff)), i)) == MyFunc(process, eff)
  {
  }

  /** The buffer of 15 words is used up by a two-process patch of a far function to a far replacement. */
  lemma TrampolineBoundIsAttained(plat: Platform, eff: Addr, replaced: Word, repl: Addr)
    ensures |TrampolineWords(GameAndMenu, plat, eff, replaced, repl)| == 15 <==> !Short(Next(eff)) && !Short(repl)
    ensures |TrampolineWords(GameAndMenu, plat, 0x02000000, replaced, 0x03000000)| == 15
  {
    TrampolineLayout(GameAndMenu, plat, eff, replaced, repl);
    TrampolineLayout(GameAndMenu, plat, 0x02000000, replaced, 0x03000000);
    assert !Short(Next(0x02000000)) && !Short(0x03000000);
  }

  // ----- running the trampoline -----

  /**
   The guard of a trampoline reads the process id and branches. `i` is the word index of the
   branch taken when the process is admitted; otherwise control falls out at the end.
   */
  lemma GuardRuns(code: Memory, sem: Semantics, c: Cpu, process: TargetProcess, plat: Platform, short: bool)
    returns (i: nat)
    requires process != AllProcesses && Holds(code, c.pc, GuardWords(process, plat, short))
    ensures i == 3 || (process.GameAndMenu? && i == 5)
    ensures var u := code(plat.UpidCell());
            var d := Run(code, sem, c, i + 1);
            && SameVisible(d, c) && d.ctr == c.ctr
            && (if Admits(process, u) then d.pc == Plus(Advance(c.pc, i), EmittedDisp(process, short, i))
                else i + 1 == |GuardWords(process, plat, short)| && d.pc == Advance(c.pc, i + 1))
  {
    var u := code(plat.UpidCell());
    var disp := EmittedDisp(process, short, 3);
    assert disp == 0x0C || disp == 0x14 || disp == 0x18 || disp == 0x20 by { DispIsOneOfFour(process, short, 3); }
    if process.OneProcess? {
      i := 3;
      assert GuardWords(process, plat, short) == FirstTest(plat, process.id, disp);
      hide Run, Holds, Advance, Next, Plus, FirstTest, LoadedCell;
      FirstTestRuns(code, sem, c, plat, process.id, disp);
    } else {
      i := TwoTestsRun(code, sem, c, plat, short);
    }
  }

  /** lis r11; lwz r11; cmpwi r11, id; beq disp */
  function FirstTest(plat: Platform, id: ProcessId, disp: Word): seq<Word> {
    [Lis(plat.upidWord0), Lwz(plat.upidWord1), Cmpwi(id), Beq(disp)]
  }

  lemma FirstTestRuns(code: Memory, sem: Semantics, c: Cpu, plat: Platform, id: ProcessId, disp: Word)
    requires Holds(code, c.pc, FirstTest(plat, id, disp))
    requires disp == 0x0C || disp == 0x14 || disp == 0x18 || disp == 0x20
    ensures var u := code(plat.UpidCell());
            var d := Run(code, sem, c, 4);
            && SameVisible(d, c) && d.ctr == c.ctr && d.r11 == u
            && d.pc == if u == id then Plus(Advance(c.pc, 3), disp) else Advance(c.pc, 4)
  {
    hide Run, Holds, Next, Plus, Advance, Lis, Lwz, Cmpwi, Beq, LoadedCell, Compare;
    var u := code(plat.UpidCell());
    FourHeld(code, c.pc, Lis(plat.upidWord0), Lwz(plat.upidWord1), Cmpwi(id), Beq(disp));
    LoadCellRuns(code, sem, c, plat.upidWord0, plat.upidWord1);
    var c2 := c.(pc := Next(Next(c.pc)), r11 := u);
    TestRuns(code, sem, c2, id, disp);
    RunAdd(code, sem, c, 2, 2);
    AdvanceOne(c.pc, 0); AdvanceOne(c.pc, 1); AdvanceOne(c.pc, 2); AdvanceOne(c.pc, 3);
  }

  lemma TwoTestsRun(code: Memory, sem: Semantics, c: Cpu, plat: Platform, short: bool) returns (i: nat)
    requires Holds(code, c.pc, GuardWords(GameAndMenu, plat, short))
    ensures i == 3 || i == 5
    ensures var u := code(plat.UpidCell());
            var d := Run(code, sem, c, i + 1);
            && SameVisible(d, c) && d.ctr == c.ctr
            && (if Admits(GameAndMenu, u) then d.pc == Plus(Advance(c.pc, i), EmittedDisp(GameAndMenu, short, i))
                else i == 5 && d.pc == Advance(c.pc, 6))
  {
    hide *;
    var u := code(plat.UpidCell());
    var disp, disp' := EmittedDisp(GameAndMenu, short, 3), EmittedDisp(GameAndMenu, short, 5);
    var d := Run(code, sem, c, 4);
    TwoTestWords(plat, short);
    HoldsSplit(code, c.pc, FirstTest(plat, WII_U_MENU, disp), [Cmpwi(GAME), Beq(disp')]);
    FirstTestRuns(code, sem, c, plat, WII_U_MENU, disp);
    GameAndMenuAdmits(u);
    if u == WII_U_MENU {
      i := 3;
    } else {
      i := 5;
      SecondTestRuns(code, sem, d, disp');
      AdvanceAdd(c.pc, 4, 1);
      AdvanceAdd(c.pc, 4, 2);
      RunAdd(code, sem, c, 4, 2);
      SameVisibleTransitive(Run(code, sem, d, 2), d, c);
    }
  }

  lemma GameAndMenuAdmits(u: Word)
    ensures Admits(GameAndMenu, u) <==> u == WII_U_MENU || u == GAME
  {
  }

  lemma TwoTestWords(plat: Platform, short: bool)
    ensures var disp, disp' := EmittedDisp(GameAndMenu, short, 3), EmittedDisp(GameAndMenu, short, 5);
            && GuardWords(GameAndMenu, plat, short) == FirstTest(plat, WII_U_MENU, disp) + [Cmpwi(GAME), Beq(disp')]
            && |FirstTest(plat, WII_U_MENU, disp)| == 4
            && (disp == 0x14 || disp == 0x20) && (disp' == 0x0C || disp' == 0x18)
  {
    hide Lis, Lwz, Cmpwi, Beq;
  }

  lemma SecondTestRuns(code: Memory, sem: Semantics, d: Cpu, disp: Word)
    requires Holds(code, d.pc, [Cmpwi(GAME), Beq(disp)]) && (disp == 0x0C || disp == 0x18)
    ensures var e := Run(code, sem, d, 2);
            && SameVisible(e, d) && e.ctr == d.ctr
            && e.pc == if d.r11 == GAME then Plus(Advance(d.pc, 1), disp) else Advance(d.pc, 2)
  {
    hide Run, Holds, Next, Plus, Advance, Cmpwi, Beq, Compare;
    TwoHeld(code, d.pc, Cmpwi(GAME), Beq(disp));
    TestRuns(code, sem, d, GAME, disp);
    AdvanceOne(d.pc, 0); AdvanceOne(d.pc, 1);
  }

  /**
   A trampoline sends the processes it is meant for to the replacement function and lets every other
   process go on with the displaced instruction, with nothing changed but r11 and CR0.
   */
  lemma TrampolineRuns(code: Memory, sem: Semantics, c: Cpu,
                       process: TargetProcess, plat: Platform, eff: Addr, replaced: Word, repl: Addr)
    returns (n: nat)
    requires Aligned(repl) && Holds(code, c.pc, TrampolineWords(process, plat, eff, replaced, repl))
    ensures var u := code(plat.UpidCell());
            var d := Run(code, sem, c, n);
            && SameVisible(d, c)
            && (if Admits(process, u) then n <= 10 && d.pc == repl
                else n <= 6 && d.ctr == c.ctr && Holds(code, d.pc, ResumeWords(eff, replaced)))
  {
    if process == AllProcesses {
      n := |JumpWords(repl)|;
      JumpRuns(code, sem, c, repl);
    } else {
      n := GuardedTrampolineRuns(code, sem, c, process, plat, eff, replaced, repl);
    }
  }

  lemma GuardedTrampolineRuns(code: Memory, sem: Semantics, c: Cpu,
                              process: TargetProcess, plat: Platform, eff: Addr, replaced: Word, repl: Addr)
    returns (n: nat)
    requires process != AllProcesses
    requires Aligned(repl) && Holds(code, c.pc, TrampolineWords(process, plat, eff, replaced, repl))
    ensures var u := code(plat.UpidCell());
            var d := Run(code, sem, c, n);
            && SameVisible(d, c)
            && (if Admits(process, u) then n <= 10 && d.pc == repl
                else n <= 6 && d.ctr == c.ctr && Holds(code, d.pc, ResumeWords(eff, replaced)))
  {
    hide *;
    TrampolineParts(code, c.pc, process, plat, eff, replaced, repl);
    var i := GuardRuns(code, sem, c, process, plat, Short(Next(eff)));
    n := i + 1;
    if Admits(process, code(plat.UpidCell())) {
      TakenBranchLands(process, eff, c.pc, i);
      JumpRuns(code, sem, Run(code, sem, c, n), repl);
      JumpSize(repl);
      RunAdd(code, sem, c, n, |JumpWords(repl)|);
      SameVisibleTransitive(Run(code, sem, c, n + |JumpWords(repl)|), Run(code, sem, c, n), c);
      n := n + |JumpWords(repl)|;
    }
  }

  lemma JumpSize(a: Addr)
    ensures |JumpWords(a)| <= 4
  {
  }

  lemma TakenBranchLands(process: TargetProcess, eff: Addr, p: Addr, i: nat)
    requires process != AllProcesses && (i == 3 || (process.GameAndMenu? && i == 5))
    ensures Plus(Advance(p, i), EmittedDisp(process, Short(Next(eff)), i)) == Advance(p, MyFunc(process, eff))
  {
    hide *;
    DispIsOneOfFour(process, Short(Next(eff)), i);
    BeqLands(p, i, EmittedDisp(process, Short(Next(eff)), i));
    LandingIsMyFunc(process, eff, i);
  }

  lemma TrampolineParts(code: Memory, p: Addr, process: TargetProcess, plat: Platform, eff: Addr, replaced: Word, repl: Addr)
    requires process != AllProcesses
    requires Holds(code, p, TrampolineWords(process, plat, eff, replaced, repl))
    ensures var guard := GuardWords(process, plat, Short(Next(eff)));
            && 4 <= |guard| <= 6
            && Holds(code, p, guard)
            && Holds(code, Advance(p, |guard|), ResumeWords(eff, replaced))
            && Holds(code, Advance(p, MyFunc(process, eff)), JumpWords(repl))
  {
    var guard, resume := GuardWords(process, plat, Short(Next(eff))), ResumeWords(eff, replaced);
    assert TrampolineWords(process, plat, eff, replaced, repl) == (guard + resume) + JumpWords(repl);
    assert 4 <= |guard| <= 6 && |guard + resume| == MyFunc(process, eff) by { hide Ba, Short, Next; }
    hide *;
    HoldsSplit(code, p, guard + resume, JumpWords(repl));
    HoldsSplit(code, p, guard, resume);
  }
}
