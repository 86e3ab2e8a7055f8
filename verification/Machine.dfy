/**
 A small interpreter for the words of module `Words`, over one flat word memory.

 A processor state keeps apart the registers the emitted code touches (r11, CTR, CR0) and
 everything else (`Rest`). A word the decoder does not know is executed by `sem`, an arbitrary
 state transformer; what a displaced instruction must satisfy is stated by `Displaceable`.
 */
module Machine {
  import opened Words

  /** Every 32-bit address holds a word. */
  type Memory = Addr -> Word

  function Updated(mem: Memory, p: Addr, w: Word): Memory {
    (a: Addr) => if a == p then w else mem(a)
  }

  datatype Cr0 = Cr0(lt: bool, gt: bool, eq: bool, so: bool)

  /** The registers and the data memory that the emitted code never touches. */
  datatype Rest = Rest(gpr: map<nat, Word>, lr: Word, data: map<Addr, Word>)

  datatype Cpu = Cpu(pc: Addr, r11: Word, ctr: Word, cr0: Cr0, so: bool, rest: Rest)

  type Semantics = (Word, Cpu) -> Cpu

  predicate SignedLess(x: Word, y: Word) {
    x ^ 0x80000000 < y ^ 0x80000000
  }

  /** The order of the words as signed numbers: one with its top bit set is less than one without. */
  lemma SignedOrder(x: Word, y: Word)
    ensures SignedLess(x, y) <==>
              if x & 0x80000000 == y & 0x80000000 then x < y else x & 0x80000000 != 0
  {
  }

  function Compare(x: Word, y: Word, so: bool): Cr0 {
    Cr0(SignedLess(x, y), SignedLess(y, x), x == y, so)
  }

  /** The address of the next word, modulo 2^32. */
  function Next(a: Addr): Addr {
    a + 4
  }

  /** Addition of two addresses, modulo 2^32. */
  function Plus(a: Addr, b: Addr): Addr {
    a + b
  }

  function ShiftUp(w: Word): Word { w << 16 }

  function Or(w: Word, v: Word): Word { w | v }

  function Step(code: Memory, sem: Semantics, c: Cpu): Cpu {
    match Decode(code(c.pc))
    case LoadImmShifted(imm) => c.(pc := Next(c.pc), r11 := ShiftUp(imm))
    case OrImm(imm) => c.(pc := Next(c.pc), r11 := Or(c.r11, imm))
    case LoadWord(d) => c.(pc := Next(c.pc), r11 := code(Plus(c.r11, d)))
    case CompareImm(imm) => c.(pc := Next(c.pc), cr0 := Compare(c.r11, imm, c.so))
    case BranchIfEqual(disp) => c.(pc := if c.cr0.eq then Plus(c.pc, disp) else Next(c.pc))
    case MoveToCtr => c.(pc := Next(c.pc), ctr := c.r11)
    case BranchCtr => c.(pc := c.ctr & 0xFFFFFFFC)
    case BranchAbs(target) => c.(pc := target)
    case BranchRel(disp) => c.(pc := Plus(c.pc, disp))
    case Other => sem(code(c.pc), c)
  }

  function Run(code: Memory, sem: Semantics, c: Cpu, n: nat): Cpu
    decreases n
  {
    if n == 0 then c else Run(code, sem, Step(code, sem, c), n - 1)
  }

  lemma {:induction false} RunAdd(code: Memory, sem: Semantics, c: Cpu, m: nat, n: nat)
    ensures Run(code, sem, c, m + n) == Run(code, sem, Run(code, sem, c, m), n)
    decreases m
  {
    hide Step;
    if m > 0 {
      RunAdd(code, sem, Step(code, sem, c), m - 1, n);
    }
  }

  /** Equal up to the program counter, r11, CTR and CR0. */
  predicate SameVisible(c: Cpu, d: Cpu) {
    c.so == d.so && c.rest == d.rest
  }

  lemma SameVisibleTransitive(a: Cpu, b: Cpu, c: Cpu)
    requires SameVisible(a, b) && SameVisible(b, c)
    ensures SameVisible(a, c)
  {
  }

  /**
   What the original first instruction `w` of a patched function must satisfy to be moved: it is
   none of the decoded instructions (not a branch, no use of r11), it falls through, it leaves r11,
   CTR and CR0 alone, and its effect depends neither on its own address nor on r11 nor on CR0.
   */
  ghost predicate Displaceable(sem: Semantics, w: Word) {
    && Decode(w).Other?
    && (forall c: Cpu :: var d := sem(w, c);
          d.pc == Next(c.pc) && d.r11 == c.r11 && d.ctr == c.ctr && d.cr0 == c.cr0)
    && (forall c: Cpu, c': Cpu :: SameVisible(c, c') && c.ctr == c'.ctr ==> SameVisible(sem(w, c), sem(w, c')))
  }

  /** The memory holds the words `ws` from address `p` on. */
  predicate Holds(code: Memory, p: Addr, ws: seq<Word>)
    decreases |ws|
  {
    ws == [] || (code(p) == ws[0] && Holds(code, Next(p), ws[1..]))
  }

  /** The address `n` words after `p`. */
  function Advance(p: Addr, n: nat): Addr
    decreases n
  {
    if n == 0 then p else Advance(Next(p), n - 1)
  }

  lemma {:induction false} AdvanceAdd(p: Addr, m: nat, n: nat)
    ensures Advance(p, m + n) == Advance(Advance(p, m), n)
    decreases m
  {
    hide Next;
    if m > 0 {
      AdvanceAdd(Next(p), m - 1, n);
    }
  }

  lemma AdvanceOne(q: Addr, n: nat)
    ensures Advance(q, 0) == q
    ensures Advance(q, n + 1) == Next(Advance(q, n))
  {
    hide Next;
    AdvanceAdd(q, n, 1);
    var r := Advance(q, n);
    assert Advance(r, 1) == Advance(Next(r), 0);
  }

  lemma {:induction false} HoldsSplit(code: Memory, p: Addr, ws: seq<Word>, vs: seq<Word>)
    ensures Holds(code, p, ws + vs) <==> Holds(code, p, ws) && Holds(code, Advance(p, |ws|), vs)
    decreases |ws|
  {
    hide Next;
    if ws == [] {
      assert ws + vs == vs;
    } else {
      HoldsSplit(code, Next(p), ws[1..], vs);
      assert (ws + vs)[1..] == ws[1..] + vs;
    }
  }

  // ----- the pieces the generators are made of -----

  /** A jump to any aligned address: one `ba` when it reaches, else lis/ori/mtctr/bctr. */
  function JumpWords(a: Addr): seq<Word> {
    if Short(a) then [Ba(a)] else [Lis(Hi(a)), Ori(Lo(a)), MTCTR, BCTR]
  }

  lemma JumpRuns(code: Memory, sem: Semantics, c: Cpu, a: Addr)
    requires Aligned(a) && Holds(code, c.pc, JumpWords(a))
    ensures var d := Run(code, sem, c, |JumpWords(a)|);
            d.pc == a && SameVisible(d, c) && d.cr0 == c.cr0
  {
    if Short(a) {
      BaDecodes(a);
      hide Next, ShiftUp, Or, Decode, Ba;
      assert Run(code, sem, c, 1) == Step(code, sem, c);
    } else {
      LongJumpRuns(code, sem, c, a);
    }
  }

  lemma TwoSteps(code: Memory, sem: Semantics, c0: Cpu, c1: Cpu, c2: Cpu)
    requires c1 == Step(code, sem, c0) && c2 == Step(code, sem, c1)
    ensures Run(code, sem, c0, 2) == c2
  {
    hide Step;
    assert Run(code, sem, c0, 2) == Run(code, sem, c1, 1) == Run(code, sem, c2, 0);
  }

  lemma StepLis(code: Memory, sem: Semantics, c: Cpu, imm: Word)
    requires code(c.pc) == Lis(imm)
    ensures Step(code, sem, c) == c.(pc := Next(c.pc), r11 := ShiftUp(Lo(imm)))
  {
    hide Next, ShiftUp, Or, Decode, Lis, Lo;
    ImmediatesDecode(imm);
  }

  lemma StepOri(code: Memory, sem: Semantics, c: Cpu, imm: Word)
    requires code(c.pc) == Ori(imm)
    ensures Step(code, sem, c) == c.(pc := Next(c.pc), r11 := Or(c.r11, Lo(imm)))
  {
    hide Next, ShiftUp, Or, Decode, Ori, Lo;
    ImmediatesDecode(imm);
  }

  lemma StepMtctr(code: Memory, sem: Semantics, c: Cpu)
    requires code(c.pc) == MTCTR
    ensures Step(code, sem, c) == c.(pc := Next(c.pc), ctr := c.r11)
  {
    hide Next, ShiftUp, Or, Decode;
    MovesDecode();
  }

  lemma LoadAddressRuns(code: Memory, sem: Semantics, c: Cpu, a: Addr)
    requires code(c.pc) == Lis(Hi(a)) && code(Next(c.pc)) == Ori(Lo(a)) && code(Next(Next(c.pc))) == MTCTR
    ensures Run(code, sem, c, 3) == c.(pc := Next(Next(Next(c.pc))), r11 := a, ctr := a)
  {
    hide *;
    var c1 := c.(pc := Next(c.pc), r11 := ShiftUp(Lo(Hi(a))));
    var c2 := c.(pc := Next(Next(c.pc)), r11 := a);
    var c3 := c.(pc := Next(Next(Next(c.pc))), r11 := a, ctr := a);
    assert Step(code, sem, c) == c1 by { StepLis(code, sem, c, Hi(a)); }
    assert Step(code, sem, c1) == c2 by { StepOri(code, sem, c1, Lo(a)); HalvesMeet(a); }
    assert Step(code, sem, c2) == c3 by { StepMtctr(code, sem, c2); }
    TwoSteps(code, sem, c, c1, c2);
    RunAdd(code, sem, c, 2, 1);
    OneStep(code, sem, c2);
  }

  lemma HalvesMeet(a: Addr)
    ensures Or(ShiftUp(Lo(Hi(a))), Lo(Lo(a))) == a
  {
    HalvesBits(a);
  }

  lemma OneStep(code: Memory, sem: Semantics, c: Cpu)
    ensures Run(code, sem, c, 1) == Step(code, sem, c)
  {
    hide Step;
    assert Run(code, sem, c, 1) == Run(code, sem, Step(code, sem, c), 0);
  }

  lemma LongJumpRuns(code: Memory, sem: Semantics, c: Cpu, a: Addr)
    requires Aligned(a) && Holds(code, c.pc, [Lis(Hi(a)), Ori(Lo(a)), MTCTR, BCTR])
    ensures Run(code, sem, c, 4) == c.(pc := a, r11 := a, ctr := a)
  {
    hide *;
    FourHeld(code, c.pc, Lis(Hi(a)), Ori(Lo(a)), MTCTR, BCTR);
    LoadAddressRuns(code, sem, c, a);
    var c3 := c.(pc := Next(Next(Next(c.pc))), r11 := a, ctr := a);
    StepBctr(code, sem, c3);
    AlignedBits(a);
    OneStep(code, sem, c3);
    RunAdd(code, sem, c, 3, 1);
  }

  lemma StepBctr(code: Memory, sem: Semantics, c: Cpu)
    requires code(c.pc) == BCTR
    ensures Step(code, sem, c) == c.(pc := c.ctr & 0xFFFFFFFC)
  {
    hide Next, ShiftUp, Or, Decode;
    MovesDecode();
  }

  lemma AlignedBits(a: Addr)
    requires Aligned(a)
    ensures a & 0xFFFFFFFC == a
  {
  }

  lemma FourHeld(code: Memory, p: Addr, w0: Word, w1: Word, w2: Word, w3: Word)
    requires Holds(code, p, [w0, w1, w2, w3])
    ensures code(p) == w0 && code(Next(p)) == w1 && code(Next(Next(p))) == w2 && code(Next(Next(Next(p)))) == w3
  {
    var ws := [w0, w1, w2, w3];
    assert ws[1..] == [w1, w2, w3] && ws[1..][1..] == [w2, w3] && ws[1..][1..][1..] == [w3];
    hide Next;
    assert Holds(code, Next(p), [w1, w2, w3]);
    assert Holds(code, Next(Next(p)), [w2, w3]);
    assert Holds(code, Next(Next(Next(p))), [w3]);
  }

  lemma TwoHeld(code: Memory, p: Addr, w0: Word, w1: Word)
    requires Holds(code, p, [w0, w1])
    ensures code(p) == w0 && code(Next(p)) == w1
  {
    hide Next;
    assert [w0, w1][1..] == [w1];
    assert Holds(code, Next(p), [w1]);
  }

  /** The address that the lis/lwz pair with these immediates reads. */
  function LoadedCell(hi: Word, lo: Word): Addr {
    Plus(ShiftUp(Lo(hi)), SignExtend16(lo))
  }

  lemma LoadCellRuns(code: Memory, sem: Semantics, c: Cpu, hi: Word, lo: Word)
    requires code(c.pc) == Lis(hi) && code(Next(c.pc)) == Lwz(lo)
    ensures Run(code, sem, c, 2) == c.(pc := Next(Next(c.pc)), r11 := code(LoadedCell(hi, lo)))
  {
    hide *;
    var c1 := c.(pc := Next(c.pc), r11 := ShiftUp(Lo(hi)));
    var c2 := c.(pc := Next(Next(c.pc)), r11 := code(LoadedCell(hi, lo)));
    assert Step(code, sem, c) == c1 by { StepLis(code, sem, c, hi); }
    assert Step(code, sem, c1) == c2 by { StepLwz(code, sem, c1, hi, lo); }
    TwoSteps(code, sem, c, c1, c2);
  }

  lemma StepLwz(code: Memory, sem: Semantics, c: Cpu, hi: Word, lo: Word)
    requires code(c.pc) == Lwz(lo) && c.r11 == ShiftUp(Lo(hi))
    ensures Step(code, sem, c) == c.(pc := Next(c.pc), r11 := code(LoadedCell(hi, lo)))
  {
    hide Next, ShiftUp, Or, Decode, Lwz, SignExtend16, Plus, Lo;
    ImmediatesDecode(lo);
  }

  /** cmpwi r11, id; beq disp */
  lemma TestRuns(code: Memory, sem: Semantics, c: Cpu, id: Word, disp: Word)
    requires code(c.pc) == Cmpwi(id) && code(Next(c.pc)) == Beq(disp)
    requires id < 0x8000 && (disp == 0x0C || disp == 0x14 || disp == 0x18 || disp == 0x20)
    ensures Run(code, sem, c, 2)
         == c.(pc := if c.r11 == id then Plus(Next(c.pc), disp) else Next(Next(c.pc)), cr0 := Compare(c.r11, id, c.so))
  {
    hide *;
    var c1 := c.(pc := Next(c.pc), cr0 := Compare(c.r11, id, c.so));
    assert Step(code, sem, c) == c1 by { StepCmpwi(code, sem, c, id); }
    CompareEq(c.r11, id, c.so);
    StepBeq(code, sem, c1, disp);
    TwoSteps(code, sem, c, c1, Step(code, sem, c1));
  }

  lemma CompareEq(x: Word, y: Word, so: bool)
    ensures Compare(x, y, so).eq <==> x == y
  {
  }

  lemma StepCmpwi(code: Memory, sem: Semantics, c: Cpu, id: Word)
    requires code(c.pc) == Cmpwi(id) && id < 0x8000
    ensures Step(code, sem, c) == c.(pc := Next(c.pc), cr0 := Compare(c.r11, id, c.so))
  {
    hide Next, ShiftUp, Or, Decode, Cmpwi, Compare;
    CompareDecodes(id);
  }

  lemma StepBeq(code: Memory, sem: Semantics, c: Cpu, disp: Word)
    requires code(c.pc) == Beq(disp)
    requires disp == 0x0C || disp == 0x14 || disp == 0x18 || disp == 0x20
    ensures Step(code, sem, c) == c.(pc := if c.cr0.eq then Plus(c.pc, disp) else Next(c.pc))
  {
    hide Next, ShiftUp, Or, Decode, Beq, Plus;
    MovesDecode();
  }
}
