/**
 The 32-bit PowerPC words that the module emits and reads, with the decoder of the
 instructions that occur in them.

 Encodings follow Power ISA v2.07 Book I, sections 2.4 (branches) and 3.3 (fixed-point
 instructions). Only the register forms the module emits are decoded; every other word
 decodes to `Other`.
 */
module Words {

  type Word = bv32
  type Addr = bv32

  /** `ba`: branch to the absolute address `a`, as far as its 25 low bits reach. */
  function Ba(a: Addr): Word {
    0x48000002 | (a & 0x01FFFFFC)
  }

  /** The test the module uses for "a single `ba` reaches this address". */
  predicate Short(a: Addr) {
    a & 0x01FFFFFC == a
  }

  predicate Aligned(a: Addr) {
    a & 3 == 0
  }

  function Hi(a: Addr): Word { (a >> 16) & 0x0000FFFF }

  function Lo(a: Addr): Word { a & 0x0000FFFF }

  /** lis r11, imm */
  function Lis(imm: Word): Word { 0x3d600000 | (imm & 0x0000FFFF) }

  /** ori r11, r11, imm */
  function Ori(imm: Word): Word { 0x616b0000 | (imm & 0x0000FFFF) }

  /** lwz r11, d(r11) */
  function Lwz(d: Word): Word { 0x816b0000 | (d & 0x0000FFFF) }

  /** cmpwi r11, imm */
  function Cmpwi(imm: Word): Word { 0x2c0b0000 | imm }

  /** beq disp */
  function Beq(disp: Word): Word { 0x41820000 | disp }

  /** mtspr CTR, r11 */
  const MTCTR: Word := 0x7d6903a6

  /** bctr */
  const BCTR: Word := 0x4e800420

  /** The value of a 16-bit field read as a signed number, in 32 bits. */
  function SignExtend16(d: Word): Word {
    var field := d & 0x0000FFFF;
    if field < 0x8000 then field else field + 0xFFFF0000
  }

  /** The value of the 26-bit LI field of an I-form branch read as a signed number, in 32 bits. */
  function SignExtend26(w: Word): Word {
    var field := w & 0x03FFFFFC;
    if field < 0x02000000 then field else field + 0xFC000000
  }

  datatype Instr =
    | LoadImmShifted(imm: Word)
    | OrImm(imm: Word)
    | LoadWord(d: Word)
    | CompareImm(imm: Word)
    | BranchIfEqual(disp: Word)
    | MoveToCtr
    | BranchCtr
    | BranchAbs(target: Addr)
    | BranchRel(disp: Word)
    | Other

  function Decode(w: Word): Instr {
    if w & 0xFFFF0000 == 0x3d600000 then LoadImmShifted(w & 0x0000FFFF)
    else if w & 0xFFFF0000 == 0x616b0000 then OrImm(w & 0x0000FFFF)
    else if w & 0xFFFF0000 == 0x816b0000 then LoadWord(SignExtend16(w))
    else if w & 0xFFFF0000 == 0x2c0b0000 then CompareImm(SignExtend16(w))
    else if w & 0xFFFF0003 == 0x41820000 then BranchIfEqual(SignExtend16(w & 0x0000FFFC))
    else if w == MTCTR then MoveToCtr
    else if w == BCTR then BranchCtr
    else if w & 0xFC000003 == 0x48000002 then BranchAbs(SignExtend26(w))
    else if w & 0xFC000003 == 0x48000000 then BranchRel(SignExtend26(w))
    else Other
  }

  // ----- `ba` and its decoder -----

  /** Whatever address is encoded, the decoder gives back the part of it that a `ba` reaches. */
  lemma BaDecodes(a: Addr)
    ensures Decode(Ba(a)) == BranchAbs(a & 0x01FFFFFC)
    ensures Short(a) ==> Decode(Ba(a)) == BranchAbs(a)
  {
    BaBits(a);
  }

  /** Bit facts are stated over bare masks, so that each is decided by itself. */
  lemma BaBits(a: Addr)
    ensures var w := 0x48000002 | (a & 0x01FFFFFC);
            && w & 0xFC000003 == 0x48000002 && w & 0x03FFFFFC == a & 0x01FFFFFC
            && w & 0x03FFFFFC < 0x02000000 && w & 2 == 2 && w != 0
            && w & 0xFFFF0000 != 0x3d600000 && w & 0xFFFF0000 != 0x616b0000 && w & 0xFFFF0000 != 0x816b0000
            && w & 0xFFFF0000 != 0x2c0b0000 && w & 0xFFFF0003 != 0x41820000 && w != MTCTR && w != BCTR
  {
  }

  /** A word is an absolute branch to `t` below 0x02000000 exactly when it is `Ba(t)` for an aligned `t`. */
  lemma BaIsTheOnlyShortBranch(w: Word, t: Addr)
    ensures Decode(w) == BranchAbs(t) && t < 0x02000000 <==> w == Ba(t) && Short(t)
  {
    hide *;
    if Decode(w) == BranchAbs(t) && t < 0x02000000 {
      AbsoluteBranchField(w, t);
      ShortBranchBits(w, t);
    }
    if w == Ba(t) && Short(t) {
      BaDecodes(t);
      ShortMeans(t);
    }
  }

  lemma AbsoluteBranchField(w: Word, t: Addr)
    requires Decode(w) == BranchAbs(t) && t < 0x02000000
    ensures w & 0xFC000003 == 0x48000002 && t == w & 0x03FFFFFC
  {
    hide Ba;
    assert t == SignExtend26(w);
    NegativeFieldIsHigh(w);
  }

  lemma NegativeFieldIsHigh(w: Word)
    ensures w & 0x03FFFFFC >= 0x02000000 ==> (w & 0x03FFFFFC) + 0xFC000000 >= 0x02000000
  {
  }

  lemma ShortBranchBits(w: Word, t: Addr)
    requires w & 0xFC000003 == 0x48000002 && t == w & 0x03FFFFFC && t < 0x02000000
    ensures w == Ba(t) && Short(t)
  {
  }

  lemma BaInjective(a: Addr, b: Addr)
    requires Short(a) && Short(b)
    ensures Ba(a) == Ba(b) <==> a == b
  {
  }

  /** `Short` says: 4-aligned and below 0x02000000. */
  lemma ShortMeans(a: Addr)
    ensures Short(a) <==> Aligned(a) && a < 0x02000000
    ensures Aligned(a) ==> (Short(a) <==> a <= 0x01FFFFFC)
  {
  }

  lemma BaIsNotZeroNorRelative(a: Addr)
    ensures Ba(a) != 0
    ensures !Decode(Ba(a)).BranchRel?
  {
    BaDecodes(a);
    BaBits(a);
  }

  // ----- immediates -----

  lemma ImmediatesDecode(imm: Word)
    ensures Decode(Lis(imm)) == LoadImmShifted(Lo(imm))
    ensures Decode(Ori(imm)) == OrImm(Lo(imm))
    ensures Decode(Lwz(imm)) == LoadWord(SignExtend16(imm))
  {
  }

  lemma CompareDecodes(imm: Word)
    requires imm < 0x8000
    ensures Decode(Cmpwi(imm)) == CompareImm(imm)
  {
    assert (0x2c0b0000 | imm) & 0xFFFF0000 == 0x2c0b0000;
    assert SignExtend16(0x2c0b0000 | imm) == imm;
  }

  lemma MovesDecode()
    ensures Decode(MTCTR) == MoveToCtr
    ensures Decode(BCTR) == BranchCtr
    ensures Decode(Beq(0x0C)) == BranchIfEqual(0x0C)
    ensures Decode(Beq(0x14)) == BranchIfEqual(0x14)
    ensures Decode(Beq(0x18)) == BranchIfEqual(0x18)
    ensures Decode(Beq(0x20)) == BranchIfEqual(0x20)
  {
  }

  // ----- encodings, field by field -----

  /** The primary opcode, bits 0 to 5. */
  function Opcode(w: Word): Word { w >> 26 }

  /** Bits 6 to 10: RT, RS, BO, or BF with L. */
  function FieldT(w: Word): Word { (w >> 21) & 31 }

  /** Bits 11 to 15: RA or BI. */
  function FieldA(w: Word): Word { (w >> 16) & 31 }

  /** lis is addis with RA 0. */
  lemma LisFields(imm: Word)
    ensures var w := Lis(imm); Opcode(w) == 15 && FieldT(w) == 11 && FieldA(w) == 0 && w & 0xFFFF == imm & 0xFFFF
  {
  }

  lemma OriFields(imm: Word)
    ensures var w := Ori(imm); Opcode(w) == 24 && FieldT(w) == 11 && FieldA(w) == 11 && w & 0xFFFF == imm & 0xFFFF
  {
  }

  lemma LwzFields(imm: Word)
    ensures var w := Lwz(imm); Opcode(w) == 32 && FieldT(w) == 11 && FieldA(w) == 11 && w & 0xFFFF == imm & 0xFFFF
  {
  }

  /** cmpwi: opcode 11, CR0, 32 bits, r11; beq: opcode 16, branch if CR0's EQ bit is set, relative, no link. */
  lemma TestFields(id: Word, disp: Word)
    requires id < 0x8000 && disp & 0xFFFF8003 == 0
    ensures var w := Cmpwi(id); Opcode(w) == 11 && FieldT(w) == 0 && FieldA(w) == 11 && w & 0xFFFF == id
    ensures var w := Beq(disp); Opcode(w) == 16 && FieldT(w) == 12 && FieldA(w) == 2 && w & 0xFFFF == disp && w & 3 == 0
  {
    SmallImmediate(id);
    SmallDisplacement(disp);
  }

  lemma SmallImmediate(id: Word)
    requires id < 0x8000
    ensures var w := 0x2c0b0000 | id; w >> 26 == 11 && (w >> 21) & 31 == 0 && (w >> 16) & 31 == 11 && w & 0xFFFF == id
  {
  }

  lemma SmallDisplacement(disp: Word)
    requires disp & 0xFFFF8003 == 0
    ensures var w := 0x41820000 | disp;
            w >> 26 == 16 && (w >> 21) & 31 == 12 && (w >> 16) & 31 == 2 && w & 0xFFFF == disp && w & 3 == 0
  {
  }

  /** b with AA set and LK clear; mtspr 9 from r11 (the halves of the SPR number are swapped); bcctr always, without link. */
  lemma BranchFields(a: Addr)
    ensures var w := Ba(a); Opcode(w) == 18 && w & 3 == 2 && w & 0x03FFFFFC == a & 0x01FFFFFC
    ensures Opcode(MTCTR) == 31 && FieldT(MTCTR) == 11 && (MTCTR >> 11) & 0x3FF == 9 << 5 && (MTCTR >> 1) & 0x3FF == 467 && MTCTR & 1 == 0
    ensures Opcode(BCTR) == 19 && FieldT(BCTR) == 20 && FieldA(BCTR) == 0 && (BCTR >> 1) & 0x3FF == 528 && BCTR & 1 == 0
  {
  }

  /** What the decoder takes for a branch with an address in the word is told by the opcode and the bits AA and LK. */
  lemma BranchesDecoded(w: Word)
    ensures Decode(w).BranchRel? <==> Opcode(w) == 18 && w & 3 == 0
    ensures Decode(w).BranchAbs? <==> Opcode(w) == 18 && w & 3 == 2
  {
    hide SignExtend16, SignExtend26;
    OpcodeBits(w);
  }

  lemma OpcodeBits(w: Word)
    ensures w & 0xFC000003 == 0x48000000 <==> w >> 26 == 18 && w & 3 == 0
    ensures w & 0xFC000003 == 0x48000002 <==> w >> 26 == 18 && w & 3 == 2
    ensures w >> 26 == 18 ==>
              && w & 0xFFFF0000 != 0x3d600000 && w & 0xFFFF0000 != 0x616b0000 && w & 0xFFFF0000 != 0x816b0000
              && w & 0xFFFF0000 != 0x2c0b0000 && w & 0xFFFF0003 != 0x41820000 && w != MTCTR && w != BCTR
  {
  }

  // ----- signed halves -----

  /** A half read as a signed number is the only word with the same low half and the sign bit in all bits above. */
  lemma SignExtend16IsTwosComplement(d: Word, v: Word)
    ensures v == SignExtend16(d)
       <==> v & 0xFFFF == d & 0xFFFF && v & 0xFFFF0000 == (if d & 0x8000 == 0 then 0 else 0xFFFF0000)
  {
    SignExtend16Bits(d);
    hide SignExtend16;
    HalvesDecide(v, SignExtend16(d));
  }

  lemma SignExtend16Bits(d: Word)
    ensures SignExtend16(d) & 0xFFFF == d & 0xFFFF
    ensures SignExtend16(d) & 0xFFFF0000 == (if d & 0x8000 == 0 then 0 else 0xFFFF0000)
  {
    if d & 0x8000 == 0 {
      PositiveHalf(d);
    } else {
      NegativeHalf(d);
    }
  }

  lemma PositiveHalf(d: Word)
    requires d & 0x8000 == 0
    ensures d & 0xFFFF < 0x8000 && (d & 0xFFFF) & 0xFFFF == d & 0xFFFF && (d & 0xFFFF) & 0xFFFF0000 == 0
  {
  }

  lemma NegativeHalf(d: Word)
    requires d & 0x8000 != 0
    ensures !(d & 0xFFFF < 0x8000)
    ensures ((d & 0xFFFF) + 0xFFFF0000) & 0xFFFF == d & 0xFFFF && ((d & 0xFFFF) + 0xFFFF0000) & 0xFFFF0000 == 0xFFFF0000
  {
  }

  lemma HalvesDecide(v: Word, x: Word)
    ensures v == x <==> v & 0xFFFF == x & 0xFFFF && v & 0xFFFF0000 == x & 0xFFFF0000
  {
  }

  /** ... that is, 2^16 less than the half if its top bit is set. */
  lemma SignExtend16Subtracts(d: Word)
    ensures d & 0x8000 == 0 ==> SignExtend16(d) == d & 0xFFFF
    ensures d & 0x8000 != 0 ==> SignExtend16(d) == (d & 0xFFFF) - 0x10000
  {
    if d & 0x8000 == 0 {
      PositiveHalf(d);
    } else {
      NegativeHalf(d);
      LessByHalf(d & 0xFFFF);
    }
  }

  lemma LessByHalf(x: Word)
    ensures x + 0xFFFF0000 == x - 0x10000
  {
  }

  /** The lis/ori pair rebuilds any 32-bit address, whatever the address was split from. */
  lemma LisOriRebuilds(a: Addr)
    ensures Decode(Lis(Hi(a))).LoadImmShifted? && Decode(Ori(Lo(a))).OrImm?
    ensures (Decode(Lis(Hi(a))).imm << 16) | Decode(Ori(Lo(a))).imm == a
  {
    ImmediatesDecode(Hi(a));
    ImmediatesDecode(Lo(a));
    HalvesBits(a);
  }

  lemma HalvesBits(a: Word)
    ensures ((((a >> 16) & 0x0000FFFF) & 0x0000FFFF) << 16) | ((a & 0x0000FFFF) & 0x0000FFFF) == a
  {
  }

  // ----- the displacement of a relative branch -----

  /** The displacement as FunctionAddressProvider computes it. */
  function RelativeOffset(w: Word): Word {
    var diff := w & 0x01FFFFFC;
    if w & 0x02000000 == 0x02000000 then 0xFE000000 + diff else diff
  }

  /** ... is the sign extension of the 26-bit field, for every word. */
  lemma RelativeOffsetIsSignExtension(w: Word)
    ensures RelativeOffset(w) == SignExtend26(w)
  {
    hide *;
    if w & 0x02000000 == 0x02000000 {
      NegativeOffset(w);
    } else {
      PositiveOffset(w);
    }
  }

  lemma PositiveOffset(w: Word)
    requires w & 0x02000000 != 0x02000000
    ensures RelativeOffset(w) == w & 0x01FFFFFC && SignExtend26(w) == w & 0x01FFFFFC
  {
    PositiveField(w);
  }

  lemma PositiveField(w: Word)
    requires w & 0x02000000 != 0x02000000
    ensures w & 0x03FFFFFC == w & 0x01FFFFFC && w & 0x03FFFFFC < 0x02000000
  {
  }

  lemma NegativeOffset(w: Word)
    requires w & 0x02000000 == 0x02000000
    ensures RelativeOffset(w) == 0xFE000000 | (w & 0x01FFFFFC) && SignExtend26(w) == 0xFE000000 | (w & 0x01FFFFFC)
  {
    NegativeField(w);
    NegativeSum(w);
  }

  lemma NegativeField(w: Word)
    requires w & 0x02000000 == 0x02000000
    ensures !(w & 0x03FFFFFC < 0x02000000)
  {
  }

  lemma NegativeSum(w: Word)
    requires w & 0x02000000 == 0x02000000
    ensures (w & 0x03FFFFFC) + 0xFC000000 == 0xFE000000 | (w & 0x01FFFFFC)
    ensures 0xFE000000 + (w & 0x01FFFFFC) == 0xFE000000 | (w & 0x01FFFFFC)
  {
  }

  /**
   ... and that is the only word which agrees with the field in its low 26 bits and repeats
   the field's sign bit in all bits above: two's complement, modulo 2^32.
   */
  lemma RelativeOffsetIsTwosComplement(w: Word, v: Word)
    ensures v == RelativeOffset(w)
       <==> && v & 0x03FFFFFF == w & 0x03FFFFFC
            && v & 0xFC000000 == (if w & 0x02000000 == 0 then 0 else 0xFC000000)
  {
    hide *;
    SignBit(w);
    if w & 0x02000000 == 0x02000000 {
      NegativeOffset(w);
      OnesRepeated(w, v);
    } else {
      PositiveOffset(w);
      ZerosRepeated(w, v);
    }
  }

  lemma SignBit(w: Word)
    ensures w & 0x02000000 == 0 <==> w & 0x02000000 != 0x02000000
  {
  }

  lemma OnesRepeated(w: Word, v: Word)
    requires w & 0x02000000 == 0x02000000
    ensures v == 0xFE000000 | (w & 0x01FFFFFC) <==> v & 0x03FFFFFF == w & 0x03FFFFFC && v & 0xFC000000 == 0xFC000000
  {
  }

  lemma ZerosRepeated(w: Word, v: Word)
    requires w & 0x02000000 != 0x02000000
    ensures v == w & 0x01FFFFFC <==> v & 0x03FFFFFF == w & 0x03FFFFFC && v & 0xFC000000 == 0
  {
  }
}
