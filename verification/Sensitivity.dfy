/** Which instructions notice that their first operand is read as their second. */
module Sensitivity {
  import opened Words
  import R = Riscv
  import opened LifterTheorems
  import opened Misread

  // ---------- Bits ----------

  lemma {:induction false} SameBits(b: nat, n: nat)
    requires b < Pow2(n)
    ensures BitsUpTo(AndBits, b, b, n) == b && BitsUpTo(OrBits, b, b, n) == b && BitsUpTo(XorBits, b, b, n) == 0
    decreases n
  {
    if n > 0 { SameBits(b / 2, n - 1); }
  }

  lemma {:induction false} ZeroBits(b: nat, n: nat)
    requires b < Pow2(n)
    ensures BitsUpTo(AndBits, 0, b, n) == 0 && BitsUpTo(OrBits, 0, b, n) == b && BitsUpTo(XorBits, 0, b, n) == b
    ensures BitsUpTo(AndBits, b, 0, n) == 0 && BitsUpTo(OrBits, b, 0, n) == b && BitsUpTo(XorBits, b, 0, n) == b
    decreases n
  {
    if n > 0 { ZeroBits(b / 2, n - 1); }
  }

  lemma {:induction false} AllBits(b: nat, n: nat)
    requires b < Pow2(n)
    ensures BitsUpTo(OrBits, Pow2(n) - 1, b, n) == Pow2(n) - 1
    decreases n
  {
    if n > 0 { AllBits(b / 2, n - 1); }
  }

  const ONES: Word := 0xFFFF_FFFF_FFFF_FFFF

  lemma {:induction false} BitwiseFacts(b: Word)
    ensures Bitwise(AndBits, b, b) == b && Bitwise(OrBits, b, b) == b && Bitwise(XorBits, b, b) == 0
    ensures Bitwise(AndBits, 0, b) == 0 && Bitwise(OrBits, 0, b) == b && Bitwise(XorBits, 0, b) == b
    ensures Bitwise(AndBits, b, 0) == 0 && Bitwise(OrBits, b, 0) == b && Bitwise(XorBits, b, 0) == b
    ensures Bitwise(OrBits, ONES, b) == ONES
  {
    hide BitsUpTo, Pow2;
    Pow2At64();
    SameBits(b, 64);
    ZeroBits(b, 64);
    AllBits(b, 64);
  }

  // ---------- Shifts ----------

  lemma {:induction false} ShiftsOfZero(n: nat)
    ensures Shl(0, n) == 0 && Shr(0, n) == 0 && Sar(0, n) == 0
    decreases n
  {
    if n > 0 { ShiftsOfZero(n - 1); }
  }

  lemma {:induction false} SmallShiftsOut(x: nat, n: nat)
    requires x < Pow2(n) && x < 0x8000_0000_0000_0000
    ensures Shr(x, n) == 0 && Sar(x, n) == 0
    decreases n
  {
    if n > 0 { SmallShiftsOut(x / 2, n - 1); }
  }

  lemma {:induction false} BelowItsPower(n: nat)
    ensures n < Pow2(n)
  {
    if n > 0 { BelowItsPower(n - 1); }
  }

  lemma {:induction false} OnesStay(n: nat)
    ensures Sar(ONES, n) == ONES
    decreases n
  {
    if n > 0 { OnesStay(n - 1); }
  }

  lemma {:induction false} PowerDoubles(n: nat)
    ensures Pow2(n + 1) == 2 * Pow2(n)
  {
  }

  lemma {:induction false} PowerIsWord(n: nat)
    requires n < 64
    ensures 1 <= Pow2(n) <= 0x8000_0000_0000_0000
    decreases 64 - n
  {
    if n == 63 { Pow2At64(); PowerDoubles(63); } else { PowerIsWord(n + 1); PowerDoubles(n); }
  }

  lemma {:induction false} TopShiftsDown(k: nat, n: nat)
    requires k <= n < 64
    ensures Pow2(n) <= 0x8000_0000_0000_0000 && Shr(Pow2(n), k) == Pow2(n - k)
    decreases k
  {
    hide Pow2;
    PowerIsWord(n);
    if k > 0 {
      PowerDoubles(n - 1);
      PowerIsWord(n - 1);
      TopShiftsDown(k - 1, n - 1);
    }
  }

  lemma {:induction false} PowersMultiply(a: nat, b: nat)
    ensures Pow2(a) * Pow2(b) == Pow2(a + b)
    decreases b
  {
    hide Pow2;
    if b == 0 {
      assert Pow2(0) == 1 by { PowerOfZero(); }
    } else {
      PowersMultiply(a, b - 1);
      PowerDoubles(b - 1);
      PowerDoubles(a + b - 1);
      assert Pow2(a) * (2 * Pow2(b - 1)) == 2 * (Pow2(a) * Pow2(b - 1));
    }
  }

  lemma {:induction false} PowerOfZero()
    ensures Pow2(0) == 1
  {
  }

  /** What is shifted out to nothing is a multiple of the matching power of two. */
  lemma {:induction false} ShiftedOut(x: Word, n: nat) returns (q: int)
    requires n <= 64 && Shl(x, n) == 0
    ensures x == q * Pow2(64 - n)
    decreases n
  {
    hide Pow2;
    if n == 0 {
      q := 0;
    } else {
      var r := ShiftedOut(Add(x, x), n - 1);
      PowerDoubles(64 - n);
      PowersMultiply(64 - n, n - 1);
      Pow2At64();
      PowerDoubles(63);
      var p := Pow2(64 - n);
      assert r * (2 * p) == 2 * (r * p);
      q := if x + x < 0x1_0000_0000_0000_0000 then r else r + Pow2(n - 1);
      assert (r + Pow2(n - 1)) * p == r * p + p * Pow2(n - 1);
    }
  }

  lemma {:induction false} NoMultiple(b: nat, p: nat, q: int)
    requires 0 < b < p
    ensures b != q * p
  {
    assert q >= 1 ==> q * p >= p;
    assert q <= 0 ==> q * p <= 0;
  }

  lemma {:induction false} PowerGrows(a: nat, b: nat)
    requires a <= b
    ensures Pow2(a) <= Pow2(b)
    decreases b
  {
    if a < b { PowerGrows(a, b - 1); }
  }

  /** A shift amount shifted by itself leaves something. */
  lemma {:induction false} AmountStays(b: Word)
    requires 0 < b < 64
    ensures Shl(b, b) != 0
  {
    hide Shl;
    if Shl(b, b) == 0 {
      var q := ShiftedOut(b, b);
      assert Pow2(6) == 64 && Pow2(5) == 32 && Pow2(4) == 16 && Pow2(3) == 8 && Pow2(2) == 4 && Pow2(1) == 2;
      if b <= 58 {
        PowerGrows(6, 64 - b);
        NoMultiple(b, Pow2(64 - b), q);
      }
    }
  }

  // ---------- Instructions ----------

  /** Instructions whose effect can change when the second operand is put in place of the first,
      told from their opcode, registers and immediate. */
  predicate Sensitive(inst: R.DecodedInst) {
    var op := inst.opcode;
    match inst.operands
    case RegImm(rd, imm) => op.AUIPC? && rd != 0 && inst.pc != R.Bits(imm)
    case RegRegImm(rd, rs1, imm) =>
      && HasLowering(op) && rd != 0
      && (if op.ANDI? then R.Bits(imm) != 0
          else if op.ORI? then rs1 != 0 && R.Bits(imm) != ONES
          else if op.SRLI? || op.SRAI? then rs1 != 0
          else rs1 != 0 || R.Bits(imm) != 0)
    case RegRegReg(rd, rs1, rs2) =>
      HasLowering(op) && rd != 0 && rs1 != rs2 && !(op.AND? && rs2 == 0) && !(op.OR? && rs1 == 0)
    case Branch(rs1, rs2, imm) =>
      rs1 != rs2 && R.Bits(imm) != 4 && !((op.BLTU? || op.BGEU?) && rs2 == 0)
    case _ => false
  }

  // ---------- Immediates ----------

  lemma {:induction false} AmountIsSmall(inst: R.DecodedInst)
    requires R.WellFormed(inst) && inst.operands.RegRegImm?
    ensures inst.opcode.SLLI? ==> R.Bits(inst.operands.imm) < 64
    ensures inst.opcode.SRLI? || inst.opcode.SRAI? ==> R.Bits(inst.operands.imm) < 32
  {
    hide R.SignedBelow;
  }

  lemma {:induction false} ImmediateIsSmall(inst: R.DecodedInst)
    requires R.WellFormed(inst) && inst.operands.RegRegImm?
    ensures
      var b := R.Bits(inst.operands.imm);
      && (inst.opcode.ADDIW? ==> b < 0x800 || b >= 0xFFFF_FFFF_FFFF_F800)
      && (inst.opcode.SLLI? ==> b < 64)
      && (inst.opcode.SRLI? || inst.opcode.SRAI? ==> b < 32)
  {
    AmountIsSmall(inst);
  }

  lemma {:induction false} ShiftAway(b: Word)
    requires b < 32
    ensures Shr(b, b) == 0 && Sar(b, b) == 0 && Shr(ONES, b) != 0 && b % 64 == b
    ensures Shr(0, b) == 0 && Sar(0, b) == 0 && Sar(ONES, b) == ONES
  {
    BelowItsPower(b);
    SmallShiftsOut(b, b);
    ShiftsOfZero(b);
    OnesStay(b);
    PowerIsWord(b);
    OnesLeave(b, 0xFFFF_FFFF_FFFF_FFFF);
  }

  lemma {:induction false} OnesLeave(n: nat, x: Word)
    requires n < 64 && x >= Pow2(n)
    ensures Shr(x, n) != 0
    decreases n
  {
    if n > 0 { OnesLeave(n - 1, x / 2); }
  }

  lemma {:induction false} WordSumDiffers(b: Word)
    requires 0 < b < 0x800 || b >= 0xFFFF_FFFF_FFFF_F800
    ensures SExt32(Low32(Low32(0) + Low32(b))) != SExt32(Low32(Low32(b) + Low32(b)))
  {
  }

  /** With b != 0 and the first operand zero. */
  lemma {:induction false} ImmFromZero(op: R.Opcode, b: Word)
    requires b != 0 && (op.ADDI? || op.ADDIW? || op.XORI? || op.SLLI? || op.ANDI?)
    requires op.ADDIW? ==> b < 0x800 || b >= 0xFFFF_FFFF_FFFF_F800
    requires op.SLLI? ==> b < 64
    ensures R.BinaryResult(op, 0, b) != R.BinaryResult(op, b, b)
  {
    hide Bitwise, Shl, SExt32, Low32;
    BitwiseFacts(b);
    ShiftsOfZero(b % 64);
    if op.SLLI? { AmountStays(b); }
    if op.ADDIW? { WordSumDiffers(b); }
  }

  /** With b = 0 and the first operand one. */
  lemma {:induction false} ImmFromOne(op: R.Opcode)
    requires op.ADDI? || op.ADDIW? || op.XORI? || op.SLLI?
    ensures R.BinaryResult(op, 1, 0) != R.BinaryResult(op, 0, 0)
  {
    hide Bitwise, Shl, SExt32, Low32;
    BitwiseFacts(1);
    BitwiseFacts(0);
    NoShift(0);
    NoShift(1);
    SmallWordSums();
  }

  lemma {:induction false} ImmFromOnes(op: R.Opcode, b: Word)
    requires (op.ORI? && b != ONES) || ((op.SRLI? || op.SRAI?) && b < 32)
    ensures R.BinaryResult(op, ONES, b) != R.BinaryResult(op, b, b)
  {
    hide Bitwise, Shr, Sar;
    BitwiseFacts(b);
    if b < 32 { ShiftAway(b); }
  }

  /** Where a register-immediate operation cannot tell. */
  lemma {:induction false} ImmSame(op: R.Opcode, a: Word, b: Word)
    requires (op.ANDI? && b == 0) || (op.ORI? && (b == ONES || a == 0))
      || ((op.SRLI? || op.SRAI?) && b < 32 && a == 0)
      || ((op.ADDI? || op.ADDIW? || op.XORI? || op.SLLI?) && a == 0 && b == 0)
    ensures R.BinaryResult(op, a, b) == R.BinaryResult(op, b, b)
  {
    hide Bitwise, Shr, Sar;
    BitwiseFacts(b);
    BitwiseFacts(a);
    OrCommutes(a);
    if b < 32 { ShiftAway(b); }
  }

  lemma {:induction false} OrOnes(a: nat, n: nat)
    requires a < Pow2(n)
    ensures BitsUpTo(OrBits, a, Pow2(n) - 1, n) == Pow2(n) - 1
    decreases n
  {
    if n > 0 { OrOnes(a / 2, n - 1); }
  }

  lemma {:induction false} OrCommutes(a: Word)
    ensures Bitwise(OrBits, a, ONES) == ONES
  {
    hide BitsUpTo, Pow2;
    Pow2At64();
    OrOnes(a, 64);
  }

  // ---------- Registers ----------

  lemma {:induction false} NoShift(x: Word)
    ensures Shl(x, 0) == x && Shr(x, 0) == x && Sar(x, 0) == x
  {
  }

  lemma {:induction false} SmallWordSums()
    ensures SExt32(Low32(Low32(1) + Low32(0))) == 1 && SExt32(Low32(Low32(0) + Low32(0))) == 0
    ensures SExt32(Low32(Low32(0) + Low32(64))) == 64 && SExt32(Low32(Low32(64) + Low32(64))) == 128
  {
  }

  /** The three shifts: by nothing they return what they are given. */
  lemma {:induction false} ShiftTells(op: R.Opcode, a: Word, b: Word)
    requires (op.SLL? || op.SRL? || op.SRA?) && b % 64 == 0
    ensures R.BinaryResult(op, a, b) == a
  {
    hide Shl, Shr, Sar;
    NoShift(a);
  }

  lemma {:induction false} RegFromOne(op: R.Opcode)
    requires op.ADD? || op.SUB? || op.OR? || op.XOR? || op.SLL? || op.SRL? || op.SRA? || op.ADDW?
    ensures R.BinaryResult(op, 1, 0) != R.BinaryResult(op, 0, 0)
  {
    hide Bitwise, SExt32, Low32, Shl, Shr, Sar;
    if op.SLL? || op.SRL? || op.SRA? {
      ShiftTells(op, 1, 0);
      ShiftTells(op, 0, 0);
    } else {
      BitwiseFacts(1);
      BitwiseFacts(0);
      SmallWordSums();
    }
  }

  lemma {:induction false} RegFrom64(op: R.Opcode)
    requires op.ADD? || op.SUB? || op.XOR? || op.SLL? || op.SRL? || op.SRA? || op.ADDW?
    ensures R.BinaryResult(op, 0, 64) != R.BinaryResult(op, 64, 64)
  {
    hide Bitwise, SExt32, Low32, Shl, Shr, Sar;
    if op.SLL? || op.SRL? || op.SRA? {
      ShiftTells(op, 0, 64);
      ShiftTells(op, 64, 64);
    } else {
      BitwiseFacts(64);
      SmallWordSums();
    }
  }

  lemma {:induction false} AndFromOne()
    ensures R.BinaryResult(R.AND, 0, 1) != R.BinaryResult(R.AND, 1, 1)
  {
    hide Bitwise;
    BitwiseFacts(1);
  }

  lemma {:induction false} RegSame(op: R.Opcode, a: Word, b: Word)
    requires a == b || (op.AND? && b == 0) || (op.OR? && a == 0)
    ensures R.BinaryResult(op, a, b) == R.BinaryResult(op, b, b)
  {
    hide Bitwise, Shl, Shr, Sar, SExt32, Low32;
    BitwiseFacts(a);
    BitwiseFacts(b);
  }

  lemma {:induction false} LoweredRegs(inst: R.DecodedInst)
    requires R.WellFormed(inst) && HasLowering(inst.opcode)
    ensures
      var op := inst.opcode;
      inst.operands.RegRegReg? ==>
        op.ADD? || op.SUB? || op.OR? || op.XOR? || op.SLL? || op.SRL? || op.SRA? || op.ADDW? || op.AND?
    ensures
      var op := inst.opcode;
      inst.operands.RegRegImm? ==>
        op.ADDI? || op.ADDIW? || op.XORI? || op.ORI? || op.ANDI? || op.SLLI? || op.SRLI? || op.SRAI?
  {
    hide R.SignedBelow;
  }

  // ---------- What the instruction does ----------

  /** The instruction has one effect with its own operands and another when misread. */
  predicate Tells(inst: R.DecodedInst, g: R.Guest) {
    if inst.operands.Branch? then
      && R.Bits(inst.operands.imm) != 4
      && R.BranchTaken(inst.opcode, R.Reg(g.x, inst.operands.rs1), R.Reg(g.x, inst.operands.rs2))
        != R.BranchTaken(inst.opcode, R.Reg(g.x, inst.operands.rs2), R.Reg(g.x, inst.operands.rs2))
    else MisreadExec(inst, g) != R.Exec(inst, g)
  }

  lemma {:induction false} SetTells(g: R.Guest, rd: R.RegIndex, v: Word, w: Word)
    ensures (R.SetReg(g, rd, v) != R.SetReg(g, rd, w)) <==> rd != 0 && v != w
    ensures rd != 0 ==> R.Slot(R.SetReg(g, rd, v).x, rd) == v
  {
    assert rd != 0 ==> R.SetReg(g, rd, v).x[rd] == v && R.SetReg(g, rd, w).x[rd] == w;
  }

  lemma {:induction false} RegTells(inst: R.DecodedInst) returns (g: R.Guest)
    requires R.WellFormed(inst) && inst.operands.RegRegReg? && Sensitive(inst)
    ensures R.ZeroX0(g) && Tells(inst, g)
  {
    hide R.WellFormed, HasLowering, R.BinaryResult, R.SetReg, R.Reg, R.ZeroX0;
    var RegRegReg(rd, rs1, rs2) := inst.operands;
    var op := inst.opcode;
    LoweredRegs(inst);
    if op.AND? {
      g := R.OneReg(rs2, 1);
      R.OneRegReads(rs2, 1);
      XZero(g, rs1);
      AndFromOne();
    } else if rs1 != 0 {
      g := R.OneReg(rs1, 1);
      R.OneRegReads(rs1, 1);
      RegFromOne(op);
    } else {
      g := R.OneReg(rs2, 64);
      R.OneRegReads(rs2, 64);
      RegFrom64(op);
    }
    var a, b := R.Reg(g.x, rs1), R.Reg(g.x, rs2);
    SetTells(g, rd, R.BinaryResult(op, a, b), R.BinaryResult(op, b, b));
  }

  lemma {:induction false} XZero(g: R.Guest, r: R.RegIndex)
    ensures R.Reg(g.x, 0) == 0
  {
  }

  lemma {:induction false} ImmTells(inst: R.DecodedInst) returns (g: R.Guest)
    requires R.WellFormed(inst) && inst.operands.RegRegImm? && Sensitive(inst)
    ensures R.ZeroX0(g) && Tells(inst, g)
  {
    hide R.WellFormed, HasLowering, R.BinaryResult, R.SetReg, R.Reg, R.ZeroX0, R.Bits;
    var RegRegImm(rd, rs1, imm) := inst.operands;
    var op, b := inst.opcode, R.Bits(imm);
    LoweredRegs(inst);
    ImmediateIsSmall(inst);
    if op.ORI? || op.SRLI? || op.SRAI? {
      g := R.OneReg(rs1, ONES);
      R.OneRegReads(rs1, ONES);
      ImmFromOnes(op, b);
    } else if b != 0 {
      g := R.Guest(map[], map[]);
      R.NoRegReads();
      ImmFromZero(op, b);
    } else {
      g := R.OneReg(rs1, 1);
      R.OneRegReads(rs1, 1);
      ImmFromOne(op);
    }
    SetTells(g, rd, R.BinaryResult(op, R.Reg(g.x, rs1), b), R.BinaryResult(op, b, b));
  }

  lemma {:induction false} BranchTells(inst: R.DecodedInst) returns (g: R.Guest)
    requires R.WellFormed(inst) && inst.operands.Branch? && Sensitive(inst)
    ensures R.ZeroX0(g) && Tells(inst, g)
  {
    hide R.WellFormed, R.Reg, R.ZeroX0, R.Bits;
    var Branch(rs1, rs2, _) := inst.operands;
    BranchOps(inst);
    if rs2 == 0 {
      g := R.OneReg(rs1, ONES);
      R.OneRegReads(rs1, ONES);
    } else {
      g := R.OneReg(rs2, 1);
      R.OneRegReads(rs2, 1);
      XZero(g, rs1);
    }
  }

  lemma {:induction false} BranchOps(inst: R.DecodedInst)
    requires R.WellFormed(inst) && inst.operands.Branch?
    ensures R.IsCondBranch(inst.opcode)
  {
    hide R.SignedBelow;
  }

  lemma {:induction false} AuipcTells(inst: R.DecodedInst) returns (g: R.Guest)
    requires inst.operands.RegImm? && Sensitive(inst)
    ensures R.ZeroX0(g) && Tells(inst, g)
  {
    hide R.SetReg, R.Bits, Add, R.ZeroX0;
    g := R.Guest(map[], map[]);
    R.NoRegReads();
    var b := R.Bits(inst.operands.imm);
    AddLeft(inst.pc, b);
    SetTells(g, inst.operands.rd, Add(inst.pc, b), Add(b, b));
  }

  lemma {:induction false} AddLeft(a: Word, b: Word)
    ensures Add(a, b) == Add(b, b) <==> a == b
  {
  }

  lemma {:induction false} NeverTells(inst: R.DecodedInst, g: R.Guest)
    requires R.WellFormed(inst) && TwoOperands(inst) && !Sensitive(inst) && R.ZeroX0(g)
    ensures !Tells(inst, g)
  {
    hide R.WellFormed, R.BinaryResult, R.SetReg, R.Reg, R.ZeroX0, R.Bits, HasLowering, R.BranchTaken, Add;
    XZero(g, 0);
    match inst.operands
    case RegRegReg(rd, rs1, rs2) =>
      var a, b := R.Reg(g.x, rs1), R.Reg(g.x, rs2);
      LoweredRegs(inst);
      if rd != 0 { RegSame(inst.opcode, a, b); }
      SetTells(g, rd, R.BinaryResult(inst.opcode, a, b), R.BinaryResult(inst.opcode, b, b));
    case RegRegImm(rd, rs1, imm) =>
      var a, b := R.Reg(g.x, rs1), R.Bits(imm);
      LoweredRegs(inst);
      ImmediateIsSmall(inst);
      if rd != 0 { ImmSame(inst.opcode, a, b); }
      SetTells(g, rd, R.BinaryResult(inst.opcode, a, b), R.BinaryResult(inst.opcode, b, b));
    case RegImm(rd, imm) =>
      AddLeft(inst.pc, R.Bits(imm));
      SetTells(g, rd, Add(inst.pc, R.Bits(imm)), Add(R.Bits(imm), R.Bits(imm)));
    case Branch(_, _, _) => BranchNeverTells(inst, g);
    case _ =>
  }

  lemma {:induction false} BranchNeverTells(inst: R.DecodedInst, g: R.Guest)
    requires R.WellFormed(inst) && inst.operands.Branch? && !Sensitive(inst) && R.ZeroX0(g)
    ensures !Tells(inst, g)
  {
    hide R.WellFormed, R.Bits, Signed;
    BranchOps(inst);
  }

  /** The instructions that can tell, on some guest with x0 = 0, are exactly the sensitive ones. */
  lemma {:induction false} SensitiveExactly(inst: R.DecodedInst)
    requires R.WellFormed(inst) && TwoOperands(inst)
    ensures Sensitive(inst) <==> exists g :: R.ZeroX0(g) && Tells(inst, g)
  {
    hide R.WellFormed, Sensitive, Tells, R.ZeroX0;
    if Sensitive(inst) {
      var g := CanTell(inst);
      assert R.ZeroX0(g) && Tells(inst, g);
    } else {
      forall g | R.ZeroX0(g) ensures !Tells(inst, g) {
        NeverTells(inst, g);
      }
    }
  }

  lemma {:induction false} CanTell(inst: R.DecodedInst) returns (g: R.Guest)
    requires R.WellFormed(inst) && Sensitive(inst)
    ensures R.ZeroX0(g) && Tells(inst, g)
  {
    hide R.WellFormed, Tells, R.ZeroX0, HasLowering, R.Bits;
    if inst.operands.RegImm? { g := AuipcTells(inst); }
    else if inst.operands.RegRegImm? { g := ImmTells(inst); }
    else if inst.operands.Branch? { g := BranchTells(inst); }
    else { g := RegTells(inst); }
  }
}
