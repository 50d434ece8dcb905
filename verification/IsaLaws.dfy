/** What the reference semantics does, in plain arithmetic: sections 2.4 to 2.6 and 5.2 to 5.3 of the
    RISC-V Instruction Set Manual, Volume I, stated apart from the functions that compute it. */
module IsaLaws {
  import opened Words
  import opened WordLaws
  import opened Riscv

  // ---------- Register operations ----------

  /** r is the result of the operation on a and b. */
  ghost predicate ResultMeans(op: Opcode, a: Word, b: Word, r: Word) {
    match op
    case ADD | ADDI => Represents(r, a + b)
    case SUB => Represents(r, a - b)
    case AND | ANDI => forall i: nat :: i < 64 ==> (BitAt(r, i) == 1 <==> BitAt(a, i) == 1 && BitAt(b, i) == 1)
    case OR | ORI => forall i: nat :: i < 64 ==> (BitAt(r, i) == 1 <==> BitAt(a, i) == 1 || BitAt(b, i) == 1)
    case XOR | XORI => forall i: nat :: i < 64 ==> (BitAt(r, i) == 1 <==> BitAt(a, i) != BitAt(b, i))
    case SLL | SLLI => Represents(r, a * Pow2(b % 64))
    case SRL | SRLI => Pow2(b % 64) > 0 && r == a / Pow2(b % 64)
    case SRA | SRAI => Pow2(b % 64) > 0 && Signed(r) == Signed(a) / Pow2(b % 64)
    case SLT | SLTI => r == if Signed(a) < Signed(b) then 1 else 0
    case SLTU | SLTIU => r == if a < b then 1 else 0
    case ADDW | ADDIW => RepresentsWord(r, a + b)
    case SUBW => RepresentsWord(r, a - b)
    case SLLW | SLLIW => RepresentsWord(r, a * Pow2(b % 32))
    case SRLW | SRLIW => Pow2(b % 32) > 0 && RepresentsWord(r, a % 0x1_0000_0000 / Pow2(b % 32))
    case SRAW | SRAIW =>
      Pow2(b % 32) > 0 && exists w: int ::
        -0x8000_0000 <= w < 0x8000_0000 && (a - w) % 0x1_0000_0000 == 0 && Signed(r) == w / Pow2(b % 32)
    case _ => true
  }

  lemma {:induction false} DoubleOps(op: Opcode, a: Word, b: Word)
    requires !op.ADDW? && !op.ADDIW? && !op.SUBW? && !op.SLLW? && !op.SLLIW? && !op.SRLW? && !op.SRLIW?
    requires !op.SRAW? && !op.SRAIW?
    ensures ResultMeans(op, a, b, BinaryResult(op, a, b))
  {
    hide Add, Sub, Bitwise, Shl, Shr, Sar, Represents, RepresentsWord, BitAt, Pow2, SExt32, Low32, Signed;
    SumRepresents(a, b);
    ShlMultiplies(a, b % 64);
    ShrDivides(a, b % 64);
    SarDivides(a, b % 64);
    forall i: nat | i < 64
      ensures BitAt(Bitwise(AndBits, a, b), i) == 1 <==> BitAt(a, i) == 1 && BitAt(b, i) == 1
      ensures BitAt(Bitwise(OrBits, a, b), i) == 1 <==> BitAt(a, i) == 1 || BitAt(b, i) == 1
      ensures BitAt(Bitwise(XorBits, a, b), i) == 1 <==> BitAt(a, i) != BitAt(b, i)
    {
      BitwiseBits(a, b, i);
    }
  }

  lemma {:induction false} LowSame(x: int, y: int)
    requires (x - y) % 0x1_0000_0000 == 0
    ensures Low32(x) == Low32(y)
  {
    QuotientIs(x, 0x1_0000_0000, (x - y) / 0x1_0000_0000 + y / 0x1_0000_0000, y % 0x1_0000_0000);
  }

  lemma {:induction false} Multiples(x: int, y: int)
    requires x % 0x1_0000_0000 == 0 && y % 0x1_0000_0000 == 0
    ensures (x + y) % 0x1_0000_0000 == 0 && (x - y) % 0x1_0000_0000 == 0
  {
    var k, j := x / 0x1_0000_0000, y / 0x1_0000_0000;
    QuotientIs(x + y, 0x1_0000_0000, k + j, 0);
    QuotientIs(x - y, 0x1_0000_0000, k - j, 0);
  }

  lemma {:induction false} LowSums(a: int, b: int)
    ensures Low32(Low32(a) + Low32(b)) == Low32(a + b) && Low32(Low32(a) - Low32(b)) == Low32(a - b)
  {
    hide Low32;
    Low32Part(a);
    Low32Part(b);
    Multiples(a - Low32(a), b - Low32(b));
    LowSame(a + b, Low32(a) + Low32(b));
    LowSame(a - b, Low32(a) - Low32(b));
  }

  lemma {:induction false} LowProduct(x: int, p: int, r: Word)
    requires Represents(r, Low32(x) * p)
    ensures RepresentsWord(SExt32(Low32(r)), x * p)
  {
    hide SExt32, Low32, RepresentsWord;
    WordExtends(r);
    Low32Part(x);
    Congruent(x, Low32(x), p, r, Signed(SExt32(Low32(r))));
  }

  lemma {:induction false} Congruent(x: int, y: int, p: int, r: Word, s: int)
    requires (x - y) % 0x1_0000_0000 == 0 && Represents(r, y * p)
    requires RepresentsWord(SExt32(Low32(r)), r) && s == Signed(SExt32(Low32(r)))
    ensures RepresentsWord(SExt32(Low32(r)), x * p)
  {
    hide SExt32, Low32, Signed;
    var k := (x - y) / 0x1_0000_0000;
    var j := (y * p - r) / TWO64;
    var i := (r - s) / 0x1_0000_0000;
    assert x == y + 0x1_0000_0000 * k;
    assert (y + 0x1_0000_0000 * k) * p == y * p + 0x1_0000_0000 * (k * p);
    assert x * p - s == 0x1_0000_0000 * (k * p + 0x1_0000_0000 * j + i);
    QuotientIs(x * p - s, 0x1_0000_0000, k * p + 0x1_0000_0000 * j + i, 0);
  }

  lemma {:induction false} Products(p: int, q: int)
    requires p >= 1
    ensures q >= 0 ==> p * q >= q
    ensures q < 0 ==> p * q <= -p && p * q + p - 1 <= q
  {
    assert q >= 0 ==> (p - 1) * q >= 0;
    assert q < 0 ==> (p - 1) * (-q - 1) >= 0;
    assert (p - 1) * (-q - 1) == q - p * q - p + 1;
  }

  lemma {:induction false} SmallShift(x: int, p: int)
    requires p >= 1
    ensures (x >= 0 ==> 0 <= x / p <= x) && (x < 0 ==> x <= x / p < 0)
  {
    var q, r := x / p, x % p;
    Divides(x, p);
    Products(p, q);
  }

  lemma {:induction false} Divides(x: int, p: int)
    requires p >= 1
    ensures x == p * (x / p) + x % p && 0 <= x % p < p
  {
  }

  lemma {:induction false} SignedFits(r: Word)
    requires -0x8000_0000 <= Signed(r) < 0x8000_0000
    ensures Signed(SExt32(Low32(r))) == Signed(r)
  {
  }

  lemma {:induction false} WordShifts(a: Word, n: nat)
    requires n < 32
    ensures RepresentsWord(SExt32(Low32(Shl(Low32(a), n))), a * Pow2(n))
    ensures Pow2(n) > 0 && RepresentsWord(SExt32(Low32(Shr(Low32(a), n))), Low32(a) / Pow2(n))
    ensures Signed(SExt32(Low32(Sar(SExt32(Low32(a)), n)))) == Signed32(Low32(a)) / Pow2(n)
  {
    hide SExt32, Low32, Shl, Shr, Sar, Represents, RepresentsWord, Pow2, Signed, Signed32;
    Low32Part(a);
    ShlMultiplies(Low32(a), n);
    LowProduct(a, Pow2(n), Shl(Low32(a), n));
    ShrDivides(Low32(a), n);
    WordExtends(Shr(Low32(a), n));
    SignExtends(Low32(a));
    SarDivides(SExt32(Low32(a)), n);
    SmallShift(Signed32(Low32(a)), Pow2(n));
    SignedFits(Sar(SExt32(Low32(a)), n));
  }

  lemma {:induction false} WordOps(op: Opcode, a: Word, b: Word)
    requires op.ADDW? || op.ADDIW? || op.SUBW? || op.SLLW? || op.SLLIW? || op.SRLW? || op.SRLIW? || op.SRAW?
      || op.SRAIW?
    ensures ResultMeans(op, a, b, BinaryResult(op, a, b))
  {
    hide Shl, Shr, Sar, Represents, RepresentsWord, Pow2, SExt32, Low32, Signed, Signed32, Add, Sub, Bitwise;
    LowSums(a, b);
    WordExtends(a + b);
    WordExtends(a - b);
    WordShifts(a, b % 32);
    LowIs(a);
    SignExtends(Low32(a));
    var w := Signed32(Low32(a));
    Low32Part(a);
    SameResidue(a, Low32(a), w);
  }

  lemma {:induction false} LowIs(a: int)
    ensures Low32(a) == a % 0x1_0000_0000
  {
  }

  /** Every register operation means what the manual says. */
  lemma {:induction false} ResultsMean(op: Opcode, a: Word, b: Word)
    ensures ResultMeans(op, a, b, BinaryResult(op, a, b))
  {
    hide ResultMeans, BinaryResult;
    if op.ADDW? || op.ADDIW? || op.SUBW? || op.SLLW? || op.SLLIW? || op.SRLW? || op.SRLIW? || op.SRAW? || op.SRAIW? {
      WordOps(op, a, b);
    } else {
      DoubleOps(op, a, b);
    }
  }

  // ---------- Loads and stores ----------

  /** The little-endian number in n bytes from an address. */
  function Number(m: Memory, a: Word, n: nat): nat
    requires n == 1 || n == 2 || n == 4 || n == 8
  {
    var low := ByteAt(m, a);
    if n == 1 then low
    else
      var half := low + 0x100 * ByteAt(m, Add(a, 1));
      if n == 2 then half
      else
        var word := half + 0x1_0000 * ByteAt(m, Add(a, 2)) + 0x100_0000 * ByteAt(m, Add(a, 3));
        if n == 4 then word
        else word + 0x1_0000_0000 * ByteAt(m, Add(a, 4)) + 0x100_0000_0000 * ByteAt(m, Add(a, 5))
             + 0x1_0000_0000_0000 * ByteAt(m, Add(a, 6)) + 0x100_0000_0000_0000 * ByteAt(m, Add(a, 7))
  }

  lemma {:induction false} TwoBytes(m: Memory, a: Word)
    ensures LoadBytes(m, a, 2) == Number(m, a, 2) && LoadBytes(m, a, 1) == ByteAt(m, a)
  {
    hide Add;
    assert LoadBytes(m, Add(a, 1), 0) == 0;
    assert LoadBytes(m, Add(a, 1), 1) == ByteAt(m, Add(a, 1)) + 256 * LoadBytes(m, Add(Add(a, 1), 1), 0);
  }

  lemma {:induction false} Regroup(p: nat, x: nat)
    ensures 256 * (p * x) == 256 * p * x
  {
  }

  lemma {:induction false} FirstByte(m: Memory, a: Word, k: nat)
    ensures k == 0 ==> LoadBytes(m, a, k) == 0 && Pow256(k) == 1 && At(a, k) == a
    ensures k > 0 ==>
      LoadBytes(m, a, k) == ByteAt(m, a) + 256 * LoadBytes(m, Add(a, 1), k - 1) && Pow256(k) == 256 * Pow256(k - 1)
  {
    hide Add;
  }

  lemma {:induction false} JoinLoads(m: Memory, a: Word, k: nat, n: nat)
    requires k <= 4
    ensures LoadBytes(m, a, k + n) == LoadBytes(m, a, k) + Pow256(k) * LoadBytes(m, At(a, k), n)
    decreases k
  {
    hide Add, LoadBytes, Pow256, ByteAt;
    FirstByte(m, a, k);
    if k > 0 {
      FirstByte(m, a, k + n);
      JoinLoads(m, Add(a, 1), k - 1, n);
      AtNext(a, k - 1);
      Regroup(Pow256(k - 1), LoadBytes(m, At(a, k), n));
    }
  }

  lemma {:induction false} FourBytes(m: Memory, a: Word)
    ensures LoadBytes(m, a, 4) == Number(m, a, 4)
  {
    hide Add;
    JoinLoads(m, a, 2, 2);
    TwoBytes(m, a);
    TwoBytes(m, At(a, 2));
    AtIsSum(a, 2);
    AddAssoc(a, 2, 1);
    assert Add(2, 1) == 3 by { SmallSum(2, 1); }
    assert Pow256(2) == 0x1_0000;
  }

  lemma {:induction false} SmallSum(i: Word, j: Word)
    requires i + j < 256
    ensures Add(i, j) == i + j
  {
  }

  lemma {:induction false} EightBytes(m: Memory, a: Word)
    ensures LoadBytes(m, a, 8) == Number(m, a, 8)
  {
    hide Add;
    JoinLoads(m, a, 4, 4);
    FourBytes(m, a);
    FourBytes(m, At(a, 4));
    AtIsSum(a, 4);
    AddAssoc(a, 4, 1);
    AddAssoc(a, 4, 2);
    AddAssoc(a, 4, 3);
    SmallSum(4, 1);
    SmallSum(4, 2);
    SmallSum(4, 3);
    assert Pow256(4) == 0x1_0000_0000;
  }

  /** r is what the load reads at an address. */
  predicate LoadMeans(op: Opcode, m: Memory, a: Word, r: Word) {
    match op
    case LB => -0x80 <= Signed(r) < 0x80 && (Number(m, a, 1) - Signed(r)) % 0x100 == 0
    case LBU => r == Number(m, a, 1)
    case LH => -0x8000 <= Signed(r) < 0x8000 && (Number(m, a, 2) - Signed(r)) % 0x1_0000 == 0
    case LHU => r == Number(m, a, 2)
    case LW => RepresentsWord(r, Number(m, a, 4))
    case LWU => r == Number(m, a, 4)
    case LD => r == Number(m, a, 8)
    case _ => true
  }

  lemma {:induction false} LoadsMean(op: Opcode, m: Memory, a: Word)
    ensures LoadMeans(op, m, a, LoadResult(op, m, a))
  {
    hide LoadBytes, Number, SExt32, SExt16, SExt8, Signed, RepresentsWord;
    TwoBytes(m, a);
    FourBytes(m, a);
    EightBytes(m, a);
    ByteExtends(ByteAt(m, a));
    HalfExtends(Load16(m, a));
    SignExtends(Load32(m, a));
    OneByte(m, a);
  }

  lemma {:induction false} OneByte(m: Memory, a: Word)
    ensures Number(m, a, 1) == ByteAt(m, a)
  {
  }

  function SizeOf(op: Opcode): (n: nat)
    ensures n <= 8
  {
    match op
    case SB => 1
    case SH => 2
    case SW => 4
    case _ => 8
  }

  /** m' holds the bytes of v, lowest first, from an address on, and is otherwise m. */
  ghost predicate StoreMeans(m: Memory, m': Memory, a: Word, v: Word, n: nat)
    requires n <= 8
  {
    && (forall i :: 0 <= i < n ==> ByteAt(m', Add(a, i)) == ByteOf(v, i))
    && (forall b: Word :: (forall i :: 0 <= i < n ==> b != Add(a, i)) ==> ByteAt(m', b) == ByteAt(m, b))
  }

  lemma {:induction false} StoresMean(m: Memory, a: Word, v: Word, n: nat)
    requires n <= 8
    ensures StoreMeans(m, StoreBytes(m, a, v, n), a, v, n)
  {
    hide StoreBytes, Add, ByteOf;
    forall i | 0 <= i < n ensures ByteAt(StoreBytes(m, a, v, n), Add(a, i)) == ByteOf(v, i) {
      StorePutsBytes(m, a, v, n, i);
    }
    forall b: Word | forall i :: 0 <= i < n ==> b != Add(a, i)
      ensures ByteAt(StoreBytes(m, a, v, n), b) == ByteAt(m, b)
    {
      forall i | 0 <= i < n ensures b != At(a, i) { AtIsSum(a, i); }
      StoreLeaves(m, a, v, n, b);
    }
  }

  // ---------- Instructions ----------

  /** The number of an immediate is the word with its bits. */
  lemma {:induction false} ImmediatesMean(v: Imm)
    ensures Bits(v) as bv64 == v
  {
  }

  /** s is a register or address plus a signed immediate, modulo 2^64. */
  predicate IsSum(s: Word, a: Word, imm: Imm) {
    Represents(s, a + Signed(Bits(imm)))
  }

  /** Only the destination changes, never x0, and it holds r. */
  ghost predicate OnlySets(g: Guest, g': Guest, rd: RegIndex, r: Word) {
    && g'.mem == g.mem
    && (forall q: RegIndex :: Slot(g'.x, q) == if q == rd && rd != 0 then r else Slot(g.x, q))
  }

  lemma {:induction false} SetsOnly(g: Guest, rd: RegIndex, r: Word)
    ensures OnlySets(g, SetReg(g, rd, r), rd, r)
  {
  }

  /** What one instruction does to the guest. */
  ghost predicate ExecMeans(inst: DecodedInst, g: Guest, g': Guest) {
    var op := inst.opcode;
    match inst.operands
    case NoOperands => g' == g
    case Branch(_, _, _) => g' == g
    case RegImm(rd, imm) =>
      (exists r: Word :: OnlySets(g, g', rd, r)
         && (if op.LUI? then IsSum(r, 0, imm) else if op.AUIPC? then IsSum(r, inst.pc, imm)
             else Represents(r, inst.pc + 4)))
    case RegMem(rd, base, off) =>
      (exists r: Word, a: Word :: OnlySets(g, g', rd, r) && IsSum(a, Reg(g.x, base), off)
         && (if op.JALR? then Represents(r, inst.pc + 4) else LoadMeans(op, g.mem, a, r)))
    case MemReg(base, off, rs) =>
      g'.x == g.x
      && (exists a: Word :: IsSum(a, Reg(g.x, base), off) && StoreMeans(g.mem, g'.mem, a, Reg(g.x, rs), SizeOf(op)))
    case RegRegImm(rd, rs1, imm) =>
      (exists r: Word :: OnlySets(g, g', rd, r) && ResultMeans(op, Reg(g.x, rs1), Bits(imm), r))
    case RegRegReg(rd, rs1, rs2) =>
      (exists r: Word :: OnlySets(g, g', rd, r) && ResultMeans(op, Reg(g.x, rs1), Reg(g.x, rs2), r))
  }

  lemma {:induction false} SumIs(a: Word, imm: Imm)
    ensures IsSum(Add(a, Bits(imm)), a, imm) && IsSum(Bits(imm), 0, imm)
  {
    hide Bits;
  }

  lemma {:induction false} UpperMeans(inst: DecodedInst, g: Guest)
    requires WellFormed(inst) && inst.operands.RegImm?
    ensures ExecMeans(inst, g, Exec(inst, g))
  {
    hide SetReg, OnlySets, Represents, Add, Bits, WellFormed, IsSum;
    var RegImm(rd, imm) := inst.operands;
    var r := if inst.opcode.LUI? then Bits(imm) else if inst.opcode.AUIPC? then Add(inst.pc, Bits(imm))
      else Add(inst.pc, 4);
    SetsOnly(g, rd, r);
    SumIs(inst.pc, imm);
    SumRepresents(inst.pc, 4);
  }

  lemma {:induction false} MemoryMeans(inst: DecodedInst, g: Guest)
    requires WellFormed(inst) && (inst.operands.RegMem? || inst.operands.MemReg?)
    ensures ExecMeans(inst, g, Exec(inst, g))
  {
    hide SetReg, OnlySets, LoadMeans, LoadResult, StoreMeans, StoreBytes, Represents, Add, Bits, Reg, WellFormed, IsSum;
    SumRepresents(inst.pc, 4);
    if inst.operands.RegMem? {
      var RegMem(rd, base, off) := inst.operands;
      var a := Add(Reg(g.x, base), Bits(off));
      SumIs(Reg(g.x, base), off);
      LoadsMean(inst.opcode, g.mem, a);
      SetsOnly(g, rd, if inst.opcode.JALR? then Add(inst.pc, 4) else LoadResult(inst.opcode, g.mem, a));
    } else {
      var MemReg(base, off, rs) := inst.operands;
      SumIs(Reg(g.x, base), off);
      StoresMean(g.mem, Add(Reg(g.x, base), Bits(off)), Reg(g.x, rs), SizeOf(inst.opcode));
      SizesAgree(inst.opcode);
    }
  }

  lemma {:induction false} SizesAgree(op: Opcode)
    ensures StoreSize(op) == SizeOf(op) <= 8
  {
  }

  lemma {:induction false} OperationMeans(inst: DecodedInst, g: Guest)
    requires inst.operands.RegRegImm? || inst.operands.RegRegReg?
    ensures ExecMeans(inst, g, Exec(inst, g))
  {
    hide SetReg, OnlySets, ResultMeans, BinaryResult, Bits, Reg;
    var a := Reg(g.x, inst.operands.rs1);
    var b := if inst.operands.RegRegImm? then Bits(inst.operands.imm) else Reg(g.x, inst.operands.rs2);
    ResultsMean(inst.opcode, a, b);
    SetsOnly(g, inst.operands.rd, BinaryResult(inst.opcode, a, b));
  }

  /** The reference semantics of every instruction means what the manual says. */
  lemma {:induction false} InstructionsMean(inst: DecodedInst, g: Guest)
    requires WellFormed(inst)
    ensures ExecMeans(inst, g, Exec(inst, g))
  {
    hide SetReg, OnlySets, ResultMeans, BinaryResult, LoadMeans, LoadResult, StoreMeans, StoreBytes, Represents,
         Add, Bits, Reg, WellFormed, IsSum;
    match inst.operands
    case RegImm(_, _) => UpperMeans(inst, g);
    case RegMem(_, _, _) => MemoryMeans(inst, g);
    case MemReg(_, _, _) => MemoryMeans(inst, g);
    case RegRegImm(_, _, _) => OperationMeans(inst, g);
    case RegRegReg(_, _, _) => OperationMeans(inst, g);
    case _ =>
  }

  lemma {:induction false} SetThenRead(g: Guest, rd: RegIndex, v: Word)
    ensures rd != 0 ==> Reg(SetReg(g, rd, v).x, rd) == v
  {
  }

  lemma {:induction false} WordSum(op: Opcode, a: Word, b: Word)
    requires op.ADDIW? || op.ADDW?
    ensures RepresentsWord(BinaryResult(op, a, b), a + b)
  {
    hide BinaryResult, RepresentsWord;
    ResultsMean(op, a, b);
  }

  /** ADDIW and ADDW leave the signed 32-bit sum in their register. */
  lemma {:induction false} SumsAreSigned(inst: DecodedInst, g: Guest)
    requires (inst.opcode.ADDIW? && inst.operands.RegRegImm?) || (inst.opcode.ADDW? && inst.operands.RegRegReg?)
    requires inst.operands.rd != 0
    ensures
      var b := if inst.operands.RegRegImm? then Bits(inst.operands.imm) else Reg(g.x, inst.operands.rs2);
      var s := Signed(Reg(Exec(inst, g).x, inst.operands.rd));
      -0x8000_0000 <= s < 0x8000_0000 && (Reg(g.x, inst.operands.rs1) + b - s) % 0x1_0000_0000 == 0
  {
    hide Bits, Signed, BinaryResult, Reg, SetReg;
    var a := Reg(g.x, inst.operands.rs1);
    var b := if inst.operands.RegRegImm? then Bits(inst.operands.imm) else Reg(g.x, inst.operands.rs2);
    WordSum(inst.opcode, a, b);
    SetThenRead(g, inst.operands.rd, BinaryResult(inst.opcode, a, b));
  }

  /** LW leaves the signed 32-bit word at its address there. */
  lemma {:induction false} WordsAreSigned(inst: DecodedInst, g: Guest)
    requires inst.opcode.LW? && inst.operands.RegMem? && inst.operands.rd != 0
    ensures
      var a := Add(Reg(g.x, inst.operands.base), Bits(inst.operands.offset));
      var s := Signed(Reg(Exec(inst, g).x, inst.operands.rd));
      && IsSum(a, Reg(g.x, inst.operands.base), inst.operands.offset)
      && -0x8000_0000 <= s < 0x8000_0000 && (Number(g.mem, a, 4) - s) % 0x1_0000_0000 == 0
  {
    hide Bits, Signed, LoadResult, Reg, SetReg, Add, IsSum, Number;
    var a := Add(Reg(g.x, inst.operands.base), Bits(inst.operands.offset));
    SumIs(Reg(g.x, inst.operands.base), inst.operands.offset);
    LoadsMean(inst.opcode, g.mem, a);
    SetThenRead(g, inst.operands.rd, LoadResult(inst.opcode, g.mem, a));
  }

  /** Whether a branch is taken. */
  lemma {:induction false} BranchesMean(op: Opcode, a: Word, b: Word)
    ensures op.BEQ? ==> (BranchTaken(op, a, b) <==> a == b)
    ensures op.BNE? ==> (BranchTaken(op, a, b) <==> a != b)
    ensures op.BLT? ==> (BranchTaken(op, a, b) <==> Signed(a) < Signed(b))
    ensures op.BGE? ==> (BranchTaken(op, a, b) <==> Signed(a) >= Signed(b))
    ensures op.BLTU? ==> (BranchTaken(op, a, b) <==> a < b)
    ensures op.BGEU? ==> (BranchTaken(op, a, b) <==> a >= b)
  {
    hide Signed;
  }

  /** A JALR clears bit 0 of the sum. */
  lemma {:induction false} JalrTargetMeans(a: Word, off: Imm)
    ensures
      var t := JalrTarget(a, off);
      t % 2 == 0 && (IsSum(t, a, off) || (t < 0xFFFF_FFFF_FFFF_FFFF && IsSum(t + 1, a, off)))
  {
    hide Bits, Add, IsSum;
    SumIs(a, off);
  }

  /** Where control goes. */
  lemma {:induction false} JumpsMean(inst: DecodedInst, g: Guest)
    requires WellFormed(inst)
    ensures inst.operands.Branch? ==>
      if BranchTaken(inst.opcode, Reg(g.x, inst.operands.rs1), Reg(g.x, inst.operands.rs2))
      then IsSum(NextPc(inst, g), inst.pc, inst.operands.imm) else Represents(NextPc(inst, g), inst.pc + 4)
    ensures inst.opcode.JAL? && inst.operands.RegImm? ==> IsSum(NextPc(inst, g), inst.pc, inst.operands.imm)
    ensures inst.opcode.JALR? && inst.operands.RegMem? ==>
      NextPc(inst, g) == JalrTarget(Reg(g.x, inst.operands.base), inst.operands.offset)
    ensures !inst.operands.Branch? && !inst.opcode.JAL? && !inst.opcode.JALR? ==>
      Represents(NextPc(inst, g), inst.pc + 4)
  {
    hide Represents, Add, Bits, Reg, WellFormed, IsSum, BranchTaken, JalrTarget;
    SumRepresents(inst.pc, 4);
    match inst.operands
    case Branch(_, _, imm) => SumIs(inst.pc, imm);
    case RegImm(_, imm) => SumIs(inst.pc, imm);
    case _ =>
  }

  /** x0 reads as zero and every other register as it was set. */
  lemma {:induction false} RegistersMean(g: Guest, r: RegIndex)
    ensures Reg(g.x, 0) == 0 && (r != 0 ==> Reg(g.x, r) == Slot(g.x, r))
  {
  }
}
