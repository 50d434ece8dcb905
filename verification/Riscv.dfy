/** Decoded RV64I instructions and the reference semantics of the RISC-V Instruction Set
    Manual, Volume I, sections 2.4 to 2.6 and 5.2 to 5.3. */
module Riscv {
  import opened Words

  datatype Opcode =
    | LUI | AUIPC | JAL | JALR
    | BEQ | BNE | BLT | BGE | BLTU | BGEU
    | LB | LH | LW | LD | LBU | LHU | LWU
    | SB | SH | SW | SD
    | ADDI | SLTI | SLTIU | XORI | ORI | ANDI | SLLI | SRLI | SRAI
    | ADD | SUB | SLL | SLT | SLTU | XOR | SRL | SRA | OR | AND
    | ADDIW | SLLIW | SRLIW | SRAIW
    | ADDW | SUBW | SLLW | SRLW | SRAW
    | FENCE | ECALL | EBREAK

  type RegIndex = r: int | 0 <= r < 32

  /** A signed 64-bit immediate, as its two's-complement bits. */
  type Imm = bv64

  /** The operand lists the decoder builds, one constructor per shape; destination first,
      except that a store names its memory operand first. */
  datatype Operands =
    | NoOperands
    | RegImm(rd: RegIndex, imm: Imm)
    | RegMem(rd: RegIndex, base: RegIndex, offset: Imm)
    | MemReg(base: RegIndex, offset: Imm, rs: RegIndex)
    | RegRegImm(rd: RegIndex, rs1: RegIndex, imm: Imm)
    | Branch(rs1: RegIndex, rs2: RegIndex, imm: Imm)
    | RegRegReg(rd: RegIndex, rs1: RegIndex, rs2: RegIndex)

  datatype DecodedInst = DecodedInst(pc: Word, opcode: Opcode, operands: Operands)

  predicate IsCondBranch(op: Opcode) {
    op.BEQ? || op.BNE? || op.BLT? || op.BGE? || op.BLTU? || op.BGEU?
  }

  predicate IsLoad(op: Opcode) {
    op.LB? || op.LH? || op.LW? || op.LD? || op.LBU? || op.LHU? || op.LWU?
  }

  predicate IsStore(op: Opcode) {
    op.SB? || op.SH? || op.SW? || op.SD?
  }

  predicate IsImmAlu(op: Opcode) {
    op.ADDI? || op.SLTI? || op.SLTIU? || op.XORI? || op.ORI? || op.ANDI? || op.SLLI?
    || op.SRLI? || op.SRAI? || op.ADDIW? || op.SLLIW? || op.SRLIW? || op.SRAIW?
  }

  predicate IsRegAlu(op: Opcode) {
    op.ADD? || op.SUB? || op.SLL? || op.SLT? || op.SLTU? || op.XOR? || op.SRL? || op.SRA? || op.OR?
    || op.AND? || op.ADDW? || op.SUBW? || op.SLLW? || op.SRLW? || op.SRAW?
  }

  predicate IsTrap(op: Opcode) {
    op == ECALL || op == EBREAK
  }

  /** The operand list has the shape the decoder gives the opcode. */
  predicate WellShaped(op: Opcode, o: Operands) {
    match o
    case NoOperands => op == FENCE || IsTrap(op)
    case RegImm(_, _) => op == LUI || op == AUIPC || op == JAL
    case RegMem(_, _, _) => op == JALR || IsLoad(op)
    case MemReg(_, _, _) => IsStore(op)
    case RegRegImm(_, _, _) => IsImmAlu(op)
    case Branch(_, _, _) => IsCondBranch(op)
    case RegRegReg(_, _, _) => IsRegAlu(op)
  }

  /** v is the sign extension of a value below the power of two `half`. */
  predicate SignedBelow(v: Imm, half: bv64) {
    v < half || v >= 0 - half
  }

  /** The immediates the decoder returns: those of the 32-bit encodings of sections 2.2 and 2.3,
      except that its funct7 tests stop SRLI and SRAI at 31. */
  predicate Encodable(op: Opcode, o: Operands) {
    && WellShaped(op, o)
    && match o
       case NoOperands => true
       case RegImm(_, imm) =>
         if op == JAL then SignedBelow(imm, 0x10_0000) && imm & 1 == 0
         else SignedBelow(imm, 0x8000_0000) && imm & 0xFFF == 0
       case RegMem(_, _, off) => SignedBelow(off, 0x800)
       case MemReg(_, off, _) => SignedBelow(off, 0x800)
       case RegRegImm(_, _, imm) =>
         if op == SLLI then imm < 64
         else if (op.SRLI? || op.SRAI? || op.SLLIW? || op.SRLIW? || op.SRAIW?) then imm < 32
         else SignedBelow(imm, 0x800)
       case Branch(_, _, imm) => SignedBelow(imm, 0x1000) && imm & 1 == 0
       case RegRegReg(_, _, _) => true
  }

  predicate WellFormed(inst: DecodedInst) {
    Encodable(inst.opcode, inst.operands)
  }

  /** JALR x0, 0(x1). */
  predicate IsReturn(inst: DecodedInst) {
    inst.opcode == JALR && inst.operands == RegMem(0, 1, 0)
  }

  predicate IsIndirect(inst: DecodedInst) {
    inst.opcode == JALR && !IsReturn(inst)
  }

  // ---------- Reference semantics ----------

  type Registers = map<RegIndex, Word>

  /** The integer registers and the memory of the guest. */
  datatype Guest = Guest(x: Registers, mem: Memory)

  /** The stored contents of a register slot; a slot never written holds zero. */
  function Slot(x: Registers, r: RegIndex): Word {
    if r in x then x[r] else 0
  }

  /** x0 is hardwired to zero. */
  function Reg(x: Registers, r: RegIndex): Word {
    if r == 0 then 0 else Slot(x, r)
  }

  function SetReg(g: Guest, r: RegIndex, v: Word): Guest {
    if r == 0 then g else g.(x := g.x[r := v])
  }

  predicate ZeroX0(g: Guest) {
    Slot(g.x, 0) == 0
  }

  /** The unsigned reading of an immediate. */
  function Bits(v: Imm): Word {
    v as int
  }

  function Flag(b: bool): Word {
    if b then 1 else 0
  }

  function BinaryResult(op: Opcode, a: Word, b: Word): Word {
    match op
    case ADD | ADDI => Add(a, b)
    case SUB => Sub(a, b)
    case AND | ANDI => Bitwise(AndBits, a, b)
    case OR | ORI => Bitwise(OrBits, a, b)
    case XOR | XORI => Bitwise(XorBits, a, b)
    case SLL | SLLI => Shl(a, b % 64)
    case SRL | SRLI => Shr(a, b % 64)
    case SRA | SRAI => Sar(a, b % 64)
    case SLT | SLTI => Flag(Signed(a) < Signed(b))
    case SLTU | SLTIU => Flag(a < b)
    case ADDW | ADDIW => SExt32(Low32(Low32(a) + Low32(b)))
    case SUBW => SExt32(Low32(Low32(a) - Low32(b)))
    case SLLW | SLLIW => SExt32(Low32(Shl(Low32(a), b % 32)))
    case SRLW | SRLIW => SExt32(Low32(Shr(Low32(a), b % 32)))
    case SRAW | SRAIW => SExt32(Low32(Sar(SExt32(Low32(a)), b % 32)))
    case _ => 0
  }

  function LoadResult(op: Opcode, m: Memory, a: Word): Word {
    match op
    case LB => SExt8(ByteAt(m, a))
    case LBU => ByteAt(m, a)
    case LH => SExt16(Load16(m, a))
    case LHU => Load16(m, a)
    case LW => SExt32(Load32(m, a))
    case LWU => Load32(m, a)
    case _ => Load64(m, a)
  }

  function StoreSize(op: Opcode): nat {
    match op
    case SB => 1
    case SH => 2
    case SW => 4
    case _ => 8
  }

  function BranchTaken(op: Opcode, a: Word, b: Word): bool {
    match op
    case BEQ => a == b
    case BNE => a != b
    case BLT => Signed(a) < Signed(b)
    case BGE => Signed(a) >= Signed(b)
    case BLTU => a < b
    case _ => a >= b
  }

  /** The effect of one instruction on registers and memory. */
  function Exec(inst: DecodedInst, g: Guest): Guest {
    match inst.operands
    case NoOperands => g
    case RegImm(rd, imm) =>
      SetReg(g, rd,
             if inst.opcode == LUI then Bits(imm)
             else if inst.opcode == AUIPC then Add(inst.pc, Bits(imm))
             else Add(inst.pc, 4))
    case RegMem(rd, base, off) =>
      SetReg(g, rd,
             if inst.opcode == JALR then Add(inst.pc, 4)
             else LoadResult(inst.opcode, g.mem, Add(Reg(g.x, base), Bits(off))))
    case MemReg(base, off, rs) =>
      g.(mem := StoreBytes(g.mem, Add(Reg(g.x, base), Bits(off)), Reg(g.x, rs), StoreSize(inst.opcode)))
    case RegRegImm(rd, rs1, imm) =>
      SetReg(g, rd, BinaryResult(inst.opcode, Reg(g.x, rs1), Bits(imm)))
    case Branch(_, _, _) => g
    case RegRegReg(rd, rs1, rs2) =>
      SetReg(g, rd, BinaryResult(inst.opcode, Reg(g.x, rs1), Reg(g.x, rs2)))
  }

  /** JALR adds its offset and clears the least-significant bit of the sum. */
  function JalrTarget(base: Word, offset: Imm): Word {
    var sum := Add(base, Bits(offset));
    sum - sum % 2
  }

  function NextPc(inst: DecodedInst, g: Guest): Word {
    match inst.operands
    case Branch(rs1, rs2, imm) =>
      if BranchTaken(inst.opcode, Reg(g.x, rs1), Reg(g.x, rs2)) then Add(inst.pc, Bits(imm))
      else Add(inst.pc, 4)
    case RegImm(_, imm) => if inst.opcode == JAL then Add(inst.pc, Bits(imm)) else Add(inst.pc, 4)
    case RegMem(_, base, off) =>
      if inst.opcode == JALR then JalrTarget(Reg(g.x, base), off) else Add(inst.pc, 4)
    case _ => Add(inst.pc, 4)
  }

  lemma SetRegKeepsZero(g: Guest, r: RegIndex, v: Word)
    requires ZeroX0(g)
    ensures ZeroX0(SetReg(g, r, v))
  {
    if r != 0 {
      assert Slot(g.x[r := v], 0) == Slot(g.x, 0);
    }
  }

  /** No instruction writes x0. */
  lemma ExecKeepsZero(inst: DecodedInst, g: Guest)
    requires ZeroX0(g)
    ensures ZeroX0(Exec(inst, g))
  {
    hide BinaryResult, LoadResult, StoreBytes, SetReg, Bits;
    forall r, v ensures ZeroX0(SetReg(g, r, v)) {
      SetRegKeepsZero(g, r, v);
    }
  }

  /** All registers hold zero except r. */
  function OneReg(r: RegIndex, v: Word): Guest {
    Guest(map[r := v], map[])
  }

  lemma {:induction false} OneRegReads(r: RegIndex, v: Word)
    requires r != 0
    ensures ZeroX0(OneReg(r, v)) && Reg(OneReg(r, v).x, r) == v
    ensures forall q: RegIndex :: q != r ==> Reg(OneReg(r, v).x, q) == 0
  {
  }

  lemma {:induction false} NoRegReads()
    ensures ZeroX0(Guest(map[], map[])) && forall q: RegIndex :: Reg(map[], q) == 0
  {
  }
}
