/** RV64I instruction words: the field extraction and immediate reassembly of the decoder,
    and the encoder of sections 2.2 and 2.3 of the RISC-V manual it is compared with. */
module Decoder {
  import opened Words
  import opened Riscv

  datatype DecodeError = MisalignedPC | OOBRead | InvalidOpcode

  datatype Decoded = Ok(opcode: Opcode, operands: Operands) | Invalid

  datatype Result = Success(inst: DecodedInst) | Failure(error: DecodeError)

  /** Code memory: the aligned words that can be read. */
  type Code = map<Word, bv32>

  // ---------- Field extraction ----------

  function GetBits(x: bv32, hi: bv32, lo: bv32): bv32
    requires lo <= hi <= 31
  {
    var mask: bv32 := if hi == 31 && lo == 0 then 0xFFFF_FFFF else ((1 << (hi - lo + 1)) - 1) << lo;
    (x & mask) >> lo
  }

  function Sext(x: bv64, bits: bv64): Imm
    requires 1 <= bits <= 64
  {
    var m: bv64 := 1 << (bits - 1);
    (x ^ m) - m
  }

  // Small fields are read as numbers.

  function OpcBits(x: bv32): bv7 { (x & 0x7F) as bv7 }

  function RdBits(x: bv32): bv5 { ((x >> 7) & 0x1F) as bv5 }

  function F3Bits(x: bv32): bv3 { ((x >> 12) & 0x7) as bv3 }

  function Rs1Bits(x: bv32): bv5 { ((x >> 15) & 0x1F) as bv5 }

  function Rs2Bits(x: bv32): bv5 { ((x >> 20) & 0x1F) as bv5 }

  function F7Bits(x: bv32): bv7 { ((x >> 25) & 0x7F) as bv7 }

  function Opc(x: bv32): int { OpcBits(x) as int }

  function Rd(x: bv32): RegIndex { RdBits(x) as int }

  function Funct3(x: bv32): int { F3Bits(x) as int }

  function Rs1(x: bv32): RegIndex { Rs1Bits(x) as int }

  function Rs2(x: bv32): RegIndex { Rs2Bits(x) as int }

  function Funct7(x: bv32): int { F7Bits(x) as int }

  function ImmI(w: bv32): Imm {
    Sext(((w >> 20) & 0xFFF) as bv64, 12)
  }

  function ImmU(w: bv32): Imm {
    Sext((w & 0xFFFF_F000) as bv64, 32)
  }

  function ImmS(w: bv32): Imm {
    Sext(((GetBits(w, 31, 25) << 5) | GetBits(w, 11, 7)) as bv64, 12)
  }

  function ImmB(w: bv32): Imm {
    Sext(((GetBits(w, 31, 31) << 12) | (GetBits(w, 7, 7) << 11)
          | (GetBits(w, 30, 25) << 5) | (GetBits(w, 11, 8) << 1)) as bv64, 13)
  }

  function ImmJ(w: bv32): Imm {
    Sext(((GetBits(w, 31, 31) << 20) | (GetBits(w, 19, 12) << 12)
          | (GetBits(w, 20, 20) << 11) | (GetBits(w, 30, 21) << 1)) as bv64, 21)
  }

  // ---------- The decoder ----------

  function DecodeBranch(w: bv32): Decoded {
    var operands := Branch(Rs1(w), Rs2(w), ImmB(w));
    match Funct3(w)
    case 0 => Ok(BEQ, operands)
    case 1 => Ok(BNE, operands)
    case 4 => Ok(BLT, operands)
    case 5 => Ok(BGE, operands)
    case 6 => Ok(BLTU, operands)
    case 7 => Ok(BGEU, operands)
    case _ => Invalid
  }

  function DecodeLoad(w: bv32): Decoded {
    var operands := RegMem(Rd(w), Rs1(w), ImmI(w));
    match Funct3(w)
    case 0 => Ok(LB, operands)
    case 1 => Ok(LH, operands)
    case 2 => Ok(LW, operands)
    case 3 => Ok(LD, operands)
    case 4 => Ok(LBU, operands)
    case 5 => Ok(LHU, operands)
    case 6 => Ok(LWU, operands)
    case _ => Invalid
  }

  function DecodeStore(w: bv32): Decoded {
    var operands := MemReg(Rs1(w), ImmS(w), Rs2(w));
    match Funct3(w)
    case 0 => Ok(SB, operands)
    case 1 => Ok(SH, operands)
    case 2 => Ok(SW, operands)
    case 3 => Ok(SD, operands)
    case _ => Invalid
  }

  function DecodeOpImm(w: bv32): Decoded {
    var operands := RegRegImm(Rd(w), Rs1(w), ImmI(w));
    var shift := RegRegImm(Rd(w), Rs1(w), GetBits(w, 25, 20) as bv64);
    match Funct3(w)
    case 0 => Ok(ADDI, operands)
    case 1 => Ok(SLLI, shift)
    case 2 => Ok(SLTI, operands)
    case 3 => Ok(SLTIU, operands)
    case 4 => Ok(XORI, operands)
    case 5 =>
      if Funct7(w) == 0 then Ok(SRLI, shift)
      else if Funct7(w) == 0x20 then Ok(SRAI, shift)
      else Invalid
    case 6 => Ok(ORI, operands)
    case _ => Ok(ANDI, operands)
  }

  function DecodeOpImm32(w: bv32): Decoded {
    var shift := RegRegImm(Rd(w), Rs1(w), GetBits(w, 24, 20) as bv64);
    match Funct3(w)
    case 0 => Ok(ADDIW, RegRegImm(Rd(w), Rs1(w), ImmI(w)))
    case 1 => if Funct7(w) == 0 then Ok(SLLIW, shift) else Invalid
    case 5 =>
      if Funct7(w) == 0 then Ok(SRLIW, shift)
      else if Funct7(w) == 0x20 then Ok(SRAIW, shift)
      else Invalid
    case _ => Invalid
  }

  function DecodeOp(w: bv32): Decoded {
    var operands := RegRegReg(Rd(w), Rs1(w), Rs2(w));
    match Funct3(w)
    case 0 => Ok(if Funct7(w) == 0x20 then SUB else ADD, operands)
    case 1 => Ok(SLL, operands)
    case 2 => Ok(SLT, operands)
    case 3 => Ok(SLTU, operands)
    case 4 => Ok(XOR, operands)
    case 5 => Ok(if Funct7(w) == 0x20 then SRA else SRL, operands)
    case 6 => Ok(OR, operands)
    case _ => Ok(AND, operands)
  }

  function DecodeOp32(w: bv32): Decoded {
    var operands := RegRegReg(Rd(w), Rs1(w), Rs2(w));
    match Funct3(w)
    case 0 => Ok(if Funct7(w) == 0x20 then SUBW else ADDW, operands)
    case 1 => Ok(SLLW, operands)
    case 5 => Ok(if Funct7(w) == 0x20 then SRAW else SRLW, operands)
    case _ => Invalid
  }

  function DecodeSystem(w: bv32): Decoded {
    if Funct3(w) != 0 then Invalid
    else if GetBits(w, 31, 20) == 0 then Ok(ECALL, NoOperands)
    else if GetBits(w, 31, 20) == 1 then Ok(EBREAK, NoOperands)
    else Invalid
  }

  function DecodeWord(w: bv32): Decoded {
    match Opc(w)
    case 0x37 => Ok(LUI, RegImm(Rd(w), ImmU(w)))
    case 0x17 => Ok(AUIPC, RegImm(Rd(w), ImmU(w)))
    case 0x6F => Ok(JAL, RegImm(Rd(w), ImmJ(w)))
    case 0x67 => Ok(JALR, RegMem(Rd(w), Rs1(w), ImmI(w)))
    case 0x63 => DecodeBranch(w)
    case 0x03 => DecodeLoad(w)
    case 0x23 => DecodeStore(w)
    case 0x13 => DecodeOpImm(w)
    case 0x1B => DecodeOpImm32(w)
    case 0x33 => DecodeOp(w)
    case 0x3B => DecodeOp32(w)
    case 0x0F => Ok(FENCE, NoOperands)
    case 0x73 => DecodeSystem(w)
    case _ => Invalid
  }

  function Decode(code: Code, pc: Word): Result {
    if pc % 4 != 0 then Failure(MisalignedPC)
    else if pc !in code then Failure(OOBRead)
    else
      match DecodeWord(code[pc])
      case Invalid => Failure(InvalidOpcode)
      case Ok(opcode, operands) => Success(DecodedInst(pc, opcode, operands))
  }

  // ---------- The encoder of the manual ----------

  function Low(imm: Imm): bv32 { (imm & 0xFFFF_FFFF) as bv32 }

  function Bits3(n: int): bv3
    requires 0 <= n < 8
  { n as bv3 }

  function Bits5(r: RegIndex): bv5 { r as bv5 }

  function Bits7(n: int): bv7
    requires 0 <= n < 128
  { n as bv7 }

  function EncodeR(f7: bv7, rs2: bv5, rs1: bv5, f3: bv3, rd: bv5, opc: bv7): bv32 {
    ((f7 as bv32) << 25) | ((rs2 as bv32) << 20) | ((rs1 as bv32) << 15) | ((f3 as bv32) << 12)
    | ((rd as bv32) << 7) | (opc as bv32)
  }

  function EncodeI(imm: Imm, rs1: bv5, f3: bv3, rd: bv5, opc: bv7): bv32 {
    ((Low(imm) & 0xFFF) << 20) | ((rs1 as bv32) << 15) | ((f3 as bv32) << 12) | ((rd as bv32) << 7) | (opc as bv32)
  }

  function EncodeShift(f7: bv7, imm: Imm, rs1: bv5, f3: bv3, rd: bv5, opc: bv7): bv32 {
    ((f7 as bv32) << 25) | ((Low(imm) & 0x3F) << 20) | ((rs1 as bv32) << 15) | ((f3 as bv32) << 12)
    | ((rd as bv32) << 7) | (opc as bv32)
  }

  function EncodeS(imm: Imm, rs2: bv5, rs1: bv5, f3: bv3): bv32 {
    (((Low(imm) >> 5) & 0x7F) << 25) | ((rs2 as bv32) << 20) | ((rs1 as bv32) << 15) | ((f3 as bv32) << 12)
    | ((Low(imm) & 0x1F) << 7) | 0x23
  }

  function EncodeB(imm: Imm, rs2: bv5, rs1: bv5, f3: bv3): bv32 {
    (((Low(imm) >> 12) & 1) << 31) | (((Low(imm) >> 5) & 0x3F) << 25) | ((rs2 as bv32) << 20)
    | ((rs1 as bv32) << 15) | ((f3 as bv32) << 12) | (((Low(imm) >> 1) & 0xF) << 8)
    | (((Low(imm) >> 11) & 1) << 7) | 0x63
  }

  function EncodeU(imm: Imm, rd: bv5, opc: bv7): bv32 {
    (Low(imm) & 0xFFFF_F000) | ((rd as bv32) << 7) | (opc as bv32)
  }

  function EncodeJ(imm: Imm, rd: bv5): bv32 {
    (((Low(imm) >> 20) & 1) << 31) | (((Low(imm) >> 1) & 0x3FF) << 21) | (((Low(imm) >> 11) & 1) << 20)
    | (((Low(imm) >> 12) & 0xFF) << 12) | ((rd as bv32) << 7) | 0x6F
  }

  // The funct3 field, format by format, and the funct7 field.

  function BranchF3(op: Opcode): (f: int)
    ensures 0 <= f < 8
  {
    if op.BEQ? then 0 else if op.BNE? then 1 else if op.BLT? then 4
    else if op.BGE? then 5 else if op.BLTU? then 6 else 7
  }

  function LoadF3(op: Opcode): (f: int)
    ensures 0 <= f < 8
  {
    if op.LB? || op.JALR? then 0 else if op.LH? then 1 else if op.LW? then 2 else if op.LD? then 3
    else if op.LBU? then 4 else if op.LHU? then 5 else 6
  }

  function StoreF3(op: Opcode): (f: int)
    ensures 0 <= f < 8
  {
    if op.SB? then 0 else if op.SH? then 1 else if op.SW? then 2 else 3
  }

  function ImmF3(op: Opcode): (f: int)
    ensures 0 <= f < 8
  {
    if op.ADDI? || op.ADDIW? then 0 else if op.SLTI? then 2 else if op.SLTIU? then 3
    else if op.XORI? then 4 else if op.ORI? then 6 else 7
  }

  function ShiftF3(op: Opcode): (f: int)
    ensures 0 <= f < 8
  {
    if op.SLLI? || op.SLLIW? then 1 else 5
  }

  function RegF3(op: Opcode): (f: int)
    ensures 0 <= f < 8
  {
    if op.ADD? || op.SUB? || op.ADDW? || op.SUBW? then 0
    else if op.SLL? || op.SLLW? then 1 else if op.SLT? then 2 else if op.SLTU? then 3
    else if op.XOR? then 4 else if op.OR? then 6 else if op.AND? then 7 else 5
  }

  function F7(op: Opcode): (f: int)
    ensures 0 <= f < 128
  {
    if op.SUB? || op.SRA? || op.SRAI? || op.SUBW? || op.SRAW? || op.SRAIW? then 0x20 else 0
  }

  predicate IsShiftImm(op: Opcode) {
    op.SLLI? || op.SRLI? || op.SRAI? || op.SLLIW? || op.SRLIW? || op.SRAIW?
  }

  predicate IsWordOp(op: Opcode) {
    op.ADDIW? || op.SLLIW? || op.SRLIW? || op.SRAIW? || op.ADDW? || op.SUBW? || op.SLLW? || op.SRLW? || op.SRAW?
  }

  function Encode(op: Opcode, o: Operands): bv32 {
    match o
    case NoOperands => if op == FENCE then 0x0F else if op == ECALL then 0x73 else 0x10_0073
    case RegImm(rd, imm) =>
      if op == JAL then EncodeJ(imm, Bits5(rd)) else EncodeU(imm, Bits5(rd), if op == LUI then 0x37 else 0x17)
    case RegMem(rd, base, off) =>
      EncodeI(off, Bits5(base), Bits3(LoadF3(op)), Bits5(rd), if op == JALR then 0x67 else 0x03)
    case MemReg(base, off, rs) => EncodeS(off, Bits5(rs), Bits5(base), Bits3(StoreF3(op)))
    case RegRegImm(rd, rs1, imm) =>
      var opc: bv7 := if IsWordOp(op) then 0x1B else 0x13;
      if IsShiftImm(op) then EncodeShift(Bits7(F7(op)), imm, Bits5(rs1), Bits3(ShiftF3(op)), Bits5(rd), opc)
      else EncodeI(imm, Bits5(rs1), Bits3(ImmF3(op)), Bits5(rd), opc)
    case Branch(rs1, rs2, imm) => EncodeB(imm, Bits5(rs2), Bits5(rs1), Bits3(BranchF3(op)))
    case RegRegReg(rd, rs1, rs2) =>
      EncodeR(Bits7(F7(op)), Bits5(rs2), Bits5(rs1), Bits3(RegF3(op)), Bits5(rd), if IsWordOp(op) then 0x3B else 0x33)
  }

  // ---------- What the decoder does with given fields ----------

  lemma DecodeImm(w: bv32, op: Opcode)
    requires IsImmAlu(op) && !IsShiftImm(op)
    requires Opc(w) == (if IsWordOp(op) then 0x1B else 0x13) && Funct3(w) == ImmF3(op)
    ensures DecodeWord(w) == Ok(op, RegRegImm(Rd(w), Rs1(w), ImmI(w)))
  {
    hide GetBits, ImmI, ImmS, ImmB, ImmJ, ImmU, Opc, Rd, Rs1, Rs2, Funct3, Funct7;
  }

  lemma DecodeShift(w: bv32, op: Opcode)
    requires IsShiftImm(op)
    requires Opc(w) == (if IsWordOp(op) then 0x1B else 0x13) && Funct3(w) == ShiftF3(op)
    requires op != SLLI ==> Funct7(w) == F7(op)
    ensures DecodeWord(w) == Ok(op, RegRegImm(Rd(w), Rs1(w),
      if IsWordOp(op) then GetBits(w, 24, 20) as bv64 else GetBits(w, 25, 20) as bv64))
  {
    hide GetBits, ImmI, ImmS, ImmB, ImmJ, ImmU, Opc, Rd, Rs1, Rs2, Funct3, Funct7;
  }

  lemma DecodeReg(w: bv32, op: Opcode)
    requires IsRegAlu(op)
    requires Opc(w) == (if IsWordOp(op) then 0x3B else 0x33) && Funct3(w) == RegF3(op) && Funct7(w) == F7(op)
    ensures DecodeWord(w) == Ok(op, RegRegReg(Rd(w), Rs1(w), Rs2(w)))
  {
    hide GetBits, ImmI, ImmS, ImmB, ImmJ, ImmU, Opc, Rd, Rs1, Rs2, Funct3, Funct7;
  }

  lemma DecodeMemory(w: bv32, op: Opcode)
    ensures IsLoad(op) && Opc(w) == 0x03 && Funct3(w) == LoadF3(op) ==>
      DecodeWord(w) == Ok(op, RegMem(Rd(w), Rs1(w), ImmI(w)))
    ensures IsStore(op) && Opc(w) == 0x23 && Funct3(w) == StoreF3(op) ==>
      DecodeWord(w) == Ok(op, MemReg(Rs1(w), ImmS(w), Rs2(w)))
  {
    hide GetBits, ImmI, ImmS, ImmB, ImmJ, ImmU, Opc, Rd, Rs1, Rs2, Funct3, Funct7;
  }

  lemma DecodeControl(w: bv32, op: Opcode)
    ensures IsCondBranch(op) && Opc(w) == 0x63 && Funct3(w) == BranchF3(op) ==>
      DecodeWord(w) == Ok(op, Branch(Rs1(w), Rs2(w), ImmB(w)))
    ensures Opc(w) == 0x67 ==> DecodeWord(w) == Ok(JALR, RegMem(Rd(w), Rs1(w), ImmI(w)))
    ensures Opc(w) == 0x6F ==> DecodeWord(w) == Ok(JAL, RegImm(Rd(w), ImmJ(w)))
    ensures Opc(w) == 0x37 ==> DecodeWord(w) == Ok(LUI, RegImm(Rd(w), ImmU(w)))
    ensures Opc(w) == 0x17 ==> DecodeWord(w) == Ok(AUIPC, RegImm(Rd(w), ImmU(w)))
  {
    hide GetBits, ImmI, ImmS, ImmB, ImmJ, ImmU, Opc, Rd, Rs1, Rs2, Funct3, Funct7;
  }

  lemma DecodeSystemWords()
    ensures DecodeWord(0x0F) == Ok(FENCE, NoOperands)
    ensures DecodeWord(0x73) == Ok(ECALL, NoOperands)
    ensures DecodeWord(0x10_0073) == Ok(EBREAK, NoOperands)
  {
    hide ImmI, ImmS, ImmB, ImmJ, ImmU, Rd, Rs1, Rs2;
    assert Opc(0x0F) == 0x0F && Opc(0x73) == 0x73 && Opc(0x10_0073) == 0x73;
    assert Funct3(0x73) == 0 && Funct3(0x10_0073) == 0;
    assert GetBits(0x73, 31, 20) == 0 && GetBits(0x10_0073, 31, 20) == 1;
  }

  // ---------- Decoding inverts encoding ----------

  lemma BitsOf3(n: int)
    requires 0 <= n < 8
    ensures Bits3(n) as int == n
  {
  }

  lemma BitsOf5(r: RegIndex)
    ensures Bits5(r) as int == r
  {
  }

  lemma BitsOf7(n: int)
    requires n == 0 || n == 0x20
    ensures Bits7(n) as int == n
  {
  }

  lemma FieldsOfI(imm: Imm, rs1: bv5, f3: bv3, rd: bv5, opc: bv7)
    requires SignedBelow(imm, 0x800)
    ensures var w := EncodeI(imm, rs1, f3, rd, opc);
            OpcBits(w) == opc && RdBits(w) == rd && F3Bits(w) == f3 && Rs1Bits(w) == rs1 && ImmI(w) == imm
  {
  }

  lemma FieldsOfR(f7: bv7, rs2: bv5, rs1: bv5, f3: bv3, rd: bv5, opc: bv7)
    ensures var w := EncodeR(f7, rs2, rs1, f3, rd, opc);
            && OpcBits(w) == opc && RdBits(w) == rd && F3Bits(w) == f3
            && Rs1Bits(w) == rs1 && Rs2Bits(w) == rs2 && F7Bits(w) == f7
  {
  }

  lemma FieldsOfShift(f7: bv7, imm: Imm, rs1: bv5, f3: bv3, rd: bv5, opc: bv7)
    requires imm < 64 && (f7 == 0 || f7 == 0x20)
    ensures var w := EncodeShift(f7, imm, rs1, f3, rd, opc);
            && OpcBits(w) == opc && RdBits(w) == rd && F3Bits(w) == f3 && Rs1Bits(w) == rs1
            && GetBits(w, 25, 20) as bv64 == imm
            && (imm < 32 ==> GetBits(w, 24, 20) as bv64 == imm && F7Bits(w) == f7)
  {
  }

  lemma FieldsOfS(imm: Imm, rs2: bv5, rs1: bv5, f3: bv3)
    requires SignedBelow(imm, 0x800)
    ensures var w := EncodeS(imm, rs2, rs1, f3);
            OpcBits(w) == 0x23 && F3Bits(w) == f3 && Rs1Bits(w) == rs1 && Rs2Bits(w) == rs2 && ImmS(w) == imm
  {
  }

  lemma FieldsOfB(imm: Imm, rs2: bv5, rs1: bv5, f3: bv3)
    requires SignedBelow(imm, 0x1000) && imm & 1 == 0
    ensures var w := EncodeB(imm, rs2, rs1, f3);
            OpcBits(w) == 0x63 && F3Bits(w) == f3 && Rs1Bits(w) == rs1 && Rs2Bits(w) == rs2 && ImmB(w) == imm
  {
  }

  lemma SextPositive(imm: Imm)
    requires imm >> 31 == 0 && imm & 0xFFF == 0
    ensures ((imm & 0xFFFF_F000) ^ 0x8000_0000) - 0x8000_0000 == imm
  {
    assert (imm & 0xFFFF_F000) ^ 0x8000_0000 == imm | 0x8000_0000;
  }

  lemma SextNegative(imm: Imm)
    requires imm >> 31 == 0x1_FFFF_FFFF && imm & 0xFFF == 0
    ensures ((imm & 0xFFFF_F000) ^ 0x8000_0000) - 0x8000_0000 == imm
  {
    assert (imm & 0xFFFF_F000) ^ 0x8000_0000 == imm & 0x7FFF_FFFF;
  }

  lemma SextUpper(imm: Imm)
    requires SignedBelow(imm, 0x8000_0000) && imm & 0xFFF == 0
    ensures Sext(imm & 0xFFFF_F000, 32) == imm
  {
    if imm < 0x8000_0000 { SextPositive(imm); } else { SextNegative(imm); }
  }

  lemma FieldsOfU(imm: Imm, rd: bv5, opc: bv7)
    requires SignedBelow(imm, 0x8000_0000) && imm & 0xFFF == 0
    ensures var w := EncodeU(imm, rd, opc);
            OpcBits(w) == opc && RdBits(w) == rd && ImmU(w) == imm
  {
    var w := EncodeU(imm, rd, opc);
    assert (w & 0xFFFF_F000) as bv64 == imm & 0xFFFF_F000;
    SextUpper(imm);
  }

  lemma FieldsOfJ(imm: Imm, rd: bv5)
    requires SignedBelow(imm, 0x10_0000) && imm & 1 == 0
    ensures var w := EncodeJ(imm, rd);
            OpcBits(w) == 0x6F && RdBits(w) == rd && ImmJ(w) == imm
  {
  }

  lemma UpperRoundTrip(op: Opcode, o: Operands)
    requires Encodable(op, o) && o.RegImm?
    ensures DecodeWord(Encode(op, o)) == Ok(op, o)
  {
    hide DecodeWord, GetBits, ImmI, ImmS, ImmB, ImmJ, ImmU;
    hide EncodeI, EncodeR, EncodeS, EncodeB, EncodeU, EncodeJ, EncodeShift, Bits3, Bits5, Bits7;
    hide OpcBits, RdBits, F3Bits, Rs1Bits, Rs2Bits, F7Bits;
    BitsOf5(o.rd);
    DecodeControl(Encode(op, o), op);
    if op == JAL { FieldsOfJ(o.imm, Bits5(o.rd)); }
    else { FieldsOfU(o.imm, Bits5(o.rd), if op == LUI then 0x37 else 0x17); }
  }

  lemma LoadRoundTrip(op: Opcode, o: Operands)
    requires Encodable(op, o) && o.RegMem?
    ensures DecodeWord(Encode(op, o)) == Ok(op, o)
  {
    hide DecodeWord, GetBits, ImmI, ImmS, ImmB, ImmJ, ImmU;
    hide EncodeI, EncodeR, EncodeS, EncodeB, EncodeU, EncodeJ, EncodeShift, Bits3, Bits5, Bits7;
    hide OpcBits, RdBits, F3Bits, Rs1Bits, Rs2Bits, F7Bits;
    BitsOf5(o.rd);
    BitsOf5(o.base);
    BitsOf3(LoadF3(op));
    DecodeControl(Encode(op, o), op);
    DecodeMemory(Encode(op, o), op);
    FieldsOfI(o.offset, Bits5(o.base), Bits3(LoadF3(op)), Bits5(o.rd), if op == JALR then 0x67 else 0x03);
  }

  lemma StoreRoundTrip(op: Opcode, o: Operands)
    requires Encodable(op, o) && o.MemReg?
    ensures DecodeWord(Encode(op, o)) == Ok(op, o)
  {
    hide DecodeWord, GetBits, ImmI, ImmS, ImmB, ImmJ, ImmU;
    hide EncodeI, EncodeR, EncodeS, EncodeB, EncodeU, EncodeJ, EncodeShift, Bits3, Bits5, Bits7;
    hide OpcBits, RdBits, F3Bits, Rs1Bits, Rs2Bits, F7Bits;
    BitsOf5(o.rs);
    BitsOf5(o.base);
    BitsOf3(StoreF3(op));
    DecodeMemory(Encode(op, o), op);
    FieldsOfS(o.offset, Bits5(o.rs), Bits5(o.base), Bits3(StoreF3(op)));
  }

  lemma ShiftRoundTrip(op: Opcode, o: Operands)
    requires Encodable(op, o) && o.RegRegImm? && IsShiftImm(op)
    ensures DecodeWord(Encode(op, o)) == Ok(op, o)
  {
    hide DecodeWord, GetBits, ImmI, ImmS, ImmB, ImmJ, ImmU;
    hide EncodeI, EncodeR, EncodeS, EncodeB, EncodeU, EncodeJ, EncodeShift, Bits3, Bits5, Bits7;
    hide OpcBits, RdBits, F3Bits, Rs1Bits, Rs2Bits, F7Bits;
    BitsOf5(o.rd);
    BitsOf5(o.rs1);
    BitsOf3(ShiftF3(op));
    BitsOf7(F7(op));
    FieldsOfShift(Bits7(F7(op)), o.imm, Bits5(o.rs1), Bits3(ShiftF3(op)), Bits5(o.rd),
                  if IsWordOp(op) then 0x1B else 0x13);
    DecodeShift(Encode(op, o), op);
  }

  lemma ImmRoundTrip(op: Opcode, o: Operands)
    requires Encodable(op, o) && o.RegRegImm? && !IsShiftImm(op)
    ensures DecodeWord(Encode(op, o)) == Ok(op, o)
  {
    hide DecodeWord, GetBits, ImmI, ImmS, ImmB, ImmJ, ImmU;
    hide EncodeI, EncodeR, EncodeS, EncodeB, EncodeU, EncodeJ, EncodeShift, Bits3, Bits5, Bits7;
    hide OpcBits, RdBits, F3Bits, Rs1Bits, Rs2Bits, F7Bits;
    BitsOf5(o.rd);
    BitsOf5(o.rs1);
    BitsOf3(ImmF3(op));
    FieldsOfI(o.imm, Bits5(o.rs1), Bits3(ImmF3(op)), Bits5(o.rd), if IsWordOp(op) then 0x1B else 0x13);
    DecodeImm(Encode(op, o), op);
  }

  lemma BranchRoundTrip(op: Opcode, o: Operands)
    requires Encodable(op, o) && o.Branch?
    ensures DecodeWord(Encode(op, o)) == Ok(op, o)
  {
    hide DecodeWord, GetBits, ImmI, ImmS, ImmB, ImmJ, ImmU;
    hide EncodeI, EncodeR, EncodeS, EncodeB, EncodeU, EncodeJ, EncodeShift, Bits3, Bits5, Bits7;
    hide OpcBits, RdBits, F3Bits, Rs1Bits, Rs2Bits, F7Bits;
    BitsOf5(o.rs1);
    BitsOf5(o.rs2);
    BitsOf3(BranchF3(op));
    DecodeControl(Encode(op, o), op);
    FieldsOfB(o.imm, Bits5(o.rs2), Bits5(o.rs1), Bits3(BranchF3(op)));
  }

  lemma RegRoundTrip(op: Opcode, o: Operands)
    requires Encodable(op, o) && o.RegRegReg?
    ensures DecodeWord(Encode(op, o)) == Ok(op, o)
  {
    hide DecodeWord, GetBits, ImmI, ImmS, ImmB, ImmJ, ImmU;
    hide EncodeI, EncodeR, EncodeS, EncodeB, EncodeU, EncodeJ, EncodeShift, Bits3, Bits5, Bits7;
    hide OpcBits, RdBits, F3Bits, Rs1Bits, Rs2Bits, F7Bits;
    BitsOf5(o.rd);
    BitsOf5(o.rs1);
    BitsOf5(o.rs2);
    BitsOf3(RegF3(op));
    BitsOf7(F7(op));
    FieldsOfR(Bits7(F7(op)), Bits5(o.rs2), Bits5(o.rs1), Bits3(RegF3(op)), Bits5(o.rd),
              if IsWordOp(op) then 0x3B else 0x33);
    DecodeReg(Encode(op, o), op);
  }

  /** Every instruction the manual's encodings can hold is read back unchanged. */
  lemma DecodeInvertsEncode(op: Opcode, o: Operands)
    requires Encodable(op, o)
    ensures DecodeWord(Encode(op, o)) == Ok(op, o)
  {
    hide DecodeWord, EncodeI, EncodeR, EncodeS, EncodeB, EncodeU, EncodeJ, EncodeShift, Bits3, Bits5, Bits7;
    match o
    case NoOperands => DecodeSystemWords();
    case RegImm(_, _) => UpperRoundTrip(op, o);
    case RegMem(_, _, _) => LoadRoundTrip(op, o);
    case MemReg(_, _, _) => StoreRoundTrip(op, o);
    case RegRegImm(_, _, _) => if IsShiftImm(op) { ShiftRoundTrip(op, o); } else { ImmRoundTrip(op, o); }
    case Branch(_, _, _) => BranchRoundTrip(op, o);
    case RegRegReg(_, _, _) => RegRoundTrip(op, o);
  }
}
