/** Words of the RISC-V manual's opcode tables, one for each instruction, with what they decode to. */
module KnownWords {
  import opened Riscv
  import opened Decoder

  lemma {:induction false} UpperWords()
    ensures DecodeWord(0x1234_52B7) == Ok(LUI, RegImm(5, 0x12345000))
    ensures DecodeWord(0xFFFF_E317) == Ok(AUIPC, RegImm(6, 0xFFFF_FFFF_FFFF_E000))
    ensures DecodeWord(0xD57F_F0EF) == Ok(JAL, RegImm(1, 0xFFFF_FFFF_FFFF_FD56))
    ensures DecodeWord(0xFFC2_80E7) == Ok(JALR, RegMem(1, 5, 0xFFFF_FFFF_FFFF_FFFC))
    ensures DecodeWord(0x0000_8067) == Ok(JALR, RegMem(0, 1, 0))
  {
  }

  lemma {:induction false} BranchWords()
    ensures DecodeWord(0x0020_8863) == Ok(BEQ, Branch(1, 2, 16))
    ensures DecodeWord(0xFE20_97E3) == Ok(BNE, Branch(1, 2, 0xFFFF_FFFF_FFFF_FFEE))
    ensures DecodeWord(0x7E20_CF63) == Ok(BLT, Branch(1, 2, 0x7fe))
    ensures DecodeWord(0x8020_D063) == Ok(BGE, Branch(1, 2, 0xFFFF_FFFF_FFFF_F000))
    ensures DecodeWord(0x0020_E163) == Ok(BLTU, Branch(1, 2, 2))
    ensures DecodeWord(0xFE20_FFE3) == Ok(BGEU, Branch(1, 2, 0xFFFF_FFFF_FFFF_FFFE))
  {
  }

  lemma {:induction false} LoadWords()
    ensures DecodeWord(0x0014_8403) == Ok(LB, RegMem(8, 9, 1))
    ensures DecodeWord(0xFFE4_9403) == Ok(LH, RegMem(8, 9, 0xFFFF_FFFF_FFFF_FFFE))
    ensures DecodeWord(0x0044_A403) == Ok(LW, RegMem(8, 9, 4))
    ensures DecodeWord(0x0084_B403) == Ok(LD, RegMem(8, 9, 8))
    ensures DecodeWord(0xFFF4_C403) == Ok(LBU, RegMem(8, 9, 0xFFFF_FFFF_FFFF_FFFF))
    ensures DecodeWord(0x7FF4_D403) == Ok(LHU, RegMem(8, 9, 0x7ff))
    ensures DecodeWord(0x8004_E403) == Ok(LWU, RegMem(8, 9, 0xFFFF_FFFF_FFFF_F800))
  {
  }

  lemma {:induction false} StoreWords()
    ensures DecodeWord(0x00B5_00A3) == Ok(SB, MemReg(10, 1, 11))
    ensures DecodeWord(0xFEB5_1F23) == Ok(SH, MemReg(10, 0xFFFF_FFFF_FFFF_FFFE, 11))
    ensures DecodeWord(0x02B5_2223) == Ok(SW, MemReg(10, 36, 11))
    ensures DecodeWord(0x82B5_3423) == Ok(SD, MemReg(10, 0xFFFF_FFFF_FFFF_F828, 11))
  {
  }

  lemma {:induction false} ImmediateWords()
    ensures DecodeWord(0xFFF6_8613) == Ok(ADDI, RegRegImm(12, 13, 0xFFFF_FFFF_FFFF_FFFF))
    ensures DecodeWord(0x0056_A613) == Ok(SLTI, RegRegImm(12, 13, 5))
    ensures DecodeWord(0xFFB6_B613) == Ok(SLTIU, RegRegImm(12, 13, 0xFFFF_FFFF_FFFF_FFFB))
    ensures DecodeWord(0x5556_C613) == Ok(XORI, RegRegImm(12, 13, 0x555))
    ensures DecodeWord(0xAAA6_E613) == Ok(ORI, RegRegImm(12, 13, 0xFFFF_FFFF_FFFF_FAAA))
    ensures DecodeWord(0x00F6_F613) == Ok(ANDI, RegRegImm(12, 13, 15))
  {
  }

  lemma {:induction false} ShiftWords()
    ensures DecodeWord(0x03F6_9613) == Ok(SLLI, RegRegImm(12, 13, 63))
    ensures DecodeWord(0x0076_D613) == Ok(SRLI, RegRegImm(12, 13, 7))
    ensures DecodeWord(0x40C6_D613) == Ok(SRAI, RegRegImm(12, 13, 12))
    ensures DecodeWord(0xFF06_861B) == Ok(ADDIW, RegRegImm(12, 13, 0xFFFF_FFFF_FFFF_FFF0))
    ensures DecodeWord(0x01F6_961B) == Ok(SLLIW, RegRegImm(12, 13, 31))
    ensures DecodeWord(0x0036_D61B) == Ok(SRLIW, RegRegImm(12, 13, 3))
    ensures DecodeWord(0x4096_D61B) == Ok(SRAIW, RegRegImm(12, 13, 9))
  {
  }

  lemma {:induction false} RegisterWords()
    ensures DecodeWord(0x0118_07B3) == Ok(ADD, RegRegReg(15, 16, 17))
    ensures DecodeWord(0x4118_07B3) == Ok(SUB, RegRegReg(15, 16, 17))
    ensures DecodeWord(0x0118_17B3) == Ok(SLL, RegRegReg(15, 16, 17))
    ensures DecodeWord(0x0118_27B3) == Ok(SLT, RegRegReg(15, 16, 17))
    ensures DecodeWord(0x0118_37B3) == Ok(SLTU, RegRegReg(15, 16, 17))
  {
  }

  lemma {:induction false} BitwiseWords()
    ensures DecodeWord(0x0118_47B3) == Ok(XOR, RegRegReg(15, 16, 17))
    ensures DecodeWord(0x0118_57B3) == Ok(SRL, RegRegReg(15, 16, 17))
    ensures DecodeWord(0x4118_57B3) == Ok(SRA, RegRegReg(15, 16, 17))
    ensures DecodeWord(0x0118_67B3) == Ok(OR, RegRegReg(15, 16, 17))
    ensures DecodeWord(0x0118_77B3) == Ok(AND, RegRegReg(15, 16, 17))
  {
  }

  lemma {:induction false} WordWords()
    ensures DecodeWord(0x01EE_8FBB) == Ok(ADDW, RegRegReg(31, 29, 30))
    ensures DecodeWord(0x41EE_8FBB) == Ok(SUBW, RegRegReg(31, 29, 30))
    ensures DecodeWord(0x01EE_9FBB) == Ok(SLLW, RegRegReg(31, 29, 30))
    ensures DecodeWord(0x01EE_DFBB) == Ok(SRLW, RegRegReg(31, 29, 30))
    ensures DecodeWord(0x41EE_DFBB) == Ok(SRAW, RegRegReg(31, 29, 30))
  {
  }

  lemma {:induction false} SystemWords()
    ensures DecodeWord(0x0000_000F) == Ok(FENCE, NoOperands)
    ensures DecodeWord(0x0FF0_000F) == Ok(FENCE, NoOperands)
    ensures DecodeWord(0x0000_0073) == Ok(ECALL, NoOperands)
    ensures DecodeWord(0x0010_0073) == Ok(EBREAK, NoOperands)
  {
  }
}
