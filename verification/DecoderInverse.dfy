/** The converse direction for the decoder: what it accepts, and when a word can be rebuilt
    from what it returns. */
module DecoderInverse {
  import opened Words
  import opened Riscv
  import opened Decoder

  // ---------- Decoded instructions are in the range of their format ----------

  lemma ImmediateRanges(w: bv32)
    ensures SignedBelow(ImmI(w), 0x800) && SignedBelow(ImmS(w), 0x800)
  {
  }

  lemma BranchRanges(w: bv32)
    ensures SignedBelow(ImmB(w), 0x1000) && ImmB(w) & 1 == 0
  {
  }

  lemma UpperRanges(w: bv32)
    ensures SignedBelow(ImmJ(w), 0x10_0000) && ImmJ(w) & 1 == 0
    ensures SignedBelow(ImmU(w), 0x8000_0000) && ImmU(w) & 0xFFF == 0
  {
  }

  lemma ShiftRanges(w: bv32)
    ensures GetBits(w, 25, 20) as bv64 < 64 && GetBits(w, 24, 20) as bv64 < 32
    ensures F7Bits(w) == 0 || F7Bits(w) == 0x20 ==> GetBits(w, 25, 20) as bv64 < 32
  {
  }

  lemma ShiftF7(w: bv32)
    ensures Funct7(w) == 0 ==> F7Bits(w) == 0
    ensures Funct7(w) == 0x20 ==> F7Bits(w) == 0x20
  {
    hide F7Bits;
  }

  lemma RegIsEncodable(w: bv32)
    requires DecodeWord(w).Ok? && (Opc(w) == 0x33 || Opc(w) == 0x3B)
    ensures Encodable(DecodeWord(w).opcode, DecodeWord(w).operands)
  {
    hide GetBits, ImmI, ImmS, ImmB, ImmJ, ImmU, Opc, Rd, Rs1, Rs2, Funct3, Funct7, SignedBelow;
    hide DecodeBranch, DecodeLoad, DecodeStore, DecodeSystem, DecodeOpImm, DecodeOpImm32;
  }

  lemma OpImmIsEncodable(w: bv32)
    requires DecodeOpImm(w).Ok?
    ensures Encodable(DecodeOpImm(w).opcode, DecodeOpImm(w).operands)
  {
    hide GetBits, ImmI, Rd, Rs1, Funct3, Funct7, SignedBelow, F7Bits;
    ImmediateRanges(w);
    ShiftRanges(w);
    ShiftF7(w);
  }

  lemma OpImm32IsEncodable(w: bv32)
    requires DecodeOpImm32(w).Ok?
    ensures Encodable(DecodeOpImm32(w).opcode, DecodeOpImm32(w).operands)
  {
    hide GetBits, ImmI, Rd, Rs1, Funct3, Funct7, SignedBelow, F7Bits;
    ImmediateRanges(w);
    ShiftRanges(w);
  }

  lemma ImmIsEncodable(w: bv32)
    requires DecodeWord(w).Ok? && (Opc(w) == 0x13 || Opc(w) == 0x1B)
    ensures Encodable(DecodeWord(w).opcode, DecodeWord(w).operands)
  {
    hide GetBits, ImmI, ImmS, ImmB, ImmJ, ImmU, Opc, Rd, Rs1, Rs2, Funct3, Funct7, Encodable;
    hide DecodeBranch, DecodeLoad, DecodeStore, DecodeSystem, DecodeOp, DecodeOp32, DecodeOpImm, DecodeOpImm32;
    if Opc(w) == 0x13 { OpImmIsEncodable(w); } else { OpImm32IsEncodable(w); }
  }

  lemma MemoryIsEncodable(w: bv32)
    requires DecodeWord(w).Ok? && (Opc(w) == 0x03 || Opc(w) == 0x23 || Opc(w) == 0x63)
    ensures Encodable(DecodeWord(w).opcode, DecodeWord(w).operands)
  {
    hide GetBits, ImmI, ImmS, ImmB, ImmJ, ImmU, Opc, Rd, Rs1, Rs2, Funct3, Funct7, SignedBelow;
    hide DecodeOpImm, DecodeOpImm32, DecodeOp, DecodeOp32, DecodeSystem;
    ImmediateRanges(w);
    BranchRanges(w);
  }

  lemma OthersAreEncodable(w: bv32)
    requires DecodeWord(w).Ok? && Opc(w) != 0x13 && Opc(w) != 0x1B && Opc(w) != 0x33 && Opc(w) != 0x3B
    requires Opc(w) != 0x03 && Opc(w) != 0x23 && Opc(w) != 0x63
    ensures Encodable(DecodeWord(w).opcode, DecodeWord(w).operands)
  {
    hide GetBits, ImmI, ImmS, ImmB, ImmJ, ImmU, Opc, Rd, Rs1, Rs2, Funct3, Funct7, SignedBelow;
    hide DecodeOpImm, DecodeOpImm32, DecodeOp, DecodeOp32, DecodeBranch, DecodeLoad, DecodeStore;
    ImmediateRanges(w);
    UpperRanges(w);
  }

  /** Whatever the decoder accepts has the shape and the immediate range of its format. */
  lemma DecodedIsEncodable(w: bv32)
    requires DecodeWord(w).Ok?
    ensures Encodable(DecodeWord(w).opcode, DecodeWord(w).operands)
  {
    hide *;
    if Opc(w) == 0x13 || Opc(w) == 0x1B {
      ImmIsEncodable(w);
    } else if Opc(w) == 0x33 || Opc(w) == 0x3B {
      RegIsEncodable(w);
    } else if Opc(w) == 0x03 || Opc(w) == 0x23 || Opc(w) == 0x63 {
      MemoryIsEncodable(w);
    } else {
      OthersAreEncodable(w);
    }
  }

  lemma DecodeIsWellFormed(code: Code, pc: Word)
    requires Decode(code, pc).Success?
    ensures WellFormed(Decode(code, pc).inst)
  {
    hide DecodeWord;
    DecodedIsEncodable(code[pc]);
  }

  // ---------- Encoding inverts decoding ----------

  lemma FieldsBack(w: bv32)
    ensures Bits5(Rd(w)) == RdBits(w) && Bits5(Rs1(w)) == Rs1Bits(w) && Bits5(Rs2(w)) == Rs2Bits(w)
    ensures Bits3(Funct3(w)) == F3Bits(w) && Bits7(Funct7(w)) == F7Bits(w) && Bits7(Opc(w)) == OpcBits(w)
    ensures 0 <= Funct3(w) < 8 && (F3Bits(w) == 0 ==> Funct3(w) == 0)
    ensures (F7Bits(w) == 0 ==> Funct7(w) == 0) && (F7Bits(w) == 0x20 ==> Funct7(w) == 0x20)
  {
    hide OpcBits, RdBits, F3Bits, Rs1Bits, Rs2Bits, F7Bits;
  }

  lemma F7Values()
    ensures Bits7(0) == 0 && Bits7(0x20) == 0x20 && Bits3(0) == 0
    ensures Bits7(0x03) == 0x03 && Bits7(0x13) == 0x13 && Bits7(0x1B) == 0x1B && Bits7(0x33) == 0x33
    ensures Bits7(0x3B) == 0x3B && Bits7(0x23) == 0x23 && Bits7(0x63) == 0x63 && Bits7(0x67) == 0x67
    ensures Bits7(0x37) == 0x37 && Bits7(0x17) == 0x17 && Bits7(0x6F) == 0x6F && Bits7(0x73) == 0x73
  {
  }

  lemma RebuildI(w: bv32, f3: bv3)
    ensures F3Bits(EncodeI(ImmI(w), Rs1Bits(w), f3, RdBits(w), OpcBits(w))) == f3
    ensures f3 == F3Bits(w) ==> EncodeI(ImmI(w), Rs1Bits(w), f3, RdBits(w), OpcBits(w)) == w
  {
  }

  lemma RebuildR(w: bv32, f7: bv7)
    ensures F7Bits(EncodeR(f7, Rs2Bits(w), Rs1Bits(w), F3Bits(w), RdBits(w), OpcBits(w))) == f7
    ensures f7 == F7Bits(w) ==> EncodeR(f7, Rs2Bits(w), Rs1Bits(w), F3Bits(w), RdBits(w), OpcBits(w)) == w
  {
  }

  lemma ShiftAmounts(w: bv32)
    requires F7Bits(w) == 0 || F7Bits(w) == 0x20
    ensures GetBits(w, 25, 20) == GetBits(w, 24, 20)
    ensures GetBits(w, 24, 20) == (w >> 20) & 0x1F
  {
  }

  lemma RebuildShiftAmount(w: bv32)
    ensures EncodeShift(F7Bits(w), ((w >> 20) & 0x1F) as bv64, Rs1Bits(w), F3Bits(w), RdBits(w), OpcBits(w)) == w
  {
  }

  lemma RebuildShift(w: bv32)
    requires F7Bits(w) == 0 || F7Bits(w) == 0x20
    ensures EncodeShift(F7Bits(w), GetBits(w, 25, 20) as bv64, Rs1Bits(w), F3Bits(w), RdBits(w), OpcBits(w)) == w
    ensures EncodeShift(F7Bits(w), GetBits(w, 24, 20) as bv64, Rs1Bits(w), F3Bits(w), RdBits(w), OpcBits(w)) == w
  {
    hide GetBits, EncodeShift, F7Bits, Rs1Bits, F3Bits, RdBits, OpcBits;
    ShiftAmounts(w);
    RebuildShiftAmount(w);
  }

  lemma RebuildSlli(w: bv32)
    ensures EncodeShift(0, GetBits(w, 25, 20) as bv64, Rs1Bits(w), F3Bits(w), RdBits(w), OpcBits(w)) >> 26 == 0
    ensures w >> 26 == 0 ==>
      EncodeShift(0, GetBits(w, 25, 20) as bv64, Rs1Bits(w), F3Bits(w), RdBits(w), OpcBits(w)) == w
  {
  }

  lemma RebuildStore(w: bv32)
    requires OpcBits(w) == 0x23
    ensures EncodeS(ImmS(w), Rs2Bits(w), Rs1Bits(w), F3Bits(w)) == w
  {
  }

  lemma RebuildBranch(w: bv32)
    requires OpcBits(w) == 0x63
    ensures EncodeB(ImmB(w), Rs2Bits(w), Rs1Bits(w), F3Bits(w)) == w
  {
  }

  lemma RebuildUpper(w: bv32)
    ensures EncodeU(ImmU(w), RdBits(w), OpcBits(w)) == w
    ensures OpcBits(w) == 0x6F ==> EncodeJ(ImmJ(w), RdBits(w)) == w
  {
  }

  lemma RebuildSystem(w: bv32)
    requires OpcBits(w) == 0x73 && F3Bits(w) == 0
    ensures w == 0x73 || w == 0x10_0073 ==> RdBits(w) == 0 && Rs1Bits(w) == 0
    ensures GetBits(w, 31, 20) == 0 && RdBits(w) == 0 && Rs1Bits(w) == 0 ==> w == 0x73
    ensures GetBits(w, 31, 20) == 1 && RdBits(w) == 0 && Rs1Bits(w) == 0 ==> w == 0x10_0073
  {
  }

  /** The fields the decoder does not look at hold what the manual puts there. */
  predicate Canonical(w: bv32) {
    match Opc(w)
    case 0x67 => Funct3(w) == 0
    case 0x13 => Funct3(w) == 1 ==> w >> 26 == 0
    case 0x33 => Funct7(w) == 0 || (Funct7(w) == 0x20 && (Funct3(w) == 0 || Funct3(w) == 5))
    case 0x3B => Funct7(w) == 0 || (Funct7(w) == 0x20 && (Funct3(w) == 0 || Funct3(w) == 5))
    case 0x0F => w == 0x0F
    case 0x73 => RdBits(w) == 0 && Rs1Bits(w) == 0
    case _ => true
  }

  predicate Rebuilds(w: bv32)
    requires DecodeWord(w).Ok?
  {
    Encode(DecodeWord(w).opcode, DecodeWord(w).operands) == w
  }

  lemma RegRebuilds(w: bv32)
    requires DecodeWord(w).Ok? && (Opc(w) == 0x33 || Opc(w) == 0x3B)
    ensures Rebuilds(w) <==> Canonical(w)
  {
    hide GetBits, ImmI, ImmS, ImmB, ImmJ, ImmU, Opc, Rd, Rs1, Rs2, Funct3, Funct7;
    hide EncodeI, EncodeR, EncodeS, EncodeB, EncodeU, EncodeJ, EncodeShift, Bits3, Bits5, Bits7;
    hide OpcBits, RdBits, F3Bits, Rs1Bits, Rs2Bits, F7Bits;
    hide DecodeBranch, DecodeLoad, DecodeStore, DecodeOpImm, DecodeOpImm32, DecodeSystem;
    FieldsBack(w);
    RebuildR(w, F7Bits(w));
    RebuildR(w, 0);
    RebuildR(w, 0x20);
    ShiftF7(w);
    F7Values();
  }

  lemma ImmRebuilds(w: bv32)
    requires DecodeWord(w).Ok? && (Opc(w) == 0x13 || Opc(w) == 0x1B) && Funct3(w) != 1 && Funct3(w) != 5
    ensures Rebuilds(w) <==> Canonical(w)
  {
    hide GetBits, ImmI, ImmS, ImmB, ImmJ, ImmU, Opc, Rd, Rs1, Rs2, Funct3, Funct7;
    hide EncodeI, EncodeR, EncodeS, EncodeB, EncodeU, EncodeJ, EncodeShift, Bits3, Bits5, Bits7;
    hide OpcBits, RdBits, F3Bits, Rs1Bits, Rs2Bits, F7Bits;
    hide DecodeBranch, DecodeLoad, DecodeStore, DecodeOp, DecodeOp32, DecodeSystem;
    FieldsBack(w);
    RebuildI(w, F3Bits(w));
    F7Values();
  }

  lemma ShiftWordRebuilds(w: bv32)
    requires DecodeWord(w).Ok? && Opc(w) == 0x1B && (Funct3(w) == 1 || Funct3(w) == 5)
    ensures Rebuilds(w) <==> Canonical(w)
  {
    hide GetBits, ImmI, ImmS, ImmB, ImmJ, ImmU, Opc, Rd, Rs1, Rs2, Funct3, Funct7;
    hide EncodeI, EncodeR, EncodeS, EncodeB, EncodeU, EncodeJ, EncodeShift, Bits3, Bits5, Bits7;
    hide OpcBits, RdBits, F3Bits, Rs1Bits, Rs2Bits, F7Bits;
    hide DecodeBranch, DecodeLoad, DecodeStore, DecodeOp, DecodeOp32, DecodeSystem, DecodeOpImm;
    FieldsBack(w);
    ShiftF7(w);
    if F7Bits(w) == 0 || F7Bits(w) == 0x20 { RebuildShift(w); }
    F7Values();
  }

  lemma ShiftRebuilds(w: bv32)
    requires DecodeWord(w).Ok? && Opc(w) == 0x13 && (Funct3(w) == 1 || Funct3(w) == 5)
    ensures Rebuilds(w) <==> Canonical(w)
  {
    hide GetBits, ImmI, ImmS, ImmB, ImmJ, ImmU, Opc, Rd, Rs1, Rs2, Funct3, Funct7;
    hide EncodeI, EncodeR, EncodeS, EncodeB, EncodeU, EncodeJ, EncodeShift, Bits3, Bits5, Bits7;
    hide OpcBits, RdBits, F3Bits, Rs1Bits, Rs2Bits, F7Bits;
    hide DecodeBranch, DecodeLoad, DecodeStore, DecodeOp, DecodeOp32, DecodeSystem, DecodeOpImm32;
    FieldsBack(w);
    ShiftF7(w);
    if F7Bits(w) == 0 || F7Bits(w) == 0x20 { RebuildShift(w); }
    RebuildSlli(w);
    F7Values();
  }

  lemma MemoryRebuilds(w: bv32)
    requires DecodeWord(w).Ok? && (Opc(w) == 0x03 || Opc(w) == 0x23 || Opc(w) == 0x63 || Opc(w) == 0x67)
    ensures Rebuilds(w) <==> Canonical(w)
  {
    hide GetBits, ImmI, ImmS, ImmB, ImmJ, ImmU, Opc, Rd, Rs1, Rs2, Funct3, Funct7;
    hide EncodeI, EncodeR, EncodeS, EncodeB, EncodeU, EncodeJ, EncodeShift, Bits3, Bits5, Bits7;
    hide OpcBits, RdBits, F3Bits, Rs1Bits, Rs2Bits, F7Bits;
    hide DecodeOpImm, DecodeOpImm32, DecodeOp, DecodeOp32, DecodeSystem;
    FieldsBack(w);
    RebuildI(w, F3Bits(w));
    RebuildI(w, 0);
    F7Values();
    if Opc(w) == 0x23 { RebuildStore(w); } else if Opc(w) == 0x63 { RebuildBranch(w); }
  }

  lemma OtherRebuilds(w: bv32)
    requires DecodeWord(w).Ok?
    requires Opc(w) == 0x37 || Opc(w) == 0x17 || Opc(w) == 0x6F || Opc(w) == 0x0F || Opc(w) == 0x73
    ensures Rebuilds(w) <==> Canonical(w)
  {
    hide GetBits, ImmI, ImmS, ImmB, ImmJ, ImmU, Opc, Rd, Rs1, Rs2, Funct3, Funct7;
    hide EncodeI, EncodeR, EncodeS, EncodeB, EncodeU, EncodeJ, EncodeShift, Bits3, Bits5, Bits7;
    hide OpcBits, RdBits, F3Bits, Rs1Bits, Rs2Bits, F7Bits;
    hide DecodeBranch, DecodeLoad, DecodeStore, DecodeOpImm, DecodeOpImm32, DecodeOp, DecodeOp32;
    FieldsBack(w);
    RebuildUpper(w);
    F7Values();
    if Opc(w) == 0x73 { RebuildSystem(w); }
  }

  /** A decoded word is rebuilt by the encoder exactly when its unread fields are canonical. */
  lemma EncodeInvertsDecode(w: bv32)
    requires DecodeWord(w).Ok?
    ensures Encode(DecodeWord(w).opcode, DecodeWord(w).operands) == w <==> Canonical(w)
  {
    hide Encode, Canonical, Opc, Funct3;
    hide DecodeBranch, DecodeLoad, DecodeStore, DecodeOpImm, DecodeOpImm32, DecodeOp, DecodeOp32, DecodeSystem;
    if Opc(w) == 0x33 || Opc(w) == 0x3B { RegRebuilds(w); }
    else if Opc(w) == 0x13 || Opc(w) == 0x1B {
      if Funct3(w) != 1 && Funct3(w) != 5 { ImmRebuilds(w); }
      else if Opc(w) == 0x13 { ShiftRebuilds(w); }
      else { ShiftWordRebuilds(w); }
    }
    else if Opc(w) == 0x03 || Opc(w) == 0x23 || Opc(w) == 0x63 || Opc(w) == 0x67 { MemoryRebuilds(w); }
    else { OtherRebuilds(w); }
  }
}
