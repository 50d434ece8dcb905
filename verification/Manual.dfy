/** The instruction encodings of the RISC-V manual, apart from what the decoder makes of them
    (Volume I, sections 2.2 to 2.8 and 5.2), and exactly where the two differ. */
module Manual {
  import opened Words
  import opened Riscv
  import opened Decoder
  import opened DecoderInverse

  // ---------- The encodings ----------

  /** RV64I shifts by immediate take amounts 0 to 63 (section 5.2). */
  predicate ManualOperands(op: Opcode, o: Operands) {
    if op.SRLI? || op.SRAI? then o.RegRegImm? && o.imm < 64 else Encodable(op, o)
  }

  /** w is an encoding of the instruction. A FENCE holds its ordering sets in bits 20 to 31. */
  predicate ManualWord(op: Opcode, o: Operands, w: bv32) {
    if op.FENCE? then o == NoOperands && w & 0x000F_FFFF == 0x0F
    else ManualOperands(op, o) && w == Encode(op, o)
  }

  ghost predicate IsManual(w: bv32) {
    exists op, o :: ManualWord(op, o, w)
  }

  /** The right shifts by more than 31, which the decoder rejects. */
  predicate LongShift(op: Opcode, o: Operands) {
    (op.SRLI? || op.SRAI?) && o.RegRegImm? && !(o.imm < 32)
  }

  /** Their words: opcode OP-IMM, funct3 5, bit 25 set under a funct6 of SRLI or SRAI. */
  predicate LongShiftWord(w: bv32) {
    OpcBits(w) == 0x13 && F3Bits(w) == 5 && (F7Bits(w) == 0x01 || F7Bits(w) == 0x21)
  }

  // ---------- Decoding the manual's words ----------

  lemma {:induction false} FieldsOfLongShift(f7: bv7, imm: Imm, rs1: bv5, f3: bv3, rd: bv5, opc: bv7)
    requires !(imm < 32) && imm < 64 && (f7 == 0 || f7 == 0x20)
    ensures
      var w := EncodeShift(f7, imm, rs1, f3, rd, opc);
      && OpcBits(w) == opc && RdBits(w) == rd && F3Bits(w) == f3 && Rs1Bits(w) == rs1
      && F7Bits(w) == f7 + 1 && GetBits(w, 25, 20) as bv64 == imm
  {
  }

  lemma {:induction false} F7Numbers(w: bv32)
    ensures F7Bits(w) == 0x01 ==> Funct7(w) == 1
    ensures F7Bits(w) == 0x21 ==> Funct7(w) == 0x21
    ensures OpcBits(w) == 0x13 ==> Opc(w) == 0x13
    ensures OpcBits(w) == 0x0F ==> Opc(w) == 0x0F
    ensures F3Bits(w) == 5 ==> Funct3(w) == 5
  {
    hide F7Bits, OpcBits, F3Bits;
  }

  /** The decoder rejects every such word. */
  lemma {:induction false} LongShiftIsInvalid(w: bv32)
    requires LongShiftWord(w)
    ensures DecodeWord(w) == Invalid
  {
    hide GetBits, ImmI, OpcBits, F3Bits, F7Bits, Rd, Rs1, Funct3, Funct7, Opc;
    hide DecodeBranch, DecodeLoad, DecodeStore, DecodeOpImm32, DecodeOp, DecodeOp32, DecodeSystem;
    F7Numbers(w);
  }

  lemma {:induction false} EncodedLong(op: Opcode, o: Operands)
    requires (op.SRLI? || op.SRAI?) && o.RegRegImm?
    ensures Encode(op, o) ==
      EncodeShift(if op.SRAI? then 0x20 else 0, o.imm, Bits5(o.rs1), 5, Bits5(o.rd), 0x13)
  {
    hide EncodeShift, Bits5, EncodeI;
    assert Bits7(0) == 0 && Bits7(0x20) == 0x20 && Bits3(5) == 5;
  }

  lemma {:induction false} LongAmount(op: Opcode, o: Operands)
    requires ManualOperands(op, o) && LongShift(op, o)
    ensures (op.SRLI? || op.SRAI?) && o.RegRegImm? && !(o.imm < 32) && o.imm < 64
  {
    hide SignedBelow;
  }

  lemma {:induction false} LongShiftEncoded(op: Opcode, o: Operands)
    requires ManualOperands(op, o) && LongShift(op, o)
    ensures
      var w := Encode(op, o);
      && LongShiftWord(w)
      && F7Bits(w) == (if op.SRAI? then 0x21 else 0x01)
      && RdBits(w) == Bits5(o.rd) && Rs1Bits(w) == Bits5(o.rs1) && GetBits(w, 25, 20) as bv64 == o.imm
  {
    hide Encode, EncodeShift, OpcBits, F3Bits, F7Bits, RdBits, Rs1Bits, GetBits, Bits5, ManualOperands, LongShift;
    LongAmount(op, o);
    EncodedLong(op, o);
    FieldsOfLongShift(if op.SRAI? then 0x20 else 0, o.imm, Bits5(o.rs1), 5, Bits5(o.rd), 0x13);
  }

  /** An instruction of the manual is read back from each of its encodings, unless it is a right
      shift by more than 31: then the word is rejected. */
  lemma {:induction false} ManualDecodes(op: Opcode, o: Operands, w: bv32)
    requires ManualWord(op, o, w)
    ensures DecodeWord(w) == if LongShift(op, o) then Invalid else Ok(op, o)
    ensures LongShiftWord(w) <==> LongShift(op, o)
  {
    hide Encodable, Encode, DecodeWord, LongShiftWord;
    if op.FENCE? {
      FenceDecodes(w);
    } else if LongShift(op, o) {
      LongShiftEncoded(op, o);
      LongShiftIsInvalid(w);
    } else {
      ShortIsEncodable(op, o);
      DecodeInvertsEncode(op, o);
      if LongShiftWord(w) { LongShiftIsInvalid(w); }
    }
  }

  lemma {:induction false} ShortIsEncodable(op: Opcode, o: Operands)
    requires ManualOperands(op, o) && !LongShift(op, o)
    ensures Encodable(op, o)
  {
    hide SignedBelow;
  }

  lemma {:induction false} FenceDecodes(w: bv32)
    requires w & 0x000F_FFFF == 0x0F
    ensures DecodeWord(w) == Ok(FENCE, NoOperands) && !LongShiftWord(w)
  {
    hide DecodeBranch, DecodeLoad, DecodeStore, DecodeOpImm, DecodeOpImm32, DecodeOp, DecodeOp32, DecodeSystem;
    hide ImmI, ImmU, ImmJ;
    assert OpcBits(w) == 0x0F;
  }

  // ---------- The decoder against the manual ----------

  /** The fields the decoder does not look at hold what the manual allows there. */
  predicate LegalFields(w: bv32) {
    if Opc(w) == 0x0F then w & 0x000F_FFFF == 0x0F else Canonical(w)
  }

  lemma {:induction false} EncodableIsManual(op: Opcode, o: Operands)
    requires Encodable(op, o)
    ensures ManualOperands(op, o)
  {
    hide SignedBelow;
  }

  lemma {:induction false} FenceIsFence(w: bv32)
    ensures Opc(w) == 0x0F ==> DecodeWord(w) == Ok(FENCE, NoOperands)
    ensures DecodeWord(w).Ok? && DecodeWord(w).opcode == FENCE ==>
      Opc(w) == 0x0F && DecodeWord(w) == Ok(FENCE, NoOperands)
    ensures w & 0x000F_FFFF == 0x0F ==> Opc(w) == 0x0F
  {
    hide ImmI, ImmU, ImmJ, ImmB, ImmS, Rd, Rs1, Rs2, GetBits, Funct3, Funct7;
  }

  /** The accepted words with legal fields are exactly the manual's words that are not long right
      shifts. */
  lemma {:induction false} AcceptedExactly(w: bv32)
    ensures DecodeWord(w).Ok? && LegalFields(w) <==> IsManual(w) && !LongShiftWord(w)
    ensures DecodeWord(w).Ok? && LegalFields(w) ==> ManualWord(DecodeWord(w).opcode, DecodeWord(w).operands, w)
  {
    hide Encodable, Encode, DecodeWord, Canonical, LongShiftWord, Opc;
    FenceIsFence(w);
    if IsManual(w) && !LongShiftWord(w) {
      var op, o :| ManualWord(op, o, w);
      ManualDecodes(op, o, w);
      if !op.FENCE? { EncodeInvertsDecode(w); }
    }
    if DecodeWord(w).Ok? && LegalFields(w) {
      DecodedIsEncodable(w);
      EncodableIsManual(DecodeWord(w).opcode, DecodeWord(w).operands);
      EncodeInvertsDecode(w);
      ManualDecodes(DecodeWord(w).opcode, DecodeWord(w).operands, w);
    }
  }

  /** The instruction a word encodes according to the manual. */
  ghost function ManualDecode(w: bv32): Decoded {
    if IsManual(w) then
      var op, o :| ManualWord(op, o, w);
      Ok(op, o)
    else Invalid
  }

  /** The manual's encodings do not overlap. */
  lemma {:induction false} ManualIsUnique(op: Opcode, o: Operands, op2: Opcode, o2: Operands, w: bv32)
    requires ManualWord(op, o, w) && ManualWord(op2, o2, w)
    ensures op == op2 && o == o2
  {
    hide ManualWord, DecodeWord, LongShiftWord, LongShift, Encode;
    ManualDecodes(op, o, w);
    ManualDecodes(op2, o2, w);
    if LongShift(op, o) { LongIsUnique(op, o, op2, o2, w); }
  }

  lemma {:induction false} LongIsUnique(op: Opcode, o: Operands, op2: Opcode, o2: Operands, w: bv32)
    requires ManualWord(op, o, w) && ManualWord(op2, o2, w) && LongShift(op, o) && LongShift(op2, o2)
    ensures op == op2 && o == o2
  {
    hide Encode, LongShiftWord, F7Bits, RdBits, Rs1Bits, GetBits, Encodable, Bits5;
    LongShiftEncoded(op, o);
    LongShiftEncoded(op2, o2);
    BitsOf5(o.rd);
    BitsOf5(o.rs1);
    BitsOf5(o2.rd);
    BitsOf5(o2.rs1);
  }

  /** The decoder reads a word as the manual does if and only if the word is not a right shift by
      more than 31 and, if the decoder accepts it, its unread fields are legal. */
  lemma {:induction false} DecodersAgreeExactly(w: bv32)
    ensures DecodeWord(w) == ManualDecode(w) <==> !LongShiftWord(w) && (DecodeWord(w).Ok? ==> LegalFields(w))
  {
    hide DecodeWord, LegalFields, LongShiftWord, ManualWord, LongShift;
    AcceptedExactly(w);
    if IsManual(w) {
      var op, o :| ManualWord(op, o, w) && ManualDecode(w) == Ok(op, o);
      ManualDecodes(op, o, w);
    }
    if LongShiftWord(w) {
      LongShiftIsInvalid(w);
      LongShiftIsManual(w);
    }
  }

  lemma {:induction false} LongShiftIsManual(w: bv32)
    requires LongShiftWord(w)
    ensures IsManual(w)
  {
    hide Encode;
    var op := if F7Bits(w) == 0x21 then SRAI else SRLI;
    var o := RegRegImm(Rd(w), Rs1(w), GetBits(w, 25, 20) as bv64);
    LongShiftRebuilt(w);
    assert ManualWord(op, o, w) by {
      LongOperands(op, o, w);
    }
  }

  lemma {:induction false} LongOperands(op: Opcode, o: Operands, w: bv32)
    requires op == (if F7Bits(w) == 0x21 then SRAI else SRLI)
    requires o == RegRegImm(Rd(w), Rs1(w), GetBits(w, 25, 20) as bv64)
    requires Encode(op, o) == w
    ensures ManualWord(op, o, w)
  {
    hide Encode, Encodable, Rd, Rs1, F7Bits;
    AmountBelow64(w);
  }

  lemma {:induction false} AmountBelow64(w: bv32)
    ensures GetBits(w, 25, 20) as bv64 < 64
  {
  }

  lemma {:induction false} LongShiftRebuilt(w: bv32)
    requires LongShiftWord(w)
    ensures Encode(if F7Bits(w) == 0x21 then SRAI else SRLI, RegRegImm(Rd(w), Rs1(w), GetBits(w, 25, 20) as bv64)) == w
  {
    hide GetBits, Rd, Rs1, F7Bits, RdBits, Rs1Bits, OpcBits, F3Bits, EncodeShift, Bits5;
    assert Bits7(0) == 0 && Bits7(0x20) == 0x20 && Bits3(5) == 5;
    FieldsBack(w);
    LongShiftBits(w);
  }

  lemma {:induction false} LongShiftBits(w: bv32)
    requires OpcBits(w) == 0x13 && F3Bits(w) == 5
    ensures F7Bits(w) == 0x01 ==> EncodeShift(0, GetBits(w, 25, 20) as bv64, Rs1Bits(w), 5, RdBits(w), 0x13) == w
    ensures F7Bits(w) == 0x21 ==> EncodeShift(0x20, GetBits(w, 25, 20) as bv64, Rs1Bits(w), 5, RdBits(w), 0x13) == w
  {
  }

  // ---------- What is rejected ----------

  /** The bits the decoder does not look at, given the ones it does. */
  function Unread(w: bv32): bv32 {
    if OpcBits(w) == 0x67 then 0x0000_7000
    else if OpcBits(w) == 0x0F then 0xFFFF_FF80
    else if OpcBits(w) == 0x73 then 0x000F_8F80
    else if OpcBits(w) == 0x13 && F3Bits(w) == 1 then 0xFC00_0000
    else if (OpcBits(w) == 0x33 || OpcBits(w) == 0x3B) && !(F7Bits(w) == 0x20 && (F3Bits(w) == 0 || F3Bits(w) == 5))
    then 0xFE00_0000
    else 0
  }

  function Cleared(w: bv32): bv32 {
    w & (Unread(w) ^ 0xFFFF_FFFF)
  }

  lemma {:induction false} ClearedFields(w: bv32)
    ensures OpcBits(Cleared(w)) == OpcBits(w)
    ensures OpcBits(w) != 0x67 && OpcBits(w) != 0x0F ==> F3Bits(Cleared(w)) == F3Bits(w)
    ensures OpcBits(w) == 0x67 || OpcBits(w) == 0x0F ==> F3Bits(Cleared(w)) == 0
    ensures OpcBits(w) == 0x73 ==> GetBits(Cleared(w), 31, 20) == GetBits(w, 31, 20)
    ensures OpcBits(w) == 0x73 ==> RdBits(Cleared(w)) == 0 && Rs1Bits(Cleared(w)) == 0
    ensures OpcBits(w) == 0x0F ==> Cleared(w) == 0x0F
    ensures OpcBits(w) == 0x13 && F3Bits(w) == 1 ==> Cleared(w) >> 26 == 0
  {
  }

  lemma {:induction false} ClearedF7(w: bv32)
    ensures (OpcBits(w) == 0x13 && F3Bits(w) != 1) || OpcBits(w) == 0x1B ==> Cleared(w) == w
    ensures OpcBits(w) == 0x33 || OpcBits(w) == 0x3B ==>
      F7Bits(Cleared(w)) == if F7Bits(w) == 0x20 && (F3Bits(w) == 0 || F3Bits(w) == 5) then 0x20 else 0
    ensures Unread(w) == 0 ==> Cleared(w) == w
  {
  }

  /** What the decoder reads apart from opcode, funct3 and funct7. */
  lemma {:induction false} ClearedOperands(w: bv32)
    ensures OpcBits(w) == 0x67 || OpcBits(w) == 0x13 || OpcBits(w) == 0x33 || OpcBits(w) == 0x3B ==>
      RdBits(Cleared(w)) == RdBits(w) && Rs1Bits(Cleared(w)) == Rs1Bits(w)
    ensures OpcBits(w) == 0x33 || OpcBits(w) == 0x3B ==> Rs2Bits(Cleared(w)) == Rs2Bits(w)
    ensures OpcBits(w) == 0x67 ==> ImmI(Cleared(w)) == ImmI(w)
    ensures OpcBits(w) == 0x13 && F3Bits(w) == 1 ==> GetBits(Cleared(w), 25, 20) == GetBits(w, 25, 20)
  {
  }

  lemma {:induction false} ClearedFunct7(w: bv32)
    requires OpcBits(w) == 0x33 || OpcBits(w) == 0x3B
    ensures DecodeWord(Cleared(w)) == DecodeWord(w)
  {
    hide GetBits, ImmI, ImmS, ImmB, ImmJ, ImmU, OpcBits, F3Bits, F7Bits, RdBits, Rs1Bits, Rs2Bits, Cleared;
    hide DecodeBranch, DecodeLoad, DecodeStore, DecodeOpImm, DecodeOpImm32, DecodeSystem;
    ClearedFields(w);
    ClearedF7(w);
    ClearedOperands(w);
    FieldNumbers(w);
    FieldNumbers(Cleared(w));
  }

  lemma {:induction false} ClearedJalr(w: bv32)
    requires OpcBits(w) == 0x67
    ensures DecodeWord(Cleared(w)) == DecodeWord(w)
  {
    hide DecodeWord, ImmI, OpcBits, F3Bits, RdBits, Rs1Bits, Cleared;
    ClearedFields(w);
    ClearedOperands(w);
    DecodeControl(w, JALR);
    DecodeControl(Cleared(w), JALR);
  }

  lemma {:induction false} ClearedSystem(w: bv32)
    requires OpcBits(w) == 0x73
    ensures DecodeWord(Cleared(w)) == DecodeWord(w)
  {
    hide GetBits, ImmI, ImmS, ImmB, ImmJ, ImmU, OpcBits, F3Bits, F7Bits, RdBits, Rs1Bits, Rs2Bits, Cleared;
    hide DecodeBranch, DecodeLoad, DecodeStore, DecodeOp, DecodeOpImm32, DecodeOp32, DecodeOpImm;
    ClearedFields(w);
    FieldNumbers(w);
    FieldNumbers(Cleared(w));
  }

  lemma {:induction false} ClearedSlli(w: bv32)
    requires OpcBits(w) == 0x13 && F3Bits(w) == 1
    ensures DecodeWord(Cleared(w)) == DecodeWord(w)
  {
    hide DecodeWord, GetBits, OpcBits, F3Bits, RdBits, Rs1Bits, Cleared;
    ClearedFields(w);
    ClearedOperands(w);
    FieldNumbers(w);
    FieldNumbers(Cleared(w));
    DecodeShift(w, SLLI);
    DecodeShift(Cleared(w), SLLI);
  }

  lemma {:induction false} ClearedFence(w: bv32)
    requires OpcBits(w) == 0x0F
    ensures DecodeWord(Cleared(w)) == DecodeWord(w)
  {
    hide DecodeWord, OpcBits, F3Bits, Cleared;
    ClearedFields(w);
    F7Numbers(w);
    F7Numbers(Cleared(w));
    FenceIsFence(w);
    FenceIsFence(Cleared(w));
  }

  lemma {:induction false} NothingUnread(w: bv32)
    requires OpcBits(w) != 0x67 && OpcBits(w) != 0x0F && OpcBits(w) != 0x73 && OpcBits(w) != 0x33 && OpcBits(w) != 0x3B
    requires OpcBits(w) != 0x13 || F3Bits(w) != 1
    ensures Cleared(w) == w
  {
    hide OpcBits, F3Bits, F7Bits;
  }

  /** Clearing the unread bits changes nothing in the decoder's answer and makes every field legal. */
  lemma {:induction false} ClearedDecodes(w: bv32)
    ensures DecodeWord(Cleared(w)) == DecodeWord(w)
    ensures LegalFields(Cleared(w))
  {
    hide DecodeWord, LegalFields, OpcBits, F3Bits, F7Bits, Cleared;
    ClearedIsLegal(w);
    if OpcBits(w) == 0x33 || OpcBits(w) == 0x3B {
      ClearedFunct7(w);
    } else if OpcBits(w) == 0x67 {
      ClearedJalr(w);
    } else if OpcBits(w) == 0x0F {
      ClearedFence(w);
    } else if OpcBits(w) == 0x73 {
      ClearedSystem(w);
    } else if OpcBits(w) == 0x13 && F3Bits(w) == 1 {
      ClearedSlli(w);
    } else {
      NothingUnread(w);
    }
  }

  lemma {:induction false} ClearedIsLegal(w: bv32)
    ensures LegalFields(Cleared(w))
  {
    hide GetBits, OpcBits, F3Bits, F7Bits, RdBits, Rs1Bits, Cleared;
    ClearedFields(w);
    ClearedF7(w);
    FieldNumbers(w);
    FieldNumbers(Cleared(w));
  }

  lemma {:induction false} FieldNumbers(w: bv32)
    ensures Opc(w) == OpcBits(w) as int && Funct3(w) == F3Bits(w) as int && Funct7(w) == F7Bits(w) as int
    ensures Rd(w) == RdBits(w) as int && Rs1(w) == Rs1Bits(w) as int && Rs2(w) == Rs2Bits(w) as int
  {
  }

  /** A word is accepted if and only if, its unread bits cleared, it is an encoding of the manual
      other than a right shift by more than 31; and it is then read as the instruction that the manual
      gives the cleared word. */
  lemma {:induction false} AcceptedWhenCleared(w: bv32)
    ensures DecodeWord(w).Ok? <==> IsManual(Cleared(w)) && !LongShiftWord(Cleared(w))
    ensures DecodeWord(w).Ok? ==> ManualWord(DecodeWord(w).opcode, DecodeWord(w).operands, Cleared(w))
  {
    hide DecodeWord, LegalFields, IsManual, LongShiftWord, Cleared, ManualWord;
    ClearedDecodes(w);
    AcceptedExactly(Cleared(w));
  }

  /** Exactly when and why a fetch fails. */
  lemma {:induction false} FailureIsExact(code: Code, pc: Word)
    ensures Decode(code, pc) == Failure(MisalignedPC) <==> pc % 4 != 0
    ensures Decode(code, pc) == Failure(OOBRead) <==> pc % 4 == 0 && pc !in code
    ensures Decode(code, pc) == Failure(InvalidOpcode) <==>
      pc % 4 == 0 && pc in code && (LongShiftWord(Cleared(code[pc])) || !IsManual(Cleared(code[pc])))
  {
    hide DecodeWord, IsManual, LongShiftWord, Cleared;
    if pc in code {
      AcceptedWhenCleared(code[pc]);
    }
  }
}
