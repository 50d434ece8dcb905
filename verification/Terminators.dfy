/** How a block ends, told by the bits of its last word alone. */
module Terminators {
  import opened Words
  import opened Riscv
  import opened Decoder
  import opened Reference
  import opened Cfg
  import opened CfgTheorems
  import Emitter
  import A = AArch64
  import BlockTheorems
  import opened Labels
  import Lifter
  import ISel

  // ---------- Words ----------

  /** JALR x0, 0(x1), whatever its funct3. */
  predicate IsRetWord(w: bv32) {
    w & 0xFFFF_8FFF == 0x0000_8067
  }

  predicate IsJumpWord(w: bv32) {
    w & 0x7F == 0x67 && !IsRetWord(w)
  }

  /** ECALL or EBREAK, whatever its rd and rs1. */
  predicate IsTrapWord(w: bv32) {
    w & 0xFFF0_707F == 0x0000_0073 || w & 0xFFF0_707F == 0x0010_0073
  }

  lemma {:induction false} RetFields(w: bv32)
    requires w & 0x7F == 0x67
    ensures IsRetWord(w) <==> RdBits(w) == 0 && Rs1Bits(w) == 1 && ImmI(w) == 0
  {
  }

  lemma {:induction false} TrapFields(w: bv32)
    requires w & 0x7F == 0x73
    ensures IsTrapWord(w) <==> F3Bits(w) == 0 && (GetBits(w, 31, 20) == 0 || GetBits(w, 31, 20) == 1)
  {
  }

  lemma {:induction false} OtherWords(w: bv32)
    ensures IsRetWord(w) ==> w & 0x7F == 0x67
    ensures IsTrapWord(w) ==> w & 0x7F == 0x73
  {
  }

  lemma {:induction false} OpcodeNumber(w: bv32)
    ensures Opc(w) == 0x67 <==> w & 0x7F == 0x67
    ensures Opc(w) == 0x63 <==> w & 0x7F == 0x63
    ensures Opc(w) == 0x6F <==> w & 0x7F == 0x6F
    ensures Opc(w) == 0x73 <==> w & 0x7F == 0x73
  {
    OpcodeBits(w);
    assert Opc(w) == OpcBits(w) as int;
    assert (0x67 as bv7) as int == 0x67 && (0x63 as bv7) as int == 0x63;
    assert (0x6F as bv7) as int == 0x6F && (0x73 as bv7) as int == 0x73;
  }

  lemma {:induction false} OpcodeBits(w: bv32)
    ensures OpcBits(w) == 0x67 <==> w & 0x7F == 0x67
    ensures OpcBits(w) == 0x63 <==> w & 0x7F == 0x63
    ensures OpcBits(w) == 0x6F <==> w & 0x7F == 0x6F
    ensures OpcBits(w) == 0x73 <==> w & 0x7F == 0x73
  {
  }

  // ---------- Instructions ----------

  /** How an instruction with this word ends a block; NoTerm when the walk goes on. */
  function TermOfWord(w: bv32): TermKind {
    if w & 0x7F == 0x63 then CondBranch
    else if w & 0x7F == 0x6F then Jump
    else if IsRetWord(w) then Return
    else if IsJumpWord(w) then IndirectJump
    else if IsTrapWord(w) then TermKind.Trap
    else TermKind.NoTerm
  }

  lemma {:induction false} JalrByWord(w: bv32, pc: Word)
    requires w & 0x7F == 0x67
    ensures DecodeWord(w).Ok? && DecodeWord(w).opcode.JALR?
    ensures EndAfter(DecodedInst(pc, JALR, DecodeWord(w).operands)) == if IsRetWord(w) then Return else IndirectJump
  {
    hide ImmI, ImmS, ImmB, ImmJ, ImmU, Rd, Rs1, Rs2, GetBits, Funct3, Funct7, IsRetWord, RdBits, Rs1Bits;
    OpcodeNumber(w);
    RetFields(w);
    RegNumbers(w);
  }

  lemma {:induction false} RegNumbers(w: bv32)
    ensures (Rd(w) == 0 <==> RdBits(w) == 0) && (Rs1(w) == 1 <==> Rs1Bits(w) == 1)
    ensures Funct3(w) == 0 <==> F3Bits(w) == 0
  {
    hide RdBits, Rs1Bits, F3Bits;
  }

  lemma {:induction false} SystemByWord(w: bv32)
    requires w & 0x7F == 0x73
    ensures DecodeWord(w).Ok? <==> IsTrapWord(w)
    ensures IsTrapWord(w) ==> DecodeWord(w).opcode.ECALL? || DecodeWord(w).opcode.EBREAK?
  {
    hide ImmI, ImmS, ImmB, ImmJ, ImmU, Rd, Rs1, Rs2, GetBits, Funct3, Funct7, IsTrapWord, F3Bits;
    OpcodeNumber(w);
    TrapFields(w);
    RegNumbers(w);
  }

  lemma {:induction false} PlainByWord(w: bv32)
    requires DecodeWord(w).Ok?
    ensures var op := DecodeWord(w).opcode;
            && (IsCondBranch(op) <==> w & 0x7F == 0x63)
            && (op.JAL? <==> w & 0x7F == 0x6F)
            && (op.JALR? <==> w & 0x7F == 0x67)
            && (op.ECALL? || op.EBREAK? <==> w & 0x7F == 0x73)
  {
    hide ImmI, ImmS, ImmB, ImmJ, ImmU, Rd, Rs1, Rs2, GetBits, Funct3, Funct7;
    OpcodeNumber(w);
  }

  /** A decoded instruction ends a block as its word tells. */
  lemma {:induction false} EndByWord(w: bv32, pc: Word)
    requires DecodeWord(w).Ok?
    ensures EndAfter(DecodedInst(pc, DecodeWord(w).opcode, DecodeWord(w).operands)) == TermOfWord(w)
  {
    hide DecodeWord, IsRetWord, IsTrapWord;
    OtherWords(w);
    PlainByWord(w);
    if w & 0x7F == 0x67 { JalrByWord(w, pc); }
    if w & 0x7F == 0x73 { SystemByWord(w); }
  }

  /** So does the reference machine stop, or go on. */
  lemma {:induction false} ExecuteByWord(code: Code, pc: Word, g: Guest)
    requires Decode(code, pc).Success?
    ensures pc in code && Decode(code, pc).inst.pc == pc
    ensures
      var w, next := code[pc], Step(code, Running(pc, g));
      && next.g == (if IsTrapWord(w) then g else Exec(Decode(code, pc).inst, g))
      && (next == Stopped(ReturnStop, next.g) <==> IsRetWord(w))
      && (next == Stopped(IndirectStop, next.g) <==> IsJumpWord(w))
      && (next == Stopped(TrapStop, next.g) <==> IsTrapWord(w))
  {
    hide DecodeWord, Exec, IsRetWord, IsTrapWord, NextPc;
    DecodedInCode(code, pc);
    var w := code[pc];
    OtherWords(w);
    PlainByWord(w);
    EndByWord(w, pc);
  }

  // ---------- Blocks ----------

  function WordAt(code: Code, a: Word): bv32 {
    if a in code then code[a] else 0
  }

  /** How a block ends, by the words it was walked over: no word before the last ends a block, the last
      one does so as TermOfWord says, and where it does not the walk met a leader or bad code. */
  lemma {:induction false} BlockByWords(code: Code, stops: seq<Word>, bb: BasicBlock)
    requires Walks(code, stops, bb)
    ensures forall i :: 0 <= i < |bb.insts| - 1 ==> TermOfWord(WordAt(code, PcAt(bb.start, i))) == TermKind.NoTerm
    ensures
      var n, next := |bb.insts|, PcAt(bb.start, |bb.insts|);
      bb.term ==
        if n > 0 && TermOfWord(WordAt(code, PcAt(bb.start, n - 1))) != TermKind.NoTerm
        then TermOfWord(WordAt(code, PcAt(bb.start, n - 1)))
        else if n > 0 && next != bb.start && next in stops then Fallthrough
        else TermKind.Trap
  {
    hide DecodeWord, PcAt, EndAfter, SuccsAfter, TermOfWord;
    forall i | 0 <= i < |bb.insts|
      ensures EndAfter(bb.insts[i]) == TermOfWord(WordAt(code, PcAt(bb.start, i)))
    {
      assert Decode(code, PcAt(bb.start, i)) == Success(bb.insts[i]);
      DecodedInCode(code, PcAt(bb.start, i));
      EndByWord(code[PcAt(bb.start, i)], PcAt(bb.start, i));
    }
  }

  // ---------- Emitted lines ----------

  predicate IsExitLine(line: Emitter.Line) {
    line.RetLine? || line.Brk? || line.Bl? || line.Jmp? || line.BNe?
  }

  lemma {:induction false} BodyIsOps(instrs: seq<A.Instr>, asg: Emitter.Assignment)
    ensures forall k :: 0 <= k < |Emitter.Body(instrs, asg)| ==> Emitter.Body(instrs, asg)[k].Op?
    decreases |instrs|
  {
    hide Emitter.MapInstr;
    if instrs != [] { BodyIsOps(instrs[1..], asg); }
  }

  function EndLine(bb: BasicBlock): Emitter.Line
    requires bb.term.Return? || bb.term.Trap? || bb.term.IndirectJump? || bb.succs != []
  {
    match bb.term
    case Return => Emitter.RetLine
    case Trap => Emitter.Brk
    case IndirectJump => Emitter.Bl("_riscy_indirect_jump")
    case _ => Emitter.Jmp(Label(bb.succs[|bb.succs| - 1]))
  }

  /** The emitted lines of a block leave it only at their end: by RET, by BRK, by a call of the
      dispatcher or by a jump to the last successor, after a branch to the first when there are two. */
  lemma {:induction false} LinesEnd(code: Decoder.Code, stops: seq<Word>, bb: BasicBlock, asg: Emitter.Assignment)
    requires Walks(code, stops, bb)
    ensures
      var lines := Emitter.BlockLines(BlockTheorems.VBlock(bb), asg);
      var n := |lines| - 1;
      && bb.term != TermKind.NoTerm
      && (bb.term.Jump? || bb.term.Fallthrough? ==> |bb.succs| == 1) && (bb.term.CondBranch? ==> |bb.succs| == 2)
      && n >= 0 && lines[n] == EndLine(bb)
      && (forall k :: 0 <= k < n ==> (IsExitLine(lines[k]) <==> bb.term.CondBranch? && k == n - 1))
      && (bb.term.CondBranch? ==> n > 1 && lines[n - 1] == Emitter.BNe(Label(bb.succs[0])) && lines[n - 2].CmpZero?)
  {
    hide Decode, PcAt, EndAfter, SuccsAfter, Label, BlockTheorems.VBlock, Bits, Add, Emitter.BlockLines,
         Emitter.TermLines, EndLine;
    SuccessorsMean(code, stops, bb);
    var b := BlockTheorems.VBlock(bb);
    TermLinesAre(bb, asg);
    LinesAre(b, asg);
  }

  lemma {:induction false} LinesAre(b: A.Block, asg: Emitter.Assignment)
    ensures
      var lines, t := Emitter.BlockLines(b, asg), Emitter.TermLines(b.term, asg);
      && |lines| >= 1 + |t|
      && (forall k :: 0 <= k < |lines| - |t| ==> lines[k].Op?)
      && (forall k :: |lines| - |t| <= k < |lines| ==> lines[k] == t[k - (|lines| - |t|)])
  {
    hide Emitter.TermLines, Emitter.Body;
    BodyIsOps(b.instrs, asg);
  }

  lemma {:induction false} TermLinesAre(bb: BasicBlock, asg: Emitter.Assignment)
    requires bb.term != TermKind.NoTerm && (bb.term.Jump? || bb.term.Fallthrough? ==> |bb.succs| == 1)
    requires bb.term.CondBranch? ==> |bb.succs| == 2
    ensures
      var t := Emitter.TermLines(BlockTheorems.VBlock(bb).term, asg);
      && (if bb.term.CondBranch? then |t| == 3 else if bb.term.IndirectJump? then |t| == 2 else |t| == 1)
      && t[|t| - 1] == EndLine(bb)
      && (bb.term.IndirectJump? ==> t[0].Op?)
      && (bb.term.CondBranch? ==> t[0].CmpZero? && t[1] == Emitter.BNe(Label(bb.succs[0])))
  {
    hide Label, Lifter.LiftAll, Lifter.LastICmp, ISel.SelectAll, Emitter.MapReg;
  }

  /** The lines of a block end in RET, or in a call of the dispatcher, exactly when its last word is such
      a word; and in BRK exactly when that is a trap word or the block ran into bad code. */
  lemma {:induction false} LinesByWords(code: Decoder.Code, stops: seq<Word>, bb: BasicBlock, asg: Emitter.Assignment)
    requires Walks(code, stops, bb)
    ensures
      var lines := Emitter.BlockLines(BlockTheorems.VBlock(bb), asg);
      lines != [] && var last := lines[|lines| - 1];
      && (bb.insts != [] ==>
            var w := WordAt(code, PcAt(bb.start, |bb.insts| - 1));
            && (last.RetLine? <==> IsRetWord(w))
            && (last.Bl? <==> IsJumpWord(w))
            && (last.Brk? <==> IsTrapWord(w) || (TermOfWord(w) == TermKind.NoTerm && bb.succs == [])))
      && (bb.insts == [] ==> last.Brk? && Decode(code, bb.start).Failure?)
  {
    hide Decode, PcAt, EndAfter, SuccsAfter, Emitter.BlockLines, BlockTheorems.VBlock, Label, IsRetWord, IsTrapWord;
    BlockByWords(code, stops, bb);
    LinesEnd(code, stops, bb, asg);
    SuccessorsMean(code, stops, bb);
    if bb.insts == [] {
      StartOf(bb.start);
    } else {
      OtherWords(WordAt(code, PcAt(bb.start, |bb.insts| - 1)));
    }
  }

  lemma {:induction false} StartOf(start: Word)
    ensures PcAt(start, 0) == start
  {
  }
}
