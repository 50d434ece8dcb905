/** Indirect jumps with the analysis as written: what arrives in x1 for every order of the
    intervals, and exactly when it is the target in every order. */
module IndirectAsWritten {
  import opened Words
  import R = Riscv
  import Decoder
  import opened Cfg
  import IR
  import A = AArch64
  import Lifter
  import opened LifterTheorems
  import opened LiftBlock
  import opened ISel
  import opened ISelTheorems
  import opened ISelBlock
  import opened Liveness
  import opened RegAlloc
  import opened Emitter
  import opened AllocSim
  import opened SelectedCode
  import opened Sentinel
  import opened Pressure
  import opened BlockTheorems
  import opened Misread
  import opened MisreadCode
  import opened MisreadAlloc
  import opened MisreadTheorems
  import opened MisreadExact
  import opened Indirect
  import opened IndirectOrders
  import Orders

  // ---------- The first operation ----------

  /** An operation whose result nothing reads: it only writes x0 and needs no extension. */
  predicate ResultDead(inst: R.DecodedInst) {
    match inst.operands
    case RegImm(rd, _) => rd == 0
    case RegRegImm(rd, _, _) => rd == 0 && !inst.opcode.ADDIW?
    case RegRegReg(rd, _, _) => rd == 0 && !inst.opcode.ADDW?
    case _ => false
  }

  /** The result of the operation with its second operand in both places. */
  function MisreadResult(inst: R.DecodedInst, g: R.Guest): Word {
    var b := SecondOperand(inst, g);
    if inst.operands.RegImm? then Add(b, b) else R.BinaryResult(inst.opcode, b, b)
  }

  /** Two leaves and a binary operation on them; its result is read again unless it is dead. */
  ghost predicate OperationFirst(c: seq<IR.Instr>, inst: R.DecodedInst, start: Word, g: R.Guest) {
    && |c| >= 3
    && c[0] == Lifter.Def(0, c[0].payload) && IsLeaf(c[0].payload)
    && c[1] == Lifter.Def(1, c[1].payload) && IsLeaf(c[1].payload)
    && Leaf(c[1].payload, start, g) == SecondOperand(inst, g)
    && c[2].payload.BinOp? && c[2] == Lifter.Def(2, IR.BinOp(c[2].payload.kind, 0, 1, IR.I64))
  }

  /** An instruction that reads value 2 and is selected to one instruction. */
  predicate ReadsThird(i: IR.Instr) {
    match i.payload
    case WriteReg(_, v) => v == 2
    case Trunc(src, _) => src == 2 && i.dest.Some?
    case BinOp(_, lhs, _, _) => lhs == 2 && i.dest.Some?
    case _ => false
  }

  lemma {:induction false} BinopFirst(op: R.Opcode, p: IR.Payload, q: IR.Payload, rd: R.RegIndex)
    requires HasLowering(op) && IsLeaf(p) && IsLeaf(q)
    ensures
      var c := Lifter.Binop(op, p, q, rd, 0);
      && |c| >= 3 && c[0] == Lifter.Def(0, p) && c[1] == Lifter.Def(1, q)
      && c[2].payload.BinOp? && c[2] == Lifter.Def(2, IR.BinOp(c[2].payload.kind, 0, 1, IR.I64))
      && (if rd == 0 && !op.ADDIW? && !op.ADDW? then |c| == 3 else |c| > 3 && ReadsThird(c[3]))
      && (Lifter.KindOf(op).Some? ==> c[2].payload.kind == Lifter.KindOf(op).value)
  {
    hide Lifter.KindOf;
    WordOps(op);
  }

  lemma {:induction false} WordOps(op: R.Opcode)
    ensures HasLowering(op) && !op.ADDIW? && !op.ADDW? ==> Lifter.KindOf(op).Some?
    ensures op.ADDIW? || op.ADDW? ==> Lifter.KindOf(op).None?
  {
  }

  lemma {:induction false} OperationExpansion(inst: R.DecodedInst, start: Word, g: R.Guest)
    requires R.WellFormed(inst) && TwoOperands(inst) && !inst.operands.Branch? && R.ZeroX0(g)
    ensures
      var c := Lifter.LiftInst(inst, 0);
      var b := SecondOperand(inst, g);
      && OperationFirst(c, inst, start, g)
      && (if ResultDead(inst) then |c| == 3 && IR.Binary(c[2].payload.kind, b, b) == MisreadResult(inst, g)
          else exists i :: 3 <= i < |c| && ReadsThird(c[i]))
  {
    hide Lifter.KindOf, Lifter.Binop, R.BinaryResult, R.Bits, Add, IR.Binary, R.WellFormed, HasLowering;
    var c := Lifter.LiftInst(inst, 0);
    var b := SecondOperand(inst, g);
    match inst.operands
    case RegRegImm(rd, rs1, imm) =>
      ImmediateWordOp(inst);
      BinopFirst(inst.opcode, IR.ReadReg(rs1), IR.Const(IR.I64, R.Bits(imm)), rd);
      WordOps(inst.opcode);
      KindAgrees(inst.opcode, b, b);
    case RegRegReg(rd, rs1, rs2) =>
      ImmediateWordOp(inst);
      BinopFirst(inst.opcode, IR.ReadReg(rs1), IR.ReadReg(rs2), rd);
      WordOps(inst.opcode);
      KindAgrees(inst.opcode, b, b);
    case RegImm(_, _) => AuipcOperation(inst, start, g);
    case _ => JalrOperation(inst, start, g);
  }

  lemma {:induction false} ImmediateWordOp(inst: R.DecodedInst)
    requires R.WellFormed(inst)
    ensures inst.operands.RegRegImm? ==> !inst.opcode.ADDW?
    ensures inst.operands.RegRegReg? ==> !inst.opcode.ADDIW?
  {
    hide R.SignedBelow;
  }

  lemma {:induction false} AuipcOperation(inst: R.DecodedInst, start: Word, g: R.Guest)
    requires inst.operands.RegImm? && inst.opcode.AUIPC?
    ensures
      var c := Lifter.LiftInst(inst, 0);
      var b := SecondOperand(inst, g);
      && OperationFirst(c, inst, start, g)
      && (if ResultDead(inst) then |c| == 3 && IR.Binary(c[2].payload.kind, b, b) == MisreadResult(inst, g)
          else |c| > 3 && ReadsThird(c[3]))
  {
    hide R.Bits, Add;
  }

  lemma {:induction false} JalrOperation(inst: R.DecodedInst, start: Word, g: R.Guest)
    requires inst.operands.RegMem? && inst.opcode.JALR?
    ensures
      var c := Lifter.LiftInst(inst, 0);
      OperationFirst(c, inst, start, g) && |c| > 4 && ReadsThird(c[4])
  {
    hide R.Bits, Add;
  }

  // ---------- When the result is dead ----------

  lemma {:induction false} CodeGrows(insts: seq<IR.Instr>, start: Word, size: nat, i: nat, j: nat)
    requires i <= j <= |insts|
    ensures SelectAll(insts[..i], start, size).code <= SelectAll(insts[..j], start, size).code
  {
    hide SelectAll;
    SelectAppend(insts[..i], insts[i..j], start, size);
    assert insts[..j] == insts[..i] + insts[i..j];
  }

  lemma {:induction false} ReaderTouches(i: IR.Instr, start: Word, size: nat)
    requires ReadsThird(i)
    ensures |SelectInst(i, start, size).code| == 1 && 3 in T(SelectInst(i, start, size).code[0])
  {
    hide AluOf;
    var c := SelectInst(i, start, size).code[0];
    if i.payload.WriteReg? { TouchTwo(A.RegOp(A.V(3)), A.MemOp(A.V(0))); }
    else if i.payload.Trunc? { TouchTwo(A.RegOp(c.d), A.RegOp(A.V(3))); }
    else { TouchThree(A.RegOp(c.d), A.RegOp(A.V(3)), A.RegOp(c.b)); }
  }

  /** Where an instruction that reads value 2 stands in the code, its register is touched. */
  lemma {:induction false} ThirdIsTouched(insts: seq<IR.Instr>, start: Word, i: nat) returns (k: nat)
    requires i < |insts| && ReadsThird(insts[i])
    ensures k == |SelectAll(insts[..i], start, |insts| + 1).code|
    ensures k < |CodeOf(insts, start)| && 3 in T(CodeOf(insts, start)[k])
  {
    hide SelectAll, SelectInst, T, ReadsThird;
    var size := |insts| + 1;
    var p := SelectAll(insts[..i], start, size);
    k := |p.code|;
    ReaderTouches(insts[i], start, p.size);
    SelectAppend(insts[..i], [insts[i]], start, size);
    SelectOneInst(insts[i], start, p.size);
    assert insts[..i + 1] == insts[..i] + [insts[i]];
    CodeGrows(insts, start, size, i + 1, |insts|);
    assert insts[..|insts|] == insts;
  }

  /** After a dead result its register is not touched. */
  lemma {:induction false} DeadUntouched(insts: seq<IR.Instr>, start: Word, k: nat)
    requires IR.Ssa(insts) && |insts| >= 3
    requires forall i :: 3 <= i < |insts| ==> forall v :: v in IR.Operands(insts[i].payload) ==> 3 <= v
    requires |SelectAll(insts[..3], start, |insts| + 1).code| <= k < |CodeOf(insts, start)|
    ensures 3 !in T(CodeOf(insts, start)[k])
  {
    hide IR.Ssa, SelectAll, T, IR.Operands, IR.Produces, PieceAt;
    var size := |insts| + 1;
    if 3 in T(CodeOf(insts, start)[k]) {
      PositionInFootprint(insts, start, size, k, 3);
      var j := PieceAt(insts, start, size, k);
      WholeOfThree(insts);
      PieceFrom(insts, start, size, 3, k);
      SizeIsAbove(insts, start, size, j);
      FootprintParts(insts[j], j, SizeAt(insts, start, size, j), 3);
      assert false;
    }
  }

  // ---------- The block ----------

  /** The block ends in an indirect jump with a link register, and begins with an operation. */
  ghost predicate LinkedOperation(code: Decoder.Code, stops: seq<Word>, bb: BasicBlock) {
    && EndsIndirect(bb) && bb.insts[|bb.insts| - 1].operands.rd != 0
    && Walks(code, stops, bb) && ReadsTwoFirst(bb)
  }

  function First(bb: BasicBlock): R.DecodedInst
    requires FirstLifted(bb.insts) < |bb.insts|
  {
    bb.insts[FirstLifted(bb.insts)]
  }

  lemma {:induction false} FirstIsNoBranch(code: Decoder.Code, stops: seq<Word>, bb: BasicBlock)
    requires Walks(code, stops, bb) && ReadsTwoFirst(bb) && bb.term == IndirectJump
    ensures TwoOperands(First(bb)) && !First(bb).operands.Branch? && R.WellFormed(First(bb))
  {
    hide Walks, FirstLifted, TwoOperands, R.WellFormed;
    WalksAreWellFormed(code, stops, bb);
    OnlyLastBranches(code, stops, bb, FirstLifted(bb.insts));
  }

  lemma {:induction false} LeadingOperation(code: Decoder.Code, stops: seq<Word>, bb: BasicBlock, g: R.Guest)
    requires LinkedOperation(code, stops, bb) && R.ZeroX0(g)
    ensures OperationFirst(IrOf(bb), First(bb), bb.start, g)
    ensures ResultDead(First(bb)) ==>
      var b := SecondOperand(First(bb), g);
      IR.Binary(IrOf(bb)[2].payload.kind, b, b) == MisreadResult(First(bb), g)
    ensures !ResultDead(First(bb)) ==> exists i :: 3 <= i < |IrOf(bb)| && ReadsThird(IrOf(bb)[i])
  {
    hide Walks, FirstLifted, TwoOperands, R.WellFormed, Lifter.LiftInst, Lifter.LiftAll, ReadsThird, IsLeaf, Leaf,
         IR.Binary, MisreadResult, SecondOperand, ResultDead, R.ZeroX0;
    FirstIsNoBranch(code, stops, bb);
    OperationExpansion(First(bb), bb.start, g);
    FirstExpansionLeads(bb.insts);
    var c := Lifter.LiftInst(First(bb), 0);
    assert forall i :: 0 <= i < |c| ==> c[i] == IrOf(bb)[i];
  }

  lemma {:induction false} LinkedIsDispatched(code: Decoder.Code, stops: seq<Word>, bb: BasicBlock)
    requires LinkedOperation(code, stops, bb)
    ensures |IrOf(bb)| >= 3 && FirstDispatched(VBlock(bb), OpAt(IrOf(bb), bb.start))
    ensures IR.Ssa(IrOf(bb)) && TwoValueHead(IrOf(bb)) && VBlock(bb).instrs == CodeOf(IrOf(bb), bb.start)
    ensures |SelectAll(IrOf(bb)[..3], bb.start, |IrOf(bb)| + 1).code| == OpAt(IrOf(bb), bb.start) + 1
  {
    hide Walks, FirstLifted, TwoOperands, R.WellFormed, Lifter.LiftInst, Lifter.LiftAll, IR.Ssa, TwoValueHead,
         CodeOf, OpAt, SelectAll, HeadedBlock, OperationCode, Reread, T, Twisted, OperationFirst, ReadsThird,
         HeadTouches;
    HeadOfBlock(bb);
    HeadedIs(code, stops, bb);
    HeadIsTouched(IrOf(bb), bb.start);
    NoRegs();
    LeadingOperation(code, stops, bb, R.Guest(map[], map[]));
    OperationIsBinary(IrOf(bb), First(bb), bb.start, R.Guest(map[], map[]));
    SIsPositive(VBlock(bb), OpAt(IrOf(bb), bb.start));
    LinkedTerminator(code, stops, bb);
  }

  lemma {:induction false} NoRegs()
    ensures R.ZeroX0(R.Guest(map[], map[]))
  {
  }

  lemma {:induction false} OperationIsBinary(c: seq<IR.Instr>, inst: R.DecodedInst, start: Word, g: R.Guest)
    requires OperationFirst(c, inst, start, g)
    ensures |c| >= 3 && c[2].payload.BinOp?
  {
  }

  lemma {:induction false} LinkedTerminator(code: Decoder.Code, stops: seq<Word>, bb: BasicBlock)
    requires LinkedOperation(code, stops, bb)
    ensures VBlock(bb).term == A.BrIndirect(1)
  {
    hide Walks, FirstLifted, TwoOperands, Lifter.LiftInst, SelectAll, R.WellFormed;
    var n := |bb.insts| - 1;
    JalrExpansion(bb.insts[n], |Lifter.LiftAll(bb.insts[..n])|);
    LiftedSnoc(bb.insts);
  }

  // ---------- The interval of the result ----------

  lemma {:induction false} DeadExactly(code: Decoder.Code, stops: seq<Word>, bb: BasicBlock)
    requires LinkedOperation(code, stops, bb)
    ensures |IrOf(bb)| >= 3 && 3 in Analyzed(VBlock(bb))
    ensures
      var s := OpAt(IrOf(bb), bb.start);
      Analyzed(VBlock(bb))[3].end >= s && (Analyzed(VBlock(bb))[3].end == s <==> ResultDead(First(bb)))
  {
    hide FirstLifted, Lifter.LiftAll, IR.Ssa, TwoValueHead, CodeOf, OpAt, SelectAll, FirstDispatched, Walks,
         EndsIndirect, TwoOperands, Analyzed, Touched, ResultDead;
    LinkedIsDispatched(code, stops, bb);
    var b, s := VBlock(bb), OpAt(IrOf(bb), bb.start);
    ThreeIntervals(b, s);
    if ResultDead(First(bb)) {
      DeadEnds(code, stops, bb);
    } else {
      LiveLasts(code, stops, bb);
    }
  }

  lemma {:induction false} LiveLasts(code: Decoder.Code, stops: seq<Word>, bb: BasicBlock)
    requires LinkedOperation(code, stops, bb) && !ResultDead(First(bb)) && |IrOf(bb)| >= 3
    ensures 3 in Analyzed(VBlock(bb)) && Analyzed(VBlock(bb))[3].end > OpAt(IrOf(bb), bb.start)
  {
    hide FirstLifted, Lifter.LiftAll, IR.Ssa, TwoValueHead, CodeOf, OpAt, SelectAll, Analyzed, Touched, ResultDead,
         OperationFirst, Walks, EndsIndirect, TwoOperands, ReadsThird, HeadedBlock, OperationCode, T;
    LinkedIsDispatched(code, stops, bb);
    NoRegs();
    LeadingOperation(code, stops, bb, R.Guest(map[], map[]));
    var insts := IrOf(bb);
    var i :| 3 <= i < |insts| && ReadsThird(insts[i]);
    var k := ThirdIsTouched(insts, bb.start, i);
    CodeGrows(insts, bb.start, |insts| + 1, 3, i);
    BodyTouch(VBlock(bb), 3, k);
    HeadIntervals(VBlock(bb), OpAt(insts, bb.start));
    assert Touched(VBlock(bb), 3, k);
  }

  lemma {:induction false} DeadOperands(insts: seq<R.DecodedInst>, k: nat)
    requires FirstLifted(insts) < k <= |insts| && |Lifter.LiftInst(insts[FirstLifted(insts)], 0)| == 3
    ensures
      var c := Lifter.LiftAll(insts[..k]);
      |c| >= 3 && forall i :: 3 <= i < |c| ==> forall v :: v in IR.Operands(c[i].payload) ==> 3 <= v
    decreases k
  {
    hide Lifter.LiftInst, FirstLifted, IR.Operands, IR.Produces;
    var f := FirstLifted(insts);
    assert insts[..k][..k - 1] == insts[..k - 1];
    if k == f + 1 {
      FirstLiftedIsFirst(insts);
      NothingLifted(insts[..f]);
      assert Lifter.LiftAll(insts[..k]) == Lifter.LiftInst(insts[f], 0);
    } else {
      DeadOperands(insts, k - 1);
      var before := Lifter.LiftAll(insts[..k - 1]);
      Lifter.LiftInstIsLocal(insts[k - 1], |before|);
      LaterOperands(before, Lifter.LiftInst(insts[k - 1], |before|));
    }
  }

  lemma {:induction false} LaterOperands(a: seq<IR.Instr>, b: seq<IR.Instr>)
    requires |a| >= 3 && IR.LocalSsa(b, |a|)
    requires forall i :: 3 <= i < |a| ==> forall v :: v in IR.Operands(a[i].payload) ==> 3 <= v
    ensures forall i :: 3 <= i < |a + b| ==> forall v :: v in IR.Operands((a + b)[i].payload) ==> 3 <= v
  {
    hide IR.Operands, IR.Produces;
    forall i, v | 3 <= i < |a + b| && v in IR.Operands((a + b)[i].payload) ensures 3 <= v {
      if i < |a| { assert (a + b)[i] == a[i]; } else { assert (a + b)[i] == b[i - |a|]; }
    }
  }

  lemma {:induction false} DeadEnds(code: Decoder.Code, stops: seq<Word>, bb: BasicBlock)
    requires LinkedOperation(code, stops, bb) && ResultDead(First(bb)) && |IrOf(bb)| >= 3
    ensures 3 in Analyzed(VBlock(bb)) && Analyzed(VBlock(bb))[3].end <= OpAt(IrOf(bb), bb.start)
  {
    hide FirstLifted, Lifter.LiftAll, IR.Ssa, TwoValueHead, CodeOf, OpAt, SelectAll, Analyzed, Touched, R.WellFormed,
         ResultDead, OperationFirst, Walks, EndsIndirect, TwoOperands, ReadsThird, HeadedBlock, OperationCode, T,
         Lifter.LiftInst, IR.Operands;
    LinkedIsDispatched(code, stops, bb);
    NoRegs();
    FirstIsNoBranch(code, stops, bb);
    OperationExpansion(First(bb), bb.start, R.Guest(map[], map[]));
    assert bb.insts[..|bb.insts|] == bb.insts;
    DeadOperands(bb.insts, |bb.insts|);
    var b, s := VBlock(bb), OpAt(IrOf(bb), bb.start);
    ThreeIntervals(b, s);
    AnalyzeIsExact(b, 3);
    var e := Analyzed(b)[3].end;
    assert Touched(b, 3, e);
    BodyTouch(b, 3, e);
    if s < e < |b.instrs| {
      DeadUntouched(IrOf(bb), bb.start, e);
      assert false;
    }
  }

  // ---------- The values ----------

  /** Values 1 and 2 of the twisted IR. */
  lemma {:induction false} TwistedValues(insts: seq<IR.Instr>, inst: R.DecodedInst, start: Word, g: R.Guest)
    requires OperationFirst(insts, inst, start, g) && TwistedRun(insts, start, g).Some?
    ensures
      var env := TwistedRun(insts, start, g).value.env;
      var b := SecondOperand(inst, g);
      && |env| >= 3 && env[1] == IR.Val(IR.I64, b)
      && env[2] == IR.Val(IR.I64, IR.Binary(insts[2].payload.kind, b, b))
  {
    hide IR.Run, Leaf, IR.Binary, SecondOperand, Twisted;
    var p, q, k := insts[0].payload, insts[1].payload, insts[2].payload.kind;
    var a, b := Leaf(p, start, g), Leaf(q, start, g);
    assert insts == [Lifter.Def(0, p), Lifter.Def(1, q), Lifter.Def(2, IR.BinOp(k, 0, 1, IR.I64))] + insts[3..];
    TwistedSteps(k, p, q, insts[3..], start, g);
    var e3 := [IR.Val(IR.I64, a), IR.Val(IR.I64, b), IR.Val(IR.I64, IR.Binary(k, b, b))];
    IR.RunGrows(insts[3..], start, IR.State(e3, g));
  }

  /** Twisted code defines the registers of its results before it uses them. */
  lemma {:induction false} TwistedDefines(code: Decoder.Code, stops: seq<Word>, bb: BasicBlock)
    requires Walks(code, stops, bb) && ReadsTwoFirst(bb)
    ensures |IrOf(bb)| >= 3 && HeadedBlock(VBlock(bb), OpAt(IrOf(bb), bb.start))
    ensures RereadCode(VBlock(bb), OpAt(IrOf(bb), bb.start), CodeOf(Twisted(IrOf(bb)), bb.start))
    ensures ResultsDefined(Twisted(IrOf(bb)), DefinedBy(CodeOf(Twisted(IrOf(bb)), bb.start)))
    ensures 2 in DefinedBy(CodeOf(Twisted(IrOf(bb)), bb.start)) && 3 in DefinedBy(CodeOf(Twisted(IrOf(bb)), bb.start))
  {
    hide FirstLifted, Lifter.LiftAll, IR.Ssa, SelectAll, Walks, TwoOperands, T, Reread, UsesOk, DefinedBy, OpAt,
         OperationCode, IR.Operands, HeadedBlock;
    HeadedIs(code, stops, bb);
    HeadOfBlock(bb);
    var insts := IrOf(bb);
    HeadIsTouched(insts, bb.start);
    SIsPositive(VBlock(bb), OpAt(insts, bb.start));
    TwistedIsSsa(insts);
    SelectIsOk(Twisted(insts), bb.start, |insts| + 1);
    ProducesThree(insts);
    assert IR.Produces(Twisted(insts)[1].payload) && IR.Produces(Twisted(insts)[2].payload);
  }

  lemma {:induction false} ProducesThree(insts: seq<IR.Instr>)
    requires TwoValueHead(insts)
    ensures IR.Produces(Twisted(insts)[1].payload) && IR.Produces(Twisted(insts)[2].payload)
  {
    hide IR.Operands;
  }

  /** A register of twisted code holds the value of the twisted IR. */
  lemma {:induction false} TwistedHolds(code: Decoder.Code, stops: seq<Word>, bb: BasicBlock, g: R.Guest, base: Word,
                                        m: A.Machine, id: nat, w: Word)
    requires Walks(code, stops, bb) && FaithfulBlock(bb) && R.ZeroX0(g) && ReadsTwoFirst(bb) && |IrOf(bb)| >= 3
    requires HostRel(g, base, m)
    requires
      var o := TwistedRun(IrOf(bb), bb.start, g);
      o.Some? ==> id < |o.value.env| && o.value.env[id] == IR.Val(IR.I64, w)
    ensures A.Get(A.Run(CodeOf(Twisted(IrOf(bb)), bb.start), m).regs, A.V(id + 1)) == w
  {
    hide Walks, FaithfulBlock, R.ZeroX0, ReadsTwoFirst, HostRel, Lifter.LiftAll, SelectAll, A.Run, IR.Run, Twisted,
         EnvRel, OffsetsFit, SteppedMisread, IrExit, Lifter.LiftTerm, DefinedBeforeUse, ISel.Selected;
    TwistedIsSound(code, stops, bb);
    TwistedMeansMisread(code, stops, bb, g);
    var insts := Twisted(IrOf(bb));
    TwistedLength(IrOf(bb));
    SelectFollows(insts, bb.start, |insts| + 1, g, base, m);
    ReadsValue(TwistedRun(IrOf(bb), bb.start, g).value.env, A.Run(CodeOf(insts, bb.start), m).regs, id, w);
  }

  lemma {:induction false} TwistedLength(insts: seq<IR.Instr>)
    requires |insts| >= 3
    ensures |Twisted(insts)| == |insts|
  {
    hide LhsIsOne;
  }

  /** What arrives in x1. */
  ghost function Arriving(bb: BasicBlock, v2p: Assignment, g: R.Guest): Word
    requires EndsIndirect(bb)
  {
    var last := bb.insts[|bb.insts| - 1];
    if last.operands.rd == 0 then Add(last.pc, 4)
    else if !ReadsTwoFirst(bb) || !Shared(v2p, 1, 2) then FirstOperand(First(bb), bb.start, g)
    else if Shared(v2p, 1, 3) then MisreadResult(First(bb), g)
    else SecondOperand(First(bb), g)
  }

  predicate Shared(v2p: Assignment, v: nat, w: nat) {
    v in v2p && w in v2p && v2p[v] == v2p[w]
  }

  /** With a link register and an operation first. */
  lemma {:induction false} LinkedArrives(code: Decoder.Code, stops: seq<Word>, bb: BasicBlock, items: seq<Item>,
                                         g: R.Guest, base: Word, m: A.Machine)
    requires LinkedOperation(code, stops, bb) && FaithfulBlock(bb) && R.ZeroX0(g)
    requires IsSorting(Analyzed(VBlock(bb)), items) && HostRel(g, base, m)
    ensures Allocated(items).Assigned?
    ensures
      var b := VBlock(bb);
      var v2p := Allocated(items).v2p;
      var h := RunLines(Body(b.instrs, v2p) + TermLines(b.term, v2p), m);
      && h.exit == Call(DISPATCH) && A.Get(h.m.regs, A.P(1)) == Arriving(bb, v2p, g)
      && (FirstLeads(items) ==> Shared(v2p, 1, 2) && !Shared(v2p, 1, 3))
      && (ThirdLeads(items) && ResultDead(First(bb)) ==> Shared(v2p, 1, 2) && Shared(v2p, 1, 3))
      && (ThirdLeads(items) && !ResultDead(First(bb)) ==> !Shared(v2p, 1, 2))
  {
    hide FirstLifted, Walks, EndsIndirect, TwoOperands, FaithfulBlock, R.ZeroX0, HostRel, RunLines, Body, TermLines,
         Analyzed, IsSorting, ScanAll, VBlock, OpAt, Lifter.LiftAll, FirstDispatched, UsesOk, DefinedBy,
         GoodAssignment, ResultDead, FirstOperand, SecondOperand, MisreadResult, A.Run, RereadCode, CodeOf, Twisted,
         OperationFirst, TwistedRun, IR.Binary, Allocated, ReadsThird, HeadedBlock;
    Allocates(bb, items);
    LinkedIsDispatched(code, stops, bb);
    DeadExactly(code, stops, bb);
    var b, s, v2p := VBlock(bb), OpAt(IrOf(bb), bb.start), Allocated(items).v2p;
    ThreeIntervals(b, s);
    RegistersByOrder(Analyzed(b), s, |b.instrs|, items);
    if v2p[1] != v2p[2] {
      FirstHolds(code, stops, bb, g, base, m);
      FirstArrives(b, s, v2p, m);
    } else {
      ClashArrives(code, stops, bb, v2p, g, base, m);
    }
  }

  lemma {:induction false} ClashArrives(code: Decoder.Code, stops: seq<Word>, bb: BasicBlock, v2p: Assignment,
                                        g: R.Guest, base: Word, m: A.Machine)
    requires LinkedOperation(code, stops, bb) && FaithfulBlock(bb) && R.ZeroX0(g) && HostRel(g, base, m)
    requires GoodAssignment(v2p, Analyzed(VBlock(bb))) && 1 in v2p && 2 in v2p && 3 in v2p && v2p[1] == v2p[2]
    requires v2p[3] == v2p[1] ==> ResultDead(First(bb))
    ensures
      var b := VBlock(bb);
      var h := RunLines(Body(b.instrs, v2p) + TermLines(b.term, v2p), m);
      && h.exit == Call(DISPATCH)
      && A.Get(h.m.regs, A.P(1)) ==
        if v2p[3] == v2p[1] then MisreadResult(First(bb), g) else SecondOperand(First(bb), g)
  {
    hide FirstLifted, Walks, EndsIndirect, TwoOperands, FaithfulBlock, R.ZeroX0, HostRel, RunLines, Body, TermLines,
         Analyzed, VBlock, OpAt, Lifter.LiftAll, FirstDispatched, UsesOk, DefinedBy, GoodAssignment, ResultDead,
         ResultsDefined, SecondOperand, MisreadResult, A.Run, RereadCode, CodeOf, Twisted, OperationFirst,
         TwistedRun, IR.Binary, ReadsThird, HeadedBlock;
    LinkedIsDispatched(code, stops, bb);
    DeadExactly(code, stops, bb);
    var b, s := VBlock(bb), OpAt(IrOf(bb), bb.start);
    TwistedDefines(code, stops, bb);
    LeadingOperation(code, stops, bb, g);
    if TwistedRun(IrOf(bb), bb.start, g).Some? { TwistedValues(IrOf(bb), First(bb), bb.start, g); }
    var twisted := CodeOf(Twisted(IrOf(bb)), bb.start);
    if v2p[3] != v2p[1] {
      TwistedHolds(code, stops, bb, g, base, m, 1, SecondOperand(First(bb), g));
      SecondArrives(b, s, twisted, v2p, m);
    } else {
      TwistedHolds(code, stops, bb, g, base, m, 2, MisreadResult(First(bb), g));
      ThirdArrives(b, s, twisted, v2p, m);
    }
  }

  /** The register the terminator names, at the end of the code. */
  lemma {:induction false} DispatchHolds(code: Decoder.Code, stops: seq<Word>, bb: BasicBlock, g: R.Guest, base: Word,
                                         m: A.Machine)
    requires Walks(code, stops, bb) && bb.term == IndirectJump && FaithfulBlock(bb) && R.ZeroX0(g)
    requires HostRel(g, base, m)
    ensures EndsIndirect(bb) && VBlock(bb).term.BrIndirect?
    ensures
      var b := VBlock(bb);
      && UsesOk(b.instrs, {}) && b.term.target_reg in DefinedBy(b.instrs)
      && A.Get(A.Run(b.instrs, m).regs, A.V(b.term.target_reg)) == Dispatched(bb, g)
  {
    hide FirstLifted, Walks, FaithfulBlock, R.ZeroX0, HostRel, FirstOperand, A.Run, Lifter.LiftAll, SelectAll,
         EnvRel, OffsetsFit, IR.Run, UsesOk, DefinedBy, EndsIndirect, Dispatched;
    DispatchedValue(code, stops, bb, g);
    BlockIsSound(code, stops, bb);
    var b := VBlock(bb);
    assert b.term.target_reg in TouchedByTerm(b.term);
    var ir := Lifter.Lifted(bb);
    SelectFollows(ir.insts, ir.start, |ir.insts| + 1, g, base, m);
    var t := IR.Run(ir.insts, ir.start, IR.Some(IR.State([], g))).value;
    ReadsValue(t.env, A.Run(b.instrs, m).regs, ir.term.value, Dispatched(bb, g));
  }

  lemma {:induction false} FirstHolds(code: Decoder.Code, stops: seq<Word>, bb: BasicBlock, g: R.Guest, base: Word,
                                      m: A.Machine)
    requires LinkedOperation(code, stops, bb) && FaithfulBlock(bb) && R.ZeroX0(g) && HostRel(g, base, m)
    ensures UsesOk(VBlock(bb).instrs, {}) && 1 in DefinedBy(VBlock(bb).instrs)
    ensures A.Get(A.Run(VBlock(bb).instrs, m).regs, A.V(1)) == FirstOperand(First(bb), bb.start, g)
  {
    hide FirstLifted, Walks, TwoOperands, FaithfulBlock, R.ZeroX0, HostRel, FirstOperand, A.Run, Lifter.LiftAll,
         SelectAll, UsesOk, DefinedBy, Lifter.LiftInst, VBlock;
    DispatchHolds(code, stops, bb, g, base, m);
    LinkedTerminator(code, stops, bb);
  }

  // ---------- Without a link register ----------

  ghost predicate UnlinkedOperation(code: Decoder.Code, stops: seq<Word>, bb: BasicBlock) {
    && EndsIndirect(bb) && bb.insts[|bb.insts| - 1].operands.rd == 0
    && Walks(code, stops, bb) && ReadsTwoFirst(bb)
  }

  lemma {:induction false} UnlinkedTerminator(code: Decoder.Code, stops: seq<Word>, bb: BasicBlock)
    requires UnlinkedOperation(code, stops, bb)
    ensures
      var n := |IrOf(bb)|;
      && n > 3 && VBlock(bb).term == A.BrIndirect(n)
      && IrOf(bb)[n - 1] == Lifter.Def(n - 1, IR.Const(IR.I64, Add(bb.insts[|bb.insts| - 1].pc, 4)))
  {
    hide Walks, FirstLifted, TwoOperands, Lifter.LiftInst, SelectAll, R.WellFormed, Add;
    var n := |bb.insts| - 1;
    JalrExpansion(bb.insts[n], |Lifter.LiftAll(bb.insts[..n])|);
    LiftedSnoc(bb.insts);
  }

  lemma {:induction false} LastCovered(b: A.Block, s: nat, v: nat, first: LiveRange)
    requires HeadedBlock(b, s) && b.term == A.BrIndirect(v) && v != 1
    ensures v in Analyzed(b)[1 := first] && Analyzed(b)[1 := first][v].end >= |b.instrs|
  {
    hide Touched, Analyzed, HeadTouches;
    BodyTouch(b, v, |b.instrs|);
    assert v in TouchedByTerm(b.term);
    HeadIntervals(b, s);
  }

  /** Different registers for the first two values. */
  lemma {:induction false} LastArrives(b: A.Block, s: nat, v: nat, v2p: Assignment, m: A.Machine)
    requires HeadedBlock(b, s) && b.term == A.BrIndirect(v) && v != 1 && v in DefinedBy(b.instrs)
    requires UsesOk(b.instrs, {})
    requires GoodAssignment(v2p, Analyzed(b)) && 1 in v2p && 2 in v2p && v2p[1] != v2p[2]
    ensures
      var h := RunLines(Body(b.instrs, v2p) + TermLines(b.term, v2p), m);
      h.exit == Call(DISPATCH) && A.Get(h.m.regs, A.P(1)) == A.Get(A.Run(b.instrs, m).regs, A.V(v))
  {
    hide POOL, UsesOk, A.Run, Body, RunLines, TermLines, CoversAt, DefinedBy, HeadedBlock, Analyzed, T;
    HeadIntervals(b, s);
    var live := Analyzed(b)[1 := LiveRange(0, s)];
    forall j | 0 <= j < |b.instrs| ensures CoversAt(live, b.instrs[j], j) {
      FirstOnlyTwice(b, s, j);
      CoversHead(b, s, LiveRange(0, s), b.instrs, j);
    }
    LastCovered(b, s, v, LiveRange(0, s));
    EmittedDispatches(b.instrs, v, v2p, live, m);
  }

  /** The same register for both. */
  lemma {:induction false} LastArrivesTwisted(b: A.Block, s: nat, code: seq<A.Instr>, v: nat, v2p: Assignment,
                                              m: A.Machine)
    requires HeadedBlock(b, s) && b.term == A.BrIndirect(v) && v != 1 && v in DefinedBy(code) && RereadCode(b, s, code)
    requires GoodAssignment(v2p, Analyzed(b)) && 1 in v2p && 2 in v2p && v2p[1] == v2p[2]
    ensures
      var h := RunLines(Body(b.instrs, v2p) + TermLines(b.term, v2p), m);
      h.exit == Call(DISPATCH) && A.Get(h.m.regs, A.P(1)) == A.Get(A.Run(code, m).regs, A.V(v))
  {
    hide POOL, UsesOk, A.Run, Body, RunLines, TermLines, CoversAt, DefinedBy, HeadedBlock, Analyzed, T, Reread,
         OperationCode;
    HeadIntervals(b, s);
    var live := Analyzed(b)[1 := LiveRange(0, 0)];
    forall j | 0 <= j < |code| ensures CoversAt(live, code[j], j) {
      RereadCovered(b, s, code, j);
    }
    LastCovered(b, s, v, LiveRange(0, 0));
    EmittedDispatches(code, v, v2p, live, m);
    RereadBody(b, s, code, v2p);
  }

  lemma {:induction false} TwistedLast(insts: seq<IR.Instr>, start: Word, g: R.Guest, w: Word)
    requires |insts| > 3 && insts[|insts| - 1] == Lifter.Def(|insts| - 1, IR.Const(IR.I64, w))
    requires TwistedRun(insts, start, g).Some?
    ensures
      var env := TwistedRun(insts, start, g).value.env;
      |env| == |insts| && env[|insts| - 1] == IR.Val(IR.I64, w)
    ensures IR.Produces(Twisted(insts)[|insts| - 1].payload)
  {
    hide IR.Run, LhsIsOne;
    LastConst(Twisted(insts), start, g, w);
  }

  lemma {:induction false} UnlinkedArrives(code: Decoder.Code, stops: seq<Word>, bb: BasicBlock, items: seq<Item>,
                                           g: R.Guest, base: Word, m: A.Machine)
    requires UnlinkedOperation(code, stops, bb) && FaithfulBlock(bb) && R.ZeroX0(g)
    requires IsSorting(Analyzed(VBlock(bb)), items) && HostRel(g, base, m)
    ensures Allocated(items).Assigned?
    ensures
      var b := VBlock(bb);
      var v2p := Allocated(items).v2p;
      var h := RunLines(Body(b.instrs, v2p) + TermLines(b.term, v2p), m);
      h.exit == Call(DISPATCH) && A.Get(h.m.regs, A.P(1)) == Add(bb.insts[|bb.insts| - 1].pc, 4)
  {
    hide FirstLifted, Walks, TwoOperands, FaithfulBlock, R.ZeroX0, HostRel, RunLines, Body, TermLines, Analyzed, Add,
         IsSorting, ScanAll, VBlock, OpAt, Lifter.LiftAll, UsesOk, DefinedBy, GoodAssignment, HeadedBlock, A.Run,
         RereadCode, CodeOf, Twisted, TwistedRun, Allocated, FirstOperand;
    Allocates(bb, items);
    TwistedDefines(code, stops, bb);
    UnlinkedTerminator(code, stops, bb);
    var b, s, v2p, n := VBlock(bb), OpAt(IrOf(bb), bb.start), Allocated(items).v2p, |IrOf(bb)|;
    FirstTwoAssigned(b, s, v2p);
    if v2p[1] != v2p[2] {
      DispatchHolds(code, stops, bb, g, base, m);
      LastArrives(b, s, n, v2p, m);
    } else {
      TwistedMeansMisread(code, stops, bb, g);
      TwistedLength(IrOf(bb));
      TwistedLast(IrOf(bb), bb.start, g, Add(bb.insts[|bb.insts| - 1].pc, 4));
      var twisted := CodeOf(Twisted(IrOf(bb)), bb.start);
      TwistedHolds(code, stops, bb, g, base, m, n - 1, Add(bb.insts[|bb.insts| - 1].pc, 4));
      LastArrivesTwisted(b, s, twisted, n, v2p, m);
    }
  }

  // ---------- For every order ----------

  lemma {:induction false} PrologueThen(b: A.Block, v2p: Assignment, g: R.Guest, base: Word, m: A.Machine)
    requires HostState(g, base, m)
    ensures
      var m1 := A.Exec(PROLOGUE.i, m);
      HostRel(g, base, m1)
      && RunLines(BlockLines(b, v2p), m) == RunLines(Body(b.instrs, v2p) + TermLines(b.term, v2p), m1)
  {
    hide RunLines, Body, TermLines, HostState, HostRel, A.Exec;
    PrologueLoadsBase(g, base, m);
  }

  /** With the analysis as written, for every order of the intervals, every guest with x0 = 0 and
      every host state that shows it: the emitted block calls the dispatcher, and x1 holds the
      address of the next instruction when no link register is written; otherwise the first operand
      of the first lifted instruction, or its second one, or the result of misreading it, according
      to the registers of the first three values. */
  lemma {:induction false} ArrivesAsWritten(code: Decoder.Code, stops: seq<Word>, bb: BasicBlock, items: seq<Item>,
                                            g: R.Guest, base: Word, m: A.Machine)
    requires Walks(code, stops, bb) && FaithfulBlock(bb) && R.ZeroX0(g) && bb.term == IndirectJump
    requires IsSorting(Analyzed(VBlock(bb)), items) && HostState(g, base, m)
    ensures EndsIndirect(bb) && Allocated(items).Assigned?
    ensures
      var v2p := Allocated(items).v2p;
      var h := RunLines(BlockLines(VBlock(bb), v2p), m);
      h.exit == Call(DISPATCH) && A.Get(h.m.regs, A.P(1)) == Arriving(bb, v2p, g)
  {
    hide FirstLifted, Walks, TwoOperands, FaithfulBlock, R.ZeroX0, HostRel, HostState, RunLines, Body, TermLines,
         Analyzed, Add, IsSorting, Allocated, VBlock, FirstOperand, SecondOperand, MisreadResult, A.Exec,
         EndsIndirect, BlockLines, ReadsTwoFirst;
    IndirectShape(code, stops, bb);
    Allocates(bb, items);
    var v2p := Allocated(items).v2p;
    PrologueThen(VBlock(bb), v2p, g, base, m);
    var m1 := A.Exec(PROLOGUE.i, m);
    if !ReadsTwoFirst(bb) {
      OtherArrives(code, stops, bb, items, g, base, m);
    } else if LastOf(bb).operands.rd == 0 {
      UnlinkedArrives(code, stops, bb, items, g, base, m1);
    } else {
      LinkedArrives(code, stops, bb, items, g, base, m1);
    }
  }

  function LastOf(bb: BasicBlock): (last: R.DecodedInst)
    requires EndsIndirect(bb)
    ensures bb.insts != [] && last == bb.insts[|bb.insts| - 1] && last.operands.RegMem?
  {
    bb.insts[|bb.insts| - 1]
  }

  lemma {:induction false} OtherArrives(code: Decoder.Code, stops: seq<Word>, bb: BasicBlock, items: seq<Item>,
                                        g: R.Guest, base: Word, m: A.Machine)
    requires Walks(code, stops, bb) && FaithfulBlock(bb) && R.ZeroX0(g) && bb.term == IndirectJump && !ReadsTwoFirst(bb)
    requires IsSorting(Analyzed(VBlock(bb)), items) && HostState(g, base, m)
    ensures EndsIndirect(bb) && Allocated(items).Assigned?
    ensures
      var h := RunLines(BlockLines(VBlock(bb), Allocated(items).v2p), m);
      h.exit == Call(DISPATCH) && A.Get(h.m.regs, A.P(1)) == Dispatched(bb, g)
  {
    hide Walks, FaithfulBlock, R.ZeroX0, HostState, RunLines, Analyzed, IsSorting, Allocated, VBlock, Dispatched,
         EndsIndirect, BlockLines, ReadsTwoFirst, Outlived, Separates, GoodAssignment;
    OtherIsOutlived(code, stops, bb);
    AnalysisSeparatesExactly(VBlock(bb));
    Allocates(bb, items);
    assert Allocated(items) == Assigned(Allocated(items).v2p);
    ApartDispatch(code, stops, bb, Allocated(items).v2p, g, base, m);
  }

  // ---------- When it is the target ----------

  /** x1 holds the target, for every order and every host state that shows the guest. */
  ghost predicate AlwaysDispatches(bb: BasicBlock, g: R.Guest)
    requires EndsIndirect(bb)
  {
    forall items, base, m :: IsSorting(Analyzed(VBlock(bb)), items) && HostState(g, base, m) ==>
      DispatchesWith(bb, items, g, m)
  }

  ghost predicate DispatchesWith(bb: BasicBlock, items: seq<Item>, g: R.Guest, m: A.Machine)
    requires EndsIndirect(bb)
  {
    && Allocated(items).Assigned?
    && var h := RunLines(BlockLines(VBlock(bb), Allocated(items).v2p), m);
    h.exit == Call(DISPATCH) && A.Get(h.m.regs, A.P(1)) == TrueTarget(bb, g)
  }

  /** In guest terms: every value that can arrive is the target. */
  ghost predicate TargetArrives(bb: BasicBlock, g: R.Guest)
    requires EndsIndirect(bb)
  {
    var target := TrueTarget(bb, g);
    var first := First(bb);
    if LastOf(bb).operands.rd == 0 then target == Add(LastOf(bb).pc, 4)
    else if !ReadsTwoFirst(bb) then FirstOperand(first, bb.start, g) == target
    else if ResultDead(first) then SecondOperand(first, g) == target && MisreadResult(first, g) == target
    else FirstOperand(first, bb.start, g) == target && SecondOperand(first, g) == target
  }

  lemma {:induction false} TargetIsEnough(code: Decoder.Code, stops: seq<Word>, bb: BasicBlock, items: seq<Item>,
                                          g: R.Guest, base: Word, m: A.Machine)
    requires Walks(code, stops, bb) && FaithfulBlock(bb) && R.ZeroX0(g) && bb.term == IndirectJump
    requires IsSorting(Analyzed(VBlock(bb)), items) && HostState(g, base, m)
    ensures EndsIndirect(bb)
    ensures TargetArrives(bb, g) ==> DispatchesWith(bb, items, g, m)
  {
    hide FirstLifted, Walks, TwoOperands, FaithfulBlock, R.ZeroX0, HostRel, HostState, RunLines, Analyzed, Add,
         IsSorting, Allocated, VBlock, FirstOperand, SecondOperand, MisreadResult, EndsIndirect, BlockLines,
         ReadsTwoFirst, TrueTarget, ResultDead, Shared;
    ArrivesAsWritten(code, stops, bb, items, g, base, m);
    if ReadsTwoFirst(bb) && LastOf(bb).operands.rd != 0 {
      OrderCases(code, stops, bb, items, g, base, m);
    }
  }

  /** Which values can arrive, by the order of the intervals. */
  lemma {:induction false} OrderCases(code: Decoder.Code, stops: seq<Word>, bb: BasicBlock, items: seq<Item>,
                                      g: R.Guest, base: Word, m: A.Machine)
    requires LinkedOperation(code, stops, bb) && FaithfulBlock(bb) && R.ZeroX0(g)
    requires IsSorting(Analyzed(VBlock(bb)), items) && HostState(g, base, m)
    ensures Allocated(items).Assigned? && (FirstLeads(items) || ThirdLeads(items))
    ensures
      var v2p := Allocated(items).v2p;
      && (FirstLeads(items) ==> Shared(v2p, 1, 2) && !Shared(v2p, 1, 3))
      && (ThirdLeads(items) && ResultDead(First(bb)) ==> Shared(v2p, 1, 2) && Shared(v2p, 1, 3))
      && (ThirdLeads(items) && !ResultDead(First(bb)) ==> !Shared(v2p, 1, 2))
  {
    hide FirstLifted, Walks, TwoOperands, FaithfulBlock, R.ZeroX0, HostRel, HostState, RunLines, Body, TermLines,
         Analyzed, IsSorting, Allocated, VBlock, Arriving, A.Exec, EndsIndirect, ReadsTwoFirst, ResultDead, Shared,
         FirstDispatched, OpAt, Lifter.LiftAll, IR.Ssa, TwoValueHead, CodeOf, SelectAll;
    Allocates(bb, items);
    PrologueThen(VBlock(bb), Allocated(items).v2p, g, base, m);
    LinkedArrives(code, stops, bb, items, g, base, A.Exec(PROLOGUE.i, m));
    LinkedIsDispatched(code, stops, bb);
    ThreeIntervals(VBlock(bb), OpAt(IrOf(bb), bb.start));
    TwoOrders(Analyzed(VBlock(bb)), OpAt(IrOf(bb), bb.start), |VBlock(bb).instrs|, items);
  }

  lemma {:induction false} BothOrders(code: Decoder.Code, stops: seq<Word>, bb: BasicBlock)
    returns (first: seq<Item>, third: seq<Item>)
    requires LinkedOperation(code, stops, bb)
    ensures IsSorting(Analyzed(VBlock(bb)), first) && FirstLeads(first)
    ensures IsSorting(Analyzed(VBlock(bb)), third) && ThirdLeads(third)
  {
    hide FirstLifted, Walks, Analyzed, IsSorting, VBlock, FirstDispatched, OpAt, Lifter.LiftAll, IR.Ssa,
         TwoValueHead, CodeOf, SelectAll, ReadsTwoFirst, EndsIndirect;
    LinkedIsDispatched(code, stops, bb);
    ThreeIntervals(VBlock(bb), OpAt(IrOf(bb), bb.start));
    first, third := OrdersExist(Analyzed(VBlock(bb)), OpAt(IrOf(bb), bb.start), |VBlock(bb).instrs|);
  }

  /** With the analysis as written the assignment depends on the order: two orders of the intervals
      of such a block give different ones. */
  lemma {:induction false} OrderMatters(code: Decoder.Code, stops: seq<Word>, bb: BasicBlock)
    returns (first: seq<Item>, third: seq<Item>)
    requires LinkedOperation(code, stops, bb) && FaithfulBlock(bb)
    ensures IsSorting(Analyzed(VBlock(bb)), first) && IsSorting(Analyzed(VBlock(bb)), third)
    ensures Allocated(first).Assigned? && Allocated(third).Assigned? && Allocated(first) != Allocated(third)
  {
    hide LinkedOperation, FaithfulBlock, Analyzed, IsSorting, VBlock, ResultDead, FirstLifted, HostState, R.ZeroX0;
    first, third := BothOrders(code, stops, bb);
    var g := R.Guest(map[], map[]);
    R.NoRegReads();
    var m := HostExists(g);
    OrderCases(code, stops, bb, first, g, 0, m);
    OrderCases(code, stops, bb, third, g, 0, m);
  }

  lemma {:induction false} TargetIsNeeded(code: Decoder.Code, stops: seq<Word>, bb: BasicBlock, g: R.Guest)
    requires Walks(code, stops, bb) && FaithfulBlock(bb) && R.ZeroX0(g) && bb.term == IndirectJump
    requires EndsIndirect(bb) && AlwaysDispatches(bb, g)
    ensures TargetArrives(bb, g)
  {
    hide FirstLifted, Walks, TwoOperands, FaithfulBlock, R.ZeroX0, HostRel, HostState, RunLines, Analyzed, Add,
         IsSorting, Allocated, VBlock, FirstOperand, SecondOperand, MisreadResult, EndsIndirect, BlockLines,
         ReadsTwoFirst, TrueTarget, ResultDead, Shared;
    var m := HostExists(g);
    if ReadsTwoFirst(bb) && LastOf(bb).operands.rd != 0 {
      var first, third := BothOrders(code, stops, bb);
      assert DispatchesWith(bb, first, g, m) && DispatchesWith(bb, third, g, m);
      ArrivesAsWritten(code, stops, bb, first, g, 0, m);
      ArrivesAsWritten(code, stops, bb, third, g, 0, m);
      OrderCases(code, stops, bb, first, g, 0, m);
      OrderCases(code, stops, bb, third, g, 0, m);
    } else {
      var items := Orders.SortingExists(Analyzed(VBlock(bb)));
      assert DispatchesWith(bb, items, g, m);
      ArrivesAsWritten(code, stops, bb, items, g, 0, m);
    }
  }

  /** With the analysis as written, x1 holds the target RISC-V computes for every order of the
      intervals if and only if every value that can arrive is that target: the next instruction
      without a link register; with one, the first operand of the first lifted instruction, and, when
      that is an operation, its second operand too, or that and the misread result when the result
      is dead. */
  lemma {:induction false} DispatchesExactly(code: Decoder.Code, stops: seq<Word>, bb: BasicBlock, g: R.Guest)
    requires Walks(code, stops, bb) && FaithfulBlock(bb) && R.ZeroX0(g) && bb.term == IndirectJump
    ensures EndsIndirect(bb) && (AlwaysDispatches(bb, g) <==> TargetArrives(bb, g))
  {
    hide Walks, FaithfulBlock, R.ZeroX0, HostState, Analyzed, IsSorting, VBlock, EndsIndirect, TargetArrives,
         DispatchesWith;
    IndirectShape(code, stops, bb);
    if AlwaysDispatches(bb, g) {
      TargetIsNeeded(code, stops, bb, g);
    }
    if TargetArrives(bb, g) {
      forall items, base, m | IsSorting(Analyzed(VBlock(bb)), items) && HostState(g, base, m)
        ensures DispatchesWith(bb, items, g, m)
      {
        TargetIsEnough(code, stops, bb, items, g, base, m);
      }
    }
  }

  // ---------- A lone JALR ----------

  lemma {:induction false} LoneFirst(bb: BasicBlock, last: R.DecodedInst)
    requires EndsIndirect(bb) && LoneJalr(bb, last) && last.operands.RegMem?
    ensures last == LastOf(bb) && last == First(bb) && ReadsTwoFirst(bb) && !ResultDead(last) && last.opcode.JALR?
  {
    hide Lifter.LiftInst, FirstLifted;
    JalrExpansion(last, 0);
    FirstOfLone(bb.insts);
  }

  /** For one guest: every value that can arrive is the target. */
  lemma {:induction false} LoneArrives(code: Decoder.Code, stops: seq<Word>, bb: BasicBlock, last: R.DecodedInst,
                                       g: R.Guest)
    requires Walks(code, stops, bb) && FaithfulBlock(bb) && R.ZeroX0(g)
    requires EndsIndirect(bb) && LoneJalr(bb, last) && last.operands.RegMem?
    ensures
      var x, off := R.Reg(g.x, last.operands.base), last.operands.offset;
      TargetArrives(bb, g) <==>
        if last.operands.rd == 0 then R.JalrTarget(x, off) == Add(last.pc, 4)
        else R.JalrTarget(x, off) == x && R.JalrTarget(x, off) == R.Bits(off)
  {
    hide Walks, FaithfulBlock, R.ZeroX0, R.JalrTarget, R.Bits, Add, LoneJalr, R.Reg, EndsIndirect, TrueTarget,
         FirstLifted, Dispatched, ReadsTwoFirst;
    LoneFirst(bb, last);
    LoneTarget(code, stops, bb, last, g);
  }

  /** Over the emitted lines, with the analysis as written: a lone JALR dispatches to its target for
      every guest and every order if and only if its base is x0 and, without a link register, the
      masked offset is the address of the next instruction or, with one, the offset is 0. */
  lemma {:induction false} LoneExactlyAsWritten(code: Decoder.Code, stops: seq<Word>, bb: BasicBlock,
                                                last: R.DecodedInst)
    requires Walks(code, stops, bb) && FaithfulBlock(bb) && bb.term == IndirectJump
    requires EndsIndirect(bb) && LoneJalr(bb, last) && last.operands.RegMem?
    ensures (forall g :: R.ZeroX0(g) ==> AlwaysDispatches(bb, g)) <==>
        && last.operands.base == 0
        && (if last.operands.rd == 0 then R.JalrTarget(0, last.operands.offset) == Add(last.pc, 4)
            else R.Bits(last.operands.offset) == 0)
  {
    hide Walks, FaithfulBlock, R.ZeroX0, R.JalrTarget, R.Bits, Add, EndsIndirect, LoneJalr, R.Reg, AlwaysDispatches,
         TargetArrives;
    var base, off := last.operands.base, last.operands.offset;
    forall g | R.ZeroX0(g)
      ensures AlwaysDispatches(bb, g) <==>
        (if last.operands.rd == 0 then R.JalrTarget(R.Reg(g.x, base), off) == Add(last.pc, 4)
         else R.Reg(g.x, base) % 2 == 0 && R.Bits(off) <= 1 && R.Reg(g.x, base) == R.Bits(off))
    {
      DispatchesExactly(code, stops, bb, g);
      LoneArrives(code, stops, bb, last, g);
      OwnMaskedSum(R.Reg(g.x, base), off);
    }
    if base == 0 {
      R.NoRegReads();
      forall g: R.Guest ensures R.Reg(g.x, base) == 0 { ZeroReads(g); }
    } else {
      R.OneRegReads(base, 1);
      R.OneRegReads(base, 0);
      R.OneRegReads(base, 2);
      SumsDiffer(off);
      assert last.operands.rd != 0 ==> !AlwaysDispatches(bb, R.OneReg(base, 1));
      assert last.operands.rd == 0 ==>
        !AlwaysDispatches(bb, R.OneReg(base, 0)) || !AlwaysDispatches(bb, R.OneReg(base, 2));
    }
  }
}
