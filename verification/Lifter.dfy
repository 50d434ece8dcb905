/** Lifting a basic block of RV64I instructions to one IR block. */
module Lifter {
  import opened Words
  import R = Riscv
  import opened Cfg
  import opened IR

  // ---------- The expansion of one instruction ----------

  function Def(id: ValueId, p: Payload): Instr {
    Instr(Some(id), p)
  }

  /** Writes to x0 are dropped. */
  function Write(rd: R.RegIndex, v: ValueId): seq<Instr> {
    if rd == 0 then [] else [Instr(None, WriteReg(rd, v))]
  }

  function KindOf(op: R.Opcode): Option<BinOpKind> {
    if op.ADDI? || op.ADD? then Some(AddOp)
    else if op.SUB? then Some(SubOp)
    else if op.ANDI? || op.AND? then Some(AndOp)
    else if op.ORI? || op.OR? then Some(OrOp)
    else if op.XORI? || op.XOR? then Some(XorOp)
    else if op.SLLI? || op.SLL? then Some(ShlOp)
    else if op.SRLI? || op.SRL? then Some(LShrOp)
    else if op.SRAI? || op.SRA? then Some(AShrOp)
    else None
  }

  function CondOf(op: R.Opcode): ICmpCond {
    if op.BEQ? then EQ else if op.BNE? then NE else if op.BLT? then SLT
    else if op.BGE? then SGE else if op.BLTU? then ULT else UGE
  }

  /** A binary operation on two values defined at n and n + 1. */
  function Binop(op: R.Opcode, first: Payload, second: Payload, rd: R.RegIndex, n: nat): seq<Instr> {
    match KindOf(op)
    case Some(k) => [Def(n, first), Def(n + 1, second), Def(n + 2, BinOp(k, n, n + 1, I64))] + Write(rd, n + 2)
    case None =>
      if op.ADDIW? || op.ADDW? then
        [Def(n, first), Def(n + 1, second), Def(n + 2, BinOp(AddOp, n, n + 1, I64))]
        + ([Def(n + 3, Trunc(n + 2, I32)), Def(n + 4, SExt(n + 3, I64))] + Write(rd, n + 4))
      else []
  }

  /** The IR appended for one instruction when n instructions are already there. Opcodes
      without a lowering append nothing. */
  function LiftInst(inst: R.DecodedInst, n: nat): seq<Instr> {
    var op := inst.opcode;
    match inst.operands
    case NoOperands => []
    case RegImm(rd, imm) =>
      if op.AUIPC? then
        [Def(n, GetPC), Def(n + 1, Const(I64, R.Bits(imm))), Def(n + 2, BinOp(AddOp, n, n + 1, I64))]
        + Write(rd, n + 2)
      else if op.JAL? then [Def(n, Const(I64, Add(inst.pc, 4)))] + Write(rd, n)
      else []
    case RegMem(rd, base, off) =>
      if op.LW? then
        [Def(n, ReadReg(base)), Def(n + 1, Load(n, R.Bits(off), I32)), Def(n + 2, SExt(n + 1, I64))] + Write(rd, n + 2)
      else if op.LWU? then
        [Def(n, ReadReg(base)), Def(n + 1, Load(n, R.Bits(off), I32)), Def(n + 2, ZExt(n + 1, I64))] + Write(rd, n + 2)
      else if op.LD? then
        [Def(n, ReadReg(base)), Def(n + 1, Load(n, R.Bits(off), I64))] + Write(rd, n + 1)
      else if op.JALR? then
        [Def(n, ReadReg(base)), Def(n + 1, Const(I64, R.Bits(off))), Def(n + 2, BinOp(AddOp, n, n + 1, I64))]
        + ([Def(n + 3, Const(I64, 0xFFFF_FFFF_FFFF_FFFE)), Def(n + 4, BinOp(AndOp, n + 2, n + 3, I64)),
            Def(n + 5, Const(I64, Add(inst.pc, 4)))] + Write(rd, n + 5))
      else []
    case MemReg(base, off, rs) =>
      if op.SW? || op.SD? then
        [Def(n, ReadReg(base)), Def(n + 1, ReadReg(rs)),
         Instr(None, Store(n + 1, n, R.Bits(off), if op.SW? then I32 else I64))]
      else []
    case RegRegImm(rd, rs1, imm) => Binop(op, ReadReg(rs1), Const(I64, R.Bits(imm)), rd, n)
    case Branch(rs1, rs2, _) =>
      [Def(n, ReadReg(rs1)), Def(n + 1, ReadReg(rs2)), Def(n + 2, ICmp(CondOf(op), n, n + 1))]
    case RegRegReg(rd, rs1, rs2) => Binop(op, ReadReg(rs1), ReadReg(rs2), rd, n)
  }

  // ---------- The block ----------

  function LiftAll(insts: seq<R.DecodedInst>): seq<Instr> {
    if insts == [] then []
    else
      var before := LiftAll(insts[..|insts| - 1]);
      before + LiftInst(insts[|insts| - 1], |before|)
  }

  /** The index of the last comparison, 0 when there is none. */
  function LastICmp(insts: seq<Instr>): ValueId {
    if insts == [] then 0
    else if insts[|insts| - 1].dest.Some? && insts[|insts| - 1].payload.ICmp? then insts[|insts| - 1].dest.value
    else LastICmp(insts[..|insts| - 1])
  }

  function Succ(bb: BasicBlock, i: nat): Word {
    if i < |bb.succs| then bb.succs[i] else 0
  }

  function LiftTerm(bb: BasicBlock, insts: seq<Instr>): Terminator {
    match bb.term
    case CondBranch => CBr(LastICmp(insts), Succ(bb, 0), Succ(bb, 1))
    case Jump => Br(Succ(bb, 0))
    case IndirectJump =>
      // The value of the last instruction pushed, 0 when it has none.
      BrIndirect(if insts != [] && insts[|insts| - 1].dest.Some? then insts[|insts| - 1].dest.value else 0)
    case Return => Ret
    case Trap => IR.Trap
    case Fallthrough => Br(Succ(bb, 0))
    case NoTerm => Br(Succ(bb, 0))
  }

  function Lifted(bb: BasicBlock): Block {
    Block(bb.start, LiftAll(bb.insts), LiftTerm(bb, LiftAll(bb.insts)))
  }

  predicate IsComparison(i: Instr) {
    i.dest.Some? && i.payload.ICmp?
  }

  /** The value of the comparison that no other follows, or 0 when there is none. */
  method FindLastICmp(insts: seq<Instr>) returns (cond: ValueId)
    ensures cond == LastICmp(insts)
    ensures (cond == 0 && forall i :: 0 <= i < |insts| ==> !IsComparison(insts[i]))
      || exists i :: 0 <= i < |insts| && IsComparison(insts[i]) && insts[i].dest.value == cond
           && forall j :: i < j < |insts| ==> !IsComparison(insts[j])
  {
    cond := 0;
    var i := |insts|;
    assert insts[..i] == insts;
    while i > 0
      invariant 0 <= i <= |insts|
      invariant LastICmp(insts) == LastICmp(insts[..i])
      invariant forall j :: i <= j < |insts| ==> !IsComparison(insts[j])
    {
      i := i - 1;
      assert insts[..i + 1][..i] == insts[..i];
      if IsComparison(insts[i]) {
        cond := insts[i].dest.value;
        return;
      }
    }
  }

  method Lift(bb: BasicBlock) returns (out: Block)
    ensures out == Lifted(bb)
  {
    hide LiftInst, LastICmp;
    var insts: seq<Instr> := [];
    for k := 0 to |bb.insts|
      invariant insts == LiftAll(bb.insts[..k])
    {
      assert bb.insts[..k + 1][..k] == bb.insts[..k];
      insts := insts + LiftInst(bb.insts[k], |insts|);
    }
    assert bb.insts[..|bb.insts|] == bb.insts;
    var term: Terminator;
    match bb.term {
      case CondBranch =>
        var cond := FindLastICmp(insts);
        term := CBr(cond, Succ(bb, 0), Succ(bb, 1));
      case Jump => term := Br(Succ(bb, 0));
      case IndirectJump =>
        var target := 0;
        if insts != [] && insts[|insts| - 1].dest.Some? {
          target := insts[|insts| - 1].dest.value;
        }
        term := BrIndirect(target);
      case Return => term := Ret;
      case Trap => term := IR.Trap;
      case Fallthrough => term := Br(Succ(bb, 0));
      case NoTerm => term := Br(Succ(bb, 0));
    }
    out := Block(bb.start, insts, term);
  }

  // ---------- Single assignment ----------

  /** Operations read two values in the order of their definition; a store writes the later one through
      the earlier. */
  predicate InOrder(p: Payload) {
    match p
    case BinOp(_, lhs, rhs, _) => rhs == lhs + 1
    case ICmp(_, lhs, rhs) => rhs == lhs + 1
    case Store(v, base, _, _) => v == base + 1
    case _ => true
  }

  lemma {:induction false} BinopInOrder(op: R.Opcode, first: Payload, second: Payload, rd: R.RegIndex, n: nat)
    requires InOrder(first) && InOrder(second)
    ensures
      var c := Binop(op, first, second, rd, n);
      forall i :: 0 <= i < |c| ==> InOrder(c[i].payload)
  {
    hide KindOf;
  }

  lemma {:induction false} OperandsInOrder(inst: R.DecodedInst, n: nat)
    ensures forall i :: 0 <= i < |LiftInst(inst, n)| ==> InOrder(LiftInst(inst, n)[i].payload)
  {
    hide KindOf, CondOf, Add, R.Bits, Binop;
    match inst.operands
    case RegRegImm(rd, rs1, imm) => BinopInOrder(inst.opcode, ReadReg(rs1), Const(I64, R.Bits(imm)), rd, n);
    case RegRegReg(rd, rs1, rs2) => BinopInOrder(inst.opcode, ReadReg(rs1), ReadReg(rs2), rd, n);
    case _ =>
  }

  lemma BinopIsLocal(op: R.Opcode, first: Payload, second: Payload, rd: R.RegIndex, n: nat)
    requires Produces(first) && Operands(first) == [] && Produces(second) && Operands(second) == []
    ensures LocalSsa(Binop(op, first, second, rd, n), n) && |Binop(op, first, second, rd, n)| <= 7
  {
    hide KindOf;
  }

  lemma JalrIsLocal(inst: R.DecodedInst, n: nat)
    requires inst.operands.RegMem?
    ensures LocalSsa(LiftInst(inst, n), n) && |LiftInst(inst, n)| <= 7
  {
    hide Add, R.Bits;
  }

  /** An expansion has at most seven instructions and uses no value from outside itself. */
  lemma LiftInstIsLocal(inst: R.DecodedInst, n: nat)
    ensures LocalSsa(LiftInst(inst, n), n) && |LiftInst(inst, n)| <= 7
  {
    hide KindOf, CondOf, Add, R.Bits, Binop;
    match inst.operands
    case RegMem(_, _, _) => JalrIsLocal(inst, n);
    case RegRegImm(rd, rs1, imm) => BinopIsLocal(inst.opcode, ReadReg(rs1), Const(I64, R.Bits(imm)), rd, n);
    case RegRegReg(rd, rs1, rs2) => BinopIsLocal(inst.opcode, ReadReg(rs1), ReadReg(rs2), rd, n);
    case _ =>
  }

  /** Every lifted block is in single-assignment form. */
  lemma {:induction false} LiftIsSsa(insts: seq<R.DecodedInst>)
    ensures Ssa(LiftAll(insts))
    decreases |insts|
  {
    hide LiftInst, Ssa, LocalSsa;
    if insts == [] {
      EmptyIsSsa();
    } else {
      var before := LiftAll(insts[..|insts| - 1]);
      LiftIsSsa(insts[..|insts| - 1]);
      LiftInstIsLocal(insts[|insts| - 1], |before|);
      SsaAppend(before, LiftInst(insts[|insts| - 1], |before|));
    }
  }

  lemma EmptyIsSsa()
    ensures Ssa([])
  {
  }
}
