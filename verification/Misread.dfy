/** Blocks as they are when the first operand of their first lifted instruction is read as its
    second: what a clash of the registers of the first two values turns a block into. */
module Misread {
  import opened Words
  import R = Riscv
  import Decoder
  import Reference
  import opened Cfg
  import opened CfgTheorems
  import opened IR
  import opened Lifter
  import opened LifterTheorems
  import opened LiftBlock

  // ---------- In guest terms ----------

  /** The first instruction with an expansion that is not empty; the length when there is none. */
  function FirstLifted(insts: seq<R.DecodedInst>): nat {
    if insts == [] || LiftInst(insts[0], 0) != [] then 0 else 1 + FirstLifted(insts[1..])
  }

  /** Instructions lifted to two values and an operation on them. */
  predicate TwoOperands(inst: R.DecodedInst) {
    match inst.operands
    case RegImm(_, _) => inst.opcode.AUIPC?
    case RegMem(_, _, _) => inst.opcode.JALR?
    case RegRegImm(_, _, _) => HasLowering(inst.opcode)
    case Branch(_, _, _) => true
    case RegRegReg(_, _, _) => HasLowering(inst.opcode)
    case _ => false
  }

  function SecondOperand(inst: R.DecodedInst, g: R.Guest): Word {
    match inst.operands
    case RegImm(_, imm) => R.Bits(imm)
    case RegMem(_, _, off) => R.Bits(off)
    case RegRegImm(_, _, imm) => R.Bits(imm)
    case Branch(_, rs2, _) => R.Reg(g.x, rs2)
    case RegRegReg(_, _, rs2) => R.Reg(g.x, rs2)
    case _ => 0
  }

  /** The instruction with its second operand in both places. The target of a JALR is not part of
      what it does to the guest. */
  function MisreadExec(inst: R.DecodedInst, g: R.Guest): R.Guest {
    var b := SecondOperand(inst, g);
    match inst.operands
    case RegImm(rd, _) => R.SetReg(g, rd, Add(b, b))
    case RegRegImm(rd, _, _) => R.SetReg(g, rd, R.BinaryResult(inst.opcode, b, b))
    case RegRegReg(rd, _, _) => R.SetReg(g, rd, R.BinaryResult(inst.opcode, b, b))
    case _ => R.Exec(inst, g)
  }

  ghost predicate ReadsTwoFirst(bb: BasicBlock) {
    var f := FirstLifted(bb.insts);
    f < |bb.insts| && TwoOperands(bb.insts[f])
  }

  /** The block from instruction k on, g being the guest there. */
  function SteppedFrom(bb: BasicBlock, k: nat, g: R.Guest): Reference.Config
    requires k <= |bb.insts|
  {
    BlockExit(bb, ExecAll(bb.insts[k..], g))
  }

  /** What stepping the block does. */
  function Stepped(bb: BasicBlock, g: R.Guest): Reference.Config {
    SteppedFrom(bb, 0, g)
  }

  /** What it does with the first operand of its first lifted instruction misread. */
  ghost function SteppedMisread(bb: BasicBlock, g: R.Guest): Reference.Config
    requires ReadsTwoFirst(bb)
  {
    var f := FirstLifted(bb.insts);
    var inst := bb.insts[f];
    var b := SecondOperand(inst, g);
    if inst.operands.Branch? then
      Reference.Running(if R.BranchTaken(inst.opcode, b, b) then Succ(bb, 0) else Succ(bb, 1), g)
    else SteppedFrom(bb, f + 1, MisreadExec(inst, g))
  }

  lemma {:induction false} FirstLiftedIsFirst(insts: seq<R.DecodedInst>)
    ensures FirstLifted(insts) <= |insts|
    ensures FirstLifted(insts) < |insts| ==> LiftInst(insts[FirstLifted(insts)], 0) != []
    ensures forall k :: 0 <= k < FirstLifted(insts) ==> LiftInst(insts[k], 0) == []
    decreases |insts|
  {
    hide LiftInst;
    if insts != [] && LiftInst(insts[0], 0) == [] {
      FirstLiftedIsFirst(insts[1..]);
      assert forall k :: 0 < k <= |insts[1..]| ==> insts[k] == insts[1..][k - 1];
    }
  }

  lemma {:induction false} NothingLifted(insts: seq<R.DecodedInst>)
    requires forall k :: 0 <= k < |insts| ==> LiftInst(insts[k], 0) == []
    ensures LiftAll(insts) == []
    decreases |insts|
  {
    hide LiftInst;
    if insts != [] {
      NothingLifted(insts[..|insts| - 1]);
    }
  }

  lemma {:induction false} LiftedSnoc(insts: seq<R.DecodedInst>)
    requires insts != []
    ensures
      var before := LiftAll(insts[..|insts| - 1]);
      LiftAll(insts) == before + LiftInst(insts[|insts| - 1], |before|)
  {
  }

  lemma {:induction false} LiftedPrefix(insts: seq<R.DecodedInst>, k: nat)
    requires k <= |insts|
    ensures LiftAll(insts[..k]) <= LiftAll(insts)
    decreases |insts| - k
  {
    hide LiftInst;
    if k < |insts| {
      LiftedPrefix(insts, k + 1);
      assert insts[..k + 1][..k] == insts[..k];
    } else {
      assert insts[..k] == insts;
    }
  }

  lemma {:induction false} FirstExpansionLeads(insts: seq<R.DecodedInst>)
    requires FirstLifted(insts) < |insts|
    ensures LiftInst(insts[FirstLifted(insts)], 0) <= LiftAll(insts)
  {
    hide LiftInst, FirstLifted;
    FirstLiftedIsFirst(insts);
    var f := FirstLifted(insts);
    NothingLifted(insts[..f]);
    assert insts[..f + 1][..f] == insts[..f];
    LiftedPrefix(insts, f + 1);
  }

  /** Before the first lifted instruction nothing happens. */
  lemma {:induction false} QuietPrefix(insts: seq<R.DecodedInst>, start: Word, g: R.Guest)
    requires forall i :: 0 <= i < |insts| ==> R.WellFormed(insts[i]) && Faithful(insts[i], start)
    requires R.ZeroX0(g)
    ensures
      var f := FirstLifted(insts);
      f <= |insts| && LiftAll(insts[..f]) == [] && ExecAll(insts[..f], g) == g
  {
    hide LiftInst, R.WellFormed, Faithful, R.ZeroX0, ExecAll, FirstLifted;
    FirstLiftedIsFirst(insts);
    var pre := insts[..FirstLifted(insts)];
    NothingLifted(pre);
    LiftRuns(pre, start, g);
    RunNothing(start, Some(State([], g)));
  }

  lemma {:induction false} ExecAppend(a: seq<R.DecodedInst>, b: seq<R.DecodedInst>, g: R.Guest)
    ensures ExecAll(a + b, g) == ExecAll(b, ExecAll(a, g))
    decreases |b|
  {
    hide R.Exec;
    if b == [] {
      assert a + b == a;
    } else {
      assert (a + b)[..|a + b| - 1] == a + b[..|b| - 1];
      ExecAppend(a, b[..|b| - 1], g);
    }
  }

  lemma {:induction false} ExecThree(a: seq<R.DecodedInst>, inst: R.DecodedInst, b: seq<R.DecodedInst>, g: R.Guest)
    ensures ExecAll(a + ([inst] + b), g) == ExecAll(b, R.Exec(inst, ExecAll(a, g)))
  {
    hide R.Exec;
    ExecAppend(a, [inst] + b, g);
    ExecAppend([inst], b, ExecAll(a, g));
    assert [inst][..0] == [];
  }

  /** The block in three parts: a quiet prefix, the first lifted instruction and the rest. */
  lemma {:induction false} SteppedSplits(bb: BasicBlock, g: R.Guest)
    requires WellFormedBlock(bb) && FaithfulBlock(bb) && R.ZeroX0(g) && FirstLifted(bb.insts) < |bb.insts|
    ensures
      var f := FirstLifted(bb.insts);
      Stepped(bb, g) == SteppedFrom(bb, f + 1, R.Exec(bb.insts[f], g))
  {
    hide R.Exec, R.WellFormed, Faithful, R.ZeroX0, BlockExit, FirstLifted, ExecAll, LiftAll;
    var f := FirstLifted(bb.insts);
    QuietPrefix(bb.insts, bb.start, g);
    assert bb.insts[0..] == bb.insts[..f] + ([bb.insts[f]] + bb.insts[f + 1..]);
    ExecThree(bb.insts[..f], bb.insts[f], bb.insts[f + 1..], g);
  }

  // ---------- In terms of the IR ----------

  function LhsIsOne(p: Payload): Payload {
    match p
    case BinOp(k, _, r, ty) => BinOp(k, 1, r, ty)
    case ICmp(c, _, r) => ICmp(c, 1, r)
    case _ => p
  }

  /** Value 2 computed from value 1 in place of value 0. */
  function Twisted(insts: seq<Instr>): seq<Instr>
    requires |insts| >= 3
  {
    insts[2 := insts[2].(payload := LhsIsOne(insts[2].payload))]
  }

  lemma {:induction false} TwistedAppend(a: seq<Instr>, b: seq<Instr>)
    requires |a| >= 3
    ensures Twisted(a + b) == Twisted(a) + b
  {
    hide LhsIsOne;
  }

  lemma {:induction false} TwistedThree(a: Instr, b: Instr, c: Instr, rest: seq<Instr>)
    ensures Twisted([a, b, c] + rest) == [a, b, c.(payload := LhsIsOne(c.payload))] + rest
  {
    hide LhsIsOne;
  }

  /** Two leaves, an operation on the second twice, and anything after. */
  lemma {:induction false} TwistedSteps(k: BinOpKind, p: Payload, q: Payload, rest: seq<Instr>, start: Word, g: R.Guest)
    requires IsLeaf(p) && IsLeaf(q)
    ensures
      var a, b := Leaf(p, start, g), Leaf(q, start, g);
      Run(Twisted([Def(0, p), Def(1, q), Def(2, BinOp(k, 0, 1, I64))] + rest), start, Some(State([], g)))
      == Run(rest, start, Some(State([Val(I64, a), Val(I64, b), Val(I64, Binary(k, b, b))], g)))
  {
    hide Then, Leaf, Binary, Run, Twisted;
    var a, b := Leaf(p, start, g), Leaf(q, start, g);
    TwistedThree(Def(0, p), Def(1, q), Def(2, BinOp(k, 0, 1, I64)), rest);
    Run3(Def(0, p), Def(1, q), Def(2, BinOp(k, 1, 1, I64)), rest, start, Some(State([], g)));
    LeafStep(p, start, State([], g));
    LeafIgnoresEnv(q, start, State([], g), State([Val(I64, a)], g));
    LeafStep(q, start, State([Val(I64, a)], g));
    BinStep(k, start, [Val(I64, a), Val(I64, b)], g, 1, 1);
    assert [] + [Val(I64, a)] == [Val(I64, a)];
    assert [Val(I64, a)] + [Val(I64, b)] == [Val(I64, a), Val(I64, b)];
    assert [Val(I64, a), Val(I64, b)] + [Val(I64, Binary(k, b, b))]
      == [Val(I64, a), Val(I64, b), Val(I64, Binary(k, b, b))];
  }

  function TwistedRun(insts: seq<Instr>, start: Word, g: R.Guest): Option<State>
    requires |insts| >= 3
  {
    Run(Twisted(insts), start, Some(State([], g)))
  }

  lemma {:induction false} TwistedBinop(op: R.Opcode, p: Payload, q: Payload, rd: R.RegIndex, start: Word, g: R.Guest)
    requires IsLeaf(p) && IsLeaf(q) && KindOf(op).Some?
    ensures |Binop(op, p, q, rd, 0)| >= 3
    ensures
      var b := Leaf(q, start, g);
      GuestAfter(TwistedRun(Binop(op, p, q, rd, 0), start, g)) == Some(R.SetReg(g, rd, R.BinaryResult(op, b, b)))
  {
    hide Run, Leaf, Binary, KindOf, Write, R.BinaryResult, R.SetReg, Twisted;
    var k := KindOf(op).value;
    var a, b := Leaf(p, start, g), Leaf(q, start, g);
    TwistedSteps(k, p, q, Write(rd, 2), start, g);
    WriteStep(rd, 2, start, [Val(I64, a), Val(I64, b), Val(I64, Binary(k, b, b))], g);
    KindAgrees(op, b, b);
  }

  lemma {:induction false} TwistedWordOp(op: R.Opcode, p: Payload, q: Payload, rd: R.RegIndex, start: Word, g: R.Guest)
    requires IsLeaf(p) && IsLeaf(q) && (op.ADDIW? || op.ADDW?)
    ensures |Binop(op, p, q, rd, 0)| >= 3
    ensures
      var b := Leaf(q, start, g);
      GuestAfter(TwistedRun(Binop(op, p, q, rd, 0), start, g)) == Some(R.SetReg(g, rd, R.BinaryResult(op, b, b)))
  {
    hide Run, Then, Leaf, Write, R.SetReg, Add, Low32, SExt32, Twisted, Binop, R.BinaryResult;
    var a, b := Leaf(p, start, g), Leaf(q, start, g);
    var sum := Add(b, b);
    WordOpIs(op, p, q, rd, 0);
    WordResult(op, b, b);
    var e3 := [Val(I64, a), Val(I64, b), Val(I64, sum)];
    var rest := Write(rd, 4);
    var ext := [Def(3, Trunc(2, I32)), Def(4, SExt(3, I64))];
    TwistedSteps(AddOp, p, q, ext + rest, start, g);
    Run2(ext[0], ext[1], rest, start, Some(State(e3, g)));
    TruncSextSteps(start, e3, g, 2);
    WriteStep(rd, 4, start, e3 + [Val(I32, Low32(sum)), Val(I64, SExt32(Low32(sum)))], g);
  }

  lemma {:induction false} TwistedAuipc(inst: R.DecodedInst, start: Word, g: R.Guest)
    requires inst.operands.RegImm? && inst.opcode.AUIPC?
    ensures |LiftInst(inst, 0)| >= 3
    ensures GuestAfter(TwistedRun(LiftInst(inst, 0), start, g)) == Some(MisreadExec(inst, g))
  {
    hide Run, Write, R.SetReg, Add, R.Bits, Twisted;
    var b := R.Bits(inst.operands.imm);
    TwistedSteps(AddOp, GetPC, Const(I64, b), Write(inst.operands.rd, 2), start, g);
    WriteStep(inst.operands.rd, 2, start, [Val(I64, start), Val(I64, b), Val(I64, Add(b, b))], g);
  }

  lemma {:induction false} TwistedJalr(inst: R.DecodedInst, start: Word, g: R.Guest)
    requires inst.operands.RegMem? && inst.opcode.JALR?
    ensures |LiftInst(inst, 0)| >= 3
    ensures GuestAfter(TwistedRun(LiftInst(inst, 0), start, g)) == Some(MisreadExec(inst, g))
  {
    hide Run, Then, Write, R.SetReg, Add, R.Bits, Bitwise, Twisted;
    var RegMem(rd, base, off) := inst.operands;
    var mask := 0xFFFF_FFFF_FFFF_FFFE;
    var ra := Add(inst.pc, 4);
    var a, b := R.Slot(g.x, base), R.Bits(off);
    var e3 := [Val(I64, a), Val(I64, b), Val(I64, Add(b, b))];
    var c := [Def(3, Const(I64, mask)), Def(4, BinOp(AndOp, 2, 3, I64)), Def(5, Const(I64, ra))];
    TwistedSteps(AddOp, ReadReg(base), Const(I64, b), c + Write(rd, 5), start, g);
    Run3(c[0], c[1], c[2], Write(rd, 5), start, Some(State(e3, g)));
    var e4 := e3 + [Val(I64, mask)];
    var e5 := e4 + [Val(I64, Bitwise(AndBits, Add(b, b), mask))];
    LeafStep(Const(I64, mask), start, State(e3, g));
    BinStep(AndOp, start, e4, g, 2, 3);
    LeafStep(Const(I64, ra), start, State(e5, g));
    WriteStep(rd, 5, start, e5 + [Val(I64, ra)], g);
  }

  lemma {:induction false} TwistedBranch(inst: R.DecodedInst, start: Word, g: R.Guest)
    requires R.WellFormed(inst) && inst.operands.Branch? && R.ZeroX0(g)
    ensures |LiftInst(inst, 0)| == 3
    ensures
      var b := SecondOperand(inst, g);
      var o := TwistedRun(LiftInst(inst, 0), start, g);
      && o.Some? && o.value.g == g && |o.value.env| == 3
      && o.value.env[2] == Val(I1, R.Flag(R.BranchTaken(inst.opcode, b, b)))
  {
    hide Run, Then, R.WellFormed, R.BranchTaken, CondOf, Compares, R.Flag, Twisted;
    var Branch(rs1, rs2, imm) := inst.operands;
    var a, b := R.Slot(g.x, rs1), R.Slot(g.x, rs2);
    var e2 := [Val(I64, a), Val(I64, b)];
    var c := LiftInst(inst, 0);
    assert c == c + [];
    TwistedThree(c[0], c[1], c[2], []);
    Run3(c[0], c[1], Def(2, ICmp(CondOf(inst.opcode), 1, 1)), [], start, Some(State([], g)));
    LeafStep(ReadReg(rs1), start, State([], g));
    LeafStep(ReadReg(rs2), start, State([Val(I64, a)], g));
    assert [] + [Val(I64, a)] == [Val(I64, a)];
    assert [Val(I64, a)] + [Val(I64, b)] == e2;
    IcmpStep(start, e2, g, CondOf(inst.opcode), 1, 1);
    BranchCondAgrees(inst, b, b);
    RunNothing(start, Some(State(e2 + [Val(I1, R.Flag(R.BranchTaken(inst.opcode, b, b)))], g)));
  }

  lemma {:induction false} TwistedAlu(inst: R.DecodedInst, start: Word, g: R.Guest)
    requires (inst.operands.RegRegImm? || inst.operands.RegRegReg?) && HasLowering(inst.opcode) && R.ZeroX0(g)
    ensures |LiftInst(inst, 0)| >= 3
    ensures GuestAfter(TwistedRun(LiftInst(inst, 0), start, g)) == Some(MisreadExec(inst, g))
  {
    hide Run, KindOf, Binop, R.BinaryResult, R.SetReg, R.Bits, TwistedRun;
    var p := ReadReg(inst.operands.rs1);
    var q := if inst.operands.RegRegImm? then Const(I64, R.Bits(inst.operands.imm)) else ReadReg(inst.operands.rs2);
    KindIs(inst.opcode);
    if KindOf(inst.opcode).Some? {
      TwistedBinop(inst.opcode, p, q, inst.operands.rd, start, g);
    } else {
      TwistedWordOp(inst.opcode, p, q, inst.operands.rd, start, g);
    }
  }

  /** The twisted expansion of an instruction does what the misread instruction does. */
  lemma {:induction false} TwistedHead(inst: R.DecodedInst, start: Word, g: R.Guest)
    requires R.WellFormed(inst) && TwoOperands(inst) && R.ZeroX0(g)
    ensures |LiftInst(inst, 0)| >= 3
    ensures GuestAfter(TwistedRun(LiftInst(inst, 0), start, g)) == Some(MisreadExec(inst, g))
  {
    hide LiftInst, R.ZeroX0, R.WellFormed, TwistedRun, R.BinaryResult, R.SetReg, Add, R.Bits;
    match inst.operands
    case RegImm(_, _) => TwistedAuipc(inst, start, g);
    case RegMem(_, _, _) => TwistedJalr(inst, start, g);
    case Branch(_, _, _) => TwistedBranch(inst, start, g);
    case _ => TwistedAlu(inst, start, g);
  }

  ghost predicate Lifts(insts: seq<R.DecodedInst>, start: Word) {
    forall i :: 0 <= i < |insts| ==> R.WellFormed(insts[i]) && Faithful(insts[i], start)
  }

  lemma {:induction false} MisreadKeepsZero(inst: R.DecodedInst, g: R.Guest)
    requires R.ZeroX0(g)
    ensures R.ZeroX0(MisreadExec(inst, g))
  {
    hide R.BinaryResult, R.Exec, R.Bits, Add;
    R.ExecKeepsZero(inst, g);
  }

  /** Up to instruction k, which is past the first lifted one. */
  lemma {:induction false} TwistedPrefixRuns(insts: seq<R.DecodedInst>, start: Word, g: R.Guest, k: nat)
    requires Lifts(insts, start) && R.ZeroX0(g)
    requires FirstLifted(insts) < k <= |insts| && TwoOperands(insts[FirstLifted(insts)])
    ensures |LiftAll(insts[..k])| >= 3
    ensures
      var f := FirstLifted(insts);
      var o := TwistedRun(LiftAll(insts[..k]), start, g);
      && o.Some? && o.value.g == ExecAll(insts[f + 1..k], MisreadExec(insts[f], g)) && R.ZeroX0(o.value.g)
      && |o.value.env| == |LiftAll(insts[..k])|
    decreases k
  {
    hide LiftInst, R.WellFormed, Faithful, R.ZeroX0, R.Exec, MisreadExec, TwoOperands, Twisted, FirstLifted, Run;
    var f := FirstLifted(insts);
    var inst := insts[k - 1];
    assert insts[..k][..k - 1] == insts[..k - 1];
    if k == f + 1 {
      QuietPrefix(insts, start, g);
      assert LiftAll(insts[..k]) == LiftInst(inst, 0);
      TwistedHead(inst, start, g);
      MisreadKeepsZero(inst, g);
      assert insts[f + 1..k] == [];
      TwistedGrows(LiftAll(insts[..k]), start, g);
    } else {
      TwistedPrefixRuns(insts, start, g, k - 1);
      var before := LiftAll(insts[..k - 1]);
      var s := TwistedRun(before, start, g).value;
      TwistedAppend(before, LiftInst(inst, |before|));
      RunAppend(Twisted(before), LiftInst(inst, |before|), start, Some(State([], g)));
      FaithfulSimulates(inst, start, s);
      R.ExecKeepsZero(inst, s.g);
      assert insts[f + 1..k][..k - 1 - (f + 1)] == insts[f + 1..k - 1];
      TwistedGrows(LiftAll(insts[..k]), start, g);
    }
  }

  lemma {:induction false} TwistedGrows(insts: seq<Instr>, start: Word, g: R.Guest)
    requires |insts| >= 3 && TwistedRun(insts, start, g).Some?
    ensures |TwistedRun(insts, start, g).value.env| == |insts|
  {
    hide Run, LhsIsOne;
    RunGrows(Twisted(insts), start, State([], g));
  }

  /** The twisted IR of the block that ends in the first lifted instruction. */
  lemma {:induction false} TwistedBranchOnly(insts: seq<R.DecodedInst>, start: Word, g: R.Guest)
    requires Lifts(insts, start) && R.ZeroX0(g)
    requires FirstLifted(insts) == |insts| - 1 && insts[|insts| - 1].operands.Branch?
    ensures |LiftAll(insts)| == 3 && LastICmp(LiftAll(insts)) == 2
    ensures
      var inst := insts[|insts| - 1];
      var b := SecondOperand(inst, g);
      var o := TwistedRun(LiftAll(insts), start, g);
      o.Some? && o.value.g == g && |o.value.env| == 3
      && o.value.env[2] == Val(I1, R.Flag(R.BranchTaken(inst.opcode, b, b)))
  {
    hide LiftInst, R.WellFormed, Faithful, R.ZeroX0, TwistedRun, FirstLifted, R.BranchTaken, R.Flag, LastICmp;
    QuietPrefix(insts, start, g);
    var inst := insts[|insts| - 1];
    assert LiftAll(insts) == [] + LiftInst(inst, 0) == LiftInst(inst, 0);
    TwistedBranch(inst, start, g);
    BranchExpansion(inst, []);
  }

  /** The twisted IR of a block that ends in a branch further on: the branch is read right. */
  lemma {:induction false} TwistedLaterBranch(insts: seq<R.DecodedInst>, start: Word, g: R.Guest)
    requires Lifts(insts, start) && R.ZeroX0(g)
    requires FirstLifted(insts) < |insts| - 1 && TwoOperands(insts[FirstLifted(insts)])
    requires insts[|insts| - 1].operands.Branch?
    ensures |LiftAll(insts)| >= 3
    ensures
      var f := FirstLifted(insts);
      var last := insts[|insts| - 1];
      var o := TwistedRun(LiftAll(insts), start, g);
      var g2 := ExecAll(insts[f + 1..], MisreadExec(insts[f], g));
      && o.Some? && o.value.g == g2 && LastICmp(LiftAll(insts)) == |o.value.env| - 1
      && o.value.env[|o.value.env| - 1]
        == Val(I1, R.Flag(R.BranchTaken(last.opcode, R.Reg(g2.x, last.operands.rs1), R.Reg(g2.x, last.operands.rs2))))
  {
    hide LiftInst, R.WellFormed, Faithful, R.ZeroX0, R.BranchTaken, R.Flag, LastICmp, R.Reg, FirstLifted,
         MisreadExec, Twisted, Run, TwoOperands;
    var f, n := FirstLifted(insts), |insts| - 1;
    assert insts[..|insts|] == insts && insts[f + 1..|insts|] == insts[f + 1..];
    TwistedPrefixRuns(insts, start, g, n);
    TwistedPrefixRuns(insts, start, g, |insts|);
    var before := LiftAll(insts[..n]);
    var s := TwistedRun(before, start, g).value;
    TwistedAppend(before, LiftInst(insts[n], |before|));
    RunAppend(Twisted(before), LiftInst(insts[n], |before|), start, Some(State([], g)));
    BranchSimulates(insts[n], start, s);
    BranchExpansion(insts[n], before);
    BranchChangesNothing(insts[n], s.g);
    assert insts[f + 1..][..|insts[f + 1..]| - 1] == insts[f + 1..n];
  }

  lemma {:induction false} BranchChangesNothing(inst: R.DecodedInst, g: R.Guest)
    requires inst.operands.Branch?
    ensures R.Exec(inst, g) == g
  {
  }

  /** The twisted IR of a block, from any state with x0 = 0, gives the misread outcome. */
  lemma {:induction false} TwistedMeansMisread(code: Decoder.Code, stops: seq<Word>, bb: BasicBlock, g: R.Guest)
    requires Walks(code, stops, bb) && FaithfulBlock(bb) && R.ZeroX0(g) && ReadsTwoFirst(bb)
    ensures |LiftAll(bb.insts)| >= 3
    ensures
      var b := Lifted(bb);
      var o := TwistedRun(b.insts, b.start, g);
      && o.Some?
      && IrExit(b.term, o.value) == SteppedMisread(bb, g)
      && (b.term.CBr? ==> Has(o.value.env, b.term.cond, I1))
  {
    hide Walks, R.ZeroX0, R.WellFormed, Faithful, R.BranchTaken, R.Reg, LastICmp, LiftAll, ExecAll, TwistedRun,
         FirstLifted, MisreadExec, TwoOperands;
    WalksAreWellFormed(code, stops, bb);
    LastBranches(code, stops, bb);
    var n := |bb.insts|;
    assert bb.insts[..n] == bb.insts;
    assert bb.insts[FirstLifted(bb.insts) + 1..n] == bb.insts[FirstLifted(bb.insts) + 1..];
    TwistedPrefixRuns(bb.insts, bb.start, g, n);
    OnlyLastBranches(code, stops, bb, FirstLifted(bb.insts));
    if bb.term == CondBranch {
      if FirstLifted(bb.insts) == n - 1 {
        TwistedBranchOnly(bb.insts, bb.start, g);
      } else {
        TwistedLaterBranch(bb.insts, bb.start, g);
      }
    }
  }

  lemma {:induction false} OnlyLastBranches(code: Decoder.Code, stops: seq<Word>, bb: BasicBlock, i: nat)
    requires Walks(code, stops, bb) && i < |bb.insts|
    ensures bb.insts[i].operands.Branch? ==> i == |bb.insts| - 1 && bb.term == CondBranch
    ensures bb.term == CondBranch ==> |bb.succs| == 2
  {
    hide Decoder.Decode, R.WellFormed, EndAfter, SuccsAfter;
    WalksAreWellFormed(code, stops, bb);
    LastBranches(code, stops, bb);
    EndKinds(bb.insts[i]);
  }
}
