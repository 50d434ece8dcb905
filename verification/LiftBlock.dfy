/** Whole lifted blocks against the reference machine. */
module LiftBlock {
  import opened Words
  import R = Riscv
  import opened Decoder
  import DecoderInverse
  import Reference
  import opened Cfg
  import opened CfgTheorems
  import opened IR
  import opened Lifter
  import opened LifterTheorems

  ghost predicate FaithfulBlock(bb: BasicBlock) {
    forall i :: 0 <= i < |bb.insts| ==> Faithful(bb.insts[i], bb.start)
  }

  ghost predicate WellFormedBlock(bb: BasicBlock) {
    forall i :: 0 <= i < |bb.insts| ==> R.WellFormed(bb.insts[i])
  }

  lemma WalksAreWellFormed(code: Code, stops: seq<Word>, bb: BasicBlock)
    requires Walks(code, stops, bb)
    ensures WellFormedBlock(bb)
  {
    hide Decode, Ends, R.WellFormed;
    forall i | 0 <= i < |bb.insts| ensures R.WellFormed(bb.insts[i]) {
      DecoderInverse.DecodeIsWellFormed(code, PcAt(bb.start, i));
    }
  }

  lemma {:induction false} ExecAllKeepsZero(insts: seq<R.DecodedInst>, g: R.Guest)
    requires R.ZeroX0(g)
    ensures R.ZeroX0(ExecAll(insts, g))
    decreases |insts|
  {
    hide R.Exec, R.ZeroX0;
    if insts != [] {
      ExecAllKeepsZero(insts[..|insts| - 1], g);
      R.ExecKeepsZero(insts[|insts| - 1], ExecAll(insts[..|insts| - 1], g));
    }
  }

  function Lift0(insts: seq<R.DecodedInst>, start: Word, g: R.Guest): Option<State> {
    Run(LiftAll(insts), start, Some(State([], g)))
  }

  /** The guest after the lifted instructions, faithful or not. */
  function LiftedAll(insts: seq<R.DecodedInst>, start: Word, g: R.Guest): R.Guest {
    if insts == [] then g
    else LiftedEffect(insts[|insts| - 1], start, LiftedAll(insts[..|insts| - 1], start, g))
  }

  function AllValues(insts: seq<R.DecodedInst>, start: Word, g: R.Guest): seq<Value> {
    if insts == [] then []
    else
      var before := insts[..|insts| - 1];
      AllValues(before, start, g) + Values(insts[|insts| - 1], start, LiftedAll(before, start, g))
  }

  lemma {:induction false} EffectKeepsZero(inst: R.DecodedInst, start: Word, g: R.Guest)
    requires R.ZeroX0(g)
    ensures R.ZeroX0(LiftedEffect(inst, start, g))
  {
    hide R.Exec, R.ZeroX0, Faithful, R.SetReg, Add, R.Bits;
    R.ExecKeepsZero(inst, g);
    if inst.operands.RegImm? {
      R.SetRegKeepsZero(g, inst.operands.rd, Add(start, R.Bits(inst.operands.imm)));
    }
  }

  /** The IR of a straight line of decoded instructions never gets stuck, defines exactly these values
      and has exactly these effects. */
  lemma {:induction false} LiftAllRuns(insts: seq<R.DecodedInst>, start: Word, g: R.Guest)
    requires forall i :: 0 <= i < |insts| ==> R.WellFormed(insts[i])
    requires R.ZeroX0(g)
    ensures Lift0(insts, start, g) == Some(State(AllValues(insts, start, g), LiftedAll(insts, start, g)))
    ensures R.ZeroX0(LiftedAll(insts, start, g)) && |AllValues(insts, start, g)| == |LiftAll(insts)|
    decreases |insts|
  {
    hide R.ZeroX0, R.WellFormed, LiftedEffect, LiftInst, Values;
    if insts == [] {
      RunNothing(start, Some(State([], g)));
    } else {
      var n := |insts| - 1;
      LiftAllRuns(insts[..n], start, g);
      var s := State(AllValues(insts[..n], start, g), LiftedAll(insts[..n], start, g));
      LiftedRuns(insts[n], start, s);
      EffectKeepsZero(insts[n], start, s.g);
      RunAppend(LiftAll(insts[..n]), LiftInst(insts[n], |s.env|), start, Some(State([], g)));
      RunGrows(LiftAll(insts), start, State([], g));
    }
  }

  lemma {:induction false} FaithfulAll(insts: seq<R.DecodedInst>, start: Word, g: R.Guest)
    requires forall i :: 0 <= i < |insts| ==> Faithful(insts[i], start)
    ensures LiftedAll(insts, start, g) == ExecAll(insts, g)
    decreases |insts|
  {
    hide Faithful, R.Exec, LiftedEffect;
    if insts != [] {
      FaithfulAll(insts[..|insts| - 1], start, g);
      FaithfulEffect(insts[|insts| - 1], start, ExecAll(insts[..|insts| - 1], g));
    }
  }

  /** The IR of a straight line of faithful instructions leaves the guest the instructions leave. */
  lemma {:induction false} LiftRuns(insts: seq<R.DecodedInst>, start: Word, g: R.Guest)
    requires forall i :: 0 <= i < |insts| ==> R.WellFormed(insts[i]) && Faithful(insts[i], start)
    requires R.ZeroX0(g)
    ensures Lift0(insts, start, g).Some?
    ensures Lift0(insts, start, g).value.g == ExecAll(insts, g)
    ensures |Lift0(insts, start, g).value.env| == |LiftAll(insts)|
  {
    hide R.ZeroX0, R.WellFormed, Faithful, LiftAll, LiftedAll, AllValues, ExecAll, Lift0;
    LiftAllRuns(insts, start, g);
    FaithfulAll(insts, start, g);
  }

  lemma LastOfAppend(p: seq<Instr>, c: seq<Instr>)
    requires c != [] && c[|c| - 1].payload.ICmp? && c[|c| - 1].dest == Some(|p| + |c| - 1)
    ensures LastICmp(p + c) == |p| + |c| - 1
  {
    assert (p + c)[|p + c| - 1] == c[|c| - 1];
  }

  lemma BranchExpansion(inst: R.DecodedInst, p: seq<Instr>)
    requires inst.operands.Branch?
    ensures LastICmp(p + LiftInst(inst, |p|)) == |p| + 2 && |LiftInst(inst, |p|)| == 3
  {
    hide LastICmp, CondOf;
    LastOfAppend(p, LiftInst(inst, |p|));
  }

  /** The condition of a conditional branch is the value of its own comparison, whatever comes
      before. */
  lemma {:induction false} ConditionValue(insts: seq<R.DecodedInst>, start: Word, g: R.Guest)
    requires insts != [] && insts[|insts| - 1].operands.Branch? && R.ZeroX0(g)
    requires forall i :: 0 <= i < |insts| ==> R.WellFormed(insts[i])
    ensures
      var env := AllValues(insts, start, g);
      var last := insts[|insts| - 1];
      var cond := LastICmp(LiftAll(insts));
      var x := LiftedAll(insts, start, g).x;
      cond == |env| - 1 && |env| == |LiftAll(insts)|
      && env[cond]
        == Val(I1, R.Flag(R.BranchTaken(last.opcode, R.Reg(x, last.operands.rs1), R.Reg(x, last.operands.rs2))))
  {
    hide R.ZeroX0, R.WellFormed, R.BranchTaken, R.Flag, R.Reg, LiftInst, LastICmp, Lift0;
    var n := |insts| - 1;
    LiftAllRuns(insts, start, g);
    BranchExpansion(insts[n], LiftAll(insts[..n]));
  }

  /** The same over a faithful block. */
  lemma BranchCondition(insts: seq<R.DecodedInst>, start: Word, g: R.Guest)
    requires insts != [] && insts[|insts| - 1].operands.Branch? && R.ZeroX0(g)
    requires forall i :: 0 <= i < |insts| ==> R.WellFormed(insts[i]) && Faithful(insts[i], start)
    ensures Lift0(insts, start, g).Some?
    ensures
      var env := Lift0(insts, start, g).value.env;
      var last := insts[|insts| - 1];
      var cond := LastICmp(LiftAll(insts));
      var x := ExecAll(insts, g).x;
      cond == |env| - 1 && |env| == |LiftAll(insts)|
      && env[cond]
        == Val(I1, R.Flag(R.BranchTaken(last.opcode, R.Reg(x, last.operands.rs1), R.Reg(x, last.operands.rs2))))
  {
    hide R.ZeroX0, R.WellFormed, Faithful, R.BranchTaken, R.Flag, R.Reg, LastICmp, Lift0, LiftAll, LiftedAll, ExecAll,
         AllValues;
    LiftAllRuns(insts, start, g);
    ConditionValue(insts, start, g);
    FaithfulAll(insts, start, g);
  }

  /** Where an IR block goes from its final state. */
  function IrExit(term: Terminator, s: State): Reference.Config {
    match term
    case Br(target) => Reference.Running(target, s.g)
    case CBr(cond, t, f) =>
      if cond < |s.env| && s.env[cond] == Val(I1, 0) then Reference.Running(f, s.g) else Reference.Running(t, s.g)
    case BrIndirect(_) => Reference.Stopped(Reference.IndirectStop, s.g)
    case Ret => Reference.Stopped(Reference.ReturnStop, s.g)
    case Trap => Reference.Stopped(Reference.TrapStop, s.g)
    case NoTerm => Reference.Stopped(Reference.TrapStop, s.g)
  }

  lemma LastBranches(code: Code, stops: seq<Word>, bb: BasicBlock)
    requires Walks(code, stops, bb)
    ensures bb.term == CondBranch ==>
      bb.insts != [] && bb.insts[|bb.insts| - 1].operands.Branch? && |bb.succs| == 2
    ensures bb.term == Jump || bb.term == Fallthrough ==> |bb.succs| == 1
    ensures bb.term != TermKind.NoTerm
  {
    hide Decode, R.WellFormed, EndAfter, SuccsAfter;
    WalksAreWellFormed(code, stops, bb);
    var n := |bb.insts|;
    if n > 0 && EndAfter(bb.insts[n - 1]) != TermKind.NoTerm {
      EndShape(bb.insts[n - 1]);
    }
  }

  lemma EndShape(inst: R.DecodedInst)
    requires R.WellFormed(inst)
    ensures EndAfter(inst) == CondBranch ==> inst.operands.Branch? && |SuccsAfter(inst)| == 2
    ensures EndAfter(inst) == Jump ==> |SuccsAfter(inst)| == 1
    ensures EndAfter(inst) != Fallthrough
  {
    hide EndAfter, R.WellFormed, R.Bits, Add;
    EndKinds(inst);
  }

  /** Executing the IR of any block of the graph, from any state with x0 = 0, runs to its end: each
      instruction does what it does when lifted, and the block is left as its last instruction says
      on those registers. */
  lemma {:induction false} LiftMeans(code: Code, stops: seq<Word>, bb: BasicBlock, g: R.Guest)
    requires Walks(code, stops, bb) && R.ZeroX0(g)
    ensures
      var b := Lifted(bb);
      var o := Run(b.insts, b.start, Some(State([], g)));
      && o == Some(State(AllValues(bb.insts, bb.start, g), LiftedAll(bb.insts, bb.start, g)))
      && IrExit(b.term, o.value) == BlockExit(bb, LiftedAll(bb.insts, bb.start, g))
  {
    hide Walks, R.ZeroX0, R.WellFormed, R.BranchTaken, R.Reg, LastICmp, LiftAll, LiftedAll, AllValues, Run;
    WalksAreWellFormed(code, stops, bb);
    LiftAllRuns(bb.insts, bb.start, g);
    LastBranches(code, stops, bb);
    if bb.term == CondBranch {
      ConditionValue(bb.insts, bb.start, g);
    }
  }

  /** Executing the IR of a block of faithful instructions, from any state with x0 = 0, gives the
      registers, the memory and the next program counter of stepping its instructions one by one. */
  lemma LiftPreservesMeaning(code: Code, stops: seq<Word>, bb: BasicBlock, g: R.Guest)
    requires Walks(code, stops, bb) && FaithfulBlock(bb) && R.ZeroX0(g)
    ensures
      var b := Lifted(bb);
      var o := Run(b.insts, b.start, Some(State([], g)));
      && o.Some?
      && IrExit(b.term, o.value) == Reference.Run(code, Reference.Running(bb.start, g), StepsOf(bb))
  {
    hide Walks, R.ZeroX0, Faithful, ExecAll, Run, StepsOf, LiftedAll, AllValues, Lifted, IrExit, BlockExit;
    LiftMeans(code, stops, bb, g);
    FaithfulAll(bb.insts, bb.start, g);
    BlockRuns(code, stops, bb, g);
  }

  // ---------- x0 ----------

  lemma LiftInstSparesX0(inst: R.DecodedInst, n: nat)
    ensures forall i :: 0 <= i < |LiftInst(inst, n)| && LiftInst(inst, n)[i].payload.WriteReg? ==>
      LiftInst(inst, n)[i].payload.reg != 0
  {
    hide KindOf, CondOf, Add, R.Bits;
  }

  /** No lifted instruction names x0 as its destination. */
  lemma {:induction false} LiftSparesX0(insts: seq<R.DecodedInst>)
    ensures forall i :: 0 <= i < |LiftAll(insts)| && LiftAll(insts)[i].payload.WriteReg? ==>
      LiftAll(insts)[i].payload.reg != 0
    decreases |insts|
  {
    hide LiftInst;
    if insts != [] {
      LiftSparesX0(insts[..|insts| - 1]);
      LiftInstSparesX0(insts[|insts| - 1], |LiftAll(insts[..|insts| - 1])|);
    }
  }
}
