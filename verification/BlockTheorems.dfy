/** One block all the way: from its guest instructions to its emitted lines. */
module BlockTheorems {
  import opened Words
  import opened Labels
  import R = Riscv
  import Decoder
  import Reference
  import opened Cfg
  import CfgTheorems
  import IR
  import A = AArch64
  import Lifter
  import LifterTheorems
  import opened LiftBlock
  import opened ISel
  import opened ISelTheorems
  import opened ISelBlock
  import opened RegAlloc
  import opened Emitter
  import opened AllocSim
  import SelectedCode
  import Pressure
  import opened Runtime

  /** A block of the graph, lifted and selected. */
  function VBlock(bb: BasicBlock): A.Block {
    ISel.Selected(Lifter.Lifted(bb))
  }

  lemma {:induction false} VBlockIs(bb: BasicBlock)
    ensures VBlock(bb) == ISel.Selected(Lifter.Lifted(bb))
  {
  }

  /** The assignment comes from a live map that separates the registers of the block, sorted in
      some order. */
  ghost predicate ComesFrom(asg: Assignment, b: A.Block) {
    exists live, items :: Separates(live, b) && IsSorting(live, items) && Allocated(items) == Assigned(asg)
  }

  // ---------- The shape of graph blocks ----------

  lemma {:induction false} WalksEndWell(code: Decoder.Code, stops: seq<Word>, bb: BasicBlock)
    requires Walks(code, stops, bb)
    ensures Pressure.EndsWell(bb)
  {
    hide Decoder.Decode, SuccsAfter, EndAfter;
    WalksAreWellFormed(code, stops, bb);
    var n := |bb.insts|;
    if n > 0 && EndAfter(bb.insts[n - 1]) != TermKind.NoTerm {
      EndKindShape(bb.insts[n - 1]);
    }
  }

  lemma {:induction false} EndKindShape(inst: R.DecodedInst)
    requires R.WellFormed(inst)
    ensures EndAfter(inst) == CondBranch ==> inst.operands.Branch?
    ensures EndAfter(inst) == IndirectJump ==> inst.opcode.JALR? && inst.operands.RegMem?
  {
    hide R.Bits, R.SignedBelow;
  }

  lemma {:induction false} WellFormedFits(inst: R.DecodedInst, n: nat)
    requires R.WellFormed(inst)
    ensures OffsetsFit(Lifter.LiftInst(inst, n))
  {
    hide Lifter.KindOf, Lifter.CondOf, Lifter.Binop, Add, R.WellFormed, R.Bits, Fits32;
    OffsetsAreSmall(inst);
    match inst.operands
    case RegRegImm(rd, rs1, imm) => BinopFits(inst.opcode, IR.ReadReg(rs1), IR.Const(IR.I64, R.Bits(imm)), rd, n);
    case RegRegReg(rd, rs1, rs2) => BinopFits(inst.opcode, IR.ReadReg(rs1), IR.ReadReg(rs2), rd, n);
    case _ =>
  }

  lemma {:induction false} BinopFits(op: R.Opcode, first: IR.Payload, second: IR.Payload, rd: R.RegIndex, n: nat)
    requires OffsetFits(first) && OffsetFits(second)
    ensures OffsetsFit(Lifter.Binop(op, first, second, rd, n))
  {
    hide Lifter.KindOf;
  }

  lemma {:induction false} OffsetsAreSmall(inst: R.DecodedInst)
    requires R.WellFormed(inst)
    ensures inst.operands.RegMem? || inst.operands.MemReg? ==> Fits32(R.Bits(inst.operands.offset))
  {
  }

  lemma {:induction false} LiftedFits(insts: seq<R.DecodedInst>)
    requires forall i :: 0 <= i < |insts| ==> R.WellFormed(insts[i])
    ensures OffsetsFit(Lifter.LiftAll(insts))
    decreases |insts|
  {
    hide R.WellFormed, Lifter.LiftInst, OffsetFits;
    if insts != [] {
      LiftedFits(insts[..|insts| - 1]);
      WellFormedFits(insts[|insts| - 1], |Lifter.LiftAll(insts[..|insts| - 1])|);
    }
  }

  // ---------- One block ----------

  /** The guest as the translated code keeps it between blocks: registers and memory base in the
      guest state structure, memory displaced by the base. Nothing is asked of host registers. */
  ghost predicate HostState(g: R.Guest, base: Word, m: A.Machine) {
    && (forall r: R.RegIndex {:trigger R.Slot(g.x, r)} :: A.SlotAt(m.slots, 8 * r) == R.Slot(g.x, r))
    && A.SlotAt(m.slots, 256) == base
    && Shows(m.mem, base, g.mem)
  }

  /** The prologue brings the memory base to x21. */
  lemma {:induction false} PrologueLoadsBase(g: R.Guest, base: Word, m: A.Machine)
    requires HostState(g, base, m)
    ensures HostRel(g, base, A.Exec(PROLOGUE.i, m))
    ensures forall rest :: RunLines([PROLOGUE] + rest, m) == RunLines(rest, A.Exec(PROLOGUE.i, m))
  {
    hide Shows;
    var m1 := A.Exec(PROLOGUE.i, m);
    forall rest ensures RunLines([PROLOGUE] + rest, m) == RunLines(rest, m1) {
      assert ([PROLOGUE] + rest)[1..] == rest;
    }
  }

  /** A reference configuration and a point of the translated program that show the same guest
      registers and memory, and the same place or reason to stop. */
  ghost predicate Agrees(c: Reference.Config, base: Word, p: Point) {
    && HostState(c.g, base, p.m)
    && match c
       case Running(pc, _) => p.At? && p.name == Label(pc)
       case Stopped(TrapStop, _) => p.Halted? && p.exit == Broke
       case Stopped(ReturnStop, _) => p.Halted? && p.exit == Returned
       case Stopped(IndirectStop, _) => p.Halted? && p.exit == Call(DISPATCH)
  }

  lemma {:induction false} ExitsAgree(c: Reference.Config, base: Word, l: Leaving, h: Halt, vm: A.Machine)
    requires HostRel(c.g, base, vm) && ExitRel(c, l) && LeftAlike(l, h)
    requires h.m.slots == vm.slots && h.m.mem == vm.mem
    ensures Agrees(c, base, PointOf(h))
  {
    hide Label;
  }

  /** What is needed of a block of the graph on the way through the pipeline. */
  lemma {:induction false} BlockIsSound(code: Decoder.Code, stops: seq<Word>, bb: BasicBlock)
    requires Walks(code, stops, bb)
    ensures DefinedBeforeUse(VBlock(bb)) && OffsetsFit(Lifter.Lifted(bb).insts) && !Lifter.Lifted(bb).term.NoTerm?
  {
    hide Walks, R.WellFormed, Lifter.LiftAll, ISel.Selected, DefinedBeforeUse, Lifter.LiftTerm, IR.Ssa,
         SelectedCode.TermOk, OffsetsFit;
    WalksEndWell(code, stops, bb);
    Lifter.LiftIsSsa(bb.insts);
    Pressure.LiftedTermOk(bb);
    SelectedCode.SelectedDefinesFirst(Lifter.Lifted(bb));
    WalksAreWellFormed(code, stops, bb);
    LiftedFits(bb.insts);
    NeverOpen(bb);
  }

  lemma {:induction false} NeverOpen(bb: BasicBlock)
    ensures !Lifter.Lifted(bb).term.NoTerm?
  {
  }

  /** The condition of a lifted branch is a truth value when the IR has run. */
  lemma {:induction false} ConditionIsThere(code: Decoder.Code, stops: seq<Word>, bb: BasicBlock, g: R.Guest)
    requires Walks(code, stops, bb) && R.ZeroX0(g)
    ensures
      var b := Lifter.Lifted(bb);
      var o := IR.Run(b.insts, b.start, IR.Some(IR.State([], g)));
      o.Some? && (b.term.CBr? ==> IR.Has(o.value.env, b.term.cond, IR.I1))
  {
    hide Walks, R.ZeroX0, R.WellFormed, R.BranchTaken, R.Reg, R.Flag, Lifter.LastICmp, Lifter.LiftAll, IR.Run,
         LiftedAll, AllValues, IrExit, CfgTheorems.BlockExit;
    WalksAreWellFormed(code, stops, bb);
    LiftMeans(code, stops, bb, g);
    LastBranches(code, stops, bb);
    if bb.term == CondBranch {
      ConditionValue(bb.insts, bb.start, g);
    }
  }

  /** Emitted lines that follow the code selected from an IR block agree with where the IR goes. */
  lemma {:induction false} EmittedAgrees(ir: IR.Block, lines: seq<Line>, g: R.Guest, base: Word, m: A.Machine)
    requires OffsetsFit(ir.insts) && !ir.term.NoTerm? && HostState(g, base, m)
    requires IR.Run(ir.insts, ir.start, IR.Some(IR.State([], g))).Some?
    requires
      var t := IR.Run(ir.insts, ir.start, IR.Some(IR.State([], g))).value;
      ir.term.CBr? ==> IR.Has(t.env, ir.term.cond, IR.I1)
    requires
      var m1 := A.Exec(PROLOGUE.i, m);
      var vm := A.Run(Selected(ir).instrs, m1);
      var h := RunLines(lines, m1);
      LeftAlike(Leaves(Selected(ir).term, vm), h) && h.m.slots == vm.slots && h.m.mem == vm.mem
    ensures
      var t := IR.Run(ir.insts, ir.start, IR.Some(IR.State([], g))).value;
      Agrees(IrExit(ir.term, t), base, PointOf(RunLines([PROLOGUE] + lines, m)))
  {
    hide HostState, HostRel, Agrees, ISel.Selected, RunLines, LeftAlike, ExitRel, IrExit, OffsetsFit, A.Run, IR.Run,
         A.Exec, Leaves, PointOf, IR.Has;
    var m1 := A.Exec(PROLOGUE.i, m);
    PrologueLoadsBase(g, base, m);
    SelectionPreservesMeaning(ir, g, base, m1);
    var t := IR.Run(ir.insts, ir.start, IR.Some(IR.State([], g))).value;
    var vm := A.Run(Selected(ir).instrs, m1);
    GuestOfExit(ir.term, t);
    ExitsAgree(IrExit(ir.term, t), base, Leaves(Selected(ir).term, vm), RunLines(lines, m1), vm);
  }

  lemma {:induction false} GuestOfExit(term: IR.Terminator, t: IR.State)
    ensures IrExit(term, t).g == t.g
  {
  }

  /** Any block of the graph, faithful or not: from its label the emitted lines end in agreement with
      its lifted instructions and the way it is left on their registers. */
  lemma {:induction false} BlockAgreesLifted(code: Decoder.Code, stops: seq<Word>, bb: BasicBlock, asg: Assignment,
                                             g: R.Guest, base: Word, m: A.Machine)
    requires Walks(code, stops, bb) && R.ZeroX0(g)
    requires ComesFrom(asg, VBlock(bb)) && HostState(g, base, m)
    ensures
      var c := CfgTheorems.BlockExit(bb, LiftedAll(bb.insts, bb.start, g));
      Agrees(c, base, PointOf(RunLines(BlockLines(VBlock(bb), asg), m)))
  {
    hide Walks, R.ZeroX0, HostState, Agrees, ISel.Selected, Lifter.Lifted, RunLines, SameExit, LeftAlike, IrExit,
         OffsetsFit, DefinedBeforeUse, Separates, IsSorting, Allocated, A.Run, IR.Run, TermLines, Body, A.Exec,
         Leaves, PointOf, IR.Has, LiftedAll, AllValues, CfgTheorems.BlockExit;
    var b := VBlock(bb);
    var ir := Lifter.Lifted(bb);
    var m1 := A.Exec(PROLOGUE.i, m);
    BlockIsSound(code, stops, bb);
    ConditionIsThere(code, stops, bb, g);
    LiftMeans(code, stops, bb, g);
    var live, items :| Separates(live, b) && IsSorting(live, items) && Allocated(items) == Assigned(asg);
    AllocationPreservesMeaning(b, live, items, m1);
    var lines := Body(b.instrs, asg) + TermLines(b.term, asg);
    SameExitIsAlike(Leaves(b.term, A.Run(b.instrs, m1)), RunLines(lines, m1));
    EmittedAgrees(ir, lines, g, base, m);
  }

  /** One block of the translated program: from the label of a block of faithful instructions the
      emitted lines end in agreement with the reference machine after the steps of the block. */
  lemma {:induction false} BlockAgrees(code: Decoder.Code, stops: seq<Word>, bb: BasicBlock, asg: Assignment,
                                       g: R.Guest, base: Word, m: A.Machine)
    requires Walks(code, stops, bb) && FaithfulBlock(bb) && R.ZeroX0(g)
    requires ComesFrom(asg, VBlock(bb)) && HostState(g, base, m)
    ensures
      var c := Reference.Run(code, Reference.Running(bb.start, g), CfgTheorems.StepsOf(bb));
      Agrees(c, base, PointOf(RunLines(BlockLines(VBlock(bb), asg), m)))
  {
    hide Walks, R.ZeroX0, HostState, Agrees, VBlock, RunLines, BlockLines, ComesFrom, CfgTheorems.StepsOf,
         Reference.Run, PointOf, LiftedAll, CfgTheorems.BlockExit, CfgTheorems.ExecAll, LifterTheorems.Faithful;
    BlockAgreesLifted(code, stops, bb, asg, g, base, m);
    FaithfulAll(bb.insts, bb.start, g);
    CfgTheorems.BlockRuns(code, stops, bb, g);
  }
}
