/** The analysis as written: exactly which blocks are right for every order of their intervals. */
module AsWritten {
  import opened Words
  import opened Labels
  import R = Riscv
  import Decoder
  import Reference
  import opened Cfg
  import CfgTheorems
  import IR
  import A = AArch64
  import Lifter
  import LifterTheorems
  import opened LiftBlock
  import opened Liveness
  import opened RegAlloc
  import opened RegAllocTheorems
  import opened Emitter
  import opened AllocSim
  import opened SelectedCode
  import opened Sentinel
  import opened Runtime
  import opened BlockTheorems
  import opened Misread
  import opened MisreadCode
  import opened MisreadAlloc
  import opened MisreadTheorems
  import opened MisreadExact
  import opened Sensitivity

  // ---------- Right for every order ----------

  /** The emitted block, from any host state that shows the guest, agrees with stepping the block. */
  ghost predicate RightWith(bb: BasicBlock, items: seq<Item>, g: R.Guest, base: Word, m: A.Machine) {
    && Allocated(items).Assigned?
    && Agrees(Stepped(bb, g), base, PointOf(RunLines(BlockLines(VBlock(bb), Allocated(items).v2p), m)))
  }

  ghost predicate AlwaysRight(bb: BasicBlock) {
    forall items, g, base, m ::
      IsSorting(Analyzed(VBlock(bb)), items) && R.ZeroX0(g) && HostState(g, base, m) ==>
        RightWith(bb, items, g, base, m)
  }

  /** Some guest ends differently when the first lifted instruction reads its second operand
      twice. */
  ghost predicate MisreadShows(bb: BasicBlock) {
    ReadsTwoFirst(bb) && exists g :: R.ZeroX0(g) && !SameConfig(Stepped(bb, g), SteppedMisread(bb, g))
  }

  lemma {:induction false} OutlivedIsRight(code: Decoder.Code, stops: seq<Word>, bb: BasicBlock, items: seq<Item>,
                                           g: R.Guest, base: Word, m: A.Machine)
    requires Walks(code, stops, bb) && FaithfulBlock(bb) && R.ZeroX0(g) && Outlived(VBlock(bb))
    requires IsSorting(Analyzed(VBlock(bb)), items) && HostState(g, base, m)
    ensures RightWith(bb, items, g, base, m)
  {
    hide Walks, FaithfulBlock, R.ZeroX0, Outlived, IsSorting, Analyzed, HostState, Agrees, Separates, Allocated,
         VBlock, RunLines, BlockLines, PointOf, Stepped, Reference.Run, CfgTheorems.StepsOf, GoodAssignment;
    AnalysisSeparatesExactly(VBlock(bb));
    Allocates(bb, items);
    assert Allocated(items) == Assigned(Allocated(items).v2p);
    BlockAgrees(code, stops, bb, Allocated(items).v2p, g, base, m);
    SteppedIsRun(code, stops, bb, g);
  }

  lemma {:induction false} EitherIsRight(code: Decoder.Code, stops: seq<Word>, bb: BasicBlock, items: seq<Item>,
                                         g: R.Guest, base: Word, m: A.Machine)
    requires Walks(code, stops, bb) && FaithfulBlock(bb) && R.ZeroX0(g) && !MisreadShows(bb)
    requires IsSorting(Analyzed(VBlock(bb)), items) && HostState(g, base, m)
    ensures RightWith(bb, items, g, base, m)
  {
    hide Walks, FaithfulBlock, R.ZeroX0, Outlived, IsSorting, Analyzed, HostState, Agrees, Allocated, VBlock,
         SameConfig, RunLines, BlockLines, PointOf, Stepped, SteppedMisread, ReadsTwoFirst;
    if ReadsTwoFirst(bb) {
      EitherWay(code, stops, bb, items, g, base, m);
      var v2p := Allocated(items).v2p;
      var p := PointOf(RunLines(BlockLines(VBlock(bb), v2p), m));
      SameIsSymmetric(Stepped(bb, g), SteppedMisread(bb, g));
      if v2p[1] == v2p[2] {
        AgreementIsSameness(SteppedMisread(bb, g), Stepped(bb, g), base, p);
      }
    } else {
      OtherIsOutlived(code, stops, bb);
      OutlivedIsRight(code, stops, bb, items, g, base, m);
    }
  }

  lemma {:induction false} SameIsSymmetric(c: Reference.Config, d: Reference.Config)
    ensures SameConfig(c, d) <==> SameConfig(d, c)
  {
  }

  lemma {:induction false} ShownIsWrong(code: Decoder.Code, stops: seq<Word>, bb: BasicBlock)
    returns (items: seq<Item>, g: R.Guest, m: A.Machine)
    requires Walks(code, stops, bb) && FaithfulBlock(bb) && MisreadShows(bb)
    ensures IsSorting(Analyzed(VBlock(bb)), items) && R.ZeroX0(g) && HostState(g, 0, m)
    ensures !RightWith(bb, items, g, 0, m)
  {
    hide Walks, FaithfulBlock, R.ZeroX0, IsSorting, Analyzed, HostState, Agrees, Allocated, VBlock, SameConfig,
         RunLines, BlockLines, PointOf, Stepped, SteppedMisread, ReadsTwoFirst;
    g :| R.ZeroX0(g) && !SameConfig(Stepped(bb, g), SteppedMisread(bb, g));
    items := ClashExists(code, stops, bb);
    m := HostExists(g);
    EitherWay(code, stops, bb, items, g, 0, m);
    var p := PointOf(RunLines(BlockLines(VBlock(bb), Allocated(items).v2p), m));
    SameIsSymmetric(Stepped(bb, g), SteppedMisread(bb, g));
    AgreementIsSameness(SteppedMisread(bb, g), Stepped(bb, g), 0, p);
  }

  /** With the analysis as written, the emitted block agrees with the reference machine for every
      order of the intervals and every guest if and only if the block cannot show that its first
      lifted instruction reads its second operand twice. */
  lemma {:induction false} RightExactly(code: Decoder.Code, stops: seq<Word>, bb: BasicBlock)
    requires Walks(code, stops, bb) && FaithfulBlock(bb)
    ensures AlwaysRight(bb) <==> !MisreadShows(bb)
  {
    hide Walks, FaithfulBlock, MisreadShows, RightWith, IsSorting, Analyzed, HostState, VBlock, R.ZeroX0;
    if MisreadShows(bb) {
      var items, g, m := ShownIsWrong(code, stops, bb);
      assert !RightWith(bb, items, g, 0, m);
    } else {
      forall items, g, base, m | IsSorting(Analyzed(VBlock(bb)), items) && R.ZeroX0(g) && HostState(g, base, m)
        ensures RightWith(bb, items, g, base, m)
      {
        EitherIsRight(code, stops, bb, items, g, base, m);
      }
    }
  }

  // ---------- Told from the guest code ----------

  /** The first lifted instruction notices when its second operand is read twice. */
  ghost predicate Misreads(bb: BasicBlock) {
    ReadsTwoFirst(bb) && Sensitive(bb.insts[FirstLifted(bb.insts)])
  }

  /** The register an instruction writes; x0 when it writes none. */
  function Written(inst: R.DecodedInst): R.RegIndex {
    match inst.operands
    case RegImm(rd, _) => rd
    case RegMem(rd, _, _) => rd
    case RegRegImm(rd, _, _) => rd
    case RegRegReg(rd, _, _) => rd
    case _ => 0
  }

  /** No later instruction of the block writes the register of the first lifted one. */
  ghost predicate ResultKept(bb: BasicBlock) {
    var f := FirstLifted(bb.insts);
    f < |bb.insts| ==> forall k :: f < k < |bb.insts| ==> Written(bb.insts[k]) != Written(bb.insts[f])
  }

  lemma {:induction false} ExecKeeps(inst: R.DecodedInst, g: R.Guest, r: R.RegIndex)
    requires Written(inst) != r
    ensures R.Slot(R.Exec(inst, g).x, r) == R.Slot(g.x, r)
  {
    hide R.BinaryResult, R.LoadResult, StoreBytes, R.Bits, Add;
  }

  lemma {:induction false} ExecAllKeeps(insts: seq<R.DecodedInst>, g: R.Guest, r: R.RegIndex)
    requires forall k :: 0 <= k < |insts| ==> Written(insts[k]) != r
    ensures R.Slot(CfgTheorems.ExecAll(insts, g).x, r) == R.Slot(g.x, r)
    decreases |insts|
  {
    hide R.Exec, Written;
    if insts != [] {
      ExecAllKeeps(insts[..|insts| - 1], g, r);
      ExecKeeps(insts[|insts| - 1], CfgTheorems.ExecAll(insts[..|insts| - 1], g), r);
    }
  }

  lemma {:induction false} ExitGuest(bb: BasicBlock, g: R.Guest)
    ensures CfgTheorems.BlockExit(bb, g).g == g
  {
    hide R.BranchTaken, R.Reg;
  }

  lemma {:induction false} SteppedBranch(code: Decoder.Code, stops: seq<Word>, bb: BasicBlock, g: R.Guest)
    requires Walks(code, stops, bb) && FaithfulBlock(bb) && R.ZeroX0(g) && ReadsTwoFirst(bb)
    requires bb.insts[FirstLifted(bb.insts)].operands.Branch?
    ensures
      var inst := bb.insts[FirstLifted(bb.insts)];
      var taken := R.BranchTaken(inst.opcode, R.Reg(g.x, inst.operands.rs1), R.Reg(g.x, inst.operands.rs2));
      && |bb.succs| == 2 && bb.succs[0] == Add(inst.pc, R.Bits(inst.operands.imm)) && bb.succs[1] == Add(inst.pc, 4)
      && Stepped(bb, g) == Reference.Running(if taken then bb.succs[0] else bb.succs[1], g)
  {
    hide Walks, R.BranchTaken, R.Reg, R.WellFormed, LifterTheorems.Faithful, R.ZeroX0, FirstLifted, Stepped, R.Bits,
         Add;
    var f := FirstLifted(bb.insts);
    WalksAreWellFormed(code, stops, bb);
    OnlyLastBranches(code, stops, bb, f);
    SteppedSplits(bb, g);
    BranchChangesNothing(bb.insts[f], g);
    BranchSuccs(code, stops, bb);
    assert bb.insts[f + 1..] == [];
    assert CfgTheorems.ExecAll([], g) == g;
  }

  lemma {:induction false} BranchSuccs(code: Decoder.Code, stops: seq<Word>, bb: BasicBlock)
    requires Walks(code, stops, bb) && bb.term == CondBranch
    ensures bb.insts != [] && bb.succs == SuccsAfter(bb.insts[|bb.insts| - 1])
  {
    hide Decoder.Decode, EndAfter, SuccsAfter;
  }

  lemma {:induction false} AddTells(pc: Word, a: Word, b: Word)
    ensures Add(pc, a) == Add(pc, b) <==> a == b
  {
  }

  /** On one guest, when the result is kept: the outcomes differ exactly if the instruction tells. */
  lemma {:induction false} TellingShows(code: Decoder.Code, stops: seq<Word>, bb: BasicBlock, g: R.Guest)
    requires Walks(code, stops, bb) && FaithfulBlock(bb) && R.ZeroX0(g) && ReadsTwoFirst(bb)
    ensures !Tells(bb.insts[FirstLifted(bb.insts)], g) ==> SameConfig(Stepped(bb, g), SteppedMisread(bb, g))
    ensures Tells(bb.insts[FirstLifted(bb.insts)], g) && ResultKept(bb) ==>
      !SameConfig(Stepped(bb, g), SteppedMisread(bb, g))
  {
    hide Walks, R.BranchTaken, R.Reg, R.WellFormed, LifterTheorems.Faithful, R.ZeroX0, FirstLifted, Stepped, R.Bits,
         Add, MisreadExec, R.Exec, TwoOperands, CfgTheorems.BlockExit, CfgTheorems.ExecAll, Written;
    var f := FirstLifted(bb.insts);
    var inst := bb.insts[f];
    WalksAreWellFormed(code, stops, bb);
    SameIsReflexive(Stepped(bb, g));
    if inst.operands.Branch? {
      SteppedBranch(code, stops, bb, g);
      AddTells(inst.pc, R.Bits(inst.operands.imm), 4);
    } else {
      SteppedSplits(bb, g);
      var g1, g2 := R.Exec(inst, g), MisreadExec(inst, g);
      var rest := bb.insts[f + 1..];
      ExitGuest(bb, CfgTheorems.ExecAll(rest, g1));
      ExitGuest(bb, CfgTheorems.ExecAll(rest, g2));
      if Tells(inst, g) && ResultKept(bb) {
        TellsAtWritten(inst, g);
        ExecAllKeeps(rest, g1, Written(inst));
        ExecAllKeeps(rest, g2, Written(inst));
      }
    }
  }

  lemma {:induction false} SameIsReflexive(c: Reference.Config)
    ensures SameConfig(c, c)
  {
  }

  lemma {:induction false} TellsAtWritten(inst: R.DecodedInst, g: R.Guest)
    requires TwoOperands(inst) && !inst.operands.Branch? && Tells(inst, g)
    ensures R.Slot(R.Exec(inst, g).x, Written(inst)) != R.Slot(MisreadExec(inst, g).x, Written(inst))
  {
    hide R.BinaryResult, R.Bits, Add, R.Reg, LifterTheorems.HasLowering;
    SetGuests(g, Written(inst));
  }

  lemma {:induction false} SetGuests(g: R.Guest, rd: R.RegIndex)
    ensures forall v, w :: R.SetReg(g, rd, v) != R.SetReg(g, rd, w) ==>
      R.Slot(R.SetReg(g, rd, v).x, rd) != R.Slot(R.SetReg(g, rd, w).x, rd)
  {
    forall v, w ensures R.SetReg(g, rd, v) != R.SetReg(g, rd, w) ==>
      R.Slot(R.SetReg(g, rd, v).x, rd) != R.Slot(R.SetReg(g, rd, w).x, rd)
    {
      SetTells(g, rd, v, w);
      SetTells(g, rd, w, v);
    }
  }

  /** A block that does not misread is right for every order; and if the result of its first
      lifted instruction is kept, only then. */
  lemma {:induction false} MisreadsExactly(code: Decoder.Code, stops: seq<Word>, bb: BasicBlock)
    requires Walks(code, stops, bb) && FaithfulBlock(bb)
    ensures !Misreads(bb) ==> AlwaysRight(bb)
    ensures ResultKept(bb) ==> (AlwaysRight(bb) <==> !Misreads(bb))
  {
    hide Walks, FaithfulBlock, AlwaysRight, R.ZeroX0, Tells, Sensitive, SameConfig, Stepped, SteppedMisread,
         ReadsTwoFirst, ResultKept, FirstLifted, R.WellFormed;
    RightExactly(code, stops, bb);
    if ReadsTwoFirst(bb) {
      var inst := FirstIs(bb);
      WalksAreWellFormed(code, stops, bb);
      SensitiveExactly(inst);
      forall g | R.ZeroX0(g)
        ensures !Tells(inst, g) ==> SameConfig(Stepped(bb, g), SteppedMisread(bb, g))
        ensures Tells(inst, g) && ResultKept(bb) ==> !SameConfig(Stepped(bb, g), SteppedMisread(bb, g))
      {
        TellingShows(code, stops, bb, g);
      }
    }
  }

  lemma {:induction false} FirstIs(bb: BasicBlock) returns (inst: R.DecodedInst)
    requires ReadsTwoFirst(bb)
    ensures FirstLifted(bb.insts) < |bb.insts| && inst == bb.insts[FirstLifted(bb.insts)] && TwoOperands(inst)
  {
    hide FirstLifted, TwoOperands;
    inst := bb.insts[FirstLifted(bb.insts)];
  }

  /** The assignment comes from the analysis as written, in some order. */
  ghost predicate FromAnalysis(asg: Assignment, bb: BasicBlock) {
    exists items :: IsSorting(Analyzed(VBlock(bb)), items) && Allocated(items) == Assigned(asg)
  }

  /** An assignment the theorems about whole programs can use: one that keeps registers apart, or
      one of the analysis as written for a block that does not misread. */
  ghost predicate Sound(asg: Assignment, bb: BasicBlock) {
    ComesFrom(asg, VBlock(bb)) || (FromAnalysis(asg, bb) && !Misreads(bb))
  }

  lemma {:induction false} SoundAgrees(code: Decoder.Code, stops: seq<Word>, bb: BasicBlock, asg: Assignment,
                                       g: R.Guest, base: Word, m: A.Machine)
    requires Walks(code, stops, bb) && FaithfulBlock(bb) && R.ZeroX0(g)
    requires Sound(asg, bb) && HostState(g, base, m)
    ensures
      var c := Reference.Run(code, Reference.Running(bb.start, g), CfgTheorems.StepsOf(bb));
      Agrees(c, base, PointOf(RunLines(BlockLines(VBlock(bb), asg), m)))
  {
    hide Walks, FaithfulBlock, R.ZeroX0, HostState, Agrees, RunLines, BlockLines, PointOf, Stepped, ComesFrom,
         Misreads, Reference.Run, CfgTheorems.StepsOf, IsSorting, Allocated, Analyzed, VBlock;
    if ComesFrom(asg, VBlock(bb)) {
      BlockAgrees(code, stops, bb, asg, g, base, m);
    } else {
      var items :| IsSorting(Analyzed(VBlock(bb)), items) && Allocated(items) == Assigned(asg);
      MisreadsExactly(code, stops, bb);
      assert RightWith(bb, items, g, base, m);
      SteppedIsRun(code, stops, bb, g);
    }
  }

  /** An assignment from the pool for every register the block names. */
  ghost predicate Allotted(asg: Assignment, bb: BasicBlock) {
    Mapped(VBlock(bb), asg) && forall v :: v in asg ==> asg[v] in POOL
  }

  /** The first two values share a register. */
  predicate Clashes(asg: Assignment) {
    1 in asg && 2 in asg && asg[1] == asg[2]
  }

  /** What the emitted block does with an assignment of the analysis as written. */
  ghost function SteppedAsWritten(bb: BasicBlock, asg: Assignment, g: R.Guest): Reference.Config {
    if ReadsTwoFirst(bb) && Clashes(asg) then SteppedMisread(bb, g) else Stepped(bb, g)
  }

  lemma {:induction false} AgreesAsWritten(code: Decoder.Code, stops: seq<Word>, bb: BasicBlock, asg: Assignment,
                                           g: R.Guest, base: Word, m: A.Machine)
    requires Walks(code, stops, bb) && FaithfulBlock(bb) && R.ZeroX0(g)
    requires FromAnalysis(asg, bb) && HostState(g, base, m)
    ensures Agrees(SteppedAsWritten(bb, asg, g), base, PointOf(RunLines(BlockLines(VBlock(bb), asg), m)))
  {
    hide Walks, FaithfulBlock, R.ZeroX0, HostState, Agrees, RunLines, BlockLines, PointOf, Stepped, SteppedMisread,
         IsSorting, Allocated, Analyzed, VBlock, ReadsTwoFirst, Outlived;
    var items :| IsSorting(Analyzed(VBlock(bb)), items) && Allocated(items) == Assigned(asg);
    if ReadsTwoFirst(bb) {
      EitherWay(code, stops, bb, items, g, base, m);
    } else {
      OtherIsOutlived(code, stops, bb);
      OutlivedIsRight(code, stops, bb, items, g, base, m);
    }
  }

  lemma {:induction false} ExitGoesOn(bb: BasicBlock, g: R.Guest)
    ensures
      var c := CfgTheorems.BlockExit(bb, g);
      c.g == g && (c.Running? ==> c.pc in bb.succs)
  {
    hide R.BranchTaken, R.Reg;
  }

  /** It keeps x0 zero and goes on at a successor of the block. */
  lemma {:induction false} AsWrittenGoesOn(code: Decoder.Code, stops: seq<Word>, bb: BasicBlock, asg: Assignment,
                                           g: R.Guest)
    requires Walks(code, stops, bb) && R.ZeroX0(g)
    ensures
      var c := SteppedAsWritten(bb, asg, g);
      R.ZeroX0(c.g) && (c.Running? ==> c.pc in bb.succs)
  {
    hide Walks, R.ZeroX0, FirstLifted, TwoOperands, R.BranchTaken, MisreadExec, CfgTheorems.ExecAll,
         CfgTheorems.BlockExit;
    ExecAllKeepsZero(bb.insts[0..], g);
    ExitGoesOn(bb, CfgTheorems.ExecAll(bb.insts[0..], g));
    if ReadsTwoFirst(bb) {
      var f := FirstLifted(bb.insts);
      OnlyLastBranches(code, stops, bb, f);
      MisreadKeepsZero(bb.insts[f], g);
      ExecAllKeepsZero(bb.insts[f + 1..], MisreadExec(bb.insts[f], g));
      ExitGoesOn(bb, CfgTheorems.ExecAll(bb.insts[f + 1..], MisreadExec(bb.insts[f], g)));
    }
  }

  // ---------- Branches ----------

  lemma {:induction false} FirstTwoInOrder(live: LiveMap, s: nat, items: seq<Item>)
    requires IsSorting(live, items) && s >= 2
    requires 1 in live && 2 in live && live[2] == LiveRange(1, s) && live[1].start == s
    requires forall w :: w in live && w != 1 && w != 2 ==> live[w].start > s
    ensures |items| >= 2 && items[0] == Item(2, live[2]) && items[1] == Item(1, live[1])
  {
    hide IsSorting;
    var i := IndexOf(live, items, 2);
    if i > 0 {
      EarlierItem(live, items, 0, i);
      assert false;
    }
    var j := IndexOf(live, items, 1);
    if j > 1 {
      EarlierItem(live, items, 1, j);
      EarlierItem(live, items, 0, 1);
      assert false;
    }
  }

  lemma {:induction false} EarlierItem(live: LiveMap, items: seq<Item>, i: nat, j: nat)
    requires IsSorting(live, items) && i < j < |items|
    ensures items[i].v in live && live[items[i].v] == items[i].lr
    ensures items[i].v != items[j].v && items[i].lr.start <= items[j].lr.start
  {
  }

  lemma {:induction false} CompareTouches(i: A.Instr)
    requires OperationCode([i]) && i.Cmp?
    ensures forall v :: v in T(i) ==> v <= 2
  {
    TouchTwo(A.RegOp(i.a), A.RegOp(i.b));
  }

  lemma {:induction false} LaterThanCompare(b: A.Block, s: nat, w: nat)
    requires HeadedBlock(b, s) && OperationCode([b.instrs[s]]) && b.instrs[s].Cmp?
    requires w in Analyzed(b) && w != 1 && w != 2
    ensures Analyzed(b)[w].start > s
  {
    hide Touched, Analyzed, T, OperationCode, HeadedBlock;
    SIsPositive(b, s);
    HeadIntervals(b, s);
    AnalyzeIsExact(b, w);
    CompareTouches(b.instrs[s]);
    BodyTouch(b, w, s);
    HeadTouched(b, s, w, 0);
    HeadTouched(b, s, w, s);
    assert Touched(b, w, Analyzed(b)[w].start);
    NotOne(b, s, w);
  }

  lemma {:induction false} NotOne(b: A.Block, s: nat, w: nat)
    requires HeadedBlock(b, s) && w != 1
    ensures !Touched(b, w, 0)
  {
    hide HeadedBlock, Touched;
    HeadTouched(b, s, w, 0);
  }

  lemma {:induction false} BranchHead(bb: BasicBlock)
    requires ReadsTwoFirst(bb) && bb.insts[FirstLifted(bb.insts)].operands.Branch?
    ensures |IrOf(bb)| >= 3 && IrOf(bb)[2].payload.ICmp?
  {
    hide FirstLifted, Lifter.CondOf;
    FirstExpansionLeads(bb.insts);
    var c := Lifter.LiftInst(bb.insts[FirstLifted(bb.insts)], 0);
    assert c[2] == IrOf(bb)[2];
  }

  /** When the first lifted instruction is a branch, every order gives its operands one register. */
  lemma {:induction false} BranchAlwaysClashes(code: Decoder.Code, stops: seq<Word>, bb: BasicBlock, items: seq<Item>)
    requires Walks(code, stops, bb) && ReadsTwoFirst(bb) && bb.insts[FirstLifted(bb.insts)].operands.Branch?
    requires IsSorting(Analyzed(VBlock(bb)), items)
    ensures Allocated(items).Assigned? && 1 in Allocated(items).v2p && 2 in Allocated(items).v2p
    ensures Allocated(items).v2p[1] == Allocated(items).v2p[2]
  {
    hide Walks, Analyzed, ReadsTwoFirst, HeadedBlock, OpAt, Lifter.LiftAll, IsSorting, ScanAll, VBlock, POOL,
         GoodAssignment, Touched, CodeOf, T, OperationCode, Reread, Twisted, TwoValueHead, IR.Ssa, FirstLifted;
    HeadedIs(code, stops, bb);
    HeadOfBlock(bb);
    BranchHead(bb);
    HeadIsTouched(IrOf(bb), bb.start);
    var b, s := VBlock(bb), OpAt(IrOf(bb), bb.start);
    var live := Analyzed(b);
    HeadIntervals(b, s);
    SIsPositive(b, s);
    forall w | w in live && w != 1 && w != 2 ensures live[w].start > s {
      LaterThanCompare(b, s, w);
    }
    FirstTwoInOrder(live, s, items);
    Allocates(bb, items);
    ClashBegun(items[0], items[1]);
    SortedAreDistinct(live, items);
    assert items[..2] == [items[0], items[1]];
    OneTakenMap(items[1], map[2 := 28, 1 := 28]);
    AssignmentKeeps(items, 2, 1);
    AssignmentKeeps(items, 2, 2);
  }

  /** A comparison of a value with itself comes out the same whatever the value. */
  lemma {:induction false} BranchOnEqual(op: R.Opcode, b: Word)
    requires R.IsCondBranch(op)
    ensures R.BranchTaken(op, b, b) <==> op.BEQ? || op.BGE? || op.BGEU?
  {
    hide Signed;
  }

  /** With the analysis as written, a block whose first lifted instruction is a branch always goes
      the same way, for every order of its intervals, every guest and every host state: BEQ, BGE and
      BGEU are always taken, BNE, BLT and BLTU never. */
  lemma {:induction false} FirstBranchIsConstant(code: Decoder.Code, stops: seq<Word>, bb: BasicBlock, items: seq<Item>,
                                                 g: R.Guest, base: Word, m: A.Machine)
    requires Walks(code, stops, bb) && FaithfulBlock(bb) && R.ZeroX0(g) && ReadsTwoFirst(bb)
    requires bb.insts[FirstLifted(bb.insts)].operands.Branch?
    requires IsSorting(Analyzed(VBlock(bb)), items) && HostState(g, base, m)
    ensures Allocated(items).Assigned? && |bb.succs| == 2
    ensures
      var inst := bb.insts[FirstLifted(bb.insts)];
      var taken := inst.opcode.BEQ? || inst.opcode.BGE? || inst.opcode.BGEU?;
      var p := PointOf(RunLines(BlockLines(VBlock(bb), Allocated(items).v2p), m));
      p.At? && p.name == Label(if taken then bb.succs[0] else bb.succs[1])
  {
    hide Walks, FaithfulBlock, R.ZeroX0, HostState, RunLines, Analyzed, R.WellFormed, Label, PointOf, IsSorting,
         Allocated, VBlock, BlockLines, FirstLifted, TwoOperands, R.BranchTaken, SecondOperand;
    var inst := bb.insts[FirstLifted(bb.insts)];
    EitherWay(code, stops, bb, items, g, base, m);
    BranchAlwaysClashes(code, stops, bb, items);
    WalksAreWellFormed(code, stops, bb);
    BranchOps(inst);
    BranchOnEqual(inst.opcode, SecondOperand(inst, g));
    OnlyLastBranches(code, stops, bb, FirstLifted(bb.insts));
  }

  // ---------- A result that is not kept ----------

  /** ADD x3, x1, x2 and then ADDI x3, x0, 5, before memory that cannot be read. */
  function Overwritten(): BasicBlock {
    var add := R.DecodedInst(0, R.ADD, R.RegRegReg(3, 1, 2));
    var set5 := R.DecodedInst(4, R.ADDI, R.RegRegImm(3, 0, 5));
    BasicBlock(0, [add, set5], Cfg.Trap, [])
  }

  function OverwrittenCode(): Decoder.Code {
    map[0 := Decoder.Encode(R.ADD, R.RegRegReg(3, 1, 2)), 4 := Decoder.Encode(R.ADDI, R.RegRegImm(3, 0, 5))]
  }

  lemma {:induction false} DecodesAt(code: Decoder.Code, pc: Word, op: R.Opcode, o: R.Operands)
    requires pc % 4 == 0 && pc in code && R.Encodable(op, o) && code[pc] == Decoder.Encode(op, o)
    ensures Decoder.Decode(code, pc) == Decoder.Success(R.DecodedInst(pc, op, o))
  {
    hide Decoder.DecodeWord, Decoder.Encode, R.Encodable;
    Decoder.DecodeInvertsEncode(op, o);
  }

  lemma {:induction false} OverwrittenIsFaithful()
    ensures FaithfulBlock(Overwritten())
  {
  }

  lemma {:induction false} OverwrittenWalks()
    ensures Walks(OverwrittenCode(), [0], Overwritten())
  {
    hide Decoder.DecodeWord, Decoder.Encode, Decoder.Decode, SuccsAfter;
    var code := OverwrittenCode();
    DecodesAt(code, 0, R.ADD, R.RegRegReg(3, 1, 2));
    DecodesAt(code, 4, R.ADDI, R.RegRegImm(3, 0, 5));
    UnmappedFails(code, 8);
    assert PcAt(0, 1) == 4 && PcAt(0, 2) == 8;
  }

  lemma {:induction false} UnmappedFails(code: Decoder.Code, pc: Word)
    requires pc !in code
    ensures Decoder.Decode(code, pc).Failure?
  {
    hide Decoder.DecodeWord;
  }

  lemma {:induction false} OverwrittenSteps(g: R.Guest)
    requires R.ZeroX0(g)
    ensures FirstLifted(Overwritten().insts) == 0 && ReadsTwoFirst(Overwritten())
    ensures SteppedMisread(Overwritten(), g) == SteppedFrom(Overwritten(), 1, MisreadExec(Overwritten().insts[0], g))
    ensures Stepped(Overwritten(), g) == SteppedFrom(Overwritten(), 1, R.Exec(Overwritten().insts[0], g))
  {
    var bb := Overwritten();
    assert Lifter.LiftInst(bb.insts[0], 0) != [];
    assert bb.insts[0..] == bb.insts && bb.insts[..1] == [bb.insts[0]] && bb.insts[1..] == [bb.insts[1]];
    assert [bb.insts[0]][..0] == [];
    assert CfgTheorems.ExecAll([bb.insts[0]], g) == R.Exec(bb.insts[0], g);
    ExecAppend([bb.insts[0]], [bb.insts[1]], g);
    assert [bb.insts[0]] + [bb.insts[1]] == bb.insts;
  }

  lemma {:induction false} SetTwice(g: R.Guest, r: R.RegIndex, v: Word, w: Word)
    ensures R.SetReg(R.SetReg(g, r, v), r, w) == R.SetReg(g, r, w)
  {
    assert r != 0 ==> g.x[r := v][r := w] == g.x[r := w];
  }

  /** A block can misread and be right all the same, when what it misreads is overwritten. */
  lemma {:induction false} MisreadMayNotShow()
    ensures Walks(OverwrittenCode(), [0], Overwritten()) && FaithfulBlock(Overwritten())
    ensures Misreads(Overwritten()) && AlwaysRight(Overwritten())
  {
    hide AlwaysRight, Walks, FaithfulBlock, R.BinaryResult, SteppedMisread, Stepped;
    var bb := Overwritten();
    OverwrittenWalks();
    OverwrittenIsFaithful();
    RightExactly(OverwrittenCode(), [0], bb);
    OverwrittenSteps(R.Guest(map[], map[]));
    forall g | R.ZeroX0(g) ensures SameConfig(Stepped(bb, g), SteppedMisread(bb, g)) {
      OverwrittenSteps(g);
      SecondSets(g);
      SameIsReflexive(Stepped(bb, g));
    }
  }

  lemma {:induction false} SecondSets(g: R.Guest)
    ensures
      var bb := Overwritten();
      SteppedFrom(bb, 1, R.Exec(bb.insts[0], g)) == SteppedFrom(bb, 1, MisreadExec(bb.insts[0], g))
  {
    hide R.BinaryResult;
    var bb := Overwritten();
    var inst := bb.insts[0];
    assert bb.insts[1..] == [bb.insts[1]] && [bb.insts[1]][..0] == [];
    var b := SecondOperand(inst, g);
    var v, w := R.BinaryResult(R.ADD, R.Reg(g.x, 1), b), R.BinaryResult(R.ADD, b, b);
    var last := R.BinaryResult(R.ADDI, 0, R.Bits(5));
    SetTwice(g, 3, v, last);
    SetTwice(g, 3, w, last);
    assert CfgTheorems.ExecAll([bb.insts[1]], R.SetReg(g, 3, v)) == R.SetReg(R.SetReg(g, 3, v), 3, last);
    assert CfgTheorems.ExecAll([bb.insts[1]], R.SetReg(g, 3, w)) == R.SetReg(R.SetReg(g, 3, w), 3, last);
  }
}
