/** Indirect jumps: the value the lifted terminator names, what assignments that keep registers
    apart dispatch to, and exactly when that is the target RISC-V computes. */
module Indirect {
  import opened Words
  import R = Riscv
  import Decoder
  import opened Cfg
  import opened CfgTheorems
  import IR
  import A = AArch64
  import Lifter
  import opened LifterTheorems
  import opened LiftBlock
  import opened ISel
  import opened ISelTheorems
  import opened ISelBlock
  import opened RegAlloc
  import opened Emitter
  import opened AllocSim
  import opened BlockTheorems
  import opened Misread

  // ---------- What is dispatched ----------

  /** The value an expansion begins with: its first operand, or the block start for AUIPC. */
  function FirstOperand(inst: R.DecodedInst, start: Word, g: R.Guest): Word {
    match inst.operands
    case NoOperands => 0
    case RegImm(_, _) => if inst.opcode.AUIPC? then start else Add(inst.pc, 4)
    case RegMem(_, base, _) => R.Reg(g.x, base)
    case MemReg(base, _, _) => R.Reg(g.x, base)
    case RegRegImm(_, rs1, _) => R.Reg(g.x, rs1)
    case Branch(rs1, _, _) => R.Reg(g.x, rs1)
    case RegRegReg(_, rs1, _) => R.Reg(g.x, rs1)
  }

  /** A block that ends in a JALR which is not a return. */
  ghost predicate EndsIndirect(bb: BasicBlock) {
    && bb.term == IndirectJump && bb.insts != []
    && bb.insts[|bb.insts| - 1].opcode.JALR? && bb.insts[|bb.insts| - 1].operands.RegMem?
    && FirstLifted(bb.insts) < |bb.insts|
  }

  /** The target RISC-V computes: the masked sum, on the registers before the JALR. */
  ghost function TrueTarget(bb: BasicBlock, g: R.Guest): Word
    requires EndsIndirect(bb)
  {
    var n := |bb.insts| - 1;
    R.JalrTarget(R.Reg(ExecAll(bb.insts[..n], g).x, bb.insts[n].operands.base), bb.insts[n].operands.offset)
  }

  /** What the translated code dispatches to: the return address when no link register is written,
      and otherwise the first value of the block. */
  ghost function Dispatched(bb: BasicBlock, g: R.Guest): Word
    requires EndsIndirect(bb)
  {
    var last := bb.insts[|bb.insts| - 1];
    if last.operands.rd == 0 then Add(last.pc, 4) else FirstOperand(bb.insts[FirstLifted(bb.insts)], bb.start, g)
  }

  lemma {:induction false} JalrExpansion(inst: R.DecodedInst, n: nat)
    requires inst.opcode.JALR? && inst.operands.RegMem?
    ensures
      var c := Lifter.LiftInst(inst, n);
      && |c| == (if inst.operands.rd == 0 then 6 else 7)
      && (inst.operands.rd == 0 ==> c[5] == Lifter.Def(n + 5, IR.Const(IR.I64, Add(inst.pc, 4))))
      && (inst.operands.rd != 0 ==> c[6].dest.None?)
  {
    hide Add, R.Bits;
  }

  lemma {:induction false} IndirectShape(code: Decoder.Code, stops: seq<Word>, bb: BasicBlock)
    requires Walks(code, stops, bb) && bb.term == IndirectJump
    ensures EndsIndirect(bb)
  {
    hide Walks, FirstLifted, Lifter.LiftInst;
    WalksEndWell(code, stops, bb);
    IndirectHasLast(code, stops, bb);
    var n := |bb.insts| - 1;
    FirstLiftedIsFirst(bb.insts);
    JalrExpansion(bb.insts[n], 0);
  }

  lemma {:induction false} IndirectHasLast(code: Decoder.Code, stops: seq<Word>, bb: BasicBlock)
    requires Walks(code, stops, bb) && bb.term == IndirectJump
    ensures bb.insts != []
  {
    hide Decoder.Decode, EndAfter, SuccsAfter;
  }

  lemma {:induction false} FirstIsLeaf(inst: R.DecodedInst, start: Word, g: R.Guest)
    requires Faithful(inst, start) && Lifter.LiftInst(inst, 0) != [] && R.ZeroX0(g)
    ensures
      var i := Lifter.LiftInst(inst, 0)[0];
      && i.dest == IR.Some(0) && IsLeaf(i.payload) && Leaf(i.payload, start, g) == FirstOperand(inst, start, g)
  {
    hide Add, R.Bits, Lifter.CondOf;
  }

  lemma {:induction false} FirstValue(insts: seq<IR.Instr>, start: Word, g: R.Guest)
    requires insts != [] && insts[0].dest == IR.Some(0) && IsLeaf(insts[0].payload)
    requires IR.Run(insts, start, IR.Some(IR.State([], g))).Some?
    ensures
      var env := IR.Run(insts, start, IR.Some(IR.State([], g))).value.env;
      env != [] && env[0] == IR.Val(IR.I64, Leaf(insts[0].payload, start, g))
  {
    hide IR.Run, Leaf;
    var s := IR.State([], g);
    assert insts == [insts[0]] + insts[1..] && insts[0] == Lifter.Def(0, insts[0].payload);
    IR.Run1(insts[0], insts[1..], start, IR.Some(s));
    LeafStep(insts[0].payload, start, s);
    IR.RunGrows(insts[1..], start, IR.State([] + [IR.Val(IR.I64, Leaf(insts[0].payload, start, g))], g));
  }

  lemma {:induction false} LastConst(insts: seq<IR.Instr>, start: Word, g: R.Guest, w: Word)
    requires insts != [] && insts[|insts| - 1] == Lifter.Def(|insts| - 1, IR.Const(IR.I64, w))
    requires IR.Run(insts, start, IR.Some(IR.State([], g))).Some?
    ensures
      var env := IR.Run(insts, start, IR.Some(IR.State([], g))).value.env;
      |env| == |insts| && env[|insts| - 1] == IR.Val(IR.I64, w)
  {
    hide IR.Run;
    PrefixRuns(insts, start, IR.Some(IR.State([], g)));
    IR.RunGrows(insts, start, IR.State([], g));
  }

  /** The value of the terminator, in the final state of the IR. */
  lemma {:induction false} DispatchedValue(code: Decoder.Code, stops: seq<Word>, bb: BasicBlock, g: R.Guest)
    requires Walks(code, stops, bb) && FaithfulBlock(bb) && R.ZeroX0(g) && bb.term == IndirectJump
    ensures EndsIndirect(bb)
    ensures
      var b := Lifter.Lifted(bb);
      var o := IR.Run(b.insts, b.start, IR.Some(IR.State([], g)));
      && o.Some? && b.term.BrIndirect? && b.term.value < |o.value.env|
      && o.value.env[b.term.value] == IR.Val(IR.I64, Dispatched(bb, g))
  {
    hide Walks, R.ZeroX0, R.WellFormed, Faithful, FirstLifted, Lifter.LiftInst, IR.Run, ExecAll, FirstOperand,
         IsLeaf, Leaf, Lifter.LiftAll;
    IndirectShape(code, stops, bb);
    LiftPreservesMeaning(code, stops, bb, g);
    var insts := Lifter.LiftAll(bb.insts);
    var n := |bb.insts| - 1;
    var before := Lifter.LiftAll(bb.insts[..n]);
    JalrExpansion(bb.insts[n], |before|);
    LiftedSnoc(bb.insts);
    FirstLiftedIsFirst(bb.insts);
    if bb.insts[n].operands.rd == 0 {
      LastConst(insts, bb.start, g, Add(bb.insts[n].pc, 4));
    } else {
      var f := FirstLifted(bb.insts);
      FirstIsLeaf(bb.insts[f], bb.start, g);
      FirstExpansionLeads(bb.insts);
      assert insts[0] == Lifter.LiftInst(bb.insts[f], 0)[0];
      FirstValue(insts, bb.start, g);
    }
  }

  /** The emitted block ends in a call of the dispatcher with the dispatched value in x1, for
      assignments that keep registers apart. */
  lemma {:induction false} ApartDispatch(code: Decoder.Code, stops: seq<Word>, bb: BasicBlock, asg: Assignment,
                                           g: R.Guest, base: Word, m: A.Machine)
    requires Walks(code, stops, bb) && FaithfulBlock(bb) && R.ZeroX0(g) && bb.term == IndirectJump
    requires ComesFrom(asg, VBlock(bb)) && HostState(g, base, m)
    ensures EndsIndirect(bb)
    ensures
      var h := RunLines(BlockLines(VBlock(bb), asg), m);
      h.exit == Call(DISPATCH) && A.Get(h.m.regs, A.P(1)) == Dispatched(bb, g)
  {
    hide Walks, FaithfulBlock, R.ZeroX0, HostState, HostRel, ISel.SelectAll, RunLines, OffsetsFit, DefinedBeforeUse,
         Separates, IsSorting, Allocated, A.Run, IR.Run, TermLines, Body, A.Exec, EndsIndirect, Dispatched,
         Lifter.LiftAll, EnvRel;
    var b := VBlock(bb);
    var ir := Lifter.Lifted(bb);
    var m1 := A.Exec(PROLOGUE.i, m);
    PrologueLoadsBase(g, base, m);
    BlockIsSound(code, stops, bb);
    DispatchedValue(code, stops, bb, g);
    SelectFollows(ir.insts, ir.start, |ir.insts| + 1, g, base, m1);
    var live, items :| Separates(live, b) && IsSorting(live, items) && Allocated(items) == Assigned(asg);
    AllocationPreservesMeaning(b, live, items, m1);
    var t := IR.Run(ir.insts, ir.start, IR.Some(IR.State([], g))).value;
    ReadsValue(t.env, A.Run(b.instrs, m1).regs, ir.term.value, Dispatched(bb, g));
  }

  lemma {:induction false} ReadsValue(env: seq<IR.Value>, regs: map<A.Reg, Word>, id: nat, w: Word)
    requires EnvRel(env, regs) && id < |env| && env[id] == IR.Val(IR.I64, w)
    ensures A.Get(regs, A.V(id + 1)) == w
  {
    assert ValRel(env[id], A.Get(regs, VReg(id)));
  }

  // ---------- When it is the target ----------

  /** For assignments that keep registers apart, as the presence test gives them: without a link
      register the dispatched value is the target if and only if the target is the next
      instruction; with one, if and only if the first operand of the block's first lifted
      instruction, at the start of the block, is the target. */
  lemma {:induction false} ApartIndirectExactly(code: Decoder.Code, stops: seq<Word>, bb: BasicBlock, asg: Assignment,
                                           g: R.Guest, base: Word, m: A.Machine)
    requires Walks(code, stops, bb) && FaithfulBlock(bb) && R.ZeroX0(g) && bb.term == IndirectJump
    requires ComesFrom(asg, VBlock(bb)) && HostState(g, base, m)
    ensures EndsIndirect(bb)
    ensures
      var last := bb.insts[|bb.insts| - 1];
      var first := bb.insts[FirstLifted(bb.insts)];
      A.Get(RunLines(BlockLines(VBlock(bb), asg), m).m.regs, A.P(1)) == TrueTarget(bb, g) <==>
        if last.operands.rd == 0 then TrueTarget(bb, g) == Add(last.pc, 4)
        else FirstOperand(first, bb.start, g) == TrueTarget(bb, g)
  {
    hide Walks, FaithfulBlock, R.ZeroX0, HostState, RunLines, BlockLines, ComesFrom, FirstOperand, TrueTarget,
         VBlock, FirstLifted;
    ApartDispatch(code, stops, bb, asg, g, base, m);
  }

  /** The block is one JALR, up to instructions lifted to nothing before it. */
  ghost predicate LoneJalr(bb: BasicBlock, last: R.DecodedInst) {
    && bb.insts != [] && bb.insts[|bb.insts| - 1] == last
    && forall k :: 0 <= k < |bb.insts| - 1 ==> Lifter.LiftInst(bb.insts[k], 0) == []
  }

  lemma {:induction false} FirstOfLone(insts: seq<R.DecodedInst>)
    requires insts != [] && forall k :: 0 <= k < |insts| - 1 ==> Lifter.LiftInst(insts[k], 0) == []
    requires Lifter.LiftInst(insts[|insts| - 1], 0) != []
    ensures FirstLifted(insts) == |insts| - 1
    decreases |insts|
  {
    hide Lifter.LiftInst;
    if |insts| > 1 {
      FirstOfLone(insts[1..]);
    }
  }

  /** It jumps with the registers of the block start. */
  lemma {:induction false} LoneTarget(code: Decoder.Code, stops: seq<Word>, bb: BasicBlock, last: R.DecodedInst,
                                      g: R.Guest)
    requires Walks(code, stops, bb) && FaithfulBlock(bb) && R.ZeroX0(g)
    requires EndsIndirect(bb) && LoneJalr(bb, last) && last.operands.RegMem?
    ensures
      var x := R.Reg(g.x, last.operands.base);
      && TrueTarget(bb, g) == R.JalrTarget(x, last.operands.offset)
      && Dispatched(bb, g) == if last.operands.rd == 0 then Add(last.pc, 4) else x
  {
    hide Walks, R.ZeroX0, FirstLifted, R.JalrTarget, R.Reg, ExecAll, Add, R.WellFormed, Faithful, Lifter.LiftInst;
    WalksAreWellFormed(code, stops, bb);
    JalrExpansion(last, 0);
    FirstOfLone(bb.insts);
    QuietPrefix(bb.insts, bb.start, g);
  }

  /** A register is its own masked sum with an offset if and only if it is even and the offset is
      0 or 1. */
  lemma {:induction false} OwnMaskedSum(x: Word, off: R.Imm)
    ensures R.JalrTarget(x, off) == x <==> x % 2 == 0 && R.Bits(off) <= 1
  {
    hide R.Bits;
  }

  lemma {:induction false} SumsDiffer(off: R.Imm)
    ensures R.JalrTarget(0, off) != R.JalrTarget(2, off)
  {
    hide R.Bits;
  }

  /** The value dispatched by assignments that keep registers apart is the target. */
  ghost predicate Dispatches(bb: BasicBlock, g: R.Guest)
    requires EndsIndirect(bb)
  {
    Dispatched(bb, g) == TrueTarget(bb, g)
  }

  /** For such assignments a lone JALR dispatches to its target for every guest if and only if its base is x0 and its
      offset happens to fit: 0 or 1 with a link register, the address of the next instruction
      otherwise. For every other lone JALR some guest goes wrong. */
  lemma {:induction false} ApartLoneExactly(code: Decoder.Code, stops: seq<Word>, bb: BasicBlock, last: R.DecodedInst)
    requires Walks(code, stops, bb) && FaithfulBlock(bb)
    requires EndsIndirect(bb) && LoneJalr(bb, last) && last.operands.RegMem?
    ensures (forall g :: R.ZeroX0(g) ==> Dispatches(bb, g)) <==>
        && last.operands.base == 0
        && (if last.operands.rd == 0 then R.JalrTarget(0, last.operands.offset) == Add(last.pc, 4)
            else R.Bits(last.operands.offset) <= 1)
  {
    hide Walks, FaithfulBlock, R.ZeroX0, R.JalrTarget, R.Bits, Add, EndsIndirect, LoneJalr, TrueTarget, Dispatched,
         R.Reg;
    var base, off := last.operands.base, last.operands.offset;
    forall g | R.ZeroX0(g)
      ensures Dispatches(bb, g) <==>
        (if last.operands.rd == 0 then R.JalrTarget(R.Reg(g.x, base), off) == Add(last.pc, 4)
         else R.Reg(g.x, base) % 2 == 0 && R.Bits(off) <= 1)
    {
      LoneTarget(code, stops, bb, last, g);
      OwnMaskedSum(R.Reg(g.x, base), off);
    }
    if base == 0 {
      R.NoRegReads();
      assert R.Reg(map[], 0) == 0 by { ZeroReads(R.Guest(map[], map[])); }
      forall g: R.Guest ensures R.Reg(g.x, base) == 0 { ZeroReads(g); }
    } else {
      R.OneRegReads(base, 1);
      R.OneRegReads(base, 0);
      R.OneRegReads(base, 2);
      SumsDiffer(off);
      assert last.operands.rd != 0 ==> !Dispatches(bb, R.OneReg(base, 1));
      assert last.operands.rd == 0 ==> !Dispatches(bb, R.OneReg(base, 0)) || !Dispatches(bb, R.OneReg(base, 2));
    }
  }

  lemma {:induction false} ZeroReads(g: R.Guest)
    ensures R.Reg(g.x, 0) == 0
  {
  }
}
