/** Selection preserves meaning for whole blocks. */
module ISelBlock {
  import opened Words
  import opened Labels
  import R = Riscv
  import Reference
  import IR
  import A = AArch64
  import opened ISel
  import opened ISelTheorems
  import opened LiftBlock
  import opened AllocSim

  ghost predicate OffsetsFit(insts: seq<IR.Instr>) {
    forall i :: 0 <= i < |insts| ==> OffsetFits(insts[i].payload)
  }

  lemma {:induction false} SizeGrows(i: IR.Instr, start: Word, size: nat)
    ensures SelectInst(i, start, size).size >= size
  {
    hide ConstCode, AluOf, CondOf, WidthOf, Offset32;
  }

  lemma {:induction false} PrefixRuns(insts: seq<IR.Instr>, start: Word, o: IR.Option<IR.State>)
    requires insts != [] && IR.Run(insts, start, o).Some?
    ensures
      var n := |insts| - 1;
      IR.Run(insts[..n], start, o).Some?
      && IR.Run(insts, start, o) == IR.Step(insts[n], start, IR.Run(insts[..n], start, o).value)
  {
    hide IR.Step;
    var n := |insts| - 1;
    var before := IR.Run(insts[..n], start, o);
    assert insts == insts[..n] + [insts[n]];
    IR.RunAppend(insts[..n], [insts[n]], start, o);
    assert [insts[n]] == [insts[n]] + [];
    IR.Run1(insts[n], [], start, before);
    assert IR.Run([], start, IR.Then(insts[n], start, before)) == IR.Then(insts[n], start, before);
  }

  /** Straight-line selected code follows straight-line IR. */
  lemma {:induction false} SelectFollows(insts: seq<IR.Instr>, start: Word, size: nat, g: R.Guest, base: Word,
                                         m: A.Machine)
    requires |insts| < size && OffsetsFit(insts) && HostRel(g, base, m)
    requires IR.Run(insts, start, IR.Some(IR.State([], g))).Some?
    ensures
      var t := IR.Run(insts, start, IR.Some(IR.State([], g))).value;
      var p := SelectAll(insts, start, size);
      var m' := A.Run(p.code, m);
      EnvRel(t.env, m'.regs) && HostRel(t.g, base, m') && p.size >= size && |t.env| == |insts|
    decreases |insts|
  {
    hide SelectInst, HostRel, EnvRel, OffsetFits, IR.Step, IR.Run, A.Run;
    if insts == [] {
      NothingRuns(start, g, m);
    } else {
      var n := |insts| - 1;
      var o := IR.Some(IR.State([], g));
      PrefixRuns(insts, start, o);
      SelectFollows(insts[..n], start, size, g, base, m);
      var s := IR.Run(insts[..n], start, o).value;
      var before := SelectAll(insts[..n], start, size);
      var m1 := A.Run(before.code, m);
      A.RunAppend(before.code, SelectInst(insts[n], start, before.size).code, m);
      InstFollows(insts[n], start, s, before.size, base, m1);
      SizeGrows(insts[n], start, before.size);
      IR.RunGrows(insts, start, IR.State([], g));
    }
  }

  lemma {:induction false} NothingRuns(start: Word, g: R.Guest, m: A.Machine)
    ensures IR.Run([], start, IR.Some(IR.State([], g))) == IR.Some(IR.State([], g))
    ensures A.Run([], m) == m && EnvRel([], m.regs)
  {
  }

  /** The way out of a virtual-register block is the one its IR takes. */
  predicate ExitRel(c: Reference.Config, l: Leaving) {
    match c
    case Running(pc, _) => l == Branch(Label(pc))
    case Stopped(TrapStop, _) => l == Break
    case Stopped(ReturnStop, _) => l == Return
    case Stopped(IndirectStop, _) => l.Dispatch?
  }

  lemma {:induction false} ExitFollows(term: IR.Terminator, t: IR.State, m: A.Machine)
    requires EnvRel(t.env, m.regs) && !term.NoTerm?
    requires term.CBr? ==> IR.Has(t.env, term.cond, IR.I1)
    ensures ExitRel(IrExit(term, t), Leaves(SelectTerm(term), m))
  {
    hide Label;
    if term.CBr? {
      assert ValRel(t.env[term.cond], A.Get(m.regs, VReg(term.cond)));
    }
  }

  /** For every IR block whose run does not get stuck and whose offsets fit in 32 bits, the
      virtual-register code ends with the guest state and memory of the IR and leaves the same
      way. */
  lemma {:induction false} SelectionPreservesMeaning(bb: IR.Block, g: R.Guest, base: Word, m: A.Machine)
    requires OffsetsFit(bb.insts) && HostRel(g, base, m) && !bb.term.NoTerm?
    requires IR.Run(bb.insts, bb.start, IR.Some(IR.State([], g))).Some?
    requires
      var t := IR.Run(bb.insts, bb.start, IR.Some(IR.State([], g))).value;
      bb.term.CBr? ==> IR.Has(t.env, bb.term.cond, IR.I1)
    ensures
      var t := IR.Run(bb.insts, bb.start, IR.Some(IR.State([], g))).value;
      var m' := A.Run(Selected(bb).instrs, m);
      HostRel(t.g, base, m') && ExitRel(IrExit(bb.term, t), Leaves(Selected(bb).term, m'))
  {
    hide HostRel, EnvRel, OffsetsFit, IR.Run, A.Run, SelectAll, ExitRel, IrExit, Leaves, SelectTerm, IR.Has;
    SelectFollows(bb.insts, bb.start, |bb.insts| + 1, g, base, m);
    ExitFollows(bb.term, IR.Run(bb.insts, bb.start, IR.Some(IR.State([], g))).value,
                A.Run(Selected(bb).instrs, m));
  }
}
