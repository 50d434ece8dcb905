/** When the analysis as written gives a right block for every order of its intervals. */
module MisreadExact {
  import opened Words
  import opened Labels
  import R = Riscv
  import Decoder
  import Reference
  import opened Cfg
  import CfgTheorems
  import IR
  import A = AArch64
  import Lifter
  import LifterTheorems
  import opened LiftBlock
  import opened ISel
  import opened Liveness
  import opened Emitter
  import opened SelectedCode
  import opened Sentinel
  import Pressure
  import opened Runtime
  import opened BlockTheorems
  import opened Misread
  import opened MisreadCode
  import opened MisreadTheorems

  // ---------- Blocks that begin otherwise ----------

  /** The register of position 0 is touched again by position n; all others touched up to n are
      touched at n + 1 as well. */
  ghost predicate KeptPast(b: A.Block, n: nat) {
    && (forall v: nat :: Touched(b, v, 0) ==> v == 1)
    && (exists k: nat :: 0 < k <= n && Touched(b, 1, k))
    && (forall v: nat, k: nat :: v != 1 && 0 < k <= n && Touched(b, v, k) ==> Touched(b, v, n + 1))
  }

  lemma {:induction false} KeptPastIsOutlived(b: A.Block, n: nat)
    requires KeptPast(b, n)
    ensures Outlived(b)
  {
    hide Touched;
    forall v: nat, w: nat, s: nat | v != w && Touched(b, v, 0) && NextTouch(b, v, s) && Meets(b, v, w)
      ensures TouchedAfter(b, w, s)
    {
      assert v == 1 && s <= n;
      var i: nat, e: nat :| i < e && Touched(b, v, i) && Touched(b, w, e);
      if e <= n { assert Touched(b, w, n + 1) && s < n + 1; }
    }
  }

  /** Nothing but the register of position 0. */
  lemma {:induction false} AloneIsOutlived(b: A.Block)
    requires forall v: nat, k: nat :: Touched(b, v, k) ==> v == 1
    ensures Outlived(b)
  {
    hide Touched;
  }

  /** A load or store that takes its operands from the first one or two values. */
  ghost predicate MemoryHead(insts: seq<IR.Instr>) {
    && |insts| >= 2
    && insts[0].dest == IR.Some(0) && insts[0].payload.ReadReg?
    && (if insts[1].payload.Load? then insts[1].dest == IR.Some(1) && insts[1].payload.base == 0
        else
          && |insts| >= 3 && insts[1].dest == IR.Some(1) && insts[1].payload.ReadReg?
          && insts[2].payload.Store? && insts[2].payload.base == 0 && insts[2].payload.v == 1)
  }

  lemma {:induction false} LoadCode(i: IR.Instr, start: Word, size: nat)
    requires i.payload.Load? && i.dest == IR.Some(1) && i.payload.base == 0 && size > 2
    ensures
      var c := SelectInst(i, start, size).code;
      && |c| == 2
      && (forall v :: v in T(c[0]) <==> v == 1 || v == size + 1)
      && (forall v :: v in T(c[1]) <==> v == 2 || v == size + 1)
  {
    hide Offset32, WidthOf;
    var c := SelectInst(i, start, size).code;
    TouchThree(A.RegOp(A.V(size + 1)), A.RegOp(A.V(1)), A.RegOp(A.P(21)));
    TouchTwo(A.RegOp(A.V(2)), A.MemOp(A.V(size + 1)));
  }

  lemma {:induction false} StoreCode(i: IR.Instr, start: Word, size: nat)
    requires i.payload.Store? && i.payload.v == 1 && i.payload.base == 0 && size > 2
    ensures
      var c := SelectInst(i, start, size).code;
      && |c| == 2
      && (forall v :: v in T(c[0]) <==> v == 1 || v == size + 1)
      && (forall v :: v in T(c[1]) <==> v == 2 || v == size + 1)
  {
    hide Offset32, WidthOf;
    TouchThree(A.RegOp(A.V(size + 1)), A.RegOp(A.V(1)), A.RegOp(A.P(21)));
    TouchTwo(A.RegOp(A.V(2)), A.MemOp(A.V(size + 1)));
  }

  lemma {:induction false} LoadHeadKept(b: A.Block, bb: IR.Block)
    requires MemoryHead(bb.insts) && bb.insts[1].payload.Load? && b == Selected(bb)
    ensures KeptPast(b, 1)
  {
    hide SelectInst, SelectAll, T, Only, Touched;
    var size := |bb.insts| + 1;
    var first, load, rest := bb.insts[0], bb.insts[1], bb.insts[2..];
    LeafCode(first, bb.start, size, 0);
    LoadCode(load, bb.start, size);
    var c0, c1 := SelectInst(first, bb.start, size).code, SelectInst(load, bb.start, size).code;
    FirstOnly(c0, 1);
    OnlyThis(c0[0], 1);
    TwoPieces(first, load, rest, bb.start, size);
    assert bb.insts == [first] + ([load] + rest);
    assert b.instrs[0] == c0[0] && b.instrs[1] == c1[0] && b.instrs[2] == c1[1];
    forall v: nat, k: nat ensures k <= 2 ==> (Touched(b, v, k) <==> v in T(b.instrs[k])) {
      BodyTouch(b, v, k);
    }
    assert Touched(b, 1, 1);
  }

  lemma {:induction false} TwoPieces(a: IR.Instr, c: IR.Instr, rest: seq<IR.Instr>, start: Word, size: nat)
    requires SelectInst(a, start, size).size == size
    ensures SelectInst(a, start, size).code + SelectInst(c, start, size).code
      <= SelectAll([a] + ([c] + rest), start, size).code
  {
    hide SelectInst, SelectAll;
    SelectOneInst(a, start, size);
    SelectOneInst(c, start, size);
    SelectAppend([c], rest, start, size);
    SelectAppend([a], [c] + rest, start, size);
  }

  lemma {:induction false} StoreHeadKept(b: A.Block, bb: IR.Block)
    requires MemoryHead(bb.insts) && !bb.insts[1].payload.Load? && b == Selected(bb)
    ensures KeptPast(b, 2)
  {
    hide SelectInst, SelectAll, T, Only, Touched;
    var size := |bb.insts| + 1;
    var first, second, store, rest := bb.insts[0], bb.insts[1], bb.insts[2], bb.insts[3..];
    LeafCode(first, bb.start, size, 0);
    LeafCode(second, bb.start, size, 1);
    StoreCode(store, bb.start, size);
    var c0, c1 := SelectInst(first, bb.start, size).code, SelectInst(second, bb.start, size).code;
    var c2 := SelectInst(store, bb.start, size).code;
    FirstOnly(c0, 1);
    FirstOnly(c1, 2);
    OnlyThis(c0[0], 1);
    OnlyThis(c1[0], 2);
    ThreePieces(first, second, store, rest, bb.start, size);
    assert bb.insts == [first] + [second] + ([store] + rest);
    assert b.instrs[0] == c0[0] && b.instrs[1] == c1[0] && b.instrs[2] == c2[0] && b.instrs[3] == c2[1];
    forall v: nat, k: nat ensures k <= 3 ==> (Touched(b, v, k) <==> v in T(b.instrs[k])) {
      BodyTouch(b, v, k);
    }
    assert Touched(b, 1, 2);
  }

  lemma {:induction false} ThreePieces(a: IR.Instr, b: IR.Instr, c: IR.Instr, rest: seq<IR.Instr>, start: Word,
                                       size: nat)
    requires SelectInst(a, start, size).size == size && SelectInst(b, start, size).size == size
    ensures SelectInst(a, start, size).code + SelectInst(b, start, size).code + SelectInst(c, start, size).code
      <= SelectAll([a] + [b] + ([c] + rest), start, size).code
  {
    hide SelectInst, SelectAll;
    SelectOneInst(a, start, size);
    SelectOneInst(b, start, size);
    SelectOneInst(c, start, size);
    SelectAppend([a], [b], start, size);
    SelectAppend([c], rest, start, size);
    SelectAppend([a] + [b], [c] + rest, start, size);
  }

  /** A faithful instruction with an expansion either has two operands to mix up, accesses memory,
      or is a JAL. */
  lemma {:induction false} OtherExpansions(inst: R.DecodedInst, start: Word)
    requires R.WellFormed(inst) && LifterTheorems.Faithful(inst, start)
    requires Lifter.LiftInst(inst, 0) != [] && !TwoOperands(inst)
    ensures inst.opcode.JAL? || MemoryHead(Lifter.LiftInst(inst, 0))
  {
    hide Add, R.Bits, R.SignedBelow, Lifter.KindOf;
    LifterTheorems.KindIs(inst.opcode);
  }

  lemma {:induction false} MemoryHeadAppend(a: seq<IR.Instr>, b: seq<IR.Instr>)
    requires MemoryHead(a)
    ensures MemoryHead(a + b)
  {
  }

  lemma {:induction false} MemoryFirstOutlived(bb: BasicBlock)
    requires MemoryHead(IrOf(bb))
    ensures Outlived(VBlock(bb))
  {
    hide Lifter.LiftAll, Lifter.LiftTerm, ISel.Selected, KeptPast, Outlived;
    if IrOf(bb)[1].payload.Load? {
      LoadHeadKept(VBlock(bb), Lifter.Lifted(bb));
      KeptPastIsOutlived(VBlock(bb), 1);
    } else {
      StoreHeadKept(VBlock(bb), Lifter.Lifted(bb));
      KeptPastIsOutlived(VBlock(bb), 2);
    }
  }

  lemma {:induction false} LinkCode(insts: seq<IR.Instr>, start: Word, size: nat)
    requires size > 1 && 1 <= |insts| <= 2
    requires insts[0].dest == IR.Some(0) && insts[0].payload.Const?
    requires |insts| == 2 ==> insts[1].payload.WriteReg? && insts[1].payload.v == 0
    ensures AllOnly(SelectAll(insts, start, size).code, 1)
  {
    hide SelectAll, Only, ConstCode;
    LeafCode(insts[0], start, size, 0);
    SelectOneInst(insts[0], start, size);
    if |insts| == 1 {
      assert insts == [insts[0]];
    } else {
      assert insts == [insts[0]] + [insts[1]];
      SelectOneInst(insts[1], start, size);
      SelectAppend([insts[0]], [insts[1]], start, size);
      StateStoreTouches(1, 8 * insts[1].payload.reg);
    }
  }

  lemma {:induction false} StateStoreTouches(v: nat, off: A.Int32)
    ensures Only(A.Str(A.X, A.V(v), A.V(0), off), v)
  {
    TouchTwo(A.RegOp(A.V(v)), A.MemOp(A.V(0)));
  }

  lemma {:induction false} LinkExpansion(inst: R.DecodedInst)
    requires inst.opcode.JAL? && Lifter.LiftInst(inst, 0) != [] && inst.operands.RegImm?
    ensures
      var c := Lifter.LiftInst(inst, 0);
      && 1 <= |c| <= 2 && c[0].dest == IR.Some(0) && c[0].payload.Const?
      && (|c| == 2 ==> c[1].payload.WriteReg? && c[1].payload.v == 0)
  {
    hide Add, R.Bits;
  }

  lemma {:induction false} OnlyFirstOutlived(b: A.Block)
    requires AllOnly(b.instrs, 1) && TouchedByTerm(b.term) == []
    ensures Outlived(b)
  {
    hide Only, Outlived, Touched, TouchedByTerm;
    forall v: nat, k: nat | Touched(b, v, k) ensures v == 1 {
      BodyTouch(b, v, k);
      if k < |b.instrs| {
        assert Only(b.instrs[k], 1);
        OnlyThis(b.instrs[k], 1);
      }
    }
    AloneIsOutlived(b);
  }

  lemma {:induction false} LastIsAll(insts: seq<R.DecodedInst>)
    requires insts != [] && FirstLifted(insts) == |insts| - 1
    ensures Lifter.LiftAll(insts) == Lifter.LiftInst(insts[|insts| - 1], 0)
  {
    hide FirstLifted, Lifter.LiftInst;
    FirstLiftedIsFirst(insts);
    NothingLifted(insts[..|insts| - 1]);
  }

  lemma {:induction false} LinkFirstOutlived(code: Decoder.Code, stops: seq<Word>, bb: BasicBlock)
    requires Walks(code, stops, bb) && FirstLifted(bb.insts) < |bb.insts|
    requires bb.insts[FirstLifted(bb.insts)].opcode.JAL? && Lifter.LiftInst(bb.insts[FirstLifted(bb.insts)], 0) != []
    ensures Outlived(VBlock(bb))
  {
    hide Walks, FirstLifted, SelectAll, AllOnly, Outlived, Lifter.LiftInst, Lifter.LiftAll;
    var f := FirstLifted(bb.insts);
    JumpIsLast(code, stops, bb, f);
    LinkExpansion(bb.insts[f]);
    LastIsAll(bb.insts);
    LinkCode(IrOf(bb), bb.start, |IrOf(bb)| + 1);
    OnlyFirstOutlived(VBlock(bb));
  }

  lemma {:induction false} JumpIsLast(code: Decoder.Code, stops: seq<Word>, bb: BasicBlock, i: nat)
    requires Walks(code, stops, bb) && i < |bb.insts| && bb.insts[i].opcode.JAL?
    ensures i == |bb.insts| - 1 && bb.term == Jump && bb.insts[i].operands.RegImm?
  {
    hide Decoder.Decode, R.WellFormed, EndAfter, SuccsAfter;
    WalksAreWellFormed(code, stops, bb);
    CfgTheorems.EndKinds(bb.insts[i]);
  }

  lemma {:induction false} NothingFirstOutlived(code: Decoder.Code, stops: seq<Word>, bb: BasicBlock)
    requires Walks(code, stops, bb) && FirstLifted(bb.insts) == |bb.insts|
    ensures Outlived(VBlock(bb))
  {
    hide Walks, FirstLifted, Outlived, Touched, R.WellFormed, Lifter.LiftInst;
    FirstLiftedIsFirst(bb.insts);
    NothingLifted(bb.insts);
    WalksEndWell(code, stops, bb);
    var b := VBlock(bb);
    assert b.instrs == [];
    if bb.insts != [] {
      Pressure.ExpansionBegins(bb.insts[|bb.insts| - 1], 0);
    }
    forall v: nat, k: nat ensures !Touched(b, v, k) {
      BodyTouch(b, v, k);
    }
    AloneIsOutlived(b);
  }

  /** A block that does not begin with an operation on two values is outlived: the analysis as
      written keeps its registers apart. */
  lemma {:induction false} OtherIsOutlived(code: Decoder.Code, stops: seq<Word>, bb: BasicBlock)
    requires Walks(code, stops, bb) && FaithfulBlock(bb) && !ReadsTwoFirst(bb)
    ensures Outlived(VBlock(bb))
  {
    hide Walks, FirstLifted, Outlived, R.WellFormed, LifterTheorems.Faithful, TwoOperands, Lifter.LiftInst,
         MemoryHead, VBlock, Lifter.LiftAll;
    FirstLiftedIsFirst(bb.insts);
    var f := FirstLifted(bb.insts);
    if f == |bb.insts| {
      NothingFirstOutlived(code, stops, bb);
    } else {
      WalksAreWellFormed(code, stops, bb);
      OtherExpansions(bb.insts[f], bb.start);
      if bb.insts[f].opcode.JAL? {
        LinkFirstOutlived(code, stops, bb);
      } else {
        FirstExpansionLeads(bb.insts);
        var first := Lifter.LiftInst(bb.insts[f], 0);
        MemoryHeadAppend(first, IrOf(bb)[|first|..]);
        assert first + IrOf(bb)[|first|..] == IrOf(bb);
        MemoryFirstOutlived(bb);
      }
    }
  }

  // ---------- Comparing configurations ----------

  /** The same place or reason to stop, the same registers and the same memory contents. */
  ghost predicate SameConfig(c: Reference.Config, d: Reference.Config) {
    && (forall r: R.RegIndex :: R.Slot(c.g.x, r) == R.Slot(d.g.x, r))
    && (forall a: Word :: ByteAt(c.g.mem, a) == ByteAt(d.g.mem, a))
    && match c
       case Running(pc, _) => d.Running? && d.pc == pc
       case Stopped(why, _) => d.Stopped? && d.why == why
  }

  lemma {:induction false} SameState(g: R.Guest, g': R.Guest, base: Word, m: A.Machine)
    requires HostState(g, base, m)
    ensures HostState(g', base, m) <==>
      && (forall r: R.RegIndex :: R.Slot(g.x, r) == R.Slot(g'.x, r))
      && (forall a: Word :: ByteAt(g.mem, a) == ByteAt(g'.mem, a))
  {
    hide Add;
    if HostState(g', base, m) {
      forall r: R.RegIndex ensures R.Slot(g.x, r) == R.Slot(g'.x, r) {
      }
      forall a: Word ensures ByteAt(g.mem, a) == ByteAt(g'.mem, a) {
        assert ByteAt(m.mem, Add(base, a)) == ByteAt(g.mem, a);
      }
    }
  }

  /** A point agrees with two configurations only if they are the same. */
  lemma {:induction false} AgreementIsSameness(c: Reference.Config, d: Reference.Config, base: Word, p: Point)
    requires Agrees(c, base, p)
    ensures Agrees(d, base, p) <==> SameConfig(c, d)
  {
    hide HostState, Label;
    SameState(c.g, d.g, base, p.m);
    if c.Running? && d.Running? && Label(c.pc) == Label(d.pc) {
      LabelInjective(c.pc, d.pc);
    }
  }

  /** Every guest can be shown by some host. */
  lemma {:induction false} HostExists(g: R.Guest) returns (m: A.Machine)
    ensures HostState(g, 0, m)
  {
    var offs := (set r: R.RegIndex | 0 <= r < 32 :: 8 * r) + {256};
    var slots: map<int, Word> := map k | k in offs :: if k == 256 then 0 else R.Slot(g.x, k / 8);
    m := A.Machine(map[], A.Flags(false, false, false, false), slots, g.mem);
    forall r: R.RegIndex ensures A.SlotAt(m.slots, 8 * r) == R.Slot(g.x, r) {
      assert 8 * r in offs;
    }
    assert 256 in offs;
    forall a: Word ensures ByteAt(m.mem, Add(0, a)) == ByteAt(g.mem, a) {
      assert Add(0, a) == a;
    }
  }
}
