/** How few registers the pipeline's own blocks need: a lifted instruction reads only the two
    values before it, so four of the 25 pool registers are enough for blocks of any length. */
module Pressure {
  import opened Words
  import R = Riscv
  import Cfg
  import IR
  import A = AArch64
  import Lifter
  import opened ISel
  import opened Liveness
  import opened RegAlloc
  import opened RegAllocTheorems
  import opened AllocSim
  import opened SelectedCode

  // ---------- Operands are near ----------

  /** An operand is one of the two values before, and an address of a load the last one. */
  predicate NearOperand(p: IR.Payload, i: nat, v: nat) {
    v < i && i <= v + 2 && (p.Load? ==> v == i - 1)
  }

  ghost predicate Near(c: seq<IR.Instr>, n: nat) {
    forall i :: 0 <= i < |c| ==> forall v :: v in IR.Operands(c[i].payload) ==> NearOperand(c[i].payload, n + i, v)
  }

  lemma {:induction false} BinopIsNear(op: R.Opcode, first: IR.Payload, second: IR.Payload, rd: R.RegIndex, n: nat)
    requires IR.Operands(first) == [] && IR.Operands(second) == []
    ensures Near(Lifter.Binop(op, first, second, rd, n), n)
  {
    hide Lifter.KindOf;
  }

  lemma {:induction false} MemoryIsNear(inst: R.DecodedInst, n: nat)
    requires inst.operands.RegMem?
    ensures Near(Lifter.LiftInst(inst, n), n)
  {
    hide Add, R.Bits;
  }

  lemma {:induction false} ExpansionIsNear(inst: R.DecodedInst, n: nat)
    ensures Near(Lifter.LiftInst(inst, n), n)
  {
    hide Lifter.KindOf, Lifter.CondOf, Add, R.Bits, Lifter.Binop;
    match inst.operands
    case RegMem(_, _, _) => MemoryIsNear(inst, n);
    case RegRegImm(rd, rs1, imm) =>
      BinopIsNear(inst.opcode, IR.ReadReg(rs1), IR.Const(IR.I64, R.Bits(imm)), rd, n);
    case RegRegReg(rd, rs1, rs2) => BinopIsNear(inst.opcode, IR.ReadReg(rs1), IR.ReadReg(rs2), rd, n);
    case _ =>
  }

  lemma {:induction false} NearAppend(a: seq<IR.Instr>, b: seq<IR.Instr>)
    requires Near(a, 0) && Near(b, |a|)
    ensures Near(a + b, 0)
  {
    hide IR.Operands, NearOperand;
    var all := a + b;
    forall i, v | 0 <= i < |all| && v in IR.Operands(all[i].payload) ensures NearOperand(all[i].payload, 0 + i, v) {
      if i < |a| { assert all[i] == a[i]; } else { assert all[i] == b[i - |a|]; }
    }
  }

  /** In every lifted block an instruction reads only the two values before it. */
  lemma {:induction false} LiftedIsNear(insts: seq<R.DecodedInst>)
    ensures Near(Lifter.LiftAll(insts), 0)
    decreases |insts|
  {
    hide Lifter.LiftInst, Near;
    if insts == [] {
      NothingIsNear();
    } else {
      var n := |insts| - 1;
      LiftedIsNear(insts[..n]);
      ExpansionIsNear(insts[n], |Lifter.LiftAll(insts[..n])|);
      NearAppend(Lifter.LiftAll(insts[..n]), Lifter.LiftInst(insts[n], |Lifter.LiftAll(insts[..n])|));
    }
  }

  lemma {:induction false} NothingIsNear()
    ensures Near([], 0)
  {
  }

  // ---------- The instruction a position belongs to ----------

  /** The size of the value map when instruction j is selected. */
  function SizeAt(insts: seq<IR.Instr>, start: Word, size: nat, j: nat): nat
    requires j <= |insts|
  {
    SelectAll(insts[..j], start, size).size
  }

  /** The IR instruction whose code holds position k. */
  function PieceAt(insts: seq<IR.Instr>, start: Word, size: nat, k: nat): nat {
    if insts == [] then 0
    else
      var n := |insts| - 1;
      if k >= |SelectAll(insts[..n], start, size).code| then n else PieceAt(insts[..n], start, size, k)
  }

  lemma {:induction false} PieceIsMonotone(insts: seq<IR.Instr>, start: Word, size: nat, p: nat, q: nat)
    requires p <= q && insts != []
    ensures PieceAt(insts, start, size, p) <= PieceAt(insts, start, size, q) < |insts|
    decreases |insts|
  {
    hide SelectAll;
    if |insts| > 1 {
      PieceIsMonotone(insts[..|insts| - 1], start, size, p, q);
    }
  }

  /** A position touches only the footprint of its instruction. */
  lemma {:induction false} PositionInFootprint(insts: seq<IR.Instr>, start: Word, size: nat, k: nat, v: nat)
    requires IR.Ssa(insts) && |insts| < size
    requires k < |SelectAll(insts, start, size).code| && v in T(SelectAll(insts, start, size).code[k])
    ensures
      var j := PieceAt(insts, start, size, k);
      j < |insts| && v in Footprint(insts[j], j, SizeAt(insts, start, size, j))
    decreases |insts|
  {
    hide SelectInst, IR.Ssa, T, Footprint, Within, IR.Operands, IR.Produces;
    var n := |insts| - 1;
    var before := SelectAll(insts[..n], start, size);
    SsaPrefix(insts, n);
    if k < |before.code| {
      PositionInFootprint(insts[..n], start, size, k, v);
      var j := PieceAt(insts[..n], start, size, k);
      assert insts[..n][..j] == insts[..j];
    } else {
      LastPiece(insts, start, size);
      var last := SelectInst(insts[n], start, before.size);
      assert SelectAll(insts, start, size).code[k] == last.code[k - |before.code|];
      WithinAt(last.code, Footprint(insts[n], n, before.size), k - |before.code|, v);
    }
  }

  lemma {:induction false} WithinAt(code: seq<A.Instr>, home: set<nat>, k: nat, v: nat)
    requires Within(code, home) && k < |code| && v in T(code[k])
    ensures v in home
  {
    hide T;
  }

  lemma {:induction false} LastPiece(insts: seq<IR.Instr>, start: Word, size: nat)
    requires IR.Ssa(insts) && |insts| < size && insts != []
    ensures
      var n := |insts| - 1;
      var z := SelectAll(insts[..n], start, size).size;
      Within(SelectInst(insts[n], start, z).code, Footprint(insts[n], n, z))
  {
    hide SelectInst, UsesOk, DefinedBy, Within, IR.Operands, IR.Produces, Footprint, SelectAll;
    var n := |insts| - 1;
    SsaPrefix(insts, n);
    SelectIsOk(insts[..n], start, size);
    var defs := set v | v in IR.Operands(insts[n].payload) :: v + 1;
    InstPiece(insts[n], start, n, SelectAll(insts[..n], start, size).size, defs);
  }

  // ---------- The registers in use at a position ----------

  predicate Accesses(i: IR.Instr) {
    i.payload.Load? || i.payload.Store?
  }

  /** At most three registers: those of the instruction, and results the next two may read. */
  function Window(i: IR.Instr, j: nat, size: nat): set<nat> {
    if i.payload.Load? then {j, j + 1, size + 1}
    else if i.payload.Store? then {if j == 0 then 0 else j - 1, j, size + 1}
    else {if j == 0 then 0 else j - 1, j, j + 1}
  }

  lemma {:induction false} WindowHolds(insts: seq<IR.Instr>, j: nat, size: nat)
    requires Near(insts, 0) && j < |insts|
    ensures Footprint(insts[j], j, size) <= Window(insts[j], j, size)
    ensures |Window(insts[j], j, size)| <= 3
  {
    hide IR.Operands;
    var p := insts[j].payload;
    forall v | v in IR.Operands(p) ensures v + 1 in Window(insts[j], j, size) {
      assert NearOperand(p, 0 + j, v);
    }
  }

  lemma {:induction false} SizesGrow(insts: seq<IR.Instr>, start: Word, size: nat, i: nat, j: nat)
    requires IR.Ssa(insts) && |insts| < size && i < j < |insts| && Accesses(insts[i])
    ensures |insts| < SizeAt(insts, start, size, i) < SizeAt(insts, start, size, j)
  {
    hide IR.Ssa, SelectAll;
    SsaPrefix(insts, i);
    SsaPrefix(insts, j);
    SelectIsOk(insts[..i], start, size);
    SelectIsOk(insts[..j], start, size);
    MemoryOpsGrow(insts[..j], i);
    assert insts[..j][..i] == insts[..i];
  }

  /** A register in the footprints of two instructions is a value the first defines or reads and
      the second reads; address registers belong to one instruction. */
  lemma {:induction false} FootprintsShare(insts: seq<IR.Instr>, start: Word, size: nat, i: nat, j: nat, v: nat)
    requires IR.Ssa(insts) && Near(insts, 0) && |insts| < size && i < j < |insts|
    requires v in Footprint(insts[i], i, SizeAt(insts, start, size, i))
    requires v in Footprint(insts[j], j, SizeAt(insts, start, size, j))
    ensures 0 < v <= i + 1 && j <= v + 1 && v - 1 < |insts| && IR.Produces(insts[v - 1].payload)
  {
    hide IR.Operands, SizeAt;
    var zi, zj := SizeAt(insts, start, size, i), SizeAt(insts, start, size, j);
    SizeIsAbove(insts, start, size, i);
    SizeIsAbove(insts, start, size, j);
    if Accesses(insts[i]) { SizesGrow(insts, start, size, i, j); }
    FootprintParts(insts[i], i, zi, v);
    FootprintParts(insts[j], j, zj, v);
    assert v > 0 && v - 1 in IR.Operands(insts[j].payload) ==> NearOperand(insts[j].payload, 0 + j, v - 1);
  }

  lemma {:induction false} FootprintParts(i: IR.Instr, n: nat, size: nat, v: nat)
    requires v in Footprint(i, n, size)
    ensures v > 0
    ensures v - 1 in IR.Operands(i.payload) || (v == n + 1 && IR.Produces(i.payload)) || (Accesses(i) && v == size + 1)
  {
    hide IR.Operands;
  }

  lemma {:induction false} SizeIsAbove(insts: seq<IR.Instr>, start: Word, size: nat, j: nat)
    requires IR.Ssa(insts) && |insts| < size && j <= |insts|
    ensures SizeAt(insts, start, size, j) >= size
  {
    hide IR.Ssa, SelectAll;
    SsaPrefix(insts, j);
    SelectIsOk(insts[..j], start, size);
  }

  /** What is touched up to a position and from it on lies in the window of its instruction. */
  lemma {:induction false} CrossingInWindow(insts: seq<IR.Instr>, start: Word, size: nat, p: nat, k: nat, q: nat,
                                            v: nat)
    requires IR.Ssa(insts) && Near(insts, 0) && |insts| < size
    requires p <= k <= q < |SelectAll(insts, start, size).code|
    requires v in T(SelectAll(insts, start, size).code[p]) && v in T(SelectAll(insts, start, size).code[q])
    ensures
      var j := PieceAt(insts, start, size, k);
      j < |insts| && v in Window(insts[j], j, SizeAt(insts, start, size, j))
  {
    hide IR.Ssa, Near, T, SelectAll, Footprint, PieceAt, SizeAt, IR.Produces;
    PositionInFootprint(insts, start, size, p, v);
    PositionInFootprint(insts, start, size, q, v);
    PieceIsMonotone(insts, start, size, p, k);
    PieceIsMonotone(insts, start, size, k, q);
    var i, j, l := PieceAt(insts, start, size, p), PieceAt(insts, start, size, k), PieceAt(insts, start, size, q);
    WindowHolds(insts, j, SizeAt(insts, start, size, j));
    if i < l {
      FootprintsShare(insts, start, size, i, l, v);
      StoresProduceNothing(insts[j]);
    }
  }

  lemma {:induction false} StoresProduceNothing(i: IR.Instr)
    ensures i.payload.Store? ==> !IR.Produces(i.payload)
  {
  }

  // ---------- Four registers are enough ----------

  /** Distinct registers that all lie in a set are no more than the set. */
  lemma {:induction false} DistinctInSet(items: seq<Item>, home: set<nat>)
    requires forall i, j :: 0 <= i < j < |items| ==> items[i].v != items[j].v
    requires forall i :: 0 <= i < |items| ==> items[i].v in home
    ensures |items| <= |home|
    decreases |items|
  {
    if items != [] {
      var n := |items| - 1;
      DistinctInSet(items[..n], home - {items[n].v});
    }
  }

  lemma {:induction false} AliveFrom(items: seq<Item>, cur: nat, i: nat) returns (k: nat)
    requires i < |Alive(items, cur)|
    ensures k < |items| && Alive(items, cur)[i] == items[k] && items[k].lr.end > cur
    decreases |items|
  {
    var n := |items| - 1;
    if i < |Alive(items[..n], cur)| {
      k := AliveFrom(items[..n], cur, i);
    } else {
      k := n;
    }
  }

  lemma {:induction false} AliveIsDistinct(items: seq<Item>, cur: nat)
    requires forall i, j :: 0 <= i < j < |items| ==> items[i].v != items[j].v
    ensures forall i, j :: 0 <= i < j < |Alive(items, cur)| ==> Alive(items, cur)[i].v != Alive(items, cur)[j].v
    decreases |items|
  {
    if items != [] {
      var n := |items| - 1;
      AliveIsDistinct(items[..n], cur);
      forall i | 0 <= i < |Alive(items[..n], cur)| ensures Alive(items[..n], cur)[i].v != items[n].v {
        var k := AliveFrom(items[..n], cur, i);
        assert items[..n][k] == items[k];
      }
    }
  }

  /** The intervals that are alive at a start, and the one that starts. */
  lemma {:induction false} BusyIsSmall(items: seq<Item>, n: nat, home: set<nat>)
    requires n < |items| && items[n].v in home
    requires forall i, j :: 0 <= i < j < |items| ==> items[i].v != items[j].v
    requires forall i :: 0 <= i < n && items[i].lr.end > items[n].lr.start ==> items[i].v in home
    ensures |Alive(items[..n], items[n].lr.start)| + 1 <= |home|
  {
    hide Alive;
    var cur := items[n].lr.start;
    var alive := Alive(items[..n], cur);
    AliveIsDistinct(items[..n], cur);
    forall i | 0 <= i < |alive| ensures alive[i].v in home && alive[i].v != items[n].v {
      var k := AliveFrom(items[..n], cur, i);
      assert items[..n][k] == items[k];
    }
    DistinctInSet(alive + [items[n]], home);
  }

  lemma {:induction false} SortingParts(live: LiveMap, items: seq<Item>, n: nat)
    requires IsSorting(live, items) && n < |items|
    ensures items[n].v in live && live[items[n].v] == items[n].lr
    ensures forall i :: 0 <= i < n ==> items[i].lr.start <= items[n].lr.start
    ensures forall i, j :: 0 <= i < j < |items| ==> items[i].v != items[j].v
  {
  }

  function TermRegs(t: A.Terminator): set<nat> {
    match t
    case CBr(cond, _, _) => {cond}
    case BrIndirect(v) => {v}
    case _ => {}
  }

  /** A register touched on both sides of a position of a selected block is in the window of
      that position or is the terminator's. */
  lemma {:induction false} AliveInWindow(bb: IR.Block, v: nat, p: nat, k: nat, q: nat)
    requires IR.Ssa(bb.insts) && Near(bb.insts, 0) && p <= k <= q && k < |Selected(bb).instrs|
    requires Touched(Selected(bb), v, p) && Touched(Selected(bb), v, q)
    ensures
      var size := |bb.insts| + 1;
      var j := PieceAt(bb.insts, bb.start, size, k);
      j < |bb.insts|
      && v in Window(bb.insts[j], j, SizeAt(bb.insts, bb.start, size, j)) + TermRegs(Selected(bb).term)
  {
    hide IR.Ssa, Near, T, SelectAll, PieceAt, SizeAt, Window, Touched;
    var b := Selected(bb);
    BodyTouch(b, v, p);
    BodyTouch(b, v, q);
    NonEmpty(bb.insts, bb.start, |bb.insts| + 1);
    PieceIsMonotone(bb.insts, bb.start, |bb.insts| + 1, k, k);
    if q < |b.instrs| {
      CrossingInWindow(bb.insts, bb.start, |bb.insts| + 1, p, k, q, v);
    }
  }

  lemma {:induction false} NonEmpty(insts: seq<IR.Instr>, start: Word, size: nat)
    requires SelectAll(insts, start, size).code != []
    ensures insts != []
  {
  }

  /** Intervals that begin and end at a touch. */
  ghost predicate AtTouches(live: LiveMap, b: A.Block) {
    forall v :: v in live ==>
      Touched(b, v, live[v].start) && Touched(b, v, live[v].end) && live[v].start <= live[v].end
  }

  lemma {:induction false} AnalysesAreAtTouches(b: A.Block)
    ensures AtTouches(ExactLive(b), b) && AtTouches(Analyzed(b), b)
  {
    hide Touched, ExactLive, Analyzed;
    ExactLiveIsExact(b);
    forall v | v in Analyzed(b)
      ensures Touched(b, v, Analyzed(b)[v].start) && Touched(b, v, Analyzed(b)[v].end)
      ensures Analyzed(b)[v].start <= Analyzed(b)[v].end
    {
      AnalyzeIsExact(b, v);
    }
  }

  lemma {:induction false} TouchesEnd(b: A.Block, v: nat, k: nat)
    requires Touched(b, v, k)
    ensures k <= |b.instrs|
  {
  }

  /** No more than four registers are occupied at once, whatever the order of the intervals and
      however long the block: those alive when an interval starts, and the one it takes. */
  lemma {:induction false} AtMostFour(bb: IR.Block, live: LiveMap, items: seq<Item>, n: nat)
    requires IR.Ssa(bb.insts) && Near(bb.insts, 0) && AtTouches(live, Selected(bb))
    requires IsSorting(live, items) && n < |items|
    ensures |Alive(items[..n], items[n].lr.start)| + 1 <= 4
  {
    hide IR.Ssa, Near, IsSorting, Alive, Touched, Window, PieceAt, SizeAt, Selected, TermRegs;
    var b := Selected(bb);
    var k := items[n].lr.start;
    SortingParts(live, items, n);
    TouchesEnd(b, items[n].v, k);
    if k < |b.instrs| {
      var j := PieceAt(bb.insts, bb.start, |bb.insts| + 1, k);
      AliveInWindow(bb, items[n].v, k, k, k);
      var window := Window(bb.insts[j], j, SizeAt(bb.insts, bb.start, |bb.insts| + 1, j));
      forall i | 0 <= i < n && items[i].lr.end > k ensures items[i].v in window + TermRegs(b.term) {
        SortingParts(live, items, i);
        AliveInWindow(bb, items[i].v, items[i].lr.start, k, items[i].lr.end);
      }
      BusyIsSmall(items, n, window + TermRegs(b.term));
      WindowHolds(bb.insts, j, SizeAt(bb.insts, bb.start, |bb.insts| + 1, j));
      HomeIsSmall(window, b.term);
    } else {
      forall i | 0 <= i < n ensures items[i].lr.end <= k {
        SortingParts(live, items, i);
        TouchesEnd(b, items[i].v, items[i].lr.end);
      }
      BusyIsSmall(items, n, {items[n].v});
    }
  }

  lemma {:induction false} HomeIsSmall(window: set<nat>, t: A.Terminator)
    requires |window| <= 3
    ensures |window + TermRegs(t)| <= 4
  {
    var more := TermRegs(t);
    assert |more| <= 1;
    assert |window + more| == |window| + |more| - |window * more|;
  }

  // ---------- Terminators of lifted blocks ----------

  /** The value a terminator names is a result of the block. */
  lemma {:induction false} LastICmpProduces(insts: seq<IR.Instr>)
    requires IR.Ssa(insts) && exists i :: 0 <= i < |insts| && insts[i].payload.ICmp?
    ensures Lifter.LastICmp(insts) < |insts| && insts[Lifter.LastICmp(insts)].payload.ICmp?
    decreases |insts|
  {
    hide IR.Operands;
    var n := |insts| - 1;
    if !insts[n].payload.ICmp? {
      var i :| 0 <= i < |insts| && insts[i].payload.ICmp?;
      assert insts[..n][i].payload.ICmp?;
      SsaPrefix(insts, n);
      LastICmpProduces(insts[..n]);
    }
  }

  /** An expansion that is not empty begins with a result. */
  lemma {:induction false} FirstProduces(insts: seq<R.DecodedInst>)
    ensures Lifter.LiftAll(insts) != [] ==> IR.Produces(Lifter.LiftAll(insts)[0].payload)
    decreases |insts|
  {
    hide Lifter.LiftInst, IR.Produces;
    if insts != [] {
      var before := Lifter.LiftAll(insts[..|insts| - 1]);
      FirstProduces(insts[..|insts| - 1]);
      ExpansionBegins(insts[|insts| - 1], |before|);
    }
  }

  lemma {:induction false} ExpansionBegins(inst: R.DecodedInst, n: nat)
    ensures Lifter.LiftInst(inst, n) != [] ==> IR.Produces(Lifter.LiftInst(inst, n)[0].payload)
    ensures inst.operands.Branch? ==>
      |Lifter.LiftInst(inst, n)| == 3 && Lifter.LiftInst(inst, n)[2].payload.ICmp?
    ensures inst.opcode.JALR? && inst.operands.RegMem? ==> Lifter.LiftInst(inst, n) != []
  {
    hide Lifter.KindOf, Lifter.CondOf, Add, R.Bits;
  }

  /** The last instruction of a block decides the shape of its terminator. */
  ghost predicate EndsWell(bb: Cfg.BasicBlock) {
    && (bb.term == Cfg.CondBranch ==> bb.insts != [] && bb.insts[|bb.insts| - 1].operands.Branch?)
    && (bb.term == Cfg.IndirectJump ==>
          bb.insts != [] && bb.insts[|bb.insts| - 1].opcode.JALR? && bb.insts[|bb.insts| - 1].operands.RegMem?)
  }

  lemma {:induction false} LiftedTermOk(bb: Cfg.BasicBlock)
    requires EndsWell(bb)
    ensures TermOk(Lifter.Lifted(bb))
  {
    hide Lifter.LiftInst, Lifter.LastICmp, IR.Ssa;
    var out := Lifter.LiftAll(bb.insts);
    Lifter.LiftIsSsa(bb.insts);
    if bb.insts != [] {
      var n := |bb.insts| - 1;
      var before := Lifter.LiftAll(bb.insts[..n]);
      var last := Lifter.LiftInst(bb.insts[n], |before|);
      ExpansionBegins(bb.insts[n], |before|);
      FirstProduces(bb.insts);
      assert out == before + last;
      if bb.term == Cfg.CondBranch {
        assert out[|before| + 2] == last[2];
        LastICmpProduces(out);
      } else if bb.term == Cfg.IndirectJump {
        DestProduces(out, |out| - 1);
      }
    }
  }

  lemma {:induction false} DestProduces(insts: seq<IR.Instr>, i: nat)
    requires IR.Ssa(insts) && i < |insts|
    ensures insts[i].dest.Some? ==> insts[i].dest.value == i && IR.Produces(insts[i].payload)
  {
    hide IR.Operands, IR.Produces;
  }

  /** Allocation of a lifted and selected block never runs out of registers: at most four of the
      25 are occupied, with exact intervals as with those of the analysis. */
  lemma {:induction false} PipelineNeverRunsOut(bb: Cfg.BasicBlock, live: LiveMap, items: seq<Item>)
    requires
      var b := Selected(Lifter.Lifted(bb));
      live == ExactLive(b) || live == Analyzed(b)
    requires IsSorting(live, items)
    ensures Allocated(items).Assigned?
    ensures forall n :: 0 <= n < |items| ==> |Alive(items[..n], items[n].lr.start)| + 1 <= 4
  {
    hide ExactLive, Analyzed, Selected, Alive, ScanAll, IR.Ssa, Near, Lifter.LiftAll, Lifter.LiftTerm, IsSorting,
         AtTouches;
    var b := Lifter.Lifted(bb);
    Lifter.LiftIsSsa(bb.insts);
    LiftedIsNear(bb.insts);
    AnalysesAreAtTouches(Selected(b));
    forall n | 0 <= n < |items| ensures |Alive(items[..n], items[n].lr.start)| + 1 <= 4 {
      AtMostFour(b, live, items, n);
    }
    SortingIsOrdered(live, items);
    AllocatesExactly(items);
  }

  lemma {:induction false} SortingIsOrdered(live: LiveMap, items: seq<Item>)
    requires IsSorting(live, items)
    ensures Ordered(items)
  {
  }
}
