/** What the emitted block does with the analysis as written, for every order of its intervals:
    the block, or the block misread. */
module MisreadTheorems {
  import opened Words
  import R = Riscv
  import Decoder
  import Reference
  import opened Cfg
  import CfgTheorems
  import IR
  import A = AArch64
  import Lifter
  import opened LiftBlock
  import opened ISel
  import opened ISelBlock
  import opened Liveness
  import opened RegAlloc
  import opened RegAllocTheorems
  import opened Emitter
  import opened AllocSim
  import opened SelectedCode
  import Pressure
  import opened Runtime
  import opened Orders
  import opened BlockTheorems
  import opened Misread
  import opened MisreadCode
  import opened MisreadAlloc

  // ---------- The block ----------

  function IrOf(bb: BasicBlock): seq<IR.Instr> {
    Lifter.LiftAll(bb.insts)
  }

  lemma {:induction false} HeadOfBlock(bb: BasicBlock)
    requires ReadsTwoFirst(bb)
    ensures IR.Ssa(IrOf(bb)) && TwoValueHead(IrOf(bb))
    ensures VBlock(bb).instrs == CodeOf(IrOf(bb), bb.start)
  {
    hide IR.Ssa, TwoValueHead, Lifter.LiftAll, Lifter.LiftTerm, SelectAll, TwoOperands, FirstLifted;
    Lifter.LiftIsSsa(bb.insts);
    assert bb.insts[..|bb.insts|] == bb.insts;
    LiftedHead(bb.insts, |bb.insts|);
  }

  lemma {:induction false} ConditionIsLate(insts: seq<IR.Instr>)
    requires TwoValueHead(insts) && IR.Ssa(insts) && exists i :: 0 <= i < |insts| && insts[i].payload.ICmp?
    ensures 2 <= Lifter.LastICmp(insts) < |insts|
  {
    hide IR.Operands, IR.Ssa, Lifter.LastICmp;
    Pressure.LastICmpProduces(insts);
  }

  lemma {:induction false} HeadedIs(code: Decoder.Code, stops: seq<Word>, bb: BasicBlock)
    requires Walks(code, stops, bb) && ReadsTwoFirst(bb)
    ensures |IrOf(bb)| >= 3 && HeadedBlock(VBlock(bb), OpAt(IrOf(bb), bb.start))
  {
    hide Walks, IR.Ssa, TwoOperands, FirstLifted, HeadTouches, Lifter.LiftAll, CodeOf, OpAt, Lifter.LastICmp,
         SelectAll, Lifter.LiftInst;
    var insts := IrOf(bb);
    HeadOfBlock(bb);
    HeadIsTouched(insts, bb.start);
    WalksEndWell(code, stops, bb);
    if bb.term == CondBranch {
      var n := |bb.insts| - 1;
      var before := Lifter.LiftAll(bb.insts[..n]);
      Pressure.ExpansionBegins(bb.insts[n], |before|);
      LiftedSnoc(bb.insts);
      assert insts[|before| + 2].payload.ICmp?;
      ConditionIsLate(insts);
    }
    LastDest(insts);
  }

  lemma {:induction false} LastDest(insts: seq<IR.Instr>)
    requires IR.Ssa(insts) && insts != []
    ensures insts[|insts| - 1].dest.Some? ==> insts[|insts| - 1].dest.value == |insts| - 1
  {
    hide IR.Operands, IR.Produces;
  }

  // ---------- What the emitted block does ----------

  lemma {:induction false} SteppedIsRun(code: Decoder.Code, stops: seq<Word>, bb: BasicBlock, g: R.Guest)
    requires Walks(code, stops, bb)
    ensures Stepped(bb, g) == Reference.Run(code, Reference.Running(bb.start, g), CfgTheorems.StepsOf(bb))
  {
    hide Walks, CfgTheorems.BlockExit, CfgTheorems.ExecAll, Reference.Run, CfgTheorems.StepsOf;
    CfgTheorems.BlockRuns(code, stops, bb, g);
    assert bb.insts[0..] == bb.insts;
  }

  lemma {:induction false} Allocates(bb: BasicBlock, items: seq<Item>)
    requires IsSorting(Analyzed(VBlock(bb)), items)
    ensures Allocated(items).Assigned? && GoodAssignment(Allocated(items).v2p, Analyzed(VBlock(bb)))
  {
    hide Analyzed, IsSorting, Allocated, GoodAssignment, ISel.Selected;
    Pressure.PipelineNeverRunsOut(bb, Analyzed(VBlock(bb)), items);
    AllocationIsGood(Analyzed(VBlock(bb)), items);
  }

  lemma {:induction false} FirstTwoAssigned(b: A.Block, s: nat, v2p: Assignment)
    requires HeadedBlock(b, s) && GoodAssignment(v2p, Analyzed(b))
    ensures 1 in v2p && 2 in v2p
  {
    hide HeadedBlock, Analyzed, Interferes, POOL, Touched;
    HeadIntervals(b, s);
  }

  /** With different registers for the first two values the emitted block agrees with the block. */
  lemma {:induction false} ApartAgrees(code: Decoder.Code, stops: seq<Word>, bb: BasicBlock, v2p: Assignment,
                                       g: R.Guest, base: Word, m: A.Machine)
    requires Walks(code, stops, bb) && FaithfulBlock(bb) && R.ZeroX0(g) && ReadsTwoFirst(bb)
    requires GoodAssignment(v2p, Analyzed(VBlock(bb))) && HostState(g, base, m)
    requires 1 in v2p && 2 in v2p && v2p[1] != v2p[2]
    ensures Agrees(Stepped(bb, g), base, PointOf(RunLines(BlockLines(VBlock(bb), v2p), m)))
  {
    hide Walks, FaithfulBlock, R.ZeroX0, HostState, Agrees, ISel.Selected, Lifter.Lifted, RunLines, LeftAlike,
         IrExit, OffsetsFit, DefinedBeforeUse, A.Run, IR.Run, CfgTheorems.StepsOf, Stepped, GoodAssignment, Analyzed,
         Reference.Run, TermLines, Body, A.Exec, Leaves, PointOf, IR.Has, ReadsTwoFirst, HeadedBlock, OpAt,
         Lifter.LiftAll;
    var b := VBlock(bb);
    var m1 := A.Exec(PROLOGUE.i, m);
    SteppedIsRun(code, stops, bb, g);
    BlockIsSound(code, stops, bb);
    ConditionIsThere(code, stops, bb, g);
    LiftPreservesMeaning(code, stops, bb, g);
    HeadedIs(code, stops, bb);
    ApartRuns(b, OpAt(IrOf(bb), bb.start), v2p, m1);
    EmittedAgrees(Lifter.Lifted(bb), Body(b.instrs, v2p) + TermLines(b.term, v2p), g, base, m);
  }

  /** The IR block with its first operation twisted. */
  function TwistedBlock(bb: BasicBlock): IR.Block
    requires |IrOf(bb)| >= 3
  {
    IR.Block(bb.start, Twisted(IrOf(bb)), Lifter.LiftTerm(bb, IrOf(bb)))
  }

  lemma {:induction false} TwistedIsSound(code: Decoder.Code, stops: seq<Word>, bb: BasicBlock)
    requires Walks(code, stops, bb) && ReadsTwoFirst(bb)
    ensures |IrOf(bb)| >= 3
    ensures
      var ir := TwistedBlock(bb);
      OffsetsFit(ir.insts) && !ir.term.NoTerm? && DefinedBeforeUse(Selected(ir))
  {
    hide Walks, IR.Ssa, TwoOperands, FirstLifted, Lifter.LiftAll, Lifter.LiftTerm, ISel.Selected, DefinedBeforeUse,
         R.WellFormed, OffsetsFit;
    HeadOfBlock(bb);
    WalksAreWellFormed(code, stops, bb);
    LiftedFits(bb.insts);
    TwistedFits(IrOf(bb));
    NeverOpen(bb);
    WalksEndWell(code, stops, bb);
    Pressure.LiftedTermOk(bb);
    TwistedIsSsa(IrOf(bb));
    TwistedTermOk(Lifter.Lifted(bb));
    SelectedDefinesFirst(TwistedBlock(bb));
  }

  lemma {:induction false} TwistedFits(insts: seq<IR.Instr>)
    requires OffsetsFit(insts) && TwoValueHead(insts)
    ensures OffsetsFit(Twisted(insts))
  {
    hide IR.Operands;
  }

  lemma {:induction false} TwistedIsSsa(insts: seq<IR.Instr>)
    requires IR.Ssa(insts) && TwoValueHead(insts)
    ensures IR.Ssa(Twisted(insts))
  {
    var t := Twisted(insts);
    forall i | 0 <= i < |t|
      ensures t[i].dest == insts[i].dest && IR.Produces(t[i].payload) == IR.Produces(insts[i].payload)
    {
    }
    forall i, v | 0 <= i < |t| && v in IR.Operands(t[i].payload) ensures v < i && IR.Produces(t[v].payload) {
      if i != 2 { assert v in IR.Operands(insts[i].payload); }
    }
  }

  lemma {:induction false} TwistedTermOk(b: IR.Block)
    requires TermOk(b) && TwoValueHead(b.insts)
    ensures TermOk(b.(insts := Twisted(b.insts)))
  {
    hide IR.Operands;
  }

  /** With one register for the first two values it agrees with the block misread. */
  lemma {:induction false} ClashAgrees(code: Decoder.Code, stops: seq<Word>, bb: BasicBlock, v2p: Assignment,
                                       g: R.Guest, base: Word, m: A.Machine)
    requires Walks(code, stops, bb) && FaithfulBlock(bb) && R.ZeroX0(g) && ReadsTwoFirst(bb)
    requires GoodAssignment(v2p, Analyzed(VBlock(bb))) && HostState(g, base, m)
    requires 1 in v2p && 2 in v2p && v2p[1] == v2p[2]
    ensures Agrees(SteppedMisread(bb, g), base, PointOf(RunLines(BlockLines(VBlock(bb), v2p), m)))
  {
    hide Walks, FaithfulBlock, R.ZeroX0, HostState, Agrees, RunLines, LeftAlike, Lifter.LiftTerm, Twisted, IrExit,
         OffsetsFit, A.Run, IR.Run, SteppedMisread, GoodAssignment, Analyzed, CodeOf, T, Reread, OperationCode,
         TermLines, Body, A.Exec, Leaves, PointOf, IR.Has, ReadsTwoFirst, HeadedBlock, OpAt, Lifter.LiftAll, UsesOk,
         DefinedBy, IR.Ssa;
    var b := VBlock(bb);
    var m1 := A.Exec(PROLOGUE.i, m);
    HeadOfBlock(bb);
    HeadedIs(code, stops, bb);
    TwistedIsSound(code, stops, bb);
    TwistedMeansMisread(code, stops, bb, g);
    var ir := TwistedBlock(bb);
    var s := OpAt(IrOf(bb), bb.start);
    HeadIsTouched(IrOf(bb), bb.start);
    TwistedSelected(bb);
    SIsPositive(b, s);
    assert b.term.CBr? ==> b.term.cond in TouchedByTerm(b.term);
    ClashRuns(b, s, Selected(ir).instrs, v2p, m1);
    EmittedAgrees(ir, Body(b.instrs, v2p) + TermLines(b.term, v2p), g, base, m);
  }

  lemma {:induction false} TwistedSelected(bb: BasicBlock)
    requires |IrOf(bb)| >= 3
    ensures Selected(TwistedBlock(bb)).instrs == CodeOf(Twisted(IrOf(bb)), bb.start)
    ensures Selected(TwistedBlock(bb)).term == VBlock(bb).term
  {
    hide SelectAll, Lifter.LiftAll, Lifter.LiftTerm, LhsIsOne;
  }

  /** For every order of the intervals, the emitted block agrees with the block or with the block
      misread, according to the registers of its first two values. */
  lemma {:induction false} EitherWay(code: Decoder.Code, stops: seq<Word>, bb: BasicBlock, items: seq<Item>,
                                     g: R.Guest, base: Word, m: A.Machine)
    requires Walks(code, stops, bb) && FaithfulBlock(bb) && R.ZeroX0(g) && ReadsTwoFirst(bb)
    requires IsSorting(Analyzed(VBlock(bb)), items) && HostState(g, base, m)
    ensures Allocated(items).Assigned? && 1 in Allocated(items).v2p && 2 in Allocated(items).v2p
    ensures
      var v2p := Allocated(items).v2p;
      Agrees(if v2p[1] == v2p[2] then SteppedMisread(bb, g) else Stepped(bb, g), base,
             PointOf(RunLines(BlockLines(VBlock(bb), v2p), m)))
  {
    hide Walks, FaithfulBlock, R.ZeroX0, HostState, Agrees, RunLines, SteppedMisread, Stepped, GoodAssignment,
         Analyzed, PointOf, ReadsTwoFirst, HeadedBlock, OpAt, Lifter.LiftAll, IsSorting, Allocated, VBlock,
         BlockLines;
    Allocates(bb, items);
    HeadedIs(code, stops, bb);
    var v2p := Allocated(items).v2p;
    FirstTwoAssigned(VBlock(bb), OpAt(IrOf(bb), bb.start), v2p);
    if v2p[1] == v2p[2] {
      ClashAgrees(code, stops, bb, v2p, g, base, m);
    } else {
      ApartAgrees(code, stops, bb, v2p, g, base, m);
    }
  }

  // ---------- An order that clashes ----------

  /** x28 is taken, and everything else is free. */
  function OneTaken(it: Item, v2p: map<nat, nat>): State {
    State(POOL[..24], [Active(28, it.lr, it.v)], v2p)
  }

  lemma {:induction false} TakesLast(st: State, v2p: map<nat, nat>, it: Item)
    requires st.v2p == v2p
    requires st.pool + Freed(st.active, it.lr.start) == POOL && Kept(st.active, it.lr.start) == []
    ensures Expired(st, it.lr.start).pool != []
    ensures Take(Expired(st, it.lr.start), it) == OneTaken(it, v2p[it.v := 28])
  {
    assert |POOL| == 25 && POOL[24] == 28;
  }

  /** A register whose interval has ended is passed on. */
  lemma {:induction false} PassedOn(items: seq<Item>, v2p: map<nat, nat>, it: Item)
    requires items != [] && ScanAll(items) == Scanning(OneTaken(items[|items| - 1], v2p))
    requires items[|items| - 1].lr.end <= it.lr.start
    ensures ScanAll(items + [it]) == Scanning(OneTaken(it, v2p[it.v := 28]))
  {
    var last := items[|items| - 1];
    var st := OneTaken(last, v2p);
    assert |POOL| == 25 && POOL[24] == 28;
    assert st.active[..|st.active| - 1] == [];
    assert st.pool + [28] == POOL;
    TakesLast(st, v2p, it);
    assert (items + [it])[..|items + [it]| - 1] == items;
  }

  lemma {:induction false} ClashBegins(a: Item)
    ensures ScanAll([a]) == Scanning(OneTaken(a, map[a.v := 28]))
  {
    assert [a][..|[a]| - 1] == [];
    var st := State(POOL, [], map[]);
    assert ScanAll([a][..|[a]| - 1]) == Scanning(st);
    assert st.pool + [] == POOL;
    TakesLast(st, map[], a);
  }

  lemma {:induction false} ClashBegun(a: Item, b: Item)
    requires a.v != b.v && a.lr.end <= b.lr.start
    ensures ScanAll([a, b]) == Scanning(OneTaken(b, map[a.v := 28, b.v := 28]))
  {
    hide Kept, Freed, POOL, OneTaken, ScanAll;
    ClashBegins(a);
    PassedOn([a], map[a.v := 28], b);
    assert [a] + [b] == [a, b];
  }

  lemma {:induction false} RestParts(live: LiveMap, rest: seq<Item>)
    requires IsSorting(live - {1, 2}, rest)
    ensures forall i :: 0 <= i < |rest| ==>
      rest[i].v in live && live[rest[i].v] == rest[i].lr && rest[i].v != 1 && rest[i].v != 2
    ensures forall v :: v in live && v != 1 && v != 2 ==> exists i :: 0 <= i < |rest| && rest[i].v == v
    ensures forall i, j :: 0 <= i < j < |rest| ==>
      rest[i].v != rest[j].v && rest[i].lr.start <= rest[j].lr.start
  {
    forall i | 0 <= i < |rest|
      ensures rest[i].v in live && live[rest[i].v] == rest[i].lr && rest[i].v != 1 && rest[i].v != 2
    {
      assert rest[i].v in live - {1, 2};
    }
    forall v | v in live && v != 1 && v != 2 ensures exists i :: 0 <= i < |rest| && rest[i].v == v {
      assert v in live - {1, 2};
    }
  }

  lemma {:induction false} TwoInFront(a: Item, b: Item, rest: seq<Item>)
    requires a.v != b.v && a.lr.start <= b.lr.start
    requires forall i :: 0 <= i < |rest| ==>
      rest[i].v != a.v && rest[i].v != b.v && b.lr.start <= rest[i].lr.start
    requires forall i, j :: 0 <= i < j < |rest| ==>
      rest[i].v != rest[j].v && rest[i].lr.start <= rest[j].lr.start
    ensures
      var all := [a, b] + rest;
      forall i, j :: 0 <= i < j < |all| ==> all[i].v != all[j].v && all[i].lr.start <= all[j].lr.start
  {
    var all := [a, b] + rest;
    forall i, j | 0 <= i < j < |all| ensures all[i].v != all[j].v && all[i].lr.start <= all[j].lr.start {
      if i >= 2 { assert all[i] == rest[i - 2] && all[j] == rest[j - 2]; }
    }
  }

  lemma {:induction false} TwoAndRest(live: LiveMap, a: Item, b: Item, rest: seq<Item>)
    requires a.v in live && live[a.v] == a.lr && b.v in live && live[b.v] == b.lr
    requires forall i :: 0 <= i < |rest| ==> rest[i].v in live && live[rest[i].v] == rest[i].lr
    requires forall v :: v in live && v != b.v && v != a.v ==> exists i :: 0 <= i < |rest| && rest[i].v == v
    ensures
      var all := [a, b] + rest;
      && (forall i :: 0 <= i < |all| ==> all[i].v in live && live[all[i].v] == all[i].lr)
      && (forall v :: v in live ==> exists i :: 0 <= i < |all| && all[i].v == v)
  {
    var all := [a, b] + rest;
    assert all[0] == a && all[1] == b;
    forall i | 0 <= i < |all| ensures all[i].v in live && live[all[i].v] == all[i].lr {
      if i >= 2 { assert all[i] == rest[i - 2]; }
    }
    forall v | v in live ensures exists i :: 0 <= i < |all| && all[i].v == v {
      if v != a.v && v != b.v {
        var i :| 0 <= i < |rest| && rest[i].v == v;
        assert all[i + 2].v == v;
      }
    }
  }

  lemma {:induction false} TwoFirst(live: LiveMap, s: nat, rest: seq<Item>)
    requires 1 in live && 2 in live && live[2] == LiveRange(1, s) && live[1].start == s && s >= 1
    requires forall w :: w in live && w != 2 ==> live[w].start >= s
    requires IsSorting(live - {1, 2}, rest)
    ensures IsSorting(live, [Item(2, live[2]), Item(1, live[1])] + rest)
  {
    hide IsSorting;
    RestParts(live, rest);
    var all := [Item(2, live[2]), Item(1, live[1])] + rest;
    TwoAndRest(live, Item(2, live[2]), Item(1, live[1]), rest);
    TwoInFront(Item(2, live[2]), Item(1, live[1]), rest);
    MakesSorting(live, all);
  }

  lemma {:induction false} MakesSorting(live: LiveMap, all: seq<Item>)
    requires forall i :: 0 <= i < |all| ==> all[i].v in live && live[all[i].v] == all[i].lr
    requires forall v :: v in live ==> exists i :: 0 <= i < |all| && all[i].v == v
    requires forall i, j :: 0 <= i < j < |all| ==> all[i].v != all[j].v && all[i].lr.start <= all[j].lr.start
    ensures IsSorting(live, all)
  {
  }

  /** Some order of the intervals gives the first two values the same register. */
  lemma {:induction false} ClashExists(code: Decoder.Code, stops: seq<Word>, bb: BasicBlock) returns (items: seq<Item>)
    requires Walks(code, stops, bb) && ReadsTwoFirst(bb)
    ensures IsSorting(Analyzed(VBlock(bb)), items)
    ensures Allocated(items).Assigned? && 1 in Allocated(items).v2p && 2 in Allocated(items).v2p
    ensures Allocated(items).v2p[1] == Allocated(items).v2p[2]
  {
    hide Walks, Analyzed, ReadsTwoFirst, HeadedBlock, OpAt, Lifter.LiftAll, IsSorting, ScanAll, VBlock, POOL,
         GoodAssignment, Touched;
    HeadedIs(code, stops, bb);
    var s := OpAt(IrOf(bb), bb.start);
    var live := Analyzed(VBlock(bb));
    HeadIntervals(VBlock(bb), s);
    SIsPositive(VBlock(bb), s);
    var rest := SortingExists(live - {1, 2});
    var a, b := Item(2, live[2]), Item(1, live[1]);
    items := [a, b] + rest;
    TwoFirst(live, s, rest);
    Allocates(bb, items);
    ClashBegun(a, b);
    SortedAreDistinct(live, items);
    assert items[..2] == [a, b];
    OneTakenMap(b, map[2 := 28, 1 := 28]);
    AssignmentKeeps(items, 2, 1);
    AssignmentKeeps(items, 2, 2);
  }

  lemma {:induction false} OneTakenMap(it: Item, v2p: map<nat, nat>)
    ensures OneTaken(it, v2p).v2p == v2p
  {
    hide POOL;
  }

  lemma {:induction false} SortedAreDistinct(live: LiveMap, items: seq<Item>)
    requires IsSorting(live, items)
    ensures forall i, j :: 0 <= i < j < |items| ==> items[i].v != items[j].v
  {
  }
}
