/** Allocation preserves meaning: a block on its assigned physical registers does what it does
    on virtual registers. */
module AllocSim {
  import opened Words
  import IR
  import A = AArch64
  import opened Liveness
  import opened RegAlloc
  import opened RegAllocTheorems
  import opened Emitter

  // ---------- Defined before use ----------

  function Defined(i: A.Instr): set<nat> {
    match A.Dest(i)
    case Some(V(v)) => {v}
    case _ => {}
  }

  function DefinedBy(code: seq<A.Instr>): set<nat>
    decreases |code|
  {
    if code == [] then {} else Defined(code[0]) + DefinedBy(code[1..])
  }

  /** A register that can be read: defined already, or a physical one outside the pool. */
  predicate Readable(r: A.Reg, defs: set<nat>) {
    match r
    case V(v) => v in defs
    case P(p) => p !in POOL
  }

  /** The instruction defines at most one virtual register and no physical one, reads only
      registers that can be read, and bases its memory operand on a virtual register. */
  predicate InstrOk(i: A.Instr, defs: set<nat>) {
    && (forall j :: 0 <= j < |A.Uses(i)| ==> Readable(A.Uses(i)[j], defs))
    && (match A.Dest(i) case Some(d) => d.V? case None => true)
    && (i.Ldr? || i.Str? ==> i.base.V?)
  }

  predicate UsesOk(code: seq<A.Instr>, defs: set<nat>)
    decreases |code|
  {
    code == [] || (InstrOk(code[0], defs) && UsesOk(code[1..], defs + Defined(code[0])))
  }

  /** Every first touch is a definition, in the body and in the terminator. */
  predicate DefinedBeforeUse(b: A.Block) {
    && UsesOk(b.instrs, {})
    && forall v :: v in TouchedByTerm(b.term) ==> v in DefinedBy(b.instrs)
  }

  // ---------- One instruction ----------

  predicate AgreesOn(r: A.Reg, vm: A.Machine, pm: A.Machine, v2p: Assignment) {
    A.Get(pm.regs, MapReg(r, v2p)) == A.Get(vm.regs, r)
  }

  predicate SameOutside(vm: A.Machine, pm: A.Machine) {
    vm.flags == pm.flags && vm.slots == pm.slots && vm.mem == pm.mem
  }

  lemma {:induction false} BaseKeepsState(r: A.Reg, v2p: Assignment)
    requires r.V? && (r != A.V(0) ==> r.v in v2p && v2p[r.v] in POOL)
    ensures A.IsState(MapBase(r, v2p)) == A.IsState(r)
    ensures !A.IsState(r) ==> MapBase(r, v2p) == MapReg(r, v2p)
  {
    hide POOL;
    if r != A.V(0) {
      PoolHasNoRepeats(v2p[r.v]);
    }
  }

  /** Equal operands give equal results, whatever the registers are called. */
  lemma {:induction false} SameEffects(i: A.Instr, vm: A.Machine, pm: A.Machine, v2p: Assignment)
    requires SameOutside(vm, pm)
    requires forall j :: 0 <= j < |A.Uses(i)| ==> AgreesOn(A.Uses(i)[j], vm, pm, v2p)
    requires i.Ldr? || i.Str? ==>
      i.base.V? && (i.base != A.V(0) ==> i.base.v in v2p && v2p[i.base.v] in POOL)
    ensures
      var j := MapInstr(i, v2p);
      && A.Result(j, pm) == A.Result(i, vm)
      && A.FlagsAfter(j, pm) == A.FlagsAfter(i, vm)
      && A.SlotsAfter(j, pm) == A.SlotsAfter(i, vm)
      && A.MemAfter(j, pm) == A.MemAfter(i, vm)
  {
    hide A.AluResult, A.Insert16, A.Compare, A.Holds, A.LoadWidth, A.Narrow, A.BytesOf, StoreBytes, Add, SExt32,
         Low32, FromSigned, POOL, MapReg, MapBase, A.IsState;
    if i.Ldr? || i.Str? { BaseKeepsState(i.base, v2p); }
    var u := A.Uses(i);
    assert |u| > 0 ==> AgreesOn(u[0], vm, pm, v2p);
    assert |u| > 1 ==> AgreesOn(u[1], vm, pm, v2p);
  }

  lemma {:induction false} MappedDest(i: A.Instr, v2p: Assignment)
    ensures A.Dest(i).None? ==> A.Dest(MapInstr(i, v2p)).None?
    ensures A.Dest(i).Some? ==> A.Dest(MapInstr(i, v2p)) == IR.Some(MapReg(A.Dest(i).value, v2p))
  {
    hide MapReg, MapBase;
  }

  // ---------- The relation kept along a block ----------

  /** At position k the two machines agree on flags, memory and the registers outside the pool;
      and each register defined before k whose interval reaches k is where it was assigned. */
  ghost predicate Along(vm: A.Machine, pm: A.Machine, v2p: Assignment, live: LiveMap, defs: set<nat>, k: nat) {
    && SameOutside(vm, pm)
    && (forall p: nat :: p !in POOL ==> A.Get(pm.regs, A.P(p)) == A.Get(vm.regs, A.P(p)))
    && (forall v :: v in defs ==> v in live && live[v].start < k)
    && (forall v :: v in defs && live[v].end >= k ==> AgreesOn(A.V(v), vm, pm, v2p))
  }

  /** What the allocator guarantees. */
  ghost predicate GoodAssignment(v2p: Assignment, live: LiveMap) {
    && (forall v :: v in live ==> v in v2p && v2p[v] in POOL)
    && (forall v, w :: v in live && w in live && v != w && Interferes(live[v], live[w]) ==> v2p[v] != v2p[w])
  }

  lemma {:induction false} AllocationIsGood(live: LiveMap, items: seq<Item>)
    requires IsSorting(live, items) && Allocated(items).Assigned?
    ensures GoodAssignment(Allocated(items).v2p, live)
  {
    hide POOL, Interferes, ScanAll;
    var v2p := Allocated(items).v2p;
    AssignedFromPool(items);
    forall v | v in live ensures v in v2p && v2p[v] in POOL {
      var i := IndexOf(live, items, v);
    }
    forall v, w | v in live && w in live && v != w && Interferes(live[v], live[w]) ensures v2p[v] != v2p[w] {
      NoInterference(live, items, v, w);
    }
  }

  ghost predicate CoversAt(live: LiveMap, i: A.Instr, k: nat) {
    forall v :: v in TouchedByAll(A.Operands(i)) ==> v in live && live[v].start <= k <= live[v].end
  }

  lemma {:induction false} OperandIsTouched(ops: seq<A.Operand>, j: nat)
    requires j < |ops|
    ensures forall v :: v in TouchedBy(ops[j]) ==> v in TouchedByAll(ops)
    decreases |ops|
  {
    hide TouchedBy;
    if j < |ops| - 1 {
      OperandIsTouched(ops[..|ops| - 1], j);
    }
  }

  /** Registers read and defined are among those touched. */
  lemma {:induction false} UsesAreTouched(i: A.Instr)
    ensures forall j :: 0 <= j < |A.Uses(i)| && A.Uses(i)[j].V? ==> A.Uses(i)[j].v in TouchedByAll(A.Operands(i))
    ensures forall v :: v in Defined(i) ==> v in TouchedByAll(A.Operands(i))
  {
    hide TouchedByAll;
    var ops := A.Operands(i);
    OperandIsTouched(ops, 0);
    if |ops| > 1 { OperandIsTouched(ops, 1); }
    if |ops| > 2 { OperandIsTouched(ops, 2); }
  }

  lemma {:induction false} UsesAgree(i: A.Instr, vm: A.Machine, pm: A.Machine, v2p: Assignment, live: LiveMap,
                                     defs: set<nat>, k: nat)
    requires Along(vm, pm, v2p, live, defs, k) && InstrOk(i, defs) && CoversAt(live, i, k)
    ensures forall j :: 0 <= j < |A.Uses(i)| ==> AgreesOn(A.Uses(i)[j], vm, pm, v2p)
  {
    hide A.Uses, A.Operands, TouchedByAll, POOL, AgreesOn;
    UsesAreTouched(i);
    forall j | 0 <= j < |A.Uses(i)| ensures AgreesOn(A.Uses(i)[j], vm, pm, v2p) {
      var r := A.Uses(i)[j];
      assert Readable(r, defs);
      if r.P? { PhysicalAgrees(r, vm, pm, v2p); }
    }
  }

  lemma {:induction false} PhysicalAgrees(r: A.Reg, vm: A.Machine, pm: A.Machine, v2p: Assignment)
    requires r.P? && A.Get(pm.regs, r) == A.Get(vm.regs, r)
    ensures AgreesOn(r, vm, pm, v2p)
  {
  }

  /** Writing the destination disturbs no register still needed. */
  lemma {:induction false} WriteKeepsAlong(vm: A.Machine, pm: A.Machine, v2p: Assignment, live: LiveMap,
                                           defs: set<nat>, k: nat, d: nat, w: Word)
    requires Along(vm, pm, v2p, live, defs, k) && GoodAssignment(v2p, live)
    requires d in live && live[d].start <= k <= live[d].end
    ensures Along(vm.(regs := vm.regs[A.V(d) := w]), pm.(regs := pm.regs[A.P(v2p[d]) := w]),
                  v2p, live, defs + {d}, k + 1)
  {
    hide POOL;
    var vm', pm' := vm.(regs := vm.regs[A.V(d) := w]), pm.(regs := pm.regs[A.P(v2p[d]) := w]);
    forall v | v in defs + {d} && live[v].end >= k + 1 ensures AgreesOn(A.V(v), vm', pm', v2p) {
      if v != d {
        assert Interferes(live[v], live[d]);
        assert AgreesOn(A.V(v), vm, pm, v2p);
      }
    }
  }

  lemma {:induction false} NoWriteKeepsAlong(vm: A.Machine, pm: A.Machine, v2p: Assignment, live: LiveMap,
    defs: set<nat>, k: nat)
    requires Along(vm, pm, v2p, live, defs, k)
    ensures Along(vm, pm, v2p, live, defs, k + 1)
  {
    hide POOL, AgreesOn, SameOutside;
  }

  lemma {:induction false} OutsideKeepsAlong(vm: A.Machine, pm: A.Machine, v2p: Assignment, live: LiveMap,
    defs: set<nat>, k: nat,
                          flags: A.Flags, slots: map<int, Word>, mem: Memory)
    requires Along(vm, pm, v2p, live, defs, k)
    ensures Along(A.Machine(vm.regs, flags, slots, mem), A.Machine(pm.regs, flags, slots, mem), v2p, live, defs, k)
  {
    hide POOL;
    var vm', pm' := A.Machine(vm.regs, flags, slots, mem), A.Machine(pm.regs, flags, slots, mem);
    forall v | v in defs && live[v].end >= k ensures AgreesOn(A.V(v), vm', pm', v2p) {
      assert AgreesOn(A.V(v), vm, pm, v2p);
    }
  }

  /** One instruction keeps the relation, also when its destination is given the register of a
      source that ends here. */
  lemma {:induction false} StepAlong(i: A.Instr, vm: A.Machine, pm: A.Machine, v2p: Assignment, live: LiveMap,
                                     defs: set<nat>, k: nat)
    requires Along(vm, pm, v2p, live, defs, k) && GoodAssignment(v2p, live)
    requires InstrOk(i, defs) && CoversAt(live, i, k)
    ensures Along(A.Exec(i, vm), A.Exec(MapInstr(i, v2p), pm), v2p, live, defs + Defined(i), k + 1)
  {
    hide A.Uses, A.Operands, TouchedByAll, POOL, AgreesOn, A.Result, A.FlagsAfter, A.SlotsAfter, A.MemAfter,
         MapInstr, A.Dest, Along;
    UsesAgree(i, vm, pm, v2p, live, defs, k);
    UsesAreTouched(i);
    BaseIsAssigned(i, v2p, live, k);
    AlongIsSame(vm, pm, v2p, live, defs, k);
    SameEffects(i, vm, pm, v2p);
    MappedDest(i, v2p);
    var w := A.Result(i, vm);
    OutsideKeepsAlong(vm, pm, v2p, live, defs, k, A.FlagsAfter(i, vm), A.SlotsAfter(i, vm), A.MemAfter(i, vm));
    var vm1 := A.Machine(vm.regs, A.FlagsAfter(i, vm), A.SlotsAfter(i, vm), A.MemAfter(i, vm));
    var pm1 := A.Machine(pm.regs, A.FlagsAfter(i, vm), A.SlotsAfter(i, vm), A.MemAfter(i, vm));
    match A.Dest(i) {
      case None =>
        NoWriteKeepsAlong(vm1, pm1, v2p, live, defs, k);
        assert defs + Defined(i) == defs;
      case Some(d) =>
        assert d.v in Defined(i);
        WriteKeepsAlong(vm1, pm1, v2p, live, defs, k, d.v, w);
    }
  }

  lemma {:induction false} AlongIsSame(vm: A.Machine, pm: A.Machine, v2p: Assignment, live: LiveMap, defs: set<nat>,
                                       k: nat)
    requires Along(vm, pm, v2p, live, defs, k)
    ensures SameOutside(vm, pm)
  {
  }

  lemma {:induction false} BaseIsAssigned(i: A.Instr, v2p: Assignment, live: LiveMap, k: nat)
    requires GoodAssignment(v2p, live) && CoversAt(live, i, k)
    requires i.Ldr? || i.Str? ==> i.base.V?
    ensures i.Ldr? || i.Str? ==> i.base != A.V(0) ==> i.base.v in v2p && v2p[i.base.v] in POOL
  {
    hide POOL, TouchedByAll, Interferes;
    if i.Ldr? || i.Str? {
      OperandIsTouched(A.Operands(i), 1);
      assert i.base != A.V(0) ==> i.base.v in TouchedBy(A.Operands(i)[1]);
    }
  }

  lemma {:induction false} RunAlong(code: seq<A.Instr>, vm: A.Machine, pm: A.Machine, v2p: Assignment, live: LiveMap,
                                    defs: set<nat>, k: nat)
    requires Along(vm, pm, v2p, live, defs, k) && GoodAssignment(v2p, live) && UsesOk(code, defs)
    requires forall j :: 0 <= j < |code| ==> CoversAt(live, code[j], k + j)
    ensures Along(A.Run(code, vm), A.Run(MapAll(code, v2p), pm), v2p, live, defs + DefinedBy(code), k + |code|)
    decreases |code|
  {
    hide Along, GoodAssignment, InstrOk, CoversAt, A.Exec, MapInstr, Defined;
    if code == [] {
      assert defs + DefinedBy(code) == defs;
    } else {
      var i := code[0];
      assert MapAll(code, v2p)[1..] == MapAll(code[1..], v2p);
      assert CoversAt(live, code[0], k + 0);
      StepAlong(i, vm, pm, v2p, live, defs, k);
      forall j | 0 <= j < |code[1..]| ensures CoversAt(live, code[1..][j], k + 1 + j) {
        assert CoversAt(live, code[j + 1], k + (j + 1));
      }
      RunAlong(code[1..], A.Exec(i, vm), A.Exec(MapInstr(i, v2p), pm), v2p, live, defs + Defined(i), k + 1);
      assert defs + Defined(i) + DefinedBy(code[1..]) == defs + DefinedBy(code);
    }
  }

  // ---------- Whole blocks ----------

  datatype Leaving = Branch(target: string) | Dispatch(pc: Word) | Return | Break | Nowhere

  /** How virtual-register code leaves its block. */
  function Leaves(t: A.Terminator, m: A.Machine): Leaving {
    match t
    case Br(target) => Branch(target)
    case CBr(cond, t, f) => if A.Get(m.regs, A.V(cond)) != 0 then Branch(t) else Branch(f)
    case BrIndirect(v) => Dispatch(A.Get(m.regs, A.V(v)))
    case Ret => Return
    case Trap => Break
    case NoTerm => Nowhere
  }

  /** The emitted lines left the same way; a dispatch has its target in x1. */
  predicate SameExit(l: Leaving, h: Halt) {
    match l
    case Branch(target) => h.exit == Goto(target)
    case Dispatch(pc) => h.exit == Call(DISPATCH) && A.Get(h.m.regs, A.P(1)) == pc
    case Return => h.exit == Returned
    case Break => h.exit == Broke
    case Nowhere => h.exit == FellOff
  }

  /** The emitted lines left the same way; where a dispatch goes is not compared. */
  predicate LeftAlike(l: Leaving, h: Halt) {
    match l
    case Branch(target) => h.exit == Goto(target)
    case Dispatch(_) => h.exit == Call(DISPATCH)
    case Return => h.exit == Returned
    case Break => h.exit == Broke
    case Nowhere => h.exit == FellOff
  }

  lemma {:induction false} SameExitIsAlike(l: Leaving, h: Halt)
    requires SameExit(l, h)
    ensures LeftAlike(l, h)
  {
  }

  lemma {:induction false} TermRuns(t: A.Terminator, vm: A.Machine, pm: A.Machine, v2p: Assignment)
    requires SameOutside(vm, pm)
    requires forall v :: v in TouchedByTerm(t) ==> v in v2p && AgreesOn(A.V(v), vm, pm, v2p)
    ensures
      var h := RunLines(TermLines(t, v2p), pm);
      SameExit(Leaves(t, vm), h) && h.m.slots == vm.slots && h.m.mem == vm.mem
  {
    hide A.Compare, A.Holds;
    match t
    case CBr(cond, yes, no) =>
      assert cond in TouchedByTerm(t);
      CompareBranch(v2p[cond], yes, no, pm);
    case BrIndirect(v) =>
      assert v in TouchedByTerm(t);
      var lines := TermLines(t, v2p);
      assert lines[1..] == [Bl(DISPATCH)];
    case _ =>
  }

  lemma {:induction false} CompareBranch(p: nat, yes: string, no: string, m: A.Machine)
    ensures
      var h := RunLines([CmpZero(p), BNe(yes), Jmp(no)], m);
      && h.exit == Goto(if A.Get(m.regs, A.P(p)) != 0 then yes else no)
      && h.m.slots == m.slots && h.m.mem == m.mem
  {
    hide A.Compare, A.Holds;
    var c := A.Get(m.regs, A.P(p));
    var m1 := m.(flags := A.Compare(c, 0));
    A.ConditionsMean(c, 0);
    assert [CmpZero(p), BNe(yes), Jmp(no)][1..] == [BNe(yes), Jmp(no)];
    assert [BNe(yes), Jmp(no)][1..] == [Jmp(no)];
    assert RunLines([Jmp(no)], m1) == Halt(m1, Goto(no));
    assert RunLines([BNe(yes), Jmp(no)], m1) == Halt(m1, Goto(if c != 0 then yes else no));
  }

  lemma {:induction false} CoverParts(b: A.Block, live: LiveMap)
    requires Covers(live, b)
    ensures forall j :: 0 <= j < |b.instrs| ==> CoversAt(live, b.instrs[j], 0 + j)
    ensures forall v :: v in TouchedByTerm(b.term) ==> v in live && live[v].end >= |b.instrs|
  {
    hide TouchedByAll, A.Operands;
    forall j, v | 0 <= j < |b.instrs| && v in TouchedByAll(A.Operands(b.instrs[j]))
      ensures v in live && live[v].start <= j <= live[v].end
    {
      assert Touched(b, v, j);
    }
    forall v | v in TouchedByTerm(b.term) ensures v in live && live[v].end >= |b.instrs| {
      assert Touched(b, v, |b.instrs|);
    }
  }

  /** The live map has an interval for every register of the block. */
  ghost predicate Knows(live: LiveMap, b: A.Block) {
    forall v :: v in ExactLive(b) ==> v in live
  }

  /** The intervals interfere wherever those from first to last touch do. */
  ghost predicate Separates(live: LiveMap, b: A.Block) {
    && Knows(live, b)
    && (forall v, w ::
          v in ExactLive(b) && w in ExactLive(b) && v != w && Interferes(ExactLive(b)[v], ExactLive(b)[w]) ==>
          Interferes(live[v], live[w]))
  }

  /** Intervals that cover all touches separate, however much longer they are. */
  lemma {:induction false} CoveringSeparates(live: LiveMap, b: A.Block)
    requires Covers(live, b)
    ensures Separates(live, b)
  {
    hide ExactLive, Touched;
    ExactLiveIsExact(b);
  }

  lemma {:induction false} GoodForExact(b: A.Block, live: LiveMap, v2p: Assignment)
    requires GoodAssignment(v2p, live) && Separates(live, b)
    ensures GoodAssignment(v2p, ExactLive(b)) && Covers(ExactLive(b), b)
  {
    hide ExactLive, POOL, Interferes, Covers;
    ExactLiveIsExact(b);
  }

  /** For any block that defines before it uses, any live map that separates its registers and any
      sorting of it: the body and terminator on physical registers leave the block the same way,
      with the same guest state and memory, as on virtual registers. */
  lemma {:induction false} AllocationPreservesMeaning(b: A.Block, live: LiveMap, items: seq<Item>, m: A.Machine)
    requires DefinedBeforeUse(b) && Separates(live, b) && IsSorting(live, items) && Allocated(items).Assigned?
    ensures
      var v2p := Allocated(items).v2p;
      var vm := A.Run(b.instrs, m);
      var h := RunLines(Body(b.instrs, v2p) + TermLines(b.term, v2p), m);
      SameExit(Leaves(b.term, vm), h) && h.m.slots == vm.slots && h.m.mem == vm.mem
  {
    hide POOL, Covers, Separates, ExactLive, IsSorting, Allocated, UsesOk, CoversAt, A.Run, MapAll, Body, RunLines,
         SameExit, Leaves, GoodAssignment, TermLines;
    var v2p := Allocated(items).v2p;
    AllocationIsGood(live, items);
    GoodForExact(b, live, v2p);
    CoverParts(b, ExactLive(b));
    StartsAlong(m, v2p, ExactLive(b));
    RunAlong(b.instrs, m, m, v2p, ExactLive(b), {}, 0);
    var vm, pm := A.Run(b.instrs, m), A.Run(MapAll(b.instrs, v2p), m);
    BodyRuns(b.instrs, v2p, TermLines(b.term, v2p), m);
    EndsAlong(b, vm, pm, v2p, ExactLive(b));
    TermRuns(b.term, vm, pm, v2p);
  }

  lemma {:induction false} StartsAlong(m: A.Machine, v2p: Assignment, live: LiveMap)
    ensures Along(m, m, v2p, live, {}, 0)
  {
    hide POOL;
  }

  lemma {:induction false} EndsAlong(b: A.Block, vm: A.Machine, pm: A.Machine, v2p: Assignment, live: LiveMap)
    requires Along(vm, pm, v2p, live, {} + DefinedBy(b.instrs), 0 + |b.instrs|) && GoodAssignment(v2p, live)
    requires forall v :: v in TouchedByTerm(b.term) ==> v in DefinedBy(b.instrs)
    requires forall v :: v in TouchedByTerm(b.term) ==> v in live && live[v].end >= |b.instrs|
    ensures SameOutside(vm, pm)
    ensures forall v :: v in TouchedByTerm(b.term) ==> v in v2p && AgreesOn(A.V(v), vm, pm, v2p)
  {
    hide POOL, AgreesOn, TouchedByTerm;
  }

  /** Every register the emitter looks up has an assignment. */
  lemma {:induction false} EmitterNeverAborts(b: A.Block, live: LiveMap, items: seq<Item>)
    requires Knows(live, b) && IsSorting(live, items) && Allocated(items).Assigned?
    ensures Mapped(b, Allocated(items).v2p)
  {
    hide POOL, IsSorting, Allocated, A.Operands, Interferes, Covers, ExactLive, Touched, TouchedByTerm, TouchedByAll;
    AllocationIsGood(live, items);
    ExactLiveIsExact(b);
    CoverParts(b, ExactLive(b));
    forall k | 0 <= k < |b.instrs| ensures MappedOps(A.Operands(b.instrs[k]), Allocated(items).v2p) {
      assert CoversAt(ExactLive(b), b.instrs[k], 0 + k);
      OpsAreMapped(A.Operands(b.instrs[k]), ExactLive(b), Allocated(items).v2p);
    }
  }

  lemma {:induction false} OpsAreMapped(ops: seq<A.Operand>, live: LiveMap, v2p: Assignment)
    requires forall v :: v in TouchedByAll(ops) ==> v in live
    requires forall v :: v in live ==> v in v2p
    ensures MappedOps(ops, v2p)
  {
    hide TouchedByAll;
    forall j | 0 <= j < |ops|
      ensures match ops[j] case RegOp(V(v)) => v in v2p case MemOp(V(v)) => v == 0 || v in v2p case _ => true
    {
      OperandIsTouched(ops, j);
      match ops[j]
      case RegOp(V(v)) => assert v in TouchedBy(ops[j]);
      case MemOp(V(v)) => assert v != 0 ==> v in TouchedBy(ops[j]);
      case _ =>
    }
  }
}
