/** Allocation with the analysis as written: either the registers of the first two values differ
    and the code is right, or they are the same and the operation reads the second value twice. */
module MisreadAlloc {
  import A = AArch64
  import opened Liveness
  import opened RegAlloc
  import opened Emitter
  import opened AllocSim
  import opened SelectedCode
  import opened MisreadCode

  // ---------- Running allocated code ----------

  lemma {:induction false} DispatchRuns(v: nat, m: A.Machine, v2p: Assignment)
    ensures
      var h := RunLines(TermLines(A.BrIndirect(v), v2p), m);
      h.exit == Call(DISPATCH) && h.m.slots == m.slots && h.m.mem == m.mem
  {
    var lines := TermLines(A.BrIndirect(v), v2p);
    assert lines[1..] == [Bl(DISPATCH)];
  }

  lemma {:induction false} TermLeaves(t: A.Terminator, vm: A.Machine, pm: A.Machine, v2p: Assignment)
    requires SameOutside(vm, pm)
    requires t.CBr? ==> t.cond in v2p && AgreesOn(A.V(t.cond), vm, pm, v2p)
    ensures
      var h := RunLines(TermLines(t, v2p), pm);
      LeftAlike(Leaves(t, vm), h) && h.m.slots == vm.slots && h.m.mem == vm.mem
  {
    hide RunLines, TermLines, AgreesOn;
    if t.BrIndirect? { DispatchRuns(t.target_reg, pm, v2p); } else { TermRuns(t, vm, pm, v2p); }
  }

  /** Code runs on assigned registers as on virtual ones for any intervals that cover the body and
      the condition and that the assignment respects. */
  lemma {:induction false} EmittedFollows(code: seq<A.Instr>, t: A.Terminator, v2p: Assignment, live: LiveMap,
                                          m: A.Machine)
    requires GoodAssignment(v2p, live) && UsesOk(code, {})
    requires forall j :: 0 <= j < |code| ==> CoversAt(live, code[j], j)
    requires t.CBr? ==> t.cond in DefinedBy(code) && t.cond in live && live[t.cond].end >= |code|
    ensures
      var vm := A.Run(code, m);
      var h := RunLines(Body(code, v2p) + TermLines(t, v2p), m);
      LeftAlike(Leaves(t, vm), h) && h.m.slots == vm.slots && h.m.mem == vm.mem
  {
    hide POOL, UsesOk, A.Run, MapAll, Body, RunLines, LeftAlike, Leaves, TermLines, CoversAt, DefinedBy;
    StartsAlong(m, v2p, live);
    forall j | 0 <= j < |code| ensures CoversAt(live, code[j], 0 + j) {
      assert CoversAt(live, code[j], j);
    }
    RunAlong(code, m, m, v2p, live, {}, 0);
    BodyRuns(code, v2p, TermLines(t, v2p), m);
    TermLeaves(t, A.Run(code, m), A.Run(MapAll(code, v2p), m), v2p);
  }

  lemma {:induction false} SameBody(c: seq<A.Instr>, d: seq<A.Instr>, v2p: Assignment)
    requires |c| == |d| && forall k :: 0 <= k < |c| ==> MapInstr(c[k], v2p) == MapInstr(d[k], v2p)
    ensures Body(c, v2p) == Body(d, v2p)
    decreases |c|
  {
    hide MapInstr;
    if c != [] {
      forall k | 0 <= k < |c[1..]| ensures MapInstr(c[1..][k], v2p) == MapInstr(d[1..][k], v2p) {
        assert MapInstr(c[k + 1], v2p) == MapInstr(d[k + 1], v2p);
      }
      SameBody(c[1..], d[1..], v2p);
    }
  }

  // ---------- The intervals ----------

  /** A block whose operation on its first two values is at s. */
  ghost predicate HeadedBlock(b: A.Block, s: nat) {
    && HeadTouches(b.instrs, s)
    && forall v :: v in TouchedByTerm(b.term) ==> v >= 3 || (v == 1 && b.term.BrIndirect?)
  }

  lemma {:induction false} HeadTouched(b: A.Block, s: nat, v: nat, k: nat)
    requires HeadedBlock(b, s)
    ensures Touched(b, v, k) ==> k <= |b.instrs| && v >= 1
    ensures k == 0 ==> (Touched(b, v, k) <==> v == 1)
    ensures 0 < k < s ==> (Touched(b, v, k) <==> v == 2)
    ensures Touched(b, 1, s) && Touched(b, 2, s)
    ensures k > s && Touched(b, v, k) ==> v >= 3 || (v == 1 && k == |b.instrs|)
  {
    hide T, Touched, TouchedByTerm;
    BodyTouch(b, v, k);
    BodyTouch(b, 1, s);
    BodyTouch(b, 2, s);
    assert k < s ==> forall w :: w in T(b.instrs[k]) <==> w == (if k == 0 then 1 else 2) by {
      if k < s { OnlyThis(b.instrs[k], if k == 0 then 1 else 2); }
    }
  }

  lemma {:induction false} HeadIntervals(b: A.Block, s: nat)
    requires HeadedBlock(b, s)
    ensures
      var live := Analyzed(b);
      && 2 in live && live[2] == LiveRange(1, s)
      && 1 in live && live[1].start == s
      && (forall w :: w in live && w != 2 ==> live[w].start >= s)
      && (forall v: nat, k: nat :: v != 1 && Touched(b, v, k) ==> v in live && live[v].start <= k <= live[v].end)
  {
    hide Touched, Analyzed, HeadedBlock, ShiftedRange, ExactRange;
    var live := Analyzed(b);
    HeadSecond(b, s);
    HeadFirst(b, s);
    forall w | w in live && w != 2 ensures live[w].start >= s {
      if w != 1 { HeadOther(b, s, w); }
    }
    forall v: nat, k: nat | v != 1 && Touched(b, v, k) ensures v in live && live[v].start <= k <= live[v].end {
      HeadOther(b, s, v);
    }
  }

  lemma {:induction false} HeadSecond(b: A.Block, s: nat)
    requires HeadedBlock(b, s)
    ensures 2 in Analyzed(b) && Analyzed(b)[2] == LiveRange(1, s) && s >= 2
  {
    hide Touched, Analyzed, HeadTouches, TouchedByTerm;
    AnalyzeIsExact(b, 2);
    SIsPositive(b, s);
    HeadTouched(b, s, 2, 0);
    HeadTouched(b, s, 2, 1);
    assert Touched(b, 2, s) && Touched(b, 2, 1);
    var lr := Analyzed(b)[2];
    assert ExactRange(b, 2, lr);
    HeadTouched(b, s, 2, lr.start);
    HeadTouched(b, s, 2, lr.end);
  }

  lemma {:induction false} SIsPositive(b: A.Block, s: nat)
    requires HeadedBlock(b, s)
    ensures 2 <= s < |b.instrs|
  {
    hide T, Only;
  }

  lemma {:induction false} HeadFirst(b: A.Block, s: nat)
    requires HeadedBlock(b, s)
    ensures 1 in Analyzed(b) && Analyzed(b)[1].start == s
  {
    hide Touched, Analyzed, HeadTouches, TouchedByTerm;
    AnalyzeIsExact(b, 1);
    SIsPositive(b, s);
    HeadTouched(b, s, 1, 0);
    assert Touched(b, 1, s) && Touched(b, 1, 0);
    var lr := Analyzed(b)[1];
    assert ShiftedRange(b, 1, lr);
    HeadTouched(b, s, 1, lr.start);
  }

  lemma {:induction false} HeadOther(b: A.Block, s: nat, w: nat)
    requires HeadedBlock(b, s) && w != 1
    ensures w in Analyzed(b) && w != 2 ==> Analyzed(b)[w].start >= s
    ensures forall k: nat :: Touched(b, w, k) ==> w in Analyzed(b) && Analyzed(b)[w].start <= k <= Analyzed(b)[w].end
  {
    hide Touched, Analyzed, HeadTouches, TouchedByTerm;
    AnalyzeIsExact(b, w);
    HeadTouched(b, s, w, 0);
    if w in Analyzed(b) {
      HeadTouched(b, s, w, Analyzed(b)[w].start);
    }
  }

  // ---------- The two cases ----------

  lemma {:induction false} CoversHead(b: A.Block, s: nat, first: LiveRange, code: seq<A.Instr>, j: nat)
    requires HeadedBlock(b, s) && j < |code| && |code| == |b.instrs|
    requires forall v :: v in T(code[j]) ==> v in T(b.instrs[j])
    requires 1 in T(code[j]) ==> first.start <= j <= first.end
    ensures CoversAt(Analyzed(b)[1 := first], code[j], j)
  {
    hide Touched, Analyzed, HeadedBlock, HeadTouches, TouchedByTerm, T, TouchedByAll, A.Operands;
    HeadIntervals(b, s);
    forall v | v in T(code[j]) ensures v in Analyzed(b)[1 := first]
      && Analyzed(b)[1 := first][v].start <= j <= Analyzed(b)[1 := first][v].end
    {
      BodyTouch(b, v, j);
    }
    TouchesCover(Analyzed(b)[1 := first], code[j], j);
  }

  lemma {:induction false} TouchesCover(live: LiveMap, i: A.Instr, k: nat)
    requires forall v :: v in T(i) ==> v in live && live[v].start <= k <= live[v].end
    ensures CoversAt(live, i, k)
  {
    hide TouchedByAll, A.Operands;
  }

  lemma {:induction false} ConditionCovered(b: A.Block, s: nat, first: LiveRange)
    requires HeadedBlock(b, s)
    ensures b.term.CBr? ==>
      b.term.cond in Analyzed(b)[1 := first] && Analyzed(b)[1 := first][b.term.cond].end >= |b.instrs|
  {
    hide Touched, Analyzed, HeadTouches;
    if b.term.CBr? {
      BodyTouch(b, b.term.cond, |b.instrs|);
      assert b.term.cond in TouchedByTerm(b.term);
      HeadIntervals(b, s);
    }
  }

  /** With different registers for the first two values the code is right. */
  lemma {:induction false} ApartRuns(b: A.Block, s: nat, v2p: Assignment, m: A.Machine)
    requires HeadedBlock(b, s) && DefinedBeforeUse(b) && GoodAssignment(v2p, Analyzed(b))
    requires 1 in v2p && 2 in v2p && v2p[1] != v2p[2]
    ensures
      var vm := A.Run(b.instrs, m);
      var h := RunLines(Body(b.instrs, v2p) + TermLines(b.term, v2p), m);
      LeftAlike(Leaves(b.term, vm), h) && h.m.slots == vm.slots && h.m.mem == vm.mem
  {
    hide POOL, UsesOk, A.Run, MapAll, Body, RunLines, LeftAlike, Leaves, TermLines, CoversAt, DefinedBy, HeadedBlock,
         Analyzed, T, Touched;
    HeadIntervals(b, s);
    var first := LiveRange(0, s);
    var live := Analyzed(b)[1 := first];
    forall j | 0 <= j < |b.instrs| ensures CoversAt(live, b.instrs[j], j) {
      FirstOnlyTwice(b, s, j);
      CoversHead(b, s, first, b.instrs, j);
    }
    ConditionCovered(b, s, first);
    assert b.term.CBr? ==> b.term.cond in TouchedByTerm(b.term);
    EmittedFollows(b.instrs, b.term, v2p, live, m);
  }

  lemma {:induction false} FirstOnlyTwice(b: A.Block, s: nat, j: nat)
    requires HeadedBlock(b, s) && j < |b.instrs|
    ensures 1 in T(b.instrs[j]) ==> j == 0 || j == s
  {
    hide Touched, HeadedBlock, T;
    BodyTouch(b, 1, j);
    HeadTouched(b, s, 1, j);
  }

  /** With one register for the first two values the operation reads the second twice. */
  lemma {:induction false} ClashRuns(b: A.Block, s: nat, code: seq<A.Instr>, v2p: Assignment, m: A.Machine)
    requires HeadedBlock(b, s) && GoodAssignment(v2p, Analyzed(b))
    requires s < |b.instrs| && code == b.instrs[s := Reread(b.instrs[s])] && UsesOk(code, {})
    requires forall v :: v in T(Reread(b.instrs[s])) ==> v in T(b.instrs[s]) && v != 1
    requires OperationCode([b.instrs[s]])
    requires b.term.CBr? ==> b.term.cond in DefinedBy(code)
    requires 1 in v2p && 2 in v2p && v2p[1] == v2p[2]
    ensures
      var vm := A.Run(code, m);
      var h := RunLines(Body(b.instrs, v2p) + TermLines(b.term, v2p), m);
      LeftAlike(Leaves(b.term, vm), h) && h.m.slots == vm.slots && h.m.mem == vm.mem
  {
    hide POOL, UsesOk, A.Run, MapAll, Body, RunLines, LeftAlike, Leaves, TermLines, CoversAt, DefinedBy, HeadedBlock,
         Analyzed, T, Touched, Reread, OperationCode, MapInstr;
    HeadIntervals(b, s);
    var first := LiveRange(0, 0);
    var live := Analyzed(b)[1 := first];
    forall j | 0 <= j < |code| ensures CoversAt(live, code[j], j) {
      FirstOnlyTwice(b, s, j);
      CoversHead(b, s, first, code, j);
    }
    ConditionCovered(b, s, first);
    EmittedFollows(code, b.term, v2p, live, m);
    RereadIsMapped(b.instrs[s], v2p);
    SameBody(code, b.instrs, v2p);
  }

  lemma {:induction false} RereadIsMapped(i: A.Instr, v2p: Assignment)
    requires OperationCode([i]) && 1 in v2p && 2 in v2p && v2p[1] == v2p[2]
    ensures MapInstr(Reread(i), v2p) == MapInstr(i, v2p)
  {
  }
}
