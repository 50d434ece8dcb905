/** Indirect jumps that name the first value of their block, with the analysis as written: the
    orders of the intervals of the first three values, and what each leaves in x1. */
module IndirectOrders {
  import A = AArch64
  import opened Liveness
  import opened RegAlloc
  import opened RegAllocTheorems
  import opened Emitter
  import opened AllocSim
  import opened SelectedCode
  import opened MisreadCode
  import opened MisreadAlloc
  import opened MisreadTheorems
  import Pressure
  import Orders

  // ---------- Dispatching from allocated code ----------

  /** The register of the terminator arrives in x1, for any intervals that cover the body and reach
      the terminator with it, and that the assignment respects. */
  lemma {:induction false} EmittedDispatches(code: seq<A.Instr>, v: nat, v2p: Assignment, live: LiveMap, m: A.Machine)
    requires GoodAssignment(v2p, live) && UsesOk(code, {})
    requires forall j :: 0 <= j < |code| ==> CoversAt(live, code[j], j)
    requires v in DefinedBy(code) && v in live && live[v].end >= |code|
    ensures
      var h := RunLines(Body(code, v2p) + TermLines(A.BrIndirect(v), v2p), m);
      h.exit == Call(DISPATCH) && A.Get(h.m.regs, A.P(1)) == A.Get(A.Run(code, m).regs, A.V(v))
  {
    hide POOL, UsesOk, A.Run, MapAll, Body, RunLines, TermLines, CoversAt, DefinedBy, AgreesOn;
    StartsAlong(m, v2p, live);
    forall j | 0 <= j < |code| ensures CoversAt(live, code[j], 0 + j) {
      assert CoversAt(live, code[j], j);
    }
    RunAlong(code, m, m, v2p, live, {}, 0);
    BodyRuns(code, v2p, TermLines(A.BrIndirect(v), v2p), m);
    TermRuns(A.BrIndirect(v), A.Run(code, m), A.Run(MapAll(code, v2p), m), v2p);
  }

  lemma {:induction false} SameTermLines(v: nat, w: nat, v2p: Assignment)
    requires v in v2p && w in v2p && v2p[v] == v2p[w]
    ensures TermLines(A.BrIndirect(v), v2p) == TermLines(A.BrIndirect(w), v2p)
  {
  }

  // ---------- The intervals ----------

  /** A block with its first operation at s whose terminator names its first value. */
  ghost predicate FirstDispatched(b: A.Block, s: nat) {
    && HeadedBlock(b, s) && s < |b.instrs|
    && b.term == A.BrIndirect(1)
    && OperationCode([b.instrs[s]]) && b.instrs[s].Alu?
  }

  lemma {:induction false} AluTouches(i: A.Instr)
    requires OperationCode([i]) && i.Alu?
    ensures 3 in T(i)
  {
    TouchThree(A.RegOp(i.d), A.RegOp(i.a), A.RegOp(i.b));
  }

  lemma {:induction false} IntervalOfFirst(b: A.Block, s: nat)
    requires FirstDispatched(b, s)
    ensures 1 in Analyzed(b) && Analyzed(b)[1] == LiveRange(s, |b.instrs|)
  {
    hide Touched, Analyzed, HeadedBlock, HeadTouches, OperationCode;
    HeadIntervals(b, s);
    AnalyzeIsExact(b, 1);
    BodyTouch(b, 1, |b.instrs|);
    HeadTouched(b, s, 1, 0);
    assert Touched(b, 1, |b.instrs|);
    HeadTouched(b, s, 1, Analyzed(b)[1].end);
  }

  lemma {:induction false} IntervalOfThird(b: A.Block, s: nat)
    requires FirstDispatched(b, s)
    ensures 3 in Analyzed(b) && Analyzed(b)[3].start == s && Analyzed(b)[3].end >= s
  {
    hide Touched, Analyzed, HeadedBlock, HeadTouches, OperationCode, T;
    HeadIntervals(b, s);
    AluTouches(b.instrs[s]);
    BodyTouch(b, 3, s);
  }

  lemma {:induction false} LaterInterval(b: A.Block, s: nat, w: nat)
    requires FirstDispatched(b, s) && w in Analyzed(b) && w != 1 && w != 2 && w != 3
    ensures s < Analyzed(b)[w].start <= Analyzed(b)[w].end
  {
    hide Touched, Analyzed, HeadedBlock, OperationCode, T;
    HeadIntervals(b, s);
    AnalyzeIsExact(b, w);
    var start := Analyzed(b)[w].start;
    assert Touched(b, w, start);
    BodyTouch(b, w, s);
    NotTouchedAt(b, s, w);
  }

  lemma {:induction false} NotTouchedAt(b: A.Block, s: nat, w: nat)
    requires HeadedBlock(b, s) && s < |b.instrs| && (w == 0 || w > 3)
    ensures w !in T(b.instrs[s])
  {
    hide T;
  }

  /** All that the orders depend on. */
  ghost predicate ThreeFirst(live: LiveMap, s: nat, n: nat) {
    && 2 <= s < n
    && 2 in live && live[2] == LiveRange(1, s)
    && 1 in live && live[1] == LiveRange(s, n)
    && 3 in live && live[3].start == s && live[3].end >= s
    && forall w :: w in live && w != 1 && w != 2 && w != 3 ==> s < live[w].start <= live[w].end
  }

  lemma {:induction false} ThreeIntervals(b: A.Block, s: nat)
    requires FirstDispatched(b, s)
    ensures ThreeFirst(Analyzed(b), s, |b.instrs|)
  {
    hide Analyzed, HeadedBlock, OperationCode, Touched;
    SIsPositive(b, s);
    HeadIntervals(b, s);
    IntervalOfFirst(b, s);
    IntervalOfThird(b, s);
    forall w | w in Analyzed(b) && w != 1 && w != 2 && w != 3 ensures s < Analyzed(b)[w].start <= Analyzed(b)[w].end {
      LaterInterval(b, s, w);
    }
  }

  // ---------- The orders ----------

  /** The first value before the third, or the third before the first. */
  predicate FirstLeads(items: seq<Item>) {
    |items| >= 3 && items[0].v == 2 && items[1].v == 1 && items[2].v == 3
  }

  predicate ThirdLeads(items: seq<Item>) {
    |items| >= 3 && items[0].v == 2 && items[1].v == 3 && items[2].v == 1
  }

  lemma {:induction false} ItemIs(live: LiveMap, items: seq<Item>, i: nat)
    requires IsSorting(live, items) && i < |items|
    ensures items[i].v in live && items[i] == Item(items[i].v, live[items[i].v])
    ensures forall j :: 0 <= j < |items| && j != i ==> items[j].v != items[i].v
    ensures forall j :: 0 <= j < i ==> items[j].lr.start <= items[i].lr.start
  {
  }

  /** An item no later than another, by start. */
  lemma {:induction false} BeforeAll(live: LiveMap, items: seq<Item>, v: nat, k: nat) returns (i: nat)
    requires IsSorting(live, items) && v in live
    requires forall j :: 0 <= j < k && j < |items| ==> items[j].v != v
    ensures k <= i < |items| && items[i] == Item(v, live[v])
    ensures k < |items| && items[k].v in live && live[items[k].v].start <= live[v].start
  {
    i := IndexOf(live, items, v);
    ItemIs(live, items, i);
    ItemIs(live, items, k);
  }

  lemma {:induction false} TwoOrders(live: LiveMap, s: nat, n: nat, items: seq<Item>)
    requires ThreeFirst(live, s, n) && IsSorting(live, items)
    ensures FirstLeads(items) || ThirdLeads(items)
  {
    hide IsSorting;
    var i2 := BeforeAll(live, items, 2, 0);
    ItemIs(live, items, 0);
    assert items[0].v == 2;
    var i1 := BeforeAll(live, items, 1, 1);
    ItemIs(live, items, 1);
    assert items[1].v == 1 || items[1].v == 3;
    var other := if items[1].v == 1 then 3 else 1;
    var i3 := BeforeAll(live, items, other, 2);
    ItemIs(live, items, 2);
  }

  lemma {:induction false} FirstThree(items: seq<Item>)
    requires |items| >= 3 && ScanAll(items).Scanning?
    requires forall i, j :: 0 <= i < j < |items| ==> items[i].v != items[j].v
    ensures ScanAll(items[..3]).Scanning?
    ensures forall i :: 0 <= i < 3 ==>
      && items[i].v in ScanAll(items[..3]).st.v2p && items[i].v in ScanAll(items).st.v2p
      && ScanAll(items).st.v2p[items[i].v] == ScanAll(items[..3]).st.v2p[items[i].v]
  {
    hide ScanAll, POOL;
    AssignmentKeeps(items, 3, items[0].v);
    AssignedFromPool(items[..3]);
    forall i | 0 <= i < 3
      ensures items[i].v in ScanAll(items[..3]).st.v2p && items[i].v in ScanAll(items).st.v2p
      ensures ScanAll(items).st.v2p[items[i].v] == ScanAll(items[..3]).st.v2p[items[i].v]
    {
      AssignmentKeeps(items, 3, items[i].v);
      assert items[..3][i] == items[i];
    }
  }

  /** An interval that outlasts the start of the next item has another register than it. */
  lemma {:induction false} SecondOutlasts(items: seq<Item>)
    requires |items| >= 3 && ScanAll(items).Scanning? && Ordered(items)
    requires forall i, j :: 0 <= i < j < |items| ==> items[i].v != items[j].v
    requires items[1].lr.end > items[2].lr.start
    ensures items[1].v in ScanAll(items).st.v2p && items[2].v in ScanAll(items).st.v2p
    ensures ScanAll(items).st.v2p[items[1].v] != ScanAll(items).st.v2p[items[2].v]
  {
    hide ScanAll;
    FirstThree(items);
    TakenIsFree(items[..3], 1);
  }

  /** Two items of which the first has ended when the second starts share x28. */
  lemma {:induction false} FirstTwoShare(items: seq<Item>)
    requires |items| >= 3 && ScanAll(items).Scanning?
    requires forall i, j :: 0 <= i < j < |items| ==> items[i].v != items[j].v
    requires items[0].lr.end <= items[1].lr.start
    ensures items[0].v in ScanAll(items).st.v2p && ScanAll(items).st.v2p[items[0].v] == 28
    ensures items[1].v in ScanAll(items).st.v2p && ScanAll(items).st.v2p[items[1].v] == 28
    ensures items[1].lr.end <= items[2].lr.start ==>
      items[2].v in ScanAll(items).st.v2p && ScanAll(items).st.v2p[items[2].v] == 28
  {
    hide ScanAll, POOL, OneTaken;
    var a, b, c := items[0], items[1], items[2];
    ClashBegun(a, b);
    OneTakenMap(b, map[a.v := 28, b.v := 28]);
    assert items[..2] == [a, b];
    AssignmentKeeps(items, 2, a.v);
    AssignmentKeeps(items, 2, b.v);
    if b.lr.end <= c.lr.start {
      PassedOn([a, b], map[a.v := 28, b.v := 28], c);
      OneTakenMap(c, map[a.v := 28, b.v := 28, c.v := 28]);
      assert items[..3] == [a, b] + [c];
      AssignmentKeeps(items, 3, c.v);
    }
  }

  /** Which of the first three values share a register, order by order. */
  lemma {:induction false} RegistersByOrder(live: LiveMap, s: nat, n: nat, items: seq<Item>)
    requires ThreeFirst(live, s, n) && IsSorting(live, items) && Allocated(items).Assigned?
    ensures
      var v2p := Allocated(items).v2p;
      && 1 in v2p && 2 in v2p && 3 in v2p
      && (FirstLeads(items) ==> v2p[1] == v2p[2] && v2p[3] != v2p[1])
      && (ThirdLeads(items) && live[3].end > s ==> v2p[1] != v2p[2])
      && (ThirdLeads(items) && live[3].end == s ==> v2p[1] == v2p[2] && v2p[3] == v2p[1])
      && (FirstLeads(items) || ThirdLeads(items))
  {
    hide IsSorting, ScanAll;
    TwoOrders(live, s, n, items);
    SortedAreDistinct(live, items);
    Pressure.SortingIsOrdered(live, items);
    ItemIs(live, items, 0);
    ItemIs(live, items, 1);
    ItemIs(live, items, 2);
    FirstTwoShare(items);
    if items[1].lr.end > items[2].lr.start {
      SecondOutlasts(items);
    }
  }

  // ---------- Both orders exist ----------

  lemma {:induction false} SortedRest(live: LiveMap, rest: seq<Item>)
    requires IsSorting(live - {1, 2, 3}, rest)
    ensures forall i :: 0 <= i < |rest| ==>
      && rest[i].v in live && live[rest[i].v] == rest[i].lr
      && rest[i].v != 1 && rest[i].v != 2 && rest[i].v != 3
    ensures forall v :: v in live && v != 1 && v != 2 && v != 3 ==> exists i :: 0 <= i < |rest| && rest[i].v == v
    ensures forall i, j :: 0 <= i < j < |rest| ==>
      rest[i].v != rest[j].v && rest[i].lr.start <= rest[j].lr.start
  {
    forall i | 0 <= i < |rest|
      ensures rest[i].v in live && live[rest[i].v] == rest[i].lr
      ensures rest[i].v != 1 && rest[i].v != 2 && rest[i].v != 3
    {
      assert rest[i].v in live - {1, 2, 3};
    }
    forall v | v in live && v != 1 && v != 2 && v != 3 ensures exists i :: 0 <= i < |rest| && rest[i].v == v {
      assert v in live - {1, 2, 3};
    }
  }

  lemma {:induction false} OneInFront(a: Item, rest: seq<Item>)
    requires forall i :: 0 <= i < |rest| ==> rest[i].v != a.v && a.lr.start <= rest[i].lr.start
    requires forall i, j :: 0 <= i < j < |rest| ==>
      rest[i].v != rest[j].v && rest[i].lr.start <= rest[j].lr.start
    ensures
      var all := [a] + rest;
      forall i, j :: 0 <= i < j < |all| ==> all[i].v != all[j].v && all[i].lr.start <= all[j].lr.start
  {
    var all := [a] + rest;
    forall i, j | 0 <= i < j < |all| ensures all[i].v != all[j].v && all[i].lr.start <= all[j].lr.start {
      assert all[j] == rest[j - 1] && (i > 0 ==> all[i] == rest[i - 1]);
    }
  }

  lemma {:induction false} ThreeSorted(live: LiveMap, a: Item, b: Item, c: Item, rest: seq<Item>)
    requires a.v in live && live[a.v] == a.lr && b.v in live && live[b.v] == b.lr && c.v in live && live[c.v] == c.lr
    requires {a.v, b.v, c.v} == {1, 2, 3} && a.v != b.v && b.v != c.v && a.v != c.v
    requires a.lr.start <= b.lr.start <= c.lr.start
    requires forall w :: w in live && w != 1 && w != 2 && w != 3 ==> c.lr.start <= live[w].start
    requires IsSorting(live - {1, 2, 3}, rest)
    ensures IsSorting(live, [a, b, c] + rest)
  {
    hide IsSorting;
    SortedRest(live, rest);
    var all := [a, b, c] + rest;
    assert a.v in {1, 2, 3} && b.v in {1, 2, 3} && c.v in {1, 2, 3};
    OneInFront(c, rest);
    TwoInFront(a, b, [c] + rest);
    assert all == [a, b] + ([c] + rest);
    ThreeAndRest(live, a, b, c, rest);
    MakesSorting(live, all);
  }

  lemma {:induction false} ThreeAndRest(live: LiveMap, a: Item, b: Item, c: Item, rest: seq<Item>)
    requires a.v in live && live[a.v] == a.lr && b.v in live && live[b.v] == b.lr && c.v in live && live[c.v] == c.lr
    requires {a.v, b.v, c.v} == {1, 2, 3}
    requires forall i :: 0 <= i < |rest| ==> rest[i].v in live && live[rest[i].v] == rest[i].lr
    requires forall v :: v in live && v != 1 && v != 2 && v != 3 ==> exists i :: 0 <= i < |rest| && rest[i].v == v
    ensures
      var all := [a, b, c] + rest;
      && (forall i :: 0 <= i < |all| ==> all[i].v in live && live[all[i].v] == all[i].lr)
      && (forall v :: v in live ==> exists i :: 0 <= i < |all| && all[i].v == v)
  {
    var all := [a, b, c] + rest;
    assert all[0] == a && all[1] == b && all[2] == c;
    forall i | 0 <= i < |all| ensures all[i].v in live && live[all[i].v] == all[i].lr {
      if i >= 3 { assert all[i] == rest[i - 3]; }
    }
    forall v | v in live ensures exists i :: 0 <= i < |all| && all[i].v == v {
      if v == 1 || v == 2 || v == 3 {
        assert v in {a.v, b.v, c.v};
      } else {
        var i :| 0 <= i < |rest| && rest[i].v == v;
        assert all[i + 3].v == v;
      }
    }
  }

  lemma {:induction false} OrdersExist(live: LiveMap, s: nat, n: nat) returns (first: seq<Item>, third: seq<Item>)
    requires ThreeFirst(live, s, n)
    ensures IsSorting(live, first) && FirstLeads(first)
    ensures IsSorting(live, third) && ThirdLeads(third)
  {
    hide IsSorting;
    var rest := Orders.SortingExists(live - {1, 2, 3});
    var a, b, c := Item(2, live[2]), Item(1, live[1]), Item(3, live[3]);
    assert {a.v, b.v, c.v} == {1, 2, 3} && {a.v, c.v, b.v} == {1, 2, 3};
    first := [a, b, c] + rest;
    third := [a, c, b] + rest;
    ThreeSorted(live, a, b, c, rest);
    ThreeSorted(live, a, c, b, rest);
  }

  // ---------- What arrives in x1 ----------

  lemma {:induction false} WiderCovers(live: LiveMap, v: nat, lr: LiveRange, i: A.Instr, k: nat)
    requires CoversAt(live, i, k) && v in live && lr.start <= live[v].start && live[v].end <= lr.end
    ensures CoversAt(live[v := lr], i, k)
  {
    hide TouchedByAll, A.Operands;
  }

  ghost predicate GoodThree(v2p: Assignment, live: LiveMap, s: nat, n: nat) {
    ThreeFirst(live, s, n) && GoodAssignment(v2p, live)
  }

  lemma {:induction false} GoodApart(v2p: Assignment, live: LiveMap, s: nat, n: nat)
    requires GoodThree(v2p, live, s, n) && v2p[1] != v2p[2] && live[3].end > s
    ensures GoodAssignment(v2p, live[1 := LiveRange(0, n)])
  {
    hide POOL;
    assert forall w :: w in live && w != 1 && w != 2 && Interferes(LiveRange(0, n), live[w]) ==>
      Interferes(live[1], live[w]);
  }

  lemma {:induction false} GoodSecond(v2p: Assignment, live: LiveMap, s: nat, n: nat)
    requires GoodThree(v2p, live, s, n) && v2p[1] == v2p[2] && v2p[3] != v2p[1]
    ensures GoodAssignment(v2p, live[1 := LiveRange(0, 0)][2 := LiveRange(1, n)])
  {
    hide POOL;
    assert forall w :: w in live && w != 1 && w != 2 && w != 3 && Interferes(LiveRange(1, n), live[w]) ==>
      Interferes(live[1], live[w]);
  }

  lemma {:induction false} GoodThird(v2p: Assignment, live: LiveMap, s: nat, n: nat)
    requires GoodThree(v2p, live, s, n) && v2p[1] == v2p[2] && v2p[3] == v2p[1] && live[3].end == s
    ensures GoodAssignment(v2p, live[1 := LiveRange(0, 0)][3 := LiveRange(s, n)])
  {
    hide POOL;
    assert forall w :: w in live && w != 1 && w != 2 && w != 3 && Interferes(LiveRange(s, n), live[w]) ==>
      Interferes(live[1], live[w]);
  }

  /** Different registers: the first value. */
  lemma {:induction false} FirstArrives(b: A.Block, s: nat, v2p: Assignment, m: A.Machine)
    requires FirstDispatched(b, s) && GoodAssignment(v2p, Analyzed(b)) && UsesOk(b.instrs, {})
    requires 1 in DefinedBy(b.instrs)
    requires 1 in v2p && 2 in v2p && v2p[1] != v2p[2] && 3 in Analyzed(b) && Analyzed(b)[3].end > s
    ensures
      var h := RunLines(Body(b.instrs, v2p) + TermLines(b.term, v2p), m);
      h.exit == Call(DISPATCH) && A.Get(h.m.regs, A.P(1)) == A.Get(A.Run(b.instrs, m).regs, A.V(1))
  {
    hide POOL, UsesOk, A.Run, Body, RunLines, TermLines, CoversAt, DefinedBy, HeadedBlock, Analyzed, T,
         GoodAssignment, OperationCode;
    var n := |b.instrs|;
    ThreeIntervals(b, s);
    GoodApart(v2p, Analyzed(b), s, n);
    forall j | 0 <= j < n ensures CoversAt(Analyzed(b)[1 := LiveRange(0, n)], b.instrs[j], j) {
      CoversHead(b, s, LiveRange(0, n), b.instrs, j);
    }
    EmittedDispatches(b.instrs, 1, v2p, Analyzed(b)[1 := LiveRange(0, n)], m);
  }

  /** The code with its operation rereading the second value. */
  ghost predicate RereadCode(b: A.Block, s: nat, code: seq<A.Instr>) {
    && s < |b.instrs| && code == b.instrs[s := Reread(b.instrs[s])] && UsesOk(code, {})
    && OperationCode([b.instrs[s]])
    && forall v :: v in T(Reread(b.instrs[s])) ==> v in T(b.instrs[s]) && v != 1
  }

  lemma {:induction false} RereadCovered(b: A.Block, s: nat, code: seq<A.Instr>, j: nat)
    requires HeadedBlock(b, s) && RereadCode(b, s, code) && j < |code|
    ensures CoversAt(Analyzed(b)[1 := LiveRange(0, 0)], code[j], j)
  {
    hide UsesOk, CoversAt, HeadedBlock, Analyzed, T, Reread, OperationCode;
    FirstOnlyTwice(b, s, j);
    CoversHead(b, s, LiveRange(0, 0), code, j);
  }

  lemma {:induction false} RereadBody(b: A.Block, s: nat, code: seq<A.Instr>, v2p: Assignment)
    requires HeadedBlock(b, s) && RereadCode(b, s, code) && 1 in v2p && 2 in v2p && v2p[1] == v2p[2]
    ensures Body(code, v2p) == Body(b.instrs, v2p)
  {
    hide UsesOk, HeadedBlock, T, Reread, OperationCode, MapInstr, Body;
    RereadIsMapped(b.instrs[s], v2p);
    SameBody(code, b.instrs, v2p);
  }

  /** One register for the first two values, another for the result: the second value. */
  lemma {:induction false} SecondArrives(b: A.Block, s: nat, code: seq<A.Instr>, v2p: Assignment, m: A.Machine)
    requires FirstDispatched(b, s) && GoodAssignment(v2p, Analyzed(b)) && RereadCode(b, s, code) && 2 in DefinedBy(code)
    requires 1 in v2p && 2 in v2p && 3 in v2p && v2p[1] == v2p[2] && v2p[3] != v2p[1]
    ensures
      var h := RunLines(Body(b.instrs, v2p) + TermLines(b.term, v2p), m);
      h.exit == Call(DISPATCH) && A.Get(h.m.regs, A.P(1)) == A.Get(A.Run(code, m).regs, A.V(2))
  {
    hide POOL, UsesOk, A.Run, Body, RunLines, TermLines, CoversAt, DefinedBy, HeadedBlock, Analyzed, T,
         GoodAssignment, OperationCode, Reread;
    var n := |b.instrs|;
    ThreeIntervals(b, s);
    GoodSecond(v2p, Analyzed(b), s, n);
    var live := Analyzed(b)[1 := LiveRange(0, 0)];
    forall j | 0 <= j < |code| ensures CoversAt(live[2 := LiveRange(1, n)], code[j], j) {
      RereadCovered(b, s, code, j);
      WiderCovers(live, 2, LiveRange(1, n), code[j], j);
    }
    EmittedDispatches(code, 2, v2p, live[2 := LiveRange(1, n)], m);
    RereadBody(b, s, code, v2p);
    SameTermLines(1, 2, v2p);
  }

  /** One register for all three, the result being dead: the misread result. */
  lemma {:induction false} ThirdArrives(b: A.Block, s: nat, code: seq<A.Instr>, v2p: Assignment, m: A.Machine)
    requires FirstDispatched(b, s) && GoodAssignment(v2p, Analyzed(b)) && RereadCode(b, s, code) && 3 in DefinedBy(code)
    requires 1 in v2p && 2 in v2p && 3 in v2p && v2p[1] == v2p[2] && v2p[3] == v2p[1]
    requires 3 in Analyzed(b) && Analyzed(b)[3].end == s
    ensures
      var h := RunLines(Body(b.instrs, v2p) + TermLines(b.term, v2p), m);
      h.exit == Call(DISPATCH) && A.Get(h.m.regs, A.P(1)) == A.Get(A.Run(code, m).regs, A.V(3))
  {
    hide POOL, UsesOk, A.Run, Body, RunLines, TermLines, CoversAt, DefinedBy, HeadedBlock, Analyzed, T,
         GoodAssignment, OperationCode, Reread;
    var n := |b.instrs|;
    ThreeIntervals(b, s);
    GoodThird(v2p, Analyzed(b), s, n);
    var live := Analyzed(b)[1 := LiveRange(0, 0)];
    forall j | 0 <= j < |code| ensures CoversAt(live[3 := LiveRange(s, n)], code[j], j) {
      RereadCovered(b, s, code, j);
      WiderCovers(live, 3, LiveRange(s, n), code[j], j);
    }
    EmittedDispatches(code, 3, v2p, live[3 := LiveRange(s, n)], m);
    RereadBody(b, s, code, v2p);
    SameTermLines(1, 3, v2p);
  }
}
