/** Live intervals of virtual registers within a block. */
module Liveness {
  import A = AArch64

  datatype LiveRange = LiveRange(start: nat, end: nat)

  type LiveMap = map<nat, LiveRange>

  /** The virtual registers an operand touches; base 0 denotes the state pointer. */
  function TouchedBy(op: A.Operand): seq<nat> {
    match op
    case RegOp(V(v)) => [v]
    case MemOp(V(v)) => if v != 0 then [v] else []
    case _ => []
  }

  function TouchedByAll(ops: seq<A.Operand>): seq<nat> {
    if ops == [] then [] else TouchedByAll(ops[..|ops| - 1]) + TouchedBy(ops[|ops| - 1])
  }

  function TouchedByTerm(t: A.Terminator): seq<nat> {
    match t
    case CBr(cond, _, _) => [cond]
    case BrIndirect(v) => [v]
    case _ => []
  }

  /** The registers touched at position k; the terminator has the position after the last
      instruction. */
  function TouchesAt(b: A.Block, k: nat): seq<nat> {
    if k < |b.instrs| then TouchedByAll(A.Operands(b.instrs[k]))
    else if k == |b.instrs| then TouchedByTerm(b.term)
    else []
  }

  // ---------- The analysis ----------

  /** The interval of a register after a touch. The interval 0..0 stands for "not seen yet". */
  function Touch(live: LiveMap, v: nat, pos: nat): LiveMap {
    var seen := if v in live then live[v] else LiveRange(0, 0);
    var lr := if seen.start == 0 && seen.end == 0 then LiveRange(pos, pos) else seen;
    live[v := LiveRange(if pos < lr.start then pos else lr.start, if pos > lr.end then pos else lr.end)]
  }

  function TouchAll(live: LiveMap, vs: seq<nat>, pos: nat): LiveMap {
    if vs == [] then live else Touch(TouchAll(live, vs[..|vs| - 1], pos), vs[|vs| - 1], pos)
  }

  /** The intervals after the first k positions. */
  function AnalyzedTo(b: A.Block, k: nat): LiveMap {
    if k == 0 then map[] else TouchAll(AnalyzedTo(b, k - 1), TouchesAt(b, k - 1), k - 1)
  }

  function Analyzed(b: A.Block): LiveMap {
    AnalyzedTo(b, |b.instrs| + 1)
  }

  lemma {:induction false} TouchAllAppend(live: LiveMap, s: seq<nat>, t: seq<nat>, pos: nat)
    ensures TouchAll(live, s + t, pos) == TouchAll(TouchAll(live, s, pos), t, pos)
    decreases |t|
  {
    hide Touch;
    if t == [] {
      assert s + t == s;
    } else {
      assert (s + t)[..|s + t| - 1] == s + t[..|t| - 1];
      TouchAllAppend(live, s, t[..|t| - 1], pos);
    }
  }

  method TouchEach(live: LiveMap, vs: seq<nat>, pos: nat) returns (live': LiveMap)
    ensures live' == TouchAll(live, vs, pos)
  {
    live' := live;
    for i := 0 to |vs|
      invariant live' == TouchAll(live, vs[..i], pos)
    {
      live' := Touch(live', vs[i], pos);
      assert vs[..i + 1][..i] == vs[..i];
    }
    assert vs[..|vs|] == vs;
  }

  method TouchOperands(live: LiveMap, ops: seq<A.Operand>, pos: nat) returns (live': LiveMap)
    ensures live' == TouchAll(live, TouchedByAll(ops), pos)
  {
    hide TouchAll;
    live' := live;
    EmptyTouch(live, pos);
    for j := 0 to |ops|
      invariant live' == TouchAll(live, TouchedByAll(ops[..j]), pos)
    {
      assert ops[..j + 1][..j] == ops[..j];
      TouchAllAppend(live, TouchedByAll(ops[..j]), TouchedBy(ops[j]), pos);
      live' := TouchEach(live', TouchedBy(ops[j]), pos);
    }
    assert ops[..|ops|] == ops;
  }

  method Analyze(b: A.Block) returns (live: LiveMap)
    ensures live == Analyzed(b)
  {
    hide TouchAll, TouchedByAll, A.Operands;
    live := map[];
    var pos := 0;
    while pos < |b.instrs|
      invariant 0 <= pos <= |b.instrs|
      invariant live == AnalyzedTo(b, pos)
    {
      live := TouchOperands(live, A.Operands(b.instrs[pos]), pos);
      pos := pos + 1;
    }
    live := TouchEach(live, TouchedByTerm(b.term), pos);
  }

  lemma EmptyTouch(live: LiveMap, pos: nat)
    ensures TouchAll(live, [], pos) == live
  {
  }

  // ---------- What it returns ----------

  /** v is touched at position k, which is below n. */
  predicate TouchedBelow(b: A.Block, v: nat, k: nat, n: nat) {
    k < n && v in TouchesAt(b, k)
  }

  ghost predicate SeenBelow(b: A.Block, v: nat, n: nat) {
    exists k: nat :: TouchedBelow(b, v, k, n)
  }

  lemma SeenStep(b: A.Block, v: nat, n: nat)
    requires n > 0
    ensures SeenBelow(b, v, n) <==> SeenBelow(b, v, n - 1) || v in TouchesAt(b, n - 1)
    ensures forall k: nat {:trigger TouchedBelow(b, v, k, n)} :: TouchedBelow(b, v, k, n) <==>
      TouchedBelow(b, v, k, n - 1) || (k == n - 1 && v in TouchesAt(b, n - 1))
  {
    hide TouchesAt;
    if v in TouchesAt(b, n - 1) {
      assert TouchedBelow(b, v, n - 1, n);
    }
    if SeenBelow(b, v, n - 1) {
      var k: nat :| TouchedBelow(b, v, k, n - 1);
      assert TouchedBelow(b, v, k, n);
    }
    if SeenBelow(b, v, n) {
      var k: nat :| TouchedBelow(b, v, k, n);
      assert k < n - 1 ==> TouchedBelow(b, v, k, n - 1);
    }
  }

  /** The interval runs from the first to the last touch below n. */
  ghost predicate ExactBelow(b: A.Block, v: nat, lr: LiveRange, n: nat) {
    && TouchedBelow(b, v, lr.start, n) && TouchedBelow(b, v, lr.end, n)
    && forall k {:trigger TouchedBelow(b, v, k, n)} :: 0 <= k && TouchedBelow(b, v, k, n) ==> lr.start <= k <= lr.end
  }

  /** v is touched at position 0 and again, and the interval leaves position 0 out. */
  ghost predicate ShiftedBelow(b: A.Block, v: nat, lr: LiveRange, n: nat) {
    && TouchedBelow(b, v, 0, n) && 0 < lr.start
    && TouchedBelow(b, v, lr.start, n) && TouchedBelow(b, v, lr.end, n)
    && forall k {:trigger TouchedBelow(b, v, k, n)} :: 0 < k && TouchedBelow(b, v, k, n) ==> lr.start <= k <= lr.end
  }

  ghost predicate RangeBelow(b: A.Block, v: nat, lr: LiveRange, n: nat) {
    if TouchedBelow(b, v, 0, n) && lr.end > 0 then ShiftedBelow(b, v, lr, n) else ExactBelow(b, v, lr, n)
  }

  /** The effect of all touches of one position on one register. */
  lemma {:induction false} TouchAllAt(live: LiveMap, vs: seq<nat>, pos: nat, v: nat)
    requires v in live ==> live[v].start <= live[v].end < pos
    ensures v !in vs ==> (v in TouchAll(live, vs, pos) <==> v in live)
    ensures v !in vs && v in live ==> TouchAll(live, vs, pos)[v] == live[v]
    ensures v in vs ==>
      && v in TouchAll(live, vs, pos)
      && TouchAll(live, vs, pos)[v] == LiveRange(if v in live && live[v].end > 0 then live[v].start else pos, pos)
    decreases |vs|
  {
    if vs != [] {
      var n := |vs| - 1;
      assert vs == vs[..n] + [vs[n]];
      TouchAllAt(live, vs[..n], pos, v);
    }
  }

  lemma {:induction false} RangesBelow(b: A.Block, n: nat, v: nat)
    ensures v in AnalyzedTo(b, n) <==> SeenBelow(b, v, n)
    ensures v in AnalyzedTo(b, n) ==> RangeBelow(b, v, AnalyzedTo(b, n)[v], n)
    decreases n
  {
    hide TouchesAt, TouchAll, RangeBelow;
    if n > 0 {
      RangesBelow(b, n - 1, v);
      var live := AnalyzedTo(b, n - 1);
      assert v in live ==> live[v].start <= live[v].end < n - 1 by {
        if v in live { RangeIsOrdered(b, v, live[v], n - 1); }
      }
      TouchAllAt(live, TouchesAt(b, n - 1), n - 1, v);
      SeenStep(b, v, n);
      if v in AnalyzedTo(b, n) {
        RangeStep(b, n, v, live, AnalyzedTo(b, n)[v]);
      }
    }
  }

  lemma RangeIsOrdered(b: A.Block, v: nat, lr: LiveRange, n: nat)
    requires RangeBelow(b, v, lr, n)
    ensures lr.start <= lr.end < n
  {
    hide TouchesAt;
  }

  lemma RangeStep(b: A.Block, n: nat, v: nat, live: LiveMap, lr: LiveRange)
    requires n > 0
    requires v in live <==> SeenBelow(b, v, n - 1)
    requires v in live ==> RangeBelow(b, v, live[v], n - 1)
    requires v !in TouchesAt(b, n - 1) ==> v in live && lr == live[v]
    requires v in TouchesAt(b, n - 1) ==>
      lr == LiveRange(if v in live && live[v].end > 0 then live[v].start else n - 1, n - 1)
    ensures RangeBelow(b, v, lr, n)
  {
    hide TouchesAt;
    SeenStep(b, v, n);
  }

  ghost predicate Touched(b: A.Block, v: nat, k: nat) {
    v in TouchesAt(b, k)
  }

  lemma TouchedIsBelow(b: A.Block, v: nat, k: nat)
    ensures TouchedBelow(b, v, k, |b.instrs| + 1) <==> Touched(b, v, k)
  {
  }

  /** Below the last position the bounded statements are the unbounded ones. */
  lemma BoundedIsAll(b: A.Block, v: nat)
    ensures SeenBelow(b, v, |b.instrs| + 1) <==> exists k: nat :: Touched(b, v, k)
    ensures forall lr {:trigger ExactBelow(b, v, lr, |b.instrs| + 1)} ::
      ExactBelow(b, v, lr, |b.instrs| + 1) <==> ExactRange(b, v, lr)
    ensures forall lr {:trigger ShiftedBelow(b, v, lr, |b.instrs| + 1)} ::
      ShiftedBelow(b, v, lr, |b.instrs| + 1) <==> ShiftedRange(b, v, lr)
  {
    hide TouchesAt, Touched, TouchedBelow;
    var n := |b.instrs| + 1;
    forall k: nat ensures TouchedBelow(b, v, k, n) <==> Touched(b, v, k) {
      TouchedIsBelow(b, v, k);
    }
  }

  ghost predicate ExactRange(b: A.Block, v: nat, lr: LiveRange) {
    && Touched(b, v, lr.start) && Touched(b, v, lr.end)
    && forall k: nat :: Touched(b, v, k) ==> lr.start <= k <= lr.end
  }

  ghost predicate ShiftedRange(b: A.Block, v: nat, lr: LiveRange) {
    && Touched(b, v, 0) && 0 < lr.start
    && Touched(b, v, lr.start) && Touched(b, v, lr.end)
    && forall k: nat :: 0 < k && Touched(b, v, k) ==> lr.start <= k <= lr.end
  }

  /** What the analysis returns: the interval from the first to the last touch, except that a
      register of position 0 that is touched again starts at its next touch. */
  lemma AnalyzeIsExact(b: A.Block, v: nat)
    ensures v in Analyzed(b) <==> exists k: nat :: Touched(b, v, k)
    ensures v in Analyzed(b) ==>
      if Touched(b, v, 0) && (exists k: nat :: 0 < k && Touched(b, v, k))
      then ShiftedRange(b, v, Analyzed(b)[v]) else ExactRange(b, v, Analyzed(b)[v])
  {
    hide AnalyzedTo, TouchesAt, Touched, TouchedBelow, ExactBelow, ShiftedBelow;
    var n := |b.instrs| + 1;
    RangesBelow(b, n, v);
    BoundedIsAll(b, v);
    TouchedIsBelow(b, v, 0);
  }

  // ---------- Coverage ----------

  /** Every touch of a register lies in its interval. */
  ghost predicate Covers(live: LiveMap, b: A.Block) {
    forall v: nat, k: nat :: Touched(b, v, k) ==> v in live && live[v].start <= k <= live[v].end
  }

  /** The intervals of the analysis cover all touches if and only if no register of position 0
      is touched at a later position. */
  lemma CoversExactly(b: A.Block)
    ensures Covers(Analyzed(b), b) <==>
      forall v: nat, k: nat :: Touched(b, v, 0) && Touched(b, v, k) ==> k == 0
  {
    hide Analyzed, Touched;
    var live := Analyzed(b);
    forall v: nat, k: nat | Touched(b, v, k)
      ensures v in live && k <= live[v].end
      ensures live[v].start <= k <==> !(k == 0 && exists j: nat :: 0 < j && Touched(b, v, j))
    {
      AnalyzeIsExact(b, v);
    }
  }

  // ---------- The presence test ----------

  /** The touch with "not seen yet" as absence from the map. */
  function Extend(live: LiveMap, v: nat, pos: nat): LiveMap {
    if v !in live then live[v := LiveRange(pos, pos)]
    else live[v := LiveRange(if pos < live[v].start then pos else live[v].start,
                             if pos > live[v].end then pos else live[v].end)]
  }

  function ExtendAll(live: LiveMap, vs: seq<nat>, pos: nat): LiveMap {
    if vs == [] then live else Extend(ExtendAll(live, vs[..|vs| - 1], pos), vs[|vs| - 1], pos)
  }

  function ExactTo(b: A.Block, k: nat): LiveMap {
    if k == 0 then map[] else ExtendAll(ExactTo(b, k - 1), TouchesAt(b, k - 1), k - 1)
  }

  /** First touch to last touch. */
  function ExactLive(b: A.Block): LiveMap {
    ExactTo(b, |b.instrs| + 1)
  }

  lemma {:induction false} ExtendAllAt(live: LiveMap, vs: seq<nat>, pos: nat, v: nat)
    requires v in live ==> live[v].start <= live[v].end < pos
    ensures v !in vs ==> (v in ExtendAll(live, vs, pos) <==> v in live)
    ensures v !in vs && v in live ==> ExtendAll(live, vs, pos)[v] == live[v]
    ensures v in vs ==>
      && v in ExtendAll(live, vs, pos)
      && ExtendAll(live, vs, pos)[v] == LiveRange(if v in live then live[v].start else pos, pos)
    decreases |vs|
  {
    if vs != [] {
      var n := |vs| - 1;
      assert vs == vs[..n] + [vs[n]];
      ExtendAllAt(live, vs[..n], pos, v);
    }
  }

  lemma ExactIsOrdered(b: A.Block, v: nat, n: nat)
    ensures forall lr: LiveRange {:trigger ExactBelow(b, v, lr, n)} ::
      ExactBelow(b, v, lr, n) ==> lr.start <= lr.end < n
  {
    hide TouchesAt;
  }

  lemma {:induction false} ExactBelowAll(b: A.Block, n: nat, v: nat)
    ensures v in ExactTo(b, n) <==> SeenBelow(b, v, n)
    ensures v in ExactTo(b, n) ==> ExactBelow(b, v, ExactTo(b, n)[v], n)
    decreases n
  {
    hide TouchesAt, ExtendAll;
    if n > 0 {
      ExactBelowAll(b, n - 1, v);
      ExactIsOrdered(b, v, n - 1);
      ExtendAllAt(ExactTo(b, n - 1), TouchesAt(b, n - 1), n - 1, v);
      SeenStep(b, v, n);
    }
  }

  lemma ExactLiveIsExact(b: A.Block)
    ensures forall v: nat :: v in ExactLive(b) <==> exists k: nat :: Touched(b, v, k)
    ensures forall v: nat :: v in ExactLive(b) ==> ExactRange(b, v, ExactLive(b)[v])
    ensures Covers(ExactLive(b), b)
  {
    hide ExactTo, TouchesAt, Touched, TouchedBelow, ExactBelow, ShiftedBelow;
    var n := |b.instrs| + 1;
    forall v: nat
      ensures v in ExactLive(b) <==> exists k: nat :: Touched(b, v, k)
      ensures v in ExactLive(b) ==> ExactRange(b, v, ExactLive(b)[v])
    {
      ExactBelowAll(b, n, v);
      BoundedIsAll(b, v);
    }
  }
}
