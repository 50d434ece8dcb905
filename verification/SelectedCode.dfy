/** The shape of selected code: registers are defined before they are used, address registers
    are fresh, and each guest instruction keeps its registers to itself. */
module SelectedCode {
  import opened Words
  import IR
  import A = AArch64
  import opened ISel
  import opened Liveness
  import RegAlloc
  import RegAllocTheorems
  import opened AllocSim

  // ---------- Pieces of code ----------

  lemma {:induction false} DefinedByAppend(a: seq<A.Instr>, b: seq<A.Instr>)
    ensures DefinedBy(a + b) == DefinedBy(a) + DefinedBy(b)
    decreases |a|
  {
    hide Defined;
    if a == [] {
      assert a + b == b;
    } else {
      assert (a + b)[1..] == a[1..] + b;
      DefinedByAppend(a[1..], b);
    }
  }

  lemma {:induction false} UsesOkAppend(a: seq<A.Instr>, b: seq<A.Instr>, defs: set<nat>)
    requires UsesOk(a, defs) && UsesOk(b, defs + DefinedBy(a))
    ensures UsesOk(a + b, defs)
    decreases |a|
  {
    hide Defined, InstrOk;
    if a == [] {
      assert a + b == b && defs + DefinedBy(a) == defs;
    } else {
      assert (a + b)[1..] == a[1..] + b;
      assert defs + DefinedBy(a) == defs + Defined(a[0]) + DefinedBy(a[1..]);
      UsesOkAppend(a[1..], b, defs + Defined(a[0]));
    }
  }

  lemma {:induction false} UsesOkAt(code: seq<A.Instr>, defs: set<nat>, k: nat)
    requires UsesOk(code, defs) && k < |code|
    ensures InstrOk(code[k], defs + DefinedBy(code[..k]))
    decreases k
  {
    hide Defined, InstrOk;
    if k == 0 {
      assert defs + DefinedBy(code[..0]) == defs;
    } else {
      UsesOkAt(code[1..], defs + Defined(code[0]), k - 1);
      assert code[..k][0] == code[0] && code[..k][1..] == code[1..][..k - 1];
      assert defs + DefinedBy(code[..k]) == defs + Defined(code[0]) + DefinedBy(code[1..][..k - 1]);
    }
  }

  function T(i: A.Instr): seq<nat> {
    TouchedByAll(A.Operands(i))
  }

  ghost predicate Within(code: seq<A.Instr>, home: set<nat>) {
    forall k, v :: 0 <= k < |code| && v in T(code[k]) ==> v in home
  }

  lemma {:induction false} WithinAppend(a: seq<A.Instr>, b: seq<A.Instr>, home: set<nat>)
    requires Within(a, home) && Within(b, home)
    ensures Within(a + b, home)
  {
    hide T;
    forall k, v | 0 <= k < |a + b| && v in T((a + b)[k]) ensures v in home {
      if k < |a| { assert (a + b)[k] == a[k]; } else { assert (a + b)[k] == b[k - |a|]; }
    }
  }

  lemma {:induction false} TouchedFrom(ops: seq<A.Operand>, v: nat) returns (j: nat)
    requires v in TouchedByAll(ops)
    ensures j < |ops| && v in TouchedBy(ops[j])
    decreases |ops|
  {
    hide TouchedBy;
    var n := |ops| - 1;
    if v in TouchedBy(ops[n]) {
      j := n;
    } else {
      j := TouchedFrom(ops[..n], v);
    }
  }

  lemma {:induction false} WithinMore(code: seq<A.Instr>, home: set<nat>, more: set<nat>)
    requires Within(code, home) && home <= more
    ensures Within(code, more)
  {
    hide T;
  }

  lemma {:induction false} SingleWithin(i: A.Instr, home: set<nat>)
    requires forall j, v :: 0 <= j < |A.Operands(i)| && v in TouchedBy(A.Operands(i)[j]) ==> v in home
    ensures Within([i], home)
  {
    hide A.Operands, TouchedBy;
    forall v | v in T(i) ensures v in home {
      var j := TouchedFrom(A.Operands(i), v);
    }
  }

  lemma {:induction false} SingleOk(i: A.Instr, defs: set<nat>)
    requires InstrOk(i, defs)
    ensures UsesOk([i], defs) && DefinedBy([i]) == Defined(i)
  {
    hide InstrOk, Defined;
    assert [i][1..] == [];
  }

  // ---------- The code of one IR instruction ----------

  /** What the code of an instruction may assume of its operands. */
  ghost predicate Placed(i: IR.Instr, n: nat, size: nat, defs: set<nat>) {
    && n < size
    && i.dest == (if IR.Produces(i.payload) then IR.Some(n) else IR.None)
    && (forall v :: v in IR.Operands(i.payload) ==> v < n && v + 1 in defs)
  }

  /** The registers an instruction names, and for memory the next index of the value map. */
  function Footprint(i: IR.Instr, n: nat, size: nat): set<nat> {
    (set v | v in IR.Operands(i.payload) :: v + 1)
    + (if IR.Produces(i.payload) then {n + 1} else {})
    + (if i.payload.Load? || i.payload.Store? then {size + 1} else {})
  }

  /** The code defines its result and touches only its footprint. */
  ghost predicate PieceOk(i: IR.Instr, start: Word, n: nat, size: nat, defs: set<nat>) {
    var p := SelectInst(i, start, size);
    && UsesOk(p.code, defs)
    && (IR.Produces(i.payload) ==> n + 1 in DefinedBy(p.code))
    && p.size == (if i.payload.Load? || i.payload.Store? then size + 1 else size)
    && Within(p.code, Footprint(i, n, size))
  }

  lemma {:induction false} MovkOk(d: nat, field: nat, lsl: nat, defs: set<nat>)
    requires field < 0x1_0000 && d in defs
    ensures UsesOk(Movk(A.V(d), field, lsl), defs) && DefinedBy(Movk(A.V(d), field, lsl)) <= {d}
    ensures Within(Movk(A.V(d), field, lsl), {d})
  {
    if field != 0 {
      SingleOk(A.MovK(A.V(d), field, lsl), defs);
      SingleWithin(A.MovK(A.V(d), field, lsl), {d});
    }
  }

  lemma {:induction false} FirstDefines(i: A.Instr, d: nat, defs: set<nat>)
    requires i.MovImm? || i.MovZ?
    requires i.d == A.V(d)
    ensures UsesOk([i], defs) && DefinedBy([i]) == {d} && Within([i], {d})
  {
    SingleOk(i, defs);
    SingleWithin(i, {d});
  }

  lemma {:induction false} ConstOk(d: nat, val: Word, defs: set<nat>)
    ensures UsesOk(ConstCode(A.V(d), val), defs) && d in DefinedBy(ConstCode(A.V(d), val))
    ensures Within(ConstCode(A.V(d), val), {d})
  {
    hide UsesOk, DefinedBy, Within, Movk;
    var f1, f2, f3 := val / 0x1_0000 % 0x1_0000, val / 0x1_0000_0000 % 0x1_0000, val / 0x1_0000_0000_0000 % 0x1_0000;
    var c1, c2, c3 := Movk(A.V(d), f1, 16), Movk(A.V(d), f2, 32), Movk(A.V(d), f3, 48);
    var i, z := A.MovImm(A.V(d), val), A.MovZ(A.V(d), Low16(val));
    FirstDefines(i, d, defs);
    FirstDefines(z, d, defs);
    var defs1 := defs + DefinedBy([z]);
    MovkOk(d, f1, 16, defs1);
    MovkOk(d, f2, 32, defs1 + DefinedBy(c1));
    MovkOk(d, f3, 48, defs1 + DefinedBy(c1) + DefinedBy(c2));
    UsesOkAppend(c2, c3, defs1 + DefinedBy(c1));
    UsesOkAppend(c1, c2 + c3, defs1);
    UsesOkAppend([z], c1 + (c2 + c3), defs);
    DefinedByAppend([z], c1 + (c2 + c3));
    WithinAppend(c2, c3, {d});
    WithinAppend(c1, c2 + c3, {d});
    WithinAppend([z], c1 + (c2 + c3), {d});
  }

  lemma {:induction false} ConstPiece(i: IR.Instr, start: Word, n: nat, size: nat, defs: set<nat>)
    requires Placed(i, n, size, defs) && (i.payload.Const? || i.payload.GetPC?)
    ensures PieceOk(i, start, n, size, defs)
  {
    hide UsesOk, DefinedBy, Within, ConstCode;
    if i.payload.Const? {
      ConstOk(n + 1, i.payload.value, defs);
      WithinMore(ConstCode(VReg(n), i.payload.value), {n + 1}, Footprint(i, n, size));
    } else {
      FirstDefines(A.MovImm(VReg(n), start), n + 1, defs);
      WithinMore([A.MovImm(VReg(n), start)], {n + 1}, Footprint(i, n, size));
    }
  }

  lemma {:induction false} InFootprint(i: IR.Instr, n: nat, size: nat, v: nat)
    requires v in IR.Operands(i.payload)
    ensures v + 1 in Footprint(i, n, size)
  {
  }

  lemma {:induction false} RegisterPiece(i: IR.Instr, start: Word, n: nat, size: nat, defs: set<nat>)
    requires Placed(i, n, size, defs) && (i.payload.ReadReg? || i.payload.WriteReg?)
    ensures PieceOk(i, start, n, size, defs)
  {
    hide UsesOk, DefinedBy, Within;
    var a := SelectInst(i, start, size).code[0];
    if i.payload.WriteReg? {
      assert i.payload.v in IR.Operands(i.payload);
      InFootprint(i, n, size, i.payload.v);
    }
    SingleOk(a, defs);
    SingleWithin(a, Footprint(i, n, size));
  }

  lemma {:induction false} BinOpPiece(i: IR.Instr, start: Word, n: nat, size: nat, defs: set<nat>)
    requires Placed(i, n, size, defs) && i.payload.BinOp?
    ensures PieceOk(i, start, n, size, defs)
  {
    hide UsesOk, DefinedBy, Within, AluOf, Footprint;
    var a := SelectInst(i, start, size).code[0];
    assert i.payload.lhs in IR.Operands(i.payload) && i.payload.rhs in IR.Operands(i.payload);
    InFootprint(i, n, size, i.payload.lhs);
    InFootprint(i, n, size, i.payload.rhs);
    ResultInFootprint(i, n, size);
    SingleOk(a, defs);
    SingleWithin(a, Footprint(i, n, size));
  }

  lemma {:induction false} ResultInFootprint(i: IR.Instr, n: nat, size: nat)
    ensures IR.Produces(i.payload) ==> n + 1 in Footprint(i, n, size)
    ensures i.payload.Load? || i.payload.Store? ==> size + 1 in Footprint(i, n, size)
  {
  }

  lemma {:induction false} ConversionPiece(i: IR.Instr, start: Word, n: nat, size: nat, defs: set<nat>)
    requires Placed(i, n, size, defs) && (i.payload.ZExt? || i.payload.SExt? || i.payload.Trunc?)
    ensures PieceOk(i, start, n, size, defs)
  {
    hide UsesOk, DefinedBy, Within, Footprint;
    var a := SelectInst(i, start, size).code[0];
    assert i.payload.src in IR.Operands(i.payload);
    InFootprint(i, n, size, i.payload.src);
    ResultInFootprint(i, n, size);
    SingleOk(a, defs);
    SingleWithin(a, Footprint(i, n, size));
  }

  /** Two instructions in a row. */
  lemma {:induction false} PairOk(a: A.Instr, b: A.Instr, defs: set<nat>, home: set<nat>)
    requires InstrOk(a, defs) && InstrOk(b, defs + Defined(a))
    requires Within([a], home) && Within([b], home)
    ensures UsesOk([a, b], defs) && DefinedBy([a, b]) == Defined(a) + Defined(b) && Within([a, b], home)
  {
    hide InstrOk, Defined, Within;
    SingleOk(a, defs);
    SingleOk(b, defs + Defined(a));
    UsesOkAppend([a], [b], defs);
    DefinedByAppend([a], [b]);
    WithinAppend([a], [b], home);
    assert [a, b] == [a] + [b];
  }

  lemma {:induction false} ICmpPiece(i: IR.Instr, start: Word, n: nat, size: nat, defs: set<nat>)
    requires Placed(i, n, size, defs) && i.payload.ICmp?
    ensures PieceOk(i, start, n, size, defs)
  {
    hide UsesOk, DefinedBy, Within, CondOf, Footprint;
    var code := SelectInst(i, start, size).code;
    assert i.payload.lhs in IR.Operands(i.payload) && i.payload.rhs in IR.Operands(i.payload);
    InFootprint(i, n, size, i.payload.lhs);
    InFootprint(i, n, size, i.payload.rhs);
    ResultInFootprint(i, n, size);
    SingleWithin(code[0], Footprint(i, n, size));
    SingleWithin(code[1], Footprint(i, n, size));
    PairOk(code[0], code[1], defs, Footprint(i, n, size));
  }

  lemma {:induction false} LoadPiece(i: IR.Instr, start: Word, n: nat, size: nat, defs: set<nat>)
    requires Placed(i, n, size, defs) && i.payload.Load?
    ensures PieceOk(i, start, n, size, defs)
  {
    hide UsesOk, DefinedBy, Within, WidthOf, Offset32, Footprint, RegAlloc.POOL;
    var code := SelectInst(i, start, size).code;
    assert i.payload.base in IR.Operands(i.payload);
    RegAllocTheorems.PoolHasNoRepeats(21);
    InFootprint(i, n, size, i.payload.base);
    ResultInFootprint(i, n, size);
    SingleWithin(code[0], Footprint(i, n, size));
    SingleWithin(code[1], Footprint(i, n, size));
    PairOk(code[0], code[1], defs, Footprint(i, n, size));
  }

  lemma {:induction false} StorePiece(i: IR.Instr, start: Word, n: nat, size: nat, defs: set<nat>)
    requires Placed(i, n, size, defs) && i.payload.Store?
    ensures PieceOk(i, start, n, size, defs)
  {
    hide UsesOk, DefinedBy, Within, WidthOf, Offset32, Footprint, RegAlloc.POOL;
    var code := SelectInst(i, start, size).code;
    assert i.payload.base in IR.Operands(i.payload) && i.payload.v in IR.Operands(i.payload);
    RegAllocTheorems.PoolHasNoRepeats(21);
    InFootprint(i, n, size, i.payload.base);
    InFootprint(i, n, size, i.payload.v);
    ResultInFootprint(i, n, size);
    SingleWithin(code[0], Footprint(i, n, size));
    SingleWithin(code[1], Footprint(i, n, size));
    PairOk(code[0], code[1], defs, Footprint(i, n, size));
  }

  lemma {:induction false} InstPiece(i: IR.Instr, start: Word, n: nat, size: nat, defs: set<nat>)
    requires Placed(i, n, size, defs)
    ensures PieceOk(i, start, n, size, defs)
  {
    hide Placed, PieceOk;
    match i.payload
    case Const(_, _) => ConstPiece(i, start, n, size, defs);
    case GetPC => ConstPiece(i, start, n, size, defs);
    case ICmp(_, _, _) => ICmpPiece(i, start, n, size, defs);
    case Load(_, _, _) => LoadPiece(i, start, n, size, defs);
    case Store(_, _, _, _) => StorePiece(i, start, n, size, defs);
    case BinOp(_, _, _, _) => BinOpPiece(i, start, n, size, defs);
    case ReadReg(_) => RegisterPiece(i, start, n, size, defs);
    case WriteReg(_, _) => RegisterPiece(i, start, n, size, defs);
    case _ => ConversionPiece(i, start, n, size, defs);
  }

  // ---------- Whole blocks ----------

  lemma {:induction false} SelectAppend(a: seq<IR.Instr>, b: seq<IR.Instr>, start: Word, size: nat)
    ensures
      var p := SelectAll(a, start, size);
      var q := SelectAll(b, start, p.size);
      SelectAll(a + b, start, size) == Piece(p.code + q.code, q.size)
    decreases |b|
  {
    hide SelectInst;
    if b == [] {
      assert a + b == a;
    } else {
      var n := |b| - 1;
      assert (a + b)[..|a + b| - 1] == a + b[..n];
      SelectAppend(a, b[..n], start, size);
    }
  }

  lemma {:induction false} SelectOneInst(i: IR.Instr, start: Word, size: nat)
    ensures SelectAll([i], start, size) == SelectInst(i, start, size)
  {
    hide SelectInst;
    assert [i][..|[i]| - 1] == [];
    assert SelectAll([], start, size) == Piece([], size);
  }

  function MemoryOps(insts: seq<IR.Instr>): nat {
    if insts == [] then 0
    else
      var last := insts[|insts| - 1].payload;
      MemoryOps(insts[..|insts| - 1]) + if last.Load? || last.Store? then 1 else 0
  }

  lemma {:induction false} SsaPrefix(insts: seq<IR.Instr>, n: nat)
    requires IR.Ssa(insts) && n <= |insts|
    ensures IR.Ssa(insts[..n])
  {
    hide IR.Operands, IR.Produces;
    forall i | 0 <= i < n
      ensures insts[..n][i].dest == (if IR.Produces(insts[..n][i].payload) then IR.Some(i) else IR.None)
      ensures forall v :: v in IR.Operands(insts[..n][i].payload) ==> v < i && IR.Produces(insts[..n][v].payload)
    {
      assert insts[..n][i] == insts[i];
      forall v | v in IR.Operands(insts[i].payload) ensures v < i && IR.Produces(insts[..n][v].payload) {
        assert insts[..n][v] == insts[v];
      }
    }
  }

  ghost predicate ResultsDefined(insts: seq<IR.Instr>, defs: set<nat>) {
    forall j :: 0 <= j < |insts| && IR.Produces(insts[j].payload) ==> j + 1 in defs
  }

  /** Code of a block in single-assignment form defines every register before it uses it, and
      takes a fresh register, above all value registers, for each memory access. */
  lemma {:induction false} SelectIsOk(insts: seq<IR.Instr>, start: Word, size: nat)
    requires IR.Ssa(insts) && |insts| < size
    ensures
      var p := SelectAll(insts, start, size);
      && UsesOk(p.code, {})
      && ResultsDefined(insts, DefinedBy(p.code))
      && p.size == size + MemoryOps(insts)
    decreases |insts|
  {
    hide SelectInst, UsesOk, DefinedBy, PieceOk, IR.Operands, IR.Produces;
    if insts == [] {
      assert UsesOk([], {}) by { NothingIsOk(); }
    } else {
      var n := |insts| - 1;
      SsaPrefix(insts, n);
      SelectIsOk(insts[..n], start, size);
      var before := SelectAll(insts[..n], start, size);
      var defs := DefinedBy(before.code);
      var i := insts[n];
      assert forall v :: v in IR.Operands(i.payload) ==> v < n && insts[..n][v] == insts[v];
      InstPiece(i, start, n, before.size, defs);
      PieceParts(i, start, n, before.size, defs);
      var code := SelectInst(i, start, before.size).code;
      assert {} + defs == defs;
      UsesOkAppend(before.code, code, {});
      DefinedByAppend(before.code, code);
      assert forall j :: 0 <= j < n ==> insts[..n][j] == insts[j];
    }
  }

  lemma {:induction false} NothingIsOk()
    ensures UsesOk([], {})
  {
  }

  lemma {:induction false} PieceParts(i: IR.Instr, start: Word, n: nat, size: nat, defs: set<nat>)
    requires PieceOk(i, start, n, size, defs)
    ensures
      var p := SelectInst(i, start, size);
      && UsesOk(p.code, defs)
      && (IR.Produces(i.payload) ==> n + 1 in DefinedBy(p.code))
      && p.size == (if i.payload.Load? || i.payload.Store? then size + 1 else size)
  {
    hide Within, SelectInst, Footprint;
  }

  /** The terminator's value is a result of the block. */
  ghost predicate TermOk(bb: IR.Block) {
    match bb.term
    case CBr(v, _, _) => v < |bb.insts| && IR.Produces(bb.insts[v].payload)
    case BrIndirect(v) => v < |bb.insts| && IR.Produces(bb.insts[v].payload)
    case _ => true
  }

  lemma {:induction false} SelectedDefinesFirst(bb: IR.Block)
    requires IR.Ssa(bb.insts) && TermOk(bb)
    ensures DefinedBeforeUse(Selected(bb))
  {
    hide UsesOk, DefinedBy, SelectAll, IR.Ssa;
    SelectIsOk(bb.insts, bb.start, |bb.insts| + 1);
  }

  /** The address registers of two memory accesses differ from each other and from every value
      register: the k-th is the k-th number after the last index the values can use. */
  lemma {:induction false} AddressRegistersAreFresh(bb: IR.Block, i: nat, j: nat)
    requires IR.Ssa(bb.insts) && i < j < |bb.insts|
    requires bb.insts[i].payload.Load? || bb.insts[i].payload.Store?
    ensures
      var si := SelectAll(bb.insts[..i], bb.start, |bb.insts| + 1).size;
      var sj := SelectAll(bb.insts[..j], bb.start, |bb.insts| + 1).size;
      && (forall id :: 0 <= id < |bb.insts| ==> VReg(id) != VReg(si) && VReg(id) != VReg(sj))
      && VReg(si) != VReg(sj)
  {
    hide IR.Ssa, SelectAll;
    SsaPrefix(bb.insts, i);
    SsaPrefix(bb.insts, j);
    SelectIsOk(bb.insts[..i], bb.start, |bb.insts| + 1);
    SelectIsOk(bb.insts[..j], bb.start, |bb.insts| + 1);
    MemoryOpsGrow(bb.insts[..j], i);
    assert bb.insts[..j][..i] == bb.insts[..i];
  }

  /** And these are the registers that hold the addresses: the code of a memory access adds the
      memory base to its base into the fresh register and goes through it. */
  lemma {:induction false} AccessGoesThroughFresh(bb: IR.Block, i: nat)
    requires IR.Ssa(bb.insts) && i < |bb.insts|
    requires bb.insts[i].payload.Load? || bb.insts[i].payload.Store?
    ensures
      var p := SelectAll(bb.insts[..i], bb.start, |bb.insts| + 1);
      var payload := bb.insts[i].payload;
      var code := Selected(bb).instrs;
      var k := |p.code|;
      && k + 1 < |code|
      && code[k] == A.Alu(A.AddX, VReg(p.size), VReg(payload.base), A.P(21))
      && code[k + 1] ==
        if payload.Load? then A.Ldr(WidthOf(payload.ty), VReg(i), VReg(p.size), Offset32(payload.offset))
        else A.Str(WidthOf(payload.ty), VReg(payload.v), VReg(p.size), Offset32(payload.offset))
  {
    hide SelectAll, Offset32, WidthOf, IR.Ssa;
    var size := |bb.insts| + 1;
    var p := SelectAll(bb.insts[..i], bb.start, size);
    SsaPrefix(bb.insts, i);
    SelectIsOk(bb.insts[..i], bb.start, size);
    OperandsEarlier(bb.insts, i);
    assert bb.insts == bb.insts[..i] + ([bb.insts[i]] + bb.insts[i + 1..]);
    SelectAppend(bb.insts[..i], [bb.insts[i]] + bb.insts[i + 1..], bb.start, size);
    SelectAppend([bb.insts[i]], bb.insts[i + 1..], bb.start, p.size);
    SelectOneInst(bb.insts[i], bb.start, p.size);
  }

  lemma {:induction false} OperandsEarlier(insts: seq<IR.Instr>, i: nat)
    requires IR.Ssa(insts) && i < |insts| && (insts[i].payload.Load? || insts[i].payload.Store?)
    ensures insts[i].payload.base < i && (insts[i].payload.Store? ==> insts[i].payload.v < i)
    ensures insts[i].payload.Load? ==> insts[i].dest == IR.Some(i)
  {
    assert insts[i].payload.base in IR.Operands(insts[i].payload);
    assert insts[i].payload.Store? ==> insts[i].payload.v in IR.Operands(insts[i].payload);
  }

  lemma {:induction false} MemoryOpsGrow(insts: seq<IR.Instr>, i: nat)
    requires i < |insts| && (insts[i].payload.Load? || insts[i].payload.Store?)
    ensures MemoryOps(insts[..i]) < MemoryOps(insts)
    decreases |insts|
  {
    var n := |insts| - 1;
    if i < n {
      MemoryOpsGrow(insts[..n], i);
      assert insts[..n][..i] == insts[..i];
    }
  }

  // ---------- Distinct starts ----------

  /** What an instruction touches it either defines or reads. */
  lemma {:induction false} TouchedIsUsedOrDefined(i: A.Instr, v: nat)
    requires v in T(i) && (match A.Dest(i) case Some(d) => d.V? case None => true)
    ensures v in Defined(i) || exists j :: 0 <= j < |A.Uses(i)| && A.Uses(i)[j] == A.V(v)
  {
    var k := TouchedFrom(A.Operands(i), v);
    var u := A.Uses(i);
    assert |u| > 0 ==> u[0] == A.V(v) ==> exists j :: 0 <= j < |u| && u[j] == A.V(v);
    assert |u| > 1 ==> u[1] == A.V(v) ==> exists j :: 0 <= j < |u| && u[j] == A.V(v);
  }

  lemma {:induction false} DefinedIsTouched(code: seq<A.Instr>, v: nat)
    ensures v in DefinedBy(code) ==> exists p :: 0 <= p < |code| && v in T(code[p])
    decreases |code|
  {
    hide T, Defined;
    if code != [] {
      UsesAreTouched(code[0]);
      assert v in Defined(code[0]) ==> v in T(code[0]) by { DefinedInT(code[0], v); }
      DefinedIsTouched(code[1..], v);
      assert forall p :: 0 <= p < |code| - 1 ==> code[1..][p] == code[p + 1];
    }
  }

  lemma {:induction false} DefinedInT(i: A.Instr, v: nat)
    ensures v in Defined(i) ==> v in T(i)
  {
    hide Defined, TouchedByAll, A.Operands;
    UsesAreTouched(i);
  }

  lemma {:induction false} BodyTouch(b: A.Block, v: nat, k: nat)
    ensures k < |b.instrs| ==> (Touched(b, v, k) <==> v in T(b.instrs[k]))
    ensures k == |b.instrs| ==> (Touched(b, v, k) <==> v in TouchedByTerm(b.term))
    ensures k > |b.instrs| ==> !Touched(b, v, k)
  {
  }

  /** Nothing touched from position k on only is defined before k. */
  lemma {:induction false} NotDefinedBefore(b: A.Block, v: nat, k: nat)
    requires k <= |b.instrs| && forall p: nat :: Touched(b, v, p) ==> k <= p
    ensures v !in DefinedBy(b.instrs[..k])
  {
    hide T, Touched, DefinedBy;
    DefinedIsTouched(b.instrs[..k], v);
    forall p | 0 <= p < k ensures v !in T(b.instrs[..k][p]) {
      BodyTouch(b, v, p);
    }
  }

  /** A first touch is a definition. */
  lemma {:induction false} FirstTouchDefines(b: A.Block, v: nat, lr: LiveRange)
    requires DefinedBeforeUse(b) && ExactRange(b, v, lr)
    ensures lr.start < |b.instrs| && v in Defined(b.instrs[lr.start])
  {
    hide UsesOk, Defined, T, A.Uses, RegAlloc.POOL, Touched, DefinedBy, A.Dest, TouchedByTerm;
    BodyTouch(b, v, lr.start);
    assert b.instrs[..|b.instrs|] == b.instrs;
    if lr.start >= |b.instrs| {
      NotDefinedBefore(b, v, |b.instrs|);
    } else {
      var i := b.instrs[lr.start];
      NotDefinedBefore(b, v, lr.start);
      UsesOkAt(b.instrs, {}, lr.start);
      TouchedIsUsedOrDefined(i, v);
      assert {} + DefinedBy(b.instrs[..lr.start]) == DefinedBy(b.instrs[..lr.start]);
    }
  }

  /** In a block that defines before it uses, exact intervals have pairwise distinct starts. */
  lemma {:induction false} StartsAreDistinct(b: A.Block)
    requires DefinedBeforeUse(b)
    ensures RegAllocTheorems.DistinctStarts(ExactLive(b))
  {
    hide DefinedBeforeUse, ExactLive, ExactRange, Touched, Covers;
    ExactLiveIsExact(b);
    var live := ExactLive(b);
    forall v, w | v in live && w in live && v != w ensures live[v].start != live[w].start {
      FirstTouchDefines(b, v, live[v]);
      FirstTouchDefines(b, w, live[w]);
    }
  }

  /** With exact intervals the assignment is the same for every order in which the intervals are
      visited and for every sort by start. */
  lemma {:induction false} AssignmentIsDetermined(b: A.Block, items: seq<RegAlloc.Item>, others: seq<RegAlloc.Item>)
    requires DefinedBeforeUse(b)
    requires RegAlloc.IsSorting(ExactLive(b), items) && RegAlloc.IsSorting(ExactLive(b), others)
    ensures RegAlloc.Allocated(items) == RegAlloc.Allocated(others)
  {
    hide DefinedBeforeUse, ExactLive, RegAlloc.IsSorting, RegAlloc.Allocated;
    StartsAreDistinct(b);
    RegAllocTheorems.SortingIsUnique(ExactLive(b), items, others);
  }
}
