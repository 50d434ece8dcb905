/** The code of a block that begins with two values and an operation on them, and its intervals
    under the analysis as written. */
module MisreadCode {
  import opened Words
  import R = Riscv
  import IR
  import A = AArch64
  import Lifter
  import LifterTheorems
  import opened ISel
  import opened Liveness
  import opened SelectedCode
  import opened Pressure
  import opened Misread

  // ---------- The IR ----------

  /** An operation on values 0 and 1, neither of which is read again in the block. */
  ghost predicate TwoValueHead(insts: seq<IR.Instr>) {
    && |insts| >= 3
    && insts[0].dest == IR.Some(0) && (insts[0].payload.ReadReg? || insts[0].payload.GetPC?)
    && insts[1].dest == IR.Some(1) && (insts[1].payload.ReadReg? || insts[1].payload.Const?)
    && insts[2].dest == IR.Some(2) && (insts[2].payload.BinOp? || insts[2].payload.ICmp?)
    && insts[2].payload.lhs == 0 && insts[2].payload.rhs == 1
    && forall i :: 3 <= i < |insts| ==> forall v :: v in IR.Operands(insts[i].payload) ==> 2 <= v
  }

  lemma {:induction false} BinopHead(op: R.Opcode, p: IR.Payload, q: IR.Payload, rd: R.RegIndex)
    requires LifterTheorems.HasLowering(op) && (p.ReadReg? || p.GetPC?) && (q.ReadReg? || q.Const?)
    ensures TwoValueHead(Lifter.Binop(op, p, q, rd, 0))
  {
    hide Lifter.KindOf;
    LifterTheorems.KindIs(op);
  }

  lemma {:induction false} ExpansionHead(inst: R.DecodedInst)
    requires TwoOperands(inst)
    ensures TwoValueHead(Lifter.LiftInst(inst, 0))
  {
    hide Lifter.KindOf, Lifter.CondOf, Add, R.Bits, Lifter.Binop, LifterTheorems.HasLowering;
    match inst.operands
    case RegRegImm(rd, rs1, imm) => BinopHead(inst.opcode, IR.ReadReg(rs1), IR.Const(IR.I64, R.Bits(imm)), rd);
    case RegRegReg(rd, rs1, rs2) => BinopHead(inst.opcode, IR.ReadReg(rs1), IR.ReadReg(rs2), rd);
    case _ =>
  }

  lemma {:induction false} HeadAppend(a: seq<IR.Instr>, b: seq<IR.Instr>)
    requires TwoValueHead(a) && IR.LocalSsa(b, |a|)
    ensures TwoValueHead(a + b)
  {
    hide IR.Operands, IR.Produces;
    var all := a + b;
    forall i, v | 3 <= i < |all| && v in IR.Operands(all[i].payload) ensures 2 <= v {
      if i < |a| { assert all[i] == a[i]; } else { assert all[i] == b[i - |a|]; }
    }
  }

  lemma {:induction false} LiftedHead(insts: seq<R.DecodedInst>, k: nat)
    requires FirstLifted(insts) < k <= |insts| && TwoOperands(insts[FirstLifted(insts)])
    ensures TwoValueHead(Lifter.LiftAll(insts[..k]))
    decreases k
  {
    hide Lifter.LiftInst, TwoValueHead, IR.LocalSsa, TwoOperands, FirstLifted;
    var f := FirstLifted(insts);
    assert insts[..k][..k - 1] == insts[..k - 1];
    if k == f + 1 {
      FirstLiftedIsFirst(insts);
      NothingLifted(insts[..f]);
      assert Lifter.LiftAll(insts[..k]) == Lifter.LiftInst(insts[f], 0);
      ExpansionHead(insts[f]);
    } else {
      LiftedHead(insts, k - 1);
      var before := Lifter.LiftAll(insts[..k - 1]);
      Lifter.LiftInstIsLocal(insts[k - 1], |before|);
      HeadAppend(before, Lifter.LiftInst(insts[k - 1], |before|));
    }
  }

  // ---------- The code ----------

  /** The position of the operation: after the code of the first two values. */
  function OpAt(insts: seq<IR.Instr>, start: Word): nat
    requires |insts| >= 3
  {
    |SelectAll(insts[..2], start, |insts| + 1).code|
  }

  function CodeOf(insts: seq<IR.Instr>, start: Word): seq<A.Instr> {
    SelectAll(insts, start, |insts| + 1).code
  }

  predicate Only(i: A.Instr, v: nat) {
    T(i) == [v]
  }

  lemma {:induction false} OneRegOp(i: A.Instr, v: nat)
    requires (i.MovImm? || i.MovZ? || i.MovK? || i.Cset?) && i.d == A.V(v)
    ensures Only(i, v)
  {
    var ops := A.Operands(i);
    assert ops[0] == A.RegOp(A.V(v));
    if |ops| == 1 { TouchOne(ops[0]); assert ops == [ops[0]]; }
    else if |ops| == 2 { TouchTwo(ops[0], ops[1]); assert ops == [ops[0], ops[1]]; }
    else { TouchThree(ops[0], ops[1], ops[2]); assert ops == [ops[0], ops[1], ops[2]]; }
  }

  lemma {:induction false} TouchOne(a: A.Operand)
    ensures TouchedByAll([a]) == TouchedBy(a)
  {
    hide TouchedBy;
    assert [a][..|[a]| - 1] == [];
    assert TouchedByAll([a]) == [] + TouchedBy(a);
  }

  lemma {:induction false} TouchTwo(a: A.Operand, b: A.Operand)
    ensures TouchedByAll([a, b]) == TouchedBy(a) + TouchedBy(b)
  {
    hide TouchedBy;
    TouchOne(a);
    assert [a, b][..|[a, b]| - 1] == [a];
  }

  lemma {:induction false} TouchThree(a: A.Operand, b: A.Operand, c: A.Operand)
    ensures TouchedByAll([a, b, c]) == TouchedBy(a) + TouchedBy(b) + TouchedBy(c)
  {
    hide TouchedBy;
    TouchTwo(a, b);
    assert [a, b, c][..2] == [a, b];
  }

  lemma {:induction false} StateLoadTouches(d: nat, off: A.Int32)
    ensures Only(A.Ldr(A.X, A.V(d), A.V(0), off), d)
  {
    TouchTwo(A.RegOp(A.V(d)), A.MemOp(A.V(0)));
  }

  ghost predicate AllOnly(code: seq<A.Instr>, v: nat) {
    forall k :: 0 <= k < |code| ==> Only(code[k], v)
  }

  lemma {:induction false} ConstOnly(d: nat, val: Word)
    ensures ConstCode(A.V(d), val) != [] && AllOnly(ConstCode(A.V(d), val), d)
  {
    hide Only, Movk;
    if val / 0x1_0000 == 0 {
      OneRegOp(A.MovImm(A.V(d), val), d);
    } else {
      OneRegOp(A.MovZ(A.V(d), Low16(val)), d);
      MovkOnly(d, val / 0x1_0000 % 0x1_0000, 16);
      MovkOnly(d, val / 0x1_0000_0000 % 0x1_0000, 32);
      MovkOnly(d, val / 0x1_0000_0000_0000 % 0x1_0000, 48);
    }
  }

  lemma {:induction false} MovkOnly(d: nat, field: nat, lsl: nat)
    requires field < 0x1_0000
    ensures AllOnly(Movk(A.V(d), field, lsl), d)
  {
    hide Only;
    if field != 0 { OneRegOp(A.MovK(A.V(d), field, lsl), d); }
  }

  lemma {:induction false} LeafCode(i: IR.Instr, start: Word, size: nat, n: nat)
    requires i.dest == IR.Some(n) && (i.payload.ReadReg? || i.payload.GetPC? || i.payload.Const?) && n < size
    ensures
      var p := SelectInst(i, start, size);
      p.size == size && p.code != [] && AllOnly(p.code, n + 1) && (!i.payload.Const? ==> |p.code| == 1)
  {
    hide ConstCode, Only;
    if i.payload.Const? { ConstOnly(n + 1, i.payload.value); }
    else if i.payload.ReadReg? { StateLoadTouches(n + 1, 8 * i.payload.reg); }
    else { OneRegOp(A.MovImm(VReg(n), start), n + 1); }
  }

  /** The operation with its second operand in both places. */
  function Reread(i: A.Instr): A.Instr {
    match i
    case Alu(op, d, _, b) => A.Alu(op, d, b, b)
    case Cmp(_, b) => A.Cmp(b, b)
    case _ => i
  }

  /** The code of the operation: one instruction, or a comparison and the setting of its result. */
  predicate OperationCode(mid: seq<A.Instr>) {
    && 1 <= |mid| <= 2
    && (match mid[0]
        case Alu(_, d, a, b) => d == A.V(3) && a == A.V(1) && b == A.V(2)
        case Cmp(a, b) => a == A.V(1) && b == A.V(2)
        case _ => false)
    && (|mid| == 2 ==> mid[1].Cset? && mid[1].d == A.V(3))
  }

  lemma {:induction false} OperationIs(i: IR.Instr, start: Word, size: nat)
    requires i.dest == IR.Some(2) && (i.payload.BinOp? || i.payload.ICmp?) && size > 2
    requires i.payload.lhs == 0 && i.payload.rhs == 1
    ensures
      var p := SelectInst(i, start, size);
      var q := SelectInst(i.(payload := LhsIsOne(i.payload)), start, size);
      && p.size == size && q.size == size && OperationCode(p.code)
      && (i.payload.ICmp? ==> p.code[0].Cmp?)
      && (i.payload.BinOp? ==> |p.code| == 1 && p.code[0].Alu?)
      && q.code == [Reread(p.code[0])] + p.code[1..]
  {
    hide AluOf, CondOf;
  }

  /** The code in three parts, and the code of the twisted IR. */
  lemma {:induction false} CodeSplits(insts: seq<IR.Instr>, start: Word)
    returns (first: A.Instr, second: seq<A.Instr>, mid: seq<A.Instr>, tail: seq<A.Instr>)
    requires TwoValueHead(insts)
    ensures CodeOf(insts, start) == [first] + second + mid + tail
    ensures Only(first, 1) && second != [] && AllOnly(second, 2) && OperationCode(mid)
    ensures insts[2].payload.ICmp? ==> mid[0].Cmp?
    ensures insts[2].payload.BinOp? ==> |mid| == 1 && mid[0].Alu?
    ensures CodeOf(Twisted(insts), start) == [first] + second + ([Reread(mid[0])] + mid[1..]) + tail
    ensures OpAt(insts, start) == 1 + |second|
    ensures |SelectAll(insts[..3], start, |insts| + 1).code| == 1 + |second| + |mid|
  {
    hide SelectInst, LhsIsOne, IR.Operands, Only, AllOnly, OperationCode, Reread, SelectAll;
    var size := |insts| + 1;
    var a, b, c, rest := insts[0], insts[1], insts[2], insts[3..];
    var c' := c.(payload := LhsIsOne(c.payload));
    LeafCode(a, start, size, 0);
    LeafCode(b, start, size, 1);
    OperationIs(c, start, size);
    OperationParts(SelectInst(c, start, size).code);
    var code0 := SelectInst(a, start, size).code;
    first := code0[0];
    assert code0 == [first];
    FirstOnly(code0, 1);
    second := SelectInst(b, start, size).code;
    mid := SelectInst(c, start, size).code;
    tail := SelectAll(rest, start, size).code;
    FourParts(a, b, c, rest, start, size);
    FourParts(a, b, c', rest, start, size);
    assert insts == [a] + [b] + ([c] + rest);
    assert Twisted(insts) == [a] + [b] + ([c'] + rest);
    assert insts[..2] == [a] + [b] && insts[..3] == [a] + [b] + [c];
    assert CodeOf(insts, start) == [first] + second + mid + tail;
  }

  lemma {:induction false} FirstOnly(code: seq<A.Instr>, v: nat)
    requires AllOnly(code, v) && code != []
    ensures Only(code[0], v)
  {
    hide Only;
  }

  lemma {:induction false} OperationParts(mid: seq<A.Instr>)
    requires OperationCode(mid)
    ensures 1 <= |mid| <= 2
  {
  }

  lemma {:induction false} FourParts(a: IR.Instr, b: IR.Instr, c: IR.Instr, rest: seq<IR.Instr>, start: Word, size: nat)
    requires SelectInst(a, start, size).size == size && SelectInst(b, start, size).size == size
    requires SelectInst(c, start, size).size == size
    ensures SelectAll([a] + [b] + ([c] + rest), start, size).code ==
      SelectInst(a, start, size).code + SelectInst(b, start, size).code
      + SelectInst(c, start, size).code + SelectAll(rest, start, size).code
    ensures SelectAll([a] + [b], start, size).code == SelectInst(a, start, size).code + SelectInst(b, start, size).code
    ensures SelectAll([a] + [b] + [c], start, size).code ==
      SelectInst(a, start, size).code + SelectInst(b, start, size).code + SelectInst(c, start, size).code
  {
    hide SelectInst, SelectAll;
    SelectOneInst(a, start, size);
    SelectOneInst(b, start, size);
    SelectOneInst(c, start, size);
    SelectAppend([a], [b], start, size);
    SelectAppend([c], rest, start, size);
    SelectAppend([a] + [b], [c] + rest, start, size);
    SelectAppend([a] + [b], [c], start, size);
  }

  // ---------- The positions ----------

  lemma {:induction false} PieceFrom(insts: seq<IR.Instr>, start: Word, size: nat, j: nat, k: nat)
    requires j < |insts| && k >= |SelectAll(insts[..j], start, size).code|
    ensures j <= PieceAt(insts, start, size, k)
    decreases |insts|
  {
    hide SelectAll;
    var n := |insts| - 1;
    if k < |SelectAll(insts[..n], start, size).code| {
      assert insts[..n][..j] == insts[..j];
      PieceFrom(insts[..n], start, size, j, k);
    }
  }

  lemma {:induction false} WholeOfThree(insts: seq<IR.Instr>)
    requires |insts| >= 3
    ensures |insts| == 3 ==> insts[..3] == insts
  {
  }

  /** After the operation no register of the first two values is touched. */
  lemma {:induction false} TailTouches(insts: seq<IR.Instr>, start: Word, k: nat, v: nat)
    requires IR.Ssa(insts) && TwoValueHead(insts)
    requires |SelectAll(insts[..3], start, |insts| + 1).code| <= k < |CodeOf(insts, start)|
    requires v in T(CodeOf(insts, start)[k])
    ensures v >= 3
  {
    hide IR.Ssa, SelectAll, T, IR.Operands, IR.Produces, PieceAt;
    var size := |insts| + 1;
    PositionInFootprint(insts, start, size, k, v);
    var j := PieceAt(insts, start, size, k);
    WholeOfThree(insts);
    assert |insts| > 3;
    PieceFrom(insts, start, size, 3, k);
    SizeIsAbove(insts, start, size, j);
    FootprintParts(insts[j], j, SizeAt(insts, start, size, j), v);
  }

  /** What the positions of the code touch. */
  ghost predicate HeadTouches(code: seq<A.Instr>, s: nat) {
    && 2 <= s < |code|
    && Only(code[0], 1)
    && (forall k :: 0 < k < s ==> Only(code[k], 2))
    && (forall v :: v in T(code[s]) ==> 1 <= v <= 3)
    && 1 in T(code[s]) && 2 in T(code[s])
    && (forall k, v :: s < k < |code| && v in T(code[k]) ==> v >= 3)
  }

  lemma {:induction false} OperationTouches(mid: seq<A.Instr>)
    requires OperationCode(mid)
    ensures 1 in T(mid[0]) && 2 in T(mid[0]) && forall v :: v in T(mid[0]) ==> 1 <= v <= 3
    ensures |mid| == 2 ==> Only(mid[1], 3)
    ensures forall v :: v in T(Reread(mid[0])) ==> v in T(mid[0]) && v != 1
  {
    var i := mid[0];
    if i.Alu? {
      TouchThree(A.RegOp(i.d), A.RegOp(i.a), A.RegOp(i.b));
      TouchThree(A.RegOp(i.d), A.RegOp(i.b), A.RegOp(i.b));
    } else {
      TouchTwo(A.RegOp(i.a), A.RegOp(i.b));
      TouchTwo(A.RegOp(i.b), A.RegOp(i.b));
    }
    if |mid| == 2 { OneRegOp(mid[1], 3); }
  }

  lemma {:induction false} HeadIsTouched(insts: seq<IR.Instr>, start: Word)
    requires IR.Ssa(insts) && TwoValueHead(insts)
    ensures HeadTouches(CodeOf(insts, start), OpAt(insts, start))
    ensures |CodeOf(Twisted(insts), start)| == |CodeOf(insts, start)|
    ensures
      var s := OpAt(insts, start);
      && CodeOf(Twisted(insts), start) == CodeOf(insts, start)[s := Reread(CodeOf(insts, start)[s])]
      && (forall v :: v in T(Reread(CodeOf(insts, start)[s])) ==> v in T(CodeOf(insts, start)[s]) && v != 1)
      && OperationCode([CodeOf(insts, start)[s]])
      && (insts[2].payload.ICmp? ==> CodeOf(insts, start)[s].Cmp?)
      && (insts[2].payload.BinOp? ==>
            CodeOf(insts, start)[s].Alu? && |SelectAll(insts[..3], start, |insts| + 1).code| == s + 1)
  {
    hide IR.Ssa, CodeOf, OpAt, T, Only, SelectAll, OperationCode, Reread, IR.Operands, IR.Produces;
    var code, s := CodeOf(insts, start), OpAt(insts, start);
    var first, second, mid, tail := CodeSplits(insts, start);
    OperationParts(mid);
    OperationTouches(mid);
    FirstOfOperation(mid);
    assert code[0] == first && code[s] == mid[0];
    forall k | 0 < k < s ensures Only(code[k], 2) {
      assert code[k] == second[k - 1];
    }
    forall k, v | s < k < |code| && v in T(code[k]) ensures v >= 3 {
      if k < s + |mid| {
        assert code[k] == mid[k - s];
        OnlyThis(mid[1], 3);
      } else {
        TailTouches(insts, start, k, v);
      }
    }
  }

  lemma {:induction false} FirstOfOperation(mid: seq<A.Instr>)
    requires OperationCode(mid)
    ensures OperationCode([mid[0]])
  {
  }

  lemma {:induction false} OnlyThis(i: A.Instr, v: nat)
    ensures Only(i, v) ==> forall w :: w in T(i) <==> w == v
  {
    hide T;
  }
}
