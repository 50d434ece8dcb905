/** Lifting preserves meaning: instruction by instruction exactly where it can, and then for
    whole blocks against the reference machine. */
module LifterTheorems {
  import opened Words
  import R = Riscv
  import opened IR
  import opened Lifter

  // ---------- When the lowering of an instruction means the instruction ----------

  /** The 64-bit operations with a case in the lifter. */
  predicate IsDoubleOp(op: R.Opcode) {
    op.ADDI? || op.ADD? || op.SUB? || op.ANDI? || op.AND? || op.ORI? || op.OR? || op.XORI? || op.XOR?
    || op.SLLI? || op.SLL? || op.SRLI? || op.SRL? || op.SRAI? || op.SRA?
  }

  predicate HasLowering(op: R.Opcode) {
    IsDoubleOp(op) || op.ADDIW? || op.ADDW?
  }

  /** The instructions whose lowering is right in a block starting at `start`: the opcodes with
      a case, and those whose only effect is a write to x0. The program counter of AUIPC is
      taken to be the start of the block. */
  predicate Faithful(inst: R.DecodedInst, start: Word) {
    match inst.operands
    case NoOperands => true
    case RegImm(rd, _) => inst.opcode.JAL? || rd == 0 || (inst.opcode.AUIPC? && inst.pc == start)
    case RegMem(rd, _, _) =>
      inst.opcode.LW? || inst.opcode.LWU? || inst.opcode.LD? || inst.opcode.JALR? || rd == 0
    case MemReg(_, _, _) => inst.opcode.SW? || inst.opcode.SD?
    case RegRegImm(rd, _, _) => HasLowering(inst.opcode) || rd == 0
    case Branch(_, _, _) => true
    case RegRegReg(rd, _, _) => HasLowering(inst.opcode) || rd == 0
  }

  function RunLifted(inst: R.DecodedInst, start: Word, s: State): Option<State> {
    Run(LiftInst(inst, |s.env|), start, Some(s))
  }

  function Num(v: Word): Value {
    Val(I64, v)
  }

  function Written(rd: R.RegIndex): seq<Value> {
    if rd == 0 then [] else [Nothing]
  }

  function AluValues(op: R.Opcode, a: Word, b: Word, rd: R.RegIndex): seq<Value> {
    var r := R.BinaryResult(op, a, b);
    if IsDoubleOp(op) then [Num(a), Num(b), Num(r)] + Written(rd)
    else if op.ADDIW? || op.ADDW? then
      [Num(a), Num(b), Num(Add(a, b)), Val(I32, Low32(Add(a, b))), Num(r)] + Written(rd)
    else []
  }

  /** The values an instruction defines, one for each IR instruction; one that writes a register or
      memory defines Nothing. */
  function Values(inst: R.DecodedInst, start: Word, g: R.Guest): seq<Value> {
    var op := inst.opcode;
    match inst.operands
    case NoOperands => []
    case RegImm(rd, imm) =>
      if op.AUIPC? then [Num(start), Num(R.Bits(imm)), Num(Add(start, R.Bits(imm)))] + Written(rd)
      else if op.JAL? then [Num(Add(inst.pc, 4))] + Written(rd)
      else []
    case RegMem(rd, base, off) =>
      var a := R.Reg(g.x, base);
      var place := Add(a, R.Bits(off));
      if op.LW? || op.LWU? then
        [Num(a), Val(I32, Load32(g.mem, place)), Num(R.LoadResult(op, g.mem, place))] + Written(rd)
      else if op.LD? then [Num(a), Num(Load64(g.mem, place))] + Written(rd)
      else if op.JALR? then
        [Num(a), Num(R.Bits(off)), Num(place), Num(0xFFFF_FFFF_FFFF_FFFE), Num(R.JalrTarget(a, off)),
         Num(Add(inst.pc, 4))] + Written(rd)
      else []
    case MemReg(base, _, rs) =>
      if op.SW? || op.SD? then [Num(R.Reg(g.x, base)), Num(R.Reg(g.x, rs)), Nothing] else []
    case RegRegImm(rd, rs1, imm) => AluValues(op, R.Reg(g.x, rs1), R.Bits(imm), rd)
    case Branch(rs1, rs2, _) =>
      var a, b := R.Reg(g.x, rs1), R.Reg(g.x, rs2);
      [Num(a), Num(b), Val(I1, R.Flag(R.BranchTaken(op, a, b)))]
    case RegRegReg(rd, rs1, rs2) => AluValues(op, R.Reg(g.x, rs1), R.Reg(g.x, rs2), rd)
  }

  /** The effect of the lifted instruction on the guest: AUIPC adds to the start of the block. */
  function LiftedEffect(inst: R.DecodedInst, start: Word, g: R.Guest): R.Guest {
    if inst.opcode.AUIPC? && inst.operands.RegImm? then
      R.SetReg(g, inst.operands.rd, Add(start, R.Bits(inst.operands.imm)))
    else if Faithful(inst, start) then R.Exec(inst, g)
    else g
  }

  /** The lifted instruction runs, defines these values and has this effect. */
  ghost predicate Traces(inst: R.DecodedInst, start: Word, s: State) {
    RunLifted(inst, start, s) == Some(State(s.env + Values(inst, start, s.g), LiftedEffect(inst, start, s.g)))
  }

  ghost predicate Simulates(inst: R.DecodedInst, start: Word, s: State) {
    GuestAfter(RunLifted(inst, start, s)) == Some(R.Exec(inst, s.g))
  }

  // ---------- Shared pieces ----------

  function Leaf(p: Payload, start: Word, g: R.Guest): Word
    requires p.ReadReg? || p.GetPC? || (p.Const? && p.ty == I64)
  {
    match p
    case ReadReg(r) => R.Slot(g.x, r)
    case GetPC => start
    case Const(_, v) => v
  }

  predicate IsLeaf(p: Payload) {
    p.ReadReg? || p.GetPC? || (p.Const? && p.ty == I64)
  }

  lemma LeafStep(p: Payload, start: Word, s: State)
    requires IsLeaf(p)
    ensures Then(Def(|s.env|, p), start, Some(s)) == Some(State(s.env + [Val(I64, Leaf(p, start, s.g))], s.g))
  {
  }

  lemma BinStep(k: BinOpKind, start: Word, env: seq<Value>, g: R.Guest, l: nat, r: nat)
    requires l < |env| && r < |env| && env[l].Val? && env[l].ty == I64 && env[r].Val? && env[r].ty == I64
    ensures Then(Def(|env|, BinOp(k, l, r, I64)), start, Some(State(env, g)))
      == Some(State(env + [Val(I64, Binary(k, env[l].n, env[r].n))], g))
  {
    hide Binary;
  }

  lemma {:induction false} Extended(env: seq<Value>, values: seq<Value>, last: seq<Value>)
    ensures (env + values) + last == env + (values + last)
  {
  }

  lemma WriteStep(rd: R.RegIndex, v: nat, start: Word, env: seq<Value>, g: R.Guest)
    requires Has(env, v, I64)
    ensures Run(Write(rd, v), start, Some(State(env, g))) == Some(State(env + Written(rd), R.SetReg(g, rd, env[v].n)))
  {
    assert env + [] == env;
    assert Write(rd, v) == Write(rd, v) + [];
    if rd != 0 {
      Run1(Instr(None, WriteReg(rd, v)), [], start, Some(State(env, g)));
    }
  }

  /** Two leaves and an operation on them, followed by anything. */
  lemma ThreeSteps(k: BinOpKind, p: Payload, q: Payload, rest: seq<Instr>, start: Word, s: State)
    requires IsLeaf(p) && IsLeaf(q)
    ensures
      var n := |s.env|;
      var a, b := Leaf(p, start, s.g), Leaf(q, start, s.g);
      Run([Def(n, p), Def(n + 1, q), Def(n + 2, BinOp(k, n, n + 1, I64))] + rest, start, Some(s))
      == Run(rest, start, Some(State(s.env + [Val(I64, a), Val(I64, b), Val(I64, Binary(k, a, b))], s.g)))
  {
    hide Then, Leaf, Binary, Run;
    var n := |s.env|;
    var a, b := Leaf(p, start, s.g), Leaf(q, start, s.g);
    var e1, e2 := s.env + [Val(I64, a)], s.env + [Val(I64, a), Val(I64, b)];
    assert e1 + [Val(I64, b)] == e2;
    Run3(Def(n, p), Def(n + 1, q), Def(n + 2, BinOp(k, n, n + 1, I64)), rest, start, Some(s));
    LeafStep(p, start, s);
    LeafIgnoresEnv(q, start, s, State(e1, s.g));
    LeafStep(q, start, State(e1, s.g));
    BinStep(k, start, e2, s.g, n, n + 1);
    assert e2 + [Val(I64, Binary(k, a, b))] == s.env + [Val(I64, a), Val(I64, b), Val(I64, Binary(k, a, b))];
  }

  lemma LeafIgnoresEnv(p: Payload, start: Word, s: State, t: State)
    requires IsLeaf(p) && s.g == t.g
    ensures Leaf(p, start, s.g) == Leaf(p, start, t.g)
  {
  }

  lemma {:induction false} KindIs(op: R.Opcode)
    ensures KindOf(op).Some? <==> IsDoubleOp(op)
  {
  }

  lemma KindAgrees(op: R.Opcode, a: Word, b: Word)
    ensures KindOf(op).Some? ==> R.BinaryResult(op, a, b) == Binary(KindOf(op).value, a, b)
  {
    hide Add, Sub, Bitwise, Shl, Shr, Sar, SExt32, Low32, Signed;
  }

  lemma WordAdd(a: Word, b: Word)
    ensures Low32(Add(a, b)) == Low32(Low32(a) + Low32(b))
  {
  }

  lemma Low32Again(a: int)
    ensures Low32(Low32(a)) == Low32(a)
  {
  }

  // ---------- The instructions with a lowering ----------

  lemma BinopSimulates(op: R.Opcode, p: Payload, q: Payload, rd: R.RegIndex, start: Word, s: State)
    requires IsLeaf(p) && IsLeaf(q) && IsDoubleOp(op)
    ensures
      var a, b := Leaf(p, start, s.g), Leaf(q, start, s.g);
      Run(Binop(op, p, q, rd, |s.env|), start, Some(s))
      == Some(State(s.env + AluValues(op, a, b, rd), R.SetReg(s.g, rd, R.BinaryResult(op, a, b))))
  {
    hide Run, Leaf, Binary, KindOf, Write, Written, IsDoubleOp, R.BinaryResult, R.SetReg;
    var n := |s.env|;
    var a, b := Leaf(p, start, s.g), Leaf(q, start, s.g);
    KindIs(op);
    KindAgrees(op, a, b);
    var k := KindOf(op).value;
    ThreeSteps(k, p, q, Write(rd, n + 2), start, s);
    WriteStep(rd, n + 2, start, s.env + [Val(I64, a), Val(I64, b), Val(I64, Binary(k, a, b))], s.g);
    Extended(s.env, [Num(a), Num(b), Num(Binary(k, a, b))], Written(rd));
  }

  lemma {:induction false} WordOpIs(op: R.Opcode, p: Payload, q: Payload, rd: R.RegIndex, n: nat)
    requires op.ADDIW? || op.ADDW?
    ensures Binop(op, p, q, rd, n) ==
      [Def(n, p), Def(n + 1, q), Def(n + 2, BinOp(AddOp, n, n + 1, I64))]
      + ([Def(n + 3, Trunc(n + 2, I32)), Def(n + 4, SExt(n + 3, I64))] + Write(rd, n + 4))
  {
    hide Write;
  }

  lemma {:induction false} WordResult(op: R.Opcode, a: Word, b: Word)
    requires op.ADDIW? || op.ADDW?
    ensures R.BinaryResult(op, a, b) == SExt32(Low32(Add(a, b)))
  {
    hide Add, Low32, SExt32;
    WordAdd(a, b);
  }

  lemma WordOpSimulates(op: R.Opcode, p: Payload, q: Payload, rd: R.RegIndex, start: Word, s: State)
    requires IsLeaf(p) && IsLeaf(q) && (op.ADDIW? || op.ADDW?)
    ensures
      var a, b := Leaf(p, start, s.g), Leaf(q, start, s.g);
      Run(Binop(op, p, q, rd, |s.env|), start, Some(s))
      == Some(State(s.env + AluValues(op, a, b, rd), R.SetReg(s.g, rd, R.BinaryResult(op, a, b))))
  {
    hide Run, Then, Leaf, Write, Written, R.SetReg, Add, Low32, SExt32, Binop, R.BinaryResult;
    var n := |s.env|;
    var a, b := Leaf(p, start, s.g), Leaf(q, start, s.g);
    var sum := Add(a, b);
    WordOpIs(op, p, q, rd, n);
    WordResult(op, a, b);
    var e3 := s.env + [Val(I64, a), Val(I64, b), Val(I64, sum)];
    var rest := Write(rd, n + 4);
    ThreeSteps(AddOp, p, q, [Def(n + 3, Trunc(n + 2, I32)), Def(n + 4, SExt(n + 3, I64))] + rest, start, s);
    Run2(Def(n + 3, Trunc(n + 2, I32)), Def(n + 4, SExt(n + 3, I64)), rest, start, Some(State(e3, s.g)));
    TruncSextSteps(start, e3, s.g, n + 2);
    var e5 := e3 + [Val(I32, Low32(sum)), Val(I64, SExt32(Low32(sum)))];
    WriteStep(rd, n + 4, start, e5, s.g);
    var more := [Num(a), Num(b), Num(sum), Val(I32, Low32(sum)), Num(SExt32(Low32(sum)))];
    assert e5 == s.env + more;
    Extended(s.env, more, Written(rd));
  }

  lemma TruncSextSteps(start: Word, env: seq<Value>, g: R.Guest, v: nat)
    requires Has(env, v, I64)
    ensures
      var n := |env|;
      Then(Def(n + 1, SExt(n, I64)), start, Then(Def(n, Trunc(v, I32)), start, Some(State(env, g))))
      == Some(State(env + [Val(I32, Low32(env[v].n)), Val(I64, SExt32(Low32(env[v].n)))], g))
  {
    hide SExt32, Low32;
    Low32Again(env[v].n);
    var e1 := env + [Val(I32, Low32(env[v].n))];
    assert e1 + [Val(I64, SExt32(Low32(env[v].n)))]
      == env + [Val(I32, Low32(env[v].n)), Val(I64, SExt32(Low32(env[v].n)))];
  }

  lemma LoadDoubleSimulates(inst: R.DecodedInst, start: Word, s: State)
    requires inst.operands.RegMem? && inst.opcode.LD? && R.ZeroX0(s.g)
    ensures Traces(inst, start, s)
  {
    hide Run, Then, Write, Written, R.SetReg, Add, R.Bits, Load32, Load64;
    var n := |s.env|;
    var RegMem(rd, base, off) := inst.operands;
    var a := R.Slot(s.g.x, base);
    var v := Load64(s.g.mem, Add(a, R.Bits(off)));
    var e1, e2 := s.env + [Num(a)], s.env + [Num(a), Num(v)];
    LeafStep(ReadReg(base), start, s);
    LoadStep(start, e1, s.g, n, R.Bits(off), I64);
    assert e1 + [Num(v)] == e2;
    Run2(Def(n, ReadReg(base)), Def(n + 1, Load(n, R.Bits(off), I64)), Write(rd, n + 1), start, Some(s));
    WriteStep(rd, n + 1, start, e2, s.g);
    Extended(s.env, [Num(a), Num(v)], Written(rd));
  }

  lemma LoadWordSimulates(inst: R.DecodedInst, start: Word, s: State)
    requires inst.operands.RegMem? && (inst.opcode.LW? || inst.opcode.LWU?) && R.ZeroX0(s.g)
    ensures Traces(inst, start, s)
  {
    hide Run, Then, Write, Written, R.SetReg, Add, SExt32, R.Bits, Load32, Load64;
    var n := |s.env|;
    var RegMem(rd, base, off) := inst.operands;
    var a := R.Slot(s.g.x, base);
    var v := Load32(s.g.mem, Add(a, R.Bits(off)));
    var e1, e2 := s.env + [Num(a)], s.env + [Num(a), Val(I32, v)];
    LeafStep(ReadReg(base), start, s);
    LoadStep(start, e1, s.g, n, R.Bits(off), I32);
    assert e1 + [Val(I32, v)] == e2;
    var ext := if inst.opcode.LW? then SExt(n + 1, I64) else ZExt(n + 1, I64);
    var w := if inst.opcode.LW? then SExt32(Low32(v)) else v;
    var load := Def(n + 1, Load(n, R.Bits(off), I32));
    Run3(Def(n, ReadReg(base)), load, Def(n + 2, ext), Write(rd, n + 2), start, Some(s));
    ExtStep(start, e2, s.g, n + 1, inst.opcode.LW?);
    WriteStep(rd, n + 2, start, e2 + [Num(w)], s.g);
    assert e2 + [Num(w)] == s.env + [Num(a), Val(I32, v), Num(w)];
    Extended(s.env, [Num(a), Val(I32, v), Num(w)], Written(rd));
  }

  lemma LoadStep(start: Word, env: seq<Value>, g: R.Guest, base: nat, off: Word, ty: Type)
    requires Has(env, base, I64) && ty != I1
    ensures Then(Def(|env|, Load(base, off, ty)), start, Some(State(env, g)))
      == Some(State(env + [Val(ty, LoadTyped(g.mem, Add(env[base].n, off), ty))], g))
  {
    hide Add, LoadTyped;
  }

  lemma ExtStep(start: Word, env: seq<Value>, g: R.Guest, v: nat, signed: bool)
    requires Has(env, v, I32)
    ensures Then(Def(|env|, if signed then SExt(v, I64) else ZExt(v, I64)), start, Some(State(env, g)))
      == Some(State(env + [Val(I64, if signed then SExt32(Low32(env[v].n)) else env[v].n)], g))
  {
    hide SExt32, Low32;
  }

  lemma StoreSimulates(inst: R.DecodedInst, start: Word, s: State)
    requires inst.operands.MemReg? && (inst.opcode.SW? || inst.opcode.SD?) && R.ZeroX0(s.g)
    ensures Traces(inst, start, s)
  {
    hide Run, Then, Add, R.Bits, StoreBytes;
    var n := |s.env|;
    var MemReg(base, off, rs) := inst.operands;
    var a, v := R.Slot(s.g.x, base), R.Slot(s.g.x, rs);
    var ty := if inst.opcode.SW? then I32 else I64;
    var e1, e2 := s.env + [Val(I64, a)], s.env + [Val(I64, a), Val(I64, v)];
    LeafStep(ReadReg(base), start, s);
    LeafStep(ReadReg(rs), start, State(e1, s.g));
    assert e1 + [Val(I64, v)] == e2;
    StoreStep(start, e2, s.g, n + 1, n, R.Bits(off), ty);
    var c := [Def(n, ReadReg(base)), Def(n + 1, ReadReg(rs)), Instr(None, Store(n + 1, n, R.Bits(off), ty))];
    Run3(c[0], c[1], c[2], [], start, Some(s));
    assert c + [] == LiftInst(inst, n);
    RunNothing(start, Then(c[2], start, Some(State(e2, s.g))));
    assert e2 + [Nothing] == s.env + [Num(a), Num(v), Nothing];
  }

  lemma RunNothing(start: Word, o: Option<State>)
    ensures Run([], start, o) == o
  {
  }

  lemma StoreStep(start: Word, env: seq<Value>, g: R.Guest, v: nat, base: nat, off: Word, ty: Type)
    requires Has(env, v, I64) && Has(env, base, I64) && ty != I1
    ensures Then(Instr(None, Store(v, base, off, ty)), start, Some(State(env, g)))
      == Some(State(env + [Nothing], g.(mem := StoreBytes(g.mem, Add(env[base].n, off), env[v].n, Bytes(ty)))))
  {
    hide Add, StoreBytes, Bytes;
  }

  /** A branch leaves the guest as it is and its last value says whether it is taken. */
  lemma BranchSimulates(inst: R.DecodedInst, start: Word, s: State)
    requires R.WellFormed(inst) && inst.operands.Branch? && R.ZeroX0(s.g)
    ensures Traces(inst, start, s) && Simulates(inst, start, s)
    ensures
      var taken := R.BranchTaken(inst.opcode, R.Reg(s.g.x, inst.operands.rs1), R.Reg(s.g.x, inst.operands.rs2));
      var env := RunLifted(inst, start, s).value.env;
      |env| == |s.env| + 3 && env[|s.env| + 2] == Val(I1, R.Flag(taken))
  {
    hide Run, Then, R.WellFormed, R.BranchTaken, CondOf, Compares, R.Flag;
    var n := |s.env|;
    var Branch(rs1, rs2, imm) := inst.operands;
    var a, b := R.Slot(s.g.x, rs1), R.Slot(s.g.x, rs2);
    var e1, e2 := s.env + [Val(I64, a)], s.env + [Val(I64, a), Val(I64, b)];
    LeafStep(ReadReg(rs1), start, s);
    LeafStep(ReadReg(rs2), start, State(e1, s.g));
    assert e1 + [Val(I64, b)] == e2;
    IcmpStep(start, e2, s.g, CondOf(inst.opcode), n, n + 1);
    BranchCondAgrees(inst, a, b);
    var c := LiftInst(inst, n);
    Run3(c[0], c[1], c[2], [], start, Some(s));
    assert c + [] == c;
    RunNothing(start, Then(c[2], start, Some(State(e2, s.g))));
    var cond := Val(I1, R.Flag(R.BranchTaken(inst.opcode, a, b)));
    assert e2 + [cond] == s.env + [Num(a), Num(b), cond];
  }

  lemma IcmpStep(start: Word, env: seq<Value>, g: R.Guest, c: ICmpCond, l: nat, r: nat)
    requires Has(env, l, I64) && Has(env, r, I64)
    ensures Then(Def(|env|, ICmp(c, l, r)), start, Some(State(env, g)))
      == Some(State(env + [Val(I1, R.Flag(Compares(c, env[l].n, env[r].n)))], g))
  {
    hide Compares;
  }

  lemma BranchCondAgrees(inst: R.DecodedInst, a: Word, b: Word)
    requires R.WellFormed(inst) && inst.operands.Branch?
    ensures Compares(CondOf(inst.opcode), a, b) == R.BranchTaken(inst.opcode, a, b)
  {
    hide Signed, R.SignedBelow;
  }

  lemma UpperSimulates(inst: R.DecodedInst, start: Word, s: State)
    requires inst.operands.RegImm? && (inst.opcode.JAL? || inst.opcode.AUIPC?)
    ensures Traces(inst, start, s)
  {
    hide Run, Then, Write, Written, R.SetReg, Add, R.Bits;
    var n := |s.env|;
    var RegImm(rd, imm) := inst.operands;
    if inst.opcode.JAL? {
      var ra := Add(inst.pc, 4);
      LeafStep(Const(I64, ra), start, s);
      Run1(Def(n, Const(I64, ra)), Write(rd, n), start, Some(s));
      WriteStep(rd, n, start, s.env + [Val(I64, ra)], s.g);
      Extended(s.env, [Num(ra)], Written(rd));
    } else {
      var sum := Add(start, R.Bits(imm));
      ThreeSteps(AddOp, GetPC, Const(I64, R.Bits(imm)), Write(rd, n + 2), start, s);
      WriteStep(rd, n + 2, start, s.env + [Val(I64, start), Val(I64, R.Bits(imm)), Val(I64, sum)], s.g);
      Extended(s.env, [Num(start), Num(R.Bits(imm)), Num(sum)], Written(rd));
    }
  }

  /** The mask of JALR clears the least-significant bit. */
  lemma {:induction false} MaskClearsLow(x: Word)
    ensures Bitwise(AndBits, x, 0xFFFF_FFFF_FFFF_FFFE) == x - x % 2
  {
    hide BitsUpTo, Pow2;
    Pow2At64();
    PowerAt63();
    AndOnes(x / 2, 63);
    FirstBits(AndBits, x, 0xFFFF_FFFF_FFFF_FFFE, 64);
  }

  lemma {:induction false} PowerAt63()
    ensures Pow2(63) == 0x8000_0000_0000_0000
  {
    hide Pow2;
    Pow2At64();
    assert Pow2(64) == 2 * Pow2(63) by { Doubles(64); }
  }

  lemma {:induction false} Doubles(n: nat)
    requires n > 0
    ensures Pow2(n) == 2 * Pow2(n - 1)
  {
  }

  lemma {:induction false} FirstBits(f: BitFn, a: nat, b: nat, n: nat)
    requires n > 0
    ensures BitsUpTo(f, a, b, n) == Bit(f, a % 2, b % 2) + 2 * BitsUpTo(f, a / 2, b / 2, n - 1)
  {
  }

  lemma {:induction false} AndOnes(a: nat, n: nat)
    requires a < Pow2(n)
    ensures Pow2(n) >= 1 && BitsUpTo(AndBits, a, Pow2(n) - 1, n) == a
    decreases n
  {
    if n > 0 { AndOnes(a / 2, n - 1); }
  }

  lemma JalrSimulates(inst: R.DecodedInst, start: Word, s: State)
    requires inst.operands.RegMem? && inst.opcode.JALR? && R.ZeroX0(s.g)
    ensures Traces(inst, start, s)
  {
    hide Run, Then, Write, Written, R.SetReg, Add, R.Bits, Bitwise;
    var n := |s.env|;
    var RegMem(rd, base, off) := inst.operands;
    var mask := 0xFFFF_FFFF_FFFF_FFFE;
    var ra := Add(inst.pc, 4);
    var a, b := R.Slot(s.g.x, base), R.Bits(off);
    var e3 := s.env + [Val(I64, a), Val(I64, b), Val(I64, Add(a, b))];
    var c3, c4 := Def(n + 3, Const(I64, mask)), Def(n + 4, BinOp(AndOp, n + 2, n + 3, I64));
    var c5 := Def(n + 5, Const(I64, ra));
    ThreeSteps(AddOp, ReadReg(base), Const(I64, b), [c3, c4, c5] + Write(rd, n + 5), start, s);
    Run3(c3, c4, c5, Write(rd, n + 5), start, Some(State(e3, s.g)));
    var e4 := e3 + [Val(I64, mask)];
    var e5 := e4 + [Val(I64, Bitwise(AndBits, Add(a, b), mask))];
    LeafStep(Const(I64, mask), start, State(e3, s.g));
    BinStep(AndOp, start, e4, s.g, n + 2, n + 3);
    LeafStep(Const(I64, ra), start, State(e5, s.g));
    WriteStep(rd, n + 5, start, e5 + [Val(I64, ra)], s.g);
    MaskClearsLow(Add(a, b));
    var more := [Num(a), Num(b), Num(Add(a, b)), Num(mask), Num(R.JalrTarget(a, off)), Num(ra)];
    assert e5 + [Val(I64, ra)] == s.env + more;
    Extended(s.env, more, Written(rd));
  }

  lemma AluSimulates(inst: R.DecodedInst, start: Word, s: State)
    requires (inst.operands.RegRegImm? || inst.operands.RegRegReg?) && HasLowering(inst.opcode) && R.ZeroX0(s.g)
    ensures Traces(inst, start, s)
  {
    hide Run, KindOf, Binop, R.BinaryResult, R.SetReg, R.Bits, IsDoubleOp, AluValues;
    var p := ReadReg(inst.operands.rs1);
    var q := if inst.operands.RegRegImm? then Const(I64, R.Bits(inst.operands.imm)) else ReadReg(inst.operands.rs2);
    if IsDoubleOp(inst.opcode) {
      BinopSimulates(inst.opcode, p, q, inst.operands.rd, start, s);
    } else {
      WordOpSimulates(inst.opcode, p, q, inst.operands.rd, start, s);
    }
  }

  /** An instruction without a lowering is lifted to nothing: it defines no value and changes
      nothing. */
  lemma {:induction false} UnliftedIsNothing(inst: R.DecodedInst, start: Word, s: State)
    requires R.WellFormed(inst) && Unlifted(inst)
    ensures RunLifted(inst, start, s) == Some(s)
    ensures Traces(inst, start, s)
  {
    hide R.BinaryResult, R.LoadResult, R.Bits, R.SignedBelow, KindOf, IsDoubleOp;
    KindIs(inst.opcode);
    RunNothing(start, Some(s));
    assert s.env + [] == s.env;
  }

  /** The opcodes without a case. */
  predicate Unlifted(inst: R.DecodedInst) {
    match inst.operands
    case NoOperands => true
    case RegImm(_, _) => inst.opcode.LUI?
    case RegMem(_, _, _) => inst.opcode.LB? || inst.opcode.LBU? || inst.opcode.LH? || inst.opcode.LHU?
    case MemReg(_, _, _) => inst.opcode.SB? || inst.opcode.SH?
    case RegRegImm(_, _, _) => !HasLowering(inst.opcode)
    case Branch(_, _, _) => false
    case RegRegReg(_, _, _) => !HasLowering(inst.opcode)
  }

  lemma {:induction false} OtherOpcodes(inst: R.DecodedInst)
    requires R.WellFormed(inst)
    ensures inst.operands.RegImm? ==> inst.opcode.LUI? || inst.opcode.AUIPC? || inst.opcode.JAL?
    ensures inst.opcode.AUIPC? ==> inst.operands.RegImm? && !Unlifted(inst)
    ensures inst.operands.RegMem? && !Unlifted(inst) ==>
      inst.opcode.LW? || inst.opcode.LWU? || inst.opcode.LD? || inst.opcode.JALR?
    ensures inst.operands.MemReg? && !Unlifted(inst) ==> inst.opcode.SW? || inst.opcode.SD?
  {
    hide R.SignedBelow, R.Bits;
  }

  /** What every lifted instruction does, whatever its opcode. */
  lemma {:induction false} LiftedRuns(inst: R.DecodedInst, start: Word, s: State)
    requires R.WellFormed(inst) && R.ZeroX0(s.g)
    ensures Traces(inst, start, s)
  {
    hide Traces, Simulates, R.ZeroX0, R.WellFormed, HasLowering;
    OtherOpcodes(inst);
    if Unlifted(inst) {
      UnliftedIsNothing(inst, start, s);
    } else {
      match inst.operands
      case RegImm(_, _) => UpperSimulates(inst, start, s);
      case RegMem(_, _, _) =>
        if inst.opcode.JALR? { JalrSimulates(inst, start, s); }
        else if inst.opcode.LD? { LoadDoubleSimulates(inst, start, s); }
        else { LoadWordSimulates(inst, start, s); }
      case MemReg(_, _, _) => StoreSimulates(inst, start, s);
      case RegRegImm(_, _, _) => AluSimulates(inst, start, s);
      case Branch(_, _, _) => BranchSimulates(inst, start, s);
      case RegRegReg(_, _, _) => AluSimulates(inst, start, s);
      case NoOperands =>
    }
  }

  /** A decoded instruction that is not faithful does nothing: the guest is as before and no value is
      defined. AUIPC is the exception: it gives its register the start of the block plus its
      immediate. */
  lemma {:induction false} UnfaithfulDoesNothing(inst: R.DecodedInst, start: Word, s: State)
    requires R.WellFormed(inst) && !Faithful(inst, start)
    ensures !inst.opcode.AUIPC? ==> RunLifted(inst, start, s) == Some(s)
    ensures inst.opcode.AUIPC? ==>
      && inst.operands.RegImm?
      && GuestAfter(RunLifted(inst, start, s))
        == Some(R.SetReg(s.g, inst.operands.rd, Add(start, R.Bits(inst.operands.imm))))
  {
    hide RunLifted, R.SetReg, R.Bits, Values, R.WellFormed, HasLowering;
    OtherOpcodes(inst);
    if Unlifted(inst) {
      UnliftedIsNothing(inst, start, s);
    } else {
      OnlyAuipc(inst, start);
      UpperSimulates(inst, start, s);
    }
  }

  lemma {:induction false} OnlyAuipc(inst: R.DecodedInst, start: Word)
    requires R.WellFormed(inst) && !Faithful(inst, start) && !Unlifted(inst)
    ensures inst.opcode.AUIPC? && inst.operands.RegImm?
  {
    hide R.WellFormed, HasLowering;
    OtherOpcodes(inst);
  }

  lemma {:induction false} FaithfulEffect(inst: R.DecodedInst, start: Word, g: R.Guest)
    requires Faithful(inst, start)
    ensures LiftedEffect(inst, start, g) == R.Exec(inst, g)
  {
    hide HasLowering, R.BinaryResult, R.LoadResult, R.Bits, Add, StoreBytes;
  }

  lemma FaithfulSimulates(inst: R.DecodedInst, start: Word, s: State)
    requires R.WellFormed(inst) && Faithful(inst, start) && R.ZeroX0(s.g)
    ensures Simulates(inst, start, s)
  {
    hide R.Exec, Faithful, R.ZeroX0, R.WellFormed, RunLifted, LiftedEffect, Values;
    LiftedRuns(inst, start, s);
    FaithfulEffect(inst, start, s.g);
  }
}
