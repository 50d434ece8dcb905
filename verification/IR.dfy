/** The block-local SSA intermediate representation and its meaning. The value id of an
    instruction is its index in the block. */
module IR {
  import opened Words
  import opened Riscv

  datatype Option<+T> = None | Some(value: T)

  datatype Type = I1 | I8 | I16 | I32 | I64

  type ValueId = nat

  datatype BinOpKind = AddOp | SubOp | AndOp | OrOp | XorOp | ShlOp | LShrOp | AShrOp

  datatype ICmpCond = EQ | NE | ULT | ULE | UGT | UGE | SLT | SLE | SGT | SGE

  datatype Payload =
    | Const(ty: Type, value: Word)
    | ReadReg(reg: RegIndex)
    | WriteReg(reg: RegIndex, v: ValueId)
    | BinOp(kind: BinOpKind, lhs: ValueId, rhs: ValueId, ty: Type)
    | ICmp(cond: ICmpCond, lhs: ValueId, rhs: ValueId)
    | ZExt(src: ValueId, to: Type)
    | SExt(src: ValueId, to: Type)
    | Trunc(src: ValueId, to: Type)
    | Load(base: ValueId, offset: Word, ty: Type)
    | Store(v: ValueId, base: ValueId, offset: Word, ty: Type)
    | GetPC

  datatype Instr = Instr(dest: Option<ValueId>, payload: Payload)

  datatype Terminator =
    | NoTerm
    | Br(target: Word)
    | CBr(cond: ValueId, t: Word, f: Word)
    | BrIndirect(value: ValueId)
    | Ret
    | Trap

  datatype Block = Block(start: Word, insts: seq<Instr>, term: Terminator)

  predicate Produces(p: Payload) {
    !p.WriteReg? && !p.Store?
  }

  function Operands(p: Payload): seq<ValueId> {
    match p
    case Const(_, _) => []
    case ReadReg(_) => []
    case WriteReg(_, v) => [v]
    case BinOp(_, lhs, rhs, _) => [lhs, rhs]
    case ICmp(_, lhs, rhs) => [lhs, rhs]
    case ZExt(src, _) => [src]
    case SExt(src, _) => [src]
    case Trunc(src, _) => [src]
    case Load(base, _, _) => [base]
    case Store(v, base, _, _) => [base, v]
    case GetPC => []
  }

  // ---------- Meaning ----------

  /** A typed value; an instruction without a result leaves Nothing at its index. */
  datatype Value = Nothing | Val(ty: Type, n: Word)

  datatype State = State(env: seq<Value>, g: Guest)

  function Truncate(ty: Type, v: Word): Word {
    match ty
    case I1 => v % 2
    case I8 => Low8(v)
    case I16 => Low16(v)
    case I32 => Low32(v)
    case I64 => v
  }

  function Bytes(ty: Type): nat {
    match ty
    case I1 => 1
    case I8 => 1
    case I16 => 2
    case I32 => 4
    case I64 => 8
  }

  function LoadTyped(m: Memory, a: Word, ty: Type): Word {
    match ty
    case I1 => ByteAt(m, a)
    case I8 => ByteAt(m, a)
    case I16 => Load16(m, a)
    case I32 => Load32(m, a)
    case I64 => Load64(m, a)
  }

  function Binary(k: BinOpKind, a: Word, b: Word): Word {
    match k
    case AddOp => Add(a, b)
    case SubOp => Sub(a, b)
    case AndOp => Bitwise(AndBits, a, b)
    case OrOp => Bitwise(OrBits, a, b)
    case XorOp => Bitwise(XorBits, a, b)
    case ShlOp => Shl(a, b % 64)
    case LShrOp => Shr(a, b % 64)
    case AShrOp => Sar(a, b % 64)
  }

  predicate Compares(c: ICmpCond, a: Word, b: Word) {
    match c
    case EQ => a == b
    case NE => a != b
    case ULT => a < b
    case ULE => a <= b
    case UGT => a > b
    case UGE => a >= b
    case SLT => Signed(a) < Signed(b)
    case SLE => Signed(a) <= Signed(b)
    case SGT => Signed(a) > Signed(b)
    case SGE => Signed(a) >= Signed(b)
  }

  predicate Has(env: seq<Value>, id: ValueId, ty: Type) {
    id < |env| && env[id].Val? && env[id].ty == ty
  }

  /** Appends the result of an instruction, which must be named by its own index. */
  function Define(i: Instr, s: State, v: Value): Option<State> {
    if i.dest == Some(|s.env|) then Some(State(s.env + [v], s.g)) else None
  }

  function Effect(i: Instr, s: State, g: Guest): Option<State> {
    if i.dest == None then Some(State(s.env + [Nothing], g)) else None
  }

  /** One instruction; None when its operands are missing or have the wrong type. */
  function Step(i: Instr, start: Word, s: State): Option<State> {
    match i.payload
    case Const(ty, value) =>
      if ty == I1 && value > 1 then None else Define(i, s, Val(ty, Truncate(ty, value)))
    case ReadReg(r) => Define(i, s, Val(I64, Slot(s.g.x, r)))
    case WriteReg(r, v) =>
      if Has(s.env, v, I64) then Effect(i, s, s.g.(x := s.g.x[r := s.env[v].n])) else None
    case BinOp(k, lhs, rhs, ty) =>
      if ty == I64 && Has(s.env, lhs, I64) && Has(s.env, rhs, I64) then
        Define(i, s, Val(I64, Binary(k, s.env[lhs].n, s.env[rhs].n)))
      else None
    case ICmp(c, lhs, rhs) =>
      if Has(s.env, lhs, I64) && Has(s.env, rhs, I64) then
        Define(i, s, Val(I1, Flag(Compares(c, s.env[lhs].n, s.env[rhs].n))))
      else None
    case ZExt(src, to) =>
      if to == I64 && Has(s.env, src, I32) then Define(i, s, Val(I64, s.env[src].n)) else None
    case SExt(src, to) =>
      if to == I64 && Has(s.env, src, I32) then Define(i, s, Val(I64, SExt32(Low32(s.env[src].n)))) else None
    case Trunc(src, to) =>
      if to != I1 && Has(s.env, src, I64) then Define(i, s, Val(to, Truncate(to, s.env[src].n))) else None
    case Load(base, off, ty) =>
      if ty != I1 && Has(s.env, base, I64) then
        Define(i, s, Val(ty, LoadTyped(s.g.mem, Add(s.env[base].n, off), ty)))
      else None
    case Store(v, base, off, ty) =>
      if ty != I1 && Has(s.env, v, I64) && Has(s.env, base, I64) then
        Effect(i, s, s.g.(mem := StoreBytes(s.g.mem, Add(s.env[base].n, off), s.env[v].n, Bytes(ty))))
      else None
    case GetPC => Define(i, s, Val(I64, start))
  }

  function Then(i: Instr, start: Word, o: Option<State>): Option<State> {
    match o
    case None => None
    case Some(s) => Step(i, start, s)
  }

  function Run(insts: seq<Instr>, start: Word, o: Option<State>): Option<State> {
    if insts == [] then o else Run(insts[1..], start, Then(insts[0], start, o))
  }

  function GuestAfter(o: Option<State>): Option<Guest> {
    match o
    case None => None
    case Some(s) => Some(s.g)
  }

  lemma {:induction false} RunAppend(a: seq<Instr>, b: seq<Instr>, start: Word, o: Option<State>)
    ensures Run(a + b, start, o) == Run(b, start, Run(a, start, o))
    decreases |a|
  {
    hide Then;
    if a == [] {
      assert a + b == b;
    } else {
      assert (a + b)[1..] == a[1..] + b;
      RunAppend(a[1..], b, start, Then(a[0], start, o));
    }
  }

  lemma Run1(a: Instr, rest: seq<Instr>, start: Word, o: Option<State>)
    ensures Run([a] + rest, start, o) == Run(rest, start, Then(a, start, o))
  {
    hide Then;
    assert ([a] + rest)[1..] == rest;
  }

  lemma Run2(a: Instr, b: Instr, rest: seq<Instr>, start: Word, o: Option<State>)
    ensures Run([a, b] + rest, start, o) == Run(rest, start, Then(b, start, Then(a, start, o)))
  {
    hide Then;
    assert [a, b] + rest == [a] + ([b] + rest);
    Run1(a, [b] + rest, start, o);
    Run1(b, rest, start, Then(a, start, o));
  }

  lemma Run3(a: Instr, b: Instr, c: Instr, rest: seq<Instr>, start: Word, o: Option<State>)
    ensures Run([a, b, c] + rest, start, o) == Run(rest, start, Then(c, start, Then(b, start, Then(a, start, o))))
  {
    hide Then;
    assert [a, b, c] + rest == [a, b] + ([c] + rest);
    Run2(a, b, [c] + rest, start, o);
    Run1(c, rest, start, Then(b, start, Then(a, start, o)));
  }

  /** Each instruction adds one entry to the environment and keeps the others. */
  lemma {:induction false} RunGrows(insts: seq<Instr>, start: Word, s: State)
    requires Run(insts, start, Some(s)).Some?
    ensures s.env <= Run(insts, start, Some(s)).value.env
    ensures |Run(insts, start, Some(s)).value.env| == |s.env| + |insts|
    decreases |insts|
  {
    if insts != [] {
      StepGrows(insts[0], start, s);
      NoneStays(insts[1..], start);
      var t := Then(insts[0], start, Some(s));
      RunGrows(insts[1..], start, t.value);
    }
  }

  lemma StepGrows(i: Instr, start: Word, s: State)
    ensures Step(i, start, s).Some? ==>
      s.env <= Step(i, start, s).value.env && |Step(i, start, s).value.env| == |s.env| + 1
  {
    hide Has, Truncate, Binary, Compares, LoadTyped, StoreBytes, Bytes, SExt32, Low32, Slot, Add;
  }

  lemma {:induction false} NoneStays(insts: seq<Instr>, start: Word)
    ensures Run(insts, start, None) == None
    decreases |insts|
  {
    hide Step;
    if insts != [] {
      NoneStays(insts[1..], start);
    }
  }

  // ---------- Static single assignment ----------

  /** The instructions of one guest instruction, numbered from n: each result is named by its
      index, and operands are results of this same piece. */
  ghost predicate LocalSsa(c: seq<Instr>, n: nat) {
    forall i :: 0 <= i < |c| ==>
      && c[i].dest == (if Produces(c[i].payload) then Some(n + i) else None)
      && forall v :: v in Operands(c[i].payload) ==> n <= v < n + i && Produces(c[v - n].payload)
  }

  /** Each result is named by its own index and operands name earlier results. */
  ghost predicate Ssa(insts: seq<Instr>) {
    forall i :: 0 <= i < |insts| ==>
      && insts[i].dest == (if Produces(insts[i].payload) then Some(i) else None)
      && forall v :: v in Operands(insts[i].payload) ==> v < i && Produces(insts[v].payload)
  }

  lemma SsaAppend(p: seq<Instr>, c: seq<Instr>)
    requires Ssa(p) && LocalSsa(c, |p|)
    ensures Ssa(p + c)
  {
    hide Operands, Produces;
    var all := p + c;
    forall i | 0 <= i < |all|
      ensures all[i].dest == (if Produces(all[i].payload) then Some(i) else None)
      ensures forall v :: v in Operands(all[i].payload) ==> v < i && Produces(all[v].payload)
    {
      if i < |p| {
        assert all[i] == p[i];
        forall v | v in Operands(p[i].payload) ensures v < i && Produces(all[v].payload) {
          assert all[v] == p[v];
        }
      } else {
        var k := i - |p|;
        assert all[i] == c[k];
        forall v | v in Operands(c[k].payload) ensures v < i && Produces(all[v].payload) {
          assert all[v] == c[v - |p|];
        }
      }
    }
  }
}
