/** Emitting blocks: virtual registers replaced by their assignment, a prologue, a terminator and
    the address tables. Lines are structured instructions and labels, not text. */
module Emitter {
  import opened Words
  import opened Labels
  import IR
  import A = AArch64
  import Liveness

  datatype Line =
    | Op(i: A.Instr)
    | CmpZero(p: nat)
    | BNe(target: string)
    | Jmp(target: string)
    | Bl(target: string)
    | RetLine
    | Brk

  type Assignment = map<nat, nat>

  /** Every virtual register of the operands has a physical one; base 0 is the state pointer. */
  predicate MappedOps(ops: seq<A.Operand>, v2p: Assignment) {
    forall j :: 0 <= j < |ops| ==>
      match ops[j]
      case RegOp(V(v)) => v in v2p
      case MemOp(V(v)) => v == 0 || v in v2p
      case _ => true
  }

  predicate Mapped(b: A.Block, v2p: Assignment) {
    && (forall k :: 0 <= k < |b.instrs| ==> MappedOps(A.Operands(b.instrs[k]), v2p))
    && (forall v :: v in Liveness.TouchedByTerm(b.term) ==> v in v2p)
  }

  function MapReg(r: A.Reg, v2p: Assignment): A.Reg {
    match r
    case V(v) => if v in v2p then A.P(v2p[v]) else r
    case P(_) => r
  }

  function MapBase(r: A.Reg, v2p: Assignment): A.Reg {
    if r == A.V(0) then A.P(0) else MapReg(r, v2p)
  }

  function MapInstr(i: A.Instr, v2p: Assignment): A.Instr {
    match i
    case MovImm(d, imm) => A.MovImm(MapReg(d, v2p), imm)
    case MovReg(d, s) => A.MovReg(MapReg(d, v2p), MapReg(s, v2p))
    case MovZ(d, imm) => A.MovZ(MapReg(d, v2p), imm)
    case MovK(d, imm, lsl) => A.MovK(MapReg(d, v2p), imm, lsl)
    case Alu(op, d, a, b) => A.Alu(op, MapReg(d, v2p), MapReg(a, v2p), MapReg(b, v2p))
    case Ldr(w, d, base, off) => A.Ldr(w, MapReg(d, v2p), MapBase(base, v2p), off)
    case Str(w, s, base, off) => A.Str(w, MapReg(s, v2p), MapBase(base, v2p), off)
    case Cmp(a, b) => A.Cmp(MapReg(a, v2p), MapReg(b, v2p))
    case Cset(cc, d) => A.Cset(cc, MapReg(d, v2p))
    case Sxtw(d, s) => A.Sxtw(MapReg(d, v2p), MapReg(s, v2p))
    case Uxtw(d, s) => A.Uxtw(MapReg(d, v2p), MapReg(s, v2p))
  }

  function Body(instrs: seq<A.Instr>, v2p: Assignment): seq<Line> {
    if instrs == [] then [] else [Op(MapInstr(instrs[0], v2p))] + Body(instrs[1..], v2p)
  }

  const DISPATCH: string := "_riscy_indirect_jump"

  function TermLines(t: A.Terminator, v2p: Assignment): seq<Line> {
    match t
    case Br(target) => [Jmp(target)]
    case CBr(cond, t, f) => [CmpZero(if cond in v2p then v2p[cond] else 0), BNe(t), Jmp(f)]
    case BrIndirect(v) => [Op(A.MovReg(A.P(1), MapReg(A.V(v), v2p))), Bl(DISPATCH)]
    case Ret => [RetLine]
    case Trap => [Brk]
    case NoTerm => []
  }

  /** The guest memory base is loaded from byte 256 of the guest state. */
  const PROLOGUE: Line := Op(A.Ldr(A.X, A.P(21), A.P(0), 256))

  function BlockLines(b: A.Block, v2p: Assignment): seq<Line> {
    [PROLOGUE] + (Body(b.instrs, v2p) + TermLines(b.term, v2p))
  }

  datatype Code = Code(name: string, lines: seq<Line>)

  /** The entry address, the tables of block addresses and block labels, and the blocks. */
  datatype Module = Module(entryPc: Word, addrs: seq<Word>, ptrs: seq<string>, blocks: seq<Code>)

  function EmittedBlocks(blocks: seq<A.Block>, asgs: seq<Assignment>): seq<Code>
    requires |blocks| == |asgs|
  {
    if blocks == [] then []
    else
      var n := |blocks| - 1;
      EmittedBlocks(blocks[..n], asgs[..n]) + [Code(Label(blocks[n].guestPc), BlockLines(blocks[n], asgs[n]))]
  }

  function Addresses(blocks: seq<A.Block>): seq<Word> {
    seq(|blocks|, i requires 0 <= i < |blocks| => blocks[i].guestPc)
  }

  function LabelsOf(addrs: seq<Word>): seq<string> {
    seq(|addrs|, i requires 0 <= i < |addrs| => Label(addrs[i]))
  }

  function Emitted(blocks: seq<A.Block>, asgs: seq<Assignment>, entryPc: Word): Module
    requires |blocks| == |asgs|
  {
    Module(entryPc, Addresses(blocks), LabelsOf(Addresses(blocks)), EmittedBlocks(blocks, asgs))
  }

  // ---------- The emitter ----------

  /** None stands for the abort on a register without an assignment. */
  method MapOrAbort(r: A.Reg, v2p: Assignment) returns (r': IR.Option<A.Reg>)
    ensures r' == if r.V? && r.v !in v2p then IR.None else IR.Some(MapReg(r, v2p))
  {
    match r {
      case V(v) => if v in v2p { r' := IR.Some(A.P(v2p[v])); } else { r' := IR.None; }
      case P(_) => r' := IR.Some(r);
    }
  }

  /** As MapOrAbort, for the base of a memory operand. */
  method MapBaseOrAbort(r: A.Reg, v2p: Assignment) returns (r': IR.Option<A.Reg>)
    ensures r' == if r.V? && r.v != 0 && r.v !in v2p then IR.None else IR.Some(MapBase(r, v2p))
  {
    if r == A.V(0) {
      r' := IR.Some(A.P(0));
    } else {
      r' := MapOrAbort(r, v2p);
    }
  }

  predicate RegMapped(r: A.Reg, v2p: Assignment) {
    r.V? ==> r.v in v2p
  }

  predicate BaseMapped(r: A.Reg, v2p: Assignment) {
    r.V? && r.v != 0 ==> r.v in v2p
  }

  predicate OpMapped(op: A.Operand, v2p: Assignment) {
    match op
    case RegOp(r) => RegMapped(r, v2p)
    case MemOp(base) => BaseMapped(base, v2p)
    case ImmOp => true
  }

  lemma {:induction false} OperandsMapped(i: A.Instr, v2p: Assignment)
    ensures
      var ops := A.Operands(i);
      && 1 <= |ops| <= 3
      && (MappedOps(ops, v2p) <==>
            OpMapped(ops[0], v2p) && (|ops| > 1 ==> OpMapped(ops[1], v2p)) && (|ops| > 2 ==> OpMapped(ops[2], v2p)))
  {
    hide A.Operands;
    OperandCount(i);
    var ops := A.Operands(i);
    forall j | 0 <= j < |ops|
      ensures OpMapped(ops[j], v2p) <==>
        match ops[j] case RegOp(V(v)) => v in v2p case MemOp(V(v)) => v == 0 || v in v2p case _ => true
    {
    }
  }

  lemma {:induction false} OperandCount(i: A.Instr)
    ensures 1 <= |A.Operands(i)| <= 3
  {
  }

  /** Two registers of an instruction. */
  method MapTwo(d: A.Reg, s: A.Reg, v2p: Assignment) returns (ok: bool, pd: A.Reg, ps: A.Reg)
    ensures ok <==> RegMapped(d, v2p) && RegMapped(s, v2p)
    ensures ok ==> pd == MapReg(d, v2p) && ps == MapReg(s, v2p)
  {
    hide MapReg;
    pd, ps := d, s;
    var a := MapOrAbort(d, v2p);
    if a.None? { return false, pd, ps; }
    var b := MapOrAbort(s, v2p);
    if b.None? { return false, pd, ps; }
    return true, a.value, b.value;
  }

  /** A register and the base of a memory operand. */
  method MapMemory(r: A.Reg, base: A.Reg, v2p: Assignment) returns (ok: bool, pr: A.Reg, pbase: A.Reg)
    ensures ok <==> RegMapped(r, v2p) && BaseMapped(base, v2p)
    ensures ok ==> pr == MapReg(r, v2p) && pbase == MapBase(base, v2p)
  {
    hide MapReg, MapBase;
    pr, pbase := r, base;
    var a := MapOrAbort(r, v2p);
    if a.None? { return false, pr, pbase; }
    var b := MapBaseOrAbort(base, v2p);
    if b.None? { return false, pr, pbase; }
    return true, a.value, b.value;
  }

  method EmitInstr(i: A.Instr, v2p: Assignment) returns (line: IR.Option<Line>)
    ensures line.Some? <==> MappedOps(A.Operands(i), v2p)
    ensures line.Some? ==> line.value == Op(MapInstr(i, v2p))
  {
    hide MapReg, MapBase, RegMapped, BaseMapped, MappedOps;
    OperandsMapped(i, v2p);
    var ok, a, b, c;
    match i {
      case MovImm(d, imm) =>
        ok, a, b := MapTwo(d, d, v2p);
        line := if ok then IR.Some(Op(A.MovImm(a, imm))) else IR.None;
      case MovReg(d, s) =>
        ok, a, b := MapTwo(d, s, v2p);
        line := if ok then IR.Some(Op(A.MovReg(a, b))) else IR.None;
      case MovZ(d, imm) =>
        ok, a, b := MapTwo(d, d, v2p);
        line := if ok then IR.Some(Op(A.MovZ(a, imm))) else IR.None;
      case MovK(d, imm, lsl) =>
        ok, a, b := MapTwo(d, d, v2p);
        line := if ok then IR.Some(Op(A.MovK(a, imm, lsl))) else IR.None;
      case Alu(op, d, x, y) =>
        ok, a, b := MapTwo(d, x, v2p);
        if !ok { return IR.None; }
        ok, b, c := MapTwo(x, y, v2p);
        line := if ok then IR.Some(Op(A.Alu(op, a, b, c))) else IR.None;
      case Ldr(w, d, base, off) =>
        ok, a, b := MapMemory(d, base, v2p);
        line := if ok then IR.Some(Op(A.Ldr(w, a, b, off))) else IR.None;
      case Str(w, s, base, off) =>
        ok, a, b := MapMemory(s, base, v2p);
        line := if ok then IR.Some(Op(A.Str(w, a, b, off))) else IR.None;
      case Cmp(x, y) =>
        ok, a, b := MapTwo(x, y, v2p);
        line := if ok then IR.Some(Op(A.Cmp(a, b))) else IR.None;
      case Cset(cc, d) =>
        ok, a, b := MapTwo(d, d, v2p);
        line := if ok then IR.Some(Op(A.Cset(cc, a))) else IR.None;
      case Sxtw(d, s) =>
        ok, a, b := MapTwo(d, s, v2p);
        line := if ok then IR.Some(Op(A.Sxtw(a, b))) else IR.None;
      case Uxtw(d, s) =>
        ok, a, b := MapTwo(d, s, v2p);
        line := if ok then IR.Some(Op(A.Uxtw(a, b))) else IR.None;
    }
  }

  method EmitBody(instrs: seq<A.Instr>, v2p: Assignment) returns (lines: IR.Option<seq<Line>>)
    ensures lines.Some? <==> forall k :: 0 <= k < |instrs| ==> MappedOps(A.Operands(instrs[k]), v2p)
    ensures lines.Some? ==> lines.value == Body(instrs, v2p)
  {
    hide MapInstr, MappedOps, A.Operands;
    var out: seq<Line> := [];
    var k := 0;
    while k < |instrs|
      invariant 0 <= k <= |instrs|
      invariant forall j :: 0 <= j < k ==> MappedOps(A.Operands(instrs[j]), v2p)
      invariant out + Body(instrs[k..], v2p) == Body(instrs, v2p)
    {
      var line := EmitInstr(instrs[k], v2p);
      if line.None? {
        return IR.None;
      }
      assert instrs[k..][1..] == instrs[k + 1..];
      out := out + [line.value];
      k := k + 1;
    }
    lines := IR.Some(out);
  }

  method EmitBlock(b: A.Block, v2p: Assignment) returns (lines: IR.Option<seq<Line>>)
    ensures lines.Some? <==> Mapped(b, v2p)
    ensures lines.Some? ==> lines.value == BlockLines(b, v2p)
  {
    hide Body, MappedOps, A.Operands, MapInstr;
    var body := EmitBody(b.instrs, v2p);
    if body.None? {
      return IR.None;
    }
    match b.term {
      case CBr(cond, _, _) =>
        assert cond in Liveness.TouchedByTerm(b.term);
        if cond !in v2p { return IR.None; }
      case BrIndirect(v) =>
        assert v in Liveness.TouchedByTerm(b.term);
        if v !in v2p { return IR.None; }
      case _ =>
    }
    lines := IR.Some([PROLOGUE] + (body.value + TermLines(b.term, v2p)));
  }

  method Emit(blocks: seq<A.Block>, asgs: seq<Assignment>, entryPc: Word) returns (o: IR.Option<Module>)
    requires |blocks| == |asgs|
    ensures o.Some? <==> forall i :: 0 <= i < |blocks| ==> Mapped(blocks[i], asgs[i])
    ensures o.Some? ==> o.value == Emitted(blocks, asgs, entryPc)
  {
    hide Mapped, BlockLines, Label;
    var addrs: seq<Word> := [];
    for i := 0 to |blocks|
      invariant addrs == Addresses(blocks)[..i]
    {
      addrs := addrs + [blocks[i].guestPc];
    }
    var ptrs: seq<string> := [];
    for i := 0 to |addrs|
      invariant ptrs == LabelsOf(addrs)[..i]
    {
      ptrs := ptrs + [Label(addrs[i])];
    }
    var out: seq<Code> := [];
    for i := 0 to |blocks|
      invariant forall j :: 0 <= j < i ==> Mapped(blocks[j], asgs[j])
      invariant out == EmittedBlocks(blocks[..i], asgs[..i])
    {
      var lines := EmitBlock(blocks[i], asgs[i]);
      if lines.None? {
        return IR.None;
      }
      assert blocks[..i + 1][..i] == blocks[..i] && asgs[..i + 1][..i] == asgs[..i];
      out := out + [Code(Label(blocks[i].guestPc), lines.value)];
    }
    assert blocks[..|blocks|] == blocks && asgs[..|asgs|] == asgs;
    o := IR.Some(Module(entryPc, addrs, ptrs, out));
  }

  // ---------- Running lines ----------

  datatype Exit = Goto(target: string) | Call(target: string) | Returned | Broke | FellOff

  datatype Halt = Halt(m: A.Machine, exit: Exit)

  function RunLines(lines: seq<Line>, m: A.Machine): Halt
    decreases |lines|
  {
    if lines == [] then Halt(m, FellOff)
    else
      match lines[0]
      case Op(i) => RunLines(lines[1..], A.Exec(i, m))
      case CmpZero(p) => RunLines(lines[1..], m.(flags := A.Compare(A.Get(m.regs, A.P(p)), 0)))
      case BNe(target) =>
        if A.Holds(A.Ne, m.flags) then Halt(m, Goto(target)) else RunLines(lines[1..], m)
      case Jmp(target) => Halt(m, Goto(target))
      case Bl(target) => Halt(m, Call(target))
      case RetLine => Halt(m, Returned)
      case Brk => Halt(m, Broke)
  }

  function MapAll(instrs: seq<A.Instr>, v2p: Assignment): seq<A.Instr> {
    if instrs == [] then [] else [MapInstr(instrs[0], v2p)] + MapAll(instrs[1..], v2p)
  }

  /** Straight-line code runs to its end and then the rest follows. */
  lemma {:induction false} BodyRuns(instrs: seq<A.Instr>, v2p: Assignment, rest: seq<Line>, m: A.Machine)
    ensures RunLines(Body(instrs, v2p) + rest, m) == RunLines(rest, A.Run(MapAll(instrs, v2p), m))
    decreases |instrs|
  {
    hide A.Exec, MapInstr;
    if instrs == [] {
      assert Body(instrs, v2p) + rest == rest;
    } else {
      var first := MapInstr(instrs[0], v2p);
      assert (Body(instrs, v2p) + rest)[1..] == Body(instrs[1..], v2p) + rest;
      assert MapAll(instrs, v2p)[1..] == MapAll(instrs[1..], v2p);
      BodyRuns(instrs[1..], v2p, rest, A.Exec(first, m));
    }
  }
}
