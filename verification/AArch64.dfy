/** The A64 instructions the back end uses, over virtual or physical registers, and what they
    do (Arm Architecture Reference Manual, DDI 0487, section C6.2). */
module AArch64 {
  import opened Words
  import IR

  /** V(v) is a virtual register, P(p) the physical register xp. */
  datatype Reg = V(v: nat) | P(p: nat)

  datatype AluOp = AddX | SubX | AndX | OrrX | EorX | LslX | LsrX | AsrX

  datatype Width = B | H | W | X

  datatype Cond = Eq | Ne | Lo | Ls | Hi | Hs | Lt | Le | Gt | Ge

  type Int32 = x: int | -0x8000_0000 <= x < 0x8000_0000

  datatype Instr =
    | MovImm(d: Reg, imm: Word)
    | MovReg(d: Reg, s: Reg)
    | MovZ(d: Reg, imm: Word)
    | MovK(d: Reg, imm: Word, lsl: nat)
    | Alu(op: AluOp, d: Reg, a: Reg, b: Reg)
    | Ldr(w: Width, d: Reg, base: Reg, off: Int32)
    | Str(w: Width, s: Reg, base: Reg, off: Int32)
    | Cmp(a: Reg, b: Reg)
    | Cset(cc: Cond, d: Reg)
    | Sxtw(d: Reg, s: Reg)
    | Uxtw(d: Reg, s: Reg)

  /** The operand list of an instruction, in order. */
  datatype Operand = RegOp(r: Reg) | ImmOp | MemOp(base: Reg)

  function Operands(i: Instr): seq<Operand> {
    match i
    case MovImm(d, _) => [RegOp(d), ImmOp]
    case MovReg(d, s) => [RegOp(d), RegOp(s)]
    case MovZ(d, _) => [RegOp(d), ImmOp]
    case MovK(d, _, _) => [RegOp(d), ImmOp, ImmOp]
    case Alu(_, d, a, b) => [RegOp(d), RegOp(a), RegOp(b)]
    case Ldr(_, d, base, _) => [RegOp(d), MemOp(base)]
    case Str(_, s, base, _) => [RegOp(s), MemOp(base)]
    case Cmp(a, b) => [RegOp(a), RegOp(b)]
    case Cset(_, d) => [RegOp(d)]
    case Sxtw(d, s) => [RegOp(d), RegOp(s)]
    case Uxtw(d, s) => [RegOp(d), RegOp(s)]
  }

  /** How control leaves a block of virtual-register code. */
  datatype Terminator =
    | NoTerm
    | Br(target: string)
    | CBr(cond: nat, t: string, f: string)
    | BrIndirect(target_reg: nat)
    | Ret
    | Trap

  datatype Block = Block(guestPc: Word, instrs: seq<Instr>, term: Terminator)

  // ---------- Meaning ----------

  datatype Flags = Flags(n: bool, z: bool, c: bool, v: bool)

  /** Registers, condition flags, the guest state structure that x0 points to (8-byte slots by
      byte offset), and the rest of host memory. */
  datatype Machine = Machine(regs: map<Reg, Word>, flags: Flags, slots: map<int, Word>, mem: Memory)

  function Get(regs: map<Reg, Word>, r: Reg): Word {
    if r in regs then regs[r] else 0
  }

  function SlotAt(slots: map<int, Word>, off: int): Word {
    if off in slots then slots[off] else 0
  }

  /** A memory operand based on virtual register 0 or on x0 addresses the guest state. */
  predicate IsState(base: Reg) {
    base == V(0) || base == P(0)
  }

  function Compare(a: Word, b: Word): Flags {
    var r := Sub(a, b);
    var d := Signed(a) - Signed(b);
    Flags(r >= 0x8000_0000_0000_0000, r == 0, a >= b,
          d < -0x8000_0000_0000_0000 || d >= 0x8000_0000_0000_0000)
  }

  predicate Holds(cc: Cond, f: Flags) {
    match cc
    case Eq => f.z
    case Ne => !f.z
    case Lo => !f.c
    case Ls => !f.c || f.z
    case Hi => f.c && !f.z
    case Hs => f.c
    case Lt => f.n != f.v
    case Le => f.z || f.n != f.v
    case Gt => !f.z && f.n == f.v
    case Ge => f.n == f.v
  }

  function AluResult(op: AluOp, a: Word, b: Word): Word {
    match op
    case AddX => Add(a, b)
    case SubX => Sub(a, b)
    case AndX => Bitwise(AndBits, a, b)
    case OrrX => Bitwise(OrBits, a, b)
    case EorX => Bitwise(XorBits, a, b)
    case LslX => Shl(a, b % 64)
    case LsrX => Shr(a, b % 64)
    case AsrX => Sar(a, b % 64)
  }

  /** MOVK: the 16-bit field at lsl becomes the immediate, the others stay. */
  function Insert16(x: Word, imm: Word, lsl: nat): Word {
    var i := Low16(imm);
    if lsl == 0 then x - x % 0x1_0000 + i
    else if lsl == 16 then x - x / 0x1_0000 % 0x1_0000 * 0x1_0000 + i * 0x1_0000
    else if lsl == 32 then x - x / 0x1_0000_0000 % 0x1_0000 * 0x1_0000_0000 + i * 0x1_0000_0000
    else x % 0x1_0000_0000_0000 + i * 0x1_0000_0000_0000
  }

  function BytesOf(w: Width): nat {
    match w case B => 1 case H => 2 case W => 4 case X => 8
  }

  /** Narrow loads zero-extend. */
  function LoadWidth(m: Memory, a: Word, w: Width): Word {
    match w
    case B => ByteAt(m, a)
    case H => Load16(m, a)
    case W => Load32(m, a)
    case X => Load64(m, a)
  }

  function Narrow(w: Width, v: Word): Word {
    match w case B => Low8(v) case H => Low16(v) case W => Low32(v) case X => v
  }

  function Address(m: Machine, base: Reg, off: Int32): Word {
    Add(Get(m.regs, base), FromSigned(off))
  }

  /** The register an instruction defines. */
  function Dest(i: Instr): IR.Option<Reg> {
    match i
    case Str(_, _, _, _) => IR.None
    case Cmp(_, _) => IR.None
    case _ => IR.Some(i.d)
  }

  /** The registers whose contents an instruction reads. */
  function Uses(i: Instr): seq<Reg> {
    match i
    case MovImm(_, _) => []
    case MovReg(_, s) => [s]
    case MovZ(_, _) => []
    case MovK(d, _, _) => [d]
    case Alu(_, _, a, b) => [a, b]
    case Ldr(_, _, base, _) => if IsState(base) then [] else [base]
    case Str(_, s, base, _) => if IsState(base) then [s] else [s, base]
    case Cmp(a, b) => [a, b]
    case Cset(_, _) => []
    case Sxtw(_, s) => [s]
    case Uxtw(_, s) => [s]
  }

  /** The value an instruction defines, 0 for those that define none. */
  function Result(i: Instr, m: Machine): Word {
    match i
    case MovImm(_, imm) => imm
    case MovReg(_, s) => Get(m.regs, s)
    case MovZ(_, imm) => Low16(imm)
    case MovK(d, imm, lsl) => Insert16(Get(m.regs, d), imm, lsl)
    case Alu(op, _, a, b) => AluResult(op, Get(m.regs, a), Get(m.regs, b))
    case Ldr(w, _, base, off) =>
      if IsState(base) then Narrow(w, SlotAt(m.slots, off)) else LoadWidth(m.mem, Address(m, base, off), w)
    case Str(_, _, _, _) => 0
    case Cmp(_, _) => 0
    case Cset(cc, _) => if Holds(cc, m.flags) then 1 else 0
    case Sxtw(_, s) => SExt32(Low32(Get(m.regs, s)))
    case Uxtw(_, s) => Low32(Get(m.regs, s))
  }

  function FlagsAfter(i: Instr, m: Machine): Flags {
    if i.Cmp? then Compare(Get(m.regs, i.a), Get(m.regs, i.b)) else m.flags
  }

  function SlotsAfter(i: Instr, m: Machine): map<int, Word> {
    if i.Str? && IsState(i.base) then m.slots[i.off := Narrow(i.w, Get(m.regs, i.s))] else m.slots
  }

  function MemAfter(i: Instr, m: Machine): Memory {
    if i.Str? && !IsState(i.base) then
      StoreBytes(m.mem, Address(m, i.base, i.off), Get(m.regs, i.s), BytesOf(i.w))
    else m.mem
  }

  function RegsAfter(i: Instr, m: Machine): map<Reg, Word> {
    match Dest(i)
    case None => m.regs
    case Some(d) => m.regs[d := Result(i, m)]
  }

  function Exec(i: Instr, m: Machine): Machine {
    Machine(RegsAfter(i, m), FlagsAfter(i, m), SlotsAfter(i, m), MemAfter(i, m))
  }

  function Run(code: seq<Instr>, m: Machine): Machine
    decreases |code|
  {
    if code == [] then m else Run(code[1..], Exec(code[0], m))
  }

  lemma {:induction false} RunAppend(a: seq<Instr>, b: seq<Instr>, m: Machine)
    ensures Run(a + b, m) == Run(b, Run(a, m))
    decreases |a|
  {
    hide Exec;
    if a == [] {
      assert a + b == b;
    } else {
      assert (a + b)[1..] == a[1..] + b;
      RunAppend(a[1..], b, Exec(a[0], m));
    }
  }

  lemma Run1(a: Instr, m: Machine)
    ensures Run([a], m) == Exec(a, m)
  {
    hide Exec;
    assert [a][1..] == [];
  }

  lemma Run2(a: Instr, b: Instr, m: Machine)
    ensures Run([a, b], m) == Exec(b, Exec(a, m))
  {
    hide Exec;
    assert [a, b][1..] == [b];
    Run1(b, Exec(a, m));
  }

  // ---------- Condition codes and constants ----------

  /** After a comparison each condition holds exactly when the relation it is named for does. */
  lemma ConditionsMean(a: Word, b: Word)
    ensures Holds(Eq, Compare(a, b)) <==> a == b
    ensures Holds(Ne, Compare(a, b)) <==> a != b
    ensures Holds(Lo, Compare(a, b)) <==> a < b
    ensures Holds(Ls, Compare(a, b)) <==> a <= b
    ensures Holds(Hi, Compare(a, b)) <==> a > b
    ensures Holds(Hs, Compare(a, b)) <==> a >= b
    ensures Holds(Lt, Compare(a, b)) <==> Signed(a) < Signed(b)
    ensures Holds(Le, Compare(a, b)) <==> Signed(a) <= Signed(b)
    ensures Holds(Gt, Compare(a, b)) <==> Signed(a) > Signed(b)
    ensures Holds(Ge, Compare(a, b)) <==> Signed(a) >= Signed(b)
  {
  }
}
