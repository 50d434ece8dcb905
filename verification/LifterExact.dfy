/** The lowering of an instruction is right in every state exactly when it is Faithful: for
    every other decoded instruction there is a state in which the lifted code goes wrong. */
module LifterExact {
  import opened Words
  import R = Riscv
  import opened IR
  import opened Lifter
  import opened LifterTheorems

  lemma NothingChanges(inst: R.DecodedInst, start: Word, g: R.Guest)
    requires LiftInst(inst, 0) == [] && R.Exec(inst, g) != g
    ensures !Simulates(inst, start, State([], g))
  {
    hide LiftInst, R.Exec;
  }

  lemma WriteShows(rd: R.RegIndex, v: Word, w: Word)
    requires rd != 0 && v != w
    ensures R.SetReg(R.OneReg(rd, v), rd, w) != R.OneReg(rd, v) && R.ZeroX0(R.OneReg(rd, v))
  {
    assert map[rd := v][rd := w][rd] == w;
  }

  /** Unlifted register operations never produce 2^32: comparisons give 0 or 1, and 32-bit
      results are sign extensions. */
  lemma NeverTwoTo32(op: R.Opcode, a: Word, b: Word)
    requires op.SLT? || op.SLTI? || op.SLTU? || op.SLTIU? || op.SUBW? || op.SLLW? || op.SLLIW?
      || op.SRLW? || op.SRLIW? || op.SRAW? || op.SRAIW?
    ensures R.BinaryResult(op, a, b) != 0x1_0000_0000
  {
    hide Low32, Shl, Shr, Sar, Signed;
  }

  lemma UnliftedAlu(inst: R.DecodedInst)
    requires R.WellFormed(inst) && (inst.operands.RegRegImm? || inst.operands.RegRegReg?) && !HasLowering(inst.opcode)
    ensures inst.opcode.SLT? || inst.opcode.SLTI? || inst.opcode.SLTU? || inst.opcode.SLTIU? || inst.opcode.SUBW?
      || inst.opcode.SLLW? || inst.opcode.SLLIW? || inst.opcode.SRLW? || inst.opcode.SRLIW?
      || inst.opcode.SRAW? || inst.opcode.SRAIW?
  {
    hide R.SignedBelow;
  }

  lemma AluGoesWrong(inst: R.DecodedInst, start: Word) returns (g: R.Guest)
    requires R.WellFormed(inst) && (inst.operands.RegRegImm? || inst.operands.RegRegReg?) && !Faithful(inst, start)
    ensures R.ZeroX0(g) && !Simulates(inst, start, State([], g))
  {
    hide Simulates, R.BinaryResult, R.SetReg, R.Reg, R.ZeroX0, R.Bits, R.WellFormed;
    var rd := inst.operands.rd;
    g := R.OneReg(rd, 0x1_0000_0000);
    UnliftedAlu(inst);
    var b := if inst.operands.RegRegImm? then R.Bits(inst.operands.imm) else R.Reg(g.x, inst.operands.rs2);
    NeverTwoTo32(inst.opcode, R.Reg(g.x, inst.operands.rs1), b);
    WriteShows(rd, 0x1_0000_0000, R.BinaryResult(inst.opcode, R.Reg(g.x, inst.operands.rs1), b));
    NothingChanges(inst, start, g);
  }

  lemma LuiGoesWrong(inst: R.DecodedInst, start: Word) returns (g: R.Guest)
    requires inst.operands.RegImm? && inst.opcode.LUI? && inst.operands.rd != 0
    ensures R.ZeroX0(g) && !Simulates(inst, start, State([], g))
  {
    hide Simulates, R.SetReg, R.ZeroX0, R.Bits;
    var v := if R.Bits(inst.operands.imm) == 1 then 2 else 1;
    g := R.OneReg(inst.operands.rd, v);
    WriteShows(inst.operands.rd, v, R.Bits(inst.operands.imm));
    NothingChanges(inst, start, g);
  }

  lemma ReadsOfNothing(op: R.Opcode, a: Word)
    requires op.LB? || op.LBU? || op.LH? || op.LHU?
    ensures R.LoadResult(op, map[], a) == 0
  {
    hide Add;
    assert LoadBytes(map[], Add(a, 1), 1) == 0;
    assert LoadBytes(map[], a, 2) == 0;
  }

  lemma UnliftedLoad(inst: R.DecodedInst, start: Word)
    requires R.WellFormed(inst) && inst.operands.RegMem? && !Faithful(inst, start)
    ensures inst.opcode.LB? || inst.opcode.LBU? || inst.opcode.LH? || inst.opcode.LHU?
  {
    hide R.SignedBelow;
  }

  lemma LoadGoesWrong(inst: R.DecodedInst, start: Word) returns (g: R.Guest)
    requires R.WellFormed(inst) && inst.operands.RegMem? && !Faithful(inst, start)
    ensures R.ZeroX0(g) && !Simulates(inst, start, State([], g))
  {
    hide Simulates, R.LoadResult, R.SetReg, R.Reg, R.ZeroX0, R.Bits, Add, R.WellFormed;
    var rd := inst.operands.rd;
    g := R.OneReg(rd, 1);
    UnliftedLoad(inst, start);
    ReadsOfNothing(inst.opcode, Add(R.Reg(g.x, inst.operands.base), R.Bits(inst.operands.offset)));
    WriteShows(rd, 1, 0);
    NothingChanges(inst, start, g);
  }

  lemma UnliftedStore(inst: R.DecodedInst, start: Word)
    requires R.WellFormed(inst) && inst.operands.MemReg? && !Faithful(inst, start)
    ensures inst.opcode.SB? || inst.opcode.SH?
  {
    hide R.SignedBelow;
  }

  lemma ZeroedByte(a: Word, n: nat)
    requires n == 1 || n == 2
    ensures ByteAt(StoreBytes(map[a := 1], a, 0, n), a) == 0
  {
    var m1 := map[a := 1][a := 0];
    assert StoreBytes(map[a := 1], a, 0, n) == StoreBytes(m1, Add(a, 1), 0, n - 1);
    if n == 2 {
      assert StoreBytes(m1, Add(a, 1), 0, 1) == StoreBytes(m1[Add(a, 1) := 0], Add(Add(a, 1), 1), 0, 0);
    }
  }

  lemma StoreGoesWrong(inst: R.DecodedInst, start: Word) returns (g: R.Guest)
    requires R.WellFormed(inst) && inst.operands.MemReg? && !Faithful(inst, start)
    ensures R.ZeroX0(g) && !Simulates(inst, start, State([], g))
  {
    hide Simulates, R.Bits, StoreBytes, R.WellFormed;
    var a := R.Bits(inst.operands.offset);
    g := R.Guest(map[], map[a := 1]);
    UnliftedStore(inst, start);
    ZeroedByte(a, R.StoreSize(inst.opcode));
    assert Add(0, a) == a;
    assert ByteAt(g.mem, a) == 1;
    NothingChanges(inst, start, g);
  }

  lemma AuipcGoesWrong(inst: R.DecodedInst, start: Word) returns (g: R.Guest)
    requires inst.operands.RegImm? && inst.opcode.AUIPC? && inst.operands.rd != 0 && inst.pc != start
    ensures R.ZeroX0(g) && !Simulates(inst, start, State([], g))
  {
    hide RunLifted, R.Bits;
    g := R.OneReg(inst.operands.rd, 0);
    UpperSimulates(inst, start, State([], g));
    var here, there := Add(inst.pc, R.Bits(inst.operands.imm)), Add(start, R.Bits(inst.operands.imm));
    assert here != there;
    assert R.SetReg(g, inst.operands.rd, here).x[inst.operands.rd] == here;
    assert R.SetReg(g, inst.operands.rd, there).x[inst.operands.rd] == there;
  }

  lemma UnfaithfulGoesWrong(inst: R.DecodedInst, start: Word) returns (g: R.Guest)
    requires R.WellFormed(inst) && !Faithful(inst, start)
    ensures R.ZeroX0(g) && !Simulates(inst, start, State([], g))
  {
    hide Simulates, R.ZeroX0, R.SignedBelow;
    match inst.operands
    case RegImm(_, _) =>
      if inst.opcode.LUI? { g := LuiGoesWrong(inst, start); } else { g := AuipcGoesWrong(inst, start); }
    case RegMem(_, _, _) => g := LoadGoesWrong(inst, start);
    case MemReg(_, _, _) => g := StoreGoesWrong(inst, start);
    case _ => g := AluGoesWrong(inst, start);
  }

  /** A decoded instruction is lifted correctly for every state with x0 = 0 if and only if it is
      Faithful. */
  lemma LiftingIsExact(inst: R.DecodedInst, start: Word)
    requires R.WellFormed(inst)
    ensures (forall s: State :: R.ZeroX0(s.g) ==> Simulates(inst, start, s)) <==> Faithful(inst, start)
  {
    hide Simulates, Faithful, R.WellFormed, R.ZeroX0;
    if Faithful(inst, start) {
      forall s: State | R.ZeroX0(s.g) ensures Simulates(inst, start, s) {
        FaithfulSimulates(inst, start, s);
      }
    } else {
      var g := UnfaithfulGoesWrong(inst, start);
      var s := State([], g);
      assert R.ZeroX0(s.g) && !Simulates(inst, start, s);
    }
  }
}
