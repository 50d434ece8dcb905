/** A machine that follows the RISC-V manual where the reference machine follows the translator: it
    reads words as the manual does, and a jump to a target that is not aligned traps on the jump
    itself (Volume I, section 2.5). */
module ManualMachine {
  import opened Words
  import opened Riscv
  import opened Decoder
  import opened Reference
  import opened Manual

  ghost function ManualFetch(code: Code, pc: Word): Result {
    if pc % 4 != 0 then Failure(MisalignedPC)
    else if pc !in code then Failure(OOBRead)
    else
      match ManualDecode(code[pc])
      case Invalid => Failure(InvalidOpcode)
      case Ok(opcode, operands) => Success(DecodedInst(pc, opcode, operands))
  }

  /** A taken branch or jump to a misaligned target writes nothing and traps. */
  function ManualExecute(fetched: Result, g: Guest): Config {
    match fetched
    case Failure(_) => Stopped(TrapStop, g)
    case Success(inst) =>
      if IsTrap(inst.opcode) then Stopped(TrapStop, g)
      else if NextPc(inst, g) % 4 != 0 then Stopped(TrapStop, g)
      else if IsReturn(inst) then Stopped(ReturnStop, Exec(inst, g))
      else if IsIndirect(inst) then Stopped(IndirectStop, Exec(inst, g))
      else Running(NextPc(inst, g), Exec(inst, g))
  }

  ghost function ManualStep(code: Code, c: Config): Config {
    match c
    case Stopped(_, _) => c
    case Running(pc, g) => ManualExecute(ManualFetch(code, pc), g)
  }

  ghost function ManualRun(code: Code, c: Config, k: nat): Config {
    if k == 0 then c else ManualStep(code, ManualRun(code, c, k - 1))
  }

  // ---------- Jumps ----------

  /** The same configuration, or the trap of a jump that the reference machine takes only when it
      fetches from the misaligned target. */
  predicate Matches(c: Config, d: Config) {
    c == d || (d.Running? && d.pc % 4 != 0 && c == Stopped(TrapStop, d.g))
  }

  /** Jumps that can be seen to write their link, or to stop, where the manual traps: told from
      opcode, registers and immediate. */
  predicate Strays(inst: DecodedInst) {
    match inst.operands
    case RegImm(rd, imm) => inst.opcode.JAL? && rd != 0 && Bits(imm) % 4 != 0
    case RegMem(_, base, off) => inst.opcode.JALR? && !(base == 0 && JalrTarget(0, off) % 4 == 0)
    case _ => false
  }

  lemma {:induction false} SumAligned(pc: Word, b: Word)
    requires pc % 4 == 0
    ensures Add(pc, b) % 4 == 0 <==> b % 4 == 0
  {
  }

  lemma {:induction false} TargetsDiffer(off: Imm)
    ensures JalrTarget(0, off) % 4 != 0 || JalrTarget(2, off) % 4 != 0
  {
    hide Bits;
  }

  predicate StepsAlike(inst: DecodedInst, g: Guest) {
    Matches(ManualExecute(Success(inst), g), Execute(Success(inst), g))
  }

  lemma {:induction false} JalAlike(inst: DecodedInst, g: Guest)
    requires inst.opcode.JAL? && inst.operands.RegImm? && inst.pc % 4 == 0
    ensures StepsAlike(inst, g) <==>
      Bits(inst.operands.imm) % 4 == 0 || SetReg(g, inst.operands.rd, Add(inst.pc, 4)) == g
  {
    hide Bits, Add, SetReg;
    SumAligned(inst.pc, Bits(inst.operands.imm));
  }

  lemma {:induction false} JalrAlike(inst: DecodedInst, g: Guest)
    requires inst.opcode.JALR? && inst.operands.RegMem?
    ensures StepsAlike(inst, g) <==> JalrTarget(Reg(g.x, inst.operands.base), inst.operands.offset) % 4 == 0
  {
    hide Bits, Add, SetReg, JalrTarget;
  }

  lemma {:induction false} BranchAlike(inst: DecodedInst, g: Guest)
    requires inst.operands.Branch? && IsCondBranch(inst.opcode)
    ensures StepsAlike(inst, g)
  {
    hide Bits, Add, BranchTaken;
  }

  lemma {:induction false} StraightAlike(inst: DecodedInst, g: Guest)
    requires WellFormed(inst) && inst.pc % 4 == 0 && !inst.operands.Branch? && !inst.opcode.JAL? && !inst.opcode.JALR?
    ensures StepsAlike(inst, g)
  {
    hide Exec, Bits, WellFormed;
    SumAligned(inst.pc, 4);
  }

  lemma {:induction false} Shapes(inst: DecodedInst)
    requires WellFormed(inst)
    ensures inst.operands.Branch? ==> IsCondBranch(inst.opcode)
    ensures inst.opcode.JAL? <==> inst.operands.RegImm? && inst.opcode.JAL?
    ensures inst.opcode.JALR? ==> inst.operands.RegMem?
  {
    hide SignedBelow;
  }

  lemma {:induction false} SetShows(rd: RegIndex, v: Word)
    requires rd != 0
    ensures exists g :: ZeroX0(g) && SetReg(g, rd, v) != g
  {
    var w := if v == 0 then 1 else 0;
    var g := OneReg(rd, w);
    OneRegReads(rd, w);
    assert g.x[rd := v][rd] == v;
    assert ZeroX0(g) && SetReg(g, rd, v) != g;
  }

  /** An instruction at an aligned address steps as the manual says, for every guest with x0 = 0, if
      and only if it is no JAL with a link register and a target of odd half-word, and no JALR other
      than one with base x0 and an aligned target. */
  lemma {:induction false} StraysExactly(inst: DecodedInst)
    requires WellFormed(inst) && inst.pc % 4 == 0
    ensures (forall g :: ZeroX0(g) ==> StepsAlike(inst, g)) <==> !Strays(inst)
  {
    hide WellFormed, StepsAlike, ZeroX0, SetReg, JalrTarget, Bits, Add, Reg;
    Shapes(inst);
    if inst.opcode.JAL? && inst.operands.RegImm? {
      forall g | ZeroX0(g) ensures StepsAlike(inst, g) <==>
        Bits(inst.operands.imm) % 4 == 0 || SetReg(g, inst.operands.rd, Add(inst.pc, 4)) == g
      {
        JalAlike(inst, g);
      }
      if inst.operands.rd != 0 { SetShows(inst.operands.rd, Add(inst.pc, 4)); }
      NoSet(Add(inst.pc, 4));
    } else if inst.opcode.JALR? {
      JalrStrays(inst);
    } else {
      forall g | ZeroX0(g) ensures StepsAlike(inst, g) {
        if inst.operands.Branch? { BranchAlike(inst, g); } else { StraightAlike(inst, g); }
      }
      NoJumpNoStray(inst);
    }
  }

  lemma {:induction false} NoSet(v: Word)
    ensures forall g :: SetReg(g, 0, v) == g
  {
  }

  lemma {:induction false} NoJumpNoStray(inst: DecodedInst)
    requires !inst.opcode.JAL? && !inst.opcode.JALR?
    ensures !Strays(inst)
  {
  }

  lemma {:induction false} JalrStrays(inst: DecodedInst)
    requires inst.opcode.JALR? && inst.operands.RegMem?
    ensures (forall g :: ZeroX0(g) ==> StepsAlike(inst, g)) <==> !Strays(inst)
  {
    hide StepsAlike, ZeroX0, JalrTarget, Reg;
    var RegMem(_, base, off) := inst.operands;
    forall g | ZeroX0(g) ensures StepsAlike(inst, g) <==> JalrTarget(Reg(g.x, base), off) % 4 == 0 {
      JalrAlike(inst, g);
    }
    NoRegReads();
    if base == 0 {
      forall g: Guest ensures Reg(g.x, base) == 0 { ReadsZero(g); }
    } else {
      OneRegReads(base, 0);
      OneRegReads(base, 2);
      TargetsDiffer(off);
      assert !StepsAlike(inst, OneReg(base, 0)) || !StepsAlike(inst, OneReg(base, 2));
    }
  }

  lemma {:induction false} ReadsZero(g: Guest)
    ensures Reg(g.x, 0) == 0
  {
  }

  // ---------- Runs ----------

  /** The decoder reads a word as the manual does, told from the word. */
  predicate ReadAsManual(w: bv32) {
    !LongShiftWord(w) && (DecodeWord(w).Ok? ==> LegalFields(w))
  }

  /** What the manual's machine fetches in its first k steps is read as the manual does, and steps
      as the manual says. */
  ghost predicate FollowsManual(code: Code, c: Config, k: nat) {
    forall j: nat :: j < k ==>
      var d := ManualRun(code, c, j);
      d.Running? && d.pc % 4 == 0 && d.pc in code ==>
        && ReadAsManual(code[d.pc])
        && (Decode(code, d.pc).Success? ==> StepsAlike(Decode(code, d.pc).inst, d.g))
  }

  lemma {:induction false} FollowsFewer(code: Code, c: Config, j: nat, k: nat)
    requires FollowsManual(code, c, k) && j <= k
    ensures FollowsManual(code, c, j)
  {
    hide ManualRun, ReadAsManual, Decode, StepsAlike;
  }

  lemma {:induction false} ReadIsDecode(w: bv32)
    requires ReadAsManual(w)
    ensures DecodeWord(w) == ManualDecode(w)
  {
    hide DecodeWord, ManualDecode, LongShiftWord, LegalFields;
    DecodersAgreeExactly(w);
  }

  lemma {:induction false} FetchedAlike(code: Code, pc: Word)
    requires pc % 4 == 0 && pc in code ==> ReadAsManual(code[pc])
    ensures ManualFetch(code, pc) == Decode(code, pc)
  {
    hide DecodeWord, ManualDecode, ReadAsManual;
    if pc % 4 == 0 && pc in code { ReadIsDecode(code[pc]); }
  }

  lemma {:induction false} StepMatches(code: Code, d: Config)
    requires d.Running?
    requires d.pc % 4 == 0 && d.pc in code ==>
      ReadAsManual(code[d.pc]) && (Decode(code, d.pc).Success? ==> StepsAlike(Decode(code, d.pc).inst, d.g))
    ensures Matches(ManualStep(code, d), Step(code, d))
  {
    hide ReadAsManual, Decode, ManualFetch;
    FetchedAlike(code, d.pc);
    FailsUnfetched(code, d.pc);
  }

  lemma {:induction false} FailsUnfetched(code: Code, pc: Word)
    ensures Decode(code, pc).Success? ==> pc % 4 == 0 && pc in code
  {
    hide DecodeWord;
  }

  lemma {:induction false} MisalignedTraps(code: Code, d: Config)
    requires d.Running? && d.pc % 4 != 0
    ensures Step(code, d) == Stopped(TrapStop, d.g)
  {
  }

  /** Then it runs as the reference machine does, up to the one step by which a jump to a misaligned
      target traps earlier. */
  lemma {:induction false} RunMatches(code: Code, c: Config, k: nat)
    requires FollowsManual(code, c, k)
    ensures Matches(ManualRun(code, c, k), Run(code, c, k))
    decreases k
  {
    hide ReadAsManual, StepsAlike, Decode, Step;
    if k > 0 {
      FollowsFewer(code, c, k - 1, k);
      RunMatches(code, c, k - 1);
      var m, d := ManualRun(code, c, k - 1), Run(code, c, k - 1);
      if m != d {
        MisalignedTraps(code, d);
      } else if d.Running? {
        StepMatches(code, d);
      } else {
        StaysStopped(code, d);
      }
    }
  }

  lemma {:induction false} StaysStopped(code: Code, d: Config)
    requires d.Stopped?
    ensures Step(code, d) == d && ManualStep(code, d) == d
  {
  }
}
