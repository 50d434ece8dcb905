/** The reference machine: fetch, decode, execute, one RV64I instruction at a time. It reads words
    with the translator's decoder, and a jump to a misaligned target writes its link register and
    traps when that target is fetched, as the translated code does; the machine of the manual is
    ManualMachine. */
module Reference {
  import opened Words
  import opened Riscv
  import opened Decoder

  /** Where the comparison with translated code ends. */
  datatype Stop = TrapStop | ReturnStop | IndirectStop

  datatype Config = Running(pc: Word, g: Guest) | Stopped(why: Stop, g: Guest)

  /** What a fetched instruction, or the failure to fetch one, does. */
  function Execute(fetched: Result, g: Guest): Config {
    match fetched
    case Failure(_) => Stopped(TrapStop, g)
    case Success(inst) =>
      if IsTrap(inst.opcode) then Stopped(TrapStop, g)
      else if IsReturn(inst) then Stopped(ReturnStop, Exec(inst, g))
      else if IsIndirect(inst) then Stopped(IndirectStop, Exec(inst, g))
      else Running(NextPc(inst, g), Exec(inst, g))
  }

  function Step(code: Code, c: Config): Config {
    match c
    case Stopped(_, _) => c
    case Running(pc, g) => Execute(Decode(code, pc), g)
  }

  function Run(code: Code, c: Config, k: nat): Config {
    if k == 0 then c else Step(code, Run(code, c, k - 1))
  }

  lemma {:induction false} RunCompose(code: Code, c: Config, j: nat, k: nat)
    ensures Run(code, c, j + k) == Run(code, Run(code, c, j), k)
    decreases k
  {
    hide Step;
    if k > 0 {
      RunCompose(code, c, j, k - 1);
    }
  }

  lemma {:induction false} StoppedStays(code: Code, c: Config, k: nat)
    requires c.Stopped?
    ensures Run(code, c, k) == c
    decreases k
  {
    if k > 0 {
      StoppedStays(code, c, k - 1);
    }
  }

  /** x0 stays zero over every run. */
  lemma {:induction false} RunKeepsZero(code: Code, c: Config, k: nat)
    requires ZeroX0(c.g)
    ensures ZeroX0(Run(code, c, k).g)
    decreases k
  {
    hide Exec, DecodeWord, ZeroX0;
    if k > 0 {
      RunKeepsZero(code, c, k - 1);
      var d := Run(code, c, k - 1);
      if d.Running? && Decode(code, d.pc).Success? {
        ExecKeepsZero(Decode(code, d.pc).inst, d.g);
      }
    }
  }
}
