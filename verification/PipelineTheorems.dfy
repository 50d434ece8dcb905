/** The translated program against the reference machine, from the first block to the end. */
module PipelineTheorems {
  import opened Words
  import opened Labels
  import R = Riscv
  import Decoder
  import Reference
  import ManualMachine
  import opened Cfg
  import CfgTheorems
  import IR
  import A = AArch64
  import Lifter
  import opened LiftBlock
  import opened ISel
  import opened ISelBlock
  import opened RegAlloc
  import RegAllocTheorems
  import opened Emitter
  import opened AllocSim
  import opened Runtime
  import opened Orders
  import opened BlockTheorems
  import opened AsWritten
  import opened Pipeline

  // ---------- Whole runs ----------

  lemma {:induction false} BlockWalks(code: Decoder.Code, cfg: CFG, i: nat)
    requires ValidCfg(code, cfg) && i < |cfg.blocks|
    ensures Walks(code, Order(cfg.entry, cfg.blocks[..i]), cfg.blocks[i])
  {
    hide Walks, Order;
  }

  ghost predicate FaithfulCfg(cfg: CFG) {
    forall i :: 0 <= i < |cfg.blocks| ==> FaithfulBlock(cfg.blocks[i])
  }

  /** The index of an address in the tables. */
  lemma {:induction false} KeyIsListed(addrs: seq<Word>, keys: set<Word>, pc: Word) returns (k: nat)
    requires AddressOrder(addrs, keys) && pc in keys
    ensures k < |addrs| && addrs[k] == pc
  {
    k :| 0 <= k < |addrs| && addrs[k] == pc;
  }

  lemma {:induction false} VBlockAddresses(code: Decoder.Code, cfg: CFG, addrs: seq<Word>)
    requires ValidCfg(code, cfg) && AddressOrder(addrs, cfg.indexByAddr.Keys)
    ensures Keyed(cfg, addrs) && Addresses(VBlocks(cfg, addrs)) == addrs
  {
    hide ValidCfg, AddressOrder, Lifter.LiftAll, Lifter.LiftTerm, SelectAll;
    OrderIsKeyed(code, cfg, addrs);
    forall i | 0 <= i < |addrs| ensures VBlocks(cfg, addrs)[i].guestPc == addrs[i] {
    }
  }

  /** The label of a key leads to the lines of its block. */
  lemma {:induction false} LinesOfKey(code: Decoder.Code, cfg: CFG, addrs: seq<Word>, asgs: seq<Assignment>,
                                      mod: Module, k: nat)
    requires ValidCfg(code, cfg) && Emission(cfg, addrs, asgs, mod) && k < |addrs|
    ensures LinesOf(mod.blocks, Label(addrs[k])) == IR.Some(BlockLines(VBlocks(cfg, addrs)[k], asgs[k]))
  {
    hide ValidCfg, BlockLines, Label, VBlock, Increasing;
    VBlockAddresses(code, cfg, addrs);
    assert Increasing(addrs);
    LabelLeadsHome(VBlocks(cfg, addrs), asgs, k);
    assert Addresses(VBlocks(cfg, addrs))[k] == addrs[k];
  }

  /** Where a block goes on, another block begins. */
  lemma {:induction false} NextIsKey(code: Decoder.Code, cfg: CFG, i: nat, g: R.Guest)
    requires ValidCfg(code, cfg) && i < |cfg.blocks|
    ensures
      var c := Reference.Run(code, Reference.Running(cfg.blocks[i].start, g), CfgTheorems.StepsOf(cfg.blocks[i]));
      c.Running? ==> c.pc in cfg.indexByAddr
  {
    hide ValidCfg, Walks, Order, CfgTheorems.ExecAll, CfgTheorems.StepsOf, R.BranchTaken, R.Reg;
    BlockWalks(code, cfg, i);
    CfgTheorems.BlockRuns(code, Order(cfg.entry, cfg.blocks[..i]), cfg.blocks[i], g);
    CfgTheorems.SuccessorsAreKeys(code, cfg);
  }

  lemma {:induction false} StepsArePositive(code: Decoder.Code, stops: seq<Word>, bb: BasicBlock)
    requires Walks(code, stops, bb)
    ensures CfgTheorems.StepsOf(bb) > 0
  {
    hide Decoder.Decode, SuccsAfter, EndAfter, R.IsTrap;
  }

  /** From agreement at a block start, one block later the reference machine has made at least
      one step and agrees again, at another block start or at the same stop. */
  lemma {:induction false} OneBlock(code: Decoder.Code, cfg: CFG, addrs: seq<Word>, asgs: seq<Assignment>, mod: Module,
                                    g: R.Guest, pc: Word, base: Word, p: Point) returns (steps: nat)
    requires ValidCfg(code, cfg) && FaithfulCfg(cfg) && Translation(cfg, addrs, asgs, mod)
    requires R.ZeroX0(g) && pc in cfg.indexByAddr && Agrees(Reference.Running(pc, g), base, p)
    ensures steps > 0
    ensures
      var c := Reference.Run(code, Reference.Running(pc, g), steps);
      Agrees(c, base, StepBlock(mod, p)) && (c.Running? ==> c.pc in cfg.indexByAddr)
  {
    hide ValidCfg, Walks, Order, FaithfulBlock, R.ZeroX0, HostState, Label, BlockLines, VBlock, Sound, Emission,
         AddressOrder, Increasing, RunLines, CfgTheorems.StepsOf, Reference.Run, LinesOf;
    TranslationIsEmission(cfg, addrs, asgs, mod);
    var k := KeyIsListed(addrs, cfg.indexByAddr.Keys, pc);
    OrderIsKeyed(code, cfg, addrs);
    var i := cfg.indexByAddr[pc];
    var bb := cfg.blocks[i];
    var stops := Order(cfg.entry, cfg.blocks[..i]);
    BlockWalks(code, cfg, i);
    LinesOfKey(code, cfg, addrs, asgs, mod, k);
    assert VBlocks(cfg, addrs)[k] == VBlock(bb);
    SoundAgrees(code, stops, bb, asgs[k], g, base, p.m);
    NextIsKey(code, cfg, i, g);
    StepsArePositive(code, stops, bb);
    steps := CfgTheorems.StepsOf(bb);
  }

  lemma {:induction false} TranslationIsEmission(cfg: CFG, addrs: seq<Word>, asgs: seq<Assignment>, mod: Module)
    requires Translation(cfg, addrs, asgs, mod)
    ensures Emission(cfg, addrs, asgs, mod) && AddressOrder(addrs, cfg.indexByAddr.Keys)
    ensures Keyed(cfg, addrs) && |asgs| == |addrs|
  {
    hide Sound, VBlocks, Emitted;
  }

  /** The entry trampoline finds the entry block. */
  lemma {:induction false} EntersAtEntry(code: Decoder.Code, cfg: CFG, addrs: seq<Word>, asgs: seq<Assignment>,
                                         mod: Module, m: A.Machine)
    requires ValidCfg(code, cfg) && Emission(cfg, addrs, asgs, mod)
    ensures |mod.ptrs| == |mod.addrs| && Enter(mod, mod.entryPc, m) == At(Label(cfg.entry), m)
  {
    hide ValidCfg, Label, VBlock, Increasing, EmittedBlocks, Order;
    VBlockAddresses(code, cfg, addrs);
    CfgTheorems.SuccessorsAreKeys(code, cfg);
    FindIsFirst(mod.addrs, cfg.entry);
    var k := KeyIsListed(addrs, cfg.indexByAddr.Keys, cfg.entry);
  }

  lemma {:induction false} StoppedPointStays(mod: Module, p: Point)
    requires !p.At?
    ensures StepBlock(mod, p) == p
  {
  }

  /** End to end. For any code memory, entry, guest with x0 = 0 and host state that shows it, and
      any translation of the graph: after every number n of blocks the translated program agrees
      with the reference machine after some number k >= n of steps, on all registers and memory
      and on where execution is: at the block of the program counter, or stopped by the same
      trap, return or indirect jump. */
  lemma {:induction false} EndToEnd(code: Decoder.Code, cfg: CFG, addrs: seq<Word>, asgs: seq<Assignment>, mod: Module,
                                    g: R.Guest, base: Word, m: A.Machine, n: nat) returns (k: nat)
    requires ValidCfg(code, cfg) && FaithfulCfg(cfg) && Translation(cfg, addrs, asgs, mod)
    requires R.ZeroX0(g) && HostState(g, base, m)
    ensures |mod.ptrs| == |mod.addrs| && k >= n
    ensures
      var c := Reference.Run(code, Reference.Running(cfg.entry, g), k);
      Agrees(c, base, RunBlocks(mod, Enter(mod, mod.entryPc, m), n)) && (c.Running? ==> c.pc in cfg.indexByAddr)
    decreases n
  {
    hide ValidCfg, FaithfulCfg, Translation, Emission, R.ZeroX0, HostState, Label, StepBlock, Enter, Reference.Step,
         LinesOf;
    TranslationIsEmission(cfg, addrs, asgs, mod);
    EntersAtEntry(code, cfg, addrs, asgs, mod, m);
    var c0 := Reference.Running(cfg.entry, g);
    if n == 0 {
      k := 0;
      CfgTheorems.SuccessorsAreKeys(code, cfg);
    } else {
      var before := EndToEnd(code, cfg, addrs, asgs, mod, g, base, m, n - 1);
      var c := Reference.Run(code, c0, before);
      var p := RunBlocks(mod, Enter(mod, mod.entryPc, m), n - 1);
      if c.Running? {
        Reference.RunKeepsZero(code, c0, before);
        var steps := OneBlock(code, cfg, addrs, asgs, mod, c.g, c.pc, base, p);
        Reference.RunCompose(code, c0, before, steps);
        k := before + steps;
      } else {
        StoppedPointStays(mod, p);
        Reference.RunCompose(code, c0, before, 1);
        Reference.StoppedStays(code, c, 1);
        k := before + 1;
      }
    }
  }

  /** Conversely, when the reference machine stops, the translated program stops for the same
      reason with the same registers and memory, no later. */
  lemma {:induction false} StopsWithReference(code: Decoder.Code, cfg: CFG, addrs: seq<Word>, asgs: seq<Assignment>,
    mod: Module,
                                              g: R.Guest, base: Word, m: A.Machine, k: nat)
    requires ValidCfg(code, cfg) && FaithfulCfg(cfg) && Translation(cfg, addrs, asgs, mod)
    requires R.ZeroX0(g) && HostState(g, base, m)
    requires Reference.Run(code, Reference.Running(cfg.entry, g), k).Stopped?
    ensures |mod.ptrs| == |mod.addrs|
    ensures Agrees(Reference.Run(code, Reference.Running(cfg.entry, g), k), base,
                   RunBlocks(mod, Enter(mod, mod.entryPc, m), k))
  {
    hide ValidCfg, FaithfulCfg, Translation, R.ZeroX0, HostState, Agrees, RunBlocks, Enter, Reference.Step;
    var c0 := Reference.Running(cfg.entry, g);
    var later := EndToEnd(code, cfg, addrs, asgs, mod, g, base, m, k);
    Reference.RunCompose(code, c0, k, later - k);
    Reference.StoppedStays(code, Reference.Run(code, c0, k), later - k);
  }

  /** And when the translated program has stopped, so has the reference machine. */
  lemma {:induction false} ReferenceStopsToo(code: Decoder.Code, cfg: CFG, addrs: seq<Word>, asgs: seq<Assignment>,
    mod: Module,
                                             g: R.Guest, base: Word, m: A.Machine, n: nat) returns (k: nat)
    requires ValidCfg(code, cfg) && FaithfulCfg(cfg) && Translation(cfg, addrs, asgs, mod)
    requires R.ZeroX0(g) && HostState(g, base, m)
    requires |mod.ptrs| == |mod.addrs| && !RunBlocks(mod, Enter(mod, mod.entryPc, m), n).At?
    ensures Reference.Run(code, Reference.Running(cfg.entry, g), k).Stopped?
    ensures RunBlocks(mod, Enter(mod, mod.entryPc, m), n).Halted?
  {
    hide ValidCfg, FaithfulCfg, Translation, R.ZeroX0, HostState, RunBlocks, Enter, Reference.Run, Label;
    k := EndToEnd(code, cfg, addrs, asgs, mod, g, base, m, n);
  }

  /** The same against a machine that follows the manual, as long as it fetches only words the
      decoder reads the same way and no jump strays. A jump to a misaligned target traps at once
      there; the translated program then traps one block later, with the same registers and memory. */
  lemma {:induction false} EndToEndManual(code: Decoder.Code, cfg: CFG, addrs: seq<Word>, asgs: seq<Assignment>,
                                          mod: Module,
                                          g: R.Guest, base: Word, m: A.Machine, n: nat) returns (k: nat)
    requires ValidCfg(code, cfg) && FaithfulCfg(cfg) && Translation(cfg, addrs, asgs, mod)
    requires R.ZeroX0(g) && HostState(g, base, m)
    requires forall j: nat :: ManualMachine.FollowsManual(code, Reference.Running(cfg.entry, g), j)
    ensures |mod.ptrs| == |mod.addrs| && k >= n
    ensures
      var c := ManualMachine.ManualRun(code, Reference.Running(cfg.entry, g), k);
      var start := Enter(mod, mod.entryPc, m);
      || Agrees(c, base, RunBlocks(mod, start, n))
      || (c.Stopped? && c.why.TrapStop? && HostState(c.g, base, RunBlocks(mod, start, n).m)
          && Agrees(c, base, RunBlocks(mod, start, n + 1)))
  {
    hide ValidCfg, FaithfulCfg, Translation, R.ZeroX0, HostState, Enter, Reference.Run, StepBlock, Label,
         ManualMachine.ManualRun, ManualMachine.FollowsManual;
    var c0 := Reference.Running(cfg.entry, g);
    k := EndToEnd(code, cfg, addrs, asgs, mod, g, base, m, n);
    ManualMachine.RunMatches(code, c0, k);
    var d := Reference.Run(code, c0, k);
    if ManualMachine.ManualRun(code, c0, k) != d {
      Reference.RunKeepsZero(code, c0, k);
      MisalignedBlock(code, cfg, addrs, asgs, mod, d.g, d.pc, base, RunBlocks(mod, Enter(mod, mod.entryPc, m), n));
    }
  }

  lemma {:induction false} MisalignedBlock(code: Decoder.Code, cfg: CFG, addrs: seq<Word>, asgs: seq<Assignment>,
                                           mod: Module,
                                           g: R.Guest, pc: Word, base: Word, p: Point)
    requires ValidCfg(code, cfg) && FaithfulCfg(cfg) && Translation(cfg, addrs, asgs, mod)
    requires R.ZeroX0(g) && pc in cfg.indexByAddr && Agrees(Reference.Running(pc, g), base, p) && pc % 4 != 0
    ensures Agrees(Reference.Stopped(Reference.TrapStop, g), base, StepBlock(mod, p))
  {
    hide ValidCfg, FaithfulCfg, Translation, R.ZeroX0, Agrees, StepBlock;
    var d := Reference.Running(pc, g);
    var steps := OneBlock(code, cfg, addrs, asgs, mod, g, pc, base, p);
    Reference.RunCompose(code, d, 1, steps - 1);
    assert Reference.Run(code, d, 1) == Reference.Step(code, Reference.Run(code, d, 0));
    ManualMachine.MisalignedTraps(code, d);
    Reference.StoppedStays(code, Reference.Stopped(Reference.TrapStop, g), steps - 1);
  }

  // ---------- Every program, faithful or not ----------

  /** One block as its lifted instructions do it: those without a lowering do nothing, and AUIPC adds to the
      start of the block. */
  ghost function LiftedStep(cfg: CFG, c: Reference.Config): Reference.Config {
    match c
    case Stopped(_, _) => c
    case Running(pc, g) =>
      if pc in cfg.indexByAddr && cfg.indexByAddr[pc] < |cfg.blocks| then
        var bb := cfg.blocks[cfg.indexByAddr[pc]];
        CfgTheorems.BlockExit(bb, LiftedAll(bb.insts, bb.start, g))
      else Reference.Stopped(Reference.TrapStop, g)
  }

  ghost function LiftedRun(cfg: CFG, c: Reference.Config, n: nat): Reference.Config {
    if n == 0 then c else LiftedStep(cfg, LiftedRun(cfg, c, n - 1))
  }

  ghost predicate KeptApart(cfg: CFG, addrs: seq<Word>, asgs: seq<Assignment>, mod: Module) {
    && Emission(cfg, addrs, asgs, mod)
    && forall i :: 0 <= i < |addrs| ==> ComesFrom(asgs[i], VBlock(BlockAt(cfg, addrs[i])))
  }

  lemma {:induction false} LiftedGoesOn(code: Decoder.Code, stops: seq<Word>, bb: BasicBlock, g: R.Guest)
    requires Walks(code, stops, bb) && R.ZeroX0(g)
    ensures
      var c := CfgTheorems.BlockExit(bb, LiftedAll(bb.insts, bb.start, g));
      R.ZeroX0(c.g) && (c.Running? ==> c.pc in bb.succs)
  {
    hide Walks, R.ZeroX0, R.WellFormed, R.BranchTaken, R.Reg, LiftedAll, Lift0, AllValues;
    WalksAreWellFormed(code, stops, bb);
    LiftAllRuns(bb.insts, bb.start, g);
  }

  lemma {:induction false} OneLiftedBlock(code: Decoder.Code, cfg: CFG, addrs: seq<Word>, asgs: seq<Assignment>,
                                          mod: Module, c: Reference.Config, base: Word, p: Point)
    requires ValidCfg(code, cfg) && KeptApart(cfg, addrs, asgs, mod)
    requires c.Running? && GoesOn(cfg, c) && Agrees(c, base, p)
    ensures
      var d := LiftedStep(cfg, c);
      Agrees(d, base, StepBlock(mod, p)) && GoesOn(cfg, d)
  {
    hide ValidCfg, Walks, Order, R.ZeroX0, HostState, Label, BlockLines, VBlock, ComesFrom, AddressOrder, Increasing,
         RunLines, LinesOf, Emitted, VBlocks, LiftedAll, CfgTheorems.BlockExit;
    OrderIsKeyed(code, cfg, addrs);
    var k := KeyIsListed(addrs, cfg.indexByAddr.Keys, c.pc);
    var i := cfg.indexByAddr[c.pc];
    var bb := cfg.blocks[i];
    var stops := Order(cfg.entry, cfg.blocks[..i]);
    BlockWalks(code, cfg, i);
    LinesOfKey(code, cfg, addrs, asgs, mod, k);
    VBlocksAt(cfg, addrs, k);
    BlockAgreesLifted(code, stops, bb, asgs[k], c.g, base, p.m);
    LiftedGoesOn(code, stops, bb, c.g);
    CfgTheorems.SuccessorsAreKeys(code, cfg);
  }

  /** The assignments made with the presence test do, for every program. */
  lemma {:induction false} PresenceKeepsApart(cfg: CFG, addrs: seq<Word>, asgs: seq<Assignment>, mod: Module)
    requires Emission(cfg, addrs, asgs, mod) && AllMade(cfg, addrs, asgs, true)
    ensures KeptApart(cfg, addrs, asgs, mod)
  {
    hide AddressOrder, Emitted, ComesFrom, VBlock, Allotted;
    forall i | 0 <= i < |addrs| ensures ComesFrom(asgs[i], VBlock(BlockAt(cfg, addrs[i]))) {
      assert Made(asgs[i], BlockAt(cfg, addrs[i]), true);
    }
  }

  /** For every program, with any assignments that keep registers apart: after every number of blocks the
      translated program agrees with the machine that does each block as its lifted instructions do. */
  lemma {:induction false} EndToEndLifted(code: Decoder.Code, cfg: CFG, addrs: seq<Word>, asgs: seq<Assignment>,
                                          mod: Module, g: R.Guest, base: Word, m: A.Machine, n: nat)
    requires ValidCfg(code, cfg) && KeptApart(cfg, addrs, asgs, mod)
    requires R.ZeroX0(g) && HostState(g, base, m)
    ensures |mod.ptrs| == |mod.addrs|
    ensures
      var c := LiftedRun(cfg, Reference.Running(cfg.entry, g), n);
      Agrees(c, base, RunBlocks(mod, Enter(mod, mod.entryPc, m), n)) && GoesOn(cfg, c)
    decreases n
  {
    hide ValidCfg, R.ZeroX0, HostState, Label, StepBlock, Enter, LiftedStep, LinesOf, ComesFrom, Emitted;
    EntersAtEntry(code, cfg, addrs, asgs, mod, m);
    if n == 0 {
      CfgTheorems.SuccessorsAreKeys(code, cfg);
    } else {
      EndToEndLifted(code, cfg, addrs, asgs, mod, g, base, m, n - 1);
      var c := LiftedRun(cfg, Reference.Running(cfg.entry, g), n - 1);
      var p := RunBlocks(mod, Enter(mod, mod.entryPc, m), n - 1);
      if c.Running? {
        OneLiftedBlock(code, cfg, addrs, asgs, mod, c, base, p);
      } else {
        StoppedPointStays(mod, p);
        StoppedLiftedStays(cfg, c);
      }
    }
  }

  lemma {:induction false} StoppedLiftedStays(cfg: CFG, c: Reference.Config)
    requires c.Stopped?
    ensures LiftedStep(cfg, c) == c
  {
  }

  // ---------- The analysis as written ----------

  /** The assignments come from the analysis as written, in any orders. */
  ghost predicate AnalyzedProgram(cfg: CFG, addrs: seq<Word>, asgs: seq<Assignment>, mod: Module) {
    && Emission(cfg, addrs, asgs, mod)
    && forall i :: 0 <= i < |addrs| ==> FromAnalysis(asgs[i], BlockAt(cfg, addrs[i]))
  }

  /** One block as the translated program does it: the block, or the block misread, according to the
      registers of its first two values. */
  ghost function WrittenStep(cfg: CFG, addrs: seq<Word>, asgs: seq<Assignment>, c: Reference.Config): Reference.Config
    requires Keyed(cfg, addrs) && |asgs| == |addrs|
  {
    match c
    case Stopped(_, _) => c
    case Running(pc, g) =>
      var i := Find(addrs, pc);
      if 0 <= i < |addrs| then SteppedAsWritten(BlockAt(cfg, addrs[i]), asgs[i], g)
      else Reference.Stopped(Reference.TrapStop, g)
  }

  ghost function WrittenRun(cfg: CFG, addrs: seq<Word>, asgs: seq<Assignment>, c: Reference.Config, n: nat)
    : Reference.Config
    requires Keyed(cfg, addrs) && |asgs| == |addrs|
  {
    if n == 0 then c else WrittenStep(cfg, addrs, asgs, WrittenRun(cfg, addrs, asgs, c, n - 1))
  }

  ghost predicate GoesOn(cfg: CFG, c: Reference.Config) {
    R.ZeroX0(c.g) && (c.Running? ==> c.pc in cfg.indexByAddr)
  }

  lemma {:induction false} OneWrittenBlock(code: Decoder.Code, cfg: CFG, addrs: seq<Word>, asgs: seq<Assignment>,
                                           mod: Module,
                                           c: Reference.Config, base: Word, p: Point)
    requires ValidCfg(code, cfg) && FaithfulCfg(cfg) && AnalyzedProgram(cfg, addrs, asgs, mod)
    requires c.Running? && GoesOn(cfg, c) && Agrees(c, base, p)
    ensures Keyed(cfg, addrs) && |asgs| == |addrs|
    ensures
      var d := WrittenStep(cfg, addrs, asgs, c);
      Agrees(d, base, StepBlock(mod, p)) && GoesOn(cfg, d)
  {
    hide ValidCfg, Walks, Order, FaithfulBlock, R.ZeroX0, HostState, Label, BlockLines, VBlock, FromAnalysis,
         AddressOrder, Increasing, RunLines, LinesOf, SteppedAsWritten, Emitted, VBlocks;
    OrderIsKeyed(code, cfg, addrs);
    var k := KeyIsListed(addrs, cfg.indexByAddr.Keys, c.pc);
    FindIsFirst(addrs, c.pc);
    var f := Find(addrs, c.pc);
    var i := cfg.indexByAddr[c.pc];
    var bb := cfg.blocks[i];
    var stops := Order(cfg.entry, cfg.blocks[..i]);
    BlockWalks(code, cfg, i);
    LinesOfKey(code, cfg, addrs, asgs, mod, f);
    VBlocksAt(cfg, addrs, f);
    AgreesAsWritten(code, stops, bb, asgs[f], c.g, base, p.m);
    AsWrittenGoesOn(code, stops, bb, asgs[f], c.g);
    CfgTheorems.SuccessorsAreKeys(code, cfg);
  }

  lemma {:induction false} VBlocksAt(cfg: CFG, addrs: seq<Word>, k: nat)
    requires Keyed(cfg, addrs) && k < |addrs|
    ensures VBlocks(cfg, addrs)[k] == VBlock(BlockAt(cfg, addrs[k]))
  {
    hide VBlock;
  }

  /** With the analysis as written and any orders of its intervals, for faithful programs: after every
      number of blocks the translated program agrees with the machine that does each block or the
      block misread. */
  lemma {:induction false} EndToEndAsWritten(code: Decoder.Code, cfg: CFG, addrs: seq<Word>, asgs: seq<Assignment>,
                                             mod: Module,
                                             g: R.Guest, base: Word, m: A.Machine, n: nat)
    requires ValidCfg(code, cfg) && FaithfulCfg(cfg) && AnalyzedProgram(cfg, addrs, asgs, mod)
    requires R.ZeroX0(g) && HostState(g, base, m)
    ensures Keyed(cfg, addrs) && |asgs| == |addrs| && |mod.ptrs| == |mod.addrs|
    ensures
      var c := WrittenRun(cfg, addrs, asgs, Reference.Running(cfg.entry, g), n);
      Agrees(c, base, RunBlocks(mod, Enter(mod, mod.entryPc, m), n)) && GoesOn(cfg, c)
    decreases n
  {
    hide ValidCfg, FaithfulCfg, R.ZeroX0, HostState, Label, StepBlock, Enter, WrittenStep, LinesOf, FromAnalysis,
         Emitted;
    EntersAtEntry(code, cfg, addrs, asgs, mod, m);
    if n == 0 {
      CfgTheorems.SuccessorsAreKeys(code, cfg);
    } else {
      EndToEndAsWritten(code, cfg, addrs, asgs, mod, g, base, m, n - 1);
      var c := WrittenRun(cfg, addrs, asgs, Reference.Running(cfg.entry, g), n - 1);
      var p := RunBlocks(mod, Enter(mod, mod.entryPc, m), n - 1);
      if c.Running? {
        OneWrittenBlock(code, cfg, addrs, asgs, mod, c, base, p);
      } else {
        StoppedPointStays(mod, p);
        StoppedWrittenStays(cfg, addrs, asgs, c);
      }
    }
  }

  lemma {:induction false} StoppedWrittenStays(cfg: CFG, addrs: seq<Word>, asgs: seq<Assignment>, c: Reference.Config)
    requires Keyed(cfg, addrs) && |asgs| == |addrs| && c.Stopped?
    ensures WrittenStep(cfg, addrs, asgs, c) == c
  {
  }

  // ---------- Linking ----------

  /** The label a line branches to within the module. */
  predicate BranchesTo(line: Line, name: string) {
    line == Jmp(name) || line == BNe(name)
  }

  lemma {:induction false} BodyNeverBranches(instrs: seq<A.Instr>, v2p: Assignment)
    ensures forall i, name :: 0 <= i < |Body(instrs, v2p)| ==> !BranchesTo(Body(instrs, v2p)[i], name)
    decreases |instrs|
  {
    if instrs != [] {
      BodyNeverBranches(instrs[1..], v2p);
    }
  }

  lemma {:induction false} BranchesAreLabels(b: A.Block, v2p: Assignment, i: nat, name: string)
    requires i < |BlockLines(b, v2p)| && BranchesTo(BlockLines(b, v2p)[i], name)
    ensures b.term == A.Br(name) || (b.term.CBr? && (b.term.t == name || b.term.f == name))
  {
    hide Body;
    BodyNeverBranches(b.instrs, v2p);
    var body, term := Body(b.instrs, v2p), TermLines(b.term, v2p);
    assert BlockLines(b, v2p) == [PROLOGUE] + body + term;
    if i > |body| { assert BlockLines(b, v2p)[i] == term[i - 1 - |body|]; }
  }

  lemma {:induction false} TermLabelsAreSuccessors(code: Decoder.Code, stops: seq<Word>, bb: BasicBlock, name: string)
    requires Walks(code, stops, bb)
    requires
      var t := VBlock(bb).term;
      t == A.Br(name) || (t.CBr? && (t.t == name || t.f == name))
    ensures exists a :: a in bb.succs && name == Label(a)
  {
    hide Walks, Label, Lifter.LiftAll, Lifter.LastICmp, SelectAll;
    LastBranches(code, stops, bb);
    assert |bb.succs| > 0 ==> bb.succs[0] in bb.succs;
    assert |bb.succs| > 1 ==> bb.succs[1] in bb.succs;
  }

  /** Every label a line of an emitted module branches to is the name of exactly one of its
      blocks. */
  lemma {:induction false} LabelsAreDefinedOnce(code: Decoder.Code, cfg: CFG, addrs: seq<Word>, asgs: seq<Assignment>,
    mod: Module,
                                                k: nat, i: nat, name: string) returns (target: nat)
    requires ValidCfg(code, cfg) && Emission(cfg, addrs, asgs, mod)
    requires k < |mod.blocks| && i < |mod.blocks[k].lines| && BranchesTo(mod.blocks[k].lines[i], name)
    ensures target < |mod.blocks| && mod.blocks[target].name == name
    ensures forall j :: 0 <= j < |mod.blocks| && j != target ==> mod.blocks[j].name != name
  {
    hide ValidCfg, Label, BlockLines, VBlock, AddressOrder, Walks, Order, EmittedBlocks, BranchesTo, Increasing;
    VBlockAddresses(code, cfg, addrs);
    OrderIsKeyed(code, cfg, addrs);
    var blocks := VBlocks(cfg, addrs);
    EmittedLength(blocks, asgs);
    EmittedAt(blocks, asgs, k);
    BranchesAreLabels(blocks[k], asgs[k], i, name);
    var source := cfg.indexByAddr[addrs[k]];
    BlockWalks(code, cfg, source);
    TermLabelsAreSuccessors(code, Order(cfg.entry, cfg.blocks[..source]), cfg.blocks[source], name);
    var a :| a in cfg.blocks[source].succs && name == Label(a);
    CfgTheorems.SuccessorsAreKeys(code, cfg);
    target := KeyIsListed(addrs, cfg.indexByAddr.Keys, a);
    EmittedAt(blocks, asgs, target);
    assert Addresses(blocks)[target] == blocks[target].guestPc;
    NamesDiffer(addrs, cfg.indexByAddr.Keys, blocks, asgs, target);
  }

  lemma {:induction false} NamesDiffer(addrs: seq<Word>, keys: set<Word>, blocks: seq<A.Block>, asgs: seq<Assignment>,
                                       target: nat)
    requires AddressOrder(addrs, keys) && Addresses(blocks) == addrs && |blocks| == |asgs| && target < |blocks|
    ensures |EmittedBlocks(blocks, asgs)| == |blocks|
    ensures forall j :: 0 <= j < |blocks| && j != target ==>
      EmittedBlocks(blocks, asgs)[j].name != EmittedBlocks(blocks, asgs)[target].name
  {
    hide EmittedBlocks, Increasing;
    EmittedLength(blocks, asgs);
    forall j | 0 <= j < |blocks| && j != target
      ensures EmittedBlocks(blocks, asgs)[j].name != EmittedBlocks(blocks, asgs)[target].name
    {
      NamesAreUnique(blocks, asgs, j, target);
    }
  }

  /** The runtime's search of the tables finds an address exactly when it is a key of the graph,
      and then the pointer table names the block of that address; the tables are in strictly
      increasing order and list the blocks one for one. */
  lemma {:induction false} SearchFindsKeys(code: Decoder.Code, cfg: CFG, addrs: seq<Word>, asgs: seq<Assignment>,
                                           mod: Module, pc: Word)
    requires ValidCfg(code, cfg) && Emission(cfg, addrs, asgs, mod)
    ensures Find(mod.addrs, pc) >= 0 <==> pc in cfg.indexByAddr
    ensures Increasing(mod.addrs) && |mod.ptrs| == |mod.addrs| && |mod.blocks| == |mod.addrs|
    ensures
      var idx := Find(mod.addrs, pc);
      0 <= idx < |mod.addrs| ==> mod.ptrs[idx] == Label(pc) && mod.blocks[idx].name == Label(pc)
  {
    hide ValidCfg, Label, VBlock, Increasing, EmittedBlocks, BlockLines;
    VBlockAddresses(code, cfg, addrs);
    var blocks := VBlocks(cfg, addrs);
    FindIsFirst(mod.addrs, pc);
    EmittedLength(blocks, asgs);
    var idx := Find(mod.addrs, pc);
    if idx >= 0 {
      EmittedAt(blocks, asgs, idx);
      assert Addresses(blocks)[idx] == blocks[idx].guestPc;
    }
  }

  // ---------- Reserved registers ----------

  /** A line writes no register, or one of the pool, x1 or x21. */
  predicate WritesSafely(line: Line) {
    line.Op? ==>
      match A.Dest(line.i)
      case None => true
      case Some(d) => d.P? && (d.p in POOL || d.p == 1 || d.p == 21)
  }

  lemma {:induction false} PoolIsSafe(line: Line)
    requires WritesSafely(line) && line.Op? && A.Dest(line.i).Some?
    ensures
      var p := A.Dest(line.i).value.p;
      p != 0 && p != 19 && p != 29 && p != 30
  {
    hide POOL;
    RegAllocTheorems.PoolHasNoRepeats(A.Dest(line.i).value.p);
  }

  lemma {:induction false} MappedDestIsSafe(i: A.Instr, defs: set<nat>, asg: Assignment)
    requires InstrOk(i, defs) && MappedOps(A.Operands(i), asg)
    requires forall v :: v in asg ==> asg[v] in POOL
    ensures WritesSafely(Op(MapInstr(i, asg)))
  {
    hide POOL, MapBase;
    MappedDest(i, asg);
    var ops := A.Operands(i);
    assert |ops| > 0 && (A.Dest(i).Some? ==> ops[0] == A.RegOp(A.Dest(i).value));
  }

  lemma {:induction false} BodyIsSafe(code: seq<A.Instr>, defs: set<nat>, asg: Assignment)
    requires UsesOk(code, defs) && forall k :: 0 <= k < |code| ==> MappedOps(A.Operands(code[k]), asg)
    requires forall v :: v in asg ==> asg[v] in POOL
    ensures forall k :: 0 <= k < |Body(code, asg)| ==> WritesSafely(Body(code, asg)[k])
    decreases |code|
  {
    hide POOL, InstrOk, MappedOps, A.Operands, MapInstr, WritesSafely, Defined;
    if code != [] {
      MappedDestIsSafe(code[0], defs, asg);
      assert forall k :: 0 <= k < |code[1..]| ==> code[1..][k] == code[k + 1];
      BodyIsSafe(code[1..], defs + Defined(code[0]), asg);
    }
  }

  lemma {:induction false} LinesAreSafe(b: A.Block, asg: Assignment)
    requires DefinedBeforeUse(b) && Mapped(b, asg) && forall v :: v in asg ==> asg[v] in POOL
    ensures forall k :: 0 <= k < |BlockLines(b, asg)| ==> WritesSafely(BlockLines(b, asg)[k])
  {
    hide POOL, UsesOk, MappedOps, Body;
    BodyIsSafe(b.instrs, {}, asg);
    var lines, body, term := BlockLines(b, asg), Body(b.instrs, asg), TermLines(b.term, asg);
    assert lines == [PROLOGUE] + body + term;
    forall k | 0 <= k < |lines| ensures WritesSafely(lines[k]) {
      if k == 0 {
        assert lines[0] == PROLOGUE;
      } else if k <= |body| {
        assert lines[k] == body[k - 1];
      } else {
        assert lines[k] == term[k - 1 - |body|];
      }
    }
  }

  /** No line of a program with assignments from the pool writes x0, x19, x29 or x30, whichever
      analysis they come from: the state pointer stays in x0 and the saved link register in x19. */
  lemma {:induction false} ReservedRegistersStay(code: Decoder.Code, cfg: CFG, addrs: seq<Word>, asgs: seq<Assignment>,
                                                 mod: Module, k: nat, i: nat)
    requires ValidCfg(code, cfg) && Emission(cfg, addrs, asgs, mod)
    requires forall j :: 0 <= j < |addrs| ==> Allotted(asgs[j], BlockAt(cfg, addrs[j]))
    requires k < |mod.blocks| && i < |mod.blocks[k].lines|
    ensures
      var line := mod.blocks[k].lines[i];
      line.Op? && A.Dest(line.i).Some? ==>
        A.Dest(line.i).value.P? && var p := A.Dest(line.i).value.p; p != 0 && p != 19 && p != 29 && p != 30
  {
    hide ValidCfg, Label, BlockLines, VBlock, AddressOrder, Walks, Order, EmittedBlocks, Increasing, WritesSafely,
         DefinedBeforeUse, Mapped, POOL, OffsetsFit, A.Dest;
    VBlockAddresses(code, cfg, addrs);
    OrderIsKeyed(code, cfg, addrs);
    var blocks := VBlocks(cfg, addrs);
    EmittedLength(blocks, asgs);
    EmittedAt(blocks, asgs, k);
    VBlocksAt(cfg, addrs, k);
    var source := cfg.indexByAddr[addrs[k]];
    BlockWalks(code, cfg, source);
    BlockIsSound(code, Order(cfg.entry, cfg.blocks[..source]), cfg.blocks[source]);
    assert Allotted(asgs[k], BlockAt(cfg, addrs[k]));
    LinesAreSafe(blocks[k], asgs[k]);
    SafeLine(mod.blocks[k].lines[i]);
  }

  lemma {:induction false} SafeLine(line: Line)
    requires WritesSafely(line)
    ensures line.Op? && A.Dest(line.i).Some? ==>
      A.Dest(line.i).value.P? && var p := A.Dest(line.i).value.p; p != 0 && p != 19 && p != 29 && p != 30
  {
    hide POOL;
    if line.Op? && A.Dest(line.i).Some? { PoolIsSafe(line); }
  }
}
