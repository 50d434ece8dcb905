/** The driver: every block of the graph, in address order, lifted, selected, given registers
    and emitted. */
module Pipeline {
  import opened Words
  import Decoder
  import opened Cfg
  import A = AArch64
  import Lifter
  import ISel
  import opened Liveness
  import opened RegAlloc
  import RegAllocTheorems
  import opened Emitter
  import opened AllocSim
  import opened Pressure
  import opened AsWritten
  import opened BlockTheorems
  import opened Orders

  // ---------- Translations ----------

  ghost predicate Keyed(cfg: CFG, addrs: seq<Word>) {
    forall i :: 0 <= i < |addrs| ==> addrs[i] in cfg.indexByAddr && cfg.indexByAddr[addrs[i]] < |cfg.blocks|
  }

  ghost function VBlocks(cfg: CFG, addrs: seq<Word>): seq<A.Block>
    requires Keyed(cfg, addrs)
  {
    seq(|addrs|, i requires 0 <= i < |addrs| => VBlock(cfg.blocks[cfg.indexByAddr[addrs[i]]]))
  }

  /** The module emitted for a graph with some assignments. */
  ghost predicate Emission(cfg: CFG, addrs: seq<Word>, asgs: seq<Assignment>, mod: Module) {
    && AddressOrder(addrs, cfg.indexByAddr.Keys)
    && Keyed(cfg, addrs)
    && |asgs| == |addrs|
    && mod == Emitted(VBlocks(cfg, addrs), asgs, cfg.entry)
  }

  function BlockAt(cfg: CFG, a: Word): BasicBlock
    requires a in cfg.indexByAddr && cfg.indexByAddr[a] < |cfg.blocks|
  {
    cfg.blocks[cfg.indexByAddr[a]]
  }

  /** The module emitted for a graph with sound assignments. */
  ghost predicate Translation(cfg: CFG, addrs: seq<Word>, asgs: seq<Assignment>, mod: Module) {
    && Emission(cfg, addrs, asgs, mod)
    && forall i :: 0 <= i < |addrs| ==> Sound(asgs[i], BlockAt(cfg, addrs[i]))
  }

  /** Where the driver's assignments come from, with the presence test and without. */
  ghost predicate Made(asg: Assignment, bb: BasicBlock, presence: bool) {
    Allotted(asg, bb) && if presence then ComesFrom(asg, VBlock(bb)) else FromAnalysis(asg, bb)
  }

  ghost predicate AllMade(cfg: CFG, addrs: seq<Word>, asgs: seq<Assignment>, presence: bool)
    requires Keyed(cfg, addrs)
  {
    |asgs| <= |addrs| && forall i :: 0 <= i < |asgs| ==> Made(asgs[i], BlockAt(cfg, addrs[i]), presence)
  }

  /** Allocation of a block of the graph succeeds and the emitter finds every register, with the
      analysis as written and with the presence test. */
  lemma {:induction false} BlockIsAllocated(bb: BasicBlock, presence: bool, items: seq<Item>)
    requires IsSorting(if presence then ExactLive(VBlock(bb)) else Analyzed(VBlock(bb)), items)
    ensures Allocated(items).Assigned? && Made(Allocated(items).v2p, bb, presence)
  {
    hide ExactLive, Analyzed, IsSorting, ScanAll, VBlock, Separates, Mapped, Covers, Knows, POOL;
    var b := VBlock(bb);
    var live := if presence then ExactLive(b) else Analyzed(b);
    VBlockIs(bb);
    PipelineNeverRunsOut(bb, live, items);
    ExactLiveIsExact(b);
    CoveringSeparates(ExactLive(b), b);
    BothKnow(b);
    EmitterNeverAborts(b, live, items);
    RegAllocTheorems.AssignedFromPool(items);
    assert Allocated(items) == Assigned(Allocated(items).v2p);
  }

  /** A made assignment is sound with the presence test, and without it when the block does not
      misread. */
  lemma {:induction false} MadeIsSound(asg: Assignment, bb: BasicBlock, presence: bool)
    requires Made(asg, bb, presence) && (presence || !Misreads(bb))
    ensures Sound(asg, bb)
  {
    hide ComesFrom, FromAnalysis, Misreads, Allotted;
  }

  lemma {:induction false} BothKnow(b: A.Block)
    ensures Knows(ExactLive(b), b) && Knows(Analyzed(b), b)
  {
    hide Touched, ExactLive, Analyzed, Covers;
    ExactLiveIsExact(b);
    forall v | v in ExactLive(b) ensures v in Analyzed(b) {
      AnalyzeIsExact(b, v);
    }
  }

  lemma {:induction false} OneMoreMade(cfg: CFG, addrs: seq<Word>, asgs: seq<Assignment>, presence: bool,
                                       asg: Assignment)
    requires Keyed(cfg, addrs) && AllMade(cfg, addrs, asgs, presence) && |asgs| < |addrs|
    requires Made(asg, BlockAt(cfg, addrs[|asgs|]), presence)
    ensures AllMade(cfg, addrs, asgs + [asg], presence)
  {
    hide Made;
  }

  lemma {:induction false} VBlocksSnoc(cfg: CFG, addrs: seq<Word>, k: nat)
    requires Keyed(cfg, addrs) && k < |addrs|
    ensures VBlocks(cfg, addrs)[..k + 1] ==
      VBlocks(cfg, addrs)[..k] + [VBlock(cfg.blocks[cfg.indexByAddr[addrs[k]]])]
  {
    hide VBlock;
  }

  lemma {:induction false} OrderIsKeyed(code: Decoder.Code, cfg: CFG, addrs: seq<Word>)
    requires ValidCfg(code, cfg) && AddressOrder(addrs, cfg.indexByAddr.Keys)
    ensures Keyed(cfg, addrs)
    ensures forall i :: 0 <= i < |addrs| ==> cfg.blocks[cfg.indexByAddr[addrs[i]]].start == addrs[i]
  {
    hide Order, Walks;
    forall i | 0 <= i < |addrs|
      ensures addrs[i] in cfg.indexByAddr && cfg.indexByAddr[addrs[i]] < |cfg.blocks|
      ensures cfg.blocks[cfg.indexByAddr[addrs[i]]].start == addrs[i]
    {
      assert addrs[i] in cfg.indexByAddr.Keys;
    }
  }

  /** No block of the graph misreads. */
  ghost predicate NoneMisreads(cfg: CFG) {
    forall i :: 0 <= i < |cfg.blocks| ==> !Misreads(cfg.blocks[i])
  }

  lemma {:induction false} MadeIsTranslation(cfg: CFG, addrs: seq<Word>, asgs: seq<Assignment>, presence: bool)
    requires AddressOrder(addrs, cfg.indexByAddr.Keys) && Keyed(cfg, addrs)
    requires AllMade(cfg, addrs, asgs, presence) && |asgs| == |addrs|
    ensures Emission(cfg, addrs, asgs, Emitted(VBlocks(cfg, addrs), asgs, cfg.entry))
    ensures presence || NoneMisreads(cfg) ==>
      Translation(cfg, addrs, asgs, Emitted(VBlocks(cfg, addrs), asgs, cfg.entry))
    ensures forall i :: 0 <= i < |addrs| ==> Mapped(VBlocks(cfg, addrs)[i], asgs[i])
  {
    hide VBlock, Sound, Mapped, Emitted, Increasing, Misreads, ComesFrom, FromAnalysis;
    if presence || NoneMisreads(cfg) {
      forall i | 0 <= i < |addrs| ensures Sound(asgs[i], BlockAt(cfg, addrs[i])) {
        MadeIsSound(asgs[i], BlockAt(cfg, addrs[i]), presence);
      }
    }
  }

  lemma {:induction false} NothingMade(cfg: CFG, addrs: seq<Word>, presence: bool)
    requires Keyed(cfg, addrs)
    ensures AllMade(cfg, addrs, [], presence)
  {
  }

  /** The driver, with the analysis as written or with the presence test in it. It never reaches
      an abort. */
  method Translate(ghost code: Decoder.Code, cfg: CFG, presence: bool)
    returns (mod: Module, addrs: seq<Word>, asgs: seq<Assignment>)
    requires ValidCfg(code, cfg)
    ensures Emission(cfg, addrs, asgs, mod) && AllMade(cfg, addrs, asgs, presence)
    ensures presence || NoneMisreads(cfg) ==> Translation(cfg, addrs, asgs, mod)
  {
    hide ValidCfg, ExactLive, Analyzed, IsSorting, Allocated, Mapped, Made, AddressOrder, AllMade, Emitted,
         ISel.Selected, Lifter.Lifted, Translation, Misreads, NoneMisreads;
    addrs := SortAddresses(cfg.indexByAddr.Keys);
    OrderIsKeyed(code, cfg, addrs);
    var blocks: seq<A.Block> := [];
    asgs := [];
    assert AllMade(cfg, addrs, [], presence) by { NothingMade(cfg, addrs, presence); }
    for k := 0 to |addrs|
      invariant blocks == VBlocks(cfg, addrs)[..k]
      invariant AllMade(cfg, addrs, asgs, presence) && |asgs| == k
    {
      var bb := cfg.blocks[cfg.indexByAddr[addrs[k]]];
      var ir := Lifter.Lift(bb);
      var blk := ISel.Select(ir);
      var live;
      if presence { live := ExactLive(blk); } else { live := Analyze(blk); }
      var items := SortItems(live);
      BlockIsAllocated(bb, presence, items);
      var outcome := Allocate(live, items);
      OneMoreMade(cfg, addrs, asgs, presence, outcome.v2p);
      VBlocksSnoc(cfg, addrs, k);
      blocks := blocks + [blk];
      asgs := asgs + [outcome.v2p];
    }
    assert |VBlocks(cfg, addrs)| == |addrs|;
    assert blocks == VBlocks(cfg, addrs);
    MadeIsTranslation(cfg, addrs, asgs, presence);
    var o := Emit(blocks, asgs, cfg.entry);
    mod := o.value;
  }

  /** From code memory and entry to the emitted module. */
  method TranslateProgram(code: Decoder.Code, entry: Word, presence: bool, ghost gap: Word)
    returns (cfg: CFG, mod: Module, addrs: seq<Word>, asgs: seq<Assignment>)
    requires entry % 4 != 0 || Barrier(code, gap)
    ensures ValidCfg(code, cfg) && cfg.entry == entry && mod.entryPc == entry
    ensures Emission(cfg, addrs, asgs, mod) && AllMade(cfg, addrs, asgs, presence)
    ensures presence || NoneMisreads(cfg) ==> Translation(cfg, addrs, asgs, mod)
  {
    hide ValidCfg, Translation, NoneMisreads, Barrier, EmittedBlocks, AllMade;
    cfg := Build(code, entry, gap);
    mod, addrs, asgs := Translate(code, cfg, presence);
  }
}
