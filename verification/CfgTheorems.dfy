/** What the finished graph is: a least closed set of starts, with blocks that repeat exactly
    what the reference machine fetches. */
module CfgTheorems {
  import opened Words
  import opened Riscv
  import opened Decoder
  import opened DecoderInverse
  import opened Reference
  import opened Cfg

  // ---------- Starts and successors ----------

  lemma StartIsLeader(code: Code, entry: Word, blocks: seq<BasicBlock>, i: nat, n: nat)
    requires BuiltInOrder(code, entry, blocks) && i < n <= |blocks|
    ensures blocks[i].start in Order(entry, blocks[..n])
    ensures i < |Order(entry, blocks[..n])| && blocks[i].start == Order(entry, blocks[..n])[i]
  {
    hide Walks;
    assert blocks[..n][..i] == blocks[..i];
    OrderPrefix(entry, blocks[..n], i);
  }

  /** The keys of the index are exactly the leaders, each block is found under its own start,
      and every successor has a block. */
  lemma SuccessorsAreKeys(code: Code, cfg: CFG)
    requires ValidCfg(code, cfg)
    ensures forall a :: a in cfg.indexByAddr <==> a in Order(cfg.entry, cfg.blocks)
    ensures cfg.entry in cfg.indexByAddr
    ensures forall i, a :: 0 <= i < |cfg.blocks| && a in cfg.blocks[i].succs ==> a in cfg.indexByAddr
    ensures forall i, j :: 0 <= i < j < |cfg.blocks| ==> cfg.blocks[i].start != cfg.blocks[j].start
  {
    hide Walks;
    var order := Order(cfg.entry, cfg.blocks);
    OrderFacts(cfg.entry, cfg.blocks);
    assert cfg.blocks[..|cfg.blocks|] == cfg.blocks;
    forall i | 0 <= i < |cfg.blocks| ensures cfg.blocks[i].start == order[i] {
      StartIsLeader(code, cfg.entry, cfg.blocks, i, |cfg.blocks|);
    }
    forall a ensures a in cfg.indexByAddr <==> a in order {
      if a in order {
        var i :| 0 <= i < |order| && order[i] == a;
        assert cfg.blocks[i].start == a;
      }
    }
  }

  ghost predicate Closed(blocks: seq<BasicBlock>, starts: iset<Word>) {
    forall i, a :: 0 <= i < |blocks| && blocks[i].start in starts && a in blocks[i].succs ==> a in starts
  }

  lemma {:induction false} LeadersInClosed(code: Code, entry: Word, blocks: seq<BasicBlock>, starts: iset<Word>)
    requires BuiltInOrder(code, entry, blocks) && entry in starts && Closed(blocks, starts)
    ensures forall a :: a in Order(entry, blocks) ==> a in starts
    decreases |blocks|
  {
    hide BuiltInOrder;
    if blocks != [] {
      var n := |blocks| - 1;
      BuiltBefore(code, entry, blocks);
      assert Closed(blocks[..n], starts);
      LeadersInClosed(code, entry, blocks[..n], starts);
      AddNewFacts(Order(entry, blocks[..n]), blocks[n].succs);
      assert forall a :: a in blocks[n].succs ==> a in starts;
    }
  }

  lemma {:induction false} BuiltBefore(code: Code, entry: Word, blocks: seq<BasicBlock>)
    requires BuiltInOrder(code, entry, blocks) && blocks != []
    ensures BuiltInOrder(code, entry, blocks[..|blocks| - 1])
    ensures blocks[|blocks| - 1].start in Order(entry, blocks[..|blocks| - 1])
  {
    hide Walks, Order;
    var before := blocks[..|blocks| - 1];
    assert forall i :: 0 <= i < |before| ==> before[i] == blocks[i] && before[..i] == blocks[..i];
  }

  /** The block starts are the least set that holds the entry and is closed under successors. */
  lemma KeysAreLeast(code: Code, cfg: CFG, starts: iset<Word>)
    requires ValidCfg(code, cfg)
    ensures Closed(cfg.blocks, iset a | a in cfg.indexByAddr)
    ensures cfg.entry in starts && Closed(cfg.blocks, starts) ==> forall a :: a in cfg.indexByAddr ==> a in starts
  {
    hide Walks;
    SuccessorsAreKeys(code, cfg);
    if cfg.entry in starts && Closed(cfg.blocks, starts) {
      LeadersInClosed(code, cfg.entry, cfg.blocks, starts);
    }
  }

  // ---------- Independent of the order of building ----------

  /** Instructions after which execution always goes on at the next address. */
  predicate Straight(inst: DecodedInst) {
    !inst.operands.Branch? && !inst.opcode.JAL? && !inst.opcode.JALR? && !inst.opcode.ECALL? && !inst.opcode.EBREAK?
  }

  /** Where a branch or JAL may go, as the reference machine goes. */
  ghost predicate MayGoTo(inst: DecodedInst, s: Word) {
    || (inst.operands.Branch? && (s == Add(inst.pc, Bits(inst.operands.imm)) || s == Add(inst.pc, 4)))
    || (inst.opcode.JAL? && exists g :: s == NextPc(inst, g))
  }

  lemma {:induction false} StraightIsNoEnd(inst: DecodedInst)
    requires WellFormed(inst)
    ensures Straight(inst) <==> EndAfter(inst) == NoTerm
  {
    hide WellFormed;
    EndKinds(inst);
    BranchesAreBranches(inst);
  }

  lemma {:induction false} BranchesAreBranches(inst: DecodedInst)
    requires WellFormed(inst)
    ensures IsCondBranch(inst.opcode) <==> inst.operands.Branch?
  {
    hide SignedBelow;
  }

  lemma {:induction false} GoesWhereSuccsAre(inst: DecodedInst, s: Word)
    requires WellFormed(inst)
    ensures MayGoTo(inst, s) <==> s in SuccsAfter(inst)
  {
    hide Bits, Add, SignedBelow, BranchTaken;
    if inst.opcode.JAL? {
      var g := Guest(map[], map[]);
      assert NextPc(inst, g) == Add(inst.pc, Bits(inst.operands.imm));
    }
  }

  /** The reference machine goes on at the next address after a straight instruction, and only where a
      branch or JAL may go after one of these. */
  lemma {:induction false} ExecutionGoes(inst: DecodedInst, g: Guest)
    requires WellFormed(inst)
    ensures Straight(inst) ==> Execute(Success(inst), g) == Running(Add(inst.pc, 4), Exec(inst, g))
    ensures inst.operands.Branch? || inst.opcode.JAL? ==>
      Execute(Success(inst), g) == Running(NextPc(inst, g), Exec(inst, g)) && MayGoTo(inst, NextPc(inst, g))
    ensures inst.opcode.JALR? || inst.opcode.ECALL? || inst.opcode.EBREAK? ==> Execute(Success(inst), g).Stopped?
  {
    hide Bits, Add, SignedBelow, BranchTaken, Exec;
  }

  /** The straight walk from a meets its first terminator at its n-th instruction. */
  ghost predicate StraightTo(code: Code, a: Word, n: nat) {
    && (forall i :: 0 <= i < n ==> Decode(code, PcAt(a, i)).Success? && Straight(Decode(code, PcAt(a, i)).inst))
    && Decode(code, PcAt(a, n)).Success? && !Straight(Decode(code, PcAt(a, n)).inst)
  }

  /** Control flows from a straight to a branch or JAL that may go to s: a matter of code alone. */
  ghost predicate LeadsTo(code: Code, a: Word, s: Word) {
    exists n: nat :: StraightTo(code, a, n) && MayGoTo(Decode(code, PcAt(a, n)).inst, s)
  }

  ghost predicate FlowClosed(code: Code, starts: iset<Word>) {
    forall a, s :: a in starts && LeadsTo(code, a, s) ==> s in starts
  }

  lemma {:induction false} StraightOn(code: Code, a: Word, m: nat, n: nat)
    requires StraightTo(code, a, n) && m <= n
    ensures StraightTo(code, PcAt(a, m), n - m) && PcAt(PcAt(a, m), n - m) == PcAt(a, n)
  {
    hide Decode, Straight, PcAt;
    PcAtSplit(a, m, n - m);
    forall i | 0 <= i < n - m
      ensures Decode(code, PcAt(PcAt(a, m), i)).Success? && Straight(Decode(code, PcAt(PcAt(a, m), i)).inst)
    {
      PcAtSplit(a, m, i);
      assert PcAt(a, m + i) == PcAt(PcAt(a, m), i);
    }
  }

  lemma {:induction false} DecodedEnd(code: Code, a: Word)
    requires Decode(code, a).Success?
    ensures Straight(Decode(code, a).inst) <==> EndAfter(Decode(code, a).inst) == NoTerm
    ensures forall s :: MayGoTo(Decode(code, a).inst, s) <==> s in SuccsAfter(Decode(code, a).inst)
  {
    hide Decode, Straight, MayGoTo, EndAfter, SuccsAfter, WellFormed;
    DecodeIsWellFormed(code, a);
    StraightIsNoEnd(Decode(code, a).inst);
    forall s ensures MayGoTo(Decode(code, a).inst, s) <==> s in SuccsAfter(Decode(code, a).inst) {
      GoesWhereSuccsAre(Decode(code, a).inst, s);
    }
  }

  /** How far the straight walk from the start of a block goes, against the block. */
  lemma {:induction false} WalkAgainstBlock(code: Code, stops: seq<Word>, bb: BasicBlock, n: nat)
    requires Walks(code, stops, bb) && StraightTo(code, bb.start, n)
    ensures
      var m := |bb.insts|;
      if m > 0 && EndAfter(bb.insts[m - 1]) != NoTerm
      then n == m - 1 && bb.succs == SuccsAfter(Decode(code, PcAt(bb.start, n)).inst)
      else 0 < m <= n && bb.succs == [PcAt(bb.start, m)]
  {
    hide Decode, EndAfter, PcAt, SuccsAfter, Straight;
    var m := |bb.insts|;
    forall i | 0 <= i < m
      ensures Decode(code, PcAt(bb.start, i)) == Success(bb.insts[i])
      ensures Straight(bb.insts[i]) <==> EndAfter(bb.insts[i]) == NoTerm
    {
      DecodedEnd(code, PcAt(bb.start, i));
    }
  }

  lemma {:induction false} KeyLeadsToKey(code: Code, cfg: CFG, a: Word, s: Word, n: nat)
    requires ValidCfg(code, cfg) && a in cfg.indexByAddr
    requires StraightTo(code, a, n) && MayGoTo(Decode(code, PcAt(a, n)).inst, s)
    ensures s in cfg.indexByAddr
    decreases n
  {
    hide Decode, EndAfter, PcAt, SuccsAfter, Walks, Order, MayGoTo, Straight;
    var i := cfg.indexByAddr[a];
    var bb := cfg.blocks[i];
    SuccessorsAreKeys(code, cfg);
    WalkAgainstBlock(code, Order(cfg.entry, cfg.blocks[..i]), bb, n);
    DecodedEnd(code, PcAt(a, n));
    var m := |bb.insts|;
    if s !in bb.succs {
      assert PcAt(a, m) in bb.succs;
      StraightOn(code, a, m, n);
      KeyLeadsToKey(code, cfg, PcAt(a, m), s, n - m);
    }
  }

  lemma {:induction false} BlockInFlow(code: Code, stops: seq<Word>, bb: BasicBlock, starts: iset<Word>)
    requires Walks(code, stops, bb) && FlowClosed(code, starts) && bb.start in starts
    requires forall a :: a in stops ==> a in starts
    ensures forall a :: a in bb.succs ==> a in starts
  {
    hide Decode, EndAfter, PcAt, SuccsAfter, Straight, MayGoTo;
    var n := |bb.insts|;
    if n > 0 && EndAfter(bb.insts[n - 1]) != NoTerm {
      forall i | 0 <= i < n
        ensures Decode(code, PcAt(bb.start, i)) == Success(bb.insts[i])
        ensures Straight(bb.insts[i]) <==> EndAfter(bb.insts[i]) == NoTerm
      {
        DecodedEnd(code, PcAt(bb.start, i));
      }
      assert StraightTo(code, bb.start, n - 1);
      DecodedEnd(code, PcAt(bb.start, n - 1));
      forall a | a in bb.succs ensures a in starts {
        assert LeadsTo(code, bb.start, a);
      }
    }
  }

  lemma {:induction false} LeadersInFlow(code: Code, entry: Word, blocks: seq<BasicBlock>, starts: iset<Word>)
    requires BuiltInOrder(code, entry, blocks) && entry in starts && FlowClosed(code, starts)
    ensures forall a :: a in Order(entry, blocks) ==> a in starts
    decreases |blocks|
  {
    hide BuiltInOrder, FlowClosed, Walks;
    if blocks != [] {
      var n := |blocks| - 1;
      BuiltBefore(code, entry, blocks);
      LeadersInFlow(code, entry, blocks[..n], starts);
      AddNewFacts(Order(entry, blocks[..n]), blocks[n].succs);
      LastWalks(code, entry, blocks);
      BlockInFlow(code, Order(entry, blocks[..n]), blocks[n], starts);
    }
  }

  lemma {:induction false} LastWalks(code: Code, entry: Word, blocks: seq<BasicBlock>)
    requires BuiltInOrder(code, entry, blocks) && blocks != []
    ensures Walks(code, Order(entry, blocks[..|blocks| - 1]), blocks[|blocks| - 1])
  {
    hide Walks, Order;
  }

  /** The keys are the least set that holds the entry and, with each address, where the branch or JAL
      that ends the straight walk from it may go: a function of code and entry, whatever the
      order in which blocks were built and split. */
  lemma {:induction false} KeysAreLeastByFlow(code: Code, cfg: CFG, starts: iset<Word>)
    requires ValidCfg(code, cfg)
    ensures cfg.entry in cfg.indexByAddr && FlowClosed(code, iset a | a in cfg.indexByAddr)
    ensures cfg.entry in starts && FlowClosed(code, starts) ==> forall a :: a in cfg.indexByAddr ==> a in starts
  {
    hide Walks, StraightTo, MayGoTo, Decode, Order, FlowClosed, Indexes, BuiltInOrder;
    SuccessorsAreKeys(code, cfg);
    KeysAreClosed(code, cfg);
    if cfg.entry in starts && FlowClosed(code, starts) {
      LeadersInFlow(code, cfg.entry, cfg.blocks, starts);
    }
  }

  lemma {:induction false} KeysAreClosed(code: Code, cfg: CFG)
    requires ValidCfg(code, cfg)
    ensures FlowClosed(code, iset a | a in cfg.indexByAddr)
  {
    hide ValidCfg, MayGoTo, Decode, PcAt, Straight;
    forall a, s | a in cfg.indexByAddr && LeadsTo(code, a, s) ensures s in cfg.indexByAddr {
      var n: nat :| StraightTo(code, a, n) && MayGoTo(Decode(code, PcAt(a, n)).inst, s);
      KeyLeadsToKey(code, cfg, a, s, n);
    }
  }

  // ---------- Successors ----------

  ghost predicate AlwaysGoesTo(inst: DecodedInst, s: Word) {
    forall g :: NextPc(inst, g) == s
  }

  /** What the successors of a block are, by how it ends: the target of a branch and then the next
      address; where a JAL goes; the next address of a split; and none for an indirect jump, a return
      or a trap. */
  lemma {:induction false} SuccessorsMean(code: Code, stops: seq<Word>, bb: BasicBlock)
    requires Walks(code, stops, bb)
    ensures bb.term == IndirectJump || bb.term == Return || bb.term == Trap ==> bb.succs == []
    ensures bb.term == CondBranch ==>
      && bb.insts != [] && bb.insts[|bb.insts| - 1].operands.Branch?
      && var last := bb.insts[|bb.insts| - 1];
      bb.succs == [Add(last.pc, Bits(last.operands.imm)), Add(last.pc, 4)]
    ensures bb.term == Jump ==>
      && bb.insts != [] && bb.insts[|bb.insts| - 1].opcode.JAL?
      && |bb.succs| == 1 && AlwaysGoesTo(bb.insts[|bb.insts| - 1], bb.succs[0])
    ensures bb.term == Fallthrough ==>
      bb.insts != [] && bb.succs == [PcAt(bb.start, |bb.insts|)] && bb.succs[0] in stops
    ensures bb.term != NoTerm
  {
    hide Decode, PcAt, Bits, Add, EndAfter, SuccsAfter, WellFormed;
    var n := |bb.insts|;
    if n > 0 && EndAfter(bb.insts[n - 1]) != NoTerm {
      DecodedInCode(code, PcAt(bb.start, n - 1));
      DecodeIsWellFormed(code, PcAt(bb.start, n - 1));
      EndMeans(bb.insts[n - 1]);
    }
  }

  lemma {:induction false} EndMeans(inst: DecodedInst)
    requires WellFormed(inst)
    ensures EndAfter(inst) == IndirectJump || EndAfter(inst) == Return || EndAfter(inst) == Trap ==>
      SuccsAfter(inst) == []
    ensures EndAfter(inst) == CondBranch ==>
      inst.operands.Branch? && SuccsAfter(inst) == [Add(inst.pc, Bits(inst.operands.imm)), Add(inst.pc, 4)]
    ensures EndAfter(inst) == Jump ==>
      inst.opcode.JAL? && |SuccsAfter(inst)| == 1 && AlwaysGoesTo(inst, SuccsAfter(inst)[0])
    ensures EndAfter(inst) != Fallthrough
  {
    hide Bits, Add, SignedBelow;
  }

  // ---------- When building ends ----------

  lemma {:induction false} UnmappedIsBarrier(code: Code, gap: Word)
    requires gap % 4 == 0 && gap !in code
    ensures Barrier(code, gap)
  {
    hide Decode;
    if Decode(code, gap).Success? { DecodedInCode(code, gap); }
  }

  function AlignedBelow(n: nat): set<Word>
    requires n <= 0x4000_0000_0000_0000
  {
    if n == 0 then {} else AlignedBelow(n - 1) + {4 * (n - 1)}
  }

  lemma {:induction false} NextAligned(a: int, n: int)
    ensures a % 4 == 0 && a < 4 * n <==> a % 4 == 0 && (a < 4 * (n - 1) || a == 4 * (n - 1))
  {
  }

  lemma {:induction false} AlignedCount(n: nat)
    requires n <= 0x4000_0000_0000_0000
    ensures |AlignedBelow(n)| == n
    ensures forall a: Word :: a in AlignedBelow(n) <==> a % 4 == 0 && a < 4 * n
  {
    if n > 0 {
      AlignedCount(n - 1);
      var last: Word := 4 * (n - 1);
      assert last !in AlignedBelow(n - 1);
      assert AlignedBelow(n) == AlignedBelow(n - 1) + {last};
      forall a: Word ensures a in AlignedBelow(n) <==> a % 4 == 0 && a < 4 * n {
        NextAligned(a, n);
      }
    }
  }

  lemma {:induction false} Pigeon(a: set<Word>, b: set<Word>)
    requires a <= b
    ensures |a| <= |b|
  {
    assert b == a + (b - a);
  }

  /** A code memory of fewer than 2^62 words has a barrier. */
  lemma {:induction false} SmallCodeHasBarrier(code: Code) returns (gap: Word)
    requires |code| < 0x4000_0000_0000_0000
    ensures Barrier(code, gap)
  {
    hide AlignedBelow, Barrier;
    var all := AlignedBelow(0x4000_0000_0000_0000);
    AlignedCount(0x4000_0000_0000_0000);
    if all <= code.Keys { Pigeon(all, code.Keys); }
    gap :| gap in all && gap !in code.Keys;
    UnmappedIsBarrier(code, gap);
  }

  lemma {:induction false} AlignedStays(start: Word, i: nat)
    requires start % 4 == 0
    ensures PcAt(start, i) % 4 == 0
    decreases i
  {
    if i > 0 { AlignedStays(start, i - 1); }
  }

  /** A graph exists only if the entry is misaligned or some barrier exists: without one the first
      walk never ends. */
  lemma {:induction false} GraphNeedsBarrier(code: Code, cfg: CFG)
    requires ValidCfg(code, cfg)
    ensures cfg.entry % 4 != 0 || exists gap :: Barrier(code, gap)
  {
    hide Decode, EndAfter, SuccsAfter, Indexes;
    OrderFacts(cfg.entry, cfg.blocks);
    var bb := cfg.blocks[0];
    assert cfg.blocks[..0] == [];
    assert Walks(code, [cfg.entry], bb) && bb.start == cfg.entry;
    if cfg.entry % 4 == 0 {
      var n := |bb.insts|;
      AlignedStays(bb.start, n);
      if n > 0 && EndAfter(bb.insts[n - 1]) != NoTerm {
        AlignedStays(bb.start, n - 1);
        assert Barrier(code, PcAt(bb.start, n - 1));
      } else {
        assert Barrier(code, PcAt(bb.start, n));
      }
    }
  }

  // ---------- Blocks that share an address ----------

  lemma {:induction false} PcAtSplit(a: Word, p: nat, q: nat)
    ensures PcAt(a, p + q) == PcAt(PcAt(a, p), q)
    decreases q
  {
    hide Add;
    if q > 0 {
      PcAtSplit(a, p, q - 1);
    }
  }

  lemma Add4Injective(a: Word, b: Word)
    requires Add(a, 4) == Add(b, 4)
    ensures a == b
  {
  }

  lemma {:induction false} PcAtCancel(a: Word, p: nat, b: Word, q: nat)
    requires q <= p && PcAt(a, p) == PcAt(b, q)
    ensures PcAt(a, p - q) == b
    decreases q
  {
    hide Add;
    if q > 0 {
      Add4Injective(PcAt(a, p - 1), PcAt(b, q - 1));
      PcAtCancel(a, p - 1, b, q - 1);
    }
  }

  lemma {:induction false} SameInstructions(code: Code, bi: BasicBlock, si: seq<Word>, bj: BasicBlock, sj: seq<Word>,
                                            d: nat, t: nat)
    requires Walks(code, si, bi) && Walks(code, sj, bj)
    requires PcAt(bi.start, d) == bj.start && d + t < |bi.insts|
    ensures t < |bj.insts| ==> bj.insts[t] == bi.insts[d + t]
    ensures PcAt(bj.start, t) == PcAt(bi.start, d + t)
  {
    hide Decode, EndAfter, SuccsAfter, PcAt, Ends;
    PcAtSplit(bi.start, d, t);
    assert Decode(code, PcAt(bi.start, d + t)) == Success(bi.insts[d + t]);
    assert t < |bj.insts| ==> Decode(code, PcAt(bj.start, t)) == Success(bj.insts[t]);
  }

  /** Where the earlier block ends, the later one has ended. */
  lemma {:induction false} NoLonger(code: Code, bi: BasicBlock, si: seq<Word>, bj: BasicBlock, sj: seq<Word>, d: nat)
    requires Walks(code, si, bi) && Walks(code, sj, bj)
    requires 0 < d < |bi.insts| && PcAt(bi.start, d) == bj.start
    requires forall a :: a in si ==> a in sj
    ensures |bj.insts| <= |bi.insts| - d
  {
    hide Decode, EndAfter, SuccsAfter, PcAt;
    var m := |bi.insts| - d;
    PcAtSplit(bi.start, d, m);
    SameInstructions(code, bi, si, bj, sj, d, m - 1);
    DecodesThere(code, sj, bj, m);
  }

  lemma {:induction false} DecodesThere(code: Code, stops: seq<Word>, bb: BasicBlock, t: nat)
    requires Walks(code, stops, bb)
    ensures t < |bb.insts| ==> Decode(code, PcAt(bb.start, t)) == Success(bb.insts[t])
  {
    hide Decode, PcAt, Ends;
  }

  lemma {:induction false} SuffixPrefix(code: Code, bi: BasicBlock, si: seq<Word>, bj: BasicBlock, sj: seq<Word>,
                                        d: nat)
    requires Walks(code, si, bi) && Walks(code, sj, bj)
    requires 0 < d < |bi.insts| && PcAt(bi.start, d) == bj.start
    requires forall a :: a in si ==> a in sj
    ensures bj.insts <= bi.insts[d..]
  {
    hide Walks, PcAt;
    NoLonger(code, bi, si, bj, sj, d);
    forall t | 0 <= t < |bj.insts| ensures bj.insts[t] == bi.insts[d..][t] {
      SameInstructions(code, bi, si, bj, sj, d, t);
    }
  }

  lemma LeadersGrow(entry: Word, blocks: seq<BasicBlock>, i: nat, j: nat)
    requires i <= j <= |blocks|
    ensures forall a :: a in Order(entry, blocks[..i]) ==> a in Order(entry, blocks[..j])
  {
    assert blocks[..j][..i] == blocks[..i];
    OrderPrefix(entry, blocks[..j], i);
  }

  /** No block runs over the start of a block that was built before it. */
  lemma InteriorIsNotEarlier(code: Code, cfg: CFG, i: nat, d: nat, j: nat)
    requires ValidCfg(code, cfg) && i < |cfg.blocks| && d < |cfg.blocks[i].insts| && j < |cfg.blocks| && i != j
    requires PcAt(cfg.blocks[i].start, d) == cfg.blocks[j].start
    ensures 0 < d && i < j
  {
    hide Decode, EndAfter, SuccsAfter, Ends, Order, Indexes;
    SuccessorsAreKeys(code, cfg);
    assert j < i ==> cfg.blocks[j].start in Order(cfg.entry, cfg.blocks[..i]) by {
      if j < i { StartIsLeader(code, cfg.entry, cfg.blocks, j, i); }
    }
  }

  /** Two blocks that share an instruction address: the one that starts later was built later,
      and its instructions are a prefix of the other's from that start on. */
  lemma SharedAddress(code: Code, cfg: CFG, i: nat, j: nat, p: nat, q: nat)
    requires ValidCfg(code, cfg) && i < |cfg.blocks| && j < |cfg.blocks| && i != j
    requires q <= p < |cfg.blocks[i].insts| && q < |cfg.blocks[j].insts|
    requires PcAt(cfg.blocks[i].start, p) == PcAt(cfg.blocks[j].start, q)
    ensures q < p && i < j
    ensures PcAt(cfg.blocks[i].start, p - q) == cfg.blocks[j].start
    ensures cfg.blocks[j].insts <= cfg.blocks[i].insts[p - q..]
  {
    hide Walks, PcAt, Order, Indexes;
    var entry, blocks := cfg.entry, cfg.blocks;
    SuccessorsAreKeys(code, cfg);
    PcAtCancel(blocks[i].start, p, blocks[j].start, q);
    InteriorIsNotEarlier(code, cfg, i, p - q, j);
    LeadersGrow(entry, blocks, i, j);
    SuffixPrefix(code, blocks[i], Order(entry, blocks[..i]), blocks[j], Order(entry, blocks[..j]), p - q);
  }

  // ---------- Blocks and the reference machine ----------

  function ExecAll(insts: seq<DecodedInst>, g: Guest): Guest {
    if insts == [] then g else Exec(insts[|insts| - 1], ExecAll(insts[..|insts| - 1], g))
  }

  /** Where the reference machine is once it has run the instructions of a block, g being the
      guest afterwards. */
  function BlockExit(bb: BasicBlock, g: Guest): Config {
    match bb.term
    case CondBranch =>
      if |bb.succs| != 2 || bb.insts == [] then Stopped(TrapStop, g)
      else
        var last := bb.insts[|bb.insts| - 1];
        if !last.operands.Branch? then Stopped(TrapStop, g)
        else if BranchTaken(last.opcode, Reg(g.x, last.operands.rs1), Reg(g.x, last.operands.rs2))
        then Running(bb.succs[0], g) else Running(bb.succs[1], g)
    case Jump => if bb.succs == [] then Stopped(TrapStop, g) else Running(bb.succs[0], g)
    case Fallthrough => if bb.succs == [] then Stopped(TrapStop, g) else Running(bb.succs[0], g)
    case Return => Stopped(ReturnStop, g)
    case IndirectJump => Stopped(IndirectStop, g)
    case Trap => Stopped(TrapStop, g)
    case NoTerm => Stopped(TrapStop, g)
  }

  /** The number of reference steps a block stands for: one per instruction, and one more for
      an undecodable end. */
  function StepsOf(bb: BasicBlock): nat {
    if bb.term == Trap && (bb.insts == [] || !IsTrap(bb.insts[|bb.insts| - 1].opcode)) then |bb.insts| + 1
    else |bb.insts|
  }

  lemma StepOver(code: Code, pc: Word, g: Guest)
    requires Decode(code, pc).Success? && EndAfter(Decode(code, pc).inst) == NoTerm
    ensures Step(code, Running(pc, g)) == Running(Add(pc, 4), Exec(Decode(code, pc).inst, g))
  {
    hide DecodeWord, Exec;
    DecodedInCode(code, pc);
    DecodeIsWellFormed(code, pc);
  }

  /** Before its terminator a block is straight-line reference execution. */
  lemma {:induction false} WalkRuns(code: Code, stops: seq<Word>, bb: BasicBlock, g: Guest, k: nat)
    requires Walks(code, stops, bb) && k <= |bb.insts|
    requires k == |bb.insts| > 0 ==> EndAfter(bb.insts[k - 1]) == NoTerm
    ensures Run(code, Running(bb.start, g), k) == Running(PcAt(bb.start, k), ExecAll(bb.insts[..k], g))
    decreases k
  {
    hide Decode, EndAfter, SuccsAfter, Exec, Step, Ends;
    if k > 0 {
      WalkRuns(code, stops, bb, g, k - 1);
      assert bb.insts[..k][..k - 1] == bb.insts[..k - 1];
      StepOver(code, PcAt(bb.start, k - 1), ExecAll(bb.insts[..k - 1], g));
    }
  }

  lemma BranchOff(code: Code, pc: Word, g: Guest, inst: DecodedInst, bb: BasicBlock)
    requires Decode(code, pc) == Success(inst) && WellFormed(inst) && inst.pc == pc && inst.operands.Branch?
    requires bb.term == CondBranch && bb.succs == SuccsAfter(inst)
    requires bb.insts != [] && bb.insts[|bb.insts| - 1] == inst
    ensures Step(code, Running(pc, g)) == BlockExit(bb, Exec(inst, g))
  {
    hide Decode, BranchTaken;
  }

  lemma JumpOff(code: Code, pc: Word, g: Guest, inst: DecodedInst, bb: BasicBlock)
    requires Decode(code, pc) == Success(inst) && WellFormed(inst) && inst.opcode == JAL
    requires inst.pc == pc && bb.term == Jump && bb.succs == SuccsAfter(inst)
    ensures Step(code, Running(pc, g)) == BlockExit(bb, Exec(inst, g))
  {
    hide Decode, Exec;
  }

  lemma TrapOff(code: Code, pc: Word, g: Guest, inst: DecodedInst, bb: BasicBlock)
    requires Decode(code, pc) == Success(inst) && WellFormed(inst) && IsTrap(inst.opcode)
    requires bb.term == EndAfter(inst)
    ensures Step(code, Running(pc, g)) == BlockExit(bb, Exec(inst, g))
  {
    hide Decode, SetReg, BinaryResult, LoadResult, StoreBytes, SignedBelow, NextPc;
  }

  lemma StopOff(code: Code, pc: Word, g: Guest, inst: DecodedInst, bb: BasicBlock)
    requires Decode(code, pc) == Success(inst) && WellFormed(inst)
    requires inst.opcode == JALR || IsTrap(inst.opcode)
    requires bb.term == EndAfter(inst)
    ensures Step(code, Running(pc, g)) == BlockExit(bb, Exec(inst, g))
  {
    hide Decode, Exec, WellFormed, NextPc;
    if IsTrap(inst.opcode) { TrapOff(code, pc, g, inst, bb); }
  }

  lemma EndKinds(inst: DecodedInst)
    requires WellFormed(inst)
    ensures EndAfter(inst) == Trap <==> IsTrap(inst.opcode)
    ensures EndAfter(inst) == Jump <==> inst.opcode == JAL
    ensures EndAfter(inst) == CondBranch <==> inst.operands.Branch?
    ensures EndAfter(inst) != Fallthrough && (inst.opcode == JAL ==> inst.operands.RegImm?)
    ensures EndAfter(inst) == NoTerm || EndAfter(inst) == Trap || EndAfter(inst) == Jump
      || EndAfter(inst) == CondBranch || inst.opcode == JALR
  {
  }

  lemma StepOff(code: Code, pc: Word, g: Guest, inst: DecodedInst, bb: BasicBlock)
    requires Decode(code, pc) == Success(inst) && EndAfter(inst) != NoTerm
    requires bb.term == EndAfter(inst) && bb.succs == SuccsAfter(inst)
    requires bb.insts != [] && bb.insts[|bb.insts| - 1] == inst
    ensures Step(code, Running(pc, g)) == BlockExit(bb, Exec(inst, g))
    ensures bb.term == Trap <==> IsTrap(inst.opcode)
  {
    hide Decode, Exec, EndAfter, SuccsAfter, Step, BlockExit, WellFormed, IsTrap;
    DecodedInCode(code, pc);
    DecodeIsWellFormed(code, pc);
    EndKinds(inst);
    if inst.operands.Branch? { BranchOff(code, pc, g, inst, bb); }
    else if inst.opcode == JAL { JumpOff(code, pc, g, inst, bb); }
    else { StopOff(code, pc, g, inst, bb); }
  }

  lemma LastIsNoTrap(code: Code, stops: seq<Word>, bb: BasicBlock)
    requires Walks(code, stops, bb) && bb.insts != [] && EndAfter(bb.insts[|bb.insts| - 1]) == NoTerm
    ensures !IsTrap(bb.insts[|bb.insts| - 1].opcode)
  {
    hide Decode, SuccsAfter;
  }

  lemma LastAddress(bb: BasicBlock, g: Guest)
    requires bb.insts != []
    ensures ExecAll(bb.insts, g) == Exec(bb.insts[|bb.insts| - 1], ExecAll(bb.insts[..|bb.insts| - 1], g))
  {
  }

  /** Running a block from its start is running the reference machine for its steps, whatever
      ended the block: a branch, a jump, a split at another leader, a trap or bad code. */
  lemma BlockRuns(code: Code, stops: seq<Word>, bb: BasicBlock, g: Guest)
    requires Walks(code, stops, bb)
    ensures Run(code, Running(bb.start, g), StepsOf(bb)) == BlockExit(bb, ExecAll(bb.insts, g))
  {
    hide Decode, SuccsAfter, EndAfter, Exec, ExecAll, Step, IsTrap, PcAt;
    var n := |bb.insts|;
    assert bb.insts[..n] == bb.insts;
    if n > 0 && EndAfter(bb.insts[n - 1]) != NoTerm {
      WalkRuns(code, stops, bb, g, n - 1);
      LastAddress(bb, g);
      StepOff(code, PcAt(bb.start, n - 1), ExecAll(bb.insts[..n - 1], g), bb.insts[n - 1], bb);
    } else {
      WalkRuns(code, stops, bb, g, n);
      if n > 0 { LastIsNoTrap(code, stops, bb); }
      StepIntoBadCode(code, PcAt(bb.start, n), ExecAll(bb.insts, g));
    }
  }

  lemma StepIntoBadCode(code: Code, pc: Word, g: Guest)
    ensures Decode(code, pc).Failure? ==> Step(code, Running(pc, g)) == Stopped(TrapStop, g)
  {
    hide DecodeWord;
  }
}
