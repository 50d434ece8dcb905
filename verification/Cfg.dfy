/** Control-flow graph construction: a worklist of block starts over code memory. */
module Cfg {
  import opened Words
  import opened Riscv
  import opened Decoder

  datatype TermKind = NoTerm | Fallthrough | CondBranch | Jump | IndirectJump | Return | Trap

  datatype BasicBlock = BasicBlock(start: Word, insts: seq<DecodedInst>, term: TermKind, succs: seq<Word>)

  datatype CFG = CFG(entry: Word, blocks: seq<BasicBlock>, indexByAddr: map<Word, nat>)

  /** The address of the i-th instruction of a block. */
  function PcAt(start: Word, i: nat): Word {
    if i == 0 then start else Add(PcAt(start, i - 1), 4)
  }

  /** How an instruction ends a block; NoTerm when the walk goes on. */
  function EndAfter(inst: DecodedInst): TermKind {
    if IsCondBranch(inst.opcode) then CondBranch
    else if inst.opcode == JAL then Jump
    else if IsIndirect(inst) then IndirectJump
    else if IsReturn(inst) then Return
    else if IsTrap(inst.opcode) then Trap
    else NoTerm
  }

  /** The static successors of a terminator: a branch names its target before the fallthrough. */
  function SuccsAfter(inst: DecodedInst): seq<Word> {
    match inst.operands
    case Branch(_, _, imm) => [Add(inst.pc, Bits(imm)), Add(inst.pc, 4)]
    case RegImm(_, imm) => if inst.opcode == JAL then [Add(inst.pc, Bits(imm))] else []
    case _ => []
  }

  // ---------- What building computes ----------

  /** The leaders in the order in which they were first seen. */
  function AddNew(order: seq<Word>, addrs: seq<Word>): seq<Word>
    decreases |addrs|
  {
    if addrs == [] then order
    else AddNew(if addrs[0] in order then order else order + [addrs[0]], addrs[1..])
  }

  function Order(entry: Word, blocks: seq<BasicBlock>): seq<Word> {
    if blocks == [] then [entry]
    else AddNew(Order(entry, blocks[..|blocks| - 1]), blocks[|blocks| - 1].succs)
  }

  /** bb is the walk from its start: decoded instructions up to the first terminator,
      undecodable address or already known leader. */
  ghost predicate Walks(code: Code, stops: seq<Word>, bb: BasicBlock) {
    var n := |bb.insts|;
    && (forall i :: 0 <= i < n ==> Decode(code, PcAt(bb.start, i)) == Success(bb.insts[i]))
    && (forall i :: 0 <= i < n - 1 ==> EndAfter(bb.insts[i]) == NoTerm)
    && (forall i :: 0 < i < n ==> PcAt(bb.start, i) == bb.start || PcAt(bb.start, i) !in stops)
    && Ends(code, stops, bb)
  }

  ghost predicate Ends(code: Code, stops: seq<Word>, bb: BasicBlock) {
    var n := |bb.insts|;
    var next := PcAt(bb.start, n);
    if n > 0 && EndAfter(bb.insts[n - 1]) != NoTerm then
      bb.term == EndAfter(bb.insts[n - 1]) && bb.succs == SuccsAfter(bb.insts[n - 1])
    else if n > 0 && next != bb.start && next in stops then
      bb.term == Fallthrough && bb.succs == [next]
    else
      Decode(code, next).Failure? && bb.term == Trap && bb.succs == []
  }

  ghost predicate Indexes(index: map<Word, nat>, blocks: seq<BasicBlock>) {
    && (forall i :: 0 <= i < |blocks| ==> blocks[i].start in index && index[blocks[i].start] == i)
    && (forall a :: a in index ==> index[a] < |blocks| && blocks[index[a]].start == a)
  }

  /** Block i starts at the i-th leader and was walked with the leaders known by then. */
  ghost predicate BuiltInOrder(code: Code, entry: Word, blocks: seq<BasicBlock>) {
    && (forall i :: 0 <= i < |blocks| ==>
          i < |Order(entry, blocks[..i])| && blocks[i].start == Order(entry, blocks[..i])[i])
    && (forall i :: 0 <= i < |blocks| ==> Walks(code, Order(entry, blocks[..i]), blocks[i]))
  }

  ghost predicate ValidCfg(code: Code, cfg: CFG) {
    && BuiltInOrder(code, cfg.entry, cfg.blocks)
    && |Order(cfg.entry, cfg.blocks)| == |cfg.blocks|
    && Indexes(cfg.indexByAddr, cfg.blocks)
  }

  // ---------- Facts about the leader order ----------

  predicate Distinct(s: seq<Word>) {
    forall i, j :: 0 <= i < j < |s| ==> s[i] != s[j]
  }

  lemma {:induction false} AddNewFacts(order: seq<Word>, addrs: seq<Word>)
    ensures order <= AddNew(order, addrs)
    ensures forall a :: a in AddNew(order, addrs) <==> a in order || a in addrs
    ensures Distinct(order) ==> Distinct(AddNew(order, addrs))
    decreases |addrs|
  {
    if addrs != [] {
      AddNewFacts(if addrs[0] in order then order else order + [addrs[0]], addrs[1..]);
    }
  }

  /** New leaders join at the end, in the order in which they are named. */
  lemma {:induction false} AddNewInOrder(order: seq<Word>, a: Word, b: Word)
    ensures AddNew(order, [a]) == if a in order then order else order + [a]
    ensures AddNew(order, [a, b]) ==
      var first := if a in order then order else order + [a];
      if b in first then first else first + [b]
  {
    assert [a][1..] == [] && [a, b][1..] == [b] && [b][1..] == [];
    var first := if a in order then order else order + [a];
    var second := if b in first then first else first + [b];
    assert AddNew(second, []) == second && AddNew(first, []) == first;
    assert AddNew(first, [b]) == AddNew(second, []);
  }

  lemma {:induction false} OrderFacts(entry: Word, blocks: seq<BasicBlock>)
    ensures Distinct(Order(entry, blocks))
    ensures entry in Order(entry, blocks)
    ensures forall i, a :: 0 <= i < |blocks| && a in blocks[i].succs ==> a in Order(entry, blocks)
    decreases |blocks|
  {
    if blocks != [] {
      var n := |blocks| - 1;
      OrderFacts(entry, blocks[..n]);
      AddNewFacts(Order(entry, blocks[..n]), blocks[n].succs);
      forall i, a | 0 <= i < |blocks| && a in blocks[i].succs ensures a in Order(entry, blocks) {
        assert i < n ==> blocks[..n][i] == blocks[i];
      }
    }
  }

  lemma {:induction false} OrderPrefix(entry: Word, blocks: seq<BasicBlock>, i: nat)
    requires i <= |blocks|
    ensures Order(entry, blocks[..i]) <= Order(entry, blocks)
    decreases |blocks| - i
  {
    if i < |blocks| {
      AddNewFacts(Order(entry, blocks[..i]), blocks[i].succs);
      assert blocks[..i + 1][..i] == blocks[..i];
      OrderPrefix(entry, blocks, i + 1);
    } else {
      assert blocks[..i] == blocks;
    }
  }

  // ---------- Building ----------

  /** Where blocks can start: the entry and the static successors of decodable addresses. */
  function StaticSuccs(code: Code, a: Word): seq<Word> {
    match Decode(code, a)
    case Success(inst) => SuccsAfter(inst)
    case Failure(_) => []
  }

  function Candidates(code: Code, entry: Word): set<Word> {
    {entry} + set a, s | a in code.Keys && s in StaticSuccs(code, a) :: s
  }

  lemma DecodedInCode(code: Code, a: Word)
    requires Decode(code, a).Success?
    ensures a in code && a % 4 == 0 && Decode(code, a).inst.pc == a
  {
    hide DecodeWord;
  }

  lemma SuccsAreCandidates(code: Code, entry: Word, stops: seq<Word>, bb: BasicBlock)
    requires Walks(code, stops, bb)
    ensures forall a :: a in bb.succs ==> a in stops || a in Candidates(code, entry)
  {
    hide DecodeWord, EndAfter, SuccsAfter;
    var n := |bb.insts|;
    if n > 0 && EndAfter(bb.insts[n - 1]) != NoTerm {
      DecodedInCode(code, PcAt(bb.start, n - 1));
      assert StaticSuccs(code, PcAt(bb.start, n - 1)) == bb.succs;
    }
  }

  lemma NextIsCloser(gap: Word, pc: Word)
    requires gap % 4 == 0 && pc % 4 == 0 && pc != gap
    ensures Sub(gap, Add(pc, 4)) == Sub(gap, pc) - 4 && Add(pc, 4) % 4 == 0
  {
  }

  /** A walk that has met neither a leader nor a terminator yet. */
  ghost predicate Walking(code: Code, stops: seq<Word>, start: Word, insts: seq<DecodedInst>) {
    && (forall i :: 0 <= i < |insts| ==> Decode(code, PcAt(start, i)) == Success(insts[i]))
    && (forall i :: 0 <= i < |insts| ==> EndAfter(insts[i]) == NoTerm)
    && (forall i :: 0 < i < |insts| ==> PcAt(start, i) == start || PcAt(start, i) !in stops)
  }

  lemma WalkStops(code: Code, stops: seq<Word>, start: Word, insts: seq<DecodedInst>)
    requires Walking(code, stops, start, insts)
    ensures insts != [] && PcAt(start, |insts|) != start && PcAt(start, |insts|) in stops ==>
      Walks(code, stops, BasicBlock(start, insts, Fallthrough, [PcAt(start, |insts|)]))
    ensures
      var next := PcAt(start, |insts|);
      (insts == [] || next == start || next !in stops) && Decode(code, next).Failure? ==>
      Walks(code, stops, BasicBlock(start, insts, Trap, []))
  {
    hide Decode, EndAfter, SuccsAfter, PcAt;
  }

  lemma WalkEnds(code: Code, stops: seq<Word>, start: Word, insts: seq<DecodedInst>, inst: DecodedInst)
    requires Walking(code, stops, start, insts)
    requires insts == [] || PcAt(start, |insts|) == start || PcAt(start, |insts|) !in stops
    requires Decode(code, PcAt(start, |insts|)) == Success(inst)
    ensures EndAfter(inst) == NoTerm ==> Walking(code, stops, start, insts + [inst])
    ensures EndAfter(inst) != NoTerm ==>
      Walks(code, stops, BasicBlock(start, insts + [inst], EndAfter(inst), SuccsAfter(inst)))
  {
    hide Decode, EndAfter, SuccsAfter, PcAt;
  }

  /** An aligned address that no walk passes: unreadable, undecodable or a terminator. */
  ghost predicate Barrier(code: Code, gap: Word) {
    gap % 4 == 0 && (Decode(code, gap).Success? ==> EndAfter(Decode(code, gap).inst) != NoTerm)
  }

  /** Walks one block. */
  method BuildBlock(code: Code, leaders: set<Word>, start: Word, ghost stops: seq<Word>, ghost gap: Word)
    returns (bb: BasicBlock)
    requires forall a :: a in leaders <==> a in stops
    requires start % 4 != 0 || Barrier(code, gap)
    ensures bb.start == start && Walks(code, stops, bb)
  {
    hide Decode, EndAfter, SuccsAfter, Add, Sub, Walks, Walking;
    var insts: seq<DecodedInst> := [];
    var pc := start;
    WalkStarts(code, stops, start);
    while true
      invariant pc == PcAt(start, |insts|) && Walking(code, stops, start, insts)
      invariant |insts| > 0 ==> start % 4 == 0 && pc % 4 == 0
      invariant Sub(gap, pc) + 4 * |insts| == Sub(gap, start)
      decreases Sub(gap, pc)
    {
      WalkStops(code, stops, start, insts);
      if pc != start && pc in leaders {
        return BasicBlock(start, insts, Fallthrough, [pc]);
      }
      match Decode(code, pc) {
        case Failure(_) =>
          return BasicBlock(start, insts, Trap, []);
        case Success(inst) =>
          DecodedInCode(code, pc);
          WalkEnds(code, stops, start, insts, inst);
          insts := insts + [inst];
          if EndAfter(inst) != NoTerm {
            return BasicBlock(start, insts, EndAfter(inst), SuccsAfter(inst));
          }
          NextIsCloser(gap, pc);
          pc := Add(pc, 4);
      }
    }
  }

  lemma WalkStarts(code: Code, stops: seq<Word>, start: Word)
    ensures Walking(code, stops, start, [])
  {
  }

  method Enqueue(worklist: seq<Word>, leaders: set<Word>, addr: Word)
    returns (worklist': seq<Word>, leaders': set<Word>)
    ensures leaders' == leaders + {addr}
    ensures worklist' == if addr in leaders then worklist else worklist + [addr]
  {
    worklist', leaders' := worklist, leaders;
    if addr !in leaders {
      leaders' := leaders + {addr};
      worklist' := worklist + [addr];
    }
  }

  method EnqueueAll(worklist: seq<Word>, leaders: set<Word>, addrs: seq<Word>, ghost order: seq<Word>)
    returns (worklist': seq<Word>, leaders': set<Word>)
    requires forall a :: a in leaders <==> a in order
    ensures order <= AddNew(order, addrs)
    ensures worklist' == worklist + AddNew(order, addrs)[|order|..]
    ensures forall a :: a in leaders' <==> a in AddNew(order, addrs)
  {
    worklist', leaders' := worklist, leaders;
    ghost var seen := order;
    AddNewFacts(order, addrs);
    var k := 0;
    while k < |addrs|
      invariant 0 <= k <= |addrs|
      invariant order <= seen && AddNew(seen, addrs[k..]) == AddNew(order, addrs)
      invariant worklist' == worklist + seen[|order|..]
      invariant forall a :: a in leaders' <==> a in seen
    {
      worklist', leaders' := Enqueue(worklist', leaders', addrs[k]);
      seen := if addrs[k] in seen then seen else seen + [addrs[k]];
      assert addrs[k..][1..] == addrs[k + 1..];
      k := k + 1;
    }
  }

  /** Builds every block reachable from the entry. It ends when the entry is misaligned, and for
      every code memory with a barrier anywhere. */
  method Build(code: Code, entry: Word, ghost gap: Word) returns (cfg: CFG)
    requires entry % 4 != 0 || Barrier(code, gap)
    ensures cfg.entry == entry && ValidCfg(code, cfg)
  {
    hide Decode, EndAfter, SuccsAfter, Walks, BuiltInOrder, Indexes, Distinct, Candidates, Order, AddNew, Barrier;
    var blocks: seq<BasicBlock> := [];
    var index: map<Word, nat> := map[];
    var worklist := [entry];
    var leaders := {entry};
    ghost var candidates := Candidates(code, entry);
    NothingBuilt(code, entry);
    while worklist != []
      invariant BuiltInOrder(code, entry, blocks) && Indexes(index, blocks)
      invariant |blocks| <= |Order(entry, blocks)| && worklist == Order(entry, blocks)[|blocks|..]
      invariant forall a :: a in leaders <==> a in Order(entry, blocks)
      invariant leaders <= candidates
      invariant entry % 4 != 0 ==> Order(entry, blocks) == [entry]
      decreases candidates - leaders, |worklist|
    {
      ghost var order := Order(entry, blocks);
      var start := worklist[0];
      worklist := worklist[1..];
      // The source skips a start that already has a block; no start is queued twice, so that
      // test never fires.
      NotBuiltYet(code, entry, blocks, index);
      assert start !in index;
      var bb := BuildBlock(code, leaders, start, order, gap);
      SuccsAreCandidates(code, entry, order, bb);
      MisalignedIsAlone(code, order, bb);
      AddNewFacts(order, bb.succs);
      ghost var before := leaders;
      worklist, leaders := EnqueueAll(worklist, leaders, bb.succs, order);
      OrderGrows(code, entry, blocks, bb);
      IndexGrows(index, blocks, bb);
      assert before <= leaders;
      NoGrowth(order, AddNew(order, bb.succs));
      index := index[start := |blocks|];
      blocks := blocks + [bb];
    }
    cfg := CFG(entry, blocks, index);
  }

  lemma {:induction false} MisalignedIsAlone(code: Code, stops: seq<Word>, bb: BasicBlock)
    requires Walks(code, stops, bb)
    ensures bb.start % 4 != 0 ==> bb.succs == [] && AddNew(stops, bb.succs) == stops
  {
    hide SuccsAfter, EndAfter, DecodeWord;
    assert |bb.insts| > 0 ==> Decode(code, PcAt(bb.start, 0)) == Success(bb.insts[0]);
  }

  lemma NothingBuilt(code: Code, entry: Word)
    ensures BuiltInOrder(code, entry, []) && Indexes(map[], []) && entry in Candidates(code, entry)
    ensures Order(entry, []) == [entry]
  {
  }

  lemma NoGrowth(order: seq<Word>, more: seq<Word>)
    requires order <= more && Distinct(more)
    ensures (forall a :: a in more ==> a in order) ==> |more| == |order|
  {
    if |order| < |more| {
      assert more[|order|] in more;
      forall i | 0 <= i < |order| ensures order[i] != more[|order|] {
        assert order[i] == more[i];
      }
    }
  }

  /** The next start has no block: the worklist never holds a built address. */
  lemma NotBuiltYet(code: Code, entry: Word, blocks: seq<BasicBlock>, index: map<Word, nat>)
    requires BuiltInOrder(code, entry, blocks) && Indexes(index, blocks)
    requires |blocks| < |Order(entry, blocks)|
    ensures Order(entry, blocks)[|blocks|] !in index
    ensures Distinct(Order(entry, blocks))
  {
    hide Walks;
    OrderFacts(entry, blocks);
    forall i | 0 <= i < |blocks| ensures blocks[i].start == Order(entry, blocks)[i] {
      OrderPrefix(entry, blocks, i);
    }
  }

  lemma OrderGrows(code: Code, entry: Word, blocks: seq<BasicBlock>, bb: BasicBlock)
    requires BuiltInOrder(code, entry, blocks) && |blocks| < |Order(entry, blocks)|
    requires Walks(code, Order(entry, blocks), bb) && bb.start == Order(entry, blocks)[|blocks|]
    ensures Order(entry, blocks + [bb]) == AddNew(Order(entry, blocks), bb.succs)
    ensures Distinct(Order(entry, blocks + [bb]))
    ensures BuiltInOrder(code, entry, blocks + [bb])
  {
    hide Walks, Order, AddNew, Distinct;
    var more := blocks + [bb];
    assert more[..|blocks|] == blocks;
    OrderOfMore(entry, blocks, bb);
    OrderFacts(entry, more);
    forall i | 0 <= i < |blocks| ensures more[..i] == blocks[..i] && more[i] == blocks[i] {
    }
  }

  lemma OrderOfMore(entry: Word, blocks: seq<BasicBlock>, bb: BasicBlock)
    ensures Order(entry, blocks + [bb]) == AddNew(Order(entry, blocks), bb.succs)
  {
    assert (blocks + [bb])[..|blocks|] == blocks;
  }

  lemma IndexGrows(index: map<Word, nat>, blocks: seq<BasicBlock>, bb: BasicBlock)
    requires Indexes(index, blocks) && bb.start !in index
    ensures Indexes(index[bb.start := |blocks|], blocks + [bb])
  {
  }
}
