/** The emitted module as a whole: labels, the table search of the runtime, and running blocks
    one after the other. */
module Runtime {
  import opened Words
  import opened Labels
  import IR
  import A = AArch64
  import opened Emitter
  import opened Orders

  // ---------- The table search ----------

  /** The index of the first block with the address, -1 when there is none. */
  method FindBlock(addrs: seq<Word>, pc: Word) returns (idx: int)
    ensures idx == Find(addrs, pc)
    ensures -1 <= idx < |addrs|
    ensures idx < 0 <==> pc !in addrs
    ensures idx >= 0 ==> addrs[idx] == pc && forall j :: 0 <= j < idx ==> addrs[j] != pc
  {
    assert addrs[0..] == addrs;
    for i := 0 to |addrs|
      invariant forall j :: 0 <= j < i ==> addrs[j] != pc
      invariant Find(addrs, pc) == (if Find(addrs[i..], pc) < 0 then -1 else i + Find(addrs[i..], pc))
    {
      assert addrs[i..][1..] == addrs[i + 1..];
      if addrs[i] == pc {
        return i;
      }
    }
    idx := -1;
  }

  function Find(addrs: seq<Word>, pc: Word): int {
    if addrs == [] then -1
    else if addrs[0] == pc then 0
    else
      var rest := Find(addrs[1..], pc);
      if rest < 0 then -1 else rest + 1
  }

  lemma {:induction false} FindIsFirst(addrs: seq<Word>, pc: Word)
    ensures -1 <= Find(addrs, pc) < |addrs|
    ensures Find(addrs, pc) < 0 <==> pc !in addrs
    ensures Find(addrs, pc) >= 0 ==> addrs[Find(addrs, pc)] == pc
    decreases |addrs|
  {
    if addrs != [] {
      FindIsFirst(addrs[1..], pc);
    }
  }

  // ---------- Labels ----------

  /** The lines under the first definition of a label. */
  function LinesOf(blocks: seq<Code>, name: string): IR.Option<seq<Line>> {
    if blocks == [] then IR.None
    else if blocks[0].name == name then IR.Some(blocks[0].lines)
    else LinesOf(blocks[1..], name)
  }

  lemma {:induction false} LinesAt(blocks: seq<Code>, i: nat)
    requires i < |blocks|
    requires forall j :: 0 <= j < |blocks| && j != i ==> blocks[j].name != blocks[i].name
    ensures LinesOf(blocks, blocks[i].name) == IR.Some(blocks[i].lines)
    decreases i
  {
    if i > 0 {
      LinesAt(blocks[1..], i - 1);
    }
  }

  /** What stands where in an emitted module. */
  lemma {:induction false} EmittedAt(blocks: seq<A.Block>, asgs: seq<Assignment>, i: nat)
    requires |blocks| == |asgs| && i < |blocks|
    ensures |EmittedBlocks(blocks, asgs)| == |blocks|
    ensures EmittedBlocks(blocks, asgs)[i] == Code(Label(blocks[i].guestPc), BlockLines(blocks[i], asgs[i]))
    decreases |blocks|
  {
    hide BlockLines, Label;
    var n := |blocks| - 1;
    EmittedLength(blocks[..n], asgs[..n]);
    if i < n {
      EmittedAt(blocks[..n], asgs[..n], i);
    }
  }

  lemma {:induction false} EmittedLength(blocks: seq<A.Block>, asgs: seq<Assignment>)
    requires |blocks| == |asgs|
    ensures |EmittedBlocks(blocks, asgs)| == |blocks|
    decreases |blocks|
  {
    hide BlockLines, Label;
    if blocks != [] {
      EmittedLength(blocks[..|blocks| - 1], asgs[..|blocks| - 1]);
    }
  }

  /** With increasing addresses no two blocks have the same label. */
  lemma {:induction false} NamesAreUnique(blocks: seq<A.Block>, asgs: seq<Assignment>, i: nat, j: nat)
    requires |blocks| == |asgs| && Increasing(Addresses(blocks)) && i < |blocks| && j < |blocks| && i != j
    ensures |EmittedBlocks(blocks, asgs)| == |blocks|
    ensures EmittedBlocks(blocks, asgs)[i].name != EmittedBlocks(blocks, asgs)[j].name
  {
    hide BlockLines, Label, EmittedBlocks;
    EmittedAt(blocks, asgs, i);
    EmittedAt(blocks, asgs, j);
    var lo, hi := if i < j then i else j, if i < j then j else i;
    assert Addresses(blocks)[lo] < Addresses(blocks)[hi];
    if Label(blocks[i].guestPc) == Label(blocks[j].guestPc) {
      LabelInjective(blocks[i].guestPc, blocks[j].guestPc);
    }
  }

  /** Each label leads to the lines of its own block. */
  lemma {:induction false} LabelLeadsHome(blocks: seq<A.Block>, asgs: seq<Assignment>, i: nat)
    requires |blocks| == |asgs| && Increasing(Addresses(blocks)) && i < |blocks|
    ensures LinesOf(EmittedBlocks(blocks, asgs), Label(blocks[i].guestPc)) == IR.Some(BlockLines(blocks[i], asgs[i]))
  {
    hide BlockLines, Label, EmittedBlocks, Increasing;
    EmittedAt(blocks, asgs, i);
    forall j | 0 <= j < |blocks| && j != i
      ensures EmittedBlocks(blocks, asgs)[j].name != EmittedBlocks(blocks, asgs)[i].name
    {
      NamesAreUnique(blocks, asgs, i, j);
    }
    LinesAt(EmittedBlocks(blocks, asgs), i);
  }

  // ---------- Running a module ----------

  /** At the start of a labelled block, out of the translated code, or at a missing label. */
  datatype Point = At(name: string, m: A.Machine) | Halted(exit: Exit, m: A.Machine) | Unlinked(m: A.Machine)

  /** Where control is after the lines of a block. */
  function PointOf(h: Halt): Point {
    if h.exit.Goto? then At(h.exit.target, h.m) else Halted(h.exit, h.m)
  }

  /** One whole block. */
  function StepBlock(mod: Module, p: Point): Point {
    if p.At? then
      match LinesOf(mod.blocks, p.name)
      case None => Unlinked(p.m)
      case Some(lines) => PointOf(RunLines(lines, p.m))
    else p
  }

  function RunBlocks(mod: Module, p: Point, n: nat): Point {
    if n == 0 then p else StepBlock(mod, RunBlocks(mod, p, n - 1))
  }

  /** The entry trampoline: the runtime searches the address table and calls the block, or
      breaks. */
  function Enter(mod: Module, pc: Word, m: A.Machine): Point
    requires |mod.ptrs| == |mod.addrs|
  {
    var idx := Find(mod.addrs, pc);
    if 0 <= idx < |mod.addrs| then At(mod.ptrs[idx], m) else Halted(Broke, m)
  }
}
