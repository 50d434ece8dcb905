/** Instruction selection: one IR block to A64 code over virtual registers. */
module ISel {
  import opened Words
  import opened Labels
  import IR
  import A = AArch64

  /** The size of the value map once a value id has been looked up in it. */
  function Grow(size: nat, id: IR.ValueId): nat {
    if id < size then size else id + 1
  }

  /** Selected code, and the size of the value map after it. */
  datatype Piece = Piece(code: seq<A.Instr>, size: nat)

  function VReg(id: IR.ValueId): A.Reg {
    A.V(id + 1)
  }

  function Movk(v: A.Reg, field: nat, lsl: nat): seq<A.Instr>
    requires field < 0x1_0000
  {
    if field != 0 then [A.MovK(v, field, lsl)] else []
  }

  /** MOV for values below 2^16; otherwise MOVZ and a MOVK for each further non-zero field. */
  function ConstCode(v: A.Reg, val: Word): seq<A.Instr> {
    if val / 0x1_0000 == 0 then [A.MovImm(v, val)]
    else
      [A.MovZ(v, Low16(val))]
      + (Movk(v, val / 0x1_0000 % 0x1_0000, 16)
         + (Movk(v, val / 0x1_0000_0000 % 0x1_0000, 32) + Movk(v, val / 0x1_0000_0000_0000 % 0x1_0000, 48)))
  }

  function AluOf(k: IR.BinOpKind): A.AluOp {
    match k
    case AddOp => A.AddX
    case SubOp => A.SubX
    case AndOp => A.AndX
    case OrOp => A.OrrX
    case XorOp => A.EorX
    case ShlOp => A.LslX
    case LShrOp => A.LsrX
    case AShrOp => A.AsrX
  }

  function CondOf(c: IR.ICmpCond): A.Cond {
    match c
    case EQ => A.Eq
    case NE => A.Ne
    case ULT => A.Lo
    case ULE => A.Ls
    case UGT => A.Hi
    case UGE => A.Hs
    case SLT => A.Lt
    case SLE => A.Le
    case SGT => A.Gt
    case SGE => A.Ge
  }

  function WidthOf(ty: IR.Type): A.Width {
    match ty
    case I8 => A.B
    case I16 => A.H
    case I32 => A.W
    case I64 => A.X
    case I1 => A.X
  }

  /** The cast of a 64-bit offset to 32 bits. */
  function Offset32(off: Word): A.Int32 {
    Signed32(Low32(off))
  }

  /** The code of one IR instruction in a block starting at `start`, with a value map of the
      given size. A load or store takes a fresh register for its host address. */
  function SelectInst(i: IR.Instr, start: Word, size: nat): Piece {
    match i.payload
    case Const(_, val) =>
      if i.dest.None? then Piece([], size)
      else Piece(ConstCode(VReg(i.dest.value), val), Grow(size, i.dest.value))
    case ReadReg(r) =>
      if i.dest.None? then Piece([], size)
      else Piece([A.Ldr(A.X, VReg(i.dest.value), A.V(0), 8 * r)], Grow(size, i.dest.value))
    case WriteReg(r, v) => Piece([A.Str(A.X, VReg(v), A.V(0), 8 * r)], Grow(size, v))
    case BinOp(k, lhs, rhs, _) =>
      if i.dest.None? then Piece([], size)
      else Piece([A.Alu(AluOf(k), VReg(i.dest.value), VReg(lhs), VReg(rhs))],
                 Grow(Grow(Grow(size, i.dest.value), lhs), rhs))
    case ICmp(c, lhs, rhs) =>
      var size2 := Grow(Grow(size, lhs), rhs);
      var cmp := A.Cmp(VReg(lhs), VReg(rhs));
      if i.dest.None? then Piece([cmp], size2)
      else Piece([cmp, A.Cset(CondOf(c), VReg(i.dest.value))], Grow(size2, i.dest.value))
    case ZExt(src, to) =>
      if i.dest.None? then Piece([], size)
      else
        var d, s := VReg(i.dest.value), VReg(src);
        Piece([if to.I64? then A.Uxtw(d, s) else A.MovReg(d, s)], Grow(Grow(size, i.dest.value), src))
    case SExt(src, to) =>
      if i.dest.None? then Piece([], size)
      else
        var d, s := VReg(i.dest.value), VReg(src);
        Piece([if to.I64? then A.Sxtw(d, s) else A.MovReg(d, s)], Grow(Grow(size, i.dest.value), src))
    case Trunc(src, _) =>
      if i.dest.None? then Piece([], size)
      else Piece([A.MovReg(VReg(i.dest.value), VReg(src))], Grow(Grow(size, i.dest.value), src))
    case Load(base, off, ty) =>
      if i.dest.None? then Piece([], size)
      else
        var temp := Grow(Grow(size, i.dest.value), base);
        Piece([A.Alu(A.AddX, VReg(temp), VReg(base), A.P(21)),
               A.Ldr(WidthOf(ty), VReg(i.dest.value), VReg(temp), Offset32(off))], temp + 1)
    case Store(v, base, off, ty) =>
      var temp := Grow(size, base);
      Piece([A.Alu(A.AddX, VReg(temp), VReg(base), A.P(21)),
             A.Str(WidthOf(ty), VReg(v), VReg(temp), Offset32(off))], Grow(temp + 1, v))
    case GetPC =>
      if i.dest.None? then Piece([], size)
      else Piece([A.MovImm(VReg(i.dest.value), start)], Grow(size, i.dest.value))
  }

  function SelectAll(insts: seq<IR.Instr>, start: Word, size: nat): Piece {
    if insts == [] then Piece([], size)
    else
      var before := SelectAll(insts[..|insts| - 1], start, size);
      var last := SelectInst(insts[|insts| - 1], start, before.size);
      Piece(before.code + last.code, last.size)
  }

  function SelectTerm(term: IR.Terminator): A.Terminator {
    match term
    case Br(target) => A.Br(Label(target))
    case CBr(cond, t, f) => A.CBr(cond + 1, Label(t), Label(f))
    case BrIndirect(value) => A.BrIndirect(value + 1)
    case Ret => A.Ret
    case Trap => A.Trap
    case NoTerm => A.NoTerm
  }

  function Selected(bb: IR.Block): A.Block {
    A.Block(bb.start, SelectAll(bb.insts, bb.start, |bb.insts| + 1).code, SelectTerm(bb.term))
  }

  // ---------- The selector ----------

  /** Every filled entry of the value map holds its own index plus one. */
  ghost predicate MapOk(vmap: seq<nat>) {
    forall i :: 0 <= i < |vmap| ==> vmap[i] == 0 || vmap[i] == i + 1
  }

  method VRegOf(vmap: seq<nat>, id: IR.ValueId) returns (vmap': seq<nat>, v: A.Reg)
    requires MapOk(vmap)
    ensures MapOk(vmap') && |vmap'| == Grow(|vmap|, id) && v == VReg(id)
  {
    vmap' := vmap;
    if id >= |vmap'| {
      vmap' := vmap' + seq(id + 1 - |vmap'|, i => 0);
    }
    if vmap'[id] == 0 {
      vmap' := vmap'[id := id + 1];
    }
    v := A.V(vmap'[id]);
  }

  /** A register for a host address: the next index of the value map. */
  method FreshReg(vmap: seq<nat>) returns (vmap': seq<nat>, v: A.Reg)
    requires MapOk(vmap)
    ensures MapOk(vmap') && |vmap'| == |vmap| + 1 && v == VReg(|vmap|)
  {
    v := A.V(|vmap| + 1);
    vmap' := vmap + [|vmap| + 1];
  }

  method SelectMemory(i: IR.Instr, vmap: seq<nat>) returns (code: seq<A.Instr>, vmap': seq<nat>)
    requires MapOk(vmap) && (i.payload.Load? || i.payload.Store?)
    ensures MapOk(vmap') && forall start :: SelectInst(i, start, |vmap|) == Piece(code, |vmap'|)
  {
    hide MapOk;
    vmap' := vmap;
    code := [];
    match i.payload {
      case Load(base, off, ty) =>
        if i.dest.Some? {
          var d, b, t;
          vmap', d := VRegOf(vmap', i.dest.value);
          vmap', b := VRegOf(vmap', base);
          vmap', t := FreshReg(vmap');
          code := [A.Alu(A.AddX, t, b, A.P(21)), A.Ldr(WidthOf(ty), d, t, Offset32(off))];
        }
      case Store(v, base, off, ty) =>
        var b, t, s;
        vmap', b := VRegOf(vmap', base);
        vmap', t := FreshReg(vmap');
        vmap', s := VRegOf(vmap', v);
        code := [A.Alu(A.AddX, t, b, A.P(21)), A.Str(WidthOf(ty), s, t, Offset32(off))];
    }
  }

  method SelectConversion(i: IR.Instr, vmap: seq<nat>) returns (code: seq<A.Instr>, vmap': seq<nat>)
    requires MapOk(vmap) && (i.payload.ZExt? || i.payload.SExt? || i.payload.Trunc?)
    ensures MapOk(vmap') && forall start :: SelectInst(i, start, |vmap|) == Piece(code, |vmap'|)
  {
    hide MapOk;
    vmap' := vmap;
    code := [];
    if i.dest.Some? {
      var d, s;
      vmap', d := VRegOf(vmap', i.dest.value);
      vmap', s := VRegOf(vmap', i.payload.src);
      match i.payload {
        case ZExt(_, to) => code := [if to.I64? then A.Uxtw(d, s) else A.MovReg(d, s)];
        case SExt(_, to) => code := [if to.I64? then A.Sxtw(d, s) else A.MovReg(d, s)];
        case Trunc(_, _) => code := [A.MovReg(d, s)];
      }
    }
  }

  method SelectOne(i: IR.Instr, start: Word, vmap: seq<nat>) returns (code: seq<A.Instr>, vmap': seq<nat>)
    requires MapOk(vmap)
    ensures MapOk(vmap') && SelectInst(i, start, |vmap|) == Piece(code, |vmap'|)
  {
    hide MapOk, ConstCode, Offset32, AluOf, CondOf, WidthOf;
    vmap' := vmap;
    code := [];
    match i.payload {
      case Const(_, val) =>
        if i.dest.Some? {
          var d;
          vmap', d := VRegOf(vmap', i.dest.value);
          code := ConstCode(d, val);
        }
      case ReadReg(r) =>
        if i.dest.Some? {
          var d;
          vmap', d := VRegOf(vmap', i.dest.value);
          code := [A.Ldr(A.X, d, A.V(0), 8 * r)];
        }
      case WriteReg(r, v) =>
        var s;
        vmap', s := VRegOf(vmap', v);
        code := [A.Str(A.X, s, A.V(0), 8 * r)];
      case BinOp(k, lhs, rhs, _) =>
        if i.dest.Some? {
          var d, a, b;
          vmap', d := VRegOf(vmap', i.dest.value);
          vmap', a := VRegOf(vmap', lhs);
          vmap', b := VRegOf(vmap', rhs);
          code := [A.Alu(AluOf(k), d, a, b)];
        }
      case ICmp(c, lhs, rhs) =>
        var a, b;
        vmap', a := VRegOf(vmap', lhs);
        vmap', b := VRegOf(vmap', rhs);
        code := [A.Cmp(a, b)];
        if i.dest.Some? {
          var d;
          vmap', d := VRegOf(vmap', i.dest.value);
          code := code + [A.Cset(CondOf(c), d)];
        }
      case GetPC =>
        if i.dest.Some? {
          var d;
          vmap', d := VRegOf(vmap', i.dest.value);
          code := [A.MovImm(d, start)];
        }
      case Load(_, _, _) => code, vmap' := SelectMemory(i, vmap);
      case Store(_, _, _, _) => code, vmap' := SelectMemory(i, vmap);
      case _ => code, vmap' := SelectConversion(i, vmap);
    }
  }

  method Select(bb: IR.Block) returns (out: A.Block)
    ensures out == Selected(bb)
  {
    hide SelectInst, MapOk, Label;
    var vmap: seq<nat> := seq(|bb.insts| + 1, i => 0);
    FreshMap(vmap);
    var instrs: seq<A.Instr> := [];
    for k := 0 to |bb.insts|
      invariant MapOk(vmap)
      invariant SelectAll(bb.insts[..k], bb.start, |bb.insts| + 1) == Piece(instrs, |vmap|)
    {
      assert bb.insts[..k + 1][..k] == bb.insts[..k];
      var code;
      code, vmap := SelectOne(bb.insts[k], bb.start, vmap);
      instrs := instrs + code;
    }
    assert bb.insts[..|bb.insts|] == bb.insts;
    var term: A.Terminator;
    match bb.term {
      case Br(target) => term := A.Br(Label(target));
      case CBr(cond, t, f) =>
        var c;
        vmap, c := VRegOf(vmap, cond);
        term := A.CBr(c.v, Label(t), Label(f));
      case BrIndirect(value) =>
        var c;
        vmap, c := VRegOf(vmap, value);
        term := A.BrIndirect(c.v);
      case Ret => term := A.Ret;
      case Trap => term := A.Trap;
      case NoTerm => term := A.NoTerm;
    }
    out := A.Block(bb.start, instrs, term);
  }

  lemma FreshMap(vmap: seq<nat>)
    requires forall i :: 0 <= i < |vmap| ==> vmap[i] == 0
    ensures MapOk(vmap)
  {
  }
}
