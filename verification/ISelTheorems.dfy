/** Selection preserves meaning: virtual-register code simulates the IR, a value of width w
    living in the low w bits of its register. */
module ISelTheorems {
  import opened Words
  import R = Riscv
  import IR
  import A = AArch64
  import opened ISel

  /** An I1 is a whole register holding 0 or 1; the upper bits of narrower values are free. */
  predicate ValRel(v: IR.Value, r: Word) {
    match v
    case Nothing => true
    case Val(ty, n) => if ty.I1? then r == n && n <= 1 else IR.Truncate(ty, r) == n
  }

  ghost predicate EnvRel(env: seq<IR.Value>, regs: map<A.Reg, Word>) {
    forall i {:trigger env[i]} :: 0 <= i < |env| ==> ValRel(env[i], A.Get(regs, VReg(i)))
  }

  /** The guest seen from the host: register r in the slot at byte 8r of the guest state, the
      memory base in the slot at byte 256 and in x21, and guest memory displaced by it. */
  ghost predicate HostRel(g: R.Guest, base: Word, m: A.Machine) {
    && (forall r: R.RegIndex {:trigger R.Slot(g.x, r)} :: A.SlotAt(m.slots, 8 * r) == R.Slot(g.x, r))
    && A.SlotAt(m.slots, 256) == base
    && Shows(m.mem, base, g.mem)
    && A.Get(m.regs, A.P(21)) == base
  }

  /** Offsets that survive the cast to 32 bits. */
  predicate Fits32(off: Word) {
    off < 0x8000_0000 || off >= 0xFFFF_FFFF_8000_0000
  }

  predicate OffsetFits(p: IR.Payload) {
    match p
    case Load(_, off, _) => Fits32(off)
    case Store(_, _, off, _) => Fits32(off)
    case _ => true
  }

  // ---------- Writing a register ----------

  function SetV(m: A.Machine, v: nat, w: Word): A.Machine {
    m.(regs := m.regs[A.V(v) := w])
  }

  lemma SetKeepsHost(g: R.Guest, base: Word, m: A.Machine, v: nat, w: Word)
    requires HostRel(g, base, m)
    ensures HostRel(g, base, SetV(m, v, w))
  {
  }

  lemma SetTempKeepsEnv(env: seq<IR.Value>, m: A.Machine, v: nat, w: Word)
    requires EnvRel(env, m.regs) && v > |env|
    ensures EnvRel(env, SetV(m, v, w).regs)
  {
    hide ValRel;
  }

  lemma SetDefines(env: seq<IR.Value>, m: A.Machine, v: IR.Value, w: Word)
    requires EnvRel(env, m.regs) && ValRel(v, w)
    ensures EnvRel(env + [v], SetV(m, |env| + 1, w).regs)
  {
    hide ValRel;
    var env2 := env + [v];
    forall i | 0 <= i < |env2| ensures ValRel(env2[i], A.Get(SetV(m, |env| + 1, w).regs, VReg(i))) {
      if i < |env| { assert env2[i] == env[i]; }
    }
  }

  lemma NothingDefined(env: seq<IR.Value>, m: A.Machine)
    requires EnvRel(env, m.regs)
    ensures EnvRel(env + [IR.Nothing], m.regs)
  {
    var env2 := env + [IR.Nothing];
    forall i | 0 <= i < |env2| ensures ValRel(env2[i], A.Get(m.regs, VReg(i))) {
      if i < |env| { assert env2[i] == env[i]; }
    }
  }

  lemma ReadsI64(env: seq<IR.Value>, regs: map<A.Reg, Word>, id: nat)
    requires EnvRel(env, regs) && IR.Has(env, id, IR.I64)
    ensures A.Get(regs, VReg(id)) == env[id].n
  {
    assert ValRel(env[id], A.Get(regs, VReg(id)));
  }

  lemma ReadsI32(env: seq<IR.Value>, regs: map<A.Reg, Word>, id: nat)
    requires EnvRel(env, regs) && IR.Has(env, id, IR.I32)
    ensures Low32(A.Get(regs, VReg(id))) == env[id].n && Low32(env[id].n) == env[id].n
  {
    assert ValRel(env[id], A.Get(regs, VReg(id)));
  }

  // ---------- Constants ----------

  lemma LowField(val: Word)
    ensures A.Insert16(val % 0x1_0000, val / 0x1_0000 % 0x1_0000, 16) == val % 0x1_0000_0000
    ensures A.Insert16(val % 0x1_0000, 0, 16) == val % 0x1_0000
  {
  }

  lemma MiddleField(val: Word)
    ensures A.Insert16(val % 0x1_0000_0000, val / 0x1_0000_0000 % 0x1_0000, 32) == val % 0x1_0000_0000_0000
    ensures A.Insert16(val % 0x1_0000_0000, 0, 32) == val % 0x1_0000_0000
  {
  }

  lemma HighField(val: Word)
    ensures A.Insert16(val % 0x1_0000_0000_0000, val / 0x1_0000_0000_0000 % 0x1_0000, 48) == val
    ensures A.Insert16(val % 0x1_0000_0000_0000, 0, 48) == val % 0x1_0000_0000_0000
  {
  }

  /** Leaving out a MOVK of zero changes nothing when the field is zero already. */
  lemma MovkStep(v: nat, field: nat, lsl: nat, m: A.Machine, x: Word)
    requires field < 0x1_0000 && (field == 0 ==> A.Insert16(x, 0, lsl) == x)
    ensures A.Run(Movk(A.V(v), field, lsl), SetV(m, v, x)) == SetV(m, v, A.Insert16(x, field, lsl))
  {
    hide A.Insert16;
    if field != 0 {
      A.Run1(A.MovK(A.V(v), field, lsl), SetV(m, v, x));
      assert m.regs[A.V(v) := x][A.V(v) := A.Insert16(x, field, lsl)] == m.regs[A.V(v) := A.Insert16(x, field, lsl)];
    }
  }

  function NonZero(field: nat): nat {
    if field == 0 then 0 else 1
  }

  /** No MOVK writes a field that is zero: MOV alone below 2^16, and otherwise MOVZ and one MOVK for
      each further 16-bit field that is not zero. */
  lemma {:induction false} ConstIsShort(v: A.Reg, val: Word)
    ensures
      var code := ConstCode(v, val);
      && |code| == 1 + NonZero(val / 0x1_0000 % 0x1_0000) + NonZero(val / 0x1_0000_0000 % 0x1_0000)
                   + NonZero(val / 0x1_0000_0000_0000 % 0x1_0000)
      && code[0] == (if val < 0x1_0000 then A.MovImm(v, val) else A.MovZ(v, val % 0x1_0000))
      && forall i :: 0 < i < |code| ==> code[i].MovK? && code[i].d == v && code[i].imm != 0
  {
    SmallFields(val);
  }

  lemma {:induction false} SmallFields(val: Word)
    ensures val / 0x1_0000 == 0 <==> val < 0x1_0000
    ensures val < 0x1_0000 ==> val / 0x1_0000_0000 == 0 && val / 0x1_0000_0000_0000 == 0
  {
  }

  /** The MOV or MOVZ/MOVK sequence leaves exactly the constant in its register. */
  lemma ConstIsBuilt(v: nat, val: Word, m: A.Machine)
    ensures A.Run(ConstCode(A.V(v), val), m) == SetV(m, v, val)
  {
    hide A.Insert16, Movk, A.Exec, A.Run;
    if val / 0x1_0000 == 0 {
      A.Run1(A.MovImm(A.V(v), val), m);
      ExecMov(v, val, m);
    } else {
      var f1, f2, f3 := val / 0x1_0000 % 0x1_0000, val / 0x1_0000_0000 % 0x1_0000, val / 0x1_0000_0000_0000 % 0x1_0000;
      var x0 := Low16(val);
      var x1 := val % 0x1_0000_0000;
      var x2 := val % 0x1_0000_0000_0000;
      var c1, c2, c3 := Movk(A.V(v), f1, 16), Movk(A.V(v), f2, 32), Movk(A.V(v), f3, 48);
      LowField(val);
      MiddleField(val);
      HighField(val);
      A.RunAppend([A.MovZ(A.V(v), x0)], c1 + (c2 + c3), m);
      A.Run1(A.MovZ(A.V(v), x0), m);
      ExecMov(v, val, m);
      A.RunAppend(c1, c2 + c3, SetV(m, v, x0));
      MovkStep(v, f1, 16, m, x0);
      A.RunAppend(c2, c3, SetV(m, v, x1));
      MovkStep(v, f2, 32, m, x1);
      MovkStep(v, f3, 48, m, x2);
    }
  }

  lemma ExecMov(v: nat, val: Word, m: A.Machine)
    ensures A.Exec(A.MovImm(A.V(v), val), m) == SetV(m, v, val)
    ensures A.Exec(A.MovZ(A.V(v), Low16(val)), m) == SetV(m, v, Low16(val))
  {
  }

  // ---------- Conversions ----------

  lemma {:induction false} DefinesOne(i: A.Instr, v: nat, m: A.Machine)
    requires i.MovReg? || i.Sxtw? || i.Uxtw?
    requires i.d == A.V(v)
    ensures A.Run([i], m) == SetV(m, v, A.Result(i, m))
  {
    hide SExt32, Low32;
    A.Run1(i, m);
  }

  /** What the code of a conversion leaves, whatever the upper bits of the source register: its low half
      extended when the result is 64 bits wide, and a copy of the whole register otherwise. */
  lemma {:induction false} ConversionRuns(i: IR.Instr, start: Word, size: nat, m: A.Machine)
    requires (i.payload.ZExt? || i.payload.SExt? || i.payload.Trunc?) && i.dest.Some?
    ensures
      var x := A.Get(m.regs, VReg(i.payload.src));
      A.Run(SelectInst(i, start, size).code, m) == SetV(m, i.dest.value + 1,
        if i.payload.Trunc? || !i.payload.to.I64? then x
        else if i.payload.SExt? then SExt32(Low32(x)) else Low32(x))
  {
    hide A.Run, SExt32, Low32, Grow;
    DefinesOne(SelectInst(i, start, size).code[0], i.dest.value + 1, m);
  }

  /** An instruction without a result has no code, unless it writes a register or memory or sets the
      flags; then its code defines no register but that of a host address. */
  lemma {:induction false} NoResultNoCode(i: IR.Instr, start: Word, size: nat)
    requires i.dest.None?
    ensures
      var code := SelectInst(i, start, size).code;
      && (code == [] <==> !i.payload.WriteReg? && !i.payload.Store? && !i.payload.ICmp?)
      && (i.payload.ICmp? ==> code == [A.Cmp(VReg(i.payload.lhs), VReg(i.payload.rhs))])
      && forall k :: 0 <= k < |code| && A.Dest(code[k]).Some? ==> i.payload.Store? && k == 0
  {
    hide ConstCode, Offset32, Grow;
  }

  // ---------- One IR instruction ----------

  /** The state after an instruction is again related to the machine after its code. */
  ghost predicate Follows(i: IR.Instr, start: Word, s: IR.State, size: nat, base: Word, m: A.Machine) {
    var m' := A.Run(SelectInst(i, start, size).code, m);
    match IR.Step(i, start, s)
    case None => false
    case Some(t) => EnvRel(t.env, m'.regs) && HostRel(t.g, base, m')
  }

  ghost predicate Ready(i: IR.Instr, start: Word, s: IR.State, size: nat, base: Word, m: A.Machine) {
    && EnvRel(s.env, m.regs) && HostRel(s.g, base, m)
    && |s.env| < size && IR.Step(i, start, s).Some? && OffsetFits(i.payload)
  }

  /** A single instruction that leaves w in the register of the result. */
  lemma DefinesBy(i: IR.Instr, start: Word, s: IR.State, size: nat, base: Word, m: A.Machine, v: IR.Value, w: Word)
    requires EnvRel(s.env, m.regs) && HostRel(s.g, base, m) && ValRel(v, w)
    requires IR.Step(i, start, s) == IR.Some(IR.State(s.env + [v], s.g))
    requires A.Run(SelectInst(i, start, size).code, m) == SetV(m, |s.env| + 1, w)
    ensures Follows(i, start, s, size, base, m)
  {
    hide EnvRel, HostRel, ValRel, SelectInst, IR.Step, A.Run;
    SetDefines(s.env, m, v, w);
    SetKeepsHost(s.g, base, m, |s.env| + 1, w);
  }

  lemma ConstFollows(i: IR.Instr, start: Word, s: IR.State, size: nat, base: Word, m: A.Machine)
    requires Ready(i, start, s, size, base, m) && i.payload.Const?
    ensures Follows(i, start, s, size, base, m)
  {
    hide EnvRel, HostRel, ConstCode, A.Run, Follows;
    var val := i.payload.value;
    ConstIsBuilt(|s.env| + 1, val, m);
    DefinesBy(i, start, s, size, base, m, IR.Val(i.payload.ty, IR.Truncate(i.payload.ty, val)), val);
  }

  lemma ReadRegFollows(i: IR.Instr, start: Word, s: IR.State, size: nat, base: Word, m: A.Machine)
    requires Ready(i, start, s, size, base, m) && (i.payload.ReadReg? || i.payload.GetPC?)
    ensures Follows(i, start, s, size, base, m)
  {
    hide EnvRel, A.Run, Follows;
    A.Run1(SelectInst(i, start, size).code[0], m);
    var w := if i.payload.GetPC? then start else R.Slot(s.g.x, i.payload.reg);
    DefinesBy(i, start, s, size, base, m, IR.Val(IR.I64, w), w);
  }

  lemma WriteRegFollows(i: IR.Instr, start: Word, s: IR.State, size: nat, base: Word, m: A.Machine)
    requires Ready(i, start, s, size, base, m) && i.payload.WriteReg?
    ensures Follows(i, start, s, size, base, m)
  {
    hide EnvRel, A.Run, Shows;
    var r: int := i.payload.reg;
    var v := i.payload.v;
    var code := SelectInst(i, start, size).code;
    var w := s.env[v].n;
    A.Run1(code[0], m);
    ReadsI64(s.env, m.regs, v);
    var m' := A.Exec(code[0], m);
    assert m' == m.(slots := m.slots[8 * r := w]);
    NothingDefined(s.env, m);
    var x' := s.g.x[r := w];
    forall q: R.RegIndex ensures A.SlotAt(m'.slots, 8 * q) == R.Slot(x', q) {
      assert A.SlotAt(m.slots, 8 * q) == R.Slot(s.g.x, q);
    }
  }

  lemma BinOpFollows(i: IR.Instr, start: Word, s: IR.State, size: nat, base: Word, m: A.Machine)
    requires Ready(i, start, s, size, base, m) && i.payload.BinOp?
    ensures Follows(i, start, s, size, base, m)
  {
    hide EnvRel, HostRel, A.Run, Follows, Add, Sub, Bitwise, Shl, Shr, Sar;
    A.Run1(SelectInst(i, start, size).code[0], m);
    var a, b := s.env[i.payload.lhs].n, s.env[i.payload.rhs].n;
    ReadsI64(s.env, m.regs, i.payload.lhs);
    ReadsI64(s.env, m.regs, i.payload.rhs);
    var w := IR.Binary(i.payload.kind, a, b);
    assert A.AluResult(AluOf(i.payload.kind), a, b) == w;
    DefinesBy(i, start, s, size, base, m, IR.Val(IR.I64, w), w);
  }

  lemma CompareAgrees(c: IR.ICmpCond, a: Word, b: Word)
    ensures A.Holds(CondOf(c), A.Compare(a, b)) <==> IR.Compares(c, a, b)
  {
    hide A.Holds, A.Compare, Signed;
    A.ConditionsMean(a, b);
  }

  lemma ICmpFollows(i: IR.Instr, start: Word, s: IR.State, size: nat, base: Word, m: A.Machine)
    requires Ready(i, start, s, size, base, m) && i.payload.ICmp?
    ensures Follows(i, start, s, size, base, m)
  {
    hide A.Run, A.Compare, A.Holds, IR.Compares, ValRel, Shows;
    var a, b := s.env[i.payload.lhs].n, s.env[i.payload.rhs].n;
    var code := SelectInst(i, start, size).code;
    A.Run2(code[0], code[1], m);
    ReadsI64(s.env, m.regs, i.payload.lhs);
    ReadsI64(s.env, m.regs, i.payload.rhs);
    CompareAgrees(i.payload.cond, a, b);
    var w := R.Flag(IR.Compares(i.payload.cond, a, b));
    var m1 := m.(flags := A.Compare(a, b));
    assert A.Exec(code[0], m) == m1;
    assert A.Exec(code[1], m1) == SetV(m1, |s.env| + 1, w);
    FlagFits(w);
    SetDefines(s.env, m1, IR.Val(IR.I1, w), w);
    SetKeepsHost(s.g, base, m1, |s.env| + 1, w);
  }

  lemma FlagFits(w: Word)
    requires w <= 1
    ensures ValRel(IR.Val(IR.I1, w), w)
  {
  }

  lemma ConversionFollows(i: IR.Instr, start: Word, s: IR.State, size: nat, base: Word, m: A.Machine)
    requires Ready(i, start, s, size, base, m) && (i.payload.ZExt? || i.payload.SExt? || i.payload.Trunc?)
    ensures Follows(i, start, s, size, base, m)
  {
    hide EnvRel, HostRel, A.Run, Follows, SExt32, Low32;
    A.Run1(SelectInst(i, start, size).code[0], m);
    var n := s.env[i.payload.src].n;
    if i.payload.Trunc? {
      ReadsI64(s.env, m.regs, i.payload.src);
      DefinesBy(i, start, s, size, base, m, IR.Val(i.payload.to, IR.Truncate(i.payload.to, n)), n);
    } else {
      ReadsI32(s.env, m.regs, i.payload.src);
      var w := if i.payload.ZExt? then n else SExt32(Low32(n));
      DefinesBy(i, start, s, size, base, m, IR.Val(IR.I64, w), w);
    }
  }

  // ---------- Memory ----------

  /** The cast of an offset to 32 bits keeps it exactly when it fits. */
  lemma OffsetBack(off: Word)
    ensures FromSigned(Offset32(off)) == off <==> Fits32(off)
  {
  }

  lemma AddTwice(a: Word, base: Word, o: Word)
    ensures Add(Add(a, base), o) == Add(base, Add(a, o))
  {
  }

  /** base + x21 + offset is where the host keeps guest address base + offset, exactly when the
      offset survives the cast to 32 bits. */
  lemma HostAddress(a: Word, base: Word, off: Word)
    ensures Add(Add(a, base), FromSigned(Offset32(off))) == Add(base, Add(a, off)) <==> Fits32(off)
  {
    hide Add, Offset32, Fits32;
    OffsetBack(off);
    var o := FromSigned(Offset32(off));
    AddTwice(a, base, o);
    AddInjective(base, Add(a, o), Add(a, off));
    AddInjective(a, o, off);
  }

  lemma LoadShownTyped(h: Memory, base: Word, g: Memory, a: Word, ty: IR.Type)
    requires Shows(h, base, g) && !ty.I1?
    ensures A.LoadWidth(h, Add(base, a), WidthOf(ty)) == IR.LoadTyped(g, a, ty)
  {
    hide Add, Shows;
    LoadShown(h, base, g, a, 1);
    LoadShown(h, base, g, a, 2);
    LoadShown(h, base, g, a, 4);
    LoadShown(h, base, g, a, 8);
    assert LoadBytes(g, a, 1) == ByteAt(g, a) && LoadBytes(h, Add(base, a), 1) == ByteAt(h, Add(base, a));
  }

  lemma LoadFits(m: Memory, a: Word, ty: IR.Type)
    requires !ty.I1?
    ensures ValRel(IR.Val(ty, IR.LoadTyped(m, a, ty)), IR.LoadTyped(m, a, ty))
  {
    hide LoadBytes, ByteAt;
  }

  /** The first instruction of a memory access puts the host address in the fresh register. */
  lemma TempHoldsAddress(s: IR.State, base: Word, m: A.Machine, id: nat, size: nat)
    requires EnvRel(s.env, m.regs) && HostRel(s.g, base, m) && IR.Has(s.env, id, IR.I64) && |s.env| < size
    ensures
      var m1 := A.Exec(A.Alu(A.AddX, VReg(size), VReg(id), A.P(21)), m);
      && m1 == SetV(m, size + 1, Add(s.env[id].n, base))
      && EnvRel(s.env, m1.regs) && HostRel(s.g, base, m1)
  {
    hide EnvRel, Add, ValRel, Shows;
    ReadsI64(s.env, m.regs, id);
    SetTempKeepsEnv(s.env, m, size + 1, Add(s.env[id].n, base));
    SetKeepsHost(s.g, base, m, size + 1, Add(s.env[id].n, base));
  }

  lemma LoadFollows(i: IR.Instr, start: Word, s: IR.State, size: nat, base: Word, m: A.Machine)
    requires Ready(i, start, s, size, base, m) && i.payload.Load?
    ensures Follows(i, start, s, size, base, m)
  {
    hide EnvRel, A.Run, Add, Shows, FromSigned, Offset32, A.LoadWidth, IR.LoadTyped, ValRel, WidthOf;
    var Load(id, off, ty) := i.payload;
    var code := SelectInst(i, start, size).code;
    var a := s.env[id].n;
    A.Run2(code[0], code[1], m);
    TempHoldsAddress(s, base, m, id, size);
    var m1 := A.Exec(code[0], m);
    HostAddress(a, base, off);
    LoadShownTyped(m.mem, base, s.g.mem, Add(a, off), ty);
    var w := IR.LoadTyped(s.g.mem, Add(a, off), ty);
    assert A.Exec(code[1], m1) == SetV(m1, |s.env| + 1, w);
    LoadFits(s.g.mem, Add(a, off), ty);
    SetDefines(s.env, m1, IR.Val(ty, w), w);
    SetKeepsHost(s.g, base, m1, |s.env| + 1, w);
  }

  lemma StoreFollows(i: IR.Instr, start: Word, s: IR.State, size: nat, base: Word, m: A.Machine)
    requires Ready(i, start, s, size, base, m) && i.payload.Store?
    ensures Follows(i, start, s, size, base, m)
  {
    hide EnvRel, A.Run, Add, Shows, FromSigned, Offset32, StoreBytes;
    var Store(v, id, off, ty) := i.payload;
    var code := SelectInst(i, start, size).code;
    var a := s.env[id].n;
    A.Run2(code[0], code[1], m);
    TempHoldsAddress(s, base, m, id, size);
    var m1 := A.Exec(code[0], m);
    HostAddress(a, base, off);
    ReadsI64(s.env, m1.regs, v);
    var n := A.BytesOf(WidthOf(ty));
    StoreShown(m.mem, base, s.g.mem, Add(a, off), s.env[v].n, n);
    assert A.Exec(code[1], m1) == m1.(mem := StoreBytes(m.mem, Add(base, Add(a, off)), s.env[v].n, n));
    NothingDefined(s.env, m1);
  }

  lemma InstFollows(i: IR.Instr, start: Word, s: IR.State, size: nat, base: Word, m: A.Machine)
    requires Ready(i, start, s, size, base, m)
    ensures Follows(i, start, s, size, base, m)
  {
    hide Ready, Follows;
    match i.payload
    case Const(_, _) => ConstFollows(i, start, s, size, base, m);
    case ReadReg(_) => ReadRegFollows(i, start, s, size, base, m);
    case GetPC => ReadRegFollows(i, start, s, size, base, m);
    case WriteReg(_, _) => WriteRegFollows(i, start, s, size, base, m);
    case BinOp(_, _, _, _) => BinOpFollows(i, start, s, size, base, m);
    case ICmp(_, _, _) => ICmpFollows(i, start, s, size, base, m);
    case Load(_, _, _) => LoadFollows(i, start, s, size, base, m);
    case Store(_, _, _, _) => StoreFollows(i, start, s, size, base, m);
    case _ => ConversionFollows(i, start, s, size, base, m);
  }
}
