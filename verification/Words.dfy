/** Machine words as their unsigned values, with the wrap-around written out,
    and byte-addressed little-endian memory. */
module Words {

  type Byte = x: int | 0 <= x < 0x100
  type Word32 = x: int | 0 <= x < 0x1_0000_0000
  type Word = x: int | 0 <= x < 0x1_0000_0000_0000_0000

  type Int64 = x: int | -0x8000_0000_0000_0000 <= x < 0x8000_0000_0000_0000

  /** Addition modulo 2^64, without a division. */
  function Add(a: Word, b: Word): Word {
    if a + b < 0x1_0000_0000_0000_0000 then a + b else a + b - 0x1_0000_0000_0000_0000
  }

  /** Subtraction modulo 2^64. */
  function Sub(a: Word, b: Word): Word {
    if a >= b then a - b else a - b + 0x1_0000_0000_0000_0000
  }

  /** The cast of a signed 64-bit value to its unsigned form. */
  function FromSigned(x: Int64): Word {
    if x < 0 then x + 0x1_0000_0000_0000_0000 else x
  }

  function Low32(x: int): Word32 {
    x % 0x1_0000_0000
  }

  function Low16(x: int): nat {
    x % 0x1_0000
  }

  function Low8(x: int): Byte {
    x % 0x100
  }

  /** The two's-complement value of a word. */
  function Signed(x: Word): int {
    if x < 0x8000_0000_0000_0000 then x else x - 0x1_0000_0000_0000_0000
  }

  /** The two's-complement value of a 32-bit word. */
  function Signed32(x: Word32): int {
    if x < 0x8000_0000 then x else x - 0x1_0000_0000
  }

  function SExt32(x: Word32): Word {
    FromSigned(Signed32(x))
  }

  function SExt16(x: int): Word {
    FromSigned(if Low16(x) < 0x8000 then Low16(x) else Low16(x) - 0x1_0000)
  }

  function SExt8(x: int): Word {
    FromSigned(if Low8(x) < 0x80 then Low8(x) else Low8(x) - 0x100)
  }

  // Shifts, one place at a time; callers pass an amount already reduced to 0..63.

  function Shl(x: Word, n: nat): Word
    decreases n
  {
    if n == 0 then x else Shl(Add(x, x), n - 1)
  }

  function Shr(x: Word, n: nat): Word
    decreases n
  {
    if n == 0 then x else Shr(x / 2, n - 1)
  }

  function Sar(x: Word, n: nat): Word
    decreases n
  {
    if n == 0 then x
    else Sar(if x < 0x8000_0000_0000_0000 then x / 2 else x / 2 + 0x8000_0000_0000_0000, n - 1)
  }

  // Bitwise operations, one bit at a time from the low end.

  datatype BitFn = AndBits | OrBits | XorBits

  function Bit(f: BitFn, a: int, b: int): nat {
    match f
    case AndBits => if a == 1 && b == 1 then 1 else 0
    case OrBits => if a == 1 || b == 1 then 1 else 0
    case XorBits => if a == b then 0 else 1
  }

  function Pow2(n: nat): nat {
    if n == 0 then 1 else 2 * Pow2(n - 1)
  }

  function BitsUpTo(f: BitFn, a: nat, b: nat, n: nat): (r: nat)
    ensures r < Pow2(n)
    decreases n
  {
    if n == 0 then 0
    else Bit(f, a % 2, b % 2) + 2 * BitsUpTo(f, a / 2, b / 2, n - 1)
  }

  lemma Pow2At64()
    ensures Pow2(64) == 0x1_0000_0000_0000_0000
  {
    Pow2By8(8); Pow2By8(16); Pow2By8(24); Pow2By8(32); Pow2By8(40); Pow2By8(48); Pow2By8(56);
    assert Pow2(8) == 0x100;
  }

  lemma Pow2By8(n: nat)
    ensures Pow2(n + 8) == 0x100 * Pow2(n)
  {
    assert Pow2(n + 2) == 4 * Pow2(n);
    assert Pow2(n + 4) == 4 * Pow2(n + 2);
    assert Pow2(n + 6) == 4 * Pow2(n + 4);
  }

  function Bitwise(f: BitFn, a: Word, b: Word): Word {
    Pow2At64();
    BitsUpTo(f, a, b, 64)
  }

  // Memory: a byte that was never written reads as zero.

  type Memory = map<Word, Byte>

  function ByteAt(m: Memory, a: Word): Byte {
    if a in m then m[a] else 0
  }

  function Pow256(n: nat): (r: nat)
    ensures r > 0
  {
    if n == 0 then 1 else 256 * Pow256(n - 1)
  }

  /** The little-endian value of the n bytes at a; addresses wrap. */
  function LoadBytes(m: Memory, a: Word, n: nat): (r: nat)
    ensures r < Pow256(n)
    decreases n
  {
    if n == 0 then 0 else ByteAt(m, a) + 256 * LoadBytes(m, Add(a, 1), n - 1)
  }

  /** Writes the n low bytes of v at a, lowest byte first. */
  function StoreBytes(m: Memory, a: Word, v: nat, n: nat): Memory
    decreases n
  {
    if n == 0 then m else StoreBytes(m[a := Low8(v)], Add(a, 1), v / 256, n - 1)
  }

  function Load64(m: Memory, a: Word): Word {
    assert Pow256(8) == 0x1_0000_0000_0000_0000;
    LoadBytes(m, a, 8)
  }

  function Load32(m: Memory, a: Word): Word32 {
    assert Pow256(4) == 0x1_0000_0000;
    LoadBytes(m, a, 4)
  }

  function Load16(m: Memory, a: Word): (r: nat)
    ensures r < 0x1_0000
  {
    assert Pow256(2) == 0x1_0000;
    LoadBytes(m, a, 2)
  }

  /** Host memory h shows guest memory g through a displacement: guest address a lives at
      host address base + a. */
  ghost predicate Shows(h: Memory, base: Word, g: Memory) {
    forall a: Word {:trigger ByteAt(h, Add(base, a))} :: ByteAt(h, Add(base, a)) == ByteAt(g, a)
  }

  lemma AddAssoc(a: Word, b: Word, c: Word)
    ensures Add(Add(a, b), c) == Add(a, Add(b, c))
  {
  }

  lemma {:induction false} LoadShown(h: Memory, base: Word, g: Memory, a: Word, n: nat)
    requires Shows(h, base, g)
    ensures LoadBytes(h, Add(base, a), n) == LoadBytes(g, a, n)
    decreases n
  {
    if n > 0 {
      AddAssoc(base, a, 1);
      assert ByteAt(h, Add(base, a)) == ByteAt(g, a);
      LoadShown(h, base, g, Add(a, 1), n - 1);
    }
  }

  lemma StoreByteShown(h: Memory, base: Word, g: Memory, a: Word, v: Byte)
    requires Shows(h, base, g)
    ensures Shows(h[Add(base, a) := v], base, g[a := v])
  {
    hide Add;
    var h1, g1 := h[Add(base, a) := v], g[a := v];
    forall b: Word ensures ByteAt(h1, Add(base, b)) == ByteAt(g1, b) {
      assert ByteAt(h, Add(base, b)) == ByteAt(g, b);
      AddInjective(base, a, b);
    }
  }

  lemma AddInjective(a: Word, b: Word, c: Word)
    ensures Add(a, b) == Add(a, c) ==> b == c
  {
  }

  lemma {:induction false} StoreShown(h: Memory, base: Word, g: Memory, a: Word, v: nat, n: nat)
    requires Shows(h, base, g)
    ensures Shows(StoreBytes(h, Add(base, a), v, n), base, StoreBytes(g, a, v, n))
    decreases n
  {
    hide Add, Shows;
    if n > 0 {
      AddAssoc(base, a, 1);
      StoreByteShown(h, base, g, a, Low8(v));
      StoreShown(h[Add(base, a) := Low8(v)], base, g[a := Low8(v)], Add(a, 1), v / 256, n - 1);
    }
  }
}
