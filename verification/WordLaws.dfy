/** What the word operations mean in plain arithmetic, whatever their bodies: every machine of the
    model computes with them. */
module WordLaws {
  import opened Words

  const TWO64: int := 0x1_0000_0000_0000_0000
  const TWO63: int := 0x8000_0000_0000_0000

  /** r stands for v modulo 2^64. */
  predicate Represents(r: Word, v: int) {
    (v - r) % TWO64 == 0
  }

  /** r is the sign extension of v modulo 2^32: its signed value is in 32-bit range and congruent. */
  predicate RepresentsWord(r: Word, v: int) {
    -0x8000_0000 <= Signed(r) < 0x8000_0000 && (v - Signed(r)) % 0x1_0000_0000 == 0
  }

  // ---------- Addition, signs and extensions ----------

  lemma {:induction false} SumRepresents(a: Word, b: Word)
    ensures Represents(Add(a, b), a + b) && Represents(Sub(a, b), a - b)
  {
  }

  /** A signed value is the one value in signed range that the word stands for. */
  lemma {:induction false} SignedRepresents(a: Word)
    ensures -TWO63 <= Signed(a) < TWO63 && Represents(a, Signed(a))
  {
  }

  lemma {:induction false} FromSignedRepresents(v: Int64)
    ensures Signed(FromSigned(v)) == v && Represents(FromSigned(v), v)
  {
  }

  lemma {:induction false} Remainder(x: int, d: int)
    requires d > 0
    ensures (x - x % d) % d == 0
  {
    QuotientIs(x - x % d, d, x / d, 0);
  }

  /** Narrowing keeps the low bits. */
  lemma {:induction false} LowParts(x: int)
    ensures 0 <= Low32(x) < 0x1_0000_0000 && (x - Low32(x)) % 0x1_0000_0000 == 0
    ensures 0 <= Low16(x) < 0x1_0000 && (x - Low16(x)) % 0x1_0000 == 0
    ensures 0 <= Low8(x) < 0x100 && (x - Low8(x)) % 0x100 == 0
  {
    Low32Part(x);
    Low16Part(x);
    Low8Part(x);
  }

  lemma {:induction false} Low32Part(x: int)
    ensures 0 <= Low32(x) < 0x1_0000_0000 && (x - Low32(x)) % 0x1_0000_0000 == 0
  {
    Remainder(x, 0x1_0000_0000);
  }

  lemma {:induction false} Low16Part(x: int)
    ensures 0 <= Low16(x) < 0x1_0000 && (x - Low16(x)) % 0x1_0000 == 0
  {
    Remainder(x, 0x1_0000);
  }

  lemma {:induction false} Low8Part(x: int)
    ensures 0 <= Low8(x) < 0x100 && (x - Low8(x)) % 0x100 == 0
  {
    Remainder(x, 0x100);
  }

  /** Sign extension keeps the signed value, whose 32-bit form is its low half. */
  lemma {:induction false} SignExtends(x: Word32)
    ensures -0x8000_0000 <= Signed32(x) < 0x8000_0000 && (x - Signed32(x)) % 0x1_0000_0000 == 0
    ensures Signed(SExt32(x)) == Signed32(x) && Low32(SExt32(x)) == x
    ensures RepresentsWord(SExt32(x), x)
  {
  }

  lemma {:induction false} WordExtends(v: int)
    ensures RepresentsWord(SExt32(Low32(v)), v)
  {
    hide SExt32, Signed32, Signed, Low32;
    SignExtends(Low32(v));
    Low32Part(v);
    SameResidue(v, Low32(v), Signed(SExt32(Low32(v))));
  }

  lemma {:induction false} SameResidue(v: int, x: int, s: int)
    requires (v - x) % 0x1_0000_0000 == 0 && (x - s) % 0x1_0000_0000 == 0
    ensures (v - s) % 0x1_0000_0000 == 0
  {
  }

  lemma {:induction false} HalfExtends(x: int)
    ensures -0x8000 <= Signed(SExt16(x)) < 0x8000 && (x - Signed(SExt16(x))) % 0x1_0000 == 0
  {
  }

  lemma {:induction false} ByteExtends(x: int)
    ensures -0x80 <= Signed(SExt8(x)) < 0x80 && (x - Signed(SExt8(x))) % 0x100 == 0
  {
  }

  // ---------- Powers ----------

  lemma {:induction false} PowerPositive(n: nat)
    ensures Pow2(n) >= 1
  {
    if n > 0 { PowerPositive(n - 1); }
  }

  lemma {:induction false} PowerDouble(n: nat)
    ensures Pow2(0) == 1 && (n > 0 ==> Pow2(n) == 2 * Pow2(n - 1))
  {
  }

  /** Halving and then dividing. */
  lemma {:induction false} DivideTwice(x: int, p: int)
    requires p >= 1
    ensures (x / 2) / p == x / (2 * p)
  {
    var q, r := (x / 2) / p, (x / 2) % p;
    assert x == 2 * (p * q + r) + x % 2;
    assert 2 * p * q == 2 * (p * q);
    assert x == (2 * p) * q + (2 * r + x % 2);
    assert 0 <= 2 * r + x % 2 < 2 * p;
    QuotientIs(x, 2 * p, q, 2 * r + x % 2);
  }

  lemma {:induction false} QuotientIs(x: int, d: int, q: int, r: int)
    requires d > 0 && 0 <= r < d && x == d * q + r
    ensures x / d == q && x % d == r
  {
    var k := x / d - q;
    assert x == d * (x / d) + x % d;
    assert d * k == r - x % d;
    assert k >= 1 ==> d * k >= d;
    assert k <= -1 ==> d * k <= -d;
  }

  // ---------- Shifts ----------

  /** A logical right shift divides by the power of two. */
  lemma {:induction false} ShrDivides(x: Word, n: nat)
    ensures Pow2(n) > 0 && Shr(x, n) == x / Pow2(n)
    decreases n
  {
    hide Pow2;
    PowerPositive(n);
    PowerDouble(n);
    if n > 0 {
      PowerPositive(n - 1);
      ShrDivides(x / 2, n - 1);
      DivideTwice(x, Pow2(n - 1));
    }
  }

  lemma {:induction false} SarStep(x: Word)
    ensures
      var y := if x < 0x8000_0000_0000_0000 then x / 2 else x / 2 + 0x8000_0000_0000_0000;
      Signed(y) == Signed(x) / 2
  {
  }

  /** An arithmetic right shift divides the signed value, rounding down. */
  lemma {:induction false} SarDivides(x: Word, n: nat)
    ensures Pow2(n) > 0 && Signed(Sar(x, n)) == Signed(x) / Pow2(n)
    decreases n
  {
    hide Pow2, Signed;
    PowerPositive(n);
    PowerDouble(n);
    if n > 0 {
      PowerPositive(n - 1);
      var y := if x < 0x8000_0000_0000_0000 then x / 2 else x / 2 + 0x8000_0000_0000_0000;
      SarStep(x);
      SarDivides(y, n - 1);
      DivideTwice(Signed(x), Pow2(n - 1));
    }
  }

  lemma {:induction false} AddMultiple(v: int, k: int)
    ensures (v + TWO64 * k) % TWO64 == v % TWO64
  {
    QuotientIs(v + TWO64 * k, TWO64, v / TWO64 + k, v % TWO64);
  }

  lemma {:induction false} Doubled(x: int, p: int, s: int)
    requires s == x + x || s == x + x - TWO64
    ensures x * (2 * p) == s * p || x * (2 * p) == s * p + TWO64 * p
  {
    assert x * (2 * p) == (x + x) * p;
    assert (x + x - TWO64) * p == (x + x) * p - TWO64 * p;
  }

  /** A left shift multiplies by the power of two, modulo 2^64. */
  lemma {:induction false} ShlMultiplies(x: Word, n: nat)
    ensures Represents(Shl(x, n), x * Pow2(n))
    decreases n
  {
    hide Pow2;
    PowerDouble(n);
    if n > 0 {
      var p, s := Pow2(n - 1), Add(x, x);
      ShlMultiplies(s, n - 1);
      Doubled(x, p, s);
      AddMultiple(s * p - Shl(x, n), p);
    }
  }

  // ---------- Bits ----------

  /** Bit i of a natural number. */
  function BitAt(x: nat, i: nat): nat {
    PowerPositive(i);
    x / Pow2(i) % 2
  }

  lemma {:induction false} BitsNext(f: BitFn, a: nat, b: nat, n: nat)
    requires n > 0
    ensures BitsUpTo(f, a, b, n) == Bit(f, a % 2, b % 2) + 2 * BitsUpTo(f, a / 2, b / 2, n - 1)
  {
    hide Bit;
  }

  lemma {:induction false} Halves(low: nat, rest: nat)
    requires low <= 1
    ensures (low + 2 * rest) % 2 == low && (low + 2 * rest) / 2 == rest
  {
  }

  lemma {:induction false} BitsAt(f: BitFn, a: nat, b: nat, n: nat, i: nat)
    requires i < n
    ensures BitAt(BitsUpTo(f, a, b, n), i) == Bit(f, BitAt(a, i), BitAt(b, i))
    decreases n
  {
    hide Bit, BitAt, BitsUpTo;
    BitIsBit(f, a % 2, b % 2);
    BitsNext(f, a, b, n);
    var low, rest := Bit(f, a % 2, b % 2), BitsUpTo(f, a / 2, b / 2, n - 1);
    Halves(low, rest);
    if i == 0 {
      FirstBit(a);
      FirstBit(b);
      FirstBit(low + 2 * rest);
    } else {
      BitsAt(f, a / 2, b / 2, n - 1, i - 1);
      NextBit(a, i);
      NextBit(b, i);
      NextBit(low + 2 * rest, i);
    }
  }

  lemma {:induction false} BitIsBit(f: BitFn, a: int, b: int)
    ensures Bit(f, a, b) <= 1
  {
  }

  lemma {:induction false} FirstBit(x: nat)
    ensures BitAt(x, 0) == x % 2
  {
  }

  lemma {:induction false} NextBit(x: nat, i: nat)
    requires i > 0
    ensures BitAt(x, i) == BitAt(x / 2, i - 1)
  {
    hide Pow2;
    PowerDouble(i);
    PowerPositive(i - 1);
    DivideTwice(x, Pow2(i - 1));
  }

  /** Each bit of a conjunction, disjunction or exclusive disjunction is that of the two bits. */
  lemma {:induction false} BitwiseBits(a: Word, b: Word, i: nat)
    requires i < 64
    ensures BitAt(Bitwise(AndBits, a, b), i) == 1 <==> BitAt(a, i) == 1 && BitAt(b, i) == 1
    ensures BitAt(Bitwise(OrBits, a, b), i) == 1 <==> BitAt(a, i) == 1 || BitAt(b, i) == 1
    ensures BitAt(Bitwise(XorBits, a, b), i) == 1 <==> BitAt(a, i) != BitAt(b, i)
  {
    hide BitsUpTo, Pow2;
    BitsAt(AndBits, a, b, 64, i);
    BitsAt(OrBits, a, b, 64, i);
    BitsAt(XorBits, a, b, 64, i);
    TwoBits(a, i);
    TwoBits(b, i);
  }

  lemma {:induction false} TwoBits(x: nat, i: nat)
    ensures BitAt(x, i) == 0 || BitAt(x, i) == 1
  {
  }

  // ---------- Memory ----------

  /** Writing bytes leaves all others. */
  lemma {:induction false} StoreLeaves(m: Memory, a: Word, v: nat, n: nat, b: Word)
    requires forall i :: 0 <= i < n ==> b != At(a, i)
    ensures ByteAt(StoreBytes(m, a, v, n), b) == ByteAt(m, b)
    decreases n
  {
    hide Add;
    if n > 0 {
      assert At(a, 0) == a;
      forall i | 0 <= i < n - 1 ensures b != At(Add(a, 1), i) {
        AtNext(a, i);
        assert b != At(a, i + 1);
      }
      StoreLeaves(m[a := Low8(v)], Add(a, 1), v / 256, n - 1, b);
    }
  }

  /** The address i bytes on, which wraps. */
  function At(a: Word, i: nat): Word {
    if i == 0 then a else Add(At(a, i - 1), 1)
  }

  lemma {:induction false} AtNext(a: Word, i: nat)
    ensures At(Add(a, 1), i) == At(a, i + 1)
    decreases i
  {
    hide Add;
    if i > 0 { AtNext(a, i - 1); }
  }

  lemma {:induction false} AtIsSum(a: Word, i: nat)
    requires i < 256
    ensures At(a, i) == Add(a, i)
    decreases i
  {
    if i > 0 { AtIsSum(a, i - 1); }
  }

  /** Byte i of a value, lowest first. */
  function ByteOf(v: nat, i: nat): Byte {
    v / Pow256(i) % 256
  }

  lemma {:induction false} ByteNext(v: nat, i: nat)
    ensures ByteOf(v, i + 1) == ByteOf(v / 256, i) && ByteOf(v, 0) == Low8(v)
  {
    var p := Pow256(i);
    var q, r := (v / 256) / p, (v / 256) % p;
    assert v == 256 * (p * q + r) + v % 256;
    assert 256 * p * q == 256 * (p * q);
    assert v == (256 * p) * q + (256 * r + v % 256);
    QuotientIs(v, 256 * p, q, 256 * r + v % 256);
  }

  /** A store puts byte i of the value at address a + i: the lowest byte first. */
  lemma {:induction false} StorePutsBytes(m: Memory, a: Word, v: nat, n: nat, i: nat)
    requires i < n <= 8
    ensures ByteAt(StoreBytes(m, a, v, n), Add(a, i)) == ByteOf(v, i)
    decreases n
  {
    hide Pow256;
    AddZero(a);
    if i == 0 {
      forall j | 0 <= j < n - 1 ensures a != At(Add(a, 1), j) {
        AtNext(a, j);
        AtIsSum(a, j + 1);
        NotBack(a, j + 1);
      }
      ByteNext(v, 0);
      StoreLeaves(m[a := Low8(v)], Add(a, 1), v / 256, n - 1, a);
    } else {
      AddAssoc(a, 1, i - 1);
      ByteNext(v, i - 1);
      StorePutsBytes(m[a := Low8(v)], Add(a, 1), v / 256, n - 1, i - 1);
    }
  }

  lemma {:induction false} AddZero(a: Word)
    ensures Add(a, 0) == a
  {
  }

  lemma {:induction false} NotBack(a: Word, i: nat)
    requires 0 < i < 256
    ensures Add(a, i) != a
  {
  }

  lemma {:induction false} LoadParts(m: Memory, a: Word, n: nat)
    requires n > 0
    ensures LoadBytes(m, a, n) / 256 == LoadBytes(m, Add(a, 1), n - 1)
    ensures Low8(LoadBytes(m, a, n)) == ByteAt(m, a)
  {
    hide Add;
  }

  /** A load puts the byte at address a + i in place i: the lowest byte first. */
  lemma {:induction false} LoadTakesBytes(m: Memory, a: Word, n: nat, i: nat)
    requires i < n <= 8
    ensures ByteOf(LoadBytes(m, a, n), i) == ByteAt(m, Add(a, i))
    decreases n
  {
    hide Pow256, Add, LoadBytes, ByteOf, ByteAt, Low8;
    LoadParts(m, a, n);
    if i == 0 {
      AddZero(a);
      ByteNext(LoadBytes(m, a, n), 0);
    } else {
      LoadTakesBytes(m, Add(a, 1), n - 1, i - 1);
      AddAssoc(a, 1, i - 1);
      AddOne(i);
      ByteNext(LoadBytes(m, a, n), i - 1);
    }
  }

  lemma {:induction false} AddOne(i: nat)
    requires 0 < i < 256
    ensures Add(1, i - 1) == i
  {
  }

  lemma {:induction false} DivideByPower(v: nat, p: nat)
    requires p > 0
    ensures v % (256 * p) == 256 * ((v / 256) % p) + v % 256
  {
    var q, r := (v / 256) / p, (v / 256) % p;
    assert v == 256 * (p * q + r) + v % 256;
    assert 256 * p * q == 256 * (p * q);
    QuotientIs(v, 256 * p, q, 256 * r + v % 256);
  }

  /** A load after a store at the same address returns the stored bytes. */
  lemma {:induction false} LoadAfterStore(m: Memory, a: Word, v: nat, n: nat)
    requires n <= 8
    ensures LoadBytes(StoreBytes(m, a, v, n), a, n) == v % Pow256(n)
    decreases n
  {
    if n > 0 {
      var m1 := m[a := Low8(v)];
      LoadAfterStore(m1, Add(a, 1), v / 256, n - 1);
      forall j | 0 <= j < n - 1 ensures a != At(Add(a, 1), j) {
        AtNext(a, j);
        AtIsSum(a, j + 1);
        NotBack(a, j + 1);
      }
      StoreLeaves(m1, Add(a, 1), v / 256, n - 1, a);
      DivideByPower(v, Pow256(n - 1));
    }
  }
}
