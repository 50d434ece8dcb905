/** Block labels: a prefix and the block address in lower-case hexadecimal. */
module Labels {
  import opened Words

  const DIGITS: string := "0123456789abcdef"

  function Hex(n: nat): string {
    if n < 16 then [DIGITS[n]] else Hex(n / 16) + [DIGITS[n % 16]]
  }

  function Label(pc: Word): string {
    "__riscy_block_0x" + Hex(pc)
  }

  lemma DigitsDiffer(i: nat, j: nat)
    requires i < 16 && j < 16 && DIGITS[i] == DIGITS[j]
    ensures i == j
  {
  }

  lemma HexShape(n: nat)
    ensures Hex(n) != [] && Hex(n)[|Hex(n)| - 1] == DIGITS[n % 16]
    ensures n >= 16 ==> |Hex(n)| > 1 && Hex(n)[..|Hex(n)| - 1] == Hex(n / 16)
    ensures n < 16 ==> |Hex(n)| == 1
  {
    hide DIGITS;
    if n >= 16 {
      HexShape(n / 16);
    }
  }

  lemma {:induction false} HexInjective(m: nat, n: nat)
    requires Hex(m) == Hex(n)
    ensures m == n
  {
    hide DIGITS, Hex;
    HexShape(m);
    HexShape(n);
    DigitsDiffer(m % 16, n % 16);
    if m >= 16 {
      HexInjective(m / 16, n / 16);
    }
  }

  /** Different addresses have different labels. */
  lemma LabelInjective(a: Word, b: Word)
    requires Label(a) == Label(b)
    ensures a == b
  {
    assert Hex(a) == Label(a)[16..];
    assert Hex(b) == Label(b)[16..];
    HexInjective(a, b);
  }

  // ---------- Reading a label back ----------

  function DigitValue(c: char): int {
    if '0' <= c <= '9' then c as int - '0' as int
    else if 'a' <= c <= 'f' then c as int - 'a' as int + 10
    else -1
  }

  function Number(s: string): int {
    if s == "" then 0 else 16 * Number(s[..|s| - 1]) + DigitValue(s[|s| - 1])
  }

  lemma {:induction false} DigitIs(n: nat)
    requires n < 16
    ensures DigitValue(DIGITS[n]) == n && (DIGITS[n] == '0' <==> n == 0)
  {
    assert DIGITS[0] == '0' && DIGITS[1] == '1' && DIGITS[2] == '2' && DIGITS[3] == '3';
    assert DIGITS[4] == '4' && DIGITS[5] == '5' && DIGITS[6] == '6' && DIGITS[7] == '7';
    assert DIGITS[8] == '8' && DIGITS[9] == '9' && DIGITS[10] == 'a' && DIGITS[11] == 'b';
    assert DIGITS[12] == 'c' && DIGITS[13] == 'd' && DIGITS[14] == 'e' && DIGITS[15] == 'f';
  }

  lemma {:induction false} HexReadsBack(n: nat)
    ensures Hex(n) != [] && Number(Hex(n)) == n
    ensures forall i :: 0 <= i < |Hex(n)| ==> DigitValue(Hex(n)[i]) >= 0
    ensures Hex(n)[0] == '0' <==> n == 0
    decreases n
  {
    hide DigitValue;
    DigitIs(n % 16);
    if n >= 16 {
      HexReadsBack(n / 16);
      var s := Hex(n / 16);
      assert (s + [DIGITS[n % 16]])[..|s|] == s;
    } else {
      assert [DIGITS[n]][..0] == "";
      assert Number("") == 0;
    }
  }

  /** A label is the prefix and then the address in lower-case hexadecimal, without leading zeros. */
  lemma {:induction false} LabelReadsBack(pc: Word)
    ensures
      var name := Label(pc);
      && |name| > 16 && name[..16] == "__riscy_block_0x" && Number(name[16..]) == pc
      && (forall i :: 16 <= i < |name| ==> DigitValue(name[i]) >= 0)
      && (name[16] == '0' ==> pc == 0 && |name| == 17)
  {
    hide Hex, DigitValue, DIGITS;
    HexReadsBack(pc);
    HexShape(pc);
    assert Label(pc)[16..] == Hex(pc);
    forall i | 16 <= i < |Label(pc)| ensures DigitValue(Label(pc)[i]) >= 0 {
      assert Label(pc)[i] == Hex(pc)[i - 16];
    }
  }
}
