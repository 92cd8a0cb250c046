/** The functions on words are those on bits, and byte and digit order agree with readers that
    take the most significant first. */
module Sha256Bits {
  import opened Quotients
  import opened Sha256Words
  import opened Sha256

  // ----- bits -------------------------------------------------------------

  lemma BitsBack(b: bv32)
    ensures Bits(FromBits(b)) == b
  {
  }

  /** The functions on words are those on the bits of the words. */
  lemma WordFunctions(x: word, y: word, z: word)
    ensures Bits(Ch(x, y, z)) == Choose(Bits(x), Bits(y), Bits(z))
    ensures Bits(Maj(x, y, z)) == Majority(Bits(x), Bits(y), Bits(z))
    ensures Bits(BigSigma0(x)) == Sum0(Bits(x)) && Bits(BigSigma1(x)) == Sum1(Bits(x))
    ensures Bits(SmallSigma0(x)) == Mix0(Bits(x)) && Bits(SmallSigma1(x)) == Mix1(Bits(x))
  {
    hide Bits, FromBits, Choose, Majority, Sum0, Sum1, Mix0, Mix1;
    BitsBack(Choose(Bits(x), Bits(y), Bits(z)));
    BitsBack(Majority(Bits(x), Bits(y), Bits(z)));
    BitsBack(Sum0(Bits(x)));
    BitsBack(Sum1(Bits(x)));
    BitsBack(Mix0(Bits(x)));
    BitsBack(Mix1(Bits(x)));
  }

  // ----- byte order -------------------------------------------------------

  /** The number that bytes denote, most significant first. */
  function Number(bytes: seq<byte>): nat {
    if bytes == [] then 0 else Number(bytes[..|bytes| - 1]) * 256 + bytes[|bytes| - 1] as int
  }

  /** A schedule word is the number of its four bytes. */
  lemma WordIsNumber(b0: byte, b1: byte, b2: byte, b3: byte)
    ensures Word(b0, b1, b2, b3) as int == Number([b0, b1, b2, b3])
  {
    assert [b0, b1, b2, b3][..3] == [b0, b1, b2] && [b0, b1, b2][..2] == [b0, b1];
    assert [b0, b1][..1] == [b0] && [b0][..0] == [];
    assert Number([b0]) == b0 as int;
    assert Number([b0, b1]) == Number([b0]) * 256 + b1 as int;
    assert Number([b0, b1, b2]) == Number([b0, b1]) * 256 + b2 as int;
  }

  lemma {:induction false} BigEndianReads(n: nat, k: nat)
    ensures Number(BigEndian(n, k)) == n % Pow256(k)
  {
    if k > 0 {
      BigEndianReads(n / 256, k - 1);
      var b := BigEndian(n, k);
      assert b[..k - 1] == BigEndian(n / 256, k - 1);
      SplitPower(n, 256, Pow256(k - 1));
    } else {
      assert BigEndian(n, 0) == [];
    }
  }

  /** Dropping the last digit and the high ones in either order. */
  lemma SplitPower(n: nat, base: int, power: int)
    requires base > 0 && power > 0
    ensures n % (base * power) == (n / base) % power * base + n % base
  {
    var q, r := n / base, n % base;
    var u, v := q / power, q % power;
    assert n == base * q + r && q == power * u + v;
    assert n == base * power * u + (v * base + r);
    assert v * base + r < base * power by { Below(v, power, base, r); }
    assert v * base >= 0;
    assert base * power > 0;
    QuotientUnique(n, base * power, u, v * base + r);
  }

  lemma Below(v: int, power: int, base: int, r: int)
    requires 0 <= v < power && 0 <= r < base
    ensures v * base + r < base * power
  {
    var d := power - 1 - v;
    assert d * base >= 0;
    assert d * base == base * power - base - v * base;
  }

  /** Section 5.1.1: after the message come the byte 0x80, zeros, and the length in bits as a
      64-bit number, most significant byte first. */
  lemma PaddingReads(m: seq<byte>)
    ensures var p := Padded(m);
            && |p| >= |m| + 9 && p[..|m|] == m && p[|m|] == 0x80
            && (forall i :: |m| < i < |p| - 8 ==> p[i] == 0)
            && Number(p[|p| - 8..]) == 8 * |m| % TWO64
  {
    hide BigEndian;
    PaddedLength(m);
    LengthField(m);
    BigEndianReads(8 * |m| % TWO64, 8);
    PowerOf256();
  }

  // ----- digit order ------------------------------------------------------

  predicate IsHexDigit(c: char) {
    '0' <= c <= '9' || 'a' <= c <= 'f'
  }

  /** The number that hexadecimal digits denote. */
  function HexNumber(s: string): int {
    if s == "" then 0 else HexNumber(s[..|s| - 1]) * 16 + HexValue(s[|s| - 1])
  }

  lemma {:induction false} HexReads(n: nat, k: nat)
    ensures HexNumber(Hex(n, k)) == n % Pow16(k) && forall i :: 0 <= i < k ==> IsHexDigit(Hex(n, k)[i])
  {
    if k > 0 {
      hide HexNumber;
      HexReads(n / 16, k - 1);
      var s, before := Hex(n, k), Hex(n / 16, k - 1);
      assert s[..k - 1] == before && s[k - 1] == HexChar(n % 16);
      hide Hex;
      assert forall i :: 0 <= i < k - 1 ==> s[i] == before[i];
      HexNumberNext(s);
      SplitPower(n, 16, Pow16(k - 1));
    } else {
      assert Hex(n, 0) == "";
    }
  }

  lemma HexNumberNext(s: string)
    requires s != ""
    ensures HexNumber(s) == HexNumber(s[..|s| - 1]) * 16 + HexValue(s[|s| - 1])
  {
  }

  /** Digits 8i to 8i + 7 of the text are word i of the digest. */
  lemma {:induction false} HexTextReads(h: seq<word>, i: nat)
    requires i < |h|
    ensures HexNumber(HexText(h)[8 * i..8 * (i + 1)]) == h[i] as int
  {
    hide Hex, HexNumber;
    var n := |h| - 1;
    var text, before := HexText(h), HexText(h[..n]);
    assert text[..8 * n] == before;
    if i < n {
      HexTextReads(h[..n], i);
      assert text[8 * i..8 * (i + 1)] == before[8 * i..8 * (i + 1)];
    } else {
      assert text[8 * i..8 * (i + 1)] == Hex(h[n] as int, 8);
      HexReads(h[n] as int, 8);
      assert Pow16(8) == 0x1_0000_0000 by { assert Pow16(4) == 0x1_0000; }
    }
  }
}
