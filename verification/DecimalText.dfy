/** Decimal text as C's printf family, Rust's `{:06}` and Python's `06d` write it,
    and as the hand-written digit loops read it back. */
module DecimalText {

  predicate IsDigit(c: char) {
    '0' <= c <= '9'
  }

  predicate AllDigits(s: string) {
    forall i :: 0 <= i < |s| ==> IsDigit(s[i])
  }

  function DigitValue(c: char): int {
    c as int - '0' as int
  }

  function DigitChar(d: int): (c: char)
    requires 0 <= d < 10
    ensures IsDigit(c) && DigitValue(c) == d
  {
    (d + '0' as int) as char
  }

  /** The number a digit string denotes. */
  function Decimal(s: string): int {
    if s == "" then 0 else Decimal(s[..|s| - 1]) * 10 + DigitValue(s[|s| - 1])
  }

  /** The shortest digits of `v`, as `%d` and `%u` print a non-negative value. */
  function Digits(v: nat): (s: string)
    ensures s != "" && AllDigits(s)
  {
    if v < 10 then [DigitChar(v)] else Digits(v / 10) + [DigitChar(v % 10)]
  }

  function ZeroFill(s: string, width: nat): (t: string)
    ensures |t| == if |s| < width then width else |s|
    decreases width
  {
    if |s| < width then ['0'] + ZeroFill(s, width - 1) else s
  }

  /** `%0<width>u`: at least `width` digits. */
  function Padded(v: nat, width: nat): (s: string) {
    ZeroFill(Digits(v), width)
  }

  /** `%0<width>lld`: the sign counts toward the width. */
  function PaddedSigned(v: int, width: nat): (s: string)
    requires width > 0
  {
    if v < 0 then "-" + Padded(-v, width - 1) else Padded(v, width)
  }

  function Pow10(w: nat): (p: nat)
    ensures p > 0
  {
    if w == 0 then 1 else 10 * Pow10(w - 1)
  }

  // ----- reading back what was written ------------------------------------

  lemma {:induction false} DigitsDecimal(v: nat)
    ensures Decimal(Digits(v)) == v
  {
    if v >= 10 {
      DigitsDecimal(v / 10);
      assert Digits(v)[..|Digits(v)| - 1] == Digits(v / 10);
    } else {
      assert Decimal("") == 0;
      assert Digits(v)[..0] == "";
    }
  }

  lemma {:induction false} LeadingZero(s: string)
    ensures Decimal(['0'] + s) == Decimal(s)
  {
    var t := ['0'] + s;
    if s == "" {
      assert t[..0] == "";
    } else {
      assert t[..|t| - 1] == ['0'] + s[..|s| - 1];
      LeadingZero(s[..|s| - 1]);
    }
  }

  lemma {:induction false} ZeroFillKeeps(s: string, width: nat)
    requires AllDigits(s)
    ensures AllDigits(ZeroFill(s, width)) && Decimal(ZeroFill(s, width)) == Decimal(s)
    decreases width
  {
    if |s| < width {
      ZeroFillKeeps(s, width - 1);
      LeadingZero(ZeroFill(s, width - 1));
    }
  }

  /** Reading back a padded number gives the number. */
  lemma PaddedRoundTrip(v: nat, width: nat)
    ensures AllDigits(Padded(v, width)) && Decimal(Padded(v, width)) == v
  {
    DigitsDecimal(v);
    ZeroFillKeeps(Digits(v), width);
  }

  /** `v` has at most `w` digits exactly when it is below 10^w. */
  lemma {:induction false} DigitCount(v: nat, w: nat)
    requires w > 0
    ensures |Digits(v)| <= w <==> v < Pow10(w)
  {
    if w == 1 {
      assert Pow10(1) == 10 * Pow10(0) == 10;
    } else if v >= 10 {
      DigitCount(v / 10, w - 1);
    } else {
      assert Pow10(w) == 10 * Pow10(w - 1);
    }
  }

  /** Digit strings of one length are ordered as their numbers: equal numbers, equal text. */
  lemma {:induction false} DecimalInjective(s: string, t: string)
    requires AllDigits(s) && AllDigits(t) && |s| == |t| && Decimal(s) == Decimal(t)
    ensures s == t
  {
    if s != "" {
      var k := |s| - 1;
      assert DigitValue(s[k]) == Decimal(s) % 10 == DigitValue(t[k]);
      DecimalInjective(s[..k], t[..k]);
      assert s == s[..k] + [s[k]] && t == t[..k] + [t[k]];
    }
  }

  lemma {:induction false} DecimalBound(s: string)
    requires AllDigits(s)
    ensures 0 <= Decimal(s) < Pow10(|s|)
  {
    if s != "" {
      DecimalBound(s[..|s| - 1]);
    }
  }

  /** Writing back a digit string at its own width restores it, leading zeros included. */
  lemma PaddedRestores(s: string)
    requires AllDigits(s) && s != ""
    ensures Decimal(s) >= 0 && Padded(Decimal(s), |s|) == s
  {
    DecimalBound(s);
    DigitCount(Decimal(s), |s|);
    PaddedRoundTrip(Decimal(s), |s|);
    DecimalInjective(Padded(Decimal(s), |s|), s);
  }

  /** A signed number is read back behind its sign, which counts toward the width. */
  lemma PaddedSignedRoundTrip(v: int, width: nat)
    requires width > 1
    ensures var s := PaddedSigned(v, width);
            && |s| >= width
            && (v < Pow10(width) && -v < Pow10(width - 1) ==> |s| == width)
            && (if v < 0 then s[0] == '-' && AllDigits(s[1..]) && Decimal(s[1..]) == -v
                else AllDigits(s) && Decimal(s) == v)
  {
    hide Decimal, Digits, AllDigits, Pow10, ZeroFill;
    if v < 0 {
      PaddedRoundTrip(-v, width - 1);
      DigitCount(-v, width - 1);
      assert PaddedSigned(v, width)[1..] == Padded(-v, width - 1);
    } else {
      PaddedRoundTrip(v, width);
      DigitCount(v, width);
    }
  }
}
