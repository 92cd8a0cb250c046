/** ISO date text (core/src/domain/date.c): parse accepts "YYYY-MM-DD" with a day of
    at most 31 in any month; format prints the civil date of a day number. */
module DateText {
  import opened Wrappers
  import opened CivilDate
  import opened DecimalText

  datatype Result<T> = Ok(value: T) | InvalidArg

  /** Text that parsing accepts. The day is only checked against 31. */
  predicate Accepted(iso: string) {
    |iso| == 10 && iso[4] == '-' && iso[7] == '-' &&
    AllDigits(iso[..4]) && AllDigits(iso[5..7]) && AllDigits(iso[8..]) &&
    1 <= MonthField(iso) <= 12 && 1 <= DayField(iso) <= 31
  }

  function YearField(iso: string): int requires |iso| == 10 { Decimal(iso[..4]) }
  function MonthField(iso: string): int requires |iso| == 10 { Decimal(iso[5..7]) }
  function DayField(iso: string): int requires |iso| == 10 { Decimal(iso[8..]) }

  function DayOf(iso: string): (epochDay: int)
    requires Accepted(iso)
  {
    DaysFromCivil(YearField(iso), MonthField(iso), DayField(iso))
  }

  function Parsed(iso: string): Result<int> {
    if Accepted(iso) then Ok(DayOf(iso)) else InvalidArg
  }

  method ParseDigits(s: string) returns (r: Option<int>)
    ensures r == if AllDigits(s) then Some(Decimal(s)) else None
  {
    var value, i := 0, 0;
    while i < |s|
      invariant 0 <= i <= |s|
      invariant AllDigits(s[..i])
      invariant value == Decimal(s[..i])
    {
      if !IsDigit(s[i]) {
        return None;
      }
      assert s[..i + 1][..i] == s[..i];
      value := value * 10 + DigitValue(s[i]);
      i := i + 1;
    }
    assert s[..i] == s;
    return Some(value);
  }

  method DateParse(iso: string) returns (r: Result<int>)
    ensures r == Parsed(iso)
  {
    if |iso| != 10 || iso[4] != '-' || iso[7] != '-' {
      return InvalidArg;
    }
    var year := ParseDigits(iso[..4]);
    var month := ParseDigits(iso[5..7]);
    var day := ParseDigits(iso[8..]);
    if year.None? || month.None? || day.None? {
      return InvalidArg;
    }
    if month.value < 1 || month.value > 12 || day.value < 1 || day.value > 31 {
      return InvalidArg;
    }
    return Ok(DaysFromCivil(year.value, month.value, day.value));
  }

  function IsoText(c: Civil): (s: string)
    requires 1 <= c.month <= 12 && 1 <= c.day <= 31
  {
    PaddedSigned(c.year, 4) + "-" + Padded(c.month, 2) + "-" + Padded(c.day, 2)
  }

  /** `snprintf` into `n` bytes keeps at most n - 1 characters. */
  function Formatted(epochDay: int, n: nat): (r: Result<string>)
  {
    if n < 11 then InvalidArg
    else
      var text := (CivilFromDaysIsReal(epochDay); IsoText(CivilFromDays(epochDay)));
      Ok(if |text| < n then text else text[..n - 1])
  }

  // ----- text of a date with a four-digit year ----------------------------

  lemma IsoTextShape(c: Civil)
    requires 0 <= c.year <= 9999 && 1 <= c.month <= 12 && 1 <= c.day <= 31
    ensures var s := IsoText(c);
            |s| == 10 && Accepted(s) && YearField(s) == c.year && MonthField(s) == c.month && DayField(s) == c.day
  {
    assert Pow10(1) == 10 && Pow10(2) == 100 && Pow10(3) == 1000 && Pow10(4) == 10000;
    hide Digits, Decimal, ZeroFill;
    DigitCount(c.year, 4);
    DigitCount(c.month, 2);
    DigitCount(c.day, 2);
    PaddedRoundTrip(c.year, 4);
    PaddedRoundTrip(c.month, 2);
    PaddedRoundTrip(c.day, 2);
    IsoFields(Padded(c.year, 4), Padded(c.month, 2), Padded(c.day, 2));
  }

  lemma IsoFields(y: string, m: string, d: string)
    requires |y| == 4 && |m| == 2 && |d| == 2
    ensures var s := y + "-" + m + "-" + d;
            |s| == 10 && s[4] == '-' && s[7] == '-' && s[..4] == y && s[5..7] == m && s[8..] == d
  {
  }

  lemma IsoTextRestores(iso: string)
    requires Accepted(iso)
    ensures 0 <= YearField(iso) <= 9999
    ensures IsoText(Civil(YearField(iso), MonthField(iso), DayField(iso))) == iso
  {
    PaddedRestores(iso[..4]);
    PaddedRestores(iso[5..7]);
    PaddedRestores(iso[8..]);
    DecimalBound(iso[..4]);
    assert Pow10(1) == 10 && Pow10(2) == 100 && Pow10(3) == 1000 && Pow10(4) == 10000;
    assert iso == iso[..4] + "-" + iso[5..7] + "-" + iso[8..];
  }

  // ----- round trips ------------------------------------------------------

  /** Years 0000 to 9999 are the day numbers -719528 to 2932896. */
  lemma FourDigitYears(epochDay: int)
    ensures 0 <= CivilFromDays(epochDay).year <= 9999 <==> -719528 <= epochDay <= 2932896
  {
    hide CivilFromDays, DaysBeforeYear;
    YearOfDay(epochDay, 0);
    YearOfDay(epochDay, 10000);
    DaysBeforeYearClosed(0);
    DaysBeforeYearClosed(10000);
  }

  /** Parsing undoes formatting exactly for the days of years 0000 to 9999; outside
      them the printed text is rejected. */
  lemma ParseUndoesFormat(epochDay: int, n: nat)
    requires n >= 11
    ensures Parsed(Formatted(epochDay, n).value) ==
            if -719528 <= epochDay <= 2932896 then Ok(epochDay) else InvalidArg
  {
    hide CivilFromDays, DaysFromCivil;
    var c := CivilFromDays(epochDay);
    CivilFromDaysIsReal(epochDay);
    FourDigitYears(epochDay);
    var s := Formatted(epochDay, n).value;
    if 0 <= c.year <= 9999 {
      IsoTextShape(c);
    } else if c.year < 0 {
      assert s[..4][0] == '-';
    } else {
      assert Pow10(1) == 10 && Pow10(2) == 100 && Pow10(3) == 1000 && Pow10(4) == 10000;
      DigitCount(c.year, 4);
      assert s[4] == Padded(c.year, 4)[4];
      assert IsDigit(s[4]);
    }
  }

  /** Formatting undoes parsing exactly when the parsed text names a real date:
      "2024-02-31" is accepted and comes back as "2024-03-02". */
  lemma FormatUndoesParse(iso: string, n: nat)
    requires n >= 11 && Accepted(iso)
    ensures Formatted(DayOf(iso), n) == Ok(iso) <==>
            DayField(iso) <= DaysInMonth(YearField(iso), MonthField(iso))
  {
    hide CivilFromDays, DaysFromCivil;
    var c := Civil(YearField(iso), MonthField(iso), DayField(iso));
    var day := DayOf(iso);
    IsoTextRestores(iso);
    var back := CivilFromDays(day);
    CivilFromDaysIsReal(day);
    if IsRealDate(c) {
      CivilConversionsAreInverse(c);
    } else if Formatted(day, n) == Ok(iso) {
      ParseUndoesFormat(day, n);
      FourDigitYears(day);
      IsoTextShape(back);
      assert false;
    }
  }

  /** Formatting refuses exactly the buffers that cannot hold ten characters and a NUL. */
  lemma ShortBufferRefused(epochDay: int, n: nat)
    ensures Formatted(epochDay, n) == InvalidArg <==> n < 11
  {
    hide CivilFromDays;
  }

  /** What is written is the text of the date cut to one character less than the buffer. */
  lemma LongTextIsCut(epochDay: int, n: nat)
    requires n >= 11
    ensures IsRealDate(CivilFromDays(epochDay)) && Formatted(epochDay, n).Ok?
    ensures var text, written := IsoText(CivilFromDays(epochDay)), Formatted(epochDay, n).value;
            written <= text && |written| == if |text| >= n then n - 1 else |text|
  {
    CivilFromDaysIsReal(epochDay);
    hide CivilFromDays, IsoText;
  }

  /** Such a text: it parses as the day of 2 March. */
  lemma UnrealDateParses()
    ensures Parsed("2024-02-31") == Ok(19784) && Formatted(19784, 11) == Ok("2024-03-02")
  {
    hide Padded, CivilFromDays, Decimal;
    var named, meant := Civil(2024, 2, 31), Civil(2024, 3, 2);
    SpelledOut();
    assert IsoText(named) == "2024-02-31" && IsoText(meant) == "2024-03-02";
    IsoTextShape(named);
    assert DaysFromCivil(2024, 2, 31) == 19784 && DaysFromCivil(2024, 3, 2) == 19784;
    CivilConversionsAreInverse(meant);
  }

  lemma SpelledOut()
    ensures Padded(2024, 4) == "2024"
    ensures Padded(2, 2) == "02" && Padded(31, 2) == "31" && Padded(3, 2) == "03"
  {
    assert Digits(2024) == Digits(202) + "4" && Digits(202) == Digits(20) + "2" && Digits(20) == Digits(2) + "0";
    assert Digits(31) == Digits(3) + "1";
  }
}
