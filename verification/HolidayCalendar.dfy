/** The `krx:holidays:{year}` calendar text (core/platform/cache/redis_cache.c): a
    hand-written reader of a JSON array of ISO dates.

    `Calendar` is the reader on values; `ReadCalendar` is the cursor-and-buffer loop of
    the source. The independent description is a grammar: a `Document` is the list of
    quoted dates with the white space and commas around them. */
module HolidayCalendar {
  import opened Wrappers
  import opened CivilDate
  import opened DecimalText
  import opened DateText

  const MAX_HOLIDAYS: nat := 512

  /** C's isspace in the default locale. */
  predicate IsSpace(c: char): (space: bool)
    ensures space <==> c as int in {9, 10, 11, 12, 13, 32}
  {
    c == ' ' || '\t' <= c <= '\r'
  }

  predicate AllSpace(s: string) {
    forall i :: 0 <= i < |s| ==> IsSpace(s[i])
  }

  function SkipSpace(s: string): (t: string)
    ensures |t| <= |s|
  {
    if s != "" && IsSpace(s[0]) then SkipSpace(s[1..]) else s
  }

  lemma {:induction false} SkippedPrefix(s: string) returns (gap: string)
    ensures AllSpace(gap) && s == gap + SkipSpace(s)
    ensures SkipSpace(s) != "" ==> !IsSpace(SkipSpace(s)[0])
  {
    if s != "" && IsSpace(s[0]) {
      var g := SkippedPrefix(s[1..]);
      gap := [s[0]] + g;
      assert s == [s[0]] + s[1..];
    } else {
      gap := "";
      assert s == "" + s;
    }
  }

  predicate StartsWith(s: string, c: char) {
    s != "" && s[0] == c
  }

  /** A quoted date of the expected year, later than the one before it. */
  predicate EntryOk(s: string, year: int, prev: Option<int>) {
    |s| >= 12 && s[0] == '"' && s[11] == '"' && Accepted(s[1..11]) &&
    YearField(s[1..11]) == year && (prev.Some? ==> DayOf(s[1..11]) > prev.value)
  }

  /** The cursor after an entry and, if there is one, after the comma that follows it. */
  function AfterComma(rest: string): string {
    if StartsWith(rest, ',') then SkipSpace(rest[1..]) else rest
  }

  /** The entries from the cursor to the end of the text. */
  function Entries(s: string, year: int, prev: Option<int>): (r: Option<seq<int>>)
    decreases |s|
  {
    if StartsWith(s, ']') then (if SkipSpace(s[1..]) == "" then Some([]) else None)
    else if !EntryOk(s, year, prev) then None
    else
      var rest := SkipSpace(s[12..]);
      if StartsWith(rest, ',') || StartsWith(rest, ']') then
        Cons(DayOf(s[1..11]), Entries(AfterComma(rest), year, Some(DayOf(s[1..11]))))
      else None
  }

  function Cons(day: int, tail: Option<seq<int>>): Option<seq<int>> {
    if tail.Some? then Some([day] + tail.value) else None
  }

  function Calendar(json: string, year: int): (r: Option<seq<int>>) {
    var s := SkipSpace(json);
    if StartsWith(s, '[') then Entries(SkipSpace(s[1..]), year, None) else None
  }

  // ----- what an accepted calendar contains -------------------------------

  ghost predicate Ascending(days: seq<int>) {
    forall i, j :: 0 <= i < j < |days| ==> days[i] < days[j]
  }

  ghost predicate InYear(days: seq<int>, year: int) {
    forall i :: 0 <= i < |days| ==> DaysBeforeYear(year) <= days[i] < DaysBeforeYear(year + 1)
  }

  /** Every accepted entry lies in its year, also when its day is past the end of the
      month, so the source's check of the computed year never rejects. */
  lemma EntryStaysInYear(iso: string)
    requires Accepted(iso)
    ensures var day := DayOf(iso); var year := YearField(iso);
            DaysBeforeYear(year) <= day < DaysBeforeYear(year + 1) && CivilFromDays(day).year == year
  {
    hide DaysFromCivil, CivilFromDays, DaysBeforeYear, DaysBeforeMonth, Decimal;
    var year, month, day := YearField(iso), MonthField(iso), DayField(iso);
    DaysFromCivilIsPlainCount(year, month, day);
    DaysBeforeMonthClosed(year, month);
    YearStarts(year, year + 1);
    YearOfDay(DayOf(iso), year);
    YearOfDay(DayOf(iso), year + 1);
  }

  lemma ConsOrdered(day: int, tail: seq<int>, year: int)
    requires Ascending(tail) && InYear(tail, year) && (tail != [] ==> day < tail[0])
    requires DaysBeforeYear(year) <= day < DaysBeforeYear(year + 1)
    ensures Ascending([day] + tail) && InYear([day] + tail, year)
  {
    hide DaysBeforeYear;
    var days := [day] + tail;
    assert forall i :: 0 < i < |days| ==> days[i] == tail[i - 1];
    assert forall i :: 0 <= i < |tail| ==> tail[0] <= tail[i];
  }

  lemma {:induction false} EntriesAreOrdered(s: string, year: int, prev: Option<int>)
    requires Entries(s, year, prev).Some?
    ensures var days := Entries(s, year, prev).value;
            Ascending(days) && InYear(days, year) && (prev.Some? && days != [] ==> prev.value < days[0])
    decreases |s|
  {
    hide DayOf, DaysBeforeYear, Accepted, YearField, Ascending, InYear;
    if StartsWith(s, ']') {
      assert Ascending([]) && InYear([], year) by { NothingOrdered(year); }
    } else {
      var day := DayOf(s[1..11]);
      var rest := SkipSpace(s[12..]);
      var next := AfterComma(rest);
      EntryStaysInYear(s[1..11]);
      EntriesAreOrdered(next, year, Some(day));
      ConsOrdered(day, Entries(next, year, Some(day)).value, year);
    }
  }

  lemma NothingOrdered(year: int)
    ensures Ascending([]) && InYear([], year)
  {
  }

  lemma {:induction false} AscendingFits(days: seq<int>, lo: int, hi: int)
    requires Ascending(days) && forall i :: 0 <= i < |days| ==> lo <= days[i] < hi
    ensures days != [] ==> |days| <= hi - lo
  {
    if |days| > 0 {
      assert lo <= days[0] < hi;
      assert forall i :: 0 <= i < |days[1..]| ==> days[1..][i] == days[i + 1] > days[0];
      AscendingFits(days[1..], days[0] + 1, hi);
    }
  }

  /** A calendar that the reader accepts is strictly ascending, inside its year, and has
      at most one entry a day; so the 512-entry buffer is never full. */
  lemma AcceptedCalendar(json: string, year: int)
    requires Calendar(json, year).Some?
    ensures var days := Calendar(json, year).value;
            Ascending(days) && InYear(days, year) && |days| <= YearLength(year) < 512
  {
    hide DaysBeforeYear, Entries;
    var s := SkipSpace(json);
    EntriesAreOrdered(SkipSpace(s[1..]), year, None);
    YearLengthIs(year);
    AscendingFits(Calendar(json, year).value, DaysBeforeYear(year), DaysBeforeYear(year + 1));
  }

  lemma YearLengthIs(year: int)
    ensures DaysBeforeYear(year + 1) == DaysBeforeYear(year) + YearLength(year)
  {
    hide DaysBeforeYear;
    DaysBeforeYearClosed(year);
    DaysBeforeYearClosed(year + 1);
    LeapStep(year);
  }

  // ----- the accepted language --------------------------------------------

  /** One quoted date, the white space after it, and possibly a comma and more white space. */
  datatype Item = Item(date: string, gap: string, comma: bool, gapAfterComma: string)

  function ItemText(it: Item): string {
    "\"" + it.date + "\"" + it.gap + (if it.comma then "," + it.gapAfterComma else "")
  }

  function ItemsText(items: seq<Item>): string {
    if items == [] then "" else ItemText(items[0]) + ItemsText(items[1..])
  }

  /** Commas separate the items; one after the last item is allowed too. */
  ghost predicate WellShaped(items: seq<Item>) {
    (forall i :: 0 <= i < |items| ==>
       |items[i].date| == 10 && AllSpace(items[i].gap) && AllSpace(items[i].gapAfterComma)) &&
    (forall i :: 0 <= i < |items| - 1 ==> items[i].comma)
  }

  ghost predicate DatedIn(items: seq<Item>, year: int) {
    forall i :: 0 <= i < |items| ==> Accepted(items[i].date) && YearField(items[i].date) == year
  }

  function DaysOf(items: seq<Item>): (days: seq<int>)
    requires forall i :: 0 <= i < |items| ==> Accepted(items[i].date)
    ensures |days| == |items| && forall i :: 0 <= i < |items| ==> days[i] == DayOf(items[i].date)
  {
    if items == [] then [] else [DayOf(items[0].date)] + DaysOf(items[1..])
  }

  ghost predicate IsDocument(json: string, items: seq<Item>, before: string, inside: string, after: string) {
    AllSpace(before) && AllSpace(inside) && AllSpace(after) && WellShaped(items) &&
    json == before + "[" + inside + ItemsText(items) + "]" + after
  }

  lemma {:induction false} SkipSpaceExact(gap: string, t: string)
    requires AllSpace(gap) && (t != "" ==> !IsSpace(t[0]))
    ensures SkipSpace(gap + t) == t
  {
    if gap == "" {
      assert gap + t == t;
    } else {
      assert (gap + t)[1..] == gap[1..] + t;
      SkipSpaceExact(gap[1..], t);
    }
  }

  /** The cursor moves over exactly one item. */
  lemma ItemStep(it: Item, tail: string)
    requires |it.date| == 10 && AllSpace(it.gap) && AllSpace(it.gapAfterComma)
    requires tail != "" && !IsSpace(tail[0]) && tail[0] != ','
    ensures var s := ItemText(it) + tail;
            |s| >= 12 && s[0] == '"' && s[11] == '"' && s[1..11] == it.date &&
            AfterComma(SkipSpace(s[12..])) == tail &&
            (if it.comma then StartsWith(SkipSpace(s[12..]), ',') else SkipSpace(s[12..]) == tail)
  {
    hide SkipSpace, AllSpace;
    var s := ItemText(it) + tail;
    var rest := if it.comma then "," + (it.gapAfterComma + tail) else tail;
    ItemTextSplit(it, tail, rest);
    SkipSpaceExact(it.gap, rest);
    if it.comma {
      assert rest[1..] == it.gapAfterComma + tail;
      SkipSpaceExact(it.gapAfterComma, tail);
    }
  }

  lemma ItemTextSplit(it: Item, tail: string, rest: string)
    requires |it.date| == 10 && rest == if it.comma then "," + (it.gapAfterComma + tail) else tail
    ensures var s := ItemText(it) + tail;
            |s| >= 12 && s[0] == '"' && s[11] == '"' && s[1..11] == it.date && s[12..] == it.gap + rest
  {
    assert ItemText(it) + tail == "\"" + it.date + "\"" + (it.gap + rest);
  }

  lemma TailStarts(items: seq<Item>, after: string)
    ensures var s := ItemsText(items) + "]" + after;
            s != "" && s[0] == (if items == [] then ']' else '"')
  {
    if items != [] {
      assert ItemsText(items)[0] == ItemText(items[0])[0] == '"';
    }
  }

  /** Every well-shaped, ascending list of dates is read back. */
  lemma {:induction false} EntriesOfItems(items: seq<Item>, after: string, year: int, prev: Option<int>)
    requires WellShaped(items) && DatedIn(items, year) && AllSpace(after)
    requires Ascending(DaysOf(items)) && (prev.Some? && items != [] ==> prev.value < DaysOf(items)[0])
    ensures Entries(ItemsText(items) + "]" + after, year, prev) == Some(DaysOf(items))
  {
    hide DayOf, Accepted, YearField, SkipSpace, ItemText, AfterComma;
    var s := ItemsText(items) + "]" + after;
    TailStarts(items, after);
    if items == [] {
      assert s[1..] == after + "";
      SkipSpaceExact(after, "");
    } else {
      var it, more := items[0], items[1..];
      var tail := ItemsText(more) + "]" + after;
      assert s == ItemText(it) + tail;
      TailStarts(more, after);
      ItemStep(it, tail);
      assert DaysOf(items) == [DayOf(it.date)] + DaysOf(more);
      assert Ascending(DaysOf(more));
      EntriesOfItems(more, after, year, Some(DayOf(it.date)));
    }
  }

  /** The item that the cursor is on, recovered from the text. */
  lemma ItemAtCursor(s: string) returns (it: Item)
    requires |s| >= 12 && s[0] == '"' && s[11] == '"'
    requires StartsWith(SkipSpace(s[12..]), ',') || StartsWith(SkipSpace(s[12..]), ']')
    ensures it.date == s[1..11] && AllSpace(it.gap) && AllSpace(it.gapAfterComma)
    ensures it.comma == StartsWith(SkipSpace(s[12..]), ',')
    ensures s == ItemText(it) + AfterComma(SkipSpace(s[12..]))
  {
    hide SkipSpace, AllSpace;
    var rest := SkipSpace(s[12..]);
    var gap := SkippedPrefix(s[12..]);
    if StartsWith(rest, ',') {
      var gapAfterComma := SkippedPrefix(rest[1..]);
      it := Item(s[1..11], gap, true, gapAfterComma);
      assert rest == "," + (gapAfterComma + AfterComma(rest));
    } else {
      it := Item(s[1..11], gap, false, "");
      NoSpace();
    }
    ItemTextJoin(s, it, AfterComma(rest), rest);
  }

  lemma NoSpace()
    ensures AllSpace("")
  {
  }

  lemma ItemTextJoin(s: string, it: Item, tail: string, rest: string)
    requires |s| >= 12 && s[0] == '"' && s[11] == '"' && it.date == s[1..11] && s[12..] == it.gap + rest
    requires rest == if it.comma then "," + (it.gapAfterComma + tail) else tail
    ensures s == ItemText(it) + tail
  {
    assert s == "\"" + it.date + "\"" + (it.gap + rest);
  }

  /** Whatever is read is such a list. */
  lemma {:induction false} ItemsOfEntries(s: string, year: int, prev: Option<int>)
      returns (items: seq<Item>, after: string)
    requires Entries(s, year, prev).Some?
    ensures WellShaped(items) && DatedIn(items, year) && AllSpace(after)
    ensures s == ItemsText(items) + "]" + after && DaysOf(items) == Entries(s, year, prev).value
    decreases |s|
  {
    hide DayOf, Accepted, YearField, SkipSpace, ItemText, WellShaped, DatedIn, AllSpace;
    if StartsWith(s, ']') {
      items, after := [], s[1..];
      NoItems(year);
      var gap := SkippedPrefix(after);
      assert after == gap + "" == gap;
      assert s == "" + "]" + after;
    } else {
      var it := ItemAtCursor(s);
      var more;
      more, after := ItemsOfEntries(AfterComma(SkipSpace(s[12..])), year, Some(DayOf(s[1..11])));
      items := [it] + more;
      assert items[1..] == more;
      TailStarts(more, after);
      OneMoreItem(it, more, year);
      assert s == ItemText(it) + (ItemsText(more) + "]" + after);
    }
  }

  lemma NoItems(year: int)
    ensures WellShaped([]) && DatedIn([], year)
  {
  }

  lemma OneMoreItem(it: Item, more: seq<Item>, year: int)
    requires |it.date| == 10 && AllSpace(it.gap) && AllSpace(it.gapAfterComma) && (it.comma || more == [])
    requires Accepted(it.date) && YearField(it.date) == year
    requires WellShaped(more) && DatedIn(more, year)
    ensures WellShaped([it] + more) && DatedIn([it] + more, year)
  {
    hide Accepted, YearField, AllSpace;
    var items := [it] + more;
    assert forall i :: 0 < i < |items| ==> items[i] == more[i - 1];
  }

  /** `json` spells the dates with day numbers `days`. */
  ghost predicate Spells(json: string, year: int, days: seq<int>,
                         items: seq<Item>, before: string, inside: string, after: string) {
    IsDocument(json, items, before, inside, after) && DatedIn(items, year) && DaysOf(items) == days && Ascending(days)
  }

  /** The reader accepts exactly the documents of this grammar whose dates are of the
      expected year and strictly ascending, and returns their day numbers. */
  lemma AcceptedLanguage(json: string, year: int, days: seq<int>)
    ensures Calendar(json, year) == Some(days) <==>
            exists items, before, inside, after :: Spells(json, year, days, items, before, inside, after)
  {
    if Calendar(json, year) == Some(days) {
      var items, before, inside, after := LanguageSound(json, year);
      assert Spells(json, year, days, items, before, inside, after);
    }
    forall items, before, inside, after | Spells(json, year, days, items, before, inside, after)
      ensures Calendar(json, year) == Some(days)
    {
      LanguageComplete(json, year, items, before, inside, after);
    }
  }

  lemma LanguageComplete(json: string, year: int, items: seq<Item>, before: string, inside: string, after: string)
    requires IsDocument(json, items, before, inside, after)
    requires DatedIn(items, year) && Ascending(DaysOf(items))
    ensures Calendar(json, year) == Some(DaysOf(items))
  {
    hide Accepted, DayOf, YearField, Entries, Ascending, ItemsText;
    var body := ItemsText(items) + "]" + after;
    TailStarts(items, after);
    EntriesOfItems(items, after, year, None);
    var s := "[" + inside + body;
    assert json == before + s;
    SkipSpaceExact(before, s);
    assert s[1..] == inside + body;
    SkipSpaceExact(inside, body);
  }

  lemma LanguageSound(json: string, year: int)
      returns (items: seq<Item>, before: string, inside: string, after: string)
    requires Calendar(json, year).Some?
    ensures Spells(json, year, Calendar(json, year).value, items, before, inside, after)
  {
    AcceptedCalendar(json, year);
    hide Accepted, DayOf, YearField, Entries, Ascending, ItemsText, SkipSpace, IsSpace, AllSpace, WellShaped, DatedIn,
         InYear;
    var s := SkipSpace(json);
    var body := SkipSpace(s[1..]);
    before := SkippedPrefix(json);
    inside := SkippedPrefix(s[1..]);
    items, after := ItemsOfEntries(body, year, None);
    Bracketed(json, before, s, inside, body);
    Joined(before + "[" + inside, ItemsText(items), "]", after, body);
  }

  lemma Joined(front: string, a: string, b: string, c: string, body: string)
    requires body == a + b + c || body == a + (b + c)
    ensures front + body == front + a + b + c
  {
  }

  lemma Bracketed(json: string, before: string, s: string, inside: string, body: string)
    requires json == before + s && s != "" && s[0] == '[' && s[1..] == inside + body
    ensures json == before + "[" + inside + body
  {
    assert s == "[" + (inside + body);
  }

  /** Every list of real, ascending dates of the year is accepted in its plain spelling. */
  lemma PlainCalendarAccepted(dates: seq<Civil>, year: int)
    requires 0 <= year <= 9999
    requires forall i :: 0 <= i < |dates| ==> IsRealDate(dates[i]) && dates[i].year == year
    requires forall i, j :: 0 <= i < j < |dates| ==> Earlier(dates[i], dates[j])
    ensures Calendar("[" + ItemsText(PlainItems(dates)) + "]", year) ==
            Some(seq(|dates|, i requires 0 <= i < |dates| => DaysFromCivil(year, dates[i].month, dates[i].day)))
  {
    hide DaysFromCivil, Earlier, IsoText, Accepted, ItemsText, Calendar, YearField, MonthField, DayField;
    var items := PlainItems(dates);
    var days := seq(|dates|, i requires 0 <= i < |dates| => DaysFromCivil(year, dates[i].month, dates[i].day));
    forall i | 0 <= i < |items|
      ensures |items[i].date| == 10 && Accepted(items[i].date) && YearField(items[i].date) == year
      ensures DayOf(items[i].date) == days[i]
    {
      IsoTextShape(dates[i]);
    }
    assert DaysOf(items) == days;
    forall i, j | 0 <= i < j < |days| ensures days[i] < days[j] {
      DayNumberIsMonotone(dates[i], dates[j]);
    }
    var json := "[" + ItemsText(items) + "]";
    assert json == "" + "[" + "" + ItemsText(items) + "]" + "";
    LanguageComplete(json, year, items, "", "", "");
  }

  function PlainItems(dates: seq<Civil>): (items: seq<Item>)
    requires forall i :: 0 <= i < |dates| ==> IsRealDate(dates[i])
  {
    seq(|dates|, i requires 0 <= i < |dates| && IsRealDate(dates[i]) =>
                   Item(IsoText(dates[i]), "", i + 1 < |dates|, ""))
  }

  function DatesOf(days: seq<int>): (dates: seq<Civil>)
    ensures |dates| == |days|
    ensures forall i :: 0 <= i < |days| ==> dates[i] == CivilFromDays(days[i]) && IsRealDate(dates[i])
  {
    if days == [] then []
    else
      var last := days[|days| - 1];
      DatesOf(days[..|days| - 1]) + (CivilFromDaysIsReal(last); [CivilFromDays(last)])
  }

  /** The plain spelling of a list of days. */
  function CalendarText(days: seq<int>): string {
    "[" + ItemsText(PlainItems(DatesOf(days))) + "]"
  }

  /** Every ascending list of days of a year has a spelling that is read back, so the
      calendars that can be read are exactly these lists. */
  lemma EveryCalendarReadable(days: seq<int>, year: int)
    requires 0 <= year <= 9999 && Ascending(days) && InYear(days, year)
    ensures Calendar(CalendarText(days), year) == Some(days)
  {
    hide CivilFromDays, DaysFromCivil, Calendar, ItemsText, PlainItems, DatesOf, DaysBeforeYear;
    var dates := DatesOf(days);
    forall i | 0 <= i < |days|
      ensures dates[i].year == year && DaysFromCivil(year, dates[i].month, dates[i].day) == days[i]
    {
      CivilFromDaysIsReal(days[i]);
      YearOfDay(days[i], year);
      YearOfDay(days[i], year + 1);
    }
    forall i, j | 0 <= i < j < |days|
      ensures Earlier(dates[i], dates[j])
    {
      if Earlier(dates[j], dates[i]) { DayNumberIsMonotone(dates[j], dates[i]); }
    }
    PlainCalendarAccepted(dates, year);
    assert seq(|dates|, i requires 0 <= i < |dates| => DaysFromCivil(year, dates[i].month, dates[i].day)) == days;
  }

  /** The reader is laxer than JSON and than the calendar: a comma after the last date
      and a day past the end of the month are accepted. */
  lemma LaxCalendarAccepted(c: Civil)
    requires 0 <= c.year <= 9999 && 1 <= c.month <= 12 && 1 <= c.day <= 31
    ensures Calendar("[\"" + IsoText(c) + "\",]", c.year) == Some([DaysFromCivil(c.year, c.month, c.day)])
  {
    hide DaysFromCivil, Calendar, Accepted, YearField, Decimal, IsoText;
    IsoTextShape(c);
    var it := Item(IsoText(c), "", true, "");
    var json := "[\"" + IsoText(c) + "\",]";
    assert ItemsText([it]) == ItemText(it) + ItemsText([]);
    assert json == "" + "[" + "" + ItemsText([it]) + "]" + "";
    assert DaysOf([it]) == [DayOf(it.date)];
    LanguageComplete(json, c.year, [it], "", "", "");
  }

  // ----- the loop of the source -------------------------------------------

  method SkipSpaceFrom(json: string, from: nat) returns (to: nat)
    requires from <= |json|
    ensures from <= to <= |json| && json[to..] == SkipSpace(json[from..])
  {
    to := from;
    while to < |json| && IsSpace(json[to])
      invariant from <= to <= |json|
      invariant SkipSpace(json[to..]) == SkipSpace(json[from..])
    {
      assert json[to..][1..] == json[to + 1..];
      to := to + 1;
    }
  }

  function Prefixed(days: seq<int>, rest: Option<seq<int>>): Option<seq<int>> {
    if rest.Some? then Some(days + rest.value) else None
  }

  /** `used` entries are in the buffer and the cursor stands before the others. */
  ghost predicate ReadSoFar(json: string, year: int, days: seq<int>, cursor: nat)
    requires cursor <= |json|
  {
    Ascending(days) && InYear(days, year) &&
    Calendar(json, year) == Prefixed(days, Entries(json[cursor..], year, Last(days)))
  }

  function Last(days: seq<int>): Option<int> {
    if days == [] then None else Some(days[|days| - 1])
  }

  /** One entry at the cursor, read with the digit loops of the source. */
  method ReadEntry(json: string, cursor: nat, year: int, prev: Option<int>) returns (day: Option<int>)
    requires cursor <= |json|
    ensures day.Some? <==> EntryOk(json[cursor..], year, prev)
    ensures day.Some? ==> day.value == DayOf(json[cursor..][1..11])
  {
    hide DaysFromCivil, CivilFromDays, DaysBeforeYear, Decimal;
    if |json| - cursor < 12 || json[cursor] != '"' || json[cursor + 5] != '-' || json[cursor + 8] != '-' ||
       json[cursor + 11] != '"' {
      return None;
    }
    var iso := json[cursor + 1..cursor + 11];
    assert iso == json[cursor..][1..11];
    var y := ParseDigits(iso[..4]);
    var m := ParseDigits(iso[5..7]);
    var d := ParseDigits(iso[8..]);
    if y.None? || m.None? || d.None? || y.value != year || m.value < 1 || m.value > 12 || d.value < 1 || d.value > 31 {
      return None;
    }
    var epochDay := DaysFromCivil(y.value, m.value, d.value);
    assert Accepted(iso) && epochDay == DayOf(iso);
    EntryStaysInYear(iso);
    if CivilFromDays(epochDay).year != y.value || (prev.Some? && epochDay <= prev.value) {
      return None;
    }
    return Some(epochDay);
  }

  method ReadCalendar(json: string, expectedYear: int, days: array<int>) returns (ok: bool, count: nat)
    requires days.Length == MAX_HOLIDAYS
    modifies days
    ensures ok <==> Calendar(json, expectedYear).Some?
    ensures ok ==> count <= MAX_HOLIDAYS && days[..count] == Calendar(json, expectedYear).value
  {
    hide Entries, ReadSoFar, EntryOk, DayOf, SkipSpace;
    var cursor := SkipSpaceFrom(json, 0);
    assert json[0..] == json;
    count := 0;
    if cursor == |json| || json[cursor] != '[' {
      return false, 0;
    }
    assert json[cursor..][1..] == json[cursor + 1..];
    cursor := SkipSpaceFrom(json, cursor + 1);
    StartOfRead(json, expectedYear, cursor);
    while cursor == |json| || json[cursor] != ']'
      invariant cursor <= |json| && count <= MAX_HOLIDAYS
      invariant ReadSoFar(json, expectedYear, days[..count], cursor)
      decreases |json| - cursor
    {
      BufferNotFull(json, expectedYear, days[..count], cursor);
      var day := ReadEntry(json, cursor, expectedYear, Last(days[..count]));
      if count == MAX_HOLIDAYS || day.None? {
        NoEntry(json, expectedYear, days[..count], cursor);
        return false, 0;
      }
      ghost var before := days[..count];
      days[count] := day.value;
      assert days[..count + 1] == before + [day.value];
      count := count + 1;
      var start := cursor;
      EntryLength(json[start..], expectedYear, Last(before));
      cursor := SkipSpaceFrom(json, cursor + 12);
      assert json[start..][12..] == json[start + 12..];
      ghost var rest := json[cursor..];
      if cursor < |json| && json[cursor] == ',' {
        assert json[cursor..][1..] == json[cursor + 1..];
        cursor := SkipSpaceFrom(json, cursor + 1);
      } else if cursor == |json| || json[cursor] != ']' {
        NoSeparator(json, expectedYear, before, start);
        return false, 0;
      }
      EntryRead(json, expectedYear, before, start, rest, cursor);
    }
    EndOfRead(json, expectedYear, days[..count], cursor);
    cursor := SkipSpaceFrom(json, cursor + 1);
    ok := cursor == |json|;
  }

  lemma StartOfRead(json: string, year: int, cursor: nat)
    requires cursor <= |json| && StartsWith(SkipSpace(json), '[') && json[cursor..] == SkipSpace(SkipSpace(json)[1..])
    ensures ReadSoFar(json, year, [], cursor)
  {
    hide Entries, DaysBeforeYear, SkipSpace;
    var rest := Entries(json[cursor..], year, None);
    assert rest.Some? ==> [] + rest.value == rest.value;
  }

  lemma BufferNotFull(json: string, year: int, days: seq<int>, cursor: nat)
    requires cursor <= |json| && ReadSoFar(json, year, days, cursor)
    ensures |days| < MAX_HOLIDAYS
  {
    hide DaysBeforeYear, Calendar, Entries;
    YearLengthIs(year);
    AscendingFits(days, DaysBeforeYear(year), DaysBeforeYear(year + 1));
  }

  lemma EntryLength(s: string, year: int, prev: Option<int>)
    requires EntryOk(s, year, prev)
    ensures |s| >= 12
  {
  }

  lemma NoEntry(json: string, year: int, days: seq<int>, cursor: nat)
    requires cursor <= |json| && !StartsWith(json[cursor..], ']') && !EntryOk(json[cursor..], year, Last(days))
    requires ReadSoFar(json, year, days, cursor)
    ensures Calendar(json, year).None?
  {
    hide Calendar, EntryOk, SkipSpace;
  }

  lemma NoSeparator(json: string, year: int, days: seq<int>, start: nat)
    requires start <= |json| && !StartsWith(json[start..], ']') && EntryOk(json[start..], year, Last(days))
    requires var rest := SkipSpace(json[start..][12..]); !StartsWith(rest, ',') && !StartsWith(rest, ']')
    requires ReadSoFar(json, year, days, start)
    ensures Calendar(json, year).None?
  {
    hide Calendar, DayOf, Accepted, SkipSpace;
  }

  lemma EndOfRead(json: string, year: int, days: seq<int>, cursor: nat)
    requires cursor < |json| && json[cursor] == ']' && ReadSoFar(json, year, days, cursor)
    ensures Calendar(json, year) == if SkipSpace(json[cursor + 1..]) == "" then Some(days) else None
  {
    hide Calendar, SkipSpace;
    assert json[cursor..][1..] == json[cursor + 1..];
    assert days + [] == days;
  }

  /** Moving the cursor over an entry and the comma after it keeps the reading. */
  lemma EntryRead(json: string, year: int, days: seq<int>, start: nat, rest: string, cursor: nat)
    requires start <= cursor <= |json| && ReadSoFar(json, year, days, start)
    requires !StartsWith(json[start..], ']') && EntryOk(json[start..], year, Last(days))
    requires rest == SkipSpace(json[start..][12..])
    requires (StartsWith(rest, ',') || StartsWith(rest, ']')) && json[cursor..] == AfterComma(rest)
    ensures ReadSoFar(json, year, days + [DayOf(json[start..][1..11])], cursor)
  {
    hide DaysBeforeYear, DayOf, Accepted, YearField, SkipSpace, Calendar, Entries, InYear, Ascending, AfterComma;
    var day := DayOf(json[start..][1..11]);
    EntryStaysInYear(json[start..][1..11]);
    SnocOrdered(days, day, year);
    var tail := Entries(json[cursor..], year, Some(day));
    EntriesStep(json[start..], year, Last(days));
    if tail.Some? {
      assert days + ([day] + tail.value) == (days + [day]) + tail.value;
    }
  }

  lemma EntriesStep(s: string, year: int, prev: Option<int>)
    requires !StartsWith(s, ']') && EntryOk(s, year, prev)
    requires var rest := SkipSpace(s[12..]); StartsWith(rest, ',') || StartsWith(rest, ']')
    ensures Entries(s, year, prev) ==
            Cons(DayOf(s[1..11]), Entries(AfterComma(SkipSpace(s[12..])), year, Some(DayOf(s[1..11]))))
  {
  }

  lemma SnocOrdered(days: seq<int>, day: int, year: int)
    requires Ascending(days) && InYear(days, year) && (days != [] ==> days[|days| - 1] < day)
    requires DaysBeforeYear(year) <= day < DaysBeforeYear(year + 1)
    ensures Ascending(days + [day]) && InYear(days + [day], year)
  {
    hide DaysBeforeYear;
  }
}
