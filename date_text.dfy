/**
 * The bot's date spellings: `strftime("%d-%m-%Y")` and `strftime("%Y-%m")`
 * on the way out, `strptime(s, "%d-%m-%Y")` and `strptime(s, "%Y-%m-%d")` on
 * the way in. The parsers follow the field patterns of CPython's `_strptime`:
 * `%d` is `3[01]|[12]\d|0[1-9]|[1-9]| [1-9]`, `%m` is `1[0-2]|0[1-9]|[1-9]`,
 * `%Y` is four digits; the whole string must be consumed and the resulting
 * (year, month, day) must be a calendar date.
 */
module DateText {
  import opened Wrappers
  import opened Calendar
  import opened Text

  /** `date.strftime("%d-%m-%Y")`. */
  function FormatDMY(d: Day): (s: string)
    ensures DatePattern(s)
  {
    var c := FromOrdinal(d);
    Pad2(c.day) + "-" + Pad2(c.month) + "-" + Pad4(c.year)
  }

  /** `date.strftime("%Y-%m")`, the month part of a warning key. */
  function FormatYM(d: Day): (s: string)
    ensures |s| == 7 && s[4] == '-'
  {
    var c := FromOrdinal(d);
    Pad4(c.year) + "-" + Pad2(c.month)
  }

  /** `date.strftime("%A")`. */
  function DayName(d: Day): string {
    var w := Weekday(d);
    if w == 0 then "Monday" else if w == 1 then "Tuesday" else if w == 2 then "Wednesday"
    else if w == 3 then "Thursday" else if w == 4 then "Friday" else if w == 5 then "Saturday"
    else "Sunday"
  }

  /** The regular expression `^\d{2}-\d{2}-\d{4}$`. */
  predicate DatePattern(s: string) {
    |s| == 10 && IsDigit(s[0]) && IsDigit(s[1]) && s[2] == '-' && IsDigit(s[3]) && IsDigit(s[4])
    && s[5] == '-' && IsDigit(s[6]) && IsDigit(s[7]) && IsDigit(s[8]) && IsDigit(s[9])
  }

  predicate IsNonZeroDigit(c: char) {
    '1' <= c <= '9'
  }

  /** The `%d` field: `3[01]|[12]\d|0[1-9]|[1-9]| [1-9]`. */
  predicate DayField(t: string) {
    (|t| == 1 && IsNonZeroDigit(t[0]))
    || (|t| == 2 && ((t[0] == '3' && (t[1] == '0' || t[1] == '1'))
                     || ((t[0] == '1' || t[0] == '2') && IsDigit(t[1]))
                     || (t[0] == '0' && IsNonZeroDigit(t[1]))
                     || (t[0] == ' ' && IsNonZeroDigit(t[1]))))
  }

  /** The `%m` field: `1[0-2]|0[1-9]|[1-9]`. */
  predicate MonthField(t: string) {
    (|t| == 1 && IsNonZeroDigit(t[0]))
    || (|t| == 2 && ((t[0] == '1' && '0' <= t[1] <= '2') || (t[0] == '0' && IsNonZeroDigit(t[1]))))
  }

  /** The `%Y` field: four digits. */
  predicate YearField(t: string) {
    |t| == 4 && AllDigits(t)
  }

  /** The number a matched field stands for (`int()` of it). */
  function FieldValue(t: string): (v: nat)
    requires DayField(t) || MonthField(t) || YearField(t)
    ensures DayField(t) ==> 1 <= v <= 31
    ensures MonthField(t) ==> 1 <= v <= 12
  {
    if t[0] == ' ' then t[1] as int - '0' as int
    else if |t| == 2 then
      TwoDigitsValue(t);
      DigitsValue(t)
    else
      assert |t| == 1 ==> t[..0] == [];
      DigitsValue(t)
  }

  /** The value of two decimal digits. */
  lemma TwoDigitsValue(t: string)
    requires |t| == 2 && IsDigit(t[0]) && IsDigit(t[1])
    ensures AllDigits(t) && DigitsValue(t) == 10 * (t[0] as int - '0' as int) + (t[1] as int - '0' as int)
  {
    assert t[..1][..0] == [];
    assert DigitsValue(t[..1]) == t[0] as int - '0' as int;
  }

  /** `datetime.date(y, m, d)`, `None` where Python raises ValueError. */
  function DateOf(y: int, m: int, dd: int): (r: Option<Day>)
    ensures r.Some? <==> ValidCivil(Civil(y, m, dd))
    ensures r.Some? ==> FromOrdinal(r.value) == Civil(y, m, dd)
  {
    if ValidCivil(Civil(y, m, dd)) then Some(ToDay(Civil(y, m, dd))) else None
  }

  /** `datetime.strptime(s, "%d-%m-%Y").date()`, `None` where Python raises ValueError. */
  function ParseDMY(s: string): Option<Day> {
    var parts := Split(s, "-");
    if |parts| == 3 && DayField(parts[0]) && MonthField(parts[1]) && YearField(parts[2]) then
      DateOf(FieldValue(parts[2]), FieldValue(parts[1]), FieldValue(parts[0]))
    else None
  }

  /** `datetime.strptime(s, "%Y-%m-%d").date()`, `None` where Python raises ValueError. */
  function ParseYMD(s: string): Option<Day> {
    var parts := Split(s, "-");
    if |parts| == 3 && YearField(parts[0]) && MonthField(parts[1]) && DayField(parts[2]) then
      DateOf(FieldValue(parts[0]), FieldValue(parts[1]), FieldValue(parts[2]))
    else None
  }

  // ---------------------------------------------------------------------
  // Splitting on the dash

  /** `x` has no dash. */
  predicate NoDash(x: string) {
    Free(x, '-')
  }

  /** Three dash-free fields joined by dashes split back into those fields. */
  lemma SplitThree(a: string, b: string, c: string)
    requires NoDash(a) && NoDash(b) && NoDash(c)
    ensures Split(a + "-" + b + "-" + c, "-") == [a, b, c]
  {
    assert a + "-" + b + "-" + c == a + "-" + (b + "-" + c);
    SplitAfterFree(a, "-", b + "-" + c);
    SplitAfterFree(b, "-", c);
    SplitFree(c, "-");
  }

  /** `ParseDMY` on three dash-free fields joined by dashes. */
  lemma ParseDMYFields(a: string, b: string, y: string)
    requires NoDash(a) && NoDash(b) && NoDash(y)
    ensures ParseDMY(a + "-" + b + "-" + y)
      == if DayField(a) && MonthField(b) && YearField(y) then DateOf(FieldValue(y), FieldValue(b), FieldValue(a)) else None
  {
    SplitThree(a, b, y);
  }

  /** `ParseYMD` on three dash-free fields joined by dashes. */
  lemma ParseYMDFields(y: string, b: string, a: string)
    requires NoDash(y) && NoDash(b) && NoDash(a)
    ensures ParseYMD(y + "-" + b + "-" + a)
      == if YearField(y) && MonthField(b) && DayField(a) then DateOf(FieldValue(y), FieldValue(b), FieldValue(a)) else None
  {
    SplitThree(y, b, a);
  }

  /** The zero-padded spellings of a date's fields are matched fields with their values. */
  lemma PaddedFields(c: Civil)
    requires ValidCivil(c)
    ensures DayField(Pad2(c.day)) && FieldValue(Pad2(c.day)) == c.day
    ensures MonthField(Pad2(c.month)) && FieldValue(Pad2(c.month)) == c.month
    ensures YearField(Pad4(c.year)) && FieldValue(Pad4(c.year)) == c.year
    ensures NoDash(Pad2(c.day)) && NoDash(Pad2(c.month)) && NoDash(Pad4(c.year))
  {
    Pad2Value(c.day);
    Pad2Value(c.month);
    Pad4Value(c.year);
  }

  /** A day is the only day with its (year, month, day). */
  lemma SameCivil(d: Day, e: Day)
    requires FromOrdinal(d) == FromOrdinal(e)
    ensures d == e
  {
    ToFromOrdinal(d);
    ToFromOrdinal(e);
  }

  // ---------------------------------------------------------------------
  // Round trips

  /** Parsing the `%d-%m-%Y` spelling of a date gives the date back. */
  lemma ParseFormatDMY(d: Day)
    ensures ParseDMY(FormatDMY(d)) == Some(d)
  {
    var c := FromOrdinal(d);
    PaddedFields(c);
    ParseDMYFields(Pad2(c.day), Pad2(c.month), Pad4(c.year));
    var r := DateOf(c.year, c.month, c.day);
    SameCivil(r.value, d);
  }

  /** Parsing the `%Y-%m-%d` spelling of a date gives the date back. */
  lemma ParseISO(d: Day)
    ensures ParseYMD(Pad4(FromOrdinal(d).year) + "-" + Pad2(FromOrdinal(d).month) + "-" + Pad2(FromOrdinal(d).day)) == Some(d)
  {
    var c := FromOrdinal(d);
    PaddedFields(c);
    ParseYMDFields(Pad4(c.year), Pad2(c.month), Pad2(c.day));
    var r := DateOf(c.year, c.month, c.day);
    SameCivil(r.value, d);
  }

  /** A two-digit day or month field is the `%02d` spelling of its value. */
  lemma PadOfField2(t: string)
    requires |t| == 2 && IsDigit(t[0]) && IsDigit(t[1]) && (DayField(t) || MonthField(t))
    ensures Pad2(FieldValue(t)) == t
  {
    TwoDigitsValue(t);
    Pad2OfDigits(t);
  }

  /** A year field is the `%04d` spelling of its value. */
  lemma PadOfField4(t: string)
    requires YearField(t)
    ensures FieldValue(t) < 10000 && Pad4(FieldValue(t)) == t
  {
    Pad4OfDigits(t);
  }

  /** A DD-MM-YYYY text is its three dash-free digit fields joined by dashes. */
  lemma PatternFields(s: string)
    requires DatePattern(s)
    ensures s == s[..2] + "-" + s[3..5] + "-" + s[6..]
    ensures NoDash(s[..2]) && NoDash(s[3..5]) && NoDash(s[6..])
    ensures |s[..2]| == 2 && IsDigit(s[..2][0]) && IsDigit(s[..2][1])
    ensures |s[3..5]| == 2 && IsDigit(s[3..5][0]) && IsDigit(s[3..5][1])
    ensures |s[6..]| == 4 && AllDigits(s[6..])
  {
    assert s == s[..2] + "-" + s[3..5] + "-" + s[6..];
  }

  /** The spelling of a day, from its (year, month, day). */
  lemma FormatOfCivil(d: Day, c: Civil)
    requires ValidCivil(c) && FromOrdinal(d) == c
    ensures FormatDMY(d) == Pad2(c.day) + "-" + Pad2(c.month) + "-" + Pad4(c.year)
  {
  }

  /**
   * A string of the form `\d{2}-\d{2}-\d{4}` that parses is the canonical
   * spelling of the date it parses to.
   */
  lemma FormatParseDMY(s: string)
    requires DatePattern(s) && ParseDMY(s).Some?
    ensures FormatDMY(ParseDMY(s).value) == s
  {
    var a, b, y := s[..2], s[3..5], s[6..];
    PatternFields(s);
    ParseDMYFields(a, b, y);
    PadOfField2(a);
    PadOfField2(b);
    PadOfField4(y);
    FormatOfCivil(ParseDMY(s).value, Civil(FieldValue(y), FieldValue(b), FieldValue(a)));
  }

  /** The two `strptime` formats never both accept a string. */
  lemma ParseFormatsDisjoint(s: string)
    ensures !(ParseDMY(s).Some? && ParseYMD(s).Some?)
  {
  }
}
