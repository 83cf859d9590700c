/**
 * The proleptic Gregorian calendar as Python's `datetime.date` implements it:
 * years 1..9999, day ordinals with 0001-01-01 as day 1, and `weekday()`
 * with Monday = 0. Every date object of the bot is a `Day` (an ordinal);
 * `Civil` is its (year, month, day) form.
 */
module Calendar {

  const MinYear := 1
  const MaxYear := 9999

  /** Ordinal of 9999-12-31, Python's `date.max.toordinal()`. */
  const MaxOrdinal := 3652059

  /** A Python `date`, as its ordinal. */
  type Day = n: int | 1 <= n <= MaxOrdinal witness 1

  datatype Civil = Civil(year: int, month: int, day: int)

  predicate IsLeap(y: int) {
    y % 4 == 0 && (y % 100 != 0 || y % 400 == 0)
  }

  function DaysInMonth(y: int, m: int): (n: int)
    requires 1 <= m <= 12
    ensures 28 <= n <= 31
    ensures n == 29 <==> m == 2 && IsLeap(y)
  {
    if m == 2 then (if IsLeap(y) then 29 else 28)
    else if m == 4 || m == 6 || m == 9 || m == 11 then 30
    else 31
  }

  function DaysInYear(y: int): int {
    if IsLeap(y) then 366 else 365
  }

  predicate ValidCivil(c: Civil) {
    MinYear <= c.year <= MaxYear && 1 <= c.month <= 12 && 1 <= c.day <= DaysInMonth(c.year, c.month)
  }

  /** Days in the years before `y` (Python's `_days_before_year`). */
  function DaysBeforeYear(y: int): int
    requires y >= 1
  {
    var p := y - 1;
    365 * p + p / 4 - p / 100 + p / 400
  }

  /** Days in the months of year `y` before month `m`. */
  function DaysBeforeMonth(y: int, m: int): int
    requires 1 <= m <= 13
    decreases m
  {
    if m == 1 then 0 else DaysBeforeMonth(y, m - 1) + DaysInMonth(y, m - 1)
  }

  /** `date.toordinal()`. */
  function ToOrdinal(c: Civil): int
    requires ValidCivil(c)
  {
    DaysBeforeYear(c.year) + DaysBeforeMonth(c.year, c.month) + c.day
  }

  /** Python's `date.weekday()`: Monday is 0, Sunday is 6. */
  function Weekday(d: Day): (w: int)
    ensures 0 <= w < 7
  {
    (d + 6) % 7
  }

  // ---------------------------------------------------------------------
  // Arithmetic facts about the year and month tables

  lemma DivStep4(p: int)
    requires p >= 0
    ensures (p + 1) / 4 == p / 4 + (if (p + 1) % 4 == 0 then 1 else 0)
  {
  }

  lemma DivStep100(p: int)
    requires p >= 0
    ensures (p + 1) / 100 == p / 100 + (if (p + 1) % 100 == 0 then 1 else 0)
  {
  }

  lemma DivStep400(p: int)
    requires p >= 0
    ensures (p + 1) / 400 == p / 400 + (if (p + 1) % 400 == 0 then 1 else 0)
  {
  }

  /** Consecutive years differ by the length of the earlier one. */
  lemma DaysBeforeYearStep(y: int)
    requires y >= 1
    ensures DaysBeforeYear(y + 1) == DaysBeforeYear(y) + DaysInYear(y)
  {
    var p := y - 1;
    DivStep4(p);
    DivStep100(p);
    DivStep400(p);
    var step := (y / 4 - p / 4) - (y / 100 - p / 100) + (y / 400 - p / 400);
    assert DaysBeforeYear(y + 1) == DaysBeforeYear(y) + 365 + step;
    if y % 400 == 0 {
      MultipleOf400(y);
      MultipleOf100(y);
    } else if y % 100 == 0 {
      MultipleOf100(y);
    }
  }

  lemma MultipleOf100(y: int)
    requires y % 100 == 0
    ensures y % 4 == 0
  {
    var k := y / 100;
    assert y == 4 * (25 * k);
  }

  lemma MultipleOf400(y: int)
    requires y % 400 == 0
    ensures y % 100 == 0
  {
    var k := y / 400;
    assert y == 100 * (4 * k);
  }

  lemma {:induction false} DaysBeforeYearMono(a: int, b: int)
    requires 1 <= a <= b
    ensures DaysBeforeYear(a) + 365 * (b - a) <= DaysBeforeYear(b)
    decreases b - a
  {
    if a < b {
      DaysBeforeYearMono(a, b - 1);
      DaysBeforeYearStep(b - 1);
    }
  }

  lemma MaxOrdinalIsEndOfYear9999()
    ensures DaysBeforeYear(MaxYear + 1) == MaxOrdinal
  {
  }

  /** The twelve months add up to the year. */
  lemma DaysBeforeMonthYear(y: int)
    ensures DaysBeforeMonth(y, 13) == DaysInYear(y)
  {
    assert DaysBeforeMonth(y, 1) == 0;
    assert DaysBeforeMonth(y, 2) == 31;
    assert DaysBeforeMonth(y, 3) == 31 + DaysInMonth(y, 2);
    assert DaysBeforeMonth(y, 4) == 62 + DaysInMonth(y, 2);
    assert DaysBeforeMonth(y, 5) == 92 + DaysInMonth(y, 2);
    assert DaysBeforeMonth(y, 6) == 123 + DaysInMonth(y, 2);
    assert DaysBeforeMonth(y, 7) == 153 + DaysInMonth(y, 2);
    assert DaysBeforeMonth(y, 8) == 184 + DaysInMonth(y, 2);
    assert DaysBeforeMonth(y, 9) == 215 + DaysInMonth(y, 2);
    assert DaysBeforeMonth(y, 10) == 245 + DaysInMonth(y, 2);
    assert DaysBeforeMonth(y, 11) == 276 + DaysInMonth(y, 2);
    assert DaysBeforeMonth(y, 12) == 306 + DaysInMonth(y, 2);
    assert DaysBeforeMonth(y, 13) == 337 + DaysInMonth(y, 2);
  }

  lemma {:induction false} DaysBeforeMonthMono(y: int, a: int, b: int)
    requires 1 <= a < b <= 13
    ensures DaysBeforeMonth(y, a) + DaysInMonth(y, a) <= DaysBeforeMonth(y, b)
    decreases b - a
  {
    if a + 1 < b {
      DaysBeforeMonthMono(y, a, b - 1);
    }
  }

  /** A valid date lies within its year. */
  lemma OrdinalWithinYear(c: Civil)
    requires ValidCivil(c)
    ensures DaysBeforeYear(c.year) < ToOrdinal(c) <= DaysBeforeYear(c.year + 1)
  {
    if c.month < 12 {
      DaysBeforeMonthMono(c.year, c.month, 13);
    }
    DaysBeforeMonthYear(c.year);
    DaysBeforeYearStep(c.year);
  }

  // ---------------------------------------------------------------------
  // From an ordinal back to (year, month, day)

  /** Finds the year holding the day `r` days after 1 January of `y`. */
  function YearOf(y: int, r: int): (res: (int, int))
    requires 1 <= y && 0 <= r
    requires DaysBeforeYear(y) + r < MaxOrdinal
    ensures y <= res.0 <= MaxYear && 0 <= res.1 < DaysInYear(res.0)
    ensures DaysBeforeYear(res.0) + res.1 == DaysBeforeYear(y) + r
    decreases r
  {
    DaysBeforeYearStep(y);
    if r < DaysInYear(y) then
      DaysBeforeYearMono(y, y);
      if y > MaxYear then
        DaysBeforeYearMono(MaxYear + 1, y);
        assert false;
        (y, r)
      else
        (y, r)
    else
      YearOf(y + 1, r - DaysInYear(y))
  }

  /** Finds the month of year `y` holding the day `r` days after the first of month `m`. */
  function MonthOf(y: int, m: int, r: int): (res: (int, int))
    requires 1 <= m <= 12 && 0 <= r
    requires DaysBeforeMonth(y, m) + r < DaysInYear(y)
    ensures m <= res.0 <= 12 && 0 <= res.1 < DaysInMonth(y, res.0)
    ensures DaysBeforeMonth(y, res.0) + res.1 == DaysBeforeMonth(y, m) + r
    decreases 12 - m
  {
    DaysBeforeMonthYear(y);
    if r < DaysInMonth(y, m) then (m, r)
    else if m == 12 then
      assert false;
      (m, r)
    else MonthOf(y, m + 1, r - DaysInMonth(y, m))
  }

  /** `date.fromordinal(n)`. */
  function FromOrdinal(n: Day): (c: Civil)
    ensures ValidCivil(c)
  {
    var (y, r) := YearOf(1, n - 1);
    DaysBeforeMonthYear(y);
    var (m, r2) := MonthOf(y, 1, r);
    Civil(y, m, r2 + 1)
  }

  /** `fromordinal` inverts `toordinal`: the date found has the ordinal it was found from. */
  lemma ToFromOrdinal(n: Day)
    ensures ToOrdinal(FromOrdinal(n)) == n
  {
    var (y, r) := YearOf(1, n - 1);
    DaysBeforeMonthYear(y);
    var (m, r2) := MonthOf(y, 1, r);
    assert FromOrdinal(n) == Civil(y, m, r2 + 1);
  }

  /** Date order in (year, month, day) is ordinal order. */
  predicate CivilBefore(a: Civil, b: Civil) {
    a.year < b.year || (a.year == b.year && (a.month < b.month || (a.month == b.month && a.day < b.day)))
  }

  lemma OrdinalStrictlyIncreasing(a: Civil, b: Civil)
    requires ValidCivil(a) && ValidCivil(b) && CivilBefore(a, b)
    ensures ToOrdinal(a) < ToOrdinal(b)
  {
    if a.year < b.year {
      OrdinalWithinYear(a);
      OrdinalWithinYear(b);
      DaysBeforeYearMono(a.year + 1, b.year);
      assert ToOrdinal(a) <= DaysBeforeYear(a.year + 1) <= DaysBeforeYear(b.year) < ToOrdinal(b);
    } else if a.month < b.month {
      DaysBeforeMonthMono(a.year, a.month, b.month);
      assert DaysBeforeMonth(a.year, a.month) + a.day <= DaysBeforeMonth(b.year, b.month);
    }
  }

  /** The ordinal identifies the date: `fromordinal(toordinal(c)) == c`. */
  lemma FromToOrdinal(c: Civil)
    requires ValidCivil(c)
    ensures 1 <= ToOrdinal(c) <= MaxOrdinal
    ensures FromOrdinal(ToOrdinal(c)) == c
  {
    OrdinalWithinYear(c);
    DaysBeforeYearMono(c.year + 1, MaxYear + 1);
    var c' := FromOrdinal(ToOrdinal(c));
    ToFromOrdinal(ToOrdinal(c));
    if CivilBefore(c, c') {
      OrdinalStrictlyIncreasing(c, c');
    } else if CivilBefore(c', c) {
      OrdinalStrictlyIncreasing(c', c);
    }
  }

  /** The day of a valid (year, month, day). */
  function ToDay(c: Civil): (d: Day)
    requires ValidCivil(c)
    ensures FromOrdinal(d) == c
  {
    FromToOrdinal(c);
    ToOrdinal(c)
  }

  /** Subtracting the weekday lands on the Monday of the same week. */
  lemma MondayOfWeek(d: Day)
    ensures d - Weekday(d) >= 1
    ensures Weekday(d - Weekday(d)) == 0
  {
  }
}
