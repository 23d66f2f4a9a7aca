// Calendar dates as pandas parses them, their order, and the whole-year
// difference that `relativedelta(created, birth).years` computes.

module Calendar {

  datatype Date = Date(year: int, month: int, day: int)

  /** Gregorian leap-year rule (proleptic, as Python's `datetime` uses). */
  predicate IsLeapYear(y: int)
  {
    y % 4 == 0 && (y % 100 != 0 || y % 400 == 0)
  }

  function DaysInMonth(y: int, m: int): (n: int)
    requires 1 <= m <= 12
    ensures 28 <= n <= 31
    ensures n == 29 <==> m == 2 && IsLeapYear(y)
    ensures n == 28 <==> m == 2 && !IsLeapYear(y)
  {
    if m == 2 then (if IsLeapYear(y) then 29 else 28)
    else if m == 4 || m == 6 || m == 9 || m == 11 then 30
    else 31
  }

  predicate IsValid(d: Date)
  {
    1 <= d.month <= 12 && 1 <= d.day <= DaysInMonth(d.year, d.month)
  }

  /** A date that exists in the Gregorian calendar. */
  type CalendarDate = d: Date | IsValid(d) witness Date(1970, 1, 1)

  /** `a < b` on dates: lexicographic on (year, month, day). */
  predicate Before(a: Date, b: Date)
  {
    || a.year < b.year
    || (a.year == b.year && a.month < b.month)
    || (a.year == b.year && a.month == b.month && a.day < b.day)
  }

  lemma BeforeTransitive(a: Date, b: Date, c: Date)
    requires Before(a, b) && Before(b, c)
    ensures Before(a, c)
  {
  }

  /** `Before` is a strict total order: exactly one of a < b, a == b, b < a. */
  lemma BeforeTrichotomy(a: Date, b: Date)
    ensures Before(a, b) || a == b || Before(b, a)
    ensures !(Before(a, b) && Before(b, a))
    ensures !Before(a, a)
  {
  }

  /** `d + relativedelta(years=n)`: same month, the day clamped to the
      length of that month in the target year, so 29 February lands on
      28 February in a common year. */
  function AddYears(d: CalendarDate, n: int): (r: CalendarDate)
    ensures r.year == d.year + n && r.month == d.month
    ensures r.day == d.day || (d.month == 2 && d.day == 29 && r.day == 28 && !IsLeapYear(r.year))
  {
    var last := DaysInMonth(d.year + n, d.month);
    Date(d.year + n, d.month, if d.day <= last then d.day else last)
  }

  /** Later anniversaries fall on later dates. */
  lemma AnniversariesIncrease(d: CalendarDate, m: int, n: int)
    requires m < n
    ensures Before(AddYears(d, m), AddYears(d, n))
  {
  }

  /** `relativedelta(created, birth).years` for `created` on or after
      `birth`: the number of anniversaries of `birth` that have been
      reached by `created`. */
  function WholeYears(birth: CalendarDate, created: CalendarDate): (n: nat)
    requires !Before(created, birth)
    ensures !Before(created, AddYears(birth, n))
    ensures Before(created, AddYears(birth, n + 1))
  {
    var span := created.year - birth.year;
    if Before(created, AddYears(birth, span)) then span - 1 else span
  }

  /** No later anniversary than the `WholeYears`-th one has been reached:
      `WholeYears` is the largest such count. */
  lemma WholeYearsIsLargest(birth: CalendarDate, created: CalendarDate, k: int)
    requires !Before(created, birth)
    requires !Before(created, AddYears(birth, k))
    ensures k <= WholeYears(birth, created)
  {
    var n := WholeYears(birth, created);
    if n + 1 < k {
      AnniversariesIncrease(birth, n + 1, k);
    }
  }

  /** The age check: fewer than `years` whole years exactly when `created`
      falls before the `years`-th anniversary of `birth`. */
  lemma {:induction false} UnderAgeIffBeforeAnniversary(birth: CalendarDate, created: CalendarDate, years: nat)
    requires !Before(created, birth)
    ensures WholeYears(birth, created) < years <==> Before(created, AddYears(birth, years))
  {
    var n := WholeYears(birth, created);
    if n < years {
      if n + 1 < years {
        AnniversariesIncrease(birth, n + 1, years);
        BeforeTransitive(created, AddYears(birth, n + 1), AddYears(birth, years));
      }
    } else {
      if years < n {
        AnniversariesIncrease(birth, years, n);
      }
      BeforeTrichotomy(created, AddYears(birth, years));
      if Before(created, AddYears(birth, years)) && years < n {
        BeforeTransitive(created, AddYears(birth, years), AddYears(birth, n));
      }
    }
  }

  /** The textbook age formula, for every birthday other than 29 February:
      the difference of the years, less one when the month/day anniversary
      has not yet come round. */
  lemma WholeYearsByMonthDay(birth: CalendarDate, created: CalendarDate)
    requires !Before(created, birth)
    requires !(birth.month == 2 && birth.day == 29)
    ensures WholeYears(birth, created) ==
      (created.year - birth.year)
        - (if created.month < birth.month || (created.month == birth.month && created.day < birth.day) then 1 else 0)
  {
  }

  /** For a 29 February birthday the anniversary in a common year is
      28 February. */
  lemma LeapDayBirthday()
    ensures AddYears(Date(2000, 2, 29), 18) == Date(2018, 2, 28)
    ensures WholeYears(Date(2000, 2, 29), Date(2018, 2, 28)) == 18
    ensures WholeYears(Date(2000, 2, 29), Date(2018, 2, 27)) == 17
    ensures WholeYears(Date(2000, 2, 29), Date(2020, 2, 28)) == 19
  {
  }

  /** Fifteen years between 1 January 2000 and 1 January 2015. */
  lemma FifteenYears()
    ensures WholeYears(Date(2000, 1, 1), Date(2015, 1, 1)) == 15
    ensures WholeYears(Date(2000, 1, 1), Date(2014, 12, 31)) == 14
  {
  }
}
