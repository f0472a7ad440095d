/**
 * Calendar dates as Python's `datetime.date` has them: the proleptic Gregorian
 * calendar for years 1..9999, the day ordinal of `date.toordinal()` (0001-01-01 is
 * day 1) and `date.weekday()` (Monday is 0). Also the IMAP `date-text` form
 * `DD-Mon-YYYY` (section 9 of RFC 3501) that `strftime("%d-%b-%Y")` produces.
 */
module Calendar {
  import opened Wrappers
  import opened Text

  datatype Date = Date(year: int, month: int, day: int)

  const MinYear := 1
  const MaxYear := 9999

  predicate IsLeap(y: int) {
    y % 4 == 0 && (y % 100 != 0 || y % 400 == 0)
  }

  function DaysInMonth(y: int, m: int): int
    requires 1 <= m <= 12
  {
    if m == 2 && IsLeap(y) then 29 else [31, 28, 31, 30, 31, 30, 31, 31, 30, 31, 30, 31][m - 1]
  }

  function DaysInYear(y: int): int {
    if IsLeap(y) then 366 else 365
  }

  predicate Valid(d: Date) {
    MinYear <= d.year <= MaxYear && 1 <= d.month <= 12 && 1 <= d.day <= DaysInMonth(d.year, d.month)
  }

  /** Days in the years before `y` (CPython's closed form). */
  function DaysBeforeYear(y: int): int
    requires y >= 1
  {
    var p := y - 1;
    p * 365 + p / 4 - p / 100 + p / 400
  }

  /** Days in the months of year `y` before month `m`. */
  function DaysBeforeMonth(y: int, m: int): int
    requires 1 <= m <= 13
    decreases m
  {
    if m == 1 then 0 else DaysBeforeMonth(y, m - 1) + DaysInMonth(y, m - 1)
  }

  /** `date.toordinal()`. */
  function Ordinal(d: Date): int
    requires Valid(d)
  {
    DaysBeforeYear(d.year) + DaysBeforeMonth(d.year, d.month) + d.day
  }

  /** `date.weekday()`: 0 is Monday, 6 is Sunday. */
  function Weekday(d: Date): int
    requires Valid(d)
  {
    (Ordinal(d) + 6) % 7
  }

  lemma DaysBeforeYearNonNegative(y: int)
    requires y >= 1
    ensures DaysBeforeYear(y) >= 0
  {
  }

  lemma OrdinalPositive(d: Date)
    requires Valid(d)
    ensures Ordinal(d) >= 1
  {
    DaysBeforeYearNonNegative(d.year);
    DaysBeforeMonthNonNegative(d.year, d.month);
  }

  lemma DaysBeforeMonthNonNegative(y: int, m: int)
    requires 1 <= m <= 13
    ensures DaysBeforeMonth(y, m) >= 0
    decreases m
  {
    if m > 1 {
      DaysBeforeMonthNonNegative(y, m - 1);
    }
  }

  lemma DaysBeforeMonthYear(y: int)
    ensures DaysBeforeMonth(y, 13) == DaysInYear(y)
  {
    var feb := DaysInMonth(y, 2);
    assert DaysBeforeMonth(y, 3) == 31 + feb;
    assert DaysBeforeMonth(y, 5) == 92 + feb;
    assert DaysBeforeMonth(y, 7) == 153 + feb;
    assert DaysBeforeMonth(y, 9) == 215 + feb;
    assert DaysBeforeMonth(y, 11) == 276 + feb;
    assert DaysBeforeMonth(y, 13) == 337 + feb;
  }

  lemma QuotientStep(p: int)
    requires p >= 0
    ensures (p + 1) / 4 - p / 4 == if (p + 1) % 4 == 0 then 1 else 0
    ensures (p + 1) / 100 - p / 100 == if (p + 1) % 100 == 0 then 1 else 0
    ensures (p + 1) / 400 - p / 400 == if (p + 1) % 400 == 0 then 1 else 0
  {
  }

  /** A multiple of 400 is one of 100, and a multiple of 100 is one of 4. */
  lemma Divisors(y: int)
    ensures y % 400 == 0 ==> y % 100 == 0
    ensures y % 100 == 0 ==> y % 4 == 0
  {
    if y % 400 == 0 {
      MultipleOf400(y, y / 400);
    }
    if y % 100 == 0 {
      MultipleOf100(y, y / 100);
    }
  }

  /** Once `y` is written as a multiple of 400, its remainder by 100 is plain arithmetic. */
  lemma MultipleOf400(y: int, q: int)
    requires y == 400 * q
    ensures y % 100 == 0
  {
  }

  /** Once `y` is written as a multiple of 100, its remainder by 4 is plain arithmetic. */
  lemma MultipleOf100(y: int, q: int)
    requires y == 100 * q
    ensures y % 4 == 0
  {
  }

  /** Consecutive years: the closed form adds exactly the length of the earlier year. */
  lemma DaysBeforeNextYear(y: int)
    requires y >= 1
    ensures DaysBeforeYear(y + 1) == DaysBeforeYear(y) + DaysInYear(y)
  {
    var p := y - 1;
    QuotientStep(p);
    Divisors(y);
    var a := y / 4 - p / 4;
    var b := y / 100 - p / 100;
    var c := y / 400 - p / 400;
    assert DaysBeforeYear(y + 1) == DaysBeforeYear(y) + 365 + a - b + c;
    assert DaysInYear(y) == 365 + a - b + c;
  }

  /** Day 1 of a later month: the day before is the last day of the previous month. */
  lemma PreviousMonthEnd(d: Date)
    requires Valid(d) && d.day == 1 && d.month > 1
    ensures var r := Date(d.year, d.month - 1, DaysInMonth(d.year, d.month - 1));
      Valid(r) && Ordinal(r) == Ordinal(d) - 1
  {
  }

  /** 1 January: the day before is 31 December of the previous year. */
  lemma PreviousYearEnd(d: Date)
    requires Valid(d) && d.day == 1 && d.month == 1 && d.year > 1
    ensures Valid(Date(d.year - 1, 12, 31)) && Ordinal(Date(d.year - 1, 12, 31)) == Ordinal(d) - 1
  {
    DaysBeforeNextYear(d.year - 1);
    DaysBeforeMonthYear(d.year - 1);
  }

  /** The day before a date (`d - timedelta(days=1)`); 0001-01-01 has none. */
  function Yesterday(d: Date): (r: Date)
    requires Valid(d) && Ordinal(d) > 1
    ensures Valid(r) && Ordinal(r) == Ordinal(d) - 1
  {
    if d.day > 1 then
      Date(d.year, d.month, d.day - 1)
    else if d.month > 1 then
      PreviousMonthEnd(d);
      Date(d.year, d.month - 1, DaysInMonth(d.year, d.month - 1))
    else
      assert d.year > 1;
      PreviousYearEnd(d);
      Date(d.year - 1, 12, 31)
  }

  /** `d - timedelta(days=n)`. */
  function DaysBefore(d: Date, n: nat): (r: Date)
    requires Valid(d) && n < Ordinal(d)
    ensures Valid(r) && Ordinal(r) == Ordinal(d) - n
    decreases n
  {
    if n == 0 then d else DaysBefore(Yesterday(d), n - 1)
  }

  /** `today - timedelta(days=today.weekday())`: the Monday that starts today's week. */
  function ThisMonday(today: Date): (r: Date)
    requires Valid(today)
    ensures Valid(r) && Ordinal(r) == Ordinal(today) - Weekday(today)
  {
    OrdinalPositive(today);
    DaysBefore(today, Weekday(today))
  }

  /**
   * The week start is a Monday, lies at most six days before today and is the latest
   * Monday that does not lie after today.
   */
  lemma {:induction false} ThisMondayIsWeekStart(today: Date)
    requires Valid(today)
    ensures Weekday(ThisMonday(today)) == 0
    ensures Ordinal(ThisMonday(today)) <= Ordinal(today) <= Ordinal(ThisMonday(today)) + 6
    ensures forall m :: Valid(m) && Weekday(m) == 0 && Ordinal(m) <= Ordinal(today) ==>
      Ordinal(m) <= Ordinal(ThisMonday(today))
  {
    WeekStartOf(today, ThisMonday(today));
  }

  /** Any valid date `weekday()` day numbers before `today` is the latest Monday up to today. */
  lemma WeekStartOf(today: Date, r: Date)
    requires Valid(today) && Valid(r) && Ordinal(r) == Ordinal(today) - Weekday(today)
    ensures Weekday(r) == 0
    ensures Ordinal(r) <= Ordinal(today) <= Ordinal(r) + 6
    ensures forall m :: Valid(m) && Weekday(m) == 0 && Ordinal(m) <= Ordinal(today) ==> Ordinal(m) <= Ordinal(r)
  {
    WeekArithmetic(Ordinal(today), Weekday(today), Ordinal(r), Ordinal(today));
    forall m | Valid(m) && Weekday(m) == 0 && Ordinal(m) <= Ordinal(today)
      ensures Ordinal(m) <= Ordinal(r)
    {
      NoLaterMonday(today, r, m);
    }
  }

  /** A Monday no later than `today` is no later than the week start. */
  lemma NoLaterMonday(today: Date, r: Date, m: Date)
    requires Valid(today) && Valid(r) && Ordinal(r) == Ordinal(today) - Weekday(today)
    requires Valid(m) && Weekday(m) == 0 && Ordinal(m) <= Ordinal(today)
    ensures Ordinal(m) <= Ordinal(r)
  {
    WeekArithmetic(Ordinal(today), Weekday(today), Ordinal(r), Ordinal(m));
  }

  lemma WeekArithmetic(t: int, w: int, r: int, m: int)
    requires w == (t + 6) % 7 && r == t - w
    ensures (r + 6) % 7 == 0 && r <= t <= r + 6
    ensures (m + 6) % 7 == 0 && m <= t ==> m <= r
  {
  }

  // ---- IMAP date-text: DD-Mon-YYYY ----

  const MonthAbbrevs: seq<string> :=
    ["Jan", "Feb", "Mar", "Apr", "May", "Jun", "Jul", "Aug", "Sep", "Oct", "Nov", "Dec"]

  /** The month whose C-locale `%b` abbreviation is `name`. */
  function MonthNumber(name: string): Option<int> {
    if name == "Jan" then Some(1) else if name == "Feb" then Some(2)
    else if name == "Mar" then Some(3) else if name == "Apr" then Some(4)
    else if name == "May" then Some(5) else if name == "Jun" then Some(6)
    else if name == "Jul" then Some(7) else if name == "Aug" then Some(8)
    else if name == "Sep" then Some(9) else if name == "Oct" then Some(10)
    else if name == "Nov" then Some(11) else if name == "Dec" then Some(12)
    else None
  }

  /** `%d`: the day of the month as two digits. */
  function TwoDigits(n: nat): (s: string)
    requires n < 100
    ensures |s| == 2 && IsDigits(s)
  {
    [DigitChar(n / 10), DigitChar(n % 10)]
  }

  /** `d.strftime("%d-%b-%Y")` in the C locale; `%Y` prints the year without padding. */
  function DateText(d: Date): (s: string)
    requires Valid(d)
  {
    TwoDigits(d.day) + "-" + MonthAbbrevs[d.month - 1] + "-" + Decimal(d.year)
  }

  /** Reads a `date-text` back; None for anything that is not a valid date in that form. */
  function ParseDateText(s: string): (r: Option<Date>)
    ensures r.Some? ==> Valid(r.value)
  {
    if |s| >= 8 && s[2] == '-' && s[6] == '-' && IsDigits(s[..2]) && IsDigits(s[7..]) then
      var day := ParseDecimal(s[..2]);
      var year := ParseDecimal(s[7..]);
      match MonthNumber(s[3..6])
      case None => None
      case Some(month) =>
        var d := Date(year, month, day);
        if Valid(d) then Some(d) else None
    else
      None
  }

  lemma MonthNumberOfAbbrev(m: int)
    requires 1 <= m <= 12
    ensures MonthNumber(MonthAbbrevs[m - 1]) == Some(m)
  {
  }

  lemma TwoDigitsRoundTrip(n: nat)
    requires n < 100
    ensures ParseDecimal(TwoDigits(n)) == n
  {
    var s := TwoDigits(n);
    assert s[..1] == [DigitChar(n / 10)];
    assert s[..1][..0] == [];
    assert ParseDecimal(s[..1]) == n / 10;
    assert ParseDecimal(s) == ParseDecimal(s[..1]) * 10 + n % 10;
  }

  /** Every date's `date-text` reads back as that date. */
  lemma {:induction false} ParseDateTextRoundTrip(d: Date)
    requires Valid(d)
    ensures ParseDateText(DateText(d)) == Some(d)
  {
    var s := DateText(d);
    var dd := TwoDigits(d.day);
    assert s[..2] == dd;
    assert s[3..6] == MonthAbbrevs[d.month - 1];
    assert s[7..] == Decimal(d.year);
    TwoDigitsRoundTrip(d.day);
    MonthNumberOfAbbrev(d.month);
    ParseDecimalOfDecimal(d.year);
  }

  /** Four-digit years (1000..9999) give the eleven characters RFC 3501 asks for. */
  lemma DateTextLength(d: Date)
    requires Valid(d) && d.year >= 1000
    ensures |DateText(d)| == 11
  {
    FourDigitYear(d.year);
    assert |MonthAbbrevs[d.month - 1]| == 3;
  }

  lemma FourDigitYear(y: nat)
    requires 1000 <= y <= 9999
    ensures |Decimal(y)| == 4
  {
    var a := y / 10;
    var b := a / 10;
    var c := b / 10;
    assert 1 <= c <= 9 && 10 <= b <= 99 && 100 <= a <= 999;
    assert |Decimal(c)| == 1;
    assert |Decimal(b)| == 2;
    assert |Decimal(a)| == 3;
  }
}
