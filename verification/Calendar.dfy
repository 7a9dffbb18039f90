/** The closed-form Gregorian day number of `parse_timestamp` against a calendar walked one day
    at a time. Years run over all integers. */
module Calendar {

  datatype Date = Date(year: int, month: int, day: int)

  const EPOCH := Date(1970, 1, 1)

  predicate Leap(year: int) {
    year % 4 == 0 && (year % 100 != 0 || year % 400 == 0)
  }

  function MonthLength(year: int, month: int): int
    requires 1 <= month <= 12
  {
    match month
    case 4 | 6 | 9 | 11 => 30
    case 2 => if Leap(year) then 29 else 28
    case _ => 31
  }

  predicate Valid(date: Date) {
    1 <= date.month <= 12 && 1 <= date.day <= MonthLength(date.year, date.month)
  }

  /** The era arithmetic: days since 1970-01-01. */
  function DayNumber(date: Date): int {
    var year := date.year - (if date.month <= 2 then 1 else 0);
    var era := year / 400;
    var yearOfEra := year - era * 400;
    var monthIndex := date.month + (if date.month > 2 then -3 else 9);
    var dayOfYear := (153 * monthIndex + 2) / 5 + date.day - 1;
    era * 146097 + yearOfEra * 365 + yearOfEra / 4 - yearOfEra / 100 + dayOfYear - 719468
  }

  // ----- The calendar, one day at a time -----

  function Next(date: Date): (next: Date)
    requires Valid(date)
    ensures Valid(next)
  {
    if date.day < MonthLength(date.year, date.month) then date.(day := date.day + 1)
    else if date.month < 12 then Date(date.year, date.month + 1, 1)
    else Date(date.year + 1, 1, 1)
  }

  function Previous(date: Date): (previous: Date)
    requires Valid(date)
    ensures Valid(previous) && Next(previous) == date
  {
    if date.day > 1 then date.(day := date.day - 1)
    else if date.month > 1 then Date(date.year, date.month - 1, MonthLength(date.year, date.month - 1))
    else Date(date.year - 1, 12, 31)
  }

  /** The date reached by counting `n` days from the epoch, one at a time, backwards if negative. */
  function Counted(n: int): (date: Date)
    ensures Valid(date)
    decreases if n < 0 then -n else n
  {
    if n == 0 then EPOCH else if n > 0 then Next(Counted(n - 1)) else Previous(Counted(n + 1))
  }

  // ----- The formula counts days -----

  /** Days before the first of March of `year`, up to a constant. */
  function MarchDays(year: int): int {
    365 * year + year / 4 - year / 100 + year / 400
  }

  function ShiftedYear(date: Date): int {
    date.year - (if date.month <= 2 then 1 else 0)
  }

  /** Days since the last first of March. */
  function DayOfYear(date: Date): int {
    (153 * (date.month + (if date.month > 2 then -3 else 9)) + 2) / 5 + date.day - 1
  }

  lemma EraSplits(year: int)
    ensures var era := year / 400;
            var yearOfEra := year - era * 400;
            era * 146097 + yearOfEra * 365 + yearOfEra / 4 - yearOfEra / 100 == MarchDays(year)
  {
    var era := year / 400;
    var yearOfEra := year - era * 400;
    assert year / 4 == 100 * era + yearOfEra / 4;
    assert year / 100 == 4 * era + yearOfEra / 100;
  }

  function MarchNumber(date: Date): int {
    MarchDays(ShiftedYear(date)) + DayOfYear(date)
  }

  lemma FormulaSplits(date: Date)
    ensures DayNumber(date) == MarchNumber(date) - 719468
  {
    EraSplits(ShiftedYear(date));
  }

  lemma Quarter(year: int)
    ensures (year + 1) / 4 == year / 4 + (if (year + 1) % 4 == 0 then 1 else 0)
  {
  }

  lemma Century(year: int)
    ensures (year + 1) / 100 == year / 100 + (if (year + 1) % 100 == 0 then 1 else 0)
  {
  }

  lemma Era(year: int)
    ensures (year + 1) / 400 == year / 400 + (if (year + 1) % 400 == 0 then 1 else 0)
    ensures year % 400 == 0 ==> year % 100 == 0
    ensures year % 100 == 0 ==> year % 4 == 0
  {
  }

  /** A March-to-February year is as long as the calendar year its February lies in. */
  lemma MarchYearLength(year: int)
    ensures MarchDays(year + 1) == MarchDays(year) + (if Leap(year + 1) then 366 else 365)
  {
    Quarter(year);
    Century(year);
    Era(year);
    Era(year + 1);
    var q, c, e := (year + 1) % 4 == 0, (year + 1) % 100 == 0, (year + 1) % 400 == 0;
    assert Leap(year + 1) == (q && (!c || e));
  }

  lemma DayOfYearInRange(date: Date)
    requires Valid(date)
    ensures 0 <= DayOfYear(date) < MarchDays(ShiftedYear(date) + 1) - MarchDays(ShiftedYear(date))
  {
    MarchYearLength(ShiftedYear(date));
  }

  /** Within a March-to-February year the next day is one later; the day after its last is the
      first day of the next such year. */
  lemma NextInYear(date: Date)
    requires Valid(date)
    ensures var next := Next(date);
            if ShiftedYear(next) == ShiftedYear(date) then DayOfYear(next) == DayOfYear(date) + 1
            else && ShiftedYear(next) == ShiftedYear(date) + 1
                 && DayOfYear(next) == 0
                 && DayOfYear(date) == (if Leap(ShiftedYear(date) + 1) then 365 else 364)
  {
  }

  lemma NextMarchNumber(date: Date)
    requires Valid(date)
    ensures MarchNumber(Next(date)) == MarchNumber(date) + 1
  {
    NextInYear(date);
    MarchYearLength(ShiftedYear(date));
  }

  /** Successive dates have successive day numbers. */
  lemma NextDayNumber(date: Date)
    requires Valid(date)
    ensures DayNumber(Next(date)) == DayNumber(date) + 1
  {
    var next := Next(date);
    FormulaSplits(date);
    FormulaSplits(next);
    NextMarchNumber(date);
  }

  lemma {:induction false} MarchDaysGrow(a: int, b: int)
    requires a <= b
    ensures MarchDays(a) <= MarchDays(b)
    decreases b - a
  {
    if a < b {
      MarchDaysGrow(a, b - 1);
      MarchYearLength(b - 1);
    }
  }

  lemma EpochIsZero()
    ensures DayNumber(EPOCH) == 0
  {
  }

  lemma PreviousDayNumber(date: Date)
    requires Valid(date)
    ensures DayNumber(Previous(date)) == DayNumber(date) - 1
  {
    NextDayNumber(Previous(date));
  }

  /** The formula numbers exactly the dates reached by counting. */
  lemma {:induction false} CountedDayNumber(n: int)
    ensures DayNumber(Counted(n)) == n
    decreases if n < 0 then -n else n
  {
    if n > 0 {
      CountedDayNumber(n - 1);
      NextDayNumber(Counted(n - 1));
    } else if n < 0 {
      CountedDayNumber(n + 1);
      PreviousDayNumber(Counted(n + 1));
    } else {
      EpochIsZero();
    }
  }

  predicate Before(a: Date, b: Date) {
    a.year < b.year || (a.year == b.year && (a.month < b.month || (a.month == b.month && a.day < b.day)))
  }

  lemma LaterInYear(a: Date, b: Date)
    requires Valid(a) && Valid(b) && Before(a, b) && ShiftedYear(a) == ShiftedYear(b)
    ensures DayOfYear(a) < DayOfYear(b)
  {
  }

  lemma EarlierYearEarlier(a: Date, b: Date)
    requires Valid(a) && Valid(b) && ShiftedYear(a) < ShiftedYear(b)
    ensures MarchNumber(a) < MarchNumber(b)
  {
    DayOfYearInRange(a);
    DayOfYearInRange(b);
    MarchDaysGrow(ShiftedYear(a) + 1, ShiftedYear(b));
  }

  lemma EarlierHasSmallerNumber(a: Date, b: Date)
    requires Valid(a) && Valid(b) && Before(a, b)
    ensures DayNumber(a) < DayNumber(b)
  {
    if ShiftedYear(a) < ShiftedYear(b) {
      EarlierYearEarlier(a, b);
    } else {
      LaterInYear(a, b);
    }
    FormulaSplits(a);
    FormulaSplits(b);
  }

  /** Day numbers follow the calendar order, so distinct dates never collide. */
  lemma DayNumberIsMonotone(a: Date, b: Date)
    requires Valid(a) && Valid(b)
    ensures DayNumber(a) < DayNumber(b) <==> Before(a, b)
  {
    if Before(a, b) {
      EarlierHasSmallerNumber(a, b);
    } else if Before(b, a) {
      EarlierHasSmallerNumber(b, a);
    } else {
      assert a == b;
    }
  }

  /** Every valid date is reached by counting its day number, and by no other count. */
  lemma DayNumberCounts(date: Date, n: int)
    requires Valid(date)
    ensures Counted(n) == date <==> DayNumber(date) == n
  {
    CountedDayNumber(n);
    var reached := Counted(n);
    DayNumberIsMonotone(reached, date);
    DayNumberIsMonotone(date, reached);
  }
}
