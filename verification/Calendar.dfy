/** The date part of a certificate's issue time: days since 1970-01-01 to the proleptic Gregorian calendar. */
module Calendar {

  datatype Date = Date(year: int, month: int, day: int)

  /** Rust's integer division truncates toward zero. */
  function TruncatedDiv(a: int, b: int): int
    requires b > 0
  {
    if a >= 0 then a / b else -(-a / b)
  }

  function CivilFromDays(daysSinceUnixEpoch: int): Date {
    var shiftedDays := daysSinceUnixEpoch + 719_468;
    var era := TruncatedDiv(if shiftedDays >= 0 then shiftedDays else shiftedDays - 146_096, 146_097);
    var dayOfEra := shiftedDays - era * 146_097;
    CivilInEra(era, dayOfEra, YearOfEra(dayOfEra))
  }

  function CivilInEra(era: int, dayOfEra: int, yearOfEra: int): Date {
    var year := yearOfEra + era * 400;
    var dayOfYear := dayOfEra - (365 * yearOfEra + TruncatedDiv(yearOfEra, 4) - TruncatedDiv(yearOfEra, 100));
    var monthPiece := TruncatedDiv(5 * dayOfYear + 2, 153);
    var day := dayOfYear - TruncatedDiv(153 * monthPiece + 2, 5) + 1;
    var month := monthPiece + if monthPiece < 10 then 3 else -9;
    Date(year + if month <= 2 then 1 else 0, month, day)
  }

  function YearOfEra(dayOfEra: int): int {
    TruncatedDiv(dayOfEra - TruncatedDiv(dayOfEra, 1_460) + TruncatedDiv(dayOfEra, 36_524)
                 - TruncatedDiv(dayOfEra, 146_096), 365)
  }

  // ---- the calendar, defined without reference to the conversion

  predicate IsLeap(year: int) { year % 4 == 0 && (year % 100 != 0 || year % 400 == 0) }

  function DaysInMonth(year: int, month: int): int {
    match month
    case 2 => if IsLeap(year) then 29 else 28
    case 4 => 30
    case 6 => 30
    case 9 => 30
    case 11 => 30
    case _ => 31
  }

  predicate Valid(d: Date) { 1 <= d.month <= 12 && 1 <= d.day <= DaysInMonth(d.year, d.month) }

  function NextDay(d: Date): Date {
    if d.day < DaysInMonth(d.year, d.month) then Date(d.year, d.month, d.day + 1)
    else if d.month < 12 then Date(d.year, d.month + 1, 1)
    else Date(d.year + 1, 1, 1)
  }

  /** Days from 0001-01-01 to the first day of a year; `/` rounds down. */
  function DaysBeforeYear(year: int): int {
    365 * (year - 1) + (year - 1) / 4 - (year - 1) / 100 + (year - 1) / 400
  }

  function DaysBeforeMonth(year: int, month: int): int
    requires 1 <= month <= 13
  {
    if month == 1 then 0 else DaysBeforeMonth(year, month - 1) + DaysInMonth(year, month - 1)
  }

  function DaysFromCivil(d: Date): int
    requires Valid(d)
  {
    DaysBeforeYear(d.year) + DaysBeforeMonth(d.year, d.month) + d.day - 1 - DaysBeforeYear(1970)
  }

  // ---- the count of days is a bijection onto an interval for each year

  lemma Step4(n: int)
    ensures n / 4 - (n - 1) / 4 == if n % 4 == 0 then 1 else 0
  {}

  lemma Step100(n: int)
    ensures n / 100 - (n - 1) / 100 == if n % 100 == 0 then 1 else 0
  {}

  lemma Step400(n: int)
    ensures n / 400 - (n - 1) / 400 == if n % 400 == 0 then 1 else 0
    ensures n % 400 == 0 ==> n % 100 == 0
    ensures n % 100 == 0 ==> n % 4 == 0
  {}

  lemma YearLength(year: int)
    ensures DaysBeforeYear(year + 1) == DaysBeforeYear(year) + if IsLeap(year) then 366 else 365
  {
    Step4(year);
    Step100(year);
    Step400(year);
  }

  lemma MonthTable(year: int)
    ensures var l := if IsLeap(year) then 1 else 0;
            && DaysBeforeMonth(year, 1) == 0 && DaysBeforeMonth(year, 2) == 31 && DaysBeforeMonth(year, 3) == 59 + l
            && DaysBeforeMonth(year, 4) == 90 + l && DaysBeforeMonth(year, 5) == 120 + l
            && DaysBeforeMonth(year, 6) == 151 + l
            && DaysBeforeMonth(year, 7) == 181 + l && DaysBeforeMonth(year, 8) == 212 + l
            && DaysBeforeMonth(year, 9) == 243 + l
            && DaysBeforeMonth(year, 10) == 273 + l && DaysBeforeMonth(year, 11) == 304 + l
            && DaysBeforeMonth(year, 12) == 334 + l && DaysBeforeMonth(year, 13) == 365 + l
  {}

  lemma YearsInOrder(a: int, b: int)
    requires a <= b
    ensures DaysBeforeYear(a) <= DaysBeforeYear(b)
  {}

  lemma {:induction false} MonthsInOrder(year: int, a: int, b: int)
    requires 1 <= a <= b <= 13
    ensures DaysBeforeMonth(year, a) <= DaysBeforeMonth(year, b)
    decreases b - a
  {
    if a < b {
      MonthsInOrder(year, a, b - 1);
    }
  }

  /** The date lies within its year and its month. */
  lemma WithinYear(d: Date)
    requires Valid(d)
    ensures DaysBeforeYear(d.year) <= DaysFromCivil(d) + DaysBeforeYear(1970) < DaysBeforeYear(d.year + 1)
  {
    MonthTable(d.year);
    YearLength(d.year);
    MonthsInOrder(d.year, d.month + 1, 13);
    MonthsInOrder(d.year, 1, d.month);
  }

  lemma CountIsInjective(d: Date, e: Date)
    requires Valid(d) && Valid(e) && DaysFromCivil(d) == DaysFromCivil(e)
    ensures d == e
  {
    WithinYear(d);
    WithinYear(e);
    if d.year < e.year {
      YearsInOrder(d.year + 1, e.year);
      assert false;
    }
    if e.year < d.year {
      YearsInOrder(e.year + 1, d.year);
      assert false;
    }
    if d.month < e.month {
      MonthsInOrder(d.year, d.month + 1, e.month);
      assert false;
    }
    if e.month < d.month {
      MonthsInOrder(d.year, e.month + 1, d.month);
      assert false;
    }
  }

  lemma NextDayCountsOne(d: Date)
    requires Valid(d)
    ensures Valid(NextDay(d)) && DaysFromCivil(NextDay(d)) == DaysFromCivil(d) + 1
  {
    YearLength(d.year);
    MonthTable(d.year);
  }

  // ---- the conversion

  /** A day of a 400-year era is a day of a century, of a four-year cycle and of a year, each beginning in March. */
  lemma EraDecomposes(dayOfEra: int) returns (century: int, cycle: int, rest: int)
    requires 0 <= dayOfEra <= 146_096
    ensures dayOfEra == 36_524 * century + 1_461 * cycle + rest
    ensures 0 <= century <= 3 && 0 <= cycle <= 24 && 0 <= rest <= 1_460
    ensures cycle == 24 && century < 3 ==> rest < 1_460
  {
    century := if dayOfEra / 36_524 < 3 then dayOfEra / 36_524 else 3;
    var r := dayOfEra - 36_524 * century;
    cycle := r / 1_461;
    rest := r - 1_461 * cycle;
  }

  lemma YearOfEraIs(dayOfEra: int, century: int, cycle: int, rest: int)
    requires 0 <= dayOfEra <= 146_096 && dayOfEra == 36_524 * century + 1_461 * cycle + rest
    requires 0 <= century <= 3 && 0 <= cycle <= 24 && 0 <= rest <= 1_460
    requires cycle == 24 && century < 3 ==> rest < 1_460
    ensures YearOfEra(dayOfEra) == 100 * century + 4 * cycle + if rest / 365 < 3 then rest / 365 else 3
  {
    var carry := if 24 * century + cycle + rest >= 1_460 then 1 else 0;
    assert dayOfEra == 1_460 * (25 * century + cycle + carry) + (24 * century + cycle + rest - 1_460 * carry);
    assert dayOfEra / 1_460 == 25 * century + cycle + carry;
    assert dayOfEra / 36_524 - dayOfEra / 146_096 == century;
    var sum := dayOfEra - dayOfEra / 1_460 + dayOfEra / 36_524 - dayOfEra / 146_096;
    assert sum == 365 * (100 * century + 4 * cycle) + (rest - carry);
    assert (rest - carry) / 365 == if rest / 365 < 3 then rest / 365 else 3;
  }

  lemma EraIsFloor(shifted: int)
    ensures TruncatedDiv(if shifted >= 0 then shifted else shifted - 146_096, 146_097) == shifted / 146_097
  {}

  /** The converted date is valid and the count undoes the conversion. */
  lemma CountUndoesConversion(days: int)
    ensures Valid(CivilFromDays(days)) && DaysFromCivil(CivilFromDays(days)) == days
  {
    var shifted := days + 719_468;
    EraIsFloor(shifted);
    var era := shifted / 146_097;
    var dayOfEra := shifted - era * 146_097;
    var century, cycle, rest := EraDecomposes(dayOfEra);
    YearOfEraIs(dayOfEra, century, cycle, rest);
    var y := if rest / 365 < 3 then rest / 365 else 3;
    var dayOfYear := rest - 365 * y;
    assert 0 <= dayOfYear <= 365 && (dayOfYear == 365 ==> rest == 1_460);
    CountFromParts(days, era, dayOfEra, century, cycle, y, dayOfYear);
  }

  lemma CountFromParts(days: int, era: int, dayOfEra: int, century: int, cycle: int, y: int, dayOfYear: int)
    requires era == (days + 719_468) / 146_097 && dayOfEra == days + 719_468 - era * 146_097
    requires dayOfEra == 36_524 * century + 1_461 * cycle + 365 * y + dayOfYear
    requires YearOfEra(dayOfEra) == 100 * century + 4 * cycle + y
    requires 0 <= century <= 3 && 0 <= cycle <= 24 && 0 <= y <= 3
    requires 0 <= dayOfYear <= 365 && (dayOfYear == 365 ==> y == 3 && (cycle < 24 || century == 3))
    ensures Counts(CivilFromDays(days), days)
  {
    MarchDate(era, century, cycle, y, dayOfYear, days);
    ConversionGivesParts(days, era, dayOfEra, century, cycle, y, dayOfYear);
  }

  lemma ConversionGivesParts(days: int, era: int, dayOfEra: int, century: int, cycle: int, y: int, dayOfYear: int)
    requires era == (days + 719_468) / 146_097 && dayOfEra == days + 719_468 - era * 146_097
    requires dayOfEra == 36_524 * century + 1_461 * cycle + 365 * y + dayOfYear && dayOfYear >= 0
    requires YearOfEra(dayOfEra) == 100 * century + 4 * cycle + y
    requires 0 <= century <= 3 && 0 <= cycle <= 24 && 0 <= y <= 3
    ensures CivilFromDays(days) == DateOf(era, 100 * century + 4 * cycle + y, dayOfYear)
  {
    YearQuotients(century, cycle, y);
    ConversionSteps(days, era, dayOfEra, 100 * century + 4 * cycle + y, dayOfYear);
  }

  /** The date is that many days after day zero. */
  predicate Counts(d: Date, days: int) { Valid(d) && DaysFromCivil(d) == days }

  /** The date of a day of a March-based year. */
  function DateOf(era: int, yearOfEra: int, dayOfYear: int): Date {
    var piece := MarchMonth(dayOfYear);
    var month := piece + if piece < 10 then 3 else -9;
    Date(yearOfEra + era * 400 + if month <= 2 then 1 else 0, month, dayOfYear - (153 * piece + 2) / 5 + 1)
  }

  lemma ConversionSteps(days: int, era: int, dayOfEra: int, yearOfEra: int, dayOfYear: int)
    requires var shifted := days + 719_468; era == shifted / 146_097 && dayOfEra == shifted - era * 146_097
    requires YearOfEra(dayOfEra) == yearOfEra && yearOfEra >= 0 && dayOfYear >= 0
    requires dayOfYear == dayOfEra - (365 * yearOfEra + yearOfEra / 4 - yearOfEra / 100)
    ensures CivilFromDays(days) == DateOf(era, yearOfEra, dayOfYear)
  {
    EraIsFloor(days + 719_468);
    DateInEra(era, dayOfEra, yearOfEra, dayOfYear);
  }

  lemma DateInEra(era: int, dayOfEra: int, yearOfEra: int, dayOfYear: int)
    requires yearOfEra >= 0 && dayOfYear >= 0
    requires dayOfYear == dayOfEra - (365 * yearOfEra + yearOfEra / 4 - yearOfEra / 100)
    ensures CivilInEra(era, dayOfEra, yearOfEra) == DateOf(era, yearOfEra, dayOfYear)
  {}

  lemma DayZero()
    ensures CivilFromDays(0) == Date(1970, 1, 1)
  {}

  /** The month arithmetic, for a year that begins in March. */
  function MarchMonth(dayOfYear: int): int { (5 * dayOfYear + 2) / 153 }

  lemma MarchDate(era: int, century: int, cycle: int, y: int, dayOfYear: int, days: int)
    requires 0 <= century <= 3 && 0 <= cycle <= 24 && 0 <= y <= 3
    requires 0 <= dayOfYear <= 365 && (dayOfYear == 365 ==> y == 3 && (cycle < 24 || century == 3))
    requires days == era * 146_097 + 36_524 * century + 1_461 * cycle + 365 * y + dayOfYear - 719_468
    ensures Counts(DateOf(era, 100 * century + 4 * cycle + y, dayOfYear), days)
  {
    var yearOfEra := 100 * century + 4 * cycle + y;
    MarchYear(era, century, cycle, y);
    DateInMarchYear(era, yearOfEra, yearOfEra + era * 400, dayOfYear, MarchMonth(dayOfYear));
  }

  /** A day of the year that begins on 1 March of `year`. */
  lemma DateInMarchYear(era: int, yearOfEra: int, year: int, dayOfYear: int, piece: int)
    requires year == yearOfEra + era * 400 && piece == MarchMonth(dayOfYear)
    requires 0 <= dayOfYear <= 365 && (dayOfYear == 365 ==> IsLeap(year + 1))
    ensures var d := DateOf(era, yearOfEra, dayOfYear);
            && Valid(d) && DaysFromCivil(d) == MarchFirst(year) + dayOfYear
  {
    MonthTable(year);
    MonthTable(year + 1);
    YearLength(year);
    assert 0 <= piece <= 11;
    MarchStart(dayOfYear, piece);
  }

  function MarchFirst(year: int): int {
    DaysBeforeYear(year) + 59 + (if IsLeap(year) then 1 else 0) - DaysBeforeYear(1970)
  }

  lemma YearQuotients(century: int, cycle: int, y: int)
    requires 0 <= century <= 3 && 0 <= cycle <= 24 && 0 <= y <= 3
    ensures (100 * century + 4 * cycle + y) / 4 == 25 * century + cycle
    ensures (100 * century + 4 * cycle + y) / 100 == century
  {}

  /** 1 March of the year opens the March-based year, and the following February is long when it has to be. */
  lemma MarchYear(era: int, century: int, cycle: int, y: int)
    requires 0 <= century <= 3 && 0 <= cycle <= 24 && 0 <= y <= 3
    ensures var year := 100 * century + 4 * cycle + y + era * 400;
            && MarchFirst(year) == era * 146_097 + 36_524 * century + 1_461 * cycle + 365 * y - 719_468
            && (IsLeap(year + 1) <==> y == 3 && (cycle < 24 || century == 3))
  {
    var x := 100 * century + 4 * cycle + y;
    assert x + era * 400 + 1 == x + 1 + era * 400;
    DaysShift(x, era);
    LeapShift(x, era);
    LeapShift(x + 1, era);
    YearBefore(century, cycle, y);
    LeapInEra(century, cycle, y);
    assert DaysBeforeYear(1970) == 719_162;
  }

  lemma DaysShift(x: int, era: int)
    ensures DaysBeforeYear(x + era * 400) == DaysBeforeYear(x) + 146_097 * era
  {
    Shift(x - 1, era);
  }

  lemma LeapShift(x: int, era: int)
    ensures IsLeap(x + era * 400) == IsLeap(x)
  {
    Shift(x, era);
  }

  lemma Shift(a: int, era: int)
    ensures (a + era * 400) / 4 == a / 4 + 100 * era && (a + era * 400) % 4 == a % 4
    ensures (a + era * 400) / 100 == a / 100 + 4 * era && (a + era * 400) % 100 == a % 100
    ensures (a + era * 400) / 400 == a / 400 + era && (a + era * 400) % 400 == a % 400
  {}

  lemma YearBefore(century: int, cycle: int, y: int)
    requires 0 <= century <= 3 && 0 <= cycle <= 24 && 0 <= y <= 3
    ensures var x := 100 * century + 4 * cycle + y;
            && (x - 1) / 4 == 25 * century + cycle - (if y == 0 then 1 else 0)
            && (x - 1) / 100 == century - (if cycle == 0 && y == 0 then 1 else 0)
            && (x - 1) / 400 == if x == 0 then -1 else 0
  {}

  lemma LeapInEra(century: int, cycle: int, y: int)
    requires 0 <= century <= 3 && 0 <= cycle <= 24 && 0 <= y <= 3
    ensures var x := 100 * century + 4 * cycle + y;
            && (IsLeap(x) <==> y == 0 && (cycle > 0 || century == 0))
            && (IsLeap(x + 1) <==> y == 3 && (cycle < 24 || century == 3))
  {}

  lemma MarchStart(dayOfYear: int, piece: int)
    requires 0 <= dayOfYear <= 365 && piece == MarchMonth(dayOfYear) && 0 <= piece <= 11
    ensures var start := (153 * piece + 2) / 5;
            && start <= dayOfYear && (piece < 11 ==> dayOfYear < (153 * (piece + 1) + 2) / 5)
  {}

  /** Day zero, validity, the step to the next calendar day, and the inverse, over all integers. */
  lemma ConversionIsTheCalendar(days: int)
    ensures CivilFromDays(0) == Date(1970, 1, 1)
    ensures Valid(CivilFromDays(days))
    ensures CivilFromDays(days + 1) == NextDay(CivilFromDays(days))
    ensures DaysFromCivil(CivilFromDays(days)) == days
  {
    DayZero();
    CountUndoesConversion(days);
    CountUndoesConversion(days + 1);
    NextDayCountsOne(CivilFromDays(days));
    CountIsInjective(CivilFromDays(days + 1), NextDay(CivilFromDays(days)));
  }

  /** The conversion undoes the count on every valid date. */
  lemma ConversionUndoesCount(d: Date)
    requires Valid(d)
    ensures CivilFromDays(DaysFromCivil(d)) == d
  {
    CountUndoesConversion(DaysFromCivil(d));
    CountIsInjective(CivilFromDays(DaysFromCivil(d)), d);
  }
}
