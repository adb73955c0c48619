/** The proleptic Gregorian calendar, twice: as the day-by-day calendar that
    RFC 3339 describes (month lengths of section 5.7, leap rule of Appendix C),
    and as the division formulas the router computes with.  The lemmas show
    that the second is the first. */
module Calendar {

  datatype Date = Date(year: int, month: int, day: int)

  // ------------------------------------------------ the day-by-day calendar

  predicate LeapYear(year: int) {
    year % 4 == 0 && (year % 100 != 0 || year % 400 == 0)
  }

  function DaysInMonth(year: int, month: int): int {
    if month == 2 then (if LeapYear(year) then 29 else 28)
    else if month == 4 || month == 6 || month == 9 || month == 11 then 30
    else 31
  }

  predicate ValidDate(d: Date) {
    1 <= d.month <= 12 && 1 <= d.day <= DaysInMonth(d.year, d.month)
  }

  function NextDay(d: Date): Date {
    if d.day < DaysInMonth(d.year, d.month) then d.(day := d.day + 1)
    else if d.month < 12 then Date(d.year, d.month + 1, 1)
    else Date(d.year + 1, 1, 1)
  }

  /** The date `n` days after 1 January 1970, counted one day at a time. */
  function CountedDate(n: nat): Date {
    if n == 0 then Date(1970, 1, 1) else NextDay(CountedDate(n - 1))
  }

  // ------------------------------------------------ the division formulas

  const ERA_DAYS := 146_097
  const EPOCH_SHIFT := 719_468

  /** Days from 1 March of year 0 of an era to 1 March of `yearOfEra`. */
  function YearStart(yearOfEra: int): int {
    365 * yearOfEra + yearOfEra / 4 - yearOfEra / 100
  }

  /** Days from 1 March to the first of the month `shifted` months later. */
  function MonthStart(shifted: int): int {
    (153 * shifted + 2) / 5
  }

  function YearOfEra(dayOfEra: int): int {
    (dayOfEra - dayOfEra / 1460 + dayOfEra / 36_524 - dayOfEra / 146_096) / 365
  }

  /** The date of day `days` since the epoch, as both copies compute it. */
  function CivilFromDays(days: nat): Date {
    var z := days + EPOCH_SHIFT;
    var era := z / ERA_DAYS;
    var dayOfEra := z - era * ERA_DAYS;
    var yearOfEra := YearOfEra(dayOfEra);
    DateInYear(yearOfEra + era * 400, dayOfEra - YearStart(yearOfEra))
  }

  /** The date `dayOfYear` days after 1 March of `year`. */
  function DateInYear(year: int, dayOfYear: int): Date {
    var shifted := (5 * dayOfYear + 2) / 153;
    var day := dayOfYear - MonthStart(shifted) + 1;
    var month := if shifted < 10 then shifted + 3 else shifted - 9;
    Date(if month <= 2 then year + 1 else year, month, day)
  }

  /** The day number the parser computes.  It does not look at the length of
      the month, so 31 February is the third day of March. */
  function DaysFromCivil(d: Date): int
    requires 1 <= d.month <= 12
  {
    var year := if d.month <= 2 then d.year - 1 else d.year;
    var era := year / 400;
    var yearOfEra := year - era * 400;
    var shifted := if d.month > 2 then d.month - 3 else d.month + 9;
    var dayOfYear := MonthStart(shifted) + d.day - 1;
    era * ERA_DAYS + YearStart(yearOfEra) + dayOfYear - EPOCH_SHIFT
  }

  // ------------------------------------------------ proofs

  lemma YearStartSplit(c: int, f: int, y: int)
    requires 0 <= c && 0 <= f < 25 && 0 <= y < 4
    ensures YearStart(100 * c + 4 * f + y) == 36_524 * c + 1461 * f + 365 * y
  {
    assert (100 * c + 4 * f + y) / 4 == 25 * c + f;
    assert (100 * c + 4 * f + y) / 100 == c;
  }

  /** Split a day number into centuries, four-year cycles and years, and the
      corrections in `YearOfEra` cancel exactly. */
  lemma YearOfEraSplit(c: int, f: int, y: int, s: int, dayOfEra: int)
    requires 0 <= c < 4 && 0 <= f < 25 && 0 <= y < 4 && 0 <= s < 1461
    requires dayOfEra == 36_524 * c + 1461 * f + s
    requires 1461 * f + s < 36_524
    requires 365 * y <= s < 365 * y + 365 || (y == 3 && s == 1460)
    ensures YearOfEra(dayOfEra) == 100 * c + 4 * f + y
  {
    var borrow := if 24 * c + f + s >= 1460 then 1 else 0;
    assert dayOfEra == 1460 * (25 * c + f + borrow) + (24 * c + f + s - 1460 * borrow);
    assert dayOfEra / 1460 == 25 * c + f + borrow;
    assert dayOfEra / 36_524 == c;
  }

  /** `YearOfEra` finds the year whose days contain `dayOfEra`. */
  lemma YearOfEraBrackets(dayOfEra: int)
    requires 0 <= dayOfEra < ERA_DAYS
    ensures 0 <= YearOfEra(dayOfEra) < 400
    ensures YearStart(YearOfEra(dayOfEra)) <= dayOfEra
    ensures dayOfEra < YearStart(YearOfEra(dayOfEra) + 1) || YearOfEra(dayOfEra) == 399
  {
    if dayOfEra < ERA_DAYS - 1 {
      var c, f, y, rest := CycleParts(dayOfEra);
      hide YearOfEra, YearStart;
      YearOfEraSplit(c, f, y, rest, dayOfEra);
      YearStartSplit(c, f, y);
      NextYearStart(c, f, y);
    }
  }

  /** The century, the four-year cycle and the year that hold a day of an era. */
  lemma CycleParts(dayOfEra: int) returns (c: int, f: int, y: int, s: int)
    requires 0 <= dayOfEra < ERA_DAYS - 1
    ensures 0 <= c < 4 && 0 <= f < 25 && 0 <= y < 4 && 0 <= s < 1461
    ensures dayOfEra == 36_524 * c + 1461 * f + s && 1461 * f + s < 36_524
    ensures 365 * y <= s < 365 * y + 365 || (y == 3 && s == 1460)
  {
    c := dayOfEra / 36_524;
    var r := dayOfEra - 36_524 * c;
    f := r / 1461;
    s := r - 1461 * f;
    y := if s == 1460 then 3 else s / 365;
  }

  lemma NextYearStart(c: int, f: int, y: int)
    requires 0 <= c < 4 && 0 <= f < 25 && 0 <= y < 4
    ensures YearStart(100 * c + 4 * f + y + 1) ==
            if y < 3 then 36_524 * c + 1461 * f + 365 * (y + 1)
            else if f < 24 then 36_524 * c + 1461 * (f + 1)
            else 36_524 * (c + 1)
  {
    hide YearStart;
    if y < 3 {
      YearStartSplit(c, f, y + 1);
    } else if f < 24 {
      YearStartSplit(c, f + 1, 0);
    } else {
      YearStartSplit(c + 1, 0, 0);
    }
  }

  /** Days from 1 March of a year to the next 1 March: the leap day, when
      there is one, belongs to the February of the following year. */
  function YearLength(year: int): int {
    if LeapYear(year + 1) then 366 else 365
  }

  lemma YearLengthIsDifference(era: int, yearOfEra: int)
    requires 0 <= yearOfEra < 400
    ensures yearOfEra < 399 ==>
              YearStart(yearOfEra + 1) - YearStart(yearOfEra) == YearLength(yearOfEra + era * 400)
    ensures yearOfEra == 399 ==>
              ERA_DAYS - YearStart(yearOfEra) == YearLength(yearOfEra + era * 400)
  {
    LeapYearPeriodic(era, yearOfEra + 1);
  }

  lemma LeapYearPeriodic(era: int, year: int)
    ensures LeapYear(year + era * 400) == LeapYear(year)
  {
    Periodic4(year, 100 * era);
    Periodic100(year, 4 * era);
    Periodic400(year, era);
    Rearranged(year, era);
  }

  lemma Rearranged(year: int, era: int)
    ensures year + era * 400 == year + 4 * (100 * era) == year + 100 * (4 * era) == year + 400 * era
  {
  }

  lemma Periodic400(year: int, k: int)
    ensures (year + 400 * k) % 400 == year % 400
  {
  }

  lemma Periodic4(year: int, k: int)
    ensures (year + 4 * k) % 4 == year % 4
  {
  }

  lemma Periodic100(year: int, k: int)
    ensures (year + 100 * k) % 100 == year % 100
  {
  }

  /** Every day sits in one era, one year of it and one day of that year. */
  lemma Position(days: nat) returns (era: int, yearOfEra: int, dayOfYear: int)
    ensures 0 <= era && 0 <= yearOfEra < 400
    ensures 0 <= dayOfYear < YearLength(yearOfEra + era * 400)
    ensures days + EPOCH_SHIFT == era * ERA_DAYS + YearStart(yearOfEra) + dayOfYear
    ensures CivilFromDays(days) == DateInYear(yearOfEra + era * 400, dayOfYear)
  {
    hide YearOfEra, YearStart, YearLength, DateInYear;
    var z := days + EPOCH_SHIFT;
    era := z / ERA_DAYS;
    var dayOfEra := z - era * ERA_DAYS;
    yearOfEra := YearOfEra(dayOfEra);
    dayOfYear := dayOfEra - YearStart(yearOfEra);
    YearOfEraBrackets(dayOfEra);
    YearLengthIsDifference(era, yearOfEra);
  }

  lemma YearStartMonotone(a: int, b: int)
    requires a <= b
    ensures YearStart(a) <= YearStart(b)
  {
  }

  /** ... and the formulas recover exactly that place. */
  lemma CivilAtPosition(era: int, yearOfEra: int, dayOfYear: int, days: nat)
    requires 0 <= yearOfEra < 400
    requires 0 <= dayOfYear < YearLength(yearOfEra + era * 400)
    requires days + EPOCH_SHIFT == era * ERA_DAYS + YearStart(yearOfEra) + dayOfYear
    ensures CivilFromDays(days) == DateInYear(yearOfEra + era * 400, dayOfYear)
  {
    hide YearOfEra, YearStart, YearLength, DateInYear;
    YearLengthIsDifference(era, yearOfEra);
    var dayOfEra := YearStart(yearOfEra) + dayOfYear;
    YearFound(yearOfEra, dayOfEra);
    EraFound(era, dayOfEra, days + EPOCH_SHIFT);
  }

  lemma EraFound(era: int, dayOfEra: int, z: int)
    requires 0 <= dayOfEra < ERA_DAYS && z == era * ERA_DAYS + dayOfEra
    ensures z / ERA_DAYS == era
  {
  }

  /** Only one year of an era holds a day. */
  lemma YearFound(yearOfEra: int, dayOfEra: int)
    requires 0 <= yearOfEra < 400 && YearStart(yearOfEra) <= dayOfEra
    requires dayOfEra < if yearOfEra < 399 then YearStart(yearOfEra + 1) else ERA_DAYS
    ensures 0 <= dayOfEra < ERA_DAYS && YearOfEra(dayOfEra) == yearOfEra
  {
    hide YearOfEra, YearStart;
    EraEnds();
    YearStartMonotone(0, yearOfEra);
    if yearOfEra < 399 {
      YearStartMonotone(yearOfEra + 1, 400);
    }
    YearOfEraBrackets(dayOfEra);
    var found := YearOfEra(dayOfEra);
    if found < yearOfEra {
      YearStartMonotone(found + 1, yearOfEra);
    } else if yearOfEra < found {
      YearStartMonotone(yearOfEra + 1, found);
    }
  }

  lemma EraEnds()
    ensures YearStart(0) == 0 && YearStart(400) == ERA_DAYS - 1
  {
  }

  // ------------------------------------------------ the main results

  lemma EpochDate()
    ensures CivilFromDays(0) == Date(1970, 1, 1)
  {
  }

  /** Each day is the calendar successor of the day before. */
  lemma CivilSuccessor(days: nat)
    ensures ValidDate(CivilFromDays(days))
    ensures CivilFromDays(days + 1) == NextDay(CivilFromDays(days))
  {
    hide *;
    var era, yearOfEra, dayOfYear := Position(days);
    SuccessorPosition(era, yearOfEra, dayOfYear, days);
    SuccessorInYear(yearOfEra + era * 400, dayOfYear, CivilFromDays(days), CivilFromDays(days + 1));
  }

  lemma SuccessorInYear(year: int, dayOfYear: int, here: Date, next: Date)
    requires 0 <= dayOfYear < YearLength(year)
    requires here == DateInYear(year, dayOfYear)
    requires next == if dayOfYear + 1 < YearLength(year) then DateInYear(year, dayOfYear + 1)
                     else DateInYear(year + 1, 0)
    ensures ValidDate(here)
    ensures next == NextDay(here)
  {
  }

  lemma SuccessorPosition(era: int, yearOfEra: int, dayOfYear: int, days: nat)
    requires 0 <= yearOfEra < 400
    requires 0 <= dayOfYear < YearLength(yearOfEra + era * 400)
    requires days + EPOCH_SHIFT == era * ERA_DAYS + YearStart(yearOfEra) + dayOfYear
    ensures CivilFromDays(days + 1) ==
            if dayOfYear + 1 < YearLength(yearOfEra + era * 400)
            then DateInYear(yearOfEra + era * 400, dayOfYear + 1)
            else DateInYear(yearOfEra + era * 400 + 1, 0)
  {
    YearLengthIsDifference(era, yearOfEra);
    if dayOfYear + 1 < YearLength(yearOfEra + era * 400) {
      CivilAtPosition(era, yearOfEra, dayOfYear + 1, days + 1);
    } else if yearOfEra < 399 {
      CivilAtPosition(era, yearOfEra + 1, 0, days + 1);
    } else {
      CivilAtPosition(era + 1, 0, 0, days + 1);
    }
  }

  /** Day 0 is 1 January 1970 and the formulas refine the day-by-day calendar. */
  lemma {:induction false} CivilIsCounted(days: nat)
    ensures CivilFromDays(days) == CountedDate(days)
  {
    if days == 0 {
      EpochDate();
    } else {
      CivilIsCounted(days - 1);
      CivilStep(days - 1, days);
    }
  }

  lemma CivilStep(before: nat, days: nat)
    requires days == before + 1 && CivilFromDays(before) == CountedDate(before)
    ensures CivilFromDays(days) == CountedDate(days)
  {
    CivilSuccessor(before);
  }

  lemma DaysOfCivil(days: nat)
    ensures ValidDate(CivilFromDays(days))
    ensures DaysFromCivil(CivilFromDays(days)) == days
  {
    CivilSuccessor(days);
    var era, yearOfEra, dayOfYear := Position(days);
    DateInYearPosition(era, yearOfEra, dayOfYear);
  }

  lemma DateInYearPosition(era: int, yearOfEra: int, dayOfYear: int)
    requires 0 <= yearOfEra < 400
    requires 0 <= dayOfYear < YearLength(yearOfEra + era * 400)
    ensures 1 <= DateInYear(yearOfEra + era * 400, dayOfYear).month <= 12
    ensures DaysFromCivil(DateInYear(yearOfEra + era * 400, dayOfYear))
            == era * ERA_DAYS + YearStart(yearOfEra) + dayOfYear - EPOCH_SHIFT
  {
    var d := DateInYear(yearOfEra + era * 400, dayOfYear);
    var shifted := (5 * dayOfYear + 2) / 153;
    assert 0 <= shifted < 12;
    assert shifted == if d.month > 2 then d.month - 3 else d.month + 9;
    var year := yearOfEra + era * 400;
    assert year == if d.month <= 2 then d.year - 1 else d.year;
    assert year / 400 == era;
  }

  lemma CivilOfDays(d: Date)
    requires ValidDate(d) && DaysFromCivil(d) >= 0
    ensures CivilFromDays(DaysFromCivil(d)) == d
  {
    hide *;
    MonthInRange(d);
    var year := if d.month <= 2 then d.year - 1 else d.year;
    var era, yearOfEra, dayOfYear := DaysParts(d, year);
    DateAtDayOfYear(year, d);
    CivilAtPosition(era, yearOfEra, dayOfYear, DaysFromCivil(d));
  }

  lemma MonthInRange(d: Date)
    requires ValidDate(d)
    ensures 1 <= d.month <= 12
  {
  }

  /** The sum a day number is made of. */
  lemma DaysParts(d: Date, year: int) returns (era: int, yearOfEra: int, dayOfYear: int)
    requires 1 <= d.month <= 12 && year == if d.month <= 2 then d.year - 1 else d.year
    ensures year == yearOfEra + era * 400 && 0 <= yearOfEra < 400
    ensures dayOfYear == MonthStart(if d.month > 2 then d.month - 3 else d.month + 9) + d.day - 1
    ensures DaysFromCivil(d) + EPOCH_SHIFT == era * ERA_DAYS + YearStart(yearOfEra) + dayOfYear
  {
    hide YearStart, MonthStart;
    era := year / 400;
    yearOfEra := year - era * 400;
    dayOfYear := MonthStart(if d.month > 2 then d.month - 3 else d.month + 9) + d.day - 1;
  }

  lemma DateAtDayOfYear(year: int, d: Date)
    requires ValidDate(d)
    requires year == if d.month <= 2 then d.year - 1 else d.year
    ensures var dayOfYear := MonthStart(if d.month > 2 then d.month - 3 else d.month + 9) + d.day - 1;
            0 <= dayOfYear < YearLength(year) && DateInYear(year, dayOfYear) == d
  {
  }

  /** The two computations are inverse to each other: on day numbers, and on
      the real dates from 1970 on. */
  lemma CivilDaysInverse(days: nat, d: Date)
    ensures DaysFromCivil(CivilFromDays(days)) == days
    ensures ValidDate(d) && d.year >= 1970 ==>
              DaysFromCivil(d) >= 0 && CivilFromDays(DaysFromCivil(d)) == d
    ensures ValidDate(d) && d.year < 1970 ==> DaysFromCivil(d) < 0
  {
    DaysOfCivil(days);
    if ValidDate(d) {
      DaysSign(d);
      if d.year >= 1970 {
        CivilOfDays(d);
      }
    }
  }

  lemma DaysSign(d: Date)
    requires ValidDate(d)
    ensures DaysFromCivil(d) >= 0 <==> d.year >= 1970
  {
  }
}
