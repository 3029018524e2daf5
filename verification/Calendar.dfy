/**
 * The civil date of a day count, which src/metrics.rs and src/cidrs.rs both compute by one closed
 * formula of divisions, proved against a Gregorian calendar stepped day by day.
 */
module Calendar {
  datatype Date = Date(year: int, month: int, day: int)

  // ----- the calendar, day by day ---------------------------------------------------------------

  predicate IsLeap(year: int) { year % 4 == 0 && (year % 100 != 0 || year % 400 == 0) }

  function DaysInMonth(year: int, month: int): int {
    if month == 2 then (if IsLeap(year) then 29 else 28)
    else if month == 4 || month == 6 || month == 9 || month == 11 then 30
    else 31
  }

  ghost predicate IsDate(d: Date) { 1 <= d.month <= 12 && 1 <= d.day <= DaysInMonth(d.year, d.month) }

  function NextDay(d: Date): Date {
    if d.day < DaysInMonth(d.year, d.month) then d.(day := d.day + 1)
    else if d.month < 12 then Date(d.year, d.month + 1, 1)
    else Date(d.year + 1, 1, 1)
  }

  /** The date `days` days after 1970-01-01. */
  function Stepped(days: nat): Date { if days == 0 then Date(1970, 1, 1) else NextDay(Stepped(days - 1)) }

  // ----- the formulas -----------------------------------------------------------------------------

  function YearOfEra(doe: nat): int { (doe - doe / 1460 + doe / 36524 - doe / 146096) / 365 }

  /** Day `doy` of the year that starts on 1 March of `y`. */
  function DateInYear(y: int, doy: int): Date {
    var mp := (5 * doy + 2) / 153;
    var d := doy - (153 * mp + 2) / 5 + 1;
    var m := if mp < 10 then mp + 3 else mp - 9;
    Date(if m <= 2 then y + 1 else y, m, d)
  }

  function EpochDaysToDate(days: nat): Date {
    var z := days + 719468;
    var era := z / 146097;
    var doe := z - era * 146097;
    var yoe := YearOfEra(doe);
    var y := yoe + era * 400;
    var doy := doe - (365 * yoe + yoe / 4 - yoe / 100);
    DateInYear(y, doy)
  }

  // ----- years of an era ----------------------------------------------------------------------------

  /** Days of an era of 400 years before its year `y`, years counted from March. */
  function YearStart(y: nat): int { 365 * y + y / 4 - y / 100 + y / 400 }

  lemma {:induction false} AtLeastOnce(x: int, d: int)
    requires d > 0
    ensures x >= 1 ==> x * d >= d
  {}

  lemma {:induction false} DivIs(n: int, d: int, q: int)
    requires d > 0 && q * d <= n < (q + 1) * d
    ensures n / d == q
  {
    var k := n / d;
    assert n == k * d + n % d;
    assert (q - k) * d == q * d - k * d && (k - q) * d == k * d - q * d && (q + 1) * d == q * d + d;
    AtLeastOnce(q - k, d);
    AtLeastOnce(k - q, d);
  }

  /** Century `c`, four-year cycle `k` in it, year `j` of that and day `t`: the formula finds the year. */
  lemma {:induction false} YearFromParts(c: int, k: int, j: int, t: int, doe: nat)
    requires 0 <= c <= 3 && 0 <= k <= 24 && 0 <= j <= 3 && 0 <= t <= 365 && (t == 365 ==> j == 3)
    requires doe == 36524 * c + 1461 * k + 365 * j + t && doe < 146097
             && (doe < 146096 ==> 1461 * k + 365 * j + t < 36524)
    ensures YearOfEra(doe) == 100 * c + 4 * k + j
  {
    var r := 24 * c + k + 365 * j + t;
    var over := if r >= 1460 then 1 else 0;
    DivIs(doe, 1460, 25 * c + k + over);
    var last := if doe == 146096 then 1 else 0;
    DivIs(doe, 36524, c + last);
    DivIs(doe, 146096, last);
    DivIs(doe - doe / 1460 + doe / 36524 - doe / 146096, 365, 100 * c + 4 * k + j);
  }

  lemma {:induction false} YearStartFromParts(c: int, k: int, j: int)
    requires 0 <= c <= 3 && 0 <= k <= 24 && 0 <= j <= 3
    ensures YearStart(100 * c + 4 * k + j) == 36524 * c + 1461 * k + 365 * j
    ensures YearStart(100 * c + 4 * k + j + 1) ==
            36524 * c + 1461 * k + 365 * (j + 1) + (if j == 3 && (k < 24 || c == 3) then 1 else 0)
  {
    var y := 100 * c + 4 * k + j;
    DivIs(y, 4, 25 * c + k);
    DivIs(y, 100, c);
    DivIs(y, 400, 0);
    DivIs(y + 1, 4, 25 * c + k + (if j == 3 then 1 else 0));
    DivIs(y + 1, 100, c + (if j == 3 && k == 24 then 1 else 0));
    DivIs(y + 1, 400, if y == 399 then 1 else 0);
  }

  lemma {:induction false} YearOfEraIsRight(doe: nat)
    requires doe < 146097
    ensures 0 <= YearOfEra(doe) <= 399
    ensures YearStart(YearOfEra(doe)) <= doe < YearStart(YearOfEra(doe) + 1)
  {
    var c := if doe / 36524 > 3 then 3 else doe / 36524;
    var r := doe - 36524 * c;
    var k := if r / 1461 > 24 then 24 else r / 1461;
    var s := r - 1461 * k;
    var j := if s / 365 > 3 then 3 else s / 365;
    YearFromParts(c, k, j, s - 365 * j, doe);
    YearStartFromParts(c, k, j);
  }

  /** The year that contains a day is unique, so the formula moves with the calendar. */
  lemma {:induction false} YearIsUnique(doe: nat, y: nat)
    requires doe < 146097 && y <= 399 && YearStart(y) <= doe < YearStart(y + 1)
    ensures YearOfEra(doe) == y
  {
    YearOfEraIsRight(doe);
    hide YearOfEra;
  }

  /** A year counted from March has a 366th day when the February it ends with is a leap one. */
  lemma {:induction false} YearLength(y: nat)
    ensures YearStart(y + 1) - YearStart(y) == if IsLeap(y + 1) then 366 else 365
  {
    Carry(y, 4);
    Carry(y, 100);
    Carry(y, 400);
    CenturiesAreFourth(y + 1);
  }

  lemma {:induction false} CenturiesAreFourth(n: nat)
    ensures n % 400 == 0 ==> n % 100 == 0
    ensures n % 100 == 0 ==> n % 4 == 0
  {
    if n % 400 == 0 {
      DivIs(n, 100, 4 * (n / 400));
    }
    if n % 100 == 0 {
      DivIs(n, 4, 25 * (n / 100));
    }
  }

  lemma {:induction false} Carry(n: int, d: int)
    requires d > 0
    ensures (n + 1) / d - n / d == if (n + 1) % d == 0 then 1 else 0
  {
    var q := n / d;
    if n % d == d - 1 {
      assert n + 1 == (q + 1) * d;
      DivIs(n + 1, d, q + 1);
    } else {
      DivIs(n + 1, d, q);
    }
  }

  // ----- days of a year counted from March ------------------------------------------------------------

  /** Days of the year before its month `mp`, months counted from March. */
  function MonthStart(mp: int): int { (153 * mp + 2) / 5 }

  function MonthNumber(mp: int): int { if mp < 10 then mp + 3 else mp - 9 }

  lemma {:induction false} DateInMonth(y: int, doy: int, mp: int)
    requires 0 <= mp <= 11 && MonthStart(mp) <= doy < MonthStart(mp + 1)
    ensures DateInYear(y, doy) == Date(if mp < 10 then y else y + 1, MonthNumber(mp), doy - MonthStart(mp) + 1)
  {
    DivIs(5 * doy + 2, 153, mp);
  }

  lemma {:induction false} MonthLength(y: int, mp: int)
    requires 0 <= mp <= 10
    ensures MonthStart(mp + 1) - MonthStart(mp) == DaysInMonth(y, MonthNumber(mp))
  {}

  lemma {:induction false} MonthContains(doy: int) returns (mp: int)
    requires 0 <= doy <= 365
    ensures 0 <= mp <= 11 && MonthStart(mp) <= doy < MonthStart(mp + 1)
  {
    mp := (5 * doy + 2) / 153;
  }

  lemma {:induction false} NextInYear(y: int, doy: nat)
    requires doy < (if IsLeap(y + 1) then 365 else 364)
    ensures NextDay(DateInYear(y, doy)) == DateInYear(y, doy + 1)
  {
    hide DateInYear;
    var mp := MonthContains(doy);
    DateInMonth(y, doy, mp);
    if mp < 11 {
      MonthLength(if mp < 10 then y else y + 1, mp);
    }
    if doy + 1 < MonthStart(mp + 1) {
      DateInMonth(y, doy + 1, mp);
    } else {
      DateInMonth(y, doy + 1, mp + 1);
    }
  }

  lemma {:induction false} LastInYear(y: int, doy: nat)
    requires doy == if IsLeap(y + 1) then 365 else 364
    ensures NextDay(DateInYear(y, doy)) == DateInYear(y + 1, 0)
  {}

  // ----- the formula follows the calendar -------------------------------------------------------------

  /** Within an era the formula finds the year that contains the day. */
  lemma {:induction false} FormulaInEra(days: nat, era: nat, doe: nat, yoe: nat)
    requires days + 719468 == era * 146097 + doe && doe < 146097
    requires yoe <= 399 && YearStart(yoe) <= doe < YearStart(yoe + 1)
    ensures EpochDaysToDate(days) == DateInYear(yoe + era * 400, doe - YearStart(yoe))
  {
    hide YearOfEra, DateInYear;
    DivIs(days + 719468, 146097, era);
    YearIsUnique(doe, yoe);
    DivIs(yoe, 400, 0);
  }

  lemma {:induction false} SameRemainder(y: int, k: int, d: int)
    requires d > 0
    ensures (y + k * d) % d == y % d
  {
    var n := y + k * d;
    assert y == y / d * d + y % d;
    assert n == (y / d + k) * d + y % d;
    DivIs(n, d, y / d + k);
    assert n == n / d * d + n % d;
  }

  lemma {:induction false} LeapAgainInEveryEra(y: int, era: int)
    ensures IsLeap(y + era * 400) == IsLeap(y)
  {
    SameRemainder(y, era, 400);
    SameRemainder(y, era * 4, 100);
    SameRemainder(y, era * 100, 4);
  }

  lemma {:induction false} YearStartsGrow(y: nat)
    requires y <= 399
    ensures YearStart(y + 1) < YearStart(y + 2) && YearStart(y + 1) <= 146097
            && (YearStart(y + 1) == 146097 ==> y == 399)
  {}

  lemma {:induction false} EraBounds()
    ensures YearStart(0) == 0 && YearStart(1) == 365 && YearStart(400) == 146097
  {}

  lemma {:induction false} FormulaSteps(days: nat)
    ensures EpochDaysToDate(days + 1) == NextDay(EpochDaysToDate(days))
  {
    hide EpochDaysToDate, NextDay, DateInYear, YearOfEra, YearStart, IsLeap;
    var z := days + 719468;
    var era, doe := z / 146097, z % 146097;
    YearOfEraIsRight(doe);
    EraBounds();
    var yoe := YearOfEra(doe);
    YearLength(yoe);
    LeapAgainInEveryEra(yoe + 1, era);
    YearStartsGrow(yoe);
    FormulaInEra(days, era, doe, yoe);
    var y, doy := yoe + era * 400, doe - YearStart(yoe);
    if doe + 1 < YearStart(yoe + 1) {
      NextInYear(y, doy);
      FormulaInEra(days + 1, era, doe + 1, yoe);
    } else {
      LastInYear(y, doy);
      if yoe == 399 {
        FormulaInEra(days + 1, era + 1, 0, 0);
      } else {
        FormulaInEra(days + 1, era, doe + 1, yoe + 1);
      }
    }
  }

  lemma {:induction false} FormulaStarts()
    ensures EpochDaysToDate(0) == Date(1970, 1, 1)
  {
    assert YearOfEra(135080) == 369;
  }

  /** For every day count the formula gives the date that the calendar reaches by stepping. */
  lemma {:induction false} FormulaIsTheCalendar(days: nat)
    ensures EpochDaysToDate(days) == Stepped(days)
  {
    hide EpochDaysToDate, NextDay;
    FormulaStarts();
    if days > 0 {
      FormulaIsTheCalendar(days - 1);
      FormulaSteps(days - 1);
    }
  }

  ghost predicate Before(a: Date, b: Date) {
    a.year < b.year || (a.year == b.year && (a.month < b.month || (a.month == b.month && a.day < b.day)))
  }

  lemma {:induction false} SteppedDatesExist(days: nat)
    ensures IsDate(Stepped(days))
  {
    if days > 0 {
      SteppedDatesExist(days - 1);
    }
  }

  /** Every date given is a date of the calendar, and later days have later dates; so none occurs twice. */
  lemma {:induction false} DatesAreValidAndIncrease(days: nat, later: nat)
    requires days < later
    ensures IsDate(EpochDaysToDate(days)) && Before(EpochDaysToDate(days), EpochDaysToDate(later))
    decreases later
  {
    hide EpochDaysToDate, Stepped;
    FormulaIsTheCalendar(days);
    SteppedDatesExist(days);
    FormulaSteps(later - 1);
    FormulaIsTheCalendar(later - 1);
    SteppedDatesExist(later - 1);
    if days < later - 1 {
      DatesAreValidAndIncrease(days, later - 1);
    }
  }

  // ----- the second copy ---------------------------------------------------------------------------------

  /** Division as the source's signed integers do it, towards zero. */
  function TruncatedDiv(a: int, b: int): int
    requires b > 0
  {
    if a >= 0 then a / b else -((-a) / b)
  }

  function UtcYmd(secs: nat): Date {
    var z: int := secs / 86400 + 719468;
    var era := TruncatedDiv(if z >= 0 then z else z - 146096, 146097);
    DateInEraTruncated(era, z - era * 146097)
  }

  function DateInEraTruncated(era: int, doe: int): Date {
    var yoe := TruncatedDiv(doe - TruncatedDiv(doe, 1460) + TruncatedDiv(doe, 36524) - TruncatedDiv(doe, 146096), 365);
    var y := yoe + era * 400;
    DateInYearTruncated(y, doe - (365 * yoe + TruncatedDiv(yoe, 4) - TruncatedDiv(yoe, 100)))
  }

  function DateInYearTruncated(y: int, doy: int): Date {
    var mp := TruncatedDiv(5 * doy + 2, 153);
    var d := doy - TruncatedDiv(153 * mp + 2, 5) + 1;
    var m := if mp < 10 then mp + 3 else mp - 9;
    Date(if m <= 2 then y + 1 else y, m, d)
  }

  lemma {:induction false} SameInYear(y: int, doy: nat)
    ensures DateInYearTruncated(y, doy) == DateInYear(y, doy)
  {}

  lemma {:induction false} SameYear(doe: nat)
    ensures TruncatedDiv(doe - TruncatedDiv(doe, 1460) + TruncatedDiv(doe, 36524) - TruncatedDiv(doe, 146096), 365) ==
            YearOfEra(doe)
  {}

  lemma {:induction false} SameInEra(era: int, doe: nat)
    requires doe < 146097
    ensures var yoe := YearOfEra(doe);
            DateInEraTruncated(era, doe) == DateInYear(yoe + era * 400, doe - (365 * yoe + yoe / 4 - yoe / 100))
  {
    hide DateInYear, DateInYearTruncated, YearOfEra;
    YearOfEraIsRight(doe);
    SameYear(doe);
    var yoe := YearOfEra(doe);
    DivIs(yoe, 400, 0);
    SameInYear(yoe + era * 400, doe - YearStart(yoe));
  }

  /** The two copies give the same date for every second. */
  lemma {:induction false} CopiesAgree(secs: nat)
    ensures UtcYmd(secs) == EpochDaysToDate(secs / 86400) == Stepped(secs / 86400)
  {
    hide Stepped, DateInYear, DateInEraTruncated, YearOfEra;
    FormulaIsTheCalendar(secs / 86400);
    var z: nat := secs / 86400 + 719468;
    SameInEra(z / 146097, z - z / 146097 * 146097);
  }
}
