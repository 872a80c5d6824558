/** Days since 1970-01-01 to proleptic Gregorian dates and back.
    The two directions live in different source files and are documented as inverses. */
module Calendar {
  import opened Arithmetic

  /** Integer division as the source's `i64` performs it: rounded toward zero. */
  function TruncDiv(a: int, b: int): int
    requires b > 0
  {
    if a >= 0 then a / b else -((-a) / b)
  }

  /** The remainder that belongs to TruncDiv: it takes the sign of the dividend. */
  function TruncMod(a: int, b: int): int
    requires b > 0
  {
    a - b * TruncDiv(a, b)
  }

  /** The correction the source applies before dividing turns truncation into floor. */
  function EraOf(x: int, length: int): int
    requires length > 0
  {
    TruncDiv(if x >= 0 then x else x - (length - 1), length)
  }

  lemma EraIsFloor(x: int, length: int)
    requires length > 0
    ensures EraOf(x, length) == x / length
    ensures EraOf(x, length) * length <= x < EraOf(x, length) * length + length
  {
    if x < 0 {
      var y := -(x - (length - 1));
      var q := y / length;
      assert length * q <= y < length * q + length;
      FloorUnique(x, -q, length);
    }
  }

  datatype Date = Date(y: int, m: int, d: int)

  function CivilFromDays(days: int): Date {
    var z := days + 719468;
    var era := EraOf(z, 146097);
    CivilInEra(era, z - era * 146097)
  }

  /** The part of the computation that works inside one era, on its day `doe`. */
  function CivilInEra(era: int, doe: int): Date {
    var yoe := TruncDiv(doe - TruncDiv(doe, 1460) + TruncDiv(doe, 36524) - TruncDiv(doe, 146096), 365);
    var doy := doe - (365 * yoe + TruncDiv(yoe, 4) - TruncDiv(yoe, 100));
    CivilInYear(yoe + era * 400, doy)
  }

  function CivilInYear(y: int, doy: int): Date {
    var mp := TruncDiv(5 * doy + 2, 153);
    var d := doy - TruncDiv(153 * mp + 2, 5) + 1;
    var m := if mp < 10 then mp + 3 else mp - 9;
    Date(if m <= 2 then y + 1 else y, m, d)
  }

  function DaysFromCivil(y0: int, m: int, d: int): int {
    var y := if m <= 2 then y0 - 1 else y0;
    var era := EraOf(y, 400);
    era * 146097 + DayOfEra(y - era * 400, m, d) - 719468
  }

  function DayOfEra(yoe: int, m: int, d: int): int {
    var mp := TruncMod(m + 9, 12);
    var doy := TruncDiv(153 * mp + 2, 5) + d - 1;
    yoe * 365 + TruncDiv(yoe, 4) - TruncDiv(yoe, 100) + doy
  }

  // ---------------------------------------------------------------------------
  // The calendar itself, from RFC 3339: month lengths of section 5.7 and the
  // leap-year rule of Appendix C.
  // ---------------------------------------------------------------------------

  predicate IsLeap(y: int) {
    y % 4 == 0 && (y % 100 != 0 || y % 400 == 0)
  }

  function MonthLength(y: int, m: int): int
    requires 1 <= m <= 12
  {
    if m == 2 then (if IsLeap(y) then 29 else 28)
    else if m == 4 || m == 6 || m == 9 || m == 11 then 30
    else 31
  }

  predicate IsDate(date: Date) {
    1 <= date.m <= 12 && 1 <= date.d <= MonthLength(date.y, date.m)
  }

  function NextDate(date: Date): (next: Date)
    requires IsDate(date)
    ensures IsDate(next)
  {
    if date.d < MonthLength(date.y, date.m) then date.(d := date.d + 1)
    else if date.m < 12 then Date(date.y, date.m + 1, 1)
    else Date(date.y + 1, 1, 1)
  }

  // ---------------------------------------------------------------------------
  // Inside one 400-year era, years starting in March.
  // ---------------------------------------------------------------------------

  /** Days of the era that precede March-based year `yoe`. */
  function YearStart(yoe: nat): nat {
    365 * yoe + yoe / 4 - yoe / 100
  }

  /** Days of a March-based year that precede its month `mp` (0 is March). */
  function MonthStart(mp: nat): nat {
    (153 * mp + 2) / 5
  }

  function YearOfEra(doe: nat): int {
    (doe - doe / 1460 + doe / 36524 - doe / 146096) / 365
  }

  /** Length of March-based year `yoe`: 366 when the February it ends with is leap. */
  function YearLength(yoe: nat): nat {
    if (yoe + 1) % 4 == 0 && ((yoe + 1) % 100 != 0 || (yoe + 1) % 400 == 0) then 366 else 365
  }

  lemma NextYearStart(yoe: nat)
    requires yoe < 400
    ensures YearStart(yoe + 1) == YearStart(yoe) + YearLength(yoe) - (if yoe == 399 then 1 else 0)
  {
  }

  /** Both quotients that correct for century years together count the centuries. */
  lemma CenturiesOf(c: nat, dc: nat, doe: nat)
    requires c < 4 && dc < 36524 + (if c == 3 then 1 else 0) && doe == 36524 * c + dc
    ensures doe / 36524 - doe / 146096 == c
  {
  }

  /** The first quotient counts the four-year periods, one too many late in a period. */
  lemma QuadsOf(q: nat, r: nat, doe: nat)
    requires r < 2920 && doe == 1460 * q + r
    ensures doe / 1460 == q + (if r < 1460 then 0 else 1)
  {
  }

  /** A day in year `i` of four-year period `j` of century `c`; only a leap year has a day 365. */
  lemma YearOfParts(c: nat, j: nat, i: nat, doy: nat, doe: nat)
    requires c < 4 && j < 25 && i < 4 && doy <= 365 && (doy == 365 ==> i == 3 && (j < 24 || c == 3))
    requires doe == 36524 * c + 1461 * j + 365 * i + doy
    ensures YearOfEra(doe) == 100 * c + 4 * j + i
  {
    CenturiesOf(c, 1461 * j + 365 * i + doy, doe);
    var q, r := 25 * c + j, 24 * c + j + 365 * i + doy;
    QuadsOf(q, r, doe);
    YearOfDay(100 * c + 4 * j + i, doy - (if r < 1460 then 0 else 1), doe - doe / 1460 + c);
  }

  lemma YearOfDay(y: nat, rest: int, day: int)
    requires 0 <= rest < 365 && day == 365 * y + rest
    ensures day / 365 == y
  {
  }

  lemma PartsOfYear(yoe: nat, doy: nat) returns (c: nat, j: nat, i: nat)
    requires yoe < 400 && doy < YearLength(yoe)
    ensures c < 4 && j < 25 && i < 4 && yoe == 100 * c + 4 * j + i
    ensures YearStart(yoe) == 36524 * c + 1461 * j + 365 * i
    ensures doy <= 365 && (doy == 365 ==> i == 3 && (j < 24 || c == 3))
  {
    c, j, i := yoe / 100, yoe % 100 / 4, yoe % 4;
  }

  lemma YearOfEraCorrect(yoe: nat, doy: nat)
    requires yoe < 400 && doy < YearLength(yoe)
    ensures YearOfEra(YearStart(yoe) + doy) == yoe
  {
    var c, j, i := PartsOfYear(yoe, doy);
    YearOfParts(c, j, i, doy, YearStart(yoe) + doy);
  }

  /** Every day of the era lies in one of its years. */
  lemma YearOfEraBounds(doe: nat) returns (yoe: nat, doy: nat)
    requires doe < 146097
    ensures yoe < 400 && doy < YearLength(yoe) && doe == YearStart(yoe) + doy
  {
    yoe := 0;
    while yoe < 399 && YearStart(yoe + 1) <= doe
      invariant yoe < 400 && YearStart(yoe) <= doe
    {
      yoe := yoe + 1;
    }
    NextYearStart(yoe);
    doy := doe - YearStart(yoe);
  }

  /** The month of a March-based year, as the source computes it from the day. */
  lemma MonthOfYear(mp: nat, d: nat)
    requires mp < 12 && 1 <= d && MonthStart(mp) + d - 1 < (if mp == 11 then 366 else MonthStart(mp + 1))
    ensures (5 * (MonthStart(mp) + d - 1) + 2) / 153 == mp
  {
  }

  lemma MonthOfDay(doy: nat) returns (mp: nat, d: nat)
    requires doy < 366
    ensures mp < 12 && 1 <= d && doy == MonthStart(mp) + d - 1
    ensures doy < (if mp == 11 then 366 else MonthStart(mp + 1))
  {
    mp := 0;
    while mp < 11 && MonthStart(mp + 1) <= doy
      invariant mp < 12 && MonthStart(mp) <= doy
    {
      mp := mp + 1;
    }
    d := doy - MonthStart(mp) + 1;
  }

  // ---------------------------------------------------------------------------
  // Dates in era form, and the two functions seen through it.
  // ---------------------------------------------------------------------------

  /** A date is `era` periods of 400 years, a March-based year, a month and a day. */
  function FromEra(era: int, yoe: nat, mp: nat, d: int): Date {
    var m := if mp < 10 then mp + 3 else mp - 9;
    Date(400 * era + yoe + (if m <= 2 then 1 else 0), m, d)
  }

  /** The day number of the date in era form. */
  function EraDays(era: int, yoe: nat, mp: nat, d: int): int {
    era * 146097 + YearStart(yoe) + MonthStart(mp) + d - 1 - 719468
  }

  lemma MonthLengthFromEra(era: int, yoe: nat, mp: nat)
    requires yoe < 400 && mp < 12
    ensures var date := FromEra(era, yoe, mp, 1);
            MonthLength(date.y, date.m) ==
            (if mp == 11 then YearLength(yoe) else MonthStart(mp + 1)) - MonthStart(mp)
  {
    if mp == 11 {
      LeapInEra(era, yoe);
    }
  }

  lemma ModOfMultiple4(k: int, b: nat)
    ensures (4 * k + b) % 4 == b % 4
  {
  }

  lemma ModOfMultiple100(k: int, b: nat)
    ensures (100 * k + b) % 100 == b % 100
  {
  }

  lemma ModOfMultiple400(k: int, b: nat)
    ensures (400 * k + b) % 400 == b % 400
  {
  }

  lemma LeapInEra(era: int, yoe: nat)
    requires yoe < 400
    ensures IsLeap(400 * era + yoe + 1) <==> YearLength(yoe) == 366
  {
    ModOfMultiple4(100 * era, yoe + 1);
    ModOfMultiple100(4 * era, yoe + 1);
    ModOfMultiple400(era, yoe + 1);
  }

  lemma EraForm(date: Date) returns (era: int, yoe: nat, mp: nat)
    requires IsDate(date)
    ensures yoe < 400 && mp < 12 && date == FromEra(era, yoe, mp, date.d)
    ensures MonthStart(mp) + date.d - 1 < (if mp == 11 then YearLength(yoe) else MonthStart(mp + 1))
  {
    var y := if date.m <= 2 then date.y - 1 else date.y;
    era, yoe := y / 400, y % 400;
    mp := if date.m <= 2 then date.m + 9 else date.m - 3;
    MonthLengthFromEra(era, yoe, mp);
  }

  lemma DaysFromEra(date: Date, era: int, yoe: nat, mp: nat)
    requires yoe < 400 && mp < 12 && date.d >= 1 && date == FromEra(era, yoe, mp, date.d)
    ensures DaysFromCivil(date.y, date.m, date.d) == EraDays(era, yoe, mp, date.d)
  {
    EraIsFloor(400 * era + yoe, 400);
    FloorUnique(400 * era + yoe, era, 400);
    DayOfEraForm(yoe, mp, date.m, date.d);
  }

  lemma DayOfEraForm(yoe: nat, mp: nat, m: int, d: int)
    requires mp < 12 && m == (if mp < 10 then mp + 3 else mp - 9)
    ensures DayOfEra(yoe, m, d) == YearStart(yoe) + MonthStart(mp) + d - 1
  {
  }

  lemma CivilInYearForm(y: int, mp: nat, d: int)
    requires mp < 12 && d >= 1
    requires MonthStart(mp) + d - 1 < (if mp == 11 then 366 else MonthStart(mp + 1))
    ensures var m := if mp < 10 then mp + 3 else mp - 9;
            CivilInYear(y, MonthStart(mp) + d - 1) == Date(if m <= 2 then y + 1 else y, m, d)
  {
    MonthOfYear(mp, d);
  }

  lemma TruncIsFloor(a: int, b: int)
    requires a >= 0 && b > 0
    ensures TruncDiv(a, b) == a / b
  {
  }

  /** Inside an era nothing is negative, so truncation does no harm. */
  lemma YearOfEraTruncated(doe: nat)
    ensures TruncDiv(doe - TruncDiv(doe, 1460) + TruncDiv(doe, 36524) - TruncDiv(doe, 146096), 365) == YearOfEra(doe)
  {
    assert doe / 1460 <= doe && doe / 146096 <= doe / 36524;
    TruncIsFloor(doe - doe / 1460 + doe / 36524 - doe / 146096, 365);
  }

  lemma CivilInEraForm(era: int, yoe: nat, doy: nat, doe: nat)
    requires YearOfEra(doe) == yoe && doe == YearStart(yoe) + doy
    ensures CivilInEra(era, doe) == CivilInYear(yoe + era * 400, doy)
  {
    YearOfEraTruncated(doe);
    YearStartTruncated(yoe);
  }

  lemma YearStartTruncated(yoe: nat)
    ensures 365 * yoe + TruncDiv(yoe, 4) - TruncDiv(yoe, 100) == YearStart(yoe)
  {
  }

  lemma CivilFromEra(era: int, yoe: nat, mp: nat, d: int)
    requires yoe < 400 && mp < 12 && d >= 1
    requires MonthStart(mp) + d - 1 < (if mp == 11 then YearLength(yoe) else MonthStart(mp + 1))
    ensures CivilFromDays(EraDays(era, yoe, mp, d)) == FromEra(era, yoe, mp, d)
  {
    MonthInYear(mp, d, YearLength(yoe));
    FromEraDay(era, yoe, mp, d, MonthStart(mp) + d - 1, EraDays(era, yoe, mp, d));
  }

  lemma FromEraDay(era: int, yoe: nat, mp: nat, d: int, doy: nat, days: int)
    requires yoe < 400 && mp < 12 && d >= 1 && doy < YearLength(yoe) && doy == MonthStart(mp) + d - 1
    requires doy < (if mp == 11 then 366 else MonthStart(mp + 1))
    requires days == era * 146097 + YearStart(yoe) + doy - 719468
    ensures CivilFromDays(days) == FromEra(era, yoe, mp, d)
  {
    CivilFromYearDay(days, era, yoe, doy);
    CivilInYearForm(yoe + era * 400, mp, d);
  }

  lemma CivilFromYearDay(days: int, era: int, yoe: nat, doy: nat)
    requires yoe < 400 && doy < YearLength(yoe)
    requires days == era * 146097 + YearStart(yoe) + doy - 719468
    ensures CivilFromDays(days) == CivilInYear(yoe + era * 400, doy)
  {
    var doe := YearStart(yoe) + doy;
    DoeInEra(yoe, doy);
    YearOfEraCorrect(yoe, doy);
    CivilFromDaysForm(days, era, doe);
    CivilInEraForm(era, yoe, doy, doe);
  }

  lemma CivilFromDaysForm(days: int, era: int, doe: nat)
    requires doe < 146097 && days == era * 146097 + doe - 719468
    ensures CivilFromDays(days) == CivilInEra(era, doe)
  {
    EraIsFloor(days + 719468, 146097);
    FloorUnique(days + 719468, era, 146097);
  }

  lemma MonthInYear(mp: nat, d: int, length: nat)
    requires mp < 12 && d >= 1 && 365 <= length <= 366
    requires MonthStart(mp) + d - 1 < (if mp == 11 then length else MonthStart(mp + 1))
    ensures MonthStart(mp) + d - 1 < length
  {
  }

  lemma DoeInEra(yoe: nat, doy: nat)
    requires yoe < 400 && doy < YearLength(yoe)
    ensures YearStart(yoe) + doy < 146097
  {
    NextYearStart(yoe);
    if yoe < 399 { YearStartMonotone(yoe + 1, 399); }
  }

  lemma YearStartMonotone(a: nat, b: nat)
    requires a <= b < 400
    ensures YearStart(a) <= YearStart(b)
  {
  }

  // ---------------------------------------------------------------------------
  // Main results
  // ---------------------------------------------------------------------------

  /** Every valid date survives the trip through day numbers, in any year, negative ones included. */
  lemma CivilOfDaysOf(date: Date)
    requires IsDate(date)
    ensures CivilFromDays(DaysFromCivil(date.y, date.m, date.d)) == date
  {
    var era, yoe, mp := EraForm(date);
    DaysFromEra(date, era, yoe, mp);
    CivilFromEra(era, yoe, mp, date.d);
  }

  /** Every day number names a valid date and survives the trip back. */
  lemma DaysOfCivilOf(days: int)
    ensures IsDate(CivilFromDays(days))
    ensures var date := CivilFromDays(days); DaysFromCivil(date.y, date.m, date.d) == days
  {
    var era, yoe, mp, d := EraFormOfDays(days);
    CivilFromEra(era, yoe, mp, d);
    DaysFromEra(FromEra(era, yoe, mp, d), era, yoe, mp);
  }

  lemma EraFormOfDays(days: int) returns (era: int, yoe: nat, mp: nat, d: int)
    ensures yoe < 400 && mp < 12 && d >= 1
    ensures MonthStart(mp) + d - 1 < (if mp == 11 then YearLength(yoe) else MonthStart(mp + 1))
    ensures days == EraDays(era, yoe, mp, d)
    ensures IsDate(FromEra(era, yoe, mp, d))
  {
    era := (days + 719468) / 146097;
    var doy;
    yoe, doy := YearOfEraBounds(days + 719468 - era * 146097);
    mp, d := MonthOfDay(doy);
    MonthLengthFromEra(era, yoe, mp);
  }

  /** Day numbers follow the calendar: the next date is exactly one day later. */
  lemma NextDayIsOneMore(date: Date)
    requires IsDate(date)
    ensures var next := NextDate(date);
            DaysFromCivil(next.y, next.m, next.d) == DaysFromCivil(date.y, date.m, date.d) + 1
  {
    var era, yoe, mp := EraForm(date);
    var era', yoe', mp' := NextEraForm(date, era, yoe, mp);
    DaysFromEra(date, era, yoe, mp);
    DaysFromEra(NextDate(date), era', yoe', mp');
  }

  lemma NextEraForm(date: Date, era: int, yoe: nat, mp: nat) returns (era': int, yoe': nat, mp': nat)
    requires IsDate(date) && yoe < 400 && mp < 12 && date == FromEra(era, yoe, mp, date.d)
    ensures yoe' < 400 && mp' < 12
    ensures NextDate(date) == FromEra(era', yoe', mp', NextDate(date).d)
    ensures EraDays(era', yoe', mp', NextDate(date).d) == EraDays(era, yoe, mp, date.d) + 1
  {
    era', yoe', mp' := era, yoe, mp;
    if date.d == MonthLength(date.y, date.m) {
      MonthLengthFromEra(era, yoe, mp);
      if mp < 11 {
        mp' := mp + 1;
        NextMonth(era, yoe, mp, date.d);
        MonthTurns(date, era, yoe, mp);
      } else {
        mp' := 0;
        FebruaryTurns(date, era, yoe);
        if yoe < 399 {
          yoe' := yoe + 1;
          NextYear(era, yoe, date.d);
        } else {
          era', yoe' := era + 1, 0;
          NextEra(era, date.d);
        }
      }
    }
  }

  lemma MonthTurns(date: Date, era: int, yoe: nat, mp: nat)
    requires mp < 11 && date == FromEra(era, yoe, mp, date.d) && date.d == MonthLength(date.y, date.m)
    ensures NextDate(date) == FromEra(era, yoe, mp + 1, 1)
  {
  }

  lemma FebruaryTurns(date: Date, era: int, yoe: nat)
    requires yoe < 400 && date == FromEra(era, yoe, 11, date.d) && date.d == MonthLength(date.y, date.m)
    ensures NextDate(date) == if yoe < 399 then FromEra(era, yoe + 1, 0, 1) else FromEra(era + 1, 0, 0, 1)
  {
  }

  /** From the last day of a month to the first of the next one of the March-based year. */
  lemma NextMonth(era: int, yoe: nat, mp: nat, d: int)
    requires yoe < 400 && mp < 11 && d == MonthStart(mp + 1) - MonthStart(mp)
    ensures EraDays(era, yoe, mp + 1, 1) == EraDays(era, yoe, mp, d) + 1
  {
  }

  /** From the last day of a March-based year to the first of the next one. */
  lemma NextYear(era: int, yoe: nat, d: int)
    requires yoe < 399 && d == YearLength(yoe) - MonthStart(11)
    ensures EraDays(era, yoe + 1, 0, 1) == EraDays(era, yoe, 11, d) + 1
  {
    NextYearStart(yoe);
  }

  /** From the last day of an era to the first of the next one. */
  lemma NextEra(era: int, d: int)
    requires d == YearLength(399) - MonthStart(11)
    ensures EraDays(era + 1, 0, 0, 1) == EraDays(era, 399, 11, d) + 1
  {
  }

  lemma EpochIsZero()
    ensures DaysFromCivil(1970, 1, 1) == 0
  {
  }
}
