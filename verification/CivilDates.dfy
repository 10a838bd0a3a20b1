/**
  Day numbers since 1970-01-01 and civil dates: the two conversions are inverse,
  and day by day they follow the proleptic Gregorian calendar.
 */
module CivilDates {

  datatype Date = Date(year: int, month: nat, day: int)

  /** Division that truncates toward zero. */
  function TruncDiv(a: int, b: int): int
    requires b > 0
  {
    if a >= 0 then a / b else -(-a / b)
  }

  // ----- the calendar -------------------------------------------------------

  predicate Leap(year: int)
  {
    year % 4 == 0 && (year % 100 != 0 || year % 400 == 0)
  }

  function DaysInMonth(year: int, month: nat): nat
  {
    if month == 2 then (if Leap(year) then 29 else 28)
    else if month == 4 || month == 6 || month == 9 || month == 11 then 30
    else 31
  }

  predicate Valid(d: Date)
  {
    1 <= d.month <= 12 && 1 <= d.day <= DaysInMonth(d.year, d.month)
  }

  function NextDay(d: Date): Date
  {
    if d.day < DaysInMonth(d.year, d.month) then d.(day := d.day + 1)
    else if d.month < 12 then Date(d.year, d.month + 1, 1)
    else Date(d.year + 1, 1, 1)
  }

  // ----- the conversions ----------------------------------------------------

  const EPOCH := 719_468
  const ERA := 146_097

  /** Days before year `yoe` of an era, years counted from March. */
  function YearStart(yoe: nat): nat
  {
    yoe * 365 + yoe / 4 - yoe / 100
  }

  /** Days before month `mp` of a year, months counted from March. */
  function MonthStart(mp: nat): nat
  {
    (153 * mp + 2) / 5
  }

  function YearOfEra(doe: nat): int
  {
    (doe - doe / 1460 + doe / 36_524 - doe / 146_096) / 365
  }

  function CivilFromDays(days: int): Date
  {
    var z := days + EPOCH;
    var era := TruncDiv(if z >= 0 then z else z - 146_096, ERA);
    EraOfDay(z);
    var doe := z - era * ERA;
    var yoe := YearOfEra(doe);
    YearOfEraExact(doe);
    var doy := doe - YearStart(yoe);
    var mp := (5 * doy + 2) / 153;
    var day := doy - MonthStart(mp) + 1;
    var month := if mp < 10 then mp + 3 else mp - 9;
    Date(yoe + era * 400 + if month <= 2 then 1 else 0, month, day)
  }

  function DaysFromCivil(d: Date): int
    requires 1 <= d.month <= 12
  {
    var y := if d.month <= 2 then d.year - 1 else d.year;
    var era := TruncDiv(if y >= 0 then y else y - 399, 400);
    EraOfYear(y);
    var yoe := y - era * 400;
    var doy := MonthStart(if d.month > 2 then d.month - 3 else d.month + 9) + d.day - 1;
    era * ERA + YearStart(yoe) + doy - EPOCH
  }

  // ----- eras ---------------------------------------------------------------

  lemma EraOfDay(z: int)
    ensures var era := TruncDiv(if z >= 0 then z else z - 146_096, ERA); era == z / ERA && 0 <= z - era * ERA < ERA
  {
    if z < 0 {
      var n := -(z - 146_096);
      var q := n / ERA;
      assert q * ERA <= n < q * ERA + ERA;
    }
  }

  lemma EraOfYear(y: int)
    ensures var era := TruncDiv(if y >= 0 then y else y - 399, 400); era == y / 400 && 0 <= y - era * 400 < 400
  {
  }

  // ----- years --------------------------------------------------------------

  /** The length of year `yoe` of an era: it ends with the February of the next civil year. */
  function YearLength(yoe: nat): nat
  {
    if Leap(yoe + 1) then 366 else 365
  }

  /** Year and day in centuries, groups of four years, years and days. */
  predicate Split(yoe: nat, c: nat, q: nat, r: nat)
  {
    yoe == 100 * c + 4 * q + r && c < 4 && q < 25 && r < 4
  }

  lemma SplitFacts(yoe: nat, c: nat, q: nat, r: nat)
    requires Split(yoe, c, q, r)
    ensures YearStart(yoe) == 36_524 * c + 1461 * q + 365 * r
    ensures YearLength(yoe) == if r == 3 && (q != 24 || c == 3) then 366 else 365
  {
    assert yoe / 4 == 25 * c + q;
    assert yoe / 100 == c;
  }

  lemma YearOfEraIs(doe: nat, yoe: nat, c: nat, q: nat, r: nat, doy: nat)
    requires Split(yoe, c, q, r) && doe == 36_524 * c + 1461 * q + 365 * r + doy
    requires doy < if r == 3 && (q != 24 || c == 3) then 366 else 365
    ensures YearOfEra(doe) == yoe
  {
    var inner := 24 * c + q + 365 * r + doy;
    assert doe == 1460 * (25 * c + q) + inner;
    var e := if inner >= 1460 then 1 else 0;
    assert doe / 1460 == 25 * c + q + e;
    var last := if doe == 146_096 then 1 else 0;
    assert doe / 146_096 == last;
    assert doe / 36_524 == c + last;
    assert doe - doe / 1460 + doe / 36_524 - doe / 146_096 == 365 * yoe + (doy - e);
    assert 0 <= doy - e < 365;
  }

  lemma Inside(yoe: nat)
    requires yoe < 400
    ensures Split(yoe, yoe / 100, yoe % 100 / 4, yoe % 4)
  {
  }

  /** The year a day of an era is in. */
  lemma YearOfEraOf(yoe: nat, doy: nat)
    requires yoe < 400 && doy < YearLength(yoe)
    ensures YearOfEra(YearStart(yoe) + doy) == yoe
  {
    hide YearOfEra, YearStart, YearLength, Split;
    Inside(yoe);
    SplitFacts(yoe, yoe / 100, yoe % 100 / 4, yoe % 4);
    YearOfEraIs(YearStart(yoe) + doy, yoe, yoe / 100, yoe % 100 / 4, yoe % 4, doy);
  }

  lemma YearOfEraExact(doe: nat)
    requires doe < ERA
    ensures var yoe := YearOfEra(doe); 0 <= yoe < 400 && YearStart(yoe) <= doe < YearStart(yoe) + YearLength(yoe)
  {
    hide YearOfEra, YearStart, YearLength;
    var c := if doe / 36_524 < 4 then doe / 36_524 else 3;
    var inCentury := doe - 36_524 * c;
    var q := inCentury / 1461;
    var inFour := inCentury - 1461 * q;
    var r := if inFour / 365 < 4 then inFour / 365 else 3;
    var doy := inFour - 365 * r;
    var yoe := 100 * c + 4 * q + r;
    SplitFacts(yoe, c, q, r);
    YearOfEraIs(doe, yoe, c, q, r, doy);
  }

  // ----- months -------------------------------------------------------------

  lemma MonthOfDay(doy: nat)
    requires doy < 366
    ensures var mp := (5 * doy + 2) / 153; mp < 12 && MonthStart(mp) <= doy < MonthStart(mp + 1)
  {
  }

  lemma DayOfMonth(mp: nat, doy: nat)
    requires MonthStart(mp) <= doy < MonthStart(mp + 1)
    ensures (5 * doy + 2) / 153 == mp
  {
  }

  /** Months counted from March have the calendar's lengths; February is what is left of the year. */
  lemma MonthLengths(yoe: nat, era: int, month: nat)
    requires 1 <= month <= 12 && yoe < 400
    ensures var mp := if month > 2 then month - 3 else month + 9;
            var year := yoe + era * 400 + if month <= 2 then 1 else 0;
            && (mp < 11 ==> DaysInMonth(year, month) == MonthStart(mp + 1) - MonthStart(mp))
            && (mp == 11 ==> DaysInMonth(year, month) == YearLength(yoe) - MonthStart(11))
            && MonthStart(mp) + DaysInMonth(year, month) <= YearLength(yoe)
  {
    LeapInEra(yoe + 1, era);
    assert MonthStart(0) == 0 && MonthStart(1) == 31 && MonthStart(2) == 61 && MonthStart(3) == 92
           && MonthStart(4) == 122;
    assert MonthStart(5) == 153 && MonthStart(6) == 184 && MonthStart(7) == 214 && MonthStart(8) == 245
           && MonthStart(9) == 275;
    assert MonthStart(10) == 306 && MonthStart(11) == 337;
  }

  lemma LeapRepeats(y: int)
    ensures Leap(y + 400) == Leap(y)
  {
  }

  lemma {:induction false} LeapInEra(y: int, era: int)
    ensures Leap(y + era * 400) == Leap(y)
    decreases if era >= 0 then era else -era
  {
    hide Leap;
    if era > 0 {
      LeapInEra(y, era - 1);
      LeapRepeats(y + (era - 1) * 400);
    } else if era < 0 {
      LeapInEra(y, era + 1);
      LeapRepeats(y + era * 400);
    }
  }

  // ----- the two are inverse ------------------------------------------------

  lemma DayEraIs(z: int, era: int, doe: int)
    requires z == era * ERA + doe && 0 <= doe < ERA
    ensures z / ERA == era
  {
  }

  lemma YearEraIs(y: int, era: int, yoe: int)
    requires y == era * 400 + yoe && 0 <= yoe < 400
    ensures y / 400 == era
  {
  }

  /** A date in an era, written as days: what each conversion computes on the way. */
  lemma CivilAt(era: int, yoe: nat, mp: nat, day: int)
    requires yoe < 400 && mp < 12 && 1 <= day
    requires MonthStart(mp) + day - 1 < YearLength(yoe) && (mp < 11 ==> MonthStart(mp) + day - 1 < MonthStart(mp + 1))
    ensures var days := era * ERA + YearStart(yoe) + MonthStart(mp) + day - 1 - EPOCH;
            var month := if mp < 10 then mp + 3 else mp - 9;
            CivilFromDays(days) == Date(yoe + era * 400 + if month <= 2 then 1 else 0, month, day)
  {
    hide YearOfEra, YearStart, YearLength, MonthStart, TruncDiv;
    var doy := MonthStart(mp) + day - 1;
    var doe := YearStart(yoe) + doy;
    var z := era * ERA + doe;
    YearOfEraOf(yoe, doy);
    InEra(yoe, doy);
    DayEraIs(z, era, doe);
    EraOfDay(z);
    LastMonth(yoe, mp, doy);
    DayOfMonth(mp, doy);
  }

  lemma InEra(yoe: nat, doy: nat)
    requires yoe < 400 && doy < YearLength(yoe)
    ensures YearStart(yoe) + doy < ERA
  {
    hide YearStart, YearLength, Split;
    Inside(yoe);
    SplitFacts(yoe, yoe / 100, yoe % 100 / 4, yoe % 4);
    EraBound(yoe, yoe / 100, yoe % 100 / 4, yoe % 4);
  }

  lemma EraBound(yoe: nat, c: nat, q: nat, r: nat)
    requires Split(yoe, c, q, r)
    ensures 36_524 * c + 1461 * q + 365 * r + (if r == 3 && (q != 24 || c == 3) then 366 else 365) <= ERA
  {
  }

  lemma LastMonth(yoe: nat, mp: nat, doy: nat)
    requires mp < 12 && doy < YearLength(yoe) && (mp < 11 ==> doy < MonthStart(mp + 1))
    ensures doy < MonthStart(mp + 1)
  {
  }

  /** A date converted to a day number and back is the date, for every valid date. */
  lemma DateRoundTrip(d: Date)
    requires Valid(d)
    ensures CivilFromDays(DaysFromCivil(d)) == d
  {
    hide YearStart, YearLength, MonthStart, TruncDiv, Leap, CivilFromDays;
    var y := if d.month <= 2 then d.year - 1 else d.year;
    var era := TruncDiv(if y >= 0 then y else y - 399, 400);
    EraOfYear(y);
    var yoe := y - era * 400;
    var mp := if d.month > 2 then d.month - 3 else d.month + 9;
    MonthLengths(yoe, era, d.month);
    CivilAt(era, yoe, mp, d.day);
  }

  /** A day number converted to a date and back is the day number, for every day number; the date is a valid one. */
  lemma DayRoundTrip(days: int)
    ensures Valid(CivilFromDays(days)) && DaysFromCivil(CivilFromDays(days)) == days
  {
    hide YearOfEra, YearStart, YearLength, MonthStart, TruncDiv, Leap;
    var z := days + EPOCH;
    var era := TruncDiv(if z >= 0 then z else z - 146_096, ERA);
    EraOfDay(z);
    var doe := z - era * ERA;
    var yoe := YearOfEra(doe);
    YearOfEraExact(doe);
    var doy := doe - YearStart(yoe);
    LengthBound(yoe);
    MonthOfDay(doy);
    var mp := (5 * doy + 2) / 153;
    var month := if mp < 10 then mp + 3 else mp - 9;
    MonthLengths(yoe, era, month);
    YearEraIs(yoe + era * 400, era, yoe);
    EraOfYear(yoe + era * 400);
  }

  lemma LengthBound(yoe: nat)
    ensures YearLength(yoe) <= 366
  {
  }

  // ----- day by day ---------------------------------------------------------

  lemma YearGrows(yoe: nat)
    requires yoe < 400
    ensures yoe < 399 ==> YearStart(yoe + 1) == YearStart(yoe) + YearLength(yoe)
    ensures yoe == 399 ==> YearStart(yoe) + YearLength(yoe) == ERA
  {
  }

  lemma NextIsOneMore(d: Date)
    requires Valid(d)
    ensures Valid(NextDay(d)) && DaysFromCivil(NextDay(d)) == DaysFromCivil(d) + 1
  {
    hide YearStart, YearLength, MonthStart, TruncDiv, Leap;
    var y := if d.month <= 2 then d.year - 1 else d.year;
    var era := TruncDiv(if y >= 0 then y else y - 399, 400);
    EraOfYear(y);
    var yoe := y - era * 400;
    MonthLengths(yoe, era, d.month);
    FirstMonth();
    if d.day == DaysInMonth(d.year, d.month) && d.month == 2 {
      YearGrows(yoe);
      EraOfYear(y + 1);
      if yoe < 399 {
        YearEraIs(y + 1, era, yoe + 1);
      } else {
        YearEraIs(y + 1, era + 1, 0);
        ZeroYear();
      }
    }
  }

  lemma FirstMonth()
    ensures MonthStart(0) == 0
  {
  }

  lemma ZeroYear()
    ensures YearStart(0) == 0
  {
  }

  /** Day 0 is 1970-01-01, and each day number is the calendar's next day after the one before. */
  lemma FollowsCalendar(days: int)
    ensures CivilFromDays(0) == Date(1970, 1, 1)
    ensures CivilFromDays(days + 1) == NextDay(CivilFromDays(days))
  {
    hide CivilFromDays, DaysFromCivil, NextDay;
    Epoch();
    DayRoundTrip(days);
    NextIsOneMore(CivilFromDays(days));
    DateRoundTrip(NextDay(CivilFromDays(days)));
  }

  lemma Epoch()
    ensures CivilFromDays(0) == Date(1970, 1, 1)
  {
    var d := Date(1970, 1, 1);
    assert DaysFromCivil(d) == 0;
    DateRoundTrip(d);
  }
}
