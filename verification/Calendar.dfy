/**
 * Dates of the FIX engine: Julian day numbers to and from Gregorian dates, and the weekday.
 * Integer division is C++'s, which truncates toward zero.
 */
module Calendar {
  import PreciseNumber

  function Quot(a: int, b: int): int
    requires b > 0
  {
    if a >= 0 then a / b else -(-a / b)
  }

  function Rem(a: int, b: int): int
    requires b > 0
  {
    a - Quot(a, b) * b
  }

  datatype Date = Date(year: int, month: int, day: int)

  function JulianDate(year: int, month: int, day: int): int {
    var a := Quot(14 - month, 12);
    var y := year + 4800 - a;
    var m := month + 12 * a - 3;
    day + Quot(153 * m + 2, 5) + y * 365 + Quot(y, 4) - Quot(y, 100) + Quot(y, 400) - 32045
  }

  function GetYMD(jday: int): Date {
    var a := jday + 32044;
    var b := Quot(4 * a + 3, 146097);
    var c := a - Quot(b * 146097, 4);
    var d := Quot(4 * c + 3, 1461);
    var e := c - Quot(1461 * d, 4);
    var m := Quot(5 * e + 2, 153);
    Date(b * 100 + d - 4800 + Quot(m, 10), m + 3 - 12 * Quot(m, 10), e - Quot(153 * m + 2, 5) + 1)
  }

  // int(2.6*m - 0.2) is read as (13m - 1)/5.
  function GetWeekDay(jday: int): int { WeekDayOf(GetYMD(jday)) }

  function WeekDayOf(date: Date): int {
    var Date(year, month, day) := date;
    var m := if month >= 3 then month - 2 else month + 10;
    var y' := if month >= 3 then year else year - 1;
    var y, c := Rem(y', 100), Quot(y', 100);
    var wd := Rem(day + Quot(13 * m - 1, 5) + y + Quot(y, 4) + Quot(c, 4) - 2 * c, 7);
    1 + if wd < 0 then 7 + wd else wd
  }

  // ----- the Gregorian calendar -----

  predicate Leap(year: int) { year % 4 == 0 && (year % 100 != 0 || year % 400 == 0) }

  function DaysIn(year: int, month: int): int {
    if month == 2 then (if Leap(year) then 29 else 28)
    else if month == 4 || month == 6 || month == 9 || month == 11 then 30
    else 31
  }

  // Dates from 1 March -4800 on.
  predicate Valid(d: Date) {
    && 1 <= d.month <= 12 && 1 <= d.day <= DaysIn(d.year, d.month)
    && (d.year > -4800 || (d.year == -4800 && d.month >= 3))
  }

  // ----- the shifted calendar: years start on 1 March, year 0 is -4800 -----

  // Days of the shifted year before month m, and the length of the shifted year.
  function MonthStart(m: nat): nat { (153 * m + 2) / 5 }

  function LongYear(century: nat, yearInCentury: nat): nat {
    if yearInCentury % 4 == 3 && (yearInCentury != 99 || century % 4 == 3) then 1 else 0
  }

  function CenturyStart(b: nat): nat { 146097 * b / 4 }

  function YearStart(r: nat): nat { 1461 * r / 4 }

  lemma CenturyOf(b: nat, c: nat)
    requires c <= 36523 + (if b % 4 == 3 then 1 else 0)
    ensures (4 * (CenturyStart(b) + c) + 3) / 146097 == b
  {
    assert 4 * CenturyStart(b) == 146097 * b - b % 4;
  }

  lemma CenturyBounds(a: nat)
    ensures var b := (4 * a + 3) / 146097;
      CenturyStart(b) <= a <= CenturyStart(b) + 36523 + (if b % 4 == 3 then 1 else 0)
  {
    var b := (4 * a + 3) / 146097;
    assert 4 * CenturyStart(b) == 146097 * b - b % 4;
  }

  lemma YearOf(r: nat, e: nat)
    requires e <= 364 + (if r % 4 == 3 then 1 else 0)
    ensures (4 * (YearStart(r) + e) + 3) / 1461 == r
  {
    assert 4 * YearStart(r) == 1461 * r - r % 4;
  }

  lemma YearBounds(c: nat)
    ensures var r := (4 * c + 3) / 1461;
      YearStart(r) <= c <= YearStart(r) + 364 + (if r % 4 == 3 then 1 else 0)
  {
    var r := (4 * c + 3) / 1461;
    assert 4 * YearStart(r) == 1461 * r - r % 4;
  }

  lemma MonthOf(m: nat, day: nat)
    requires m <= 11 && 1 <= day && (m < 11 ==> day <= MonthStart(m + 1) - MonthStart(m)) && (m == 11 ==> day <= 29)
    ensures (5 * (MonthStart(m) + day - 1) + 2) / 153 == m
  {
  }

  lemma MonthBounds(e: nat)
    requires e <= 365
    ensures var m := (5 * e + 2) / 153;
      m <= 11 && MonthStart(m) <= e && (m < 11 ==> e < MonthStart(m + 1))
  {
  }

  // Days from the epoch to the start of shifted year y, by centuries.
  lemma YearsSplit(y: nat)
    ensures y * 365 + y / 4 - y / 100 + y / 400 == CenturyStart(y / 100) + YearStart(y % 100)
  {
    var b, r := y / 100, y % 100;
    assert y == 100 * b + r;
    assert y / 4 == 25 * b + r / 4 && y / 400 == b / 4;
    assert CenturyStart(b) == 36524 * b + b / 4 && YearStart(r) == 365 * r + r / 4;
  }

  // Month m of shifted year y, as the calendar knows it.
  function Unshift(y: int, m: int, day: int): Date {
    if m >= 10 then Date(y - 4799, m - 9, day) else Date(y - 4800, m + 3, day)
  }

  lemma ShiftedRemainder(n: int, d: int, q: int)
    requires d > 0
    ensures (n - q * d) % d == n % d
  {
    assert n == n / d * d + n % d;
    assert n - q * d == (n / d - q) * d + n % d;
    PreciseNumber.RemainderUnique(n - q * d, d, n / d - q, n % d);
  }

  lemma LeapShift(n: int)
    ensures Leap(n - 4800) <==> Leap(n)
  {
    ShiftedRemainder(n, 4, 1200);
    ShiftedRemainder(n, 100, 48);
    ShiftedRemainder(n, 400, 12);
  }

  lemma LongYearIsLeap(y: nat)
    ensures LongYear(y / 100, y % 100) == 1 <==> Leap(y - 4799)
  {
    LeapShift(y + 1);
    hide Leap;
    CenturyLeap(y / 100, y % 100);
    assert y + 1 == 100 * (y / 100) + y % 100 + 1;
  }

  lemma CenturyLeap(b: nat, r: nat)
    requires r <= 99
    ensures LongYear(b, r) == 1 <==> Leap(100 * b + r + 1)
  {
    var n := 100 * b + r + 1;
    Modulo4(n, 25 * b, r + 1);
    if r == 99 {
      var q := (b + 1) / 4;
      assert b + 1 == 4 * q + (b + 1) % 4;
      Modulo100(n, b + 1, 0);
      Modulo400(n, q, 100 * ((b + 1) % 4));
    } else {
      Modulo100(n, b, r + 1);
    }
  }

  lemma UnshiftedLength(y: nat, m: nat)
    requires m <= 11
    ensures var d := Unshift(y, m, 1);
      DaysIn(d.year, d.month) == if m == 11 then 28 + LongYear(y / 100, y % 100) else MonthStart(m + 1) - MonthStart(m)
  {
    LongYearIsLeap(y);
  }

  // Every valid date is a day of a shifted month.
  lemma Shift(d: Date) returns (y: nat, m: nat)
    requires Valid(d)
    ensures m <= 11 && d == Unshift(y, m, d.day)
  {
    if d.month >= 3 {
      y, m := d.year + 4800, d.month - 3;
    } else {
      y, m := d.year + 4799, d.month + 9;
    }
  }

  lemma JulianOfShifted(y: nat, m: nat, day: int)
    requires m <= 11
    ensures var d := Unshift(y, m, day);
      JulianDate(d.year, d.month, d.day) + 32044 == CenturyStart(y / 100) + YearStart(y % 100) + MonthStart(m) + day - 1
  {
    YearsSplit(y);
    QuotOfNat(y, 4);
    QuotOfNat(y, 100);
    QuotOfNat(y, 400);
    QuotOfNat(153 * m + 2, 5);
    var d := Unshift(y, m, day);
    QuotOfNat(14 - d.month, 12);
    hide Quot, CenturyStart, YearStart;
    assert Quot(14 - d.month, 12) == if m >= 10 then 1 else 0;
  }

  lemma QuotOfNat(a: nat, b: nat)
    requires b > 0
    ensures Quot(a, b) == a / b
  {
  }

  lemma StartsAreQuots(b: nat, r: nat, m: nat)
    requires m <= 11
    ensures Quot(b * 146097, 4) == CenturyStart(b) && Quot(1461 * r, 4) == YearStart(r)
    ensures Quot(153 * m + 2, 5) == MonthStart(m) && Quot(m, 10) == if m >= 10 then 1 else 0
  {
    QuotOfNat(b * 146097, 4);
    QuotOfNat(1461 * r, 4);
    QuotOfNat(153 * m + 2, 5);
    QuotOfNat(m, 10);
    hide Quot;
  }

  // The conversion, given where the day lies.
  lemma GetYMDSteps(b: nat, r: nat, m: nat, day: nat)
    requires m <= 11 && 1 <= day
    requires (4 * (CenturyStart(b) + YearStart(r) + MonthStart(m) + day - 1) + 3) / 146097 == b
    requires (4 * (YearStart(r) + MonthStart(m) + day - 1) + 3) / 1461 == r
    requires (5 * (MonthStart(m) + day - 1) + 2) / 153 == m
    ensures GetYMD(CenturyStart(b) + YearStart(r) + MonthStart(m) + day - 1 - 32044) == Unshift(100 * b + r, m, day)
  {
    hide Quot, CenturyStart, YearStart, MonthStart;
    var e := MonthStart(m) + day - 1;
    var c := YearStart(r) + e;
    StartsAreQuots(b, r, m);
    QuotOfNat(4 * (CenturyStart(b) + c) + 3, 146097);
    QuotOfNat(4 * c + 3, 1461);
    QuotOfNat(5 * e + 2, 153);
  }

  lemma DayBounds(b: nat, r: nat, m: nat, day: nat)
    requires r <= 99 && m <= 11 && 1 <= day
    requires m < 11 ==> day <= MonthStart(m + 1) - MonthStart(m)
    requires m == 11 ==> day <= 28 + LongYear(b, r)
    ensures MonthStart(m) + day - 1 <= 364 + LongYear(b, r)
    ensures YearStart(r) + MonthStart(m) + day - 1 <= 36523 + (if b % 4 == 3 then 1 else 0)
  {
    MonthStarts(m);
    hide MonthStart;
  }

  lemma GetYMDOfShifted(b: nat, r: nat, m: nat, day: nat)
    requires r <= 99 && m <= 11 && 1 <= day
    requires m < 11 ==> day <= MonthStart(m + 1) - MonthStart(m)
    requires m == 11 ==> day <= 28 + LongYear(b, r)
    ensures GetYMD(CenturyStart(b) + YearStart(r) + MonthStart(m) + day - 1 - 32044) == Unshift(100 * b + r, m, day)
  {
    DayBounds(b, r, m, day);
    MonthOf(m, day);
    hide CenturyStart, YearStart, MonthStart, GetYMD;
    YearOf(r, MonthStart(m) + day - 1);
    CenturyOf(b, YearStart(r) + MonthStart(m) + day - 1);
    GetYMDSteps(b, r, m, day);
  }

  lemma MonthStarts(m: nat)
    requires m <= 11
    ensures MonthStart(m) <= 337 && (m < 11 ==> MonthStart(m + 1) <= 337) && MonthStart(11) == 337
  {
  }

  // ----- the round trips -----

  lemma DateRoundTrip(d: Date)
    requires Valid(d)
    ensures JulianDate(d.year, d.month, d.day) >= -32044
    ensures GetYMD(JulianDate(d.year, d.month, d.day)) == d
  {
    hide GetYMD, JulianDate, MonthStart, YearStart, CenturyStart, LongYear, Leap, DaysIn;
    var y, m := Shift(d);
    UnshiftedLength(y, m);
    JulianOfShifted(y, m, d.day);
    GetYMDOfShifted(y / 100, y % 100, m, d.day);
  }

  lemma YearInCentury(b: nat, c: nat)
    requires c <= 36523 + (if b % 4 == 3 then 1 else 0)
    ensures var r := (4 * c + 3) / 1461; r <= 99 && YearStart(r) <= c <= YearStart(r) + 364 + LongYear(b, r)
  {
    YearBounds(c);
  }

  lemma CenturyAndYear(b: nat, r: nat)
    requires r <= 99
    ensures (100 * b + r) / 100 == b && (100 * b + r) % 100 == r
  {
  }

  // The shifted coordinates of day a.
  lemma Coordinates(a: nat) returns (y: nat, m: nat, day: nat)
    ensures m <= 11 && 1 <= day
    ensures m < 11 ==> day <= MonthStart(m + 1) - MonthStart(m)
    ensures m == 11 ==> day <= 28 + LongYear(y / 100, y % 100)
    ensures a == CenturyStart(y / 100) + YearStart(y % 100) + MonthStart(m) + day - 1
  {
    var b := (4 * a + 3) / 146097;
    CenturyBounds(a);
    hide CenturyStart, YearStart, MonthStart, LongYear;
    var c := a - CenturyStart(b);
    var r := (4 * c + 3) / 1461;
    YearInCentury(b, c);
    var e := c - YearStart(r);
    CenturyAndYear(b, r);
    y, m := 100 * b + r, (5 * e + 2) / 153;
    MonthBounds(e);
    day := e - MonthStart(m) + 1;
  }

  lemma JulianRoundTrip(j: int)
    requires j >= -32044
    ensures var d := GetYMD(j); Valid(d) && JulianDate(d.year, d.month, d.day) == j
  {
    hide GetYMD, JulianDate, MonthStart, YearStart, CenturyStart, LongYear, Leap, DaysIn;
    var y, m, day := Coordinates(j + 32044);
    GetYMDOfShifted(y / 100, y % 100, m, day);
    UnshiftedLength(y, m);
    JulianOfShifted(y, m, day);
  }

  // ----- one day after another -----

  // The day after, by the lengths of the months.
  function NextDate(d: Date): Date {
    if d.day < DaysIn(d.year, d.month) then Date(d.year, d.month, d.day + 1)
    else if d.month < 12 then Date(d.year, d.month + 1, 1)
    else Date(d.year + 1, 1, 1)
  }

  lemma NextYear(y: nat)
    ensures CenturyStart((y + 1) / 100) + YearStart((y + 1) % 100)
         == CenturyStart(y / 100) + YearStart(y % 100) + 365 + LongYear(y / 100, y % 100)
  {
    var b, r := y / 100, y % 100;
    if r == 99 {
      CenturyAndYear(b + 1, 0);
      assert y + 1 == 100 * (b + 1) + 0;
      NextCentury(b);
    } else {
      CenturyAndYear(b, r + 1);
      assert y + 1 == 100 * b + (r + 1);
    }
  }

  lemma NextCentury(b: nat)
    ensures CenturyStart(b + 1) == CenturyStart(b) + 36524 + (if b % 4 == 3 then 1 else 0)
  {
    var q := b / 4;
    assert b == 4 * q + b % 4;
  }

  lemma LastMonth()
    ensures MonthStart(0) == 0 && MonthStart(11) == 337
  {
  }

  // Every day number is the day after the one before it, so together with one known day the
  // conversion is the Gregorian calendar.
  lemma NextDay(j: int)
    requires j >= -32044
    ensures GetYMD(j + 1) == NextDate(GetYMD(j))
  {
    hide GetYMD, MonthStart, YearStart, CenturyStart, LongYear, Leap, DaysIn;
    var y, m, day := Coordinates(j + 32044);
    GetYMDOfShifted(y / 100, y % 100, m, day);
    UnshiftedLength(y, m);
    LastMonth();
    var length := if m == 11 then 28 + LongYear(y / 100, y % 100) else MonthStart(m + 1) - MonthStart(m);
    if day < length {
      GetYMDOfShifted(y / 100, y % 100, m, day + 1);
    } else if m < 11 {
      FirstOfMonth(y, m + 1);
    } else {
      NextYear(y);
      FirstOfMonth(y + 1, 0);
    }
  }

  lemma NonemptyMonth(m: nat)
    ensures MonthStart(m) < MonthStart(m + 1)
  {
  }

  lemma FirstOfMonth(y: nat, m: nat)
    requires m <= 11
    ensures GetYMD(CenturyStart(y / 100) + YearStart(y % 100) + MonthStart(m) - 32044) == Unshift(y, m, 1)
  {
    hide GetYMD, CenturyStart, YearStart, MonthStart, LongYear;
    NonemptyMonth(m);
    GetYMDOfShifted(y / 100, y % 100, m, 1);
  }

  // 1 January 1970 is day 2440588.
  lemma StartOf1970()
    ensures GetYMD(2440588) == Date(1970, 1, 1)
  {
    assert JulianDate(1970, 1, 1) == 2440588;
    assert Valid(Date(1970, 1, 1));
    hide GetYMD, JulianDate, Valid;
    DateRoundTrip(Date(1970, 1, 1));
  }

  // ----- the weekday -----

  // The weekday sum with floored division, for shifted year y (which may lie before year 0).
  function FloorSum(y: nat, m: nat, day: int): int {
    var b, r := y / 100 - 48, y % 100;
    day + (13 * (m + 1) - 1) / 5 + r + r / 4 + b / 4 - 2 * b
  }

  // The same sum as the source writes it, with truncated division.
  function TruncSum(y: nat, m: nat, day: int): int {
    var y', n := y - 4800, m + 1;
    day + Quot(13 * n - 1, 5) + Rem(y', 100) + Quot(Rem(y', 100), 4) + Quot(Quot(y', 100), 4) - 2 * Quot(y', 100)
  }

  lemma FloorSumCountsDays(y: nat, m: nat, day: nat)
    requires m <= 11
    ensures (CenturyStart(y / 100) + YearStart(y % 100) + MonthStart(m) + day - 1 - 32044 + 1) % 7 == FloorSum(y, m, day) % 7
  {
    var b, r := y / 100 - 48, y % 100;
    assert CenturyStart(b + 48) == 36524 * (b + 48) + (b + 48) / 4 && YearStart(r) == 365 * r + r / 4;
    assert MonthStart(m) == 30 * m + (3 * m + 2) / 5 && (13 * (m + 1) - 1) / 5 == 2 * m + 2 + (3 * m + 2) / 5;
    var l := CenturyStart(b + 48) + YearStart(r) + MonthStart(m) + day - 1 - 32044 + 1;
    hide CenturyStart, YearStart, MonthStart;
    assert (b + 48) / 4 == b / 4 + 12;
    WeeksApart(l, FloorSum(y, m, day), 5218 * b + 52 * r + 4 * m + 245874);
  }

  lemma WeeksApart(l: int, w: int, weeks: int)
    requires l == w + 7 * weeks
    ensures l % 7 == w % 7
  {
  }

  lemma RemainderFixed(x: int)
    ensures (if Rem(x, 7) < 0 then 7 + Rem(x, 7) else Rem(x, 7)) == x % 7
  {
  }

  lemma WeekDayOfUnshifted(y: nat, m: nat, day: int)
    requires m <= 11
    ensures WeekDayOf(Unshift(y, m, day)) == 1 + TruncSum(y, m, day) % 7
  {
    RemainderFixed(TruncSum(y, m, day));
    hide Rem, Quot;
  }

  // Truncation is harmless from year 0 on; before it, it adds one in every year that is not leap.
  lemma TruncationError(y: nat, m: nat, day: int)
    requires m <= 11
    ensures var y' := y - 4800;
      TruncSum(y, m, day) % 7 == (FloorSum(y, m, day) + if y' >= 0 || Leap(y') then 0 else 1) % 7
  {
    var b, r, y' := y / 100 - 48, y % 100, y - 4800;
    assert y' == 100 * b + r;
    if y' >= 0 {
      assert Quot(y', 100) == b && Rem(y', 100) == r;
    } else if r == 0 {
      assert Quot(y', 100) == b && Rem(y', 100) == 0;
      LeapParts(b, r);
      assert Quot(b, 4) - b / 4 == if b % 4 == 0 then 0 else 1;
      hide Leap;
    } else {
      assert Quot(y', 100) == b + 1 && Rem(y', 100) == r - 100;
      LeapParts(b, r);
      assert Quot(r - 100, 4) - r / 4 == -25 + if r % 4 == 0 then 0 else 1;
      assert Quot(b + 1, 4) - b / 4 == 1;
      hide Leap;
      WeeksApart(TruncSum(y, m, day), FloorSum(y, m, day) + (if Leap(y') then 0 else 1), -18);
    }
  }

  lemma LeapParts(b: int, r: nat)
    requires r <= 99
    ensures Leap(100 * b + r) <==> if r == 0 then b % 4 == 0 else r % 4 == 0
  {
    var n := 100 * b + r;
    Modulo4(n, 25 * b, r);
    Modulo100(n, b, r);
    if r == 0 {
      Modulo400(n, b / 4, 100 * (b % 4));
    }
  }

  lemma Modulo4(n: int, q: int, r: nat)
    requires n == 4 * q + r
    ensures n % 4 == r % 4
  {
  }

  lemma Modulo100(n: int, q: int, r: nat)
    requires n == 100 * q + r && r < 100
    ensures n % 100 == r
  {
  }

  lemma Modulo400(n: int, q: int, r: nat)
    requires n == 400 * q + r && r < 400
    ensures n % 400 == r
  {
  }

  lemma NextDayDiffers(x: int)
    ensures (x + 1) % 7 != x % 7
  {
  }

  // Sunday is 1 and each day adds one, for every day whose March-based year is 0 or later or a
  // leap year, and for no other.
  lemma WeekDayExactly(j: int)
    requires j >= -32044
    ensures var d := GetYMD(j);
      var marchYear := if d.month >= 3 then d.year else d.year - 1;
      GetWeekDay(j) == 1 + (j + 1) % 7 <==> marchYear >= 0 || Leap(marchYear)
  {
    hide GetYMD, MonthStart, YearStart, CenturyStart, LongYear, Leap, TruncSum, FloorSum, WeekDayOf;
    var y, m, day := Coordinates(j + 32044);
    GetYMDOfShifted(y / 100, y % 100, m, day);
    assert GetYMD(j) == Unshift(y, m, day);
    FloorSumCountsDays(y, m, day);
    WeekDayOfUnshifted(y, m, day);
    TruncationError(y, m, day);
    NextDayDiffers(FloorSum(y, m, day));
  }

  lemma LastOfFebruaryInYearZero()
    ensures GetYMD(1721118) == Date(0, 2, 28)
  {
    assert JulianDate(0, 2, 28) == 1721118;
    assert Valid(Date(0, 2, 28));
    hide GetYMD, JulianDate, Valid;
    DateRoundTrip(Date(0, 2, 28));
  }

  // Day 1721118 is 28 February of year 0 and is given the weekday after its own.
  lemma WeekDayWrongBeforeYearZero()
    ensures GetYMD(1721118) == Date(0, 2, 28) && GetWeekDay(1721118) != 1 + (1721118 + 1) % 7
  {
    assert !Leap(-1);
    hide GetYMD, GetWeekDay, WeekDayOf, JulianDate, Leap;
    LastOfFebruaryInYearZero();
    WeekDayExactly(1721118);
  }
}
