// src/core/ngx_times.c (ngx_gmtime, ngx_http_time) and src/http/ngx_http_parse_time.c:
// dates by Gauss' formula, printed and parsed as section 3.3.1 of RFC 2616 has them.
module Calendar {

  const WORD: int := 0x1_0000_0000_0000_0000
  const EPOCH: int := 719468        // days from March 1, 1 BC to January 1, 1970

  datatype Date = Date(year: int, month: int, day: int)

  // --- the calendar, one day after the other ------------------------------------------------

  predicate Leap(year: int) { year % 4 == 0 && (year % 100 != 0 || year % 400 == 0) }

  function MonthLength(year: int, month: int): int {
    if month == 2 then (if Leap(year) then 29 else 28)
    else if month == 4 || month == 6 || month == 9 || month == 11 then 30 else 31
  }

  predicate ValidDate(d: Date) { d.year >= 1 && 1 <= d.month <= 12 && 1 <= d.day <= MonthLength(d.year, d.month) }

  function NextDay(d: Date): Date {
    if d.day < MonthLength(d.year, d.month) then d.(day := d.day + 1)
    else if d.month < 12 then Date(d.year, d.month + 1, 1)
    else Date(d.year + 1, 1, 1)
  }

  // the date n days after January 1, 1970
  function DateAt(n: nat): Date { if n == 0 then Date(1970, 1, 1) else NextDay(DateAt(n - 1)) }

  // --- Gauss' formula ---------------------------------------------------------------------------

  // days from March 1, 1 BC to March 1 of a year
  function YearStart(year: int): int { 365 * year + year / 4 - year / 100 + year / 400 }

  // days from March 1 to the first of a month, which is counted from March as 1
  function MonthStart(month: int): int { 367 * month / 12 - 30 }

  // days from March 1, 1 BC
  function DayNumber(d: Date): int {
    if d.month > 2 then YearStart(d.year) + MonthStart(d.month - 2) + d.day - 1
    else YearStart(d.year - 1) + MonthStart(d.month + 10) + d.day - 1
  }

  lemma YearLength(year: int)
    requires year >= 0
    ensures YearStart(year + 1) == YearStart(year) + (if Leap(year + 1) then 366 else 365)
  {
    Quotient(year, 4);
    Quotient(year, 100);
    Quotient(year, 400);
  }

  lemma Quotient(year: int, d: int)
    requires year >= 0 && (d == 4 || d == 100 || d == 400)
    ensures (year + 1) / d == year / d + (if (year + 1) % d == 0 then 1 else 0)
  {}

  lemma MonthStarts()
    ensures MonthStart(1) == 0 && MonthStart(2) == 31 && MonthStart(3) == 61 && MonthStart(4) == 92
    ensures MonthStart(5) == 122 && MonthStart(6) == 153
    ensures MonthStart(7) == 184 && MonthStart(8) == 214 && MonthStart(9) == 245 && MonthStart(10) == 275
    ensures MonthStart(11) == 306 && MonthStart(12) == 337
  {}

  lemma NextNumber(d: Date)
    requires ValidDate(d)
    ensures ValidDate(NextDay(d)) && DayNumber(NextDay(d)) == DayNumber(d) + 1
  {
    MonthStarts();
    YearLength(d.year - 1);
  }

  lemma {:induction false} NumberAt(n: nat)
    ensures ValidDate(DateAt(n)) && DayNumber(DateAt(n)) == EPOCH + n
  {
    if n == 0 {
      MonthStarts();
    } else {
      NumberAt(n - 1);
      NextNumber(DateAt(n - 1));
    }
  }

  // the year that starts in March, and the day in it
  function MarchYear(d: Date): int { if d.month > 2 then d.year else d.year - 1 }

  lemma InYear(d: Date)
    requires ValidDate(d)
    ensures YearStart(MarchYear(d)) <= DayNumber(d) < YearStart(MarchYear(d) + 1)
  {
    MonthStarts();
    YearLength(MarchYear(d));
  }

  lemma {:induction false} YearsGrow(y: int, z: int)
    requires 0 <= y <= z
    ensures YearStart(y) <= YearStart(z)
    decreases z - y
  {
    if y < z {
      YearLength(z - 1);
      YearsGrow(y, z - 1);
    }
  }

  // Different dates have different numbers.
  lemma SameNumber(d: Date, e: Date)
    requires ValidDate(d) && ValidDate(e) && DayNumber(d) == DayNumber(e)
    ensures d == e
  {
    InYear(d);
    InYear(e);
    if MarchYear(d) < MarchYear(e) { YearsGrow(MarchYear(d) + 1, MarchYear(e)); }
    if MarchYear(e) < MarchYear(d) { YearsGrow(MarchYear(e) + 1, MarchYear(d)); }
    MonthStarts();
  }

  // --- ngx_gmtime -----------------------------------------------------------------------------------

  // ngx_tm_t
  datatype Tm = Tm(sec: int, min: int, hour: int, mday: int, mon: int, year: int, wday: int)

  ghost predicate IsTime(tm: Tm, t: nat) {
    && Date(tm.year, tm.mon, tm.mday) == DateAt(t / 86400) && tm.wday == (4 + t / 86400) % 7
    && 0 <= tm.hour < 24 && 0 <= tm.min < 60 && 0 <= tm.sec < 60
    && t == 86400 * (t / 86400) + 3600 * tm.hour + 60 * tm.min + tm.sec
  }

  // The estimate of the year is right or one too large.
  lemma YearEstimate(days: nat, y: int)
    requires y >= 0 && YearStart(y) <= days < YearStart(y + 1)
    ensures y <= (days + 2) * 400 / 146097 <= y + 1
  {
    var e := (days + 2) * 400 / 146097;
    assert 146097 * e <= (days + 2) * 400 < 146097 * e + 146097;
  }

  // the year that a day number falls in
  lemma {:induction false} YearOf(days: nat, bound: nat) returns (y: nat)
    requires days < YearStart(bound)
    ensures YearStart(y) <= days < YearStart(y + 1) && y < bound
    decreases bound
  {
    assert YearStart(0) == 0;
    if YearStart(bound - 1) <= days { y := bound - 1; } else { y := YearOf(days, bound - 1); }
  }

  // lines 326-334: the March year and the day in it
  method YearAndDay(days: nat) returns (year: int, yday: int)
    ensures year >= 0 && yday == days - YearStart(year) && 0 <= yday < YearStart(year + 1) - YearStart(year)
  {
    ghost var y := YearOf(days, days + 1);
    YearEstimate(days, y);
    YearLength(y);
    year := (days + 2) * 400 / (365 * 400 + 100 - 4 + 1);
    yday := days - (365 * year + year / 4 - year / 100 + year / 400);
    if yday < 0 {
      var leap := if year % 4 == 0 && (year % 100 != 0 || year % 400 == 0) then 1 else 0;
      yday := 365 + leap + yday;
      year := year - 1;
    }
  }

  // lines 344-370
  method MonthAndDay(year0: int, yday: int) returns (year: int, mon: int, mday: int)
    requires year0 >= 1 && 0 <= yday < YearStart(year0 + 1) - YearStart(year0)
    ensures ValidDate(Date(year, mon, mday)) && DayNumber(Date(year, mon, mday)) == YearStart(year0) + yday
  {
    YearLength(year0);
    year := year0;
    mon := (yday + 31) * 10 / 306;
    mday := yday - (367 * mon / 12 - 30) + 1;
    MonthOf(yday, mon);
    MonthStarts();
    if yday >= 306 {
      year := year + 1;
      mon := mon - 10;
    } else {
      mon := mon + 2;
    }
  }

  // ngx_gmtime: the date that the calendar reaches after so many days, and the time of the day
  method Gmtime(t: nat) returns (tp: Tm)
    ensures IsTime(tp, t)
  {
    var n := t;
    var days: int := n / 86400;
    ghost var day := days;
    var wday := (4 + days) % 7;
    n := n % 86400;
    var hour := n / 3600;
    n := n % 3600;
    var min := n / 60;
    var sec := n % 60;
    days := days - (31 + 28) + 719527;
    var year, yday := YearAndDay(days);
    assert YearStart(1) == 365;
    var mon, mday;
    year, mon, mday := MonthAndDay(year, yday);
    tp := Tm(sec, min, hour, mday, mon, year, wday);
    NumberAt(day);
    SameNumber(Date(year, mon, mday), DateAt(day));
  }

  // The empirical formula maps a day of the year to its month.
  lemma MonthOf(yday: int, mon: int)
    requires 0 <= yday <= 365 && mon == (yday + 31) * 10 / 306
    ensures 1 <= mon <= 12 && MonthStart(mon) <= yday && (mon < 12 ==> yday < MonthStart(mon + 1))
    ensures yday >= 306 <==> mon >= 11
  {
    MonthStarts();
  }

  // --- printing ---------------------------------------------------------------------------------------

  const WEEK := ["Sun", "Mon", "Tue", "Wed", "Thu", "Fri", "Sat"]
  const MONTHS := ["Jan", "Feb", "Mar", "Apr", "May", "Jun", "Jul", "Aug", "Sep", "Oct", "Nov", "Dec"]

  function Digit(n: int): char
    requires 0 <= n < 10
  {
    (48 + n) as char
  }

  // %02d and %4d
  function Two(n: int): string
    requires 0 <= n < 100
  {
    [Digit(n / 10), Digit(n % 10)]
  }

  function Four(n: int): string
    requires 1000 <= n < 10000
  {
    [Digit(n / 1000), Digit(n / 100 % 10), Digit(n / 10 % 10), Digit(n % 10)]
  }

  predicate Printable(tm: Tm) {
    && 0 <= tm.sec < 60 && 0 <= tm.min < 60 && 0 <= tm.hour < 24 && 0 <= tm.wday < 7 && 1000 <= tm.year < 10000
    && ValidDate(Date(tm.year, tm.mon, tm.mday))
  }

  // ngx_http_time: "Mon, 28 Sep 1970 06:00:00 GMT"
  function Print(tm: Tm): string
    requires Printable(tm)
  {
    WEEK[tm.wday] + ", " + Two(tm.mday) + " " + MONTHS[tm.mon - 1] + " " + Four(tm.year) + " "
      + Two(tm.hour) + ":" + Two(tm.min) + ":" + Two(tm.sec) + " GMT"
  }

  lemma PrintedLength(tm: Tm)
    requires Printable(tm)
    ensures |Print(tm)| == 29 && |WEEK[tm.wday]| == 3 && |MONTHS[tm.mon - 1]| == 3
  {}

  // the characters of a printed time
  lemma PrintedAt(tm: Tm, s: string)
    requires Printable(tm) && s == Print(tm)
    ensures |s| == 29 && (forall i :: 0 <= i < 3 ==> s[i] == WEEK[tm.wday][i]) && s[3] == ',' && s[4] == ' '
    ensures s[5] == Digit(tm.mday / 10) && s[6] == Digit(tm.mday % 10) && s[7] == ' ' && s[8] == MONTHS[tm.mon - 1][0]
    ensures s[9] == MONTHS[tm.mon - 1][1] && s[10] == MONTHS[tm.mon - 1][2]
    ensures s[11] == ' ' && s[12] == Digit(tm.year / 1000) && s[13] == Digit(tm.year / 100 % 10)
    ensures s[14] == Digit(tm.year / 10 % 10) && s[15] == Digit(tm.year % 10)
    ensures s[16] == ' ' && s[17] == Digit(tm.hour / 10) && s[18] == Digit(tm.hour % 10) && s[19] == ':'
    ensures s[20] == Digit(tm.min / 10) && s[21] == Digit(tm.min % 10)
    ensures s[22] == ':' && s[23] == Digit(tm.sec / 10) && s[24] == Digit(tm.sec % 10)
  {
    var a := WEEK[tm.wday] + ", " + Two(tm.mday) + " ";
    var b := a + MONTHS[tm.mon - 1] + " ";
    var c := b + Four(tm.year) + " ";
    PrintedLength(tm);
    assert |a| == 8 && |b| == 12 && |c| == 17;
    assert s == c + Two(tm.hour) + ":" + Two(tm.min) + ":" + Two(tm.sec) + " GMT";
    assert s[..17] == c && c[..12] == b && b[..8] == a;
    forall i | 0 <= i < 17 ensures s[i] == c[i] {}
    forall i | 0 <= i < 12 ensures s[i] == b[i] {}
    forall i | 0 <= i < 8 ensures s[i] == a[i] {}
  }

  // how RFC 2616, section 3.3.1, spells the days, from Monday on, and the months
  function DayName(n: int): string
    requires 0 <= n < 7
  {
    match n
    case 0 => "Mon" case 1 => "Tue" case 2 => "Wed" case 3 => "Thu" case 4 => "Fri" case 5 => "Sat" case _ => "Sun"
  }

  function NameOfMonth(n: int): string
    requires 0 <= n < 12
  {
    match n
    case 0 => "Jan" case 1 => "Feb" case 2 => "Mar" case 3 => "Apr" case 4 => "May" case 5 => "Jun"
    case 6 => "Jul" case 7 => "Aug" case 8 => "Sep" case 9 => "Oct" case 10 => "Nov" case _ => "Dec"
  }

  // and how it lays out the string
  predicate Spelled(s: string, day: int, month: int) {
    && 0 <= day < 7 && 0 <= month < 12 && |s| == 29 && s[..3] == DayName(day) && s[8..11] == NameOfMonth(month)
    && s[3..5] == ", " && s[7] == s[11] == s[16] == ' ' && s[19] == s[22] == ':' && s[25..] == " GMT"
  }

  lemma WeekdaySpelled(wday: int)
    requires 0 <= wday < 7
    ensures WEEK[wday] == DayName((wday + 6) % 7)
  {}

  lemma MonthSpelled(mon: int)
    requires 1 <= mon <= 12
    ensures MONTHS[mon - 1] == NameOfMonth(mon - 1)
  {}

  lemma PrintedSpelled(tm: Tm, s: string)
    requires Printable(tm) && s == Print(tm)
    ensures Spelled(s, (tm.wday + 6) % 7, tm.mon - 1)
  {
    PrintedAt(tm, s);
    PrintedLength(tm);
    WeekdaySpelled(tm.wday);
    MonthSpelled(tm.mon);
    assert s[..3] == WEEK[tm.wday] && s[8..11] == MONTHS[tm.mon - 1];
    var a := WEEK[tm.wday] + ", " + Two(tm.mday) + " " + MONTHS[tm.mon - 1] + " " + Four(tm.year) + " "
             + Two(tm.hour) + ":" + Two(tm.min) + ":" + Two(tm.sec);
    assert s == a + " GMT" && |a| == 25 && s[25..] == " GMT";
  }

  // --- parsing -----------------------------------------------------------------------------------------

  datatype Parsed = Time(time: int) | NotATime
  datatype Format = No | Rfc822 | Rfc850 | Isoc

  predicate IsDigit(c: char) { '0' <= c <= '9' }
  function DigitOf(c: char): int { c as int - 48 }

  // the number in a field of two digits, if it is one
  function TwoDigits(s: string, p: nat): (r: int)
    requires p + 2 <= |s|
    ensures r >= 0 ==> r < 100 && IsDigit(s[p]) && IsDigit(s[p + 1])
  {
    if IsDigit(s[p]) && IsDigit(s[p + 1]) then DigitOf(s[p]) * 10 + DigitOf(s[p + 1]) else -1
  }

  function FourDigits(s: string, p: nat): (r: int)
    requires p + 4 <= |s|
    ensures r >= 0 ==> r < 10000
  {
    if IsDigit(s[p]) && IsDigit(s[p + 1]) && IsDigit(s[p + 2]) && IsDigit(s[p + 3])
    then DigitOf(s[p]) * 1000 + DigitOf(s[p + 1]) * 100 + DigitOf(s[p + 2]) * 10 + DigitOf(s[p + 3]) else -1
  }

  // lines 80-116: the month, from 0, or -1
  function MonthName(s: string, p: nat): (r: int)
    requires p + 3 <= |s|
    ensures -1 <= r < 12
  {
    match s[p]
    case 'J' => if s[p + 1] == 'a' then 0 else if s[p + 2] == 'n' then 5 else 6
    case 'F' => 1
    case 'M' => if s[p + 2] == 'r' then 2 else 4
    case 'A' => if s[p + 1] == 'p' then 3 else 7
    case 'S' => 8
    case 'O' => 9
    case 'N' => 10
    case 'D' => 11
    case _ => -1
  }

  // lines 240-265, in unsigned 64-bit words, for a month counted from 0
  function Seconds(year: int, month: int, day: int, hour: int, min: int, sec: int): int {
    var m := if month - 1 <= 0 then month + 11 else month - 1;
    var y := (if month - 1 <= 0 then year - 1 else year) % WORD;
    ((365 * y + y / 4 - y / 100 + y / 400 + 367 * m / 12 - 30 + day - 1 - 719527 + 31 + 28) * 86400
        + hour * 3600 + min * 60 + sec) % WORD
  }

  // lines 222-233
  predicate FieldsOk(year: int, month: int, day: int, hour: int, min: int, sec: int) {
    && hour <= 23 && min <= 59 && sec <= 59
    && if day == 29 && month == 1 then year % 4 == 0 && !(year % 100 == 0 && year % 400 != 0)
       else day <= MonthLength(1, month + 1)
  }

  // what the fields stand for, as a signed time_t
  function TimeOf(year: int, month: int, day: int, hour: int, min: int, sec: int): Parsed {
    if FieldsOk(year, month, day, hour, min, sec)
    then Time(var s := Seconds(year, month, day, hour, min, sec); if s < WORD / 2 then s else s - WORD)
    else NotATime
  }

  // A date is accepted if it is one, or if its day is 0.
  lemma AcceptedIff(year: int, month: int, day: int, hour: int, min: int, sec: int)
    requires year >= 0 && 0 <= month < 12 && day >= 0
    ensures FieldsOk(year, month, day, hour, min, sec)
      <==> hour <= 23 && min <= 59 && sec <= 59 && (day == 0 || 1 <= day <= MonthLength(year, month + 1))
  {}

  // A day 0 is the day before the first of the month.
  function Meant(year: int, month: int, day: int): Date {
    if day > 0 then Date(year, month + 1, day)
    else if month > 0 then Date(year, month, MonthLength(year, month))
    else Date(year - 1, 12, 31)
  }

  lemma MeantIs(year: int, month: int, day: int)
    requires year >= 1 && 0 <= month < 12 && 0 <= day <= MonthLength(year, month + 1)
    ensures DayNumber(Meant(year, month, day)) == DayNumber(Date(year, month + 1, day))
    ensures day > 0 ==> ValidDate(Meant(year, month, day))
    ensures day == 0 && (year > 1 || month > 0) ==>
        ValidDate(Meant(year, month, day)) && NextDay(Meant(year, month, day)) == Date(year, month + 1, 1)
  {
    MonthStarts();
    YearLength(year - 1);
  }

  // the seconds since 1970 on the proleptic Gregorian calendar
  function TrueTime(d: Date, hour: int, min: int, sec: int): int {
    (DayNumber(d) - EPOCH) * 86400 + hour * 3600 + min * 60 + sec
  }

  lemma TimeRight(year: int, month: int, day: int, hour: int, min: int, sec: int)
    requires 0 <= year <= 9999 && 0 <= month < 12 && 0 <= day && 0 <= hour && 0 <= min && 0 <= sec
    requires year > 0 || month > 1
    requires FieldsOk(year, month, day, hour, min, sec)
    ensures TimeOf(year, month, day, hour, min, sec) == Time(TrueTime(Date(year, month + 1, day), hour, min, sec))
  {
    SecondsRight(year, month, day, hour, min, sec);
    NearEpoch(Date(year, month + 1, day), hour, min, sec);
    Wrapped(TrueTime(Date(year, month + 1, day), hour, min, sec));
  }

  lemma SecondsRight(year: int, month: int, day: int, hour: int, min: int, sec: int)
    requires 0 <= year <= 9999 && 0 <= month < 12 && 0 <= day && 0 <= hour && 0 <= min && 0 <= sec
    requires year > 0 || month > 1
    ensures Seconds(year, month, day, hour, min, sec) == TrueTime(Date(year, month + 1, day), hour, min, sec) % WORD
  {
    var y := if month > 1 then year else year - 1;
    assert y % WORD == y;
  }

  lemma NearEpoch(d: Date, hour: int, min: int, sec: int)
    requires 0 <= d.year <= 9999 && 1 <= d.month <= 12 && 0 <= d.day <= 31 && 0 <= hour <= 23 && 0 <= min <= 59
    requires 0 <= sec <= 59
    ensures -WORD / 2 < TrueTime(d, hour, min, sec) < WORD / 2
  {
    MonthStarts();
  }

  // how far the leap days of the year -1 are off when it wraps
  const ZERO_YEAR := (WORD - 1) / 4 - (WORD - 1) / 100 + (WORD - 1) / 400 + 1

  lemma YearZeroWraps(month: int, day: int, hour: int, min: int, sec: int)
    requires 0 <= month <= 1
    ensures Seconds(0, month, day, hour, min, sec)
         == (TrueTime(Date(0, month + 1, day), hour, min, sec) + 86400 * (365 * WORD + ZERO_YEAR)) % WORD
  {
    assert (0 - 1) % WORD == WORD - 1;
  }

  lemma NotTheSame(t: int)
    ensures var s := (t + 86400 * (365 * WORD + ZERO_YEAR)) % WORD; (if s < WORD / 2 then s else s - WORD) != t
  {}

  // Fields that are accepted give their true time exactly if they are not of January or
  // February of the year 0, for which the unsigned year wraps.
  lemma TimeIff(year: int, month: int, day: int, hour: int, min: int, sec: int)
    requires 0 <= year <= 9999 && 0 <= month < 12 && 0 <= day && 0 <= hour && 0 <= min && 0 <= sec
    requires FieldsOk(year, month, day, hour, min, sec)
    ensures TimeOf(year, month, day, hour, min, sec) == Time(TrueTime(Date(year, month + 1, day), hour, min, sec)) <==>
        year > 0 || month > 1
  {
    if year > 0 || month > 1 {
      TimeRight(year, month, day, hour, min, sec);
    } else {
      var t := TrueTime(Date(year, month + 1, day), hour, min, sec);
      YearZeroWraps(month, day, hour, min, sec);
      NotTheSame(t);
    }
  }

  // For a date from year 1 on the formula gives the seconds since 1970, also before it.
  lemma TimeOfDate(d: Date, hour: int, min: int, sec: int)
    requires ValidDate(d) && d.year <= 9999 && 0 <= hour <= 23 && 0 <= min <= 59 && 0 <= sec <= 59
    ensures TimeOf(d.year, d.month - 1, d.day, hour, min, sec) == Time(TrueTime(d, hour, min, sec))
  {
    TimeRight(d.year, d.month - 1, d.day, hour, min, sec);
  }

  lemma Wrapped(s: int)
    requires -WORD / 2 < s < WORD / 2
    ensures (if s % WORD < WORD / 2 then s % WORD else s % WORD - WORD) == s
  {
    if s < 0 { assert (s + WORD) % WORD == s + WORD; }
  }

  // the string is a printed time
  ghost predicate Prints(tm: Tm, s: string) { Printable(tm) && s == Print(tm) }

  lemma {:induction false} DigitsOf(n: int)
    requires 0 <= n < 10
    ensures IsDigit(Digit(n)) && DigitOf(Digit(n)) == n && Digit(n) != ' '
  {}

  lemma TwoDigitsOf(s: string, p: nat, n: int)
    requires p + 2 <= |s| && 0 <= n < 100 && s[p] == Digit(n / 10) && s[p + 1] == Digit(n % 10)
    ensures TwoDigits(s, p) == n
  {
    DigitsOf(n / 10);
    DigitsOf(n % 10);
  }

  lemma Decimals(n: int)
    requires 1000 <= n < 10000
    ensures n == 1000 * (n / 1000) + 100 * (n / 100 % 10) + 10 * (n / 10 % 10) + n % 10 && 0 < n / 1000 < 10
  {
    var a, b, c := n / 10, n / 100, n / 1000;
    assert n == 10 * a + n % 10;
    assert a == 10 * b + a % 10;
    assert b == 10 * c + b % 10;
  }

  lemma FourDigitsOf(s: string, p: nat, n: int)
    requires p + 4 <= |s| && 1000 <= n < 10000
    requires s[p] == Digit(n / 1000) && s[p + 1] == Digit(n / 100 % 10) && s[p + 2] == Digit(n / 10 % 10)
    requires s[p + 3] == Digit(n % 10)
    ensures FourDigits(s, p) == n
  {
    Decimals(n);
    DigitsOf(n / 1000);
    DigitsOf(n / 100 % 10);
    DigitsOf(n / 10 % 10);
    DigitsOf(n % 10);
  }

  // the first comma or space
  function Break(value: string, p: nat): (r: nat)
    requires p <= |value|
    ensures p <= r <= |value| && (r < |value| ==> value[r] == ',' || value[r] == ' ')
    ensures forall i :: p <= i < r ==> value[i] != ',' && value[i] != ' '
    decreases |value| - p
  {
    if p == |value| || value[p] == ',' || value[p] == ' ' then p else Break(value, p + 1)
  }

  // over spaces
  function Skip(value: string, p: nat): (r: nat)
    ensures p <= r && (r < |value| ==> value[r] != ' ') && forall i :: p <= i < r ==> i < |value| && value[i] == ' '
    decreases |value| - p
  {
    if p >= |value| || value[p] != ' ' then p else Skip(value, p + 1)
  }

  // where the date starts: after the first word and the spaces that follow it
  function DateStart(value: string): nat { Skip(value, Break(value, 0) + 1) }

  // a first word that ends with a space announces the third format
  predicate Third(value: string) { Break(value, 0) < |value| && value[Break(value, 0)] == ' ' }

  // lines 36-50
  method FindDate(value: string) returns (isoc: bool, p: nat)
    ensures isoc == Third(value) && p == DateStart(value)
  {
    isoc := false;
    p := 0;
    while p < |value|
      invariant p <= |value| && !isoc && Break(value, p) == Break(value, 0)
    {
      if value[p] == ',' {
        break;
      }
      if value[p] == ' ' {
        isoc := true;
        break;
      }
      p := p + 1;
    }
    p := p + 1;
    while p < |value|
      invariant Skip(value, p) == DateStart(value)
      decreases |value| - p
    {
      if value[p] != ' ' {
        break;
      }
      p := p + 1;
    }
  }

  lemma NoBreak(wday: int)
    requires 0 <= wday < 7
    ensures forall i :: 0 <= i < 3 ==> WEEK[wday][i] != ',' && WEEK[wday][i] != ' '
  {}

  lemma MonthNames(s: string, p: nat, mon: int)
    requires p + 3 <= |s| && 1 <= mon <= 12
    requires s[p] == MONTHS[mon - 1][0] && s[p + 1] == MONTHS[mon - 1][1] && s[p + 2] == MONTHS[mon - 1][2]
    ensures MonthName(s, p) == mon - 1
  {}

  // the fields of a date, with the position after them
  datatype Fields = Fields(format: Format, day: int, month: int, year: int, p: nat)

  // the year of a date with two digits for it
  function ShortYear(year: int): (r: int)
    ensures 0 <= year < 100 ==> 1970 <= r < 2070 && r % 100 == year
  {
    year + if year < 70 then 2000 else 1900
  }

  // A date is written at p in one of the three formats, and ends before f.p. Where a character
  // stands between the month and the day of the third format, any will do.
  ghost predicate DateRead(value: string, p: nat, f: Fields) {
    match f.format
    case No => false
    case Rfc822 =>
      && f.p == p + 11 <= |value| && TwoDigits(value, p) == f.day && value[p + 2] == ' '
      && MonthName(value, p + 3) == f.month
      && value[p + 6] == ' ' && FourDigits(value, p + 7) == f.year
    case Rfc850 =>
      && f.p == p + 9 <= |value| && TwoDigits(value, p) == f.day && value[p + 2] == '-'
      && MonthName(value, p + 3) == f.month
      && value[p + 6] == '-' && TwoDigits(value, p + 7) >= 0 && ShortYear(TwoDigits(value, p + 7)) == f.year
    case Isoc =>
      && p + 7 <= |value| && MonthName(value, p) == f.month
      && DayRead(value, if value[p + 4] == ' ' then p + 5 else p + 4, f)
  }

  // a day of one or two digits
  predicate DayRead(value: string, q: nat, f: Fields)
    requires q + 2 <= |value|
  {
    IsDigit(value[q]) && if value[q + 1] == ' ' then f.p == q + 1 && f.day == DigitOf(value[q])
                         else f.p == q + 2 && IsDigit(value[q + 1]) &&
                              f.day == DigitOf(value[q]) * 10 + DigitOf(value[q + 1])
  }

  ghost predicate ClockRead(value: string, p: nat, hour: int, min: int, sec: int) {
    && p + 9 <= |value| && value[p] == ' ' && TwoDigits(value, p + 1) == hour && value[p + 3] == ':'
    && TwoDigits(value, p + 4) == min
    && value[p + 6] == ':' && TwoDigits(value, p + 7) == sec
  }

  // What the string says: a date at p, the time of the day after it, and in the third format
  // the year after that.
  ghost predicate Says(value: string, p: nat, f: Fields, hour: int, min: int, sec: int) {
    && DateRead(value, p, f) && ClockRead(value, f.p, hour, min, sec)
    && (f.format == Isoc ==> f.p + 14 <= |value| && value[f.p + 9] == ' ' && FourDigits(value, f.p + 10) == f.year)
    && 0 <= f.year < 10000 && 0 <= f.month < 12 && 0 <= f.day && 0 <= hour && 0 <= min && 0 <= sec
  }

  // What the string says by itself, whether or not there is such a time.
  ghost predicate Said(value: string, f: Fields, hour: int, min: int, sec: int) {
    Says(value, DateStart(value), f, hour, min, sec) && (Third(value) <==> f.format == Isoc)
  }

  // the string is in none of the formats
  ghost predicate Silent(value: string) {
    forall f, h, m, s {:trigger Said(value, f, h, m, s)} :: !Said(value, f, h, m, s)
  }

  // at most one date is written at p
  lemma OneDate(value: string, p: nat, f: Fields, g: Fields)
    requires DateRead(value, p, f) && DateRead(value, p, g) && (f.format == Isoc <==> g.format == Isoc)
    ensures f.(year := 0) == g.(year := 0) && (f.format != Isoc ==> f == g)
  {}

  // A string says at most one time.
  lemma SaidOnce(value: string, f: Fields, h: int, m: int, s: int, g: Fields, h': int, m': int, s': int)
    requires Said(value, f, h, m, s) && Said(value, g, h', m', s')
    ensures f == g && h == h' && m == m' && s == s'
  {
    OneDate(value, DateStart(value), f, g);
  }

  // lines 150-162
  method ParseDay(value: string, q: nat) returns (ok: bool, day: int, p: nat)
    requires q + 2 <= |value|
    ensures ok ==> 0 <= day <= 99 && DayRead(value, q, Fields(Isoc, day, 0, 0, p))
    ensures !ok ==> !IsDigit(value[q]) || (value[q + 1] != ' ' && !IsDigit(value[q + 1]))
  {
    ok, day, p := false, -1, q;
    if !IsDigit(value[p]) {
      return;
    }
    day := DigitOf(value[p]);
    p := p + 1;
    if value[p] != ' ' {
      if !IsDigit(value[p]) {
        return;
      }
      day := day * 10 + DigitOf(value[p]);
      p := p + 1;
    }
    ok := true;
  }

  // lines 52-170; -1 for a field that is missing
  method ParseDate(value: string, isoc: bool, p0: nat) returns (ok: bool, f: Fields)
    ensures ok ==> 0 <= f.day <= 99 && 0 <= f.month < 12 && f.p + (if f.format == Isoc then 14 else 9) <= |value|
    ensures ok ==> (f.format != Isoc ==> 0 <= f.year < 10000) && DateRead(value, p0, f) && (isoc <==> f.format == Isoc)
    ensures !ok ==> forall g, h, m, s {:trigger Says(value, p0, g, h, m, s)} ::
        Says(value, p0, g, h, m, s) ==> (isoc <==> g.format != Isoc)
  {
    ok, f := false, Fields(if isoc then Isoc else No, -1, -1, -1, p0);
    var p := p0;
    if |value| - p < 18 {
      return;
    }
    var fmt, day, year := f.format, -1, -1;
    if !isoc {
      day := TwoDigits(value, p);
      if day < 0 {
        return;
      }
      p := p + 2;
      if value[p] == ' ' {
        if |value| - p < 18 {
          return;
        }
        fmt := Rfc822;
      } else if value[p] == '-' {
        fmt := Rfc850;
      } else {
        return;
      }
      p := p + 1;
    }
    var month := MonthName(value, p);
    if month < 0 {
      return;
    }
    p := p + 3;
    if (fmt == Rfc822 && value[p] != ' ') || (fmt == Rfc850 && value[p] != '-') {
      return;
    }
    p := p + 1;
    if fmt == Rfc822 {
      year := FourDigits(value, p);
      if year < 0 {
        return;
      }
      p := p + 4;
    } else if fmt == Rfc850 {
      year := TwoDigits(value, p);
      if year < 0 {
        return;
      }
      year := ShortYear(year);
      p := p + 2;
    } else {
      if value[p] == ' ' {
        p := p + 1;
      }
      var one;
      one, day, p := ParseDay(value, p);
      if !one {
        return;
      }
      if |value| - p < 14 {
        return;
      }
    }
    ok, f := true, Fields(fmt, day, month, year, p);
  }

  // lines 172-202: " 06:00:00"
  method ParseClock(value: string, p: nat) returns (ok: bool, hour: int, min: int, sec: int)
    requires p + 9 <= |value|
    ensures ok ==> 0 <= hour && 0 <= min && 0 <= sec && ClockRead(value, p, hour, min, sec)
    ensures !ok ==> forall h, m, s {:trigger ClockRead(value, p, h, m, s)} :: ClockRead(value, p, h, m, s) ==>
        h < 0 || m < 0 || s < 0
  {
    ok, hour, min, sec := false, -1, -1, -1;
    if value[p] != ' ' {
      return;
    }
    hour := TwoDigits(value, p + 1);
    if hour < 0 || value[p + 3] != ':' {
      return;
    }
    min := TwoDigits(value, p + 4);
    if min < 0 || value[p + 6] != ':' {
      return;
    }
    sec := TwoDigits(value, p + 7);
    ok := sec >= 0;
  }

  // The clock exists, and so does the date, or its day is 0.
  predicate Exists(f: Fields, hour: int, min: int, sec: int)
    requires 0 <= f.year && 0 <= f.month < 12
  {
    hour <= 23 && min <= 59 && sec <= 59 && (f.day == 0 || 1 <= f.day <= MonthLength(f.year, f.month + 1))
  }

  // the answer for such a time; in January and February of the year 0 the year wraps
  ghost function Answer(f: Fields, hour: int, min: int, sec: int): Parsed
    requires 1 <= f.month + 1 <= 12
  {
    if f.year > 0 then Time(TrueTime(Meant(f.year, f.month, f.day), hour, min, sec))
    else if f.month > 1 then Time(TrueTime(Date(f.year, f.month + 1, f.day), hour, min, sec))
    else TimeOf(f.year, f.month, f.day, hour, min, sec)
  }

  // ngx_http_parse_time, on a string that need not be NUL-terminated: it reads no character
  // past the end. A time is accepted exactly if the string says one that exists, where a day 0
  // stands for the day before the first of the month.
  method ParseTime(value: string) returns (r: Parsed)
    ensures r.Time? <==> exists f, h, m, s {:trigger Said(value, f, h, m, s)} ::
        Said(value, f, h, m, s) && Exists(f, h, m, s)
    ensures forall f, h, m, s {:trigger Said(value, f, h, m, s)} ::
        Said(value, f, h, m, s) && Exists(f, h, m, s) ==> r == Answer(f, h, m, s)
  {
    r := NotATime;
    var third, p := FindDate(value);
    var ok, g := ParseDate(value, third, p);
    if !ok {
      return;
    }
    var h, m, s;
    ok, h, m, s := ParseClock(value, g.p);
    if !ok {
      ClockSilent(value, g);
      return;
    }
    var year := g.year;
    if g.format == Isoc {
      if value[g.p + 9] != ' ' {
        YearSilent(value, g);
        return;
      }
      year := FourDigits(value, g.p + 10);
      if year < 0 {
        YearSilent(value, g);
        return;
      }
    }
    r := TimeOf(year, g.month, g.day, h, m, s);
    TimeSays(value, g.(year := year), h, m, s);
  }

  lemma ClockSilent(value: string, g: Fields)
    requires DateRead(value, DateStart(value), g) && (Third(value) <==> g.format == Isoc)
    requires forall h, m, s {:trigger ClockRead(value, g.p, h, m, s)} ::
        ClockRead(value, g.p, h, m, s) ==> h < 0 || m < 0 || s < 0
    ensures Silent(value)
  {
    forall f, h, m, s | Said(value, f, h, m, s) ensures false { OneDate(value, DateStart(value), f, g); }
  }

  lemma YearSilent(value: string, g: Fields)
    requires DateRead(value, DateStart(value), g) && Third(value) && g.format == Isoc && g.p + 14 <= |value|
    requires value[g.p + 9] != ' ' || FourDigits(value, g.p + 10) < 0
    ensures Silent(value)
  {
    forall f, h, m, s | Said(value, f, h, m, s) ensures false { OneDate(value, DateStart(value), f, g); }
  }

  lemma TimeSays(value: string, g: Fields, hour: int, min: int, sec: int)
    requires Said(value, g, hour, min, sec)
    ensures var r := TimeOf(g.year, g.month, g.day, hour, min, sec);
      && (r.Time? <==> exists f, h, m, s {:trigger Said(value, f, h, m, s)} ::
          Said(value, f, h, m, s) && Exists(f, h, m, s))
      && forall f, h, m, s {:trigger Said(value, f, h, m, s)} ::
          Said(value, f, h, m, s) && Exists(f, h, m, s) ==> r == Answer(f, h, m, s)
  {
    FieldsSay(g.year, g.month, g.day, hour, min, sec);
    forall f, h, m, s | Said(value, f, h, m, s) ensures f == g && h == hour && m == min && s == sec {
      SaidOnce(value, f, h, m, s, g, hour, min, sec);
    }
  }

  lemma FieldsSay(year: int, month: int, day: int, hour: int, min: int, sec: int)
    requires 0 <= year <= 9999 && 0 <= month < 12 && 0 <= day && 0 <= hour && 0 <= min && 0 <= sec
    ensures var r := TimeOf(year, month, day, hour, min, sec);
      && (r.Time? ==> (day == 0 || 1 <= day <= MonthLength(year, month + 1)) && hour <= 23 && min <= 59 && sec <= 59)
      && (r.Time? && year > 0 ==> r == Time(TrueTime(Meant(year, month, day), hour, min, sec)))
      && (r.Time? && year == 0 && month > 1 ==> r == Time(TrueTime(Date(year, month + 1, day), hour, min, sec)))
  {
    AcceptedIff(year, month, day, hour, min, sec);
    if FieldsOk(year, month, day, hour, min, sec) {
      TimeIff(year, month, day, hour, min, sec);
      if year > 0 { MeantIs(year, month, day); }
    }
  }

  // ngx_http_time
  method HttpTime(t: nat) returns (buf: string, ghost tm: Tm)
    requires t < 253402300800
    ensures IsTime(tm, t) && Prints(tm, buf) && Spelled(buf, (3 + t / 86400) % 7, tm.mon - 1)
  {
    var tp := Gmtime(t);
    tm := tp;
    YearsTo9999(t / 86400);
    buf := Printed(tp);
    DayBefore(t / 86400);
  }

  // the Monday of RFC 2616 comes first, the code's Sunday
  lemma DayBefore(n: nat)
    ensures ((4 + n) % 7 + 6) % 7 == (3 + n) % 7
  {}

  // lines 251-258
  method Printed(tp: Tm) returns (buf: string)
    requires Printable(tp)
    ensures Prints(tp, buf) && Spelled(buf, (tp.wday + 6) % 7, tp.mon - 1)
  {
    buf := WEEK[tp.wday] + ", " + Two(tp.mday) + " " + MONTHS[tp.mon - 1] + " " + Four(tp.year) + " "
      + Two(tp.hour) + ":" + Two(tp.min) + ":" + Two(tp.sec) + " GMT";
    PrintedSpelled(tp, buf);
  }

  lemma YearsTo9999(n: nat)
    requires n < 2932897
    ensures ValidDate(DateAt(n)) && 1970 <= DateAt(n).year <= 9999
  {
    NumberAt(n);
    var d := DateAt(n);
    InYear(d);
    MonthStarts();
    if d.year > 9999 {
      if d.month > 2 { YearsGrow(10000, d.year); } else { YearsGrow(9999, d.year - 1); }
    }
    if d.year < 1970 {
      if d.month > 2 { YearsGrow(d.year + 1, 1970); } else { YearsGrow(d.year, 1970); }
    }
  }

  // a printed time says itself
  lemma PrintedSays(tm: Tm, value: string)
    requires Prints(tm, value)
    ensures Said(value, Fields(Rfc822, tm.mday, tm.mon - 1, tm.year, 16), tm.hour, tm.min, tm.sec)
  {
    PrintedAt(tm, value);
    NoBreak(tm.wday);
    DigitsOf(tm.mday / 10);
    assert Break(value, 0) == 3 && DateStart(value) == 5;
    TwoDigitsOf(value, 5, tm.mday);
    MonthNames(value, 8, tm.mon);
    FourDigitsOf(value, 12, tm.year);
    TwoDigitsOf(value, 17, tm.hour);
    TwoDigitsOf(value, 20, tm.min);
    TwoDigitsOf(value, 23, tm.sec);
  }

  // A date with the day 0 is accepted, as the last day of February.
  method DayZero() returns (r: Parsed)
    ensures r == Time(951782400) == Time(TrueTime(Date(2000, 2, 29), 0, 0, 0))
  {
    var date := "Sun, 00 Mar 2000";
    MidnightSays(date, 0, 2, 2000);
    r := ParseTime(date + " 00:00:00 GMT");
    MonthStarts();
  }

  // A date of January of the year 0 is accepted, and gets a wrong time.
  method YearZero() returns (r: Parsed)
    ensures r.Time? && r != Time(TrueTime(Date(0, 1, 1), 0, 0, 0))
  {
    var date := "Sat, 01 Jan 0000";
    MidnightSays(date, 1, 0, 0);
    r := ParseTime(date + " 00:00:00 GMT");
    AcceptedIff(0, 0, 1, 0, 0, 0);
    TimeIff(0, 0, 1, 0, 0, 0);
  }

  lemma MidnightSays(date: string, day: int, month: int, year: int)
    requires |date| == 16 && date[3] == ',' && date[4] == ' '
    requires (forall i :: 0 <= i < 3 ==> date[i] != ',' && date[i] != ' ')
    requires IsDigit(date[5]) && TwoDigits(date, 5) == day && date[7] == ' ' && MonthName(date, 8) == month
    requires month >= 0
    requires day >= 0 && date[11] == ' ' && FourDigits(date, 12) == year && 0 <= year < 10000
    ensures Said(date + " 00:00:00 GMT", Fields(Rfc822, day, month, year, 16), 0, 0, 0)
  {
    var clock := " 00:00:00 GMT";
    var value := date + clock;
    assert forall i :: 0 <= i < 16 ==> value[i] == date[i];
    assert forall i :: 0 <= i < 9 ==> value[16 + i] == clock[i];
    assert Break(value, 0) == 3 && DateStart(value) == 5;
  }

  // Parsing what was printed for t, up to the end of the year 9999, gives t.
  method RoundTrip(t: nat) returns (r: Parsed)
    requires t < 253402300800
    ensures r == Time(t)
  {
    ghost var tm;
    var buf;
    buf, tm := HttpTime(t);
    PrintedSays(tm, buf);
    r := ParseTime(buf);
    NumberAt(t / 86400);
    YearsTo9999(t / 86400);
    TimeOfDate(Date(tm.year, tm.mon, tm.mday), tm.hour, tm.min, tm.sec);
  }
}
