// The days internal/analytics/aggregator.go files records under, against the calendar: months and leap
// years, one day after the other.
module CivilDays {

  import opened Text
  import opened Counters
  import Ledger

  // ---- the calendar ----

  predicate IsLeap(year: int) {
    year % 4 == 0 && (year % 100 != 0 || year % 400 == 0)
  }

  function MonthLength(year: int, month: int): int {
    if month == 2 then (if IsLeap(year) then 29 else 28)
    else if month in {4, 6, 9, 11} then 30
    else 31
  }

  predicate ValidDate(d: Date) {
    1 <= d.month <= 12 && 1 <= d.day <= MonthLength(d.year, d.month)
  }

  function Tomorrow(d: Date): Date {
    if d.day < MonthLength(d.year, d.month) then d.(day := d.day + 1)
    else if d.month < 12 then Date(d.year, d.month + 1, 1)
    else Date(d.year + 1, 1, 1)
  }

  function Yesterday(d: Date): Date {
    if d.day > 1 then d.(day := d.day - 1)
    else if d.month > 1 then Date(d.year, d.month - 1, MonthLength(d.year, d.month - 1))
    else Date(d.year - 1, 12, 31)
  }

  // The calendar date so many days after, or before, 1970-01-01, counted day by day.
  function Calendar(days: int): (d: Date)
    ensures ValidDate(d)
    decreases if days < 0 then -days else days
  {
    if days == 0 then Date(1970, 1, 1)
    else if days > 0 then Tomorrow(Calendar(days - 1))
    else Yesterday(Calendar(days + 1))
  }

  // ---- the years of a cycle ----

  // Centuries, four-year spans, years and days: the formula finds the year.
  lemma YearOfParts(a: int, b: int, e: int, t: int)
    requires 0 <= a <= 3 && 0 <= b <= 24 && 0 <= e <= 3 && 0 <= t <= 365
    requires t == 365 ==> e == 3 && (b == 24 ==> a == 3)
    ensures YearOfCycle(36_524 * a + 1461 * b + 365 * e + t) == 100 * a + 4 * b + e
  {
    var n := 36_524 * a + 1461 * b + 365 * e + t;
    var spill := 24 * a + b + 365 * e + t;
    assert n == 1460 * (25 * a + b) + spill;
    assert n / 1460 == 25 * a + b + if spill >= 1460 then 1 else 0;
    if n < 146_096 {
      assert n / 36_524 == a && n / 146_096 == 0;
    } else {
      assert a == 3 && b == 24 && e == 3 && t == 365;
    }
  }

  lemma StartOfParts(a: int, b: int, e: int)
    requires 0 <= a <= 3 && 0 <= b <= 24 && 0 <= e <= 3
    ensures YearStart(100 * a + 4 * b + e) == 36_524 * a + 1461 * b + 365 * e
  {
    var y := 100 * a + 4 * b + e;
    assert y / 4 == 25 * a + b && y / 100 == a;
  }

  // The days of the year that begins in March of year y of a cycle and ends with the February of y + 1.
  function YearLength(y: int): int {
    if IsLeap(y + 1) then 366 else 365
  }

  lemma NextStart(y: int)
    requires 0 <= y < 400
    ensures YearStart(y) + YearLength(y) == if y == 399 then DAYS_PER_CYCLE else YearStart(y + 1)
  {
    assert (y + 1) / 4 == y / 4 + if (y + 1) % 4 == 0 then 1 else 0;
    assert (y + 1) / 100 == y / 100 + if (y + 1) % 100 == 0 then 1 else 0;
    assert (y + 1) % 100 == 0 ==> (y + 1) % 4 == 0;
  }

  lemma YearBounds(inCycle: int)
    requires 0 <= inCycle < DAYS_PER_CYCLE
    ensures var y := YearOfCycle(inCycle);
      0 <= y < 400 && YearStart(y) <= inCycle < YearStart(y) + YearLength(y)
  {
    hide YearOfCycle, YearStart;
    var a := if inCycle / 36_524 > 3 then 3 else inCycle / 36_524;
    var r := inCycle - 36_524 * a;
    assert 0 <= r <= 36_524 && (r == 36_524 ==> a == 3);
    var b := r / 1461;
    var r' := r - 1461 * b;
    var e := if r' / 365 > 3 then 3 else r' / 365;
    var t := r' - 365 * e;
    YearOfParts(a, b, e, t);
    StartOfParts(a, b, e);
    var y := 100 * a + 4 * b + e;
    if t == 365 {
      assert e == 3 && IsLeap(y + 1) by {
        assert y + 1 == 100 * a + 4 * (b + 1);
        assert b < 24 ==> (y + 1) % 100 == 4 * (b + 1);
      }
    }
  }

  lemma {:induction false} StartsGrow(y: int, z: int)
    requires 0 <= y < z <= 399
    ensures YearStart(y) + YearLength(y) <= YearStart(z)
    decreases z
  {
    hide YearStart;
    NextStart(y);
    if y + 1 < z {
      StartsGrow(y, z - 1);
      NextStart(z - 1);
    }
  }

  lemma EndsWithin(y: int)
    requires 0 <= y <= 399
    ensures YearStart(y) + YearLength(y) <= DAYS_PER_CYCLE
  {
    hide YearStart;
    NextStart(399);
    if y < 399 {
      StartsGrow(y, 399);
    }
  }

  lemma YearIs(inCycle: int, y: int)
    requires 0 <= y < 400 && 0 <= inCycle < DAYS_PER_CYCLE
    requires YearStart(y) <= inCycle < YearStart(y) + YearLength(y)
    ensures YearOfCycle(inCycle) == y
  {
    hide YearStart, YearOfCycle;
    YearBounds(inCycle);
    var z := YearOfCycle(inCycle);
    if z < y {
      StartsGrow(z, y);
    } else if y < z {
      StartsGrow(y, z);
    }
  }

  // ---- the months of a year ----

  // The month counted from March as a civil month.
  function CivilMonth(m: int): int {
    if m < 10 then m + 3 else m - 9
  }

  lemma MonthBounds(dayOfYear: int)
    requires 0 <= dayOfYear <= 365
    ensures var m := MonthOfYear(dayOfYear);
      && 0 <= m <= 11 && MonthStart(m) <= dayOfYear < MonthStart(m + 1)
      && (m <= 10 <==> dayOfYear < 337)
  {
  }

  // February is left to its year; every other month has its length.
  lemma MonthSpan(year: int, m: int)
    requires 0 <= m <= 10
    ensures MonthStart(m + 1) - MonthStart(m) == MonthLength(year, CivilMonth(m))
  {
    assert m == 0 || m == 1 || m == 2 || m == 3 || m == 4 || m == 5 || m == 6 || m == 7 || m == 8 || m == 9 || m == 10;
  }

  // The date of day dayOfYear of the year that begins in March of the given year.
  function DateIn(year: int, dayOfYear: int): Date {
    var m := MonthOfYear(dayOfYear);
    Date(year + (if m >= 10 then 1 else 0), CivilMonth(m), dayOfYear - MonthStart(m) + 1)
  }

  lemma DayByDay(year: int, dayOfYear: int)
    requires 0 <= dayOfYear < YearLength(year)
    ensures ValidDate(DateIn(year, dayOfYear))
    ensures Tomorrow(DateIn(year, dayOfYear))
         == if dayOfYear + 1 < YearLength(year) then DateIn(year, dayOfYear + 1) else DateIn(year + 1, 0)
  {
    hide MonthOfYear, MonthStart, IsLeap;
    var m := MonthOfYear(dayOfYear);
    MonthBounds(dayOfYear);
    MonthStarts();
    if m <= 10 {
      var d := DateIn(year, dayOfYear);
      MonthSpan(d.year, m);
      MonthBounds(dayOfYear + 1);
      NextMonth(dayOfYear, m);
      if dayOfYear + 1 < MonthStart(m + 1) {
        assert Tomorrow(d) == d.(day := d.day + 1);
      } else {
        assert d.day == MonthLength(d.year, d.month);
      }
    } else if dayOfYear + 1 < YearLength(year) {
      MonthBounds(dayOfYear + 1);
      NextMonth(dayOfYear, m);
    }
  }

  lemma MonthStarts()
    ensures MonthStart(0) == 0 && MonthStart(11) == 337 && MonthStart(12) == 367
    ensures MonthOfYear(0) == 0
  {
  }

  // A day later it is the same month or the next.
  lemma NextMonth(dayOfYear: int, m: int)
    requires 0 <= dayOfYear < 365 && MonthOfYear(dayOfYear) == m
    ensures MonthOfYear(dayOfYear + 1) == if dayOfYear + 1 < MonthStart(m + 1) then m else m + 1
  {
  }

  // ---- one day after another ----

  lemma SameDate(days: int)
    ensures var z := days + 719_468;
      && var y := YearOfCycle(z % DAYS_PER_CYCLE);
      DateOf(days) == DateIn(y + 400 * (z / DAYS_PER_CYCLE), z % DAYS_PER_CYCLE - YearStart(y))
  {
    hide YearOfCycle, YearStart;
    var z := days + 719_468;
    var y := YearOfCycle(z % DAYS_PER_CYCLE);
    YearBounds(z % DAYS_PER_CYCLE);
    MonthBounds(z % DAYS_PER_CYCLE - YearStart(y));
  }

  lemma LeapRepeats(year: int, cycle: int)
    ensures IsLeap(year + 400 * cycle) == IsLeap(year)
  {
    RepeatsBy4(year, 100 * cycle);
    RepeatsBy100(year, 4 * cycle);
    RepeatsBy400(year, cycle);
    assert 4 * (100 * cycle) == 400 * cycle && 100 * (4 * cycle) == 400 * cycle;
  }

  lemma RepeatsBy4(year: int, k: int)
    ensures (year + 4 * k) % 4 == year % 4
  {
  }

  lemma RepeatsBy100(year: int, k: int)
    ensures (year + 100 * k) % 100 == year % 100
  {
  }

  lemma RepeatsBy400(year: int, k: int)
    ensures (year + 400 * k) % 400 == year % 400
  {
  }

  lemma CycleStep(z: int)
    ensures if z % DAYS_PER_CYCLE + 1 < DAYS_PER_CYCLE
            then (z + 1) % DAYS_PER_CYCLE == z % DAYS_PER_CYCLE + 1 && (z + 1) / DAYS_PER_CYCLE == z / DAYS_PER_CYCLE
            else (z + 1) % DAYS_PER_CYCLE == 0 && (z + 1) / DAYS_PER_CYCLE == z / DAYS_PER_CYCLE + 1
  {
  }

  lemma DatesFollow(days: int)
    ensures ValidDate(DateOf(days)) && DateOf(days + 1) == Tomorrow(DateOf(days))
  {
    hide YearOfCycle, YearStart, DateOf, DateIn, IsLeap, ValidDate, Tomorrow;
    var z := days + 719_468;
    var c, d := z / DAYS_PER_CYCLE, z % DAYS_PER_CYCLE;
    var y := YearOfCycle(d);
    YearBounds(d);
    SameDate(days);
    SameDate(days + 1);
    CycleStep(z);
    LeapRepeats(y + 1, c);
    DayByDay(y + 400 * c, d - YearStart(y));
    NextStart(y);
    EndsWithin(y);
    if d + 1 < YearStart(y) + YearLength(y) {
      YearIs(d + 1, y);
    } else if y < 399 {
      EndsWithin(y + 1);
      YearIs(d + 1, y + 1);
    } else {
      FirstYear();
    }
  }

  lemma FirstYear()
    ensures YearOfCycle(0) == 0 && YearStart(0) == 0
  {
  }

  lemma YesterdayIs(d: Date)
    requires ValidDate(d)
    ensures Yesterday(Tomorrow(d)) == d
  {
  }

  lemma {:induction false} DateIsCalendar(days: int)
    ensures DateOf(days) == Calendar(days)
    decreases if days < 0 then -days else days
  {
    hide Tomorrow, Yesterday;
    if days > 0 {
      DateIsCalendar(days - 1);
      DatesFollow(days - 1);
    } else if days < 0 {
      DateIsCalendar(days + 1);
      DatesFollow(days);
      YesterdayIs(DateOf(days));
    } else {
      Epoch();
    }
  }

  lemma Epoch()
    ensures DateOf(0) == Date(1970, 1, 1)
  {
  }

  // ---- main results ----

  // The day of a record is the calendar day its time falls in, for every time: the first day of 1970 is
  // 1970-01-01, and each day is followed by the calendar's next.
  lemma DayIsCalendarDay(unixMillis: int, days: int)
    requires days * MILLIS_PER_DAY <= unixMillis < (days + 1) * MILLIS_PER_DAY
    ensures FormatDay(unixMillis) == FormatDate(Calendar(days))
  {
    hide FormatDate, DateOf, Calendar;
    assert unixMillis / MILLIS_PER_DAY == days;
    DateIsCalendar(days);
  }

  lemma FirstDay(unixMillis: int)
    requires 0 <= unixMillis < MILLIS_PER_DAY
    ensures FormatDay(unixMillis) == "1970-01-01"
  {
    DayIsCalendarDay(unixMillis, 0);
    EpochText();
  }

  lemma EpochText()
    ensures FormatDate(Date(1970, 1, 1)) == "1970-01-01"
  {
    assert FormatNat(1) == "1" && FormatNat(19) == "19" && FormatNat(197) == "197" && FormatNat(1970) == "1970";
    assert Zeros(1) == "0";
    assert Pad(1970, 4) == "1970" && Pad(1, 2) == "01";
  }

  // ---- days as strings: the order prunes and resets compare by, and the months ----

  function Power10(n: nat): nat {
    if n == 0 then 1 else 10 * Power10(n - 1)
  }

  lemma {:induction false} LessConcat(p: string, q: string, s: string, t: string)
    requires |p| == |q|
    ensures Less(p + s, q + t) <==> Less(p, q) || (p == q && Less(s, t))
    decreases |p|
  {
    if p == "" {
      assert p + s == s && q + t == t;
    } else {
      assert (p + s)[1..] == p[1..] + s && (q + t)[1..] == q[1..] + t;
      LessConcat(p[1..], q[1..], s, t);
      assert p == q <==> p[0] == q[0] && p[1..] == q[1..];
    }
  }

  // Padding as digits from the last to the first.
  function Digits(i: nat, width: nat): (s: string)
    ensures |s| == width
  {
    if width == 0 then "" else Digits(i / 10, width - 1) + ['0' + (i % 10) as char]
  }

  lemma {:induction false} DigitsOfZero(width: nat)
    ensures Digits(0, width) == Zeros(width)
    decreases width
  {
    if width > 0 {
      DigitsOfZero(width - 1);
      ZerosShift(width - 1);
    }
  }

  lemma {:induction false} ZerosShift(n: nat)
    ensures Zeros(n) + "0" == "0" + Zeros(n)
  {
    if n > 0 {
      ZerosShift(n - 1);
    }
  }

  lemma {:induction false} PadIsDigits(i: nat, width: nat)
    requires i < Power10(width) && width > 0
    ensures |FormatNat(i)| <= width
    ensures Zeros(width - |FormatNat(i)|) + FormatNat(i) == Digits(i, width)
    decreases width
  {
    if i < 10 {
      DigitsOfZero(width - 1);
    } else {
      PadIsDigits(i / 10, width - 1);
      assert FormatNat(i) == FormatNat(i / 10) + ['0' + (i % 10) as char];
    }
  }

  lemma PadIs(i: nat, width: nat)
    requires i < Power10(width) && width > 0
    ensures Pad(i, width) == Digits(i, width)
  {
    PadIsDigits(i, width);
  }

  lemma {:induction false} DigitsOrder(i: nat, j: nat, width: nat)
    requires i < Power10(width) && j < Power10(width)
    ensures Less(Digits(i, width), Digits(j, width)) <==> i < j
    ensures Digits(i, width) == Digits(j, width) <==> i == j
    decreases width
  {
    if width > 0 {
      var p, q := Digits(i / 10, width - 1), Digits(j / 10, width - 1);
      DigitsOrder(i / 10, j / 10, width - 1);
      LessConcat(p, q, ['0' + (i % 10) as char], ['0' + (j % 10) as char]);
      OneDigitLess('0' + (i % 10) as char, '0' + (j % 10) as char);
      assert Digits(i, width)[..width - 1] == p && Digits(j, width)[..width - 1] == q;
      assert Digits(i, width)[width - 1] == '0' + (i % 10) as char && Digits(j, width)[width - 1] == '0' + (j % 10) as char;
    }
  }

  lemma OneDigitLess(a: char, b: char)
    ensures Less([a], [b]) <==> a < b
  {
  }

  predicate Printable(d: Date) {
    ValidDate(d) && 0 <= d.year <= 9999
  }

  predicate Earlier(d: Date, e: Date) {
    d.year < e.year || (d.year == e.year && (d.month < e.month || (d.month == e.month && d.day < e.day)))
  }

  lemma DateDigits(d: Date)
    requires Printable(d)
    ensures FormatDate(d) == Digits(d.year, 4) + ("-" + (Digits(d.month, 2) + ("-" + Digits(d.day, 2))))
    ensures d.year < Power10(4) && d.month < Power10(2) && d.day < Power10(2)
  {
    hide Pad, Digits;
    assert Power10(2) == 100;
    assert Power10(4) == 10_000 by {
      assert Power10(3) == 1000;
    }
    PadIs(d.year, 4);
    PadIs(d.month, 2);
    PadIs(d.day, 2);
  }

  lemma DatesSortAsStrings(d: Date, e: Date)
    requires Printable(d) && Printable(e)
    ensures Less(FormatDate(d), FormatDate(e)) <==> Earlier(d, e)
  {
    hide FormatDate, Digits, Less, Power10;
    DateDigits(d);
    DateDigits(e);
    var dd, ee := Digits(d.day, 2), Digits(e.day, 2);
    var dm, em := Digits(d.month, 2), Digits(e.month, 2);
    LessConcat(Digits(d.year, 4), Digits(e.year, 4), "-" + (dm + ("-" + dd)), "-" + (em + ("-" + ee)));
    LessConcat("-", "-", dm + ("-" + dd), em + ("-" + ee));
    LessConcat(dm, em, "-" + dd, "-" + ee);
    LessConcat("-", "-", dd, ee);
    LessTotal("-", "-");
    DigitsOrder(d.year, e.year, 4);
    DigitsOrder(d.month, e.month, 2);
    DigitsOrder(d.day, e.day, 2);
  }

  lemma TomorrowIsLater(d: Date)
    requires ValidDate(d)
    ensures Earlier(d, Tomorrow(d))
  {
  }

  lemma {:induction false} CalendarOrder(a: int, b: int)
    requires a < b
    ensures Earlier(Calendar(a), Calendar(b))
    decreases b - a
  {
    hide Calendar, Tomorrow;
    DateIsCalendar(b - 1);
    DateIsCalendar(b);
    DatesFollow(b - 1);
    TomorrowIsLater(Calendar(b - 1));
    if a < b - 1 {
      CalendarOrder(a, b - 1);
    }
  }

  // Through the year 9999 day strings compare as the days do, so that pruning and resetting by string
  // comparison is pruning and resetting by time.
  lemma DaysSortAsStrings(a: int, b: int)
    requires 0 <= DateOf(a / MILLIS_PER_DAY).year <= 9999 && 0 <= DateOf(b / MILLIS_PER_DAY).year <= 9999
    ensures Less(FormatDay(a), FormatDay(b)) <==> a / MILLIS_PER_DAY < b / MILLIS_PER_DAY
  {
    hide Calendar, DateOf, FormatDate, Less;
    var x, y := a / MILLIS_PER_DAY, b / MILLIS_PER_DAY;
    DateIsCalendar(x);
    DateIsCalendar(y);
    DatesSortAsStrings(DateOf(x), DateOf(y));
    if x < y {
      CalendarOrder(x, y);
    } else if y < x {
      CalendarOrder(y, x);
    }
  }

  // Two days have the same month string exactly when they fall in the same month of the same year.
  lemma MonthsGroupDays(a: int, b: int)
    requires 0 <= DateOf(a / MILLIS_PER_DAY).year <= 9999 && 0 <= DateOf(b / MILLIS_PER_DAY).year <= 9999
    ensures MonthOf(FormatDay(a)) == MonthOf(FormatDay(b))
            <==> DateOf(a / MILLIS_PER_DAY).year == DateOf(b / MILLIS_PER_DAY).year
                 && DateOf(a / MILLIS_PER_DAY).month == DateOf(b / MILLIS_PER_DAY).month
  {
    hide DateOf, FormatDate, Digits, Power10;
    var d, e := DateOf(a / MILLIS_PER_DAY), DateOf(b / MILLIS_PER_DAY);
    DatesFollow(a / MILLIS_PER_DAY);
    DatesFollow(b / MILLIS_PER_DAY);
    MonthDigits(d);
    MonthDigits(e);
    DateDigits(d);
    DateDigits(e);
    DigitsOrder(d.year, e.year, 4);
    DigitsOrder(d.month, e.month, 2);
    var s, t := MonthOf(FormatDate(d)), MonthOf(FormatDate(e));
    assert s[..4] == Digits(d.year, 4) && s[5..] == Digits(d.month, 2);
    assert t[..4] == Digits(e.year, 4) && t[5..] == Digits(e.month, 2);
  }

  lemma MonthDigits(d: Date)
    requires Printable(d)
    ensures MonthOf(FormatDate(d)) == Digits(d.year, 4) + "-" + Digits(d.month, 2)
  {
    hide FormatDate, Digits;
    DateDigits(d);
  }

  // ---- what pruning and resetting remove, by time ----

  predicate FourDigitYear(t: int) {
    0 <= DateOf(t / MILLIS_PER_DAY).year <= 9999
  }

  // Pruning before the day of a time keeps exactly the destination rows of that day and later ones, as they are.
  lemma PruneGoesByTime(stats: map<Ledger.StatKey, Ledger.Stat>, k: Ledger.StatKey, t: int, before: int)
    requires k.day == FormatDay(t) && FourDigitYear(t) && FourDigitYear(before)
    ensures var kept := Ledger.Pruned(stats, FormatDay(before));
      && (k in kept <==> k in stats && t / MILLIS_PER_DAY >= before / MILLIS_PER_DAY)
      && (k in kept ==> kept[k] == stats[k])
  {
    hide FormatDay, Less;
    DaysSortAsStrings(t, before);
  }

  // Resetting a user from the day of a time on removes exactly that user's day rows of that day and later ones.
  lemma ResetGoesByTime(usage: map<Ledger.Period, Traffic>, k: Ledger.Period, user: int, t: int, from: int)
    requires k.start == FormatDay(t) && FourDigitYear(t) && FourDigitYear(from)
    ensures var kept := Ledger.Cleared(usage, user, FormatDay(from), Ledger.Day);
      && (k in kept <==>
            k in usage && (k.userID != user || k.granularity != Ledger.Day || t / MILLIS_PER_DAY < from / MILLIS_PER_DAY))
      && (k in kept ==> kept[k] == usage[k])
  {
    hide FormatDay, Less;
    DaysSortAsStrings(t, from);
  }
}
