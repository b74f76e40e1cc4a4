/** The two closed forms of the calendar, day number and day of week, against the Gregorian rules. */
module Calendar {
  import opened Machine

  // ---- the rules ----

  predicate Leap(y: int) { y % 4 == 0 && (y % 100 != 0 || y % 400 == 0) }

  function DaysInMonth(y: int, m: int): nat
    requires 1 <= m <= 12
  {
    if m == 2 then if Leap(y) then 29 else 28
    else if m == 4 || m == 6 || m == 9 || m == 11 then 30
    else 31
  }

  datatype Date = Date(year: int, month: int, day: int)

  predicate Valid(d: Date) { 1 <= d.month <= 12 && 1 <= d.day <= DaysInMonth(d.year, d.month) }

  /** The next day. */
  function Succ(d: Date): (r: Date)
    requires Valid(d)
    ensures Valid(r)
  {
    if d.day < DaysInMonth(d.year, d.month) then Date(d.year, d.month, d.day + 1)
    else if d.month < 12 then Date(d.year, d.month + 1, 1)
    else Date(d.year + 1, 1, 1)
  }

  predicate Before(a: Date, b: Date) {
    || a.year < b.year
    || (a.year == b.year && a.month < b.month)
    || (a.year == b.year && a.month == b.month && a.day < b.day)
  }

  // ---- the code ----

  function FloorDiv(a: int, b: int): int
    requires b > 0
  {
    var q := TruncDiv(a, b);
    if TruncMod(a, b) != 0 && a < 0 then q - 1 else q
  }

  const MONTH_SHIFT: seq<int> := [0, 3, 2, 5, 0, 3, 5, 1, 4, 6, 2, 4]

  /** y + a - b + c + t + d, every step in 32 bits. */
  function Sum32(y: int, a: int, b: int, c: int, t: int, d: int): int {
    Wrap32(Wrap32(Wrap32(Wrap32(Wrap32(y + a) - b) + c) + t) + d)
  }

  function DayOfWeek(year: int, month: int, day: int): int
    requires 1 <= month <= 12
  {
    var y := if month < 3 then Wrap32(year - 1) else year;
    var sum := Sum32(y, FloorDiv(y, 4), FloorDiv(y, 100), FloorDiv(y, 400), MONTH_SHIFT[month - 1], day);
    var raw := TruncMod(sum, 7);
    var s := TruncMod(TruncMod(raw, 7) + 7, 7);
    TruncMod(s + 6, 7)
  }

  function DaysSinceEpoch(year: int, month: int, day: int): int {
    var y := if month <= 2 then year - 1 else year;
    var era := if y >= 0 then TruncDiv(y, 400) else TruncDiv(y - 399, 400);
    var yoe := y - era * 400;
    var mShift := if month > 2 then month - 3 else month + 9;
    var doy := TruncDiv(153 * mShift + 2, 5) + day - 1;
    var doe := yoe * 365 + TruncDiv(yoe, 4) - TruncDiv(yoe, 100) + doy;
    era * 146097 + doe - 719468
  }

  datatype Stamp = Stamp(date: Date, hour: int, minute: int, second: int)

  function EpochSeconds(s: Stamp): int {
    DaysSinceEpoch(s.date.year, s.date.month, s.date.day) * 86400 + s.hour * 3600 + s.minute * 60 + s.second
  }

  function DayNumber(d: Date): int { DaysSinceEpoch(d.year, d.month, d.day) }

  // ---- one formula for the day number ----

  /** The year that starts in March, and the month counted from it. */
  function MarchYear(y: int, m: int): int { if m <= 2 then y - 1 else y }

  function MarchMonth(m: int): int { if m > 2 then m - 3 else m + 9 }

  function LeapDays(y: int): int { y / 4 - y / 100 + y / 400 }

  lemma EraIsFloor(y: int)
    ensures (if y >= 0 then TruncDiv(y, 400) else TruncDiv(y - 399, 400)) == y / 400
  {
    if y < 0 {
      var q, r := y / 400, y % 400;
      assert -(y - 399) == 400 * -q + (399 - r);
    }
  }

  lemma YearInEra(era: int, yoe: int)
    requires 0 <= yoe < 400
    ensures var y := era * 400 + yoe;
            era * 146097 + yoe * 365 + yoe / 4 - yoe / 100 == 365 * y + LeapDays(y)
  {
    var y := era * 400 + yoe;
    assert y / 4 == era * 100 + yoe / 4;
    assert y / 100 == era * 4 + yoe / 100;
    assert y / 400 == era;
  }

  lemma DayNumberFormula(y: int, m: int, d: int)
    requires 1 <= m <= 12
    ensures var my := MarchYear(y, m);
            DaysSinceEpoch(y, m, d) == 365 * my + LeapDays(my) + (153 * MarchMonth(m) + 2) / 5 + d - 719469
  {
    var my := MarchYear(y, m);
    EraIsFloor(my);
    YearInEra(my / 400, my % 400);
  }

  lemma LeapDaysNext(y: int)
    ensures LeapDays(y) - LeapDays(y - 1) == if Leap(y) then 1 else 0
  {
    Step4(y);
    Step100(y);
    Step400(y);
    Centuries(y);
    var a, b, c := y / 4 - (y - 1) / 4, y / 100 - (y - 1) / 100, y / 400 - (y - 1) / 400;
    LeapRule(a, b, c, y % 4 == 0, y % 100 == 0, y % 400 == 0);
    assert LeapDays(y) - LeapDays(y - 1) == a - b + c;
  }

  lemma Centuries(y: int)
    ensures y % 400 == 0 ==> y % 100 == 0
    ensures y % 100 == 0 ==> y % 4 == 0
  {
    var k, j := y / 400, y / 100;
    assert y == 400 * k + y % 400 && y == 100 * j + y % 100;
    Exact100(4 * k);
    Exact4(25 * j);
  }

  lemma Exact100(j: int)
    ensures 100 * j % 100 == 0
  {}

  lemma Exact4(j: int)
    ensures 4 * j % 4 == 0
  {}

  lemma LeapRule(a: int, b: int, c: int, fourth: bool, hundredth: bool, fourHundredth: bool)
    requires a == if fourth then 1 else 0
    requires b == if hundredth then 1 else 0
    requires c == if fourHundredth then 1 else 0
    requires (fourHundredth ==> hundredth) && (hundredth ==> fourth)
    ensures a - b + c == if fourth && (!hundredth || fourHundredth) then 1 else 0
  {}

  lemma Step4(y: int)
    ensures y / 4 - (y - 1) / 4 == if y % 4 == 0 then 1 else 0
  {}

  lemma Step100(y: int)
    ensures y / 100 - (y - 1) / 100 == if y % 100 == 0 then 1 else 0
  {}

  lemma Step400(y: int)
    ensures y / 400 - (y - 1) / 400 == if y % 400 == 0 then 1 else 0
  {}

  /** The lengths of months, from March on, are the steps of (153 m + 2) / 5. */
  lemma MonthLengths(y: int, m: int)
    requires 1 <= m <= 12 && m != 2
    ensures (153 * (MarchMonth(m) + 1) + 2) / 5 - (153 * MarchMonth(m) + 2) / 5 == DaysInMonth(y, m)
  {}

  lemma FirstOfNextMonth(y: int, m: int)
    requires 1 <= m <= 12
    ensures var (y', m') := if m < 12 then (y, m + 1) else (y + 1, 1);
            DaysSinceEpoch(y', m', 1) == DaysSinceEpoch(y, m, 1) + DaysInMonth(y, m)
  {
    hide DaysSinceEpoch, LeapDays, Leap;
    var (y', m') := if m < 12 then (y, m + 1) else (y + 1, 1);
    DayNumberFormula(y, m, 1);
    DayNumberFormula(y', m', 1);
    if m == 2 {
      LeapDaysNext(y);
    } else {
      MonthLengths(y, m);
    }
  }

  lemma DayInMonth(y: int, m: int, d: int)
    ensures DaysSinceEpoch(y, m, d) == DaysSinceEpoch(y, m, 1) + (d - 1)
  {}

  /** The day number of the next day is the next number, in every year. */
  lemma SuccessorIsNext(d: Date)
    requires Valid(d)
    ensures DayNumber(Succ(d)) == DayNumber(d) + 1
  {
    hide DaysSinceEpoch;
    DayInMonth(d.year, d.month, d.day);
    DayInMonth(d.year, d.month, d.day + 1);
    FirstOfNextMonth(d.year, d.month);
  }

  /** The numbering starts on the first of January 1970. */
  lemma Epoch()
    ensures DayNumber(Date(1970, 1, 1)) == 0
  {}

  // ---- order ----

  /** The first of a month, counting months through the years. */
  function MonthStart(month: int): int { DaysSinceEpoch(month / 12, month % 12 + 1, 1) }

  lemma {:induction false} MonthsAscend(a: int, b: int)
    requires a <= b
    ensures MonthStart(a) + (b - a) * 28 <= MonthStart(b)
    decreases b - a
  {
    hide DaysSinceEpoch;
    if a < b {
      var c := b - 1;
      MonthsAscend(a, c);
      FirstOfNextMonth(c / 12, c % 12 + 1);
      NextMonthIndex(c);
    }
  }

  lemma NextMonthIndex(c: int)
    ensures MonthStart(c + 1)
         == DaysSinceEpoch(if c % 12 < 11 then c / 12 else c / 12 + 1, if c % 12 < 11 then c % 12 + 2 else 1, 1)
  {
    hide DaysSinceEpoch;
    NextTwelfth(c);
  }

  lemma NextTwelfth(c: int)
    ensures (c + 1) / 12 == if c % 12 < 11 then c / 12 else c / 12 + 1
    ensures (c + 1) % 12 == if c % 12 < 11 then c % 12 + 1 else 0
  {}

  /** Earlier dates have smaller day numbers, so the numbering is one to one. */
  lemma DayNumberOrder(a: Date, b: Date)
    requires Valid(a) && Valid(b) && Before(a, b)
    ensures DayNumber(a) < DayNumber(b)
  {
    hide DaysSinceEpoch;
    var i, j := a.year * 12 + (a.month - 1), b.year * 12 + (b.month - 1);
    MonthIndex(a.year, a.month);
    MonthIndex(b.year, b.month);
    DayInMonth(a.year, a.month, a.day);
    DayInMonth(b.year, b.month, b.day);
    if i < j {
      FirstOfNextMonth(a.year, a.month);
      NextMonthIndex(i);
      MonthsAscend(i + 1, j);
    }
  }

  lemma MonthIndex(y: int, m: int)
    requires 1 <= m <= 12
    ensures (y * 12 + (m - 1)) / 12 == y && (y * 12 + (m - 1)) % 12 == m - 1
  {}

  predicate ValidStamp(s: Stamp) {
    Valid(s.date) && 0 <= s.hour < 24 && 0 <= s.minute < 60 && 0 <= s.second < 60
  }

  predicate StampBefore(a: Stamp, b: Stamp) {
    || Before(a.date, b.date)
    || (a.date == b.date && (a.hour < b.hour
          || (a.hour == b.hour && (a.minute < b.minute || (a.minute == b.minute && a.second < b.second)))))
  }

  /** One second later, with carry into the minute, the hour and the date. */
  function NextSecond(s: Stamp): (r: Stamp)
    requires ValidStamp(s)
    ensures ValidStamp(r)
  {
    if s.second < 59 then s.(second := s.second + 1)
    else if s.minute < 59 then s.(minute := s.minute + 1, second := 0)
    else if s.hour < 23 then s.(hour := s.hour + 1, minute := 0, second := 0)
    else Stamp(Succ(s.date), 0, 0, 0)
  }

  /** Seconds are counted one by one, across every carry, from the first of January 1970. */
  lemma NextSecondIsNext(s: Stamp)
    requires ValidStamp(s)
    ensures EpochSeconds(NextSecond(s)) == EpochSeconds(s) + 1
  {
    hide DaysSinceEpoch;
    SuccessorIsNext(s.date);
  }

  lemma EpochIsZero()
    ensures EpochSeconds(Stamp(Date(1970, 1, 1), 0, 0, 0)) == 0
  {
    Epoch();
  }

  /** Seconds since the epoch are strictly increasing on valid stamps. */
  lemma EpochSecondsOrder(a: Stamp, b: Stamp)
    requires ValidStamp(a) && ValidStamp(b) && StampBefore(a, b)
    ensures EpochSeconds(a) < EpochSeconds(b)
  {
    hide DaysSinceEpoch;
    if Before(a.date, b.date) { DayNumberOrder(a.date, b.date); }
  }

  /** The day before. */
  function Pred(d: Date): (r: Date)
    requires Valid(d)
    ensures Valid(r) && Succ(r) == d
  {
    if d.day > 1 then Date(d.year, d.month, d.day - 1)
    else if d.month > 1 then Date(d.year, d.month - 1, DaysInMonth(d.year, d.month - 1))
    else Date(d.year - 1, 12, 31)
  }

  /** Every integer is the number of a day. */
  lemma {:induction false} EveryNumberIsADay(n: int) returns (d: Date)
    ensures Valid(d) && DayNumber(d) == n
    decreases if n < 0 then -n else n
  {
    if n == 0 {
      d := Date(1970, 1, 1);
      Epoch();
    } else if n > 0 {
      var e := EveryNumberIsADay(n - 1);
      SuccessorIsNext(e);
      d := Succ(e);
    } else {
      var e := EveryNumberIsADay(n + 1);
      d := Pred(e);
      SuccessorIsNext(d);
    }
  }

  // ---- the day of the week ----

  /** The sum the code reduces modulo seven, without a width. */
  function WeekSum(y: int, m: int, d: int): int
    requires 1 <= m <= 12
  {
    var my := MarchYear(y, m);
    my + LeapDays(my) + MONTH_SHIFT[m - 1] + d
  }

  predicate FitsI32(x: int) { -0x8000_0000 <= x < 0x8000_0000 }

  lemma FloorDivIs(y: int)
    ensures FloorDiv(y, 4) == y / 4 && FloorDiv(y, 100) == y / 100 && FloorDiv(y, 400) == y / 400
  {}

  lemma Trunc7(x: int)
    ensures -7 < TruncMod(x, 7) < 7 && TruncMod(x, 7) == x + 7 * -TruncDiv(x, 7)
    ensures 0 <= x ==> TruncMod(x, 7) == x % 7
    ensures -7 < x < 7 ==> TruncMod(x, 7) == x
  {}

  lemma Reduce7(x: int)
    ensures TruncMod(TruncMod(TruncMod(x, 7), 7) + 7, 7) == x % 7
  {
    hide TruncMod, TruncDiv;
    var a := TruncMod(x, 7);
    Trunc7(x);
    Trunc7(a);
    Trunc7(a + 7);
    SameMod7(x, -TruncDiv(x, 7));
    SameMod7(a, 1);
  }

  lemma Wrap32Add(a: int, b: int)
    ensures Wrap32(Wrap32(a) + b) == Wrap32(a + b)
  {
    var m := 0x1_0000_0000;
    var k := (a + 0x8000_0000) / m;
    assert Wrap32(a) == a - k * m;
    Wrap32Shift(a + b, -k);
  }

  lemma Wrap32Shift(x: int, k: int)
    ensures Wrap32(x + k * 0x1_0000_0000) == Wrap32(x)
  {
    var m := 0x1_0000_0000;
    var y := x + 0x8000_0000;
    assert y + k * m == (y / m + k) * m + y % m;
    assert (y + k * m) % m == y % m;
  }

  /** Wrapping at every step is wrapping once. */
  lemma Sum32Is(y: int, a: int, b: int, c: int, t: int, d: int)
    ensures Sum32(y, a, b, c, t, d) == Wrap32(y + a - b + c + t + d)
  {
    Wrap32Add(y + a, -b);
    Wrap32Add(y + a - b, c);
    Wrap32Add(y + a - b + c, t);
    Wrap32Add(y + a - b + c + t, d);
    hide Wrap32;
  }

  lemma DayOfWeekFormula(y: int, m: int, d: int)
    requires 1 <= m <= 12
    ensures var my := if m < 3 then Wrap32(y - 1) else y;
            DayOfWeek(y, m, d) == (Wrap32(my + LeapDays(my) + MONTH_SHIFT[m - 1] + d) % 7 + 6) % 7
  {
    hide Wrap32, FloorDiv, Sum32, TruncMod;
    var my := if m < 3 then Wrap32(y - 1) else y;
    var t := MONTH_SHIFT[m - 1];
    FloorDivIs(my);
    var a, b, c := my / 4, my / 100, my / 400;
    Sum32Is(my, a, b, c, t, d);
    var w := Wrap32(my + a - b + c + t + d);
    assert my + LeapDays(my) + t + d == my + a - b + c + t + d;
    Reduce7(w);
    Trunc7(w % 7 + 6);
  }

  /** The two closed forms agree on the day of the week, up to the width of the sum. */
  lemma WeekSumAgrees(y: int, m: int, d: int)
    requires 1 <= m <= 12
    ensures (WeekSum(y, m, d) % 7 + 6) % 7 == (DaysSinceEpoch(y, m, d) + 3) % 7
  {
    hide DaysSinceEpoch, LeapDays, MarchYear, MarchMonth;
    DayNumberFormula(y, m, d);
    MonthShifts(m);
    var my := MarchYear(y, m);
    WeekArithmetic(my, LeapDays(my), (153 * MarchMonth(m) + 2) / 5, MONTH_SHIFT[m - 1], d);
  }

  lemma WeekArithmetic(my: int, leaps: int, s: int, t: int, d: int)
    requires (s - t - 719469 + 3 - 6) % 7 == 0
    ensures ((my + leaps + t + d) % 7 + 6) % 7 == (365 * my + leaps + s + d - 719469 + 3) % 7
  {
    var w, k := my + leaps + t + d, (s - t - 719469 + 3 - 6) / 7;
    assert 365 * my + leaps + s + d - 719469 + 3 == w + 6 + 7 * (52 * my + k);
    SameMod7(w + 6, 52 * my + k);
    SameMod7(w % 7 + 6, w / 7);
    assert w % 7 + 6 + 7 * (w / 7) == w + 6;
  }

  lemma SameMod7(x: int, k: int)
    ensures (x + 7 * k) % 7 == x % 7
  {}

  lemma MonthShifts(m: int)
    requires 1 <= m <= 12
    ensures ((153 * MarchMonth(m) + 2) / 5 - MONTH_SHIFT[m - 1] - 719469 + 3 - 6) % 7 == 0
  {}

  /** Leaving 32 bits moves the weekday: four is not zero modulo seven. */
  lemma WrappedWeekday(w: int)
    requires -0x1_0000_0000 < w < 0x1_0000_0000
    ensures Wrap32(w) % 7 == w % 7 <==> FitsI32(w)
  {
    if w >= 0x8000_0000 {
      assert Wrap32(w) == w - 0x1_0000_0000;
    } else if w < -0x8000_0000 {
      assert Wrap32(w) == w + 0x1_0000_0000;
    }
  }

  lemma WeekSumRange(y: int, m: int, d: int)
    requires FitsI32(y) && 1 <= m <= 12 && 1 <= d <= 31
    ensures -0x1_0000_0000 < WeekSum(y, m, d) < 0x1_0000_0000
  {}

  /**
   * The weekday is the day number plus three modulo seven, Monday being zero, in every year whose sum
   * fits 32 bits; in every other year that a 32-bit field can hold it is wrong.
   */
  lemma WeekdayAgreesIff(d: Date)
    requires Valid(d) && FitsI32(d.year)
    ensures DayOfWeek(d.year, d.month, d.day) == (DayNumber(d) + 3) % 7
       <==> FitsI32(WeekSum(d.year, d.month, d.day))
  {
    hide DaysSinceEpoch, DayOfWeek, LeapDays, Wrap32, WeekSum, FitsI32;
    var y, m, day := d.year, d.month, d.day;
    DayOfWeekFormula(y, m, day);
    WeekSumAgrees(y, m, day);
    WeekSumRange(y, m, day);
    var my := if m < 3 then Wrap32(y - 1) else y;
    var wrapped := Wrap32(my + LeapDays(my) + MONTH_SHIFT[m - 1] + day);
    SixMore(wrapped, WeekSum(y, m, day));
    if m >= 3 || y > -0x8000_0000 {
      YearStays(y, m, day);
      WrappedWeekday(WeekSum(y, m, day));
    } else {
      LowestYear(y);
      FirstYear(m, day);
    }
  }

  lemma SixMore(a: int, b: int)
    ensures (a % 7 + 6) % 7 == (b % 7 + 6) % 7 <==> a % 7 == b % 7
  {}

  lemma LowestYear(y: int)
    requires FitsI32(y) && y <= -0x8000_0000
    ensures y == -0x8000_0000
  {}

  lemma YearStays(y: int, m: int, d: int)
    requires FitsI32(y) && 1 <= m <= 12 && (m >= 3 || y > -0x8000_0000)
    ensures var my := if m < 3 then Wrap32(y - 1) else y;
            my + LeapDays(my) + MONTH_SHIFT[m - 1] + d == WeekSum(y, m, d)
  {
    hide LeapDays;
  }

  /** January and February of the first 32-bit year, where the year itself wraps. */
  lemma FirstYear(m: int, d: int)
    requires 1 <= m <= 2 && 1 <= d <= 31
    ensures !FitsI32(WeekSum(-0x8000_0000, m, d))
    ensures var my := Wrap32(-0x8000_0000 - 1);
            Wrap32(my + LeapDays(my) + MONTH_SHIFT[m - 1] + d) % 7 != WeekSum(-0x8000_0000, m, d) % 7
  {
    var x := MONTH_SHIFT[m - 1] + d;
    assert 1 <= x <= 34;
    LeapDaysAtTheEnds();
    hide LeapDays;
    assert Wrap32(-0x8000_0000 - 1) == 2147483647;
    assert Wrap32(2668248431 + x) == -1626718865 + x;
    assert WeekSum(-0x8000_0000, m, d) == -2668248435 + x;
  }

  lemma LeapDaysAtTheEnds()
    ensures 2147483647 + LeapDays(2147483647) == 2668248431
    ensures -2147483649 + LeapDays(-2147483649) == -2668248435
  {}

  /** Every year from -1.7 to 1.7 thousand million is on the safe side. */
  lemma OrdinaryYearsFit(y: int, m: int, d: int)
    requires -1_700_000_000 <= y <= 1_700_000_000 && 1 <= m <= 12 && 1 <= d <= 31
    ensures FitsI32(WeekSum(y, m, d))
  {}

  /** The first of March of the year two thousand million is a Wednesday, and the code says otherwise. */
  lemma WeekdayWrong(d: Date)
    requires d == Date(2_000_000_000, 3, 1)
    ensures Valid(d) && FitsI32(d.year) && DayOfWeek(d.year, d.month, d.day) != (DayNumber(d) + 3) % 7
  {
    assert WeekSum(2_000_000_000, 3, 1) == 2_000_000_000 + LeapDays(2_000_000_000) + MONTH_SHIFT[2] + 1;
    assert LeapDays(2_000_000_000) == 485_000_000;
    assert !FitsI32(WeekSum(2_000_000_000, 3, 1));
    hide DayOfWeek, DaysSinceEpoch, WeekSum;
    WeekdayAgreesIff(d);
  }
}
