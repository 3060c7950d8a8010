/** Broken-down UTC time to seconds since 1970 (cutils.c, mktimegm). */
module Calendar {
  import opened Common

  /** A C `int` of 32 bits. Arithmetic that leaves its range is undefined in C and wraps on the machines QEMU
      is built for; the model wraps. */
  type Int = x: int | -0x8000_0000 <= x < 0x8000_0000

  function Wrap(x: int): (w: Int)
    ensures -0x8000_0000 <= x < 0x8000_0000 <==> w == x
  {
    (x + 0x8000_0000) % 0x1_0000_0000 - 0x8000_0000
  }

  function Add(a: Int, b: Int): Int {
    Wrap(a + b)
  }

  function Sub(a: Int, b: Int): Int {
    Wrap(a - b)
  }

  function Mul(a: Int, b: Int): Int {
    Wrap(a * b)
  }

  function Div(a: Int, b: Int): Int
    requires b > 1
  {
    CDiv(a, b)
  }

  /** The fields of struct tm that are read: years from 1900, months from 0. */
  datatype Tm = Tm(year: Int, mon: Int, mday: Int, hour: Int, min: Int, sec: Int)

  /** The day number as one would compute it without overflow. */
  function DayNumber(year: int, month: int, d: int): int {
    var m, y := if month < 3 then month + 12 else month, if month < 3 then year - 1 else year;
    d + CDiv(153 * m - 457, 5) + 365 * y + CDiv(y, 4) - CDiv(y, 100) + CDiv(y, 400) - 719469
  }

  /** A date of the calendar and a time of day. */
  ghost predicate ValidTm(tm: Tm) {
    && ValidDate(tm.year + 1900, tm.mon + 1, tm.mday)
    && 0 <= tm.hour < 24 && 0 <= tm.min < 60 && 0 <= tm.sec < 60
  }

  ghost function TimeOfDay(tm: Tm): int {
    3600 * tm.hour + 60 * tm.min + tm.sec
  }

  /** Seconds since 1 January 1970, counted through the calendar. */
  ghost function Counted(tm: Tm): int {
    86400 * (DaysCounted(tm.year + 1900, tm.mon + 1, tm.mday) - DaysCounted(1970, 1, 1)) + TimeOfDay(tm)
  }

  /** The dates whose day number times 86400 is an int: 14 December 1901 to 19 January 2038. */
  predicate InSpan(x: Date) {
    !Before(x, Date(1901, 12, 14)) && !Before(Date(2038, 1, 19), x)
  }

  function DateOf(tm: Tm): Date {
    Date(tm.year + 1900, tm.mon + 1, tm.mday)
  }

  /** mktimegm. Every operand of the product is an int, so the product is formed in 32 bits before it is stored
      in a time_t. The result is the counted seconds exactly for the dates in the span; for other dates it is off
      by a multiple of 2^32, unless the year itself has overflowed. */
  method Mktimegm(tm: Tm) returns (t: int)
    ensures ValidTm(tm) ==> (t == Counted(tm) <==> InSpan(DateOf(tm)))
    ensures ValidTm(tm) && tm.year + 1900 < 0x8000_0000 ==>
              t == Wrap(Counted(tm) - TimeOfDay(tm)) + TimeOfDay(tm)
  {
    hide DayNumber, DaysCounted, Before, ValidDate, CDiv, Wrap;
    var y, m, d := Add(tm.year, 1900), Add(tm.mon, 1), tm.mday;
    if m < 3 {
      m := Add(m, 12);
      y := Sub(y, 1);
    }
    var days := Add(d, Div(Sub(Mul(153, m), 457), 5));
    days := Add(days, Mul(365, y));
    days := Add(days, Div(y, 4));
    days := Sub(days, Div(y, 100));
    days := Add(days, Div(y, 400));
    days := Sub(days, 719469);
    var product := Mul(86400, days);
    t := product;
    t := t + Add(Add(Mul(3600, tm.hour), Mul(60, tm.min)), tm.sec);
    if ValidTm(tm) {
      TimeFits(tm);
      CountedIs(tm);
      if tm.year + 1900 < 0x8000_0000 {
        FieldsFit(tm);
        ProductIs(tm, m, y, days);
      } else {
        HugeYear(tm);
      }
      WrapExact(Counted(tm) - TimeOfDay(tm));
    }
  }

  lemma WrapExact(x: int)
    ensures -0x8000_0000 <= x < 0x8000_0000 <==> Wrap(x) == x
  {
  }

  lemma CountedIs(tm: Tm)
    requires ValidTm(tm)
    ensures Counted(tm) == 86400 * DayNumber(tm.year + 1900, tm.mon + 1, tm.mday) + TimeOfDay(tm)
    ensures InSpan(DateOf(tm)) <==> -0x8000_0000 <= Counted(tm) - TimeOfDay(tm) < 0x8000_0000
  {
    hide DayNumber, DaysCounted, InSpan, DaysIn;
    FormulaCounts(tm.year + 1900, tm.mon + 1, tm.mday);
    InSpanIs(DateOf(tm));
  }

  lemma FieldsFit(tm: Tm)
    requires ValidTm(tm) && tm.year + 1900 < 0x8000_0000
    ensures 0 <= tm.mon < 12 && Add(tm.year, 1900) == tm.year + 1900 && Add(tm.mon, 1) == tm.mon + 1
    ensures Add(tm.mon + 1, 12) == tm.mon + 13 && Sub(tm.year + 1900, 1) == tm.year + 1899
  {
    hide DaysIn;
  }

  lemma TimeFits(tm: Tm)
    requires ValidTm(tm)
    ensures Add(Add(Mul(3600, tm.hour), Mul(60, tm.min)), tm.sec) == TimeOfDay(tm)
  {
  }

  lemma WrapParts(a: int) returns (k: int)
    ensures a == Wrap(a) + k * 0x1_0000_0000
  {
    k := (a + 0x8000_0000) / 0x1_0000_0000;
  }

  lemma WrapWrap(a: int, b: int)
    ensures Wrap(Wrap(a) + b) == Wrap(a + b) && Wrap(a + Wrap(b)) == Wrap(a + b)
    ensures Wrap(Wrap(a) + Wrap(b)) == Wrap(a + b)
  {
    hide Wrap;
    var j := WrapParts(a);
    var k := WrapParts(b);
    WrapShift(Wrap(a) + b, j);
    WrapShift(a + Wrap(b), k);
    WrapShift(Wrap(a) + Wrap(b), j + k);
  }

  /** The chain of sums and the product, each wrapping, is the wrapped product of the day number. */
  lemma ProductIs(tm: Tm, m: Int, y: Int, days: Int)
    requires ValidTm(tm) && tm.year + 1900 < 0x8000_0000
    requires m == if tm.mon + 1 < 3 then tm.mon + 13 else tm.mon + 1
    requires y == if tm.mon + 1 < 3 then tm.year + 1899 else tm.year + 1900
    requires var a := Add(Add(Add(tm.mday, Div(Sub(Mul(153, m), 457), 5)), Mul(365, y)), Div(y, 4));
             days == Sub(Add(Sub(a, Div(y, 100)), Div(y, 400)), 719469)
    ensures Mul(86400, days) == Wrap(86400 * DayNumber(tm.year + 1900, tm.mon + 1, tm.mday))
  {
    hide Wrap, CDiv;
    var q: int, a4: int, a100: int, a400: int := Div(Sub(Mul(153, m), 457), 5), Div(y, 4), Div(y, 100), Div(y, 400);
    SmallMonth(m);
    var s1 := tm.mday + q;
    var s2 := s1 + 365 * y;
    WrapWrap(s1, 365 * y);
    WrapWrap(s2, a4);
    WrapWrap(s2 + a4, -a100);
    WrapWrap(s2 + a4 - a100, a400);
    WrapWrap(s2 + a4 - a100 + a400, -719469);
    WrapScale(s2 + a4 - a100 + a400 - 719469);
  }

  lemma SmallMonth(m: Int)
    requires 3 <= m <= 14
    ensures Div(Sub(Mul(153, m), 457), 5) == CDiv(153 * m - 457, 5)
  {
  }

  lemma WrapScale(x: int)
    ensures Wrap(86400 * Wrap(x)) == Wrap(86400 * x)
  {
    var k := (x + 0x8000_0000) / 0x1_0000_0000;
    assert x == Wrap(x) + k * 0x1_0000_0000;
    WrapShift(86400 * Wrap(x), 86400 * k);
  }

  lemma WrapShift(x: int, k: int)
    ensures Wrap(x + k * 0x1_0000_0000) == Wrap(x)
  {
  }

  /** When the year overflows, the counted seconds are far above anything a wrapped product can be. */
  lemma HugeYear(tm: Tm)
    requires ValidTm(tm) && tm.year + 1900 >= 0x8000_0000
    ensures Counted(tm) - TimeOfDay(tm) >= 0x8000_0000
  {
    FormulaCounts(tm.year + 1900, tm.mon + 1, tm.mday);
  }

  /** What the span is: the day number times 86400 is an int. */
  lemma InSpanIs(x: Date)
    requires ValidDate(x.y, x.m, x.d)
    ensures InSpan(x) <==> -0x8000_0000 <= 86400 * DayNumber(x.y, x.m, x.d) < 0x8000_0000
  {
    hide DayNumber, DaysIn, Leap;
    SpanEnds();
    Ordered(x, Date(1901, 12, 14));
    Ordered(Date(2038, 1, 19), x);
  }

  lemma SpanEnds()
    ensures DayNumber(1901, 12, 14) == -24855 && DayNumber(2038, 1, 19) == 24855
    ensures ValidDate(1901, 12, 14) && ValidDate(2038, 1, 19)
  {
  }

  lemma Ordered(a: Date, b: Date)
    requires ValidDate(a.y, a.m, a.d) && ValidDate(b.y, b.m, b.d)
    ensures Before(a, b) <==> DayNumber(a.y, a.m, a.d) < DayNumber(b.y, b.m, b.d)
  {
    hide DayNumber, DaysIn;
    if Before(a, b) {
      Increasing(a, b);
    } else if Before(b, a) {
      Increasing(b, a);
    }
  }

  /** The first day after the span: midnight of 20 January 2038 comes out in 1901. */
  method FirstWrongDay(tm: Tm) returns (t: int)
    requires tm == Tm(138, 0, 20, 0, 0, 0)
    ensures t == -2147408896
  {
    hide *;
    TwentiethTm(tm);
    CountedIs(tm);
    t := Mktimegm(tm);
    WrapPast();
  }

  lemma TwentiethTm(tm: Tm)
    requires tm == Tm(138, 0, 20, 0, 0, 0)
    ensures ValidTm(tm) && tm.year + 1900 < 0x8000_0000 && TimeOfDay(tm) == 0
    ensures 86400 * DayNumber(tm.year + 1900, tm.mon + 1, tm.mday) == 2147558400
  {
    hide DayNumber, ValidDate;
    assert tm.year + 1900 == 2038 && tm.mon + 1 == 1 && tm.mday == 20;
    Twentieth();
  }

  lemma WrapPast()
    ensures Wrap(2147558400) == -2147408896
  {
  }

  lemma Twentieth()
    ensures ValidDate(2038, 1, 20) && DayNumber(2038, 1, 20) == 24856
  {
  }

  // ---- The Gregorian calendar ----

  predicate Leap(y: int) {
    y % 4 == 0 && (y % 100 != 0 || y % 400 == 0)
  }

  function DaysIn(y: int, m: int): (n: int)
    ensures 28 <= n <= 31
  {
    if m == 2 then (if Leap(y) then 29 else 28) else if m == 4 || m == 6 || m == 9 || m == 11 then 30 else 31
  }

  predicate ValidDate(y: int, m: int, d: int) {
    1 <= y && 1 <= m <= 12 && 1 <= d <= DaysIn(y, m)
  }

  /** Days from 1 January of year 1, counted year by year and month by month. */
  function DaysBeforeYear(y: int): int
    decreases y
  {
    if y <= 1 then 0 else DaysBeforeYear(y - 1) + if Leap(y - 1) then 366 else 365
  }

  function DaysBeforeMonth(y: int, m: int): int
    decreases m
  {
    if m <= 1 then 0 else DaysBeforeMonth(y, m - 1) + DaysIn(y, m - 1)
  }

  function DaysCounted(y: int, m: int, d: int): int {
    DaysBeforeYear(y) + DaysBeforeMonth(y, m) + d - 1
  }

  lemma DivStep(y: int, k: int)
    requires y >= 1 && k > 0
    ensures y / k - (y - 1) / k == if y % k == 0 then 1 else 0
  {
    var q, rem := y / k, y % k;
    assert y == q * k + rem;
    if rem == 0 {
      assert y - 1 == (q - 1) * k + (k - 1);
      Quotient(y - 1, k, q - 1, k - 1);
    } else {
      Quotient(y - 1, k, q, rem - 1);
    }
  }

  lemma Quotient(n: int, k: int, q: int, rem: int)
    requires k > 0 && n == q * k + rem && 0 <= rem < k
    ensures n / k == q
  {
    var q', rem' := n / k, n % k;
    assert (q - q') * k == rem' - rem && (q' - q) * k == rem - rem';
    if q > q' {
      Grows(q - q', k);
    } else if q < q' {
      Grows(q' - q, k);
    }
  }

  lemma Grows(a: int, k: int)
    requires a >= 1 && k > 0
    ensures a * k >= k
  {
  }

  /** Leap years are what the three divisions count. */
  lemma LeapStep(y: int)
    requires y >= 1
    ensures (y / 4 - y / 100 + y / 400) - ((y - 1) / 4 - (y - 1) / 100 + (y - 1) / 400) == if Leap(y) then 1 else 0
  {
    DivStep(y, 4);
    DivStep(y, 100);
    DivStep(y, 400);
    assert y % 100 == 0 ==> y % 4 == 0;
    assert y % 400 == 0 ==> y % 100 == 0;
  }

  lemma NextMonth(y: int, m: int)
    requires 1 <= y && 1 <= m < 12
    ensures DayNumber(y, m + 1, 1) == DayNumber(y, m, 1) + DaysIn(y, m)
  {
    LeapStep(y);
  }

  lemma NextYear(y: int)
    requires 1 <= y
    ensures DayNumber(y + 1, 1, 1) == DayNumber(y, 12, 1) + 31
  {
  }

  lemma {:induction false} MonthsAgree(y: int, m: int)
    requires 1 <= y && 1 <= m <= 12
    ensures DayNumber(y, m, 1) == DayNumber(y, 1, 1) + DaysBeforeMonth(y, m)
    decreases m
  {
    hide DayNumber, DaysIn;
    if m > 1 {
      MonthsAgree(y, m - 1);
      NextMonth(y, m - 1);
    }
  }

  lemma YearLength(y: int)
    requires 1 <= y
    ensures DaysBeforeMonth(y, 12) == if Leap(y) then 335 else 334
  {
    hide Leap;
    assert DaysBeforeMonth(y, 3) == if Leap(y) then 60 else 59;
    assert DaysBeforeMonth(y, 6) == DaysBeforeMonth(y, 3) + 92;
    assert DaysBeforeMonth(y, 9) == DaysBeforeMonth(y, 6) + 92;
  }

  lemma {:induction false} YearsAgree(y: int)
    requires 1 <= y
    ensures DayNumber(y, 1, 1) == DaysBeforeYear(y) - 719162
    decreases y
  {
    hide DaysBeforeMonth, DaysIn;
    if y > 1 {
      YearsAgree(y - 1);
      MonthsAgree(y - 1, 12);
      YearLength(y - 1);
      NextYear(y - 1);
    }
  }

  /** The closed formula counts the days of the calendar, for every date of every year from 1; 1 January 1970 is 0. */
  lemma FormulaCounts(y: int, m: int, d: int)
    requires 1 <= y && 1 <= m <= 12
    ensures DayNumber(y, m, d) == DaysCounted(y, m, d) - 719162
    ensures DayNumber(1970, 1, 1) == 0 && DaysCounted(1970, 1, 1) == 719162
  {
    hide DaysBeforeMonth, DaysBeforeYear, DaysIn;
    YearsAgree(y);
    MonthsAgree(y, m);
    YearsAgree(1970);
    MonthsAgree(1970, 1);
    assert DayNumber(y, m, d) == DayNumber(y, m, 1) + d - 1;
    Epoch();
  }

  lemma Epoch()
    ensures DayNumber(1970, 1, 1) == 0 && DaysBeforeMonth(1970, 1) == 0
  {
  }

  // ---- Next day, order, injectivity ----

  datatype Date = Date(y: int, m: int, d: int)

  function NextDay(x: Date): Date {
    if x.d < DaysIn(x.y, x.m) then Date(x.y, x.m, x.d + 1)
    else if x.m < 12 then Date(x.y, x.m + 1, 1)
    else Date(x.y + 1, 1, 1)
  }

  predicate Before(a: Date, b: Date) {
    a.y < b.y || (a.y == b.y && (a.m < b.m || (a.m == b.m && a.d < b.d)))
  }

  /** What mktimegm returns for a date and a time of day. */
  function Seconds(x: Date, secs: int): int {
    Wrap(86400 * DayNumber(x.y, x.m, x.d)) + secs
  }

  /** The day number of the next calendar day is one more; so from a date in the span its seconds are exactly one
      day later if and only if it is in the span too. */
  lemma NextDayIsOneLater(x: Date, secs: int)
    requires ValidDate(x.y, x.m, x.d)
    ensures var n := NextDay(x); ValidDate(n.y, n.m, n.d) && DayNumber(n.y, n.m, n.d) == DayNumber(x.y, x.m, x.d) + 1
    ensures InSpan(x) ==> (Seconds(NextDay(x), secs) == Seconds(x, secs) + 86400 <==> InSpan(NextDay(x)))
  {
    hide DaysIn, InSpan, Wrap;
    if x.d == DaysIn(x.y, x.m) {
      if x.m < 12 {
        NextMonth(x.y, x.m);
      } else {
        assert DaysIn(x.y, 12) == 31 by { December(x.y); }
        NextYear(x.y);
      }
    }
    InSpanIs(x);
    InSpanIs(NextDay(x));
  }

  lemma December(y: int)
    ensures DaysIn(y, 12) == 31
  {
  }

  lemma {:induction false} YearsGrow(a: int, b: int)
    requires 1 <= a < b
    ensures DaysBeforeYear(a) + DaysBeforeMonth(a, 12) + 31 <= DaysBeforeYear(b)
    decreases b
  {
    hide DaysBeforeMonth;
    YearLength(a);
    if a < b - 1 {
      YearsGrow(a, b - 1);
    }
  }

  lemma {:induction false} MonthsGrow(y: int, m: int, n: int)
    requires 1 <= m < n
    ensures DaysBeforeMonth(y, m) + DaysIn(y, m) <= DaysBeforeMonth(y, n)
    decreases n
  {
    hide DaysIn;
    if m < n - 1 {
      MonthsGrow(y, m, n - 1);
    }
  }

  lemma MonthInYear(y: int, m: int)
    requires 1 <= m <= 12
    ensures DaysBeforeMonth(y, m) + DaysIn(y, m) <= DaysBeforeMonth(y, 12) + 31
  {
    hide DaysIn, DaysBeforeMonth;
    December(y);
    if m < 12 {
      MonthsGrow(y, m, 12);
    }
  }

  /** On the span the seconds are strictly increasing in date and time of day, hence injective. */
  lemma StrictlyIncreasing(a: Date, s: int, b: Date, t: int)
    requires ValidDate(a.y, a.m, a.d) && ValidDate(b.y, b.m, b.d) && 0 <= s < 86400 && 0 <= t < 86400
    requires InSpan(a) && InSpan(b)
    ensures Before(a, b) || (a == b && s < t) ==> Seconds(a, s) < Seconds(b, t)
    ensures Seconds(a, s) == Seconds(b, t) ==> a == b && s == t
  {
    hide DayNumber, DaysBeforeYear, DaysBeforeMonth, DaysIn, InSpan, Wrap;
    InSpanIs(a);
    InSpanIs(b);
    if Before(a, b) {
      Increasing(a, b);
    } else if Before(b, a) {
      Increasing(b, a);
    }
  }

  /** Just past the span the order is lost: the day after its last day comes out before it. */
  lemma OrderEnds(secs: int)
    requires 0 <= secs < 86400
    ensures Before(Date(2038, 1, 19), Date(2038, 1, 20))
    ensures Seconds(Date(2038, 1, 20), secs) < Seconds(Date(2038, 1, 19), secs)
  {
    SpanEnds();
    Twentieth();
  }

  lemma Increasing(a: Date, b: Date)
    requires ValidDate(a.y, a.m, a.d) && ValidDate(b.y, b.m, b.d) && Before(a, b)
    ensures DayNumber(a.y, a.m, a.d) < DayNumber(b.y, b.m, b.d)
  {
    hide DayNumber, DaysBeforeYear, DaysBeforeMonth, DaysIn;
    FormulaCounts(a.y, a.m, a.d);
    FormulaCounts(b.y, b.m, b.d);
    if a.y < b.y {
      YearsGrow(a.y, b.y);
      MonthInYear(a.y, a.m);
      MonthsNotNegative(b.y, b.m);
    } else if a.m < b.m {
      MonthsGrow(a.y, a.m, b.m);
    }
  }

  lemma {:induction false} MonthsNotNegative(y: int, m: int)
    ensures DaysBeforeMonth(y, m) >= 0
    decreases m
  {
    hide DaysIn;
    if m > 1 {
      MonthsNotNegative(y, m - 1);
    }
  }
}
