/** From a day number to a date of the Gregorian calendar, and the time stamps made from it.

    The calendar is that of RFC 3339: section 5.7 gives the days of each month and
    Appendix C the leap years. Day 0 is 1970-01-01. */
module Calendar {
  import opened Common
  import opened Decimals

  datatype Date = Date(y: int, m: int, d: int)

  // ---------- the code ----------

  /** Division that truncates toward zero, as the original's does. */
  function Truncated(a: int, b: int): int
    requires b > 0
  {
    if a >= 0 then a / b else -(-a / b)
  }

  function CivilFromDays(days: int): Date {
    var z := days + 719468;
    var era := Truncated(if z >= 0 then z else z - 146096, 146097);
    CivilInEra(era, z - era * 146097)
  }

  function CivilInEra(era: int, doe: int): Date {
    CivilInYear(YearInEra(doe) + era * 400, doe - DaysToYear(YearInEra(doe)))
  }

  function YearInEra(doe: int): int {
    Truncated(doe - Truncated(doe, 1460) + Truncated(doe, 36524) - Truncated(doe, 146096), 365)
  }

  function DaysToYear(yoe: int): int {
    365 * yoe + Truncated(yoe, 4) - Truncated(yoe, 100)
  }

  /** The day `doy` of the year that starts in March of year y. */
  function CivilInYear(y: int, doy: int): Date {
    var mp := Truncated(5 * doy + 2, 153);
    var d := doy - Truncated(153 * mp + 2, 5) + 1;
    var m := if mp < 10 then mp + 3 else mp - 9;
    Date(if m <= 2 then y + 1 else y, m, d)
  }

  // ---------- the calendar ----------

  predicate Leap(y: int) {
    y % 4 == 0 && (y % 100 != 0 || y % 400 == 0)
  }

  function DaysInMonth(y: int, m: int): int {
    if m == 2 then (if Leap(y) then 29 else 28)
    else if m in {4, 6, 9, 11} then 30
    else 31
  }

  predicate Valid(t: Date) {
    1 <= t.m <= 12 && 1 <= t.d <= DaysInMonth(t.y, t.m)
  }

  function Next(t: Date): Date {
    if t.d < DaysInMonth(t.y, t.m) then t.(d := t.d + 1)
    else if t.m < 12 then Date(t.y, t.m + 1, 1)
    else Date(t.y + 1, 1, 1)
  }

  predicate Before(t: Date, u: Date) {
    t.y < u.y || (t.y == u.y && (t.m < u.m || (t.m == u.m && t.d < u.d)))
  }

  /** The number of days in the years before y, counted from year 1. */
  function DaysBeforeYear(y: int): int {
    365 * (y - 1) + (y - 1) / 4 - (y - 1) / 100 + (y - 1) / 400
  }

  function DaysBeforeMonth(y: int, m: int): int
    requires 1 <= m <= 13
    decreases m
  {
    if m == 1 then 0 else DaysBeforeMonth(y, m - 1) + DaysInMonth(y, m - 1)
  }

  /** The day number of a date: whole years, whole months, days. */
  function DaysFromCivil(t: Date): int
    requires 1 <= t.m <= 12
  {
    DaysBeforeYear(t.y) + DaysBeforeMonth(t.y, t.m) + t.d - 719163
  }

  lemma YearLength(y: int)
    ensures DaysBeforeYear(y + 1) == DaysBeforeYear(y) + if Leap(y) then 366 else 365
  {
    StepDivision(y, 4);
    StepDivision(y, 100);
    StepDivision(y, 400);
    Multiples(y);
  }

  lemma Multiples(y: int)
    ensures y % 400 == 0 ==> y % 100 == 0
    ensures y % 100 == 0 ==> y % 4 == 0
  {
    Hundreds(4 * (y / 400));
    Fours(25 * (y / 100));
  }

  lemma Hundreds(k: int)
    ensures 100 * k % 100 == 0
  {
  }

  lemma Fours(k: int)
    ensures 4 * k % 4 == 0
  {
  }

  lemma StepDivision(y: int, k: int)
    requires k in {4, 100, 400}
    ensures y / k == (y - 1) / k + if y % k == 0 then 1 else 0
  {
  }

  /** From March on, the months before month m have these days. */
  lemma MonthTable(y: int, m: int)
    requires 1 <= m <= 13
    ensures var leap := if Leap(y) then 1 else 0;
            DaysBeforeMonth(y, m) ==
            if m == 1 then 0 else if m == 2 then 31 else leap + 59 + (153 * (m - 3) + 2) / 5
  {
    if m > 1 {
      MonthTable(y, m - 1);
    }
  }

  // ---------- the day number is inverted ----------

  /** A day of a 400-year era: century, group of four years, year in the group, and day of
      a year that starts in March. Only a leap year has a day 365. */
  predicate Parts(doe: int, c: int, q: int, k: int, u: int) {
    && 0 <= c < 4 && 0 <= q < 25 && 0 <= k < 4 && 0 <= u <= 365
    && doe == 36524 * c + 1461 * q + 365 * k + u
    && (u == 365 ==> k == 3 && (q < 24 || c == 3))
  }

  lemma Split(doe: int) returns (c: int, q: int, k: int, u: int)
    requires 0 <= doe < 146097
    ensures Parts(doe, c, q, k, u)
  {
    c := if doe == 146096 then 3 else doe / 36524;
    var r := doe - 36524 * c;
    q := r / 1461;
    var t := r - 1461 * q;
    k := if t == 1460 then 3 else t / 365;
    u := t - 365 * k;
  }

  lemma YearOfEra(doe: int, c: int, q: int, k: int, u: int)
    requires Parts(doe, c, q, k, u)
    ensures (doe - doe / 1460 + doe / 36524 - doe / 146096) / 365 == 100 * c + 4 * q + k
  {
    var t := 365 * k + u;
    var late := if 24 * c + q + t >= 1460 then 1 else 0;
    var last := if doe == 146096 then 1 else 0;
    assert doe == 1460 * (25 * c + q + late) + (24 * c + q + t - 1460 * late);
    assert doe / 1460 == 25 * c + q + late;
    assert doe / 36524 == c + last;
    assert doe / 146096 == last;
    assert doe - doe / 1460 + doe / 36524 - doe / 146096 == 365 * (100 * c + 4 * q) + t - late;
    assert (t - late) / 365 == k;
  }

  lemma YearParts(c: int, q: int, k: int)
    requires 0 <= c < 4 && 0 <= q < 25 && 0 <= k < 4
    ensures var w := 100 * c + 4 * q + k; w / 4 == 25 * c + q && w / 100 == c
    ensures var w := 100 * c + 4 * q + k; 365 * w + w / 4 - w / 100 == 36524 * c + 1461 * q + 365 * k
  {
  }

  lemma EraDivision(z: int) returns (era: int, doe: int)
    ensures z == 146097 * era + doe && 0 <= doe < 146097
    ensures era == Truncated(if z >= 0 then z else z - 146096, 146097)
  {
    era, doe := z / 146097, z % 146097;
  }

  /** The years before a March that starts year w of an era. */
  lemma EraYears(era: int, c: int, q: int, k: int)
    requires 0 <= c < 4 && 0 <= q < 25 && 0 <= k < 4
    ensures var y := 400 * era + 100 * c + 4 * q + k;
            DaysBeforeYear(y + 1) == 146097 * era + 36524 * c + 1461 * q + 365 * k
  {
    var y := 400 * era + 100 * c + 4 * q + k;
    assert y / 4 == 100 * era + 25 * c + q;
    assert y / 100 == 4 * era + c;
    assert y / 400 == era;
  }

  lemma LastDayIsLeap(era: int, c: int, q: int, k: int)
    requires 0 <= c < 4 && 0 <= q < 25 && k == 3 && (q < 24 || c == 3)
    ensures Leap(400 * era + 100 * c + 4 * q + k + 1)
  {
    var y := 400 * era + 100 * c + 4 * q + k + 1;
    assert y == 4 * (100 * era + 25 * c + q + 1);
    if q < 24 {
      assert y == 100 * (4 * era + c) + 4 * (q + 1);
    } else {
      assert y == 400 * (era + 1);
    }
  }

  lemma MarchMonth(y: int, mp: int)
    requires 0 <= mp <= 11
    ensures var m, x := if mp < 10 then mp + 3 else mp - 9, if mp < 10 then y else y + 1;
            && DaysBeforeYear(x) + DaysBeforeMonth(x, m) == DaysBeforeYear(y + 1) - 306 + (153 * mp + 2) / 5
            && DaysInMonth(x, m) ==
               if mp == 11 then (if Leap(y + 1) then 29 else 28) else (153 * mp + 155) / 5 - (153 * mp + 2) / 5
  {
    if mp < 10 {
      MonthTable(y, mp + 3);
      YearLength(y);
      LengthTable(y, mp + 3);
    } else {
      MonthTable(y + 1, mp - 9);
    }
  }

  lemma LengthTable(y: int, m: int)
    requires 3 <= m <= 12
    ensures DaysInMonth(y, m) == (153 * (m - 3) + 155) / 5 - (153 * (m - 3) + 2) / 5
  {
  }

  /** Day u of a year that starts in March falls on a real day, u days after March 1. */
  lemma MonthAndDay(y: int, u: int)
    requires 0 <= u <= 365 && (u == 365 ==> Leap(y + 1))
    ensures Valid(CivilInYear(y, u))
    ensures DaysFromCivil(CivilInYear(y, u)) == DaysBeforeYear(y + 1) + u - 719468
  {
    var mp := (5 * u + 2) / 153;
    assert 153 * mp <= 5 * u + 2 < 153 * mp + 153;
    MarchMonth(y, mp);
    MonthLength(u, mp);
  }

  lemma MonthLength(u: int, mp: int)
    requires 0 <= u <= 365 && mp == (5 * u + 2) / 153
    ensures 0 <= mp <= 11 && (153 * mp + 2) / 5 <= u < (153 * mp + 155) / 5
  {
    assert 153 * mp <= 5 * u + 2 < 153 * mp + 153;
  }

  lemma YearInEraIs(doe: int, c: int, q: int, k: int, u: int)
    requires Parts(doe, c, q, k, u)
    ensures YearInEra(doe) == 100 * c + 4 * q + k
  {
    YearOfEra(doe, c, q, k, u);
  }

  lemma DaysToYearIs(c: int, q: int, k: int)
    requires 0 <= c < 4 && 0 <= q < 25 && 0 <= k < 4
    ensures DaysToYear(100 * c + 4 * q + k) == 36524 * c + 1461 * q + 365 * k
  {
    YearParts(c, q, k);
  }

  lemma CivilOfParts(era: int, doe: int, c: int, q: int, k: int, u: int)
    requires Parts(doe, c, q, k, u)
    ensures CivilInEra(era, doe) == CivilInYear(400 * era + 100 * c + 4 * q + k, u)
  {
    YearInEraIs(doe, c, q, k, u);
    DaysToYearIs(c, q, k);
  }

  lemma YearIsInverted(era: int, c: int, q: int, k: int, u: int)
    requires 0 <= c < 4 && 0 <= q < 25 && 0 <= k < 4 && 0 <= u <= 365
    requires u == 365 ==> k == 3 && (q < 24 || c == 3)
    ensures var t := CivilInYear(400 * era + 100 * c + 4 * q + k, u);
            Valid(t) && DaysFromCivil(t) == 146097 * era + 36524 * c + 1461 * q + 365 * k + u - 719468
  {
    EraYears(era, c, q, k);
    if u == 365 {
      LastDayIsLeap(era, c, q, k);
    }
    MonthAndDay(400 * era + 100 * c + 4 * q + k, u);
  }

  lemma EraIsInverted(era: int, doe: int)
    requires 0 <= doe < 146097
    ensures var t := CivilInEra(era, doe);
            Valid(t) && DaysFromCivil(t) == 146097 * era + doe - 719468
  {
    var c, q, k, u := Split(doe);
    CivilOfParts(era, doe, c, q, k, u);
    YearIsInverted(era, c, q, k, u);
  }

  /** Every day number names a real date, whose day number it is. */
  lemma DayNumberIsInverted(days: int)
    ensures Valid(CivilFromDays(days)) && DaysFromCivil(CivilFromDays(days)) == days
  {
    var era, doe := EraDivision(days + 719468);
    EraIsInverted(era, doe);
  }

  // ---------- dates in order ----------

  lemma {:induction false} MonthsAdd(y: int, m: int, n: int)
    requires 1 <= m < n <= 13
    ensures DaysBeforeMonth(y, m) + DaysInMonth(y, m) <= DaysBeforeMonth(y, n)
    decreases n
  {
    if m < n - 1 {
      MonthsAdd(y, m, n - 1);
    }
  }

  lemma {:induction false} YearsAdd(y: int, x: int)
    requires y < x
    ensures DaysBeforeYear(y) + (if Leap(y) then 366 else 365) <= DaysBeforeYear(x)
    decreases x - y
  {
    YearLength(x - 1);
    if y < x - 1 {
      YearsAdd(y, x - 1);
    } else {
      YearLength(y);
    }
  }

  lemma DayOfYear(t: Date)
    requires Valid(t)
    ensures 1 <= DaysBeforeMonth(t.y, t.m) + t.d <= if Leap(t.y) then 366 else 365
  {
    MonthTable(t.y, t.m);
  }

  /** A later date has a larger day number. */
  lemma LaterIsLarger(t: Date, u: Date)
    requires Valid(t) && Valid(u) && Before(t, u)
    ensures DaysFromCivil(t) < DaysFromCivil(u)
  {
    if t.y < u.y {
      YearsAdd(t.y, u.y);
      DayOfYear(t);
      DayOfYear(u);
    } else if t.m < u.m {
      MonthsAdd(t.y, t.m, u.m);
    }
  }

  /** Day numbers are in the order of their dates. */
  lemma DatesAreInOrder(a: int, b: int)
    ensures a < b <==> Before(CivilFromDays(a), CivilFromDays(b))
  {
    DayNumberIsInverted(a);
    DayNumberIsInverted(b);
    var t, u := CivilFromDays(a), CivilFromDays(b);
    if Before(t, u) {
      LaterIsLarger(t, u);
    } else if Before(u, t) {
      LaterIsLarger(u, t);
    }
  }

  lemma NextIsOneMore(t: Date)
    requires Valid(t)
    ensures Valid(Next(t)) && DaysFromCivil(Next(t)) == DaysFromCivil(t) + 1
  {
    if t.d == DaysInMonth(t.y, t.m) && t.m == 12 {
      MonthTable(t.y, 12);
      YearLength(t.y);
      assert DaysBeforeMonth(t.y + 1, 1) == 0;
    }
  }

  lemma SameDay(t: Date, u: Date)
    requires Valid(t) && Valid(u) && DaysFromCivil(t) == DaysFromCivil(u)
    ensures t == u
  {
    if Before(t, u) {
      LaterIsLarger(t, u);
    } else if Before(u, t) {
      LaterIsLarger(u, t);
    }
  }

  /** The date of every date's day number is that date. */
  lemma DateIsInverted(t: Date, days: int)
    requires Valid(t) && DaysFromCivil(t) == days
    ensures CivilFromDays(days) == t
  {
    DayNumberIsInverted(days);
    SameDay(CivilFromDays(days), t);
  }

  lemma DayZero()
    ensures CivilFromDays(0) == Date(1970, 1, 1)
  {
    DateIsInverted(Date(1970, 1, 1), 0);
  }

  /** Each day is followed by the next date of the calendar. */
  lemma DaysFollowTheCalendar(days: int, today: Date, tomorrow: Date)
    requires today == CivilFromDays(days) && tomorrow == CivilFromDays(days + 1)
    ensures tomorrow == Next(today)
  {
    DayNumberIsInverted(days);
    DayNumberIsInverted(days + 1);
    NextIsOneMore(today);
    SameDay(tomorrow, Next(today));
  }

  // ---------- time stamps ----------

  /** The last `width` digits of the number. */
  function Digits(n: nat, width: nat): (s: string)
    ensures |s| == width
  {
    if width == 0 then "" else Digits(n / 10, width - 1) + [Digit(n % 10)]
  }

  lemma {:induction false} ZeroDigits(width: nat)
    ensures Digits(0, width) == Zeros(width)
  {
    if width > 0 {
      ZeroDigits(width - 1);
      ZerosAppend(width - 1);
    }
  }

  lemma {:induction false} PaddedIsDigits(n: nat, width: nat)
    requires width > 0 && n < Power(10, width)
    ensures |Decimal(n)| <= width && Padded(n, width) == Digits(n, width)
  {
    if n < 10 {
      ZeroDigits(width - 1);
      assert n / 10 == 0;
    } else {
      assert width > 1 by { assert Power(10, 0) == 1; }
      PaddedIsDigits(n / 10, width - 1);
      var s := Decimal(n / 10);
      assert Zeros(width - 1 - |s|) + s + [Digit(n % 10)] == Zeros(width - 1 - |s|) + (s + [Digit(n % 10)]);
    }
  }

  // ---------- time stamps in order ----------

  /** Comparison of texts character by character. */
  predicate Less(s: string, t: string) {
    t != "" && (s == "" || s[0] < t[0] || (s[0] == t[0] && Less(s[1..], t[1..])))
  }

  lemma {:induction false} LessIsStrict(s: string, t: string)
    ensures !(Less(s, t) && Less(t, s)) && !Less(s, s)
  {
    if s != "" {
      LessIsStrict(s[1..], if t == "" then "" else t[1..]);
    }
  }

  lemma {:induction false} LessEarly(s: string, t: string, u: string, v: string)
    requires |s| == |t| && Less(s, t)
    ensures Less(s + u, t + v)
  {
    if s[0] == t[0] {
      LessEarly(s[1..], t[1..], u, v);
      assert (s + u)[1..] == s[1..] + u && (t + v)[1..] == t[1..] + v;
    }
  }

  lemma {:induction false} LessLate(p: string, s: string, t: string)
    requires Less(s, t)
    ensures Less(p + s, p + t)
  {
    if p == "" {
      assert p + s == s && p + t == t;
    } else {
      LessLate(p[1..], s, t);
      assert (p + s)[1..] == p[1..] + s && (p + t)[1..] == p[1..] + t;
    }
  }

  lemma DigitOrder(i: nat, j: nat)
    requires i < j < 10
    ensures Digit(i) < Digit(j)
  {
  }

  lemma {:induction false} DigitsOrder(x: nat, y: nat, width: nat)
    requires x < y < Power(10, width)
    ensures Less(Digits(x, width), Digits(y, width))
  {
    var p, q := Digits(x / 10, width - 1), Digits(y / 10, width - 1);
    if x / 10 < y / 10 {
      DigitsOrder(x / 10, y / 10, width - 1);
      LessEarly(p, q, [Digit(x % 10)], [Digit(y % 10)]);
    } else {
      DigitOrder(x % 10, y % 10);
      LessLate(p, [Digit(x % 10)], [Digit(y % 10)]);
    }
  }

  /** A number printed to a width, and the text after it. */
  datatype Field = Field(n: nat, width: nat, after: string)

  function Render(fields: seq<Field>): string {
    if fields == [] then "" else Padded(fields[0].n, fields[0].width) + (fields[0].after + Render(fields[1..]))
  }

  predicate Fit(f: Field) {
    f.width > 0 && f.n < Power(10, f.width)
  }

  predicate Alike(f: Field, g: Field) {
    f.width == g.width && f.after == g.after && Fit(f) && Fit(g)
  }

  /** The first field that differs decides. */
  lemma {:induction false} FirstDifferenceDecides(fs: seq<Field>, gs: seq<Field>, i: nat)
    requires |fs| == |gs| && forall k :: 0 <= k < |fs| ==> Alike(fs[k], gs[k])
    requires i < |fs| && fs[i].n < gs[i].n && forall k :: 0 <= k < i ==> fs[k].n == gs[k].n
    ensures Less(Render(fs), Render(gs))
  {
    var f, g := fs[0], gs[0];
    assert Alike(f, g);
    PaddedIsDigits(f.n, f.width);
    PaddedIsDigits(g.n, g.width);
    var u, v := f.after + Render(fs[1..]), g.after + Render(gs[1..]);
    if i == 0 {
      DigitsOrder(f.n, g.n, f.width);
      LessEarly(Digits(f.n, f.width), Digits(g.n, g.width), u, v);
    } else {
      FirstDifferenceDecides(fs[1..], gs[1..], i - 1);
      LessLate(f.after, Render(fs[1..]), Render(gs[1..]));
      LessLate(Digits(f.n, f.width), u, v);
    }
  }

  lemma YearsAfterEpoch(days: nat)
    ensures CivilFromDays(days).y >= 1970 && CivilFromDays(days).m >= 1 && CivilFromDays(days).d >= 1
  {
    DayZero();
    DatesAreInOrder(days, 0);
    DayNumberIsInverted(days);
  }

  function Stamp(t: Date, rem: nat): (fields: seq<Field>)
    requires t.y >= 0 && t.m >= 0 && t.d >= 0
    ensures |fields| == 6
  {
    [Field(t.y, 4, "-"), Field(t.m, 2, "-"), Field(t.d, 2, "T"),
     Field(rem / 3600, 2, ":"), Field(rem % 3600 / 60, 2, ":"), Field(rem % 60, 2, "Z")]
  }

  /** The fields of the time stamp of a second since the epoch. */
  function Fields(secs: nat): (fields: seq<Field>)
    ensures |fields| == 6
  {
    YearsAfterEpoch(secs / 86400);
    Stamp(CivilFromDays(secs / 86400), secs % 86400)
  }

  function Iso8601(secs: nat): string {
    Render(Fields(secs))
  }

  // ---------- which of two time stamps sorts first ----------

  /** The first digits of a number, `width` of them if it has more. */
  function Leading(n: nat, width: nat): (l: nat)
    requires width > 0
    ensures l <= n
  {
    if |Decimal(n)| <= width then n else Leading(n / 10, width)
  }

  lemma {:induction false} LeadingDigits(n: nat, width: nat) returns (rest: string)
    requires 0 < width < |Decimal(n)|
    ensures |Decimal(Leading(n, width))| == width && Decimal(n) == Decimal(Leading(n, width)) + rest
    ensures rest != "" && '0' <= rest[0] <= '9'
  {
    var init, last := Decimal(n / 10), [Digit(n % 10)];
    DecimalIsDigits(n, |Decimal(n)| - 1);
    if |init| == width {
      rest := last;
    } else {
      var middle := LeadingDigits(n / 10, width);
      rest := middle + last;
      Reassociate(Decimal(Leading(n, width)), middle, last);
    }
  }

  lemma Reassociate(a: string, b: string, c: string)
    ensures (a + b) + c == a + (b + c)
  {
  }

  lemma {:induction false} DecimalFits(n: nat)
    ensures n < Power(10, |Decimal(n)|)
    ensures |Decimal(n)| > 1 ==> Power(10, |Decimal(n)| - 1) <= n
  {
    var d := |Decimal(n)|;
    assert Power(10, d) == 10 * Power(10, d - 1);
    if n >= 10 {
      DecimalFits(n / 10);
      assert Power(10, d - 1) == 10 * Power(10, d - 2);
      assert d - 2 > 0 || Power(10, d - 2) == 1;
    }
  }

  lemma {:induction false} PowerGrows(d: nat, e: nat)
    requires d <= e
    ensures Power(10, d) <= Power(10, e)
    decreases e
  {
    if d < e {
      PowerGrows(d, e - 1);
    }
  }

  lemma PowerOrder(d: nat, e: nat)
    ensures d < e ==> Power(10, d) <= Power(10, e - 1)
  {
    if d < e {
      PowerGrows(d, e - 1);
    }
  }

  lemma LongerIsLarger(m: nat, n: nat)
    requires m <= n
    ensures |Decimal(m)| <= |Decimal(n)|
  {
    DecimalFits(m);
    DecimalFits(n);
    PowerOrder(|Decimal(n)|, |Decimal(m)|);
  }

  lemma {:induction false} PowerIs(d: nat)
    ensures d == 2 ==> Power(10, d) == 100
    ensures d == 3 ==> Power(10, d) == 1000
  {
    if d > 1 {
      PowerIs(d - 1);
      assert Power(10, d) == 10 * Power(10, d - 1) && Power(10, 1) == 10 * Power(10, 0);
    }
  }

  lemma YearHasFourDigits(y: nat)
    requires y >= 1000
    ensures |Decimal(y)| >= 4
  {
    DecimalFits(y);
    PowerOrder(|Decimal(y)|, 4);
    PowerIs(3);
  }

  /** The date of a second since the epoch. */
  function DateOf(secs: nat): (t: Date)
    ensures Valid(t) && t.y >= 1970 && DaysFromCivil(t) == secs / 86400
  {
    DayNumberIsInverted(secs / 86400);
    YearsAfterEpoch(secs / 86400);
    CivilFromDays(secs / 86400)
  }

  function YearOf(secs: nat): nat {
    DateOf(secs).y
  }

  /** What follows the year in a time stamp. */
  function Tail(t: Date, rem: nat): (fields: seq<Field>)
    requires Valid(t) && t.y >= 0
    ensures |fields| == 5
  {
    [Field(t.m, 2, "-"), Field(t.d, 2, "T"),
     Field(rem / 3600, 2, ":"), Field(rem % 3600 / 60, 2, ":"), Field(rem % 60, 2, "Z")]
  }

  lemma StampIsYearAndTail(secs: nat)
    ensures |Decimal(YearOf(secs))| >= 4
    ensures Iso8601(secs) == Decimal(YearOf(secs)) + ("-" + Render(Tail(DateOf(secs), secs % 86400)))
  {
    var t := DateOf(secs);
    YearHasFourDigits(t.y);
    assert Fields(secs)[1..] == Tail(t, secs % 86400);
  }

  lemma TailFits(t: Date, rem: nat, k: nat)
    requires Valid(t) && t.y >= 0 && rem < 86400 && k < 5
    ensures Fit(Tail(t, rem)[k])
  {
    PowerIs(2);
    var h, m, s := ClockParts(rem);
  }

  lemma ClockParts(p: nat) returns (h: nat, m: nat, s: nat)
    ensures h == p / 3600 && m == p % 3600 / 60 && s == p % 60
    ensures p == 3600 * h + 60 * m + s && m < 60 && s < 60
  {
    h, m, s := p / 3600, p % 3600 / 60, p % 60;
    assert p == 60 * (60 * h + m) + (p % 3600) % 60;
  }

  lemma ClockInOrder(p: nat, q: nat) returns (i: nat)
    requires p < q
    ensures 2 <= i < 5
    ensures i == 2 ==> p / 3600 < q / 3600
    ensures i == 3 ==> p / 3600 == q / 3600 && p % 3600 / 60 < q % 3600 / 60
    ensures i == 4 ==> p / 3600 == q / 3600 && p % 3600 / 60 == q % 3600 / 60 && p % 60 < q % 60
  {
    var h, m, s := ClockParts(p);
    var h', m', s' := ClockParts(q);
    i := if h < h' then 2 else if m < m' then 3 else 4;
  }

  // ---------- a time stamp read back ----------

  /** A text of five two-digit fields, with a character behind each. */
  function Slots(a: string, b: string, c: string, d: string, e: string): string {
    a + "-" + b + "T" + c + ":" + d + ":" + e + "Z"
  }

  lemma SlotsAt(head: string, a: string, b: string, c: string, d: string, e: string, s: string)
    requires |a| == |b| == |c| == |d| == |e| == 2 && s == head + ("-" + Slots(a, b, c, d, e))
    ensures |s| == |head| + 16
    ensures var n := |head|;
            && s[..n] == head && s[n + 1..n + 3] == a && s[n + 4..n + 6] == b
            && s[n + 7..n + 9] == c && s[n + 10..n + 12] == d && s[n + 13..n + 15] == e
            && [s[n], s[n + 3], s[n + 6], s[n + 9], s[n + 12], s[n + 15]] == "--T::Z"
  {
    var t := "-" + Slots(a, b, c, d, e);
    assert |t| == 16;
    assert t[1..3] == a && t[4..6] == b && t[7..9] == c && t[10..12] == d && t[13..15] == e;
    assert s[|head|..] == t;
    assert forall i, j :: 0 <= i <= j <= 16 ==> s[|head| + i..|head| + j] == t[i..j];
  }

  lemma TailIsSlots(t: Date, rem: nat)
    requires Valid(t) && t.y >= 0 && rem < 86400
    ensures Render(Tail(t, rem)) ==
            Slots(Padded(t.m, 2), Padded(t.d, 2), Padded(rem / 3600, 2), Padded(rem % 3600 / 60, 2), Padded(rem % 60, 2))
  {
    var f := Tail(t, rem);
    assert Render(f[5..]) == "";
    RenderStep(f, 4, Padded(rem % 60, 2), "Z", "");
    RenderStep(f, 3, Padded(rem % 3600 / 60, 2), ":", Padded(rem % 60, 2) + "Z");
    RenderStep(f, 2, Padded(rem / 3600, 2), ":", Padded(rem % 3600 / 60, 2) + ":" + (Padded(rem % 60, 2) + "Z"));
    JoinSlots(Padded(t.m, 2), Padded(t.d, 2), Padded(rem / 3600, 2), Padded(rem % 3600 / 60, 2), Padded(rem % 60, 2));
    RenderStep(f, 1, Padded(t.d, 2), "T", Render(f[2..]));
    RenderStep(f, 0, Padded(t.m, 2), "-", Render(f[1..]));
  }

  lemma RenderStep(f: seq<Field>, i: nat, text: string, after: string, rest: string)
    requires i < |f| && text == Padded(f[i].n, f[i].width) && after == f[i].after && Render(f[i + 1..]) == rest
    ensures Render(f[i..]) == text + after + rest
  {
    assert f[i..][1..] == f[i + 1..];
    Reassociate(text, after, rest);
  }

  lemma JoinSlots(a: string, b: string, c: string, d: string, e: string)
    ensures a + "-" + (b + "T" + (c + ":" + (d + ":" + (e + "Z")))) == Slots(a, b, c, d, e)
  {
  }

  lemma TwoDigits(n: nat)
    requires n < 100
    ensures |Padded(n, 2)| == 2 && Value(Padded(n, 2)) == n
  {
    PowerIs(2);
    PaddedIsDigits(n, 2);
    PaddedIsRead(n, 2);
  }

  /** The second that a time stamp names: the year is what stands before the last sixteen
      characters, the other fields have two digits each. */
  function ReadBack(s: string): int
    requires |s| >= 16
  {
    var n := |s| - 16;
    var month := Value(s[n + 1..n + 3]);
    var days := if 1 <= month <= 12 then DaysFromCivil(Date(Value(s[..n]), month, Value(s[n + 4..n + 6]))) else 0;
    86400 * days + 3600 * Value(s[n + 7..n + 9]) + 60 * Value(s[n + 10..n + 12]) + Value(s[n + 13..n + 15])
  }

  lemma ReadSlots(t: Date, h: nat, m: nat, x: nat, s: string)
    requires Valid(t) && t.y >= 0 && h < 100 && m < 100 && x < 100
    requires s == Decimal(t.y) + ("-" + Slots(Padded(t.m, 2), Padded(t.d, 2), Padded(h, 2), Padded(m, 2), Padded(x, 2)))
    ensures |s| == |Decimal(t.y)| + 16 && ReadBack(s) == 86400 * DaysFromCivil(t) + 3600 * h + 60 * m + x
    ensures var n := |s| - 16; [s[n], s[n + 3], s[n + 6], s[n + 9], s[n + 12], s[n + 15]] == "--T::Z"
  {
    TwoDigits(t.m);
    TwoDigits(t.d);
    TwoDigits(h);
    TwoDigits(m);
    TwoDigits(x);
    DecimalIsRead(t.y);
    SlotsAt(Decimal(t.y), Padded(t.m, 2), Padded(t.d, 2), Padded(h, 2), Padded(m, 2), Padded(x, 2), s);
  }

  /** Reading a time stamp back gives the second it was made from, and its separators stand
      where they have to. */
  lemma StampIsReadBack(secs: nat)
    ensures |Iso8601(secs)| >= 20 && ReadBack(Iso8601(secs)) == secs
    ensures var s, n := Iso8601(secs), |Iso8601(secs)| - 16;
            [s[n], s[n + 3], s[n + 6], s[n + 9], s[n + 12], s[n + 15]] == "--T::Z"
  {
    var h, m, x := ClockParts(secs % 86400);
    StampIsYearAndTail(secs);
    TailIsSlots(DateOf(secs), secs % 86400);
    ReadSlots(DateOf(secs), h, m, x, Iso8601(secs));
  }

  lemma TailInOrder(t: Date, p: nat, u: Date, q: nat) returns (i: nat)
    requires Valid(t) && Valid(u) && t.y == u.y >= 0
    requires Before(t, u) || (t == u && p < q)
    ensures i < 5 && Tail(t, p)[i].n < Tail(u, q)[i].n
    ensures forall k :: 0 <= k < i ==> Tail(t, p)[k].n == Tail(u, q)[k].n
  {
    if Before(t, u) {
      i := if t.m < u.m then 0 else 1;
    } else {
      i := ClockInOrder(p, q);
    }
  }

  /** Within a year the earlier time stamp sorts first. */
  lemma TailsSort(t: Date, p: nat, u: Date, q: nat)
    requires Valid(t) && Valid(u) && t.y == u.y >= 0 && p < 86400 && q < 86400
    requires Before(t, u) || (t == u && p < q)
    ensures Less(Render(Tail(t, p)), Render(Tail(u, q)))
  {
    var i := TailInOrder(t, p, u, q);
    forall k | 0 <= k < 5 ensures Alike(Tail(t, p)[k], Tail(u, q)[k]) {
      TailFits(t, p, k);
      TailFits(u, q, k);
    }
    FirstDifferenceDecides(Tail(t, p), Tail(u, q), i);
  }

  /** Numbers of equally many digits sort as numbers. */
  lemma DecimalsSort(m: nat, n: nat)
    requires m < n && |Decimal(m)| == |Decimal(n)|
    ensures Less(Decimal(m), Decimal(n))
  {
    var d := |Decimal(m)|;
    DecimalFits(m);
    DecimalFits(n);
    PaddedIsDigits(m, d);
    PaddedIsDigits(n, d);
    DigitsOrder(m, n, d);
  }

  lemma DashBeforeDigit(u: string, rest: string)
    requires rest != "" && '0' <= rest[0] <= '9'
    ensures Less("-" + u, rest)
  {
  }

  /** A year and a longer one, each with the rest of its time stamp. */
  lemma LongerYear(x: nat, u: string, y: nat, v: string)
    requires |Decimal(x)| < |Decimal(y)|
    ensures Less(Decimal(x) + ("-" + u), Decimal(y) + v) <==> x <= Leading(y, |Decimal(x)|)
  {
    var l := Leading(y, |Decimal(x)|);
    var rest := LeadingDigits(y, |Decimal(x)|);
    var s, t := "-" + u, rest + v;
    Reassociate(Decimal(l), rest, v);
    if x < l {
      DecimalsSort(x, l);
      LessEarly(Decimal(x), Decimal(l), s, t);
    } else if x == l {
      DashBeforeDigit(u, t);
      LessLate(Decimal(x), s, t);
    } else {
      DecimalsSort(l, x);
      LessEarly(Decimal(l), Decimal(x), t, s);
      LessIsStrict(Decimal(x) + s, Decimal(l) + t);
    }
  }

  lemma EqualYear(x: nat, u: string, y: nat, v: string)
    requires |Decimal(x)| == |Decimal(y)| && (x < y || (x == y && Less(u, v)))
    ensures Less(Decimal(x) + ("-" + u), Decimal(y) + ("-" + v))
  {
    if x < y {
      DecimalsSort(x, y);
      LessEarly(Decimal(x), Decimal(y), "-" + u, "-" + v);
    } else {
      LessLate("-", u, v);
      LessLate(Decimal(x), "-" + u, "-" + v);
    }
  }

  lemma SmallerIsEarlier(t: Date, u: Date)
    requires Valid(t) && Valid(u)
    ensures DaysFromCivil(t) < DaysFromCivil(u) ==> Before(t, u)
    ensures DaysFromCivil(t) == DaysFromCivil(u) ==> t == u
  {
    if Before(u, t) {
      LaterIsLarger(u, t);
    } else if Before(t, u) {
      LaterIsLarger(t, u);
    }
  }

  lemma DaysAndSeconds(a: nat, b: nat)
    requires a < b
    ensures a / 86400 < b / 86400 || (a / 86400 == b / 86400 && a % 86400 < b % 86400)
  {
  }

  lemma StampsSort(t: Date, p: nat, u: Date, q: nat)
    requires Valid(t) && Valid(u) && 0 <= t.y <= u.y && p < 86400 && q < 86400
    requires Before(t, u) || (t == u && p < q)
    ensures Less(Decimal(t.y) + ("-" + Render(Tail(t, p))), Decimal(u.y) + ("-" + Render(Tail(u, q)))) <==>
            t.y <= Leading(u.y, |Decimal(t.y)|)
  {
    LongerIsLarger(t.y, u.y);
    if |Decimal(t.y)| < |Decimal(u.y)| {
      LongerYear(t.y, Render(Tail(t, p)), u.y, "-" + Render(Tail(u, q)));
    } else {
      if t.y == u.y {
        TailsSort(t, p, u, q);
      }
      EqualYear(t.y, Render(Tail(t, p)), u.y, Render(Tail(u, q)));
    }
  }

  lemma EarlierDate(a: nat, b: nat)
    requires a < b
    ensures var t, u := DateOf(a), DateOf(b); t.y <= u.y && (Before(t, u) || (t == u && a % 86400 < b % 86400))
  {
    DaysAndSeconds(a, b);
    SmallerIsEarlier(DateOf(a), DateOf(b));
  }

  /** Of two time stamps the earlier one sorts first exactly if its year is at most the
      number that the first digits of the later year make, as many as the earlier has. */
  lemma EarlierSortsFirstIff(a: nat, b: nat)
    requires a < b
    ensures Less(Iso8601(a), Iso8601(b)) <==> YearOf(a) <= Leading(YearOf(b), |Decimal(YearOf(a))|)
  {
    EarlierDate(a, b);
    StampIsYearAndTail(a);
    StampIsYearAndTail(b);
    StampsSort(DateOf(a), a % 86400, DateOf(b), b % 86400);
  }

  lemma SameLengthSorts(a: nat, b: nat)
    requires a < b && |Decimal(YearOf(a))| == |Decimal(YearOf(b))|
    ensures Less(Iso8601(a), Iso8601(b))
  {
    EarlierDate(a, b);
    EarlierSortsFirstIff(a, b);
  }

  /** While the years have the same number of digits, the order of time stamps is the order
      of time. */
  lemma TimeStampsSort(a: nat, b: nat)
    requires |Decimal(YearOf(a))| == |Decimal(YearOf(b))|
    ensures Less(Iso8601(a), Iso8601(b)) <==> a < b
  {
    LessIsStrict(Iso8601(a), Iso8601(b));
    if a < b {
      SameLengthSorts(a, b);
    } else if b < a {
      SameLengthSorts(b, a);
    }
  }

  /** The first second of the year 10000. */
  const LIMIT := 253402300800

  lemma YearAtLimit(days: nat)
    requires days == 2932897
    ensures CivilFromDays(days).y == 10000
  {
    DateIsInverted(Date(10000, 1, 1), days);
  }

  lemma YearBeforeLimit(days: nat)
    requires days == 2932896
    ensures CivilFromDays(days).y == 9999
  {
    MonthTable(9999, 12);
    DateIsInverted(Date(9999, 12, 31), days);
  }

  lemma FourAndFive(y: nat, z: nat)
    requires y == 9999 && z == 10000
    ensures |Decimal(y)| == 4 && Leading(z, 4) == 1000
  {
    assert z / 10 == 1000 && z / 100 == 100 && z / 1000 == 10;
    assert |Decimal(z / 1000)| == 2 && |Decimal(z / 100)| == 3 && |Decimal(z / 10)| == 4 && |Decimal(z)| == 5;
    assert |Decimal(y / 100)| == 2 && |Decimal(y / 10)| == 3;
  }

  /** The last second of the year 9999 does not sort before the first one of 10000. */
  lemma YearTenThousandSortsFirst()
    ensures !Less(Iso8601(LIMIT - 1), Iso8601(LIMIT))
  {
    YearBeforeLimit((LIMIT - 1) / 86400);
    YearAtLimit(LIMIT / 86400);
    EarlierSortsFirstIff(LIMIT - 1, LIMIT);
    FourAndFive(YearOf(LIMIT - 1), YearOf(LIMIT));
  }
}
