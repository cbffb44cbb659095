/** Calendar dates of an agenda: text of the form YYYY-MM-DD, accepted through the day arithmetic of ECMA-262
    section 21.4.1, and the dates of an event's range. */
module CivilDate {
  import opened Basics
  import opened Text

  const MS_PER_DAY := 86_400_000

  // ---------------------------------------------------------------------------------------------
  // Day arithmetic
  // ---------------------------------------------------------------------------------------------

  /** A year, a month from 0 to 11, a day of the month from 1, or any integers in their place. */
  datatype Civil = Civil(year: int, month: int, day: int)

  predicate Leap(year: int)
  {
    (year % 4 == 0 && year % 100 != 0) || year % 400 == 0
  }

  function DaysInYear(year: int): int
  {
    if Leap(year) then 366 else 365
  }

  function DayFromYear(year: int): int
  {
    365 * (year - 1970) + (year - 1969) / 4 - (year - 1901) / 100 + (year - 1601) / 400
  }

  function MonthStart(month: int, leap: bool): int
  {
    var l := if leap then 1 else 0;
    match month
    case 0 => 0
    case 1 => 31
    case 2 => 59 + l
    case 3 => 90 + l
    case 4 => 120 + l
    case 5 => 151 + l
    case 6 => 181 + l
    case 7 => 212 + l
    case 8 => 243 + l
    case 9 => 273 + l
    case 10 => 304 + l
    case 11 => 334 + l
    case _ => 365 + l
  }

  /** A quotient grows by one exactly at multiples of the divisor. */
  lemma QuotientStep(x: int, d: int)
    requires d > 0
    ensures (x + 1) / d == x / d + if (x + 1) % d == 0 then 1 else 0
  {
    var q, r := x / d, x % d;
    assert x == d * q + r;
    if r + 1 < d {
      QuotientOf(x + 1, d, q, r + 1);
    } else {
      assert x + 1 == d * (q + 1) by { assert d * (q + 1) == d * q + d; }
      QuotientOf(x + 1, d, q + 1, 0);
    }
  }

  lemma QuotientOf(n: int, d: int, q: int, r: int)
    requires d > 0 && n == d * q + r && 0 <= r < d
    ensures n / d == q && n % d == r
  {
    var p := n / d;
    assert n == d * p + n % d;
    assert d * (p - q) == r - n % d by { assert d * (p - q) == d * p - d * q; }
    assert p - q == 0 by { SmallMultiple(d, p - q, r - n % d); }
  }

  lemma SmallMultiple(d: int, k: int, m: int)
    requires d > 0 && d * k == m && -d < m < d
    ensures k == 0
  {
    assert k >= 1 ==> d * k >= d;
    assert k <= -1 ==> d * k <= -d;
  }

  lemma YearLength(year: int)
    ensures DayFromYear(year + 1) == DayFromYear(year) + DaysInYear(year)
  {
    QuotientStep(year - 1969, 4);
    QuotientStep(year - 1901, 100);
    QuotientStep(year - 1601, 400);
    Shift(year, 4, 492);
    Shift(year, 100, 19);
    Shift(year, 400, 4);
  }

  lemma Shift(n: int, d: int, k: int)
    requires d > 0
    ensures (n - k * d) % d == n % d
  {
    assert n == d * (n / d) + n % d;
    assert n - k * d == d * (n / d - k) + n % d by { assert d * (n / d - k) == d * (n / d) - k * d; }
    QuotientOf(n - k * d, d, n / d - k, n % d);
  }

  /** The first year at or after `from` whose successor starts after the day. */
  function SearchYear(day: int, from: int): (year: int)
    requires DayFromYear(from) <= day
    ensures DayFromYear(year) <= day < DayFromYear(year + 1)
    decreases day - DayFromYear(from)
  {
    hide DayFromYear, Leap;
    YearLength(from);
    if DayFromYear(from + 1) <= day then SearchYear(day, from + 1) else from
  }

  lemma Epoch()
    ensures DayFromYear(1970) == 0
  {
  }

  lemma {:induction false} EarlyYear(years: nat)
    ensures DayFromYear(1970 - years) <= 0 - years
  {
    hide DayFromYear, Leap;
    assert DayFromYear(1970) == 0 by { Epoch(); }
    if years > 0 {
      EarlyYear(years - 1);
      YearLength(1970 - years);
    }
  }

  function YearOfDay(day: int): (year: int)
    ensures DayFromYear(year) <= day < DayFromYear(year + 1)
  {
    hide DayFromYear;
    Epoch();
    EarlyYear(if day < 0 then -day else 0);
    SearchYear(day, if day < 0 then 1970 + day else 1970)
  }

  function SearchMonth(offset: int, leap: bool, from: int): (month: int)
    requires 0 <= from <= 11 && MonthStart(from, leap) <= offset < MonthStart(12, leap)
    ensures 0 <= month <= 11 && MonthStart(month, leap) <= offset < MonthStart(month + 1, leap)
    decreases 11 - from
  {
    if from < 11 && MonthStart(from + 1, leap) <= offset then SearchMonth(offset, leap, from + 1) else from
  }

  /** The fields `getUTCFullYear`, `getUTCMonth` and `getUTCDate` read off a day number. */
  function CivilOfDay(day: int): (c: Civil)
    ensures IsCivil(c) && c.year == YearOfDay(day)
    ensures MakeDay(c) == day
  {
    hide DayFromYear, Leap, MonthStart, YearOfDay;
    var year := YearOfDay(day);
    YearLength(year);
    var offset := day - DayFromYear(year);
    YearEnds(Leap(year));
    var month := SearchMonth(offset, Leap(year), 0);
    Civil(year, month, offset - MonthStart(month, Leap(year)) + 1)
  }

  lemma YearEnds(leap: bool)
    ensures MonthStart(0, leap) == 0 && MonthStart(12, leap) == if leap then 366 else 365
  {
  }

  /** A date of the proleptic Gregorian calendar. */
  predicate IsCivil(c: Civil)
  {
    0 <= c.month <= 11 && 1 <= c.day <= MonthStart(c.month + 1, Leap(c.year)) - MonthStart(c.month, Leap(c.year))
  }

  /** `MakeDay`: months carry into the year, days into the months. */
  function MakeDay(c: Civil): int
  {
    var year := c.year + c.month / 12;
    DayFromYear(year) + MonthStart(c.month % 12, Leap(year)) + c.day - 1
  }

  function Before(a: Civil, b: Civil): bool
  {
    a.year < b.year || (a.year == b.year && (a.month < b.month || (a.month == b.month && a.day < b.day)))
  }

  lemma {:induction false} YearsRise(a: int, b: int)
    requires a <= b
    ensures DayFromYear(a) <= DayFromYear(b) - (b - a)
    decreases b - a
  {
    hide DayFromYear, Leap;
    if a < b {
      YearsRise(a, b - 1);
      YearLength(b - 1);
    }
  }

  lemma WithinYear(c: Civil)
    requires IsCivil(c)
    ensures DayFromYear(c.year) <= MakeDay(c) < DayFromYear(c.year + 1)
  {
    hide DayFromYear, Leap;
    YearLength(c.year);
    MonthsRise(0, c.month, Leap(c.year));
    MonthsRise(c.month + 1, 12, Leap(c.year));
    YearEnds(Leap(c.year));
  }

  lemma MonthsRise(a: int, b: int, leap: bool)
    requires 0 <= a <= b <= 12
    ensures MonthStart(a, leap) <= MonthStart(b, leap)
  {
  }

  /** Calendar order is the order of day numbers. */
  lemma DaysRise(a: Civil, b: Civil)
    requires IsCivil(a) && IsCivil(b)
    ensures Before(a, b) <==> MakeDay(a) < MakeDay(b)
    ensures a == b <==> MakeDay(a) == MakeDay(b)
  {
    hide DayFromYear, Leap, MonthStart;
    WithinYear(a);
    WithinYear(b);
    if a.year == b.year && a.month < b.month {
      MonthsRise(a.month + 1, b.month, Leap(a.year));
    } else if a.year == b.year && b.month < a.month {
      MonthsRise(b.month + 1, a.month, Leap(a.year));
    }
    if a.year < b.year {
      YearsRise(a.year + 1, b.year);
    } else if b.year < a.year {
      YearsRise(b.year + 1, a.year);
    }
  }

  /** The fields read off a day number are those of the one date with that number. */
  lemma CivilOfMadeDay(c: Civil)
    requires IsCivil(c)
    ensures CivilOfDay(MakeDay(c)) == c
  {
    DaysRise(CivilOfDay(MakeDay(c)), c);
  }

  // ---------------------------------------------------------------------------------------------
  // Dates as text
  // ---------------------------------------------------------------------------------------------

  predicate IsDigit(c: char)
  {
    '0' <= c <= '9'
  }

  predicate Digits(s: string)
  {
    forall i :: 0 <= i < |s| ==> IsDigit(s[i])
  }

  function Number(s: string): nat
    requires Digits(s)
  {
    if s == [] then 0 else 10 * Number(s[..|s| - 1]) + (s[|s| - 1] - '0') as int
  }

  function Pad(n: nat, width: nat): (s: string)
    ensures |s| == width && Digits(s)
  {
    if width == 0 then "" else Pad(n / 10, width - 1) + ['0' + (n % 10) as char]
  }

  /** The form `\d{4}-\d{2}-\d{2}`. */
  predicate HasForm(s: string)
  {
    |s| == 10 && s[4] == '-' && s[7] == '-' && Digits(s[..4]) && Digits(s[5..7]) && Digits(s[8..])
  }

  function Fields(s: string): Civil
    requires HasForm(s)
  {
    Civil(Number(s[..4]), Number(s[5..7]) - 1, Number(s[8..]))
  }

  /** `Date.UTC` on the fields: years 0 to 99 count from 1900. */
  function Utc(c: Civil): int
  {
    MakeDay(if 0 <= c.year <= 99 then c.(year := 1900 + c.year) else c)
  }

  function AgendaDate(value: string): (r: Option<string>)
    ensures r.Some? ==> HasForm(value) && r.value == value
  {
    if !HasForm(value) then None
    else if CivilOfDay(Utc(Fields(value))) == Fields(value) then Some(value) else None
  }

  predicate Accepted(s: string)
  {
    AgendaDate(s).Some?
  }

  lemma {:induction false} NumberBound(s: string)
    requires Digits(s)
    ensures |s| == 2 ==> Number(s) < 100
    ensures |s| == 4 ==> Number(s) < 10000
    ensures |s| == 1 ==> Number(s) < 10
    ensures |s| == 3 ==> Number(s) < 1000
  {
    if 0 < |s| <= 4 {
      NumberBound(s[..|s| - 1]);
    }
  }

  lemma FarYear(c: Civil)
    requires 1900 <= c.year && -1 <= c.month && 0 <= c.day
    ensures YearOfDay(MakeDay(c)) >= 1898
  {
    var day := MakeDay(c);
    YearsRise(1899, c.year + c.month / 12);
    YearLength(1898);
    assert day >= DayFromYear(1899) - 1 >= DayFromYear(1898);
    if YearOfDay(day) < 1898 {
      YearsRise(YearOfDay(day) + 1, 1898);
    }
  }

  /** The dates accepted are those of the calendar from the year 100 on. */
  lemma AcceptedAreCalendarDates(s: string)
    ensures Accepted(s) <==> HasForm(s) && IsCivil(Fields(s)) && Fields(s).year >= 100
  {
    hide MakeDay, CivilOfDay, YearOfDay, MonthStart, Leap, Number;
    if HasForm(s) {
      var c := Fields(s);
      NumberBound(s[5..7]);
      NumberBound(s[8..]);
      if c.year <= 99 {
        var made := c.(year := 1900 + c.year);
        FarYear(made);
      } else if IsCivil(c) {
        CivilOfMadeDay(c);
      }
    }
  }

  // ---------------------------------------------------------------------------------------------
  // Text order
  // ---------------------------------------------------------------------------------------------

  lemma {:induction false} TextBeforeNumbers(a: string, b: string)
    requires |a| == |b| && Digits(a) && Digits(b)
    ensures TextBefore(a, b) <==> Number(a) < Number(b)
    ensures a == b <==> Number(a) == Number(b)
  {
    if a != "" {
      var n := |a| - 1;
      TextBeforeNumbers(a[..n], b[..n]);
      TextBeforeConcat(a[..n], a[n..], b[..n], b[n..]);
      assert a == a[..n] + a[n..] && b == b[..n] + b[n..];
      assert a[n..] == [a[n]] && b[n..] == [b[n]];
      assert TextBefore(a[n..], b[n..]) <==> a[n] < b[n];
    }
  }

  lemma FormSplit(s: string)
    requires HasForm(s)
    ensures s == s[..4] + ("-" + (s[5..7] + ("-" + s[8..])))
  {
  }

  /** On text of the form, text order is calendar order of the fields. */
  lemma TextOrderIsFieldOrder(a: string, b: string)
    requires HasForm(a) && HasForm(b)
    ensures TextBefore(a, b) <==> Before(Fields(a), Fields(b))
    ensures a == b <==> Fields(a) == Fields(b)
  {
    FormSplit(a);
    FormSplit(b);
    TextBeforeConcat(a[..4], "-" + (a[5..7] + ("-" + a[8..])), b[..4], "-" + (b[5..7] + ("-" + b[8..])));
    TextBeforeConcat("-", a[5..7] + ("-" + a[8..]), "-", b[5..7] + ("-" + b[8..]));
    TextBeforeConcat(a[5..7], "-" + a[8..], b[5..7], "-" + b[8..]);
    TextBeforeConcat("-", a[8..], "-", b[8..]);
    TextBeforeNumbers(a[..4], b[..4]);
    TextBeforeNumbers(a[5..7], b[5..7]);
    TextBeforeNumbers(a[8..], b[8..]);
    assert !TextBefore("-", "-");
  }

  /** The day number of a date's midnight, as `Date.parse` reads it. */
  function DayNumber(s: string): int
    requires HasForm(s)
  {
    MakeDay(Fields(s))
  }

  /** On accepted dates text order and the order of day numbers agree, and each day has one text. */
  lemma TextOrderIsDayOrder(a: string, b: string)
    requires Accepted(a) && Accepted(b)
    ensures TextBefore(a, b) <==> DayNumber(a) < DayNumber(b)
    ensures a == b <==> DayNumber(a) == DayNumber(b)
  {
    AcceptedAreCalendarDates(a);
    AcceptedAreCalendarDates(b);
    TextOrderIsFieldOrder(a, b);
    DaysRise(Fields(a), Fields(b));
  }

  /** The first ten characters of `toISOString` for a year from 0 to 9999. */
  function IsoDate(day: int): (s: string)
    requires 0 <= YearOfDay(day) <= 9999
  {
    var c := CivilOfDay(day);
    Pad(c.year, 4) + "-" + Pad(c.month + 1, 2) + "-" + Pad(c.day, 2)
  }

  lemma {:induction false} NumberOfPad(n: nat, width: nat)
    ensures Number(Pad(n, width)) == n % Pow10(width)
  {
    if width > 0 {
      NumberOfPad(n / 10, width - 1);
      assert Pad(n, width)[..width - 1] == Pad(n / 10, width - 1);
      SplitMod(n, Pow10(width - 1));
    }
  }

  function Pow10(width: nat): (p: nat)
    ensures p > 0
  {
    if width == 0 then 1 else 10 * Pow10(width - 1)
  }

  lemma SplitMod(n: nat, p: nat)
    requires p > 0
    ensures 10 * ((n / 10) % p) + n % 10 == n % (10 * p)
  {
    var q, r := n / 10 / p, (n / 10) % p;
    assert n / 10 == p * q + r;
    assert n == 10 * (n / 10) + n % 10;
    var m := 10 * r + n % 10;
    assert n == (10 * p) * q + m;
    assert m < 10 * p;
    QuotientOf(n, 10 * p, q, m);
  }

  lemma MonthIsShort(c: Civil)
    requires IsCivil(c)
    ensures 1 <= c.day <= 31
  {
  }

  /** Writing a day and reading it back gives the day. */
  lemma IsoDateReadsBack(day: int)
    requires 100 <= YearOfDay(day) <= 9999
    ensures HasForm(IsoDate(day)) && Accepted(IsoDate(day)) && DayNumber(IsoDate(day)) == day
  {
    hide MakeDay, CivilOfDay, YearOfDay, MonthStart, Leap, Number, Pad, Digits, AgendaDate;
    var c := CivilOfDay(day);
    var s := IsoDate(day);
    assert s[..4] == Pad(c.year, 4) && s[5..7] == Pad(c.month + 1, 2) && s[8..] == Pad(c.day, 2);
    assert s[4] == '-' && s[7] == '-';
    assert Pow10(2) == 100 && Pow10(4) == 10000 by {
      assert Pow10(1) == 10 && Pow10(3) == 1000;
    }
    NumberOfPad(c.year, 4);
    NumberOfPad(c.month + 1, 2);
    NumberOfPad(c.day, 2);
    MonthIsShort(c);
    assert Fields(s) == c;
    AcceptedAreCalendarDates(s);
  }

  /** Reading a date and writing its day gives the date. */
  lemma DateReadsBack(s: string)
    requires Accepted(s)
    ensures 100 <= YearOfDay(DayNumber(s)) <= 9999 && IsoDate(DayNumber(s)) == s
  {
    AcceptedAreCalendarDates(s);
    NumberBound(s[..4]);
    CivilOfMadeDay(Fields(s));
    IsoDateReadsBack(DayNumber(s));
    TextOrderIsDayOrder(s, IsoDate(DayNumber(s)));
  }

  // ---------------------------------------------------------------------------------------------
  // The range of an event
  // ---------------------------------------------------------------------------------------------

  datatype Metadata = Metadata(startsOn: string, endsOn: string, scheduleDates: Option<seq<string>>)

  datatype Range = Dates(dates: set<string>) | InvalidSchedule | InvalidRange

  predicate NotAfter(a: string, b: string)
  {
    !TextBefore(b, a)
  }

  /** The dates the event allows: its schedule where it has one, else every accepted date from its start to its end in
      text order. */
  method AgendaDateRange(metadata: Metadata) returns (r: Range)
    ensures metadata.scheduleDates.Some? && metadata.scheduleDates.value != [] ==>
              var listed := metadata.scheduleDates.value;
              if forall i :: 0 <= i < |listed| ==> Accepted(listed[i])
              then r.Dates? && forall s :: s in r.dates <==> s in listed
              else r == InvalidSchedule
    ensures !(metadata.scheduleDates.Some? && metadata.scheduleDates.value != []) ==>
              if Accepted(metadata.startsOn) && Accepted(metadata.endsOn) && NotAfter(metadata.startsOn, metadata.endsOn)
              then r.Dates? && forall s :: s in r.dates <==>
                     Accepted(s) && NotAfter(metadata.startsOn, s) && NotAfter(s, metadata.endsOn)
              else r == InvalidRange
  {
    if metadata.scheduleDates.Some? && metadata.scheduleDates.value != [] {
      var listed := metadata.scheduleDates.value;
      if exists i :: 0 <= i < |listed| && AgendaDate(listed[i]).None? {
        return InvalidSchedule;
      }
      return Dates(set s | s in listed);
    }
    var start, end := AgendaDate(metadata.startsOn), AgendaDate(metadata.endsOn);
    if start.None? || end.None? || TextBefore(end.value, start.value) {
      return InvalidRange;
    }
    TextOrderIsDayOrder(end.value, start.value);
    var dates := DaysBetween(start.value, end.value);
    forall s ensures s in dates <==> Accepted(s) && NotAfter(start.value, s) && NotAfter(s, end.value) {
      if Accepted(s) {
        TextOrderIsDayOrder(s, start.value);
        TextOrderIsDayOrder(end.value, s);
      }
    }
    return Dates(dates);
  }

  /** The loop over midnights from the start to the end, in steps of a day. */
  method DaysBetween(start: string, end: string) returns (dates: set<string>)
    requires Accepted(start) && Accepted(end)
    ensures forall s :: s in dates <==> Accepted(s) && DayNumber(start) <= DayNumber(s) <= DayNumber(end)
  {
    hide AgendaDate, MakeDay, IsoDate, HasForm;
    dates := {};
    var current := DayNumber(start) * MS_PER_DAY;
    ghost var day := DayNumber(start);
    while current <= DayNumber(end) * MS_PER_DAY
      invariant current == day * MS_PER_DAY && DayNumber(start) <= day
      invariant forall s :: s in dates <==> Accepted(s) && DayNumber(start) <= DayNumber(s) <= DayNumber(end) && DayNumber(s) < day
      decreases DayNumber(end) - day
    {
      assert current / MS_PER_DAY == day;
      YearBetween(start, end, day);
      IsoDateReadsBack(day);
      forall s | Accepted(s) ensures DayNumber(s) == day <==> s == IsoDate(day) {
        TextOrderIsDayOrder(s, IsoDate(day));
      }
      dates := dates + {IsoDate(current / MS_PER_DAY)};
      current := current + MS_PER_DAY;
      day := day + 1;
    }
  }

  lemma YearBetween(start: string, end: string, day: int)
    requires Accepted(start) && Accepted(end) && DayNumber(start) <= day <= DayNumber(end)
    ensures 100 <= YearOfDay(day) <= 9999
  {
    hide AgendaDate, MakeDay, IsoDate, DayFromYear, YearOfDay, HasForm;
    DateReadsBack(start);
    DateReadsBack(end);
    if YearOfDay(day) < 100 {
      YearsRise(YearOfDay(day) + 1, YearOfDay(DayNumber(start)));
    }
    if YearOfDay(day) > 9999 {
      YearsRise(YearOfDay(DayNumber(end)) + 1, YearOfDay(day));
    }
  }
}
