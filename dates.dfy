/** Calendar dates as the bot parses and prints them: `parse_date` and
    `format_date` of main.py, with the part of Python's `datetime.strptime`
    that the nine accepted formats use written out as a field grammar. */
module Dates {
  import opened Wrappers
  import opened Text

  /** A `datetime.date`; `ValidDate` says which values Python can construct. */
  datatype Date = Date(year: int, month: int, day: int)

  predicate IsLeapYear(y: int) {
    y % 4 == 0 && (y % 100 != 0 || y % 400 == 0)
  }

  function DaysInMonth(y: int, m: int): (n: int)
    requires 1 <= m <= 12
    ensures 28 <= n <= 31
  {
    if m == 2 then (if IsLeapYear(y) then 29 else 28)
    else if m == 4 || m == 6 || m == 9 || m == 11 then 30
    else 31
  }

  /** `date(year, month, day)` succeeds exactly for these values (MINYEAR 1, MAXYEAR 9999). */
  predicate ValidDate(d: Date) {
    1 <= d.year <= 9999 && 1 <= d.month <= 12 && 1 <= d.day <= DaysInMonth(d.year, d.month)
  }

  /** Strict calendar order, field by field. */
  predicate Before(a: Date, b: Date) {
    a.year < b.year
    || (a.year == b.year && a.month < b.month)
    || (a.year == b.year && a.month == b.month && a.day < b.day)
  }

  predicate NotAfter(a: Date, b: Date) {
    !Before(b, a)
  }

  function DaysInYear(y: int): int {
    if IsLeapYear(y) then 366 else 365
  }

  /** Days in the years before `y`, as Python's `_days_before_year`. */
  function DaysBeforeYear(y: int): int
    requires y >= 1
  {
    var p := y - 1;
    p * 365 + p / 4 - p / 100 + p / 400
  }

  /** Days in the months of `y` before `m`, as Python's `_days_before_month`. */
  function DaysBeforeMonth(y: int, m: int): int
    requires 1 <= m <= 12
  {
    [0, 31, 59, 90, 120, 151, 181, 212, 243, 273, 304, 334][m - 1]
    + (if m > 2 && IsLeapYear(y) then 1 else 0)
  }

  /** `d.toordinal()`: 1 for 0001-01-01, one more for each later day. */
  function DayNumber(d: Date): int
    requires ValidDate(d)
  {
    DaysBeforeYear(d.year) + DaysBeforeMonth(d.year, d.month) + d.day
  }

  lemma YearLength(y: int)
    requires y >= 1
    ensures DaysBeforeYear(y + 1) == DaysBeforeYear(y) + DaysInYear(y)
  {
    var p := y - 1;
    assert y / 4 == p / 4 + (if y % 4 == 0 then 1 else 0);
    assert y / 100 == p / 100 + (if y % 100 == 0 then 1 else 0);
    assert y / 400 == p / 400 + (if y % 400 == 0 then 1 else 0);
  }

  lemma {:induction false} YearsMonotone(x: int, y: int)
    requires 1 <= x <= y
    ensures DaysBeforeYear(x) + (y - x) * 365 <= DaysBeforeYear(y)
    decreases y - x
  {
    if x < y {
      YearLength(x);
      YearsMonotone(x + 1, y);
    }
  }

  lemma MonthLength(y: int, m: int)
    requires 1 <= m < 12
    ensures DaysBeforeMonth(y, m + 1) == DaysBeforeMonth(y, m) + DaysInMonth(y, m)
  {
  }

  /** A later month of the same year starts after the earlier one has ended. */
  lemma {:induction false} MonthsOrdered(y: int, m: int, n: int)
    requires 1 <= m < n <= 12
    ensures DaysBeforeMonth(y, m) + DaysInMonth(y, m) <= DaysBeforeMonth(y, n)
    decreases n - m
  {
    if n == m + 1 {
      MonthLength(y, m);
    } else {
      MonthsOrdered(y, m, n - 1);
      MonthLength(y, n - 1);
    }
  }

  lemma DayWithinYear(d: Date)
    requires ValidDate(d)
    ensures DaysBeforeYear(d.year) < DayNumber(d) <= DaysBeforeYear(d.year) + DaysInYear(d.year)
  {
  }

  /** A date of an earlier year has a smaller day number. */
  lemma EarlierYear(a: Date, b: Date)
    requires ValidDate(a) && ValidDate(b) && a.year < b.year
    ensures DayNumber(a) < DayNumber(b)
  {
    DayWithinYear(a);
    DayWithinYear(b);
    YearLength(a.year);
    YearsMonotone(a.year + 1, b.year);
  }

  /** Within one year, a date before another has a smaller day number. */
  lemma EarlierInYear(a: Date, b: Date)
    requires ValidDate(a) && ValidDate(b) && a.year == b.year && Before(a, b)
    ensures DayNumber(a) < DayNumber(b)
  {
    if a.month < b.month {
      MonthsOrdered(a.year, a.month, b.month);
    }
  }

  /** Day numbers follow the calendar order: `toordinal` is strictly increasing. */
  lemma DayNumberOrdered(a: Date, b: Date)
    requires ValidDate(a) && ValidDate(b)
    ensures Before(a, b) <==> DayNumber(a) < DayNumber(b)
    ensures a == b <==> DayNumber(a) == DayNumber(b)
  {
    if a.year < b.year {
      EarlierYear(a, b);
    } else if b.year < a.year {
      EarlierYear(b, a);
    } else if Before(a, b) {
      EarlierInYear(a, b);
    } else if Before(b, a) {
      EarlierInYear(b, a);
    }
  }

  /** The day after `d`: what `d + timedelta(days=1)` gives. */
  function NextDay(d: Date): (r: Date)
    requires ValidDate(d) && d != Date(9999, 12, 31)
    ensures ValidDate(r) && Before(d, r)
  {
    if d.day < DaysInMonth(d.year, d.month) then Date(d.year, d.month, d.day + 1)
    else if d.month < 12 then Date(d.year, d.month + 1, 1)
    else Date(d.year + 1, 1, 1)
  }

  lemma NextDayNumber(d: Date)
    requires ValidDate(d) && d != Date(9999, 12, 31)
    ensures DayNumber(NextDay(d)) == DayNumber(d) + 1
  {
    if d.day == DaysInMonth(d.year, d.month) {
      if d.month < 12 {
        MonthLength(d.year, d.month);
      } else {
        YearLength(d.year);
      }
    }
  }

  // ---------------------------------------------------------------------
  // strptime field grammar

  /** `%d`: the regular expression `3[01]|[12]\d|0[1-9]|[1-9]| [1-9]`. */
  function DayField(f: string): (r: Option<int>)
    ensures r.Some? ==> 1 <= r.value <= 31 && 1 <= |f| <= 2
  {
    if |f| == 1 && IsDigit(f[0]) && f[0] != '0' then Some(DigitValue(f[0]) as int)
    else if |f| == 2 && f[0] == ' ' && IsDigit(f[1]) && f[1] != '0' then Some(DigitValue(f[1]) as int)
    else if |f| == 2 && IsDigit(f[0]) && IsDigit(f[1]) && 1 <= DigitsValue(f) <= 31 then Some(DigitsValue(f) as int)
    else None
  }

  /** `%m`: the regular expression `1[0-2]|0[1-9]|[1-9]`. */
  function MonthField(f: string): (r: Option<int>)
    ensures r.Some? ==> 1 <= r.value <= 12 && 1 <= |f| <= 2 && AllDigits(f)
  {
    if |f| == 1 && IsDigit(f[0]) && f[0] != '0' then Some(DigitValue(f[0]) as int)
    else if |f| == 2 && AllDigits(f) && 1 <= DigitsValue(f) <= 12 then Some(DigitsValue(f) as int)
    else None
  }

  /** `%Y`: exactly four digits. */
  function FullYearField(f: string): (r: Option<int>)
    ensures r.Some? ==> 0 <= r.value <= 9999 && |f| == 4 && AllDigits(f)
  {
    if |f| == 4 && AllDigits(f) then Some(DigitsValue(f) as int) else None
  }

  /** `%y`: exactly two digits; 00 to 68 are 2000 to 2068, 69 to 99 are 1969 to 1999. */
  function ShortYearField(f: string): (r: Option<int>)
    ensures r.Some? ==> 1969 <= r.value <= 2068 && |f| == 2 && AllDigits(f)
  {
    if |f| == 2 && AllDigits(f) then
      var v := DigitsValue(f) as int;
      Some(if v <= 68 then v + 2000 else v + 1900)
    else None
  }

  predicate FieldChars(f: string) {
    forall i :: 0 <= i < |f| ==> IsDigit(f[i]) || f[i] == ' '
  }

  /** Day first with a four- or two-digit year, or year first. */
  datatype FieldOrder = DayMonthFullYear | DayMonthShortYear | YearMonthDay

  datatype DateFormat = DateFormat(order: FieldOrder, sep: char)

  /** The formats `parse_date` tries, in its order:
      `%d.%m.%Y %d.%m.%y %d/%m/%Y %d/%m/%y %d-%m-%Y %d-%m-%y %Y.%m.%d %Y/%m/%d %Y-%m-%d`. */
  const Formats: seq<DateFormat> := [
    DateFormat(DayMonthFullYear, '.'), DateFormat(DayMonthShortYear, '.'),
    DateFormat(DayMonthFullYear, '/'), DateFormat(DayMonthShortYear, '/'),
    DateFormat(DayMonthFullYear, '-'), DateFormat(DayMonthShortYear, '-'),
    DateFormat(YearMonthDay, '.'), DateFormat(YearMonthDay, '/'), DateFormat(YearMonthDay, '-')
  ]

  function MakeDate(y: Option<int>, m: Option<int>, d: Option<int>): (r: Option<Date>)
    ensures r.Some? ==> ValidDate(r.value)
  {
    if y.Some? && m.Some? && d.Some? && ValidDate(Date(y.value, m.value, d.value))
    then Some(Date(y.value, m.value, d.value))
    else None
  }

  /** `datetime.strptime(s, f).date()`, `None` standing for `ValueError`. No field
      can hold a separator, so matching the format's regular expression and
      leaving no unconverted data is: three pieces between separators, each
      matching its field. */
  function Strptime(s: string, f: DateFormat): (r: Option<Date>)
    ensures r.Some? ==> ValidDate(r.value)
  {
    var parts := Split(s, f.sep);
    if |parts| != 3 then None
    else match f.order
      case DayMonthFullYear => MakeDate(FullYearField(parts[2]), MonthField(parts[1]), DayField(parts[0]))
      case DayMonthShortYear => MakeDate(ShortYearField(parts[2]), MonthField(parts[1]), DayField(parts[0]))
      case YearMonthDay => MakeDate(FullYearField(parts[0]), MonthField(parts[1]), DayField(parts[2]))
  }

  /** The result of the first format in `fs` that parses `s`. */
  function FirstParse(s: string, fs: seq<DateFormat>): (r: Option<Date>)
    ensures r.Some? ==> ValidDate(r.value)
    ensures r.Some? <==> exists i :: 0 <= i < |fs| && Strptime(s, fs[i]).Some?
  {
    if fs == [] then None
    else if Strptime(s, fs[0]).Some? then Strptime(s, fs[0])
    else
      var r := FirstParse(s, fs[1..]);
      assert forall i :: 1 <= i < |fs| ==> fs[i] == fs[1..][i - 1];
      r
  }

  /** The replies that `parse_date` reads as "no deadline", after lower-casing. */
  const NoDeadlineWords: seq<string> := ["нет", "no", "без срока", "пропустить", "skip", "null", "none"]

  /** `parse_date`: strip, lower-case, "no deadline" words give `None`, else
      the first of the nine formats that parses. */
  function ParseDate(input: string): (r: Option<Date>)
    ensures r.Some? ==> ValidDate(r.value)
    ensures Lower(Strip(input)) in NoDeadlineWords ==> r == None
  {
    var s := Lower(Strip(input));
    if s in NoDeadlineWords then None else FirstParse(s, Formats)
  }

  // ---------------------------------------------------------------------
  // Only one format can parse a given string

  lemma {:induction false} JoinChars(parts: seq<string>, sep: char, i: int)
    requires |parts| >= 1 && 0 <= i < |Join(parts, sep)|
    ensures Join(parts, sep)[i] == sep || exists k, j :: 0 <= k < |parts| && 0 <= j < |parts[k]| && parts[k][j] == Join(parts, sep)[i]
  {
    if |parts| > 1 {
      var s := Join(parts, sep);
      assert s == parts[0] + [sep] + Join(parts[1..], sep);
      if i < |parts[0]| {
        assert parts[0][i] == s[i];
      } else if i > |parts[0]| {
        JoinChars(parts[1..], sep, i - |parts[0]| - 1);
        var c := s[i];
        if c != sep {
          var k, j :| 0 <= k < |parts[1..]| && 0 <= j < |parts[1..][k]| && parts[1..][k][j] == c;
          assert parts[k + 1][j] == c;
        }
      }
    }
  }

  /** A string some format parses consists of digits, spaces and that format's separator. */
  lemma ParsedChars(s: string, f: DateFormat, i: int)
    requires Strptime(s, f).Some? && 0 <= i < |s|
    ensures IsDigit(s[i]) || s[i] == ' ' || s[i] == f.sep
  {
    var parts := Split(s, f.sep);
    assert FieldChars(parts[0]) && FieldChars(parts[1]) && FieldChars(parts[2]);
    JoinSplit(s, f.sep);
    JoinChars(parts, f.sep, i);
  }

  lemma OtherSeparatorFails(s: string, f: DateFormat, g: DateFormat)
    requires Strptime(s, f).Some? && g.sep != f.sep && !IsDigit(g.sep) && g.sep != ' '
    ensures Strptime(s, g).None?
  {
    if g.sep in s {
      var i :| 0 <= i < |s| && s[i] == g.sep;
      ParsedChars(s, f, i);
    } else {
      SplitNoSeparator(s, g.sep);
    }
  }

  /** At most one of the nine formats parses any string, so their order in
      `parse_date` never decides the result. */
  lemma FormatsExclusive(s: string, i: int, j: int)
    requires 0 <= i < |Formats| && 0 <= j < |Formats| && i != j
    requires Strptime(s, Formats[i]).Some?
    ensures Strptime(s, Formats[j]).None?
  {
    var f, g := Formats[i], Formats[j];
    if f.sep != g.sep {
      OtherSeparatorFails(s, f, g);
    }
  }

  lemma {:induction false} FirstParseFinds(s: string, fs: seq<DateFormat>, i: int, d: Date)
    requires 0 <= i < |fs| && Strptime(s, fs[i]) == Some(d)
    requires forall j :: 0 <= j < i ==> Strptime(s, fs[j]).None?
    ensures FirstParse(s, fs) == Some(d)
  {
    if i > 0 {
      assert Strptime(s, fs[0]).None?;
      assert fs[1..][i - 1] == fs[i];
      FirstParseFinds(s, fs[1..], i - 1, d);
    }
  }

  /** Once the keyword test is passed, `parse_date` gives the date of whichever
      format parses the text, if one does. */
  lemma ParseDateByFormat(input: string, i: int)
    requires 0 <= i < |Formats|
    requires Lower(Strip(input)) !in NoDeadlineWords
    requires Strptime(Lower(Strip(input)), Formats[i]).Some?
    ensures ParseDate(input) == Strptime(Lower(Strip(input)), Formats[i])
  {
    var s := Lower(Strip(input));
    forall j | 0 <= j < i
      ensures Strptime(s, Formats[j]).None?
    {
      FormatsExclusive(s, i, j);
    }
    FirstParseFinds(s, Formats, i, Strptime(s, Formats[i]).value);
  }

  // ---------------------------------------------------------------------
  // Rendering and the round trip

  /** `%d` / `%m` on output: two digits with a leading zero. */
  function Pad2(n: int): (s: string)
    requires 0 <= n < 100
    ensures |s| == 2 && AllDigits(s) && DigitsValue(s) == n
  {
    var s := [DigitChar(n / 10), DigitChar(n % 10)];
    assert s[..1] == [s[0]] && s[..1][..0] == [];
    s
  }

  /** `%Y` on output; for the four-digit years every round trip below is about. */
  function YearText(y: int): (s: string)
    requires 1 <= y
  {
    NatToString(y)
  }

  lemma FourDigitYear(y: int)
    requires 1000 <= y <= 9999
    ensures |YearText(y)| == 4 && AllDigits(YearText(y)) && DigitsValue(YearText(y)) == y
  {
    NatToStringValue(y);
    assert |NatToString(y / 10)| == 3 by {
      assert |NatToString(y / 100)| == 2 by {
        assert |NatToString(y / 1000)| == 1;
      }
    }
  }

  /** `d.strftime(f)` for each of the nine formats. */
  function Render(d: Date, f: DateFormat): string
    requires ValidDate(d)
  {
    match f.order
    case DayMonthFullYear => Pad2(d.day) + [f.sep] + Pad2(d.month) + [f.sep] + YearText(d.year)
    case DayMonthShortYear => Pad2(d.day) + [f.sep] + Pad2(d.month) + [f.sep] + Pad2(d.year % 100)
    case YearMonthDay => YearText(d.year) + [f.sep] + Pad2(d.month) + [f.sep] + Pad2(d.day)
  }

  /** The rendering `format_date` falls back to: `d.strftime("%d.%m.%Y")`. */
  function RenderDayFirst(d: Date): string
    requires ValidDate(d)
  {
    Render(d, Formats[0])
  }

  lemma SplitThree(a: string, sep: char, b: string, c: string)
    requires sep !in a && sep !in b && sep !in c
    ensures Split(a + [sep] + b + [sep] + c, sep) == [a, b, c]
  {
    assert a + [sep] + b + [sep] + c == a + [sep] + (b + [sep] + c);
    SplitAfterPiece(a, sep, b + [sep] + c);
    SplitAfterPiece(b, sep, c);
    SplitNoSeparator(c, sep);
  }

  lemma Pad2Fields(n: int)
    requires 1 <= n <= 31
    ensures DayField(Pad2(n)) == Some(n)
    ensures n <= 12 ==> MonthField(Pad2(n)) == Some(n)
  {
  }

  /** The year range within which a format renders a date it parses back. */
  predicate RoundTrips(d: Date, f: DateFormat) {
    if f.order == DayMonthShortYear then 1969 <= d.year <= 2068 else 1000 <= d.year
  }

  /** No separator but a digit can occur in a string of digits. */
  lemma DigitsHaveNoSeparator(s: string, sep: char)
    requires AllDigits(s) && !IsDigit(sep)
    ensures sep !in s
  {
  }

  lemma StrptimeRenderFullYear(d: Date, sep: char)
    requires ValidDate(d) && 1000 <= d.year && !IsDigit(sep)
    ensures Strptime(Render(d, DateFormat(DayMonthFullYear, sep)), DateFormat(DayMonthFullYear, sep)) == Some(d)
  {
    var dd, mm, yy := Pad2(d.day), Pad2(d.month), YearText(d.year);
    Pad2Fields(d.day);
    Pad2Fields(d.month);
    FourDigitYear(d.year);
    DigitsHaveNoSeparator(dd, sep);
    DigitsHaveNoSeparator(mm, sep);
    DigitsHaveNoSeparator(yy, sep);
    SplitThree(dd, sep, mm, yy);
  }

  lemma StrptimeRenderShortYear(d: Date, sep: char)
    requires ValidDate(d) && 1969 <= d.year <= 2068 && !IsDigit(sep)
    ensures Strptime(Render(d, DateFormat(DayMonthShortYear, sep)), DateFormat(DayMonthShortYear, sep)) == Some(d)
  {
    var dd, mm, yy := Pad2(d.day), Pad2(d.month), Pad2(d.year % 100);
    Pad2Fields(d.day);
    Pad2Fields(d.month);
    DigitsHaveNoSeparator(dd, sep);
    DigitsHaveNoSeparator(mm, sep);
    DigitsHaveNoSeparator(yy, sep);
    SplitThree(dd, sep, mm, yy);
  }

  lemma StrptimeRenderYearFirst(d: Date, sep: char)
    requires ValidDate(d) && 1000 <= d.year && !IsDigit(sep)
    ensures Strptime(Render(d, DateFormat(YearMonthDay, sep)), DateFormat(YearMonthDay, sep)) == Some(d)
  {
    var dd, mm, yy := Pad2(d.day), Pad2(d.month), YearText(d.year);
    Pad2Fields(d.day);
    Pad2Fields(d.month);
    FourDigitYear(d.year);
    DigitsHaveNoSeparator(dd, sep);
    DigitsHaveNoSeparator(mm, sep);
    DigitsHaveNoSeparator(yy, sep);
    SplitThree(yy, sep, mm, dd);
  }

  /** Per format: `strptime(d.strftime(f), f) == d`. */
  lemma StrptimeRender(d: Date, f: DateFormat)
    requires ValidDate(d) && RoundTrips(d, f) && f in Formats
    ensures Strptime(Render(d, f), f) == Some(d)
  {
    assert !IsDigit(f.sep);
    match f.order
    case DayMonthFullYear => StrptimeRenderFullYear(d, f.sep);
    case DayMonthShortYear => StrptimeRenderShortYear(d, f.sep);
    case YearMonthDay => StrptimeRenderYearFirst(d, f.sep);
  }

  lemma RenderShape(d: Date, f: DateFormat)
    requires ValidDate(d) && RoundTrips(d, f) && f in Formats
    ensures var s := Render(d, f);
      |s| >= 8 && IsDigit(s[0]) && IsDigit(s[|s| - 1])
      && forall i :: 0 <= i < |s| ==> IsDigit(s[i]) || s[i] == f.sep
  {
    if f.order != DayMonthShortYear {
      FourDigitYear(d.year);
    }
  }

  /** Digits and a separator below `A`, digits at both ends: nothing to strip or
      lower-case, and no "no deadline" word. */
  lemma DigitsAndSeparatorPlain(s: string, sep: char)
    requires |s| >= 1 && IsDigit(s[0]) && IsDigit(s[|s| - 1]) && sep < 'A'
    requires forall i :: 0 <= i < |s| ==> IsDigit(s[i]) || s[i] == sep
    ensures Lower(Strip(s)) == s && s !in NoDeadlineWords
  {
    forall i | 0 <= i < |s|
      ensures s[i] < 'A'
    {
      assert IsDigit(s[i]) || s[i] == sep;
    }
    LowerKeeps(s);
    StripUnchanged(s);
    NotNoDeadlineWord(s);
  }

  /** What `d.strftime(f)` gives is already stripped and lower-case, and is no
      "no deadline" word. */
  lemma RenderPlain(d: Date, f: DateFormat)
    requires ValidDate(d) && RoundTrips(d, f) && f in Formats
    ensures var s := Render(d, f); Lower(Strip(s)) == s && s !in NoDeadlineWords
  {
    RenderShape(d, f);
    assert f.sep < 'A';
    DigitsAndSeparatorPlain(Render(d, f), f.sep);
  }

  lemma NotNoDeadlineWord(s: string)
    requires s != [] && IsDigit(s[0])
    ensures s !in NoDeadlineWords
  {
  }

  /** Round trip through `parse_date`: for every one of the nine formats,
      `parse_date(d.strftime(f)) == d`, with a four-digit year (or, for `%y`,
      a year from 1969 to 2068). */
  lemma ParseDateRender(d: Date, f: DateFormat)
    requires ValidDate(d) && RoundTrips(d, f) && f in Formats
    ensures ParseDate(Render(d, f)) == Some(d)
  {
    var s := Render(d, f);
    RenderPlain(d, f);
    StrptimeRender(d, f);
    var i :| 0 <= i < |Formats| && Formats[i] == f;
    ParseDateByFormat(s, i);
  }

  /** The round trip the bot relies on: what `format_date` prints for a date that
      is neither today nor tomorrow is read back by `parse_date` as that date. */
  lemma ParseDateRenderDayFirst(d: Date)
    requires ValidDate(d) && 1000 <= d.year
    ensures ParseDate(RenderDayFirst(d)) == Some(d)
  {
    ParseDateRender(d, Formats[0]);
  }

  // ---------------------------------------------------------------------
  // format_date

  const NoDeadlineLabel: string := "⏳ Без срока"
  const TodayLabel: string := "⏰ Сегодня"
  const TomorrowLabel: string := "📅 Завтра"

  /** The `ValueError` raised by `today.replace(day=today.day + 1)`. */
  datatype FormatError = DayOutOfRange

  /** The last day of a month, where `today.replace(day=today.day + 1)` raises. */
  predicate MonthEnd(today: Date) {
    1 <= today.month <= 12 && today.day == DaysInMonth(today.year, today.month)
  }

  /** `format_date(d)` raises: a date other than today, on the last day of a month. */
  predicate FormatFails(d: Option<Date>, today: Date) {
    d.Some? && d.value != today && MonthEnd(today)
  }

  /** Printing with `format_date` the first `n` deadlines of a list in
      deadline order raises exactly when today ends a month and a printed
      deadline is not today: some deadline is earlier than today, or one is
      later while fewer than `n` are due today. */
  predicate FirstDeadlinesFail(earlier: bool, later: bool, dueToday: int, n: int, today: Date) {
    MonthEnd(today) && (earlier || (later && dueToday < n))
  }

  /** `format_date`, with the clock's `date.today()` passed in as `today`. */
  function FormatDate(d: Option<Date>, today: Date): (r: Result<string, FormatError>)
    requires ValidDate(today) && (d.Some? ==> ValidDate(d.value))
    ensures r.Err? <==> FormatFails(d, today)
    ensures r == Ok(NoDeadlineLabel) <==> d.None?
    ensures r == Ok(TodayLabel) <==> d == Some(today)
    ensures r == Ok(TomorrowLabel) <==> !MonthEnd(today) && d == Some(NextDay(today))
    ensures d.Some? && d.value != today && !MonthEnd(today) && d.value != NextDay(today) ==>
              r == Ok(RenderDayFirst(d.value))
  {
    if d.None? then Ok(NoDeadlineLabel)
    else if d.value == today then Ok(TodayLabel)
    else if today.day + 1 > DaysInMonth(today.year, today.month) then Err(DayOutOfRange)
    else if d.value == Date(today.year, today.month, today.day + 1) then Ok(TomorrowLabel)
    else
      RenderIsNotLabel(d.value);
      Ok(RenderDayFirst(d.value))
  }

  /** On the last day of a month `format_date` raises for tomorrow's date
      instead of printing "tomorrow". */
  lemma FormatDateFailsAtMonthEnd()
    ensures FormatDate(Some(Date(2024, 2, 1)), Date(2024, 1, 31)) == Err(DayOutOfRange)
    ensures Date(2024, 2, 1) == NextDay(Date(2024, 1, 31))
  {
  }

  lemma RenderIsNotLabel(d: Date)
    requires ValidDate(d)
    ensures RenderDayFirst(d) != TomorrowLabel && RenderDayFirst(d) != TodayLabel
    ensures RenderDayFirst(d) != NoDeadlineLabel
  {
    var s := RenderDayFirst(d);
    assert IsDigit(s[0]);
  }

  /** Away from the end of a month `format_date` prints what it was meant to. */
  lemma FormatDateAgrees(d: Option<Date>, today: Date)
    requires ValidDate(today) && !MonthEnd(today) && (d.Some? ==> ValidDate(d.value))
    ensures today != Date(9999, 12, 31) && FormatDate(d, today) == Ok(FormatDateFixed(d, today))
  {
  }

  /** `format_date` as evidently intended: "tomorrow" compared with `today + 1 day`. */
  function FormatDateFixed(d: Option<Date>, today: Date): (r: string)
    requires ValidDate(today) && today != Date(9999, 12, 31) && (d.Some? ==> ValidDate(d.value))
    ensures r == NoDeadlineLabel <==> d.None?
    ensures r == TodayLabel <==> d == Some(today)
    ensures r == TomorrowLabel <==> d == Some(NextDay(today))
    ensures d.Some? && d.value != today && d.value != NextDay(today) ==> r == RenderDayFirst(d.value)
  {
    if d.None? then NoDeadlineLabel
    else
      RenderIsNotLabel(d.value);
      if d.value == today then TodayLabel
      else if d.value == NextDay(today) then TomorrowLabel
      else RenderDayFirst(d.value)
  }
}
