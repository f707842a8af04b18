/** Calendar dates as Python's `datetime.date` has them (proleptic Gregorian,
    years 1 to 9999), the `%Y-%m-%d` parser and printer the reminder code uses,
    and the day numbers behind `(test_date - today).days`. */
module Calendar {
  import opened Wrappers
  import opened Text

  datatype Date = Date(year: int, month: int, day: int)

  predicate IsLeap(y: int) {
    y % 4 == 0 && (y % 100 != 0 || y % 400 == 0)
  }

  function DaysInMonth(y: int, m: int): (n: int)
    requires 1 <= m <= 12
    ensures 28 <= n <= 31
    ensures n == 29 <==> m == 2 && IsLeap(y)
    ensures n == 28 <==> m == 2 && !IsLeap(y)
    ensures n == 30 <==> m == 4 || m == 6 || m == 9 || m == 11
  {
    if m == 2 then (if IsLeap(y) then 29 else 28)
    else if m == 4 || m == 6 || m == 9 || m == 11 then 30
    else 31
  }

  function DaysInYear(y: int): int {
    if IsLeap(y) then 366 else 365
  }

  /** A value `datetime.date` accepts. */
  predicate ValidDate(d: Date) {
    1 <= d.year <= 9999 && 1 <= d.month <= 12 && 1 <= d.day <= DaysInMonth(d.year, d.month)
  }

  /** Days in the years before `y`. */
  function DaysBeforeYear(y: int): int
    requires y >= 1
  {
    var p := y - 1;
    365 * p + p / 4 - p / 100 + p / 400
  }

  /** Days in the months of year `y` before month `m`. */
  function DaysBeforeMonth(y: int, m: int): int
    requires 1 <= m <= 12
  {
    var common :=
      if m == 1 then 0 else if m == 2 then 31 else if m == 3 then 59
      else if m == 4 then 90 else if m == 5 then 120 else if m == 6 then 151
      else if m == 7 then 181 else if m == 8 then 212 else if m == 9 then 243
      else if m == 10 then 273 else if m == 11 then 304 else 334;
    common + (if m > 2 && IsLeap(y) then 1 else 0)
  }

  /** `date.toordinal()`: 1 January of year 1 is day 1. */
  function Ordinal(d: Date): int
    requires ValidDate(d)
  {
    DaysBeforeYear(d.year) + DaysBeforeMonth(d.year, d.month) + d.day
  }

  /** `(due - asOf).days`: how many days `due` lies after `asOf`, negative once past. */
  function DaysBetween(asOf: Date, due: Date): int
    requires ValidDate(asOf) && ValidDate(due)
  {
    Ordinal(due) - Ordinal(asOf)
  }

  /** Calendar order: year, then month, then day. */
  predicate DateLe(a: Date, b: Date) {
    a.year < b.year || (a.year == b.year && (a.month < b.month || (a.month == b.month && a.day <= b.day)))
  }

  // ---------------------------------------------------------------------
  // Text form

  /** `datetime.strptime(s, '%Y-%m-%d').date()`, None where it raises
      ValueError: a four-digit year from 1, a month of one or two digits from
      1 to 12, a day of one or two digits, or a space and one digit, that
      exists in that month, and nothing after it. */
  function ParseDate(s: string): (r: Option<Date>)
    ensures r.Some? ==> ValidDate(r.value)
  {
    if |s| < 5 || !AllDigits(s[..4]) || s[4] != '-' then None
    else
      var rest := s[5..];
      var k := if |rest| >= 2 && rest[1] == '-' then 1 else 2;
      if |rest| <= k || rest[k] != '-' then None
      else
        var ms, ds := rest[..k], rest[k + 1..];
        var dd := if |ds| == 2 && ds[0] == ' ' then ds[1..] else ds;
        if !AllDigits(ms) || !AllDigits(dd) || |dd| < 1 || |ds| > 2 then None
        else
          var y, m, d := Value(s[..4]), Value(ms), Value(dd);
          DigitsOfValue(s[..4]);
          if y < 1 || m < 1 || m > 12 || d < 1 || d > DaysInMonth(y, m) then None
          else Some(Date(y, m, d))
  }

  /** `d.strftime('%Y-%m-%d')`, every field zero-padded. */
  function FormatDate(d: Date): (s: string)
    requires ValidDate(d)
    ensures |s| == 10 && s[4] == '-' && s[7] == '-'
  {
    Digits(d.year, 4) + "-" + Digits(d.month, 2) + "-" + Digits(d.day, 2)
  }

  /** The canonical stored form: exactly what FormatDate prints for some date. */
  predicate IsCanonical(s: string) {
    var p := ParseDate(s);
    p.Some? && FormatDate(p.value) == s
  }

  /** `datetime.strptime(s.split()[0], '%Y-%m-%d')`: the first whitespace-separated
      token is parsed, and whatever follows it (a time of day, say) is ignored. */
  function ParseLeadingDate(s: string): (r: Result<Date, DateError>)
    ensures r.Ok? ==> ValidDate(r.value)
  {
    match FirstToken(s)
    case None => Err(Blank)
    case Some(tok) =>
      match ParseDate(tok)
      case None => Err(Malformed)
      case Some(d) => Ok(d)
  }

  /** A blank string (no token at all) is told apart from a first token that
      is not a date; a string is accepted exactly when its first token parses. */
  lemma ParseLeadingDateCases(s: string)
    ensures ParseLeadingDate(s) == Err(Blank) <==> FirstToken(s).None?
    ensures ParseLeadingDate(s).Ok? <==> FirstToken(s).Some? && ParseDate(FirstToken(s).value).Some?
    ensures ParseLeadingDate(s).Ok? ==> ParseLeadingDate(s).value == ParseDate(FirstToken(s).value).value
  {
  }

  /** Only the first token matters: leading whitespace and everything from
      the first whitespace after the token on (a time of day, a note) are
      ignored, and the string is accepted exactly when the token parses. */
  lemma ParseLeadingDateIgnoresRest(w: string, t: string, u: string)
    requires forall i :: 0 <= i < |w| ==> IsSpace(w[i])
    requires t != [] && forall i :: 0 <= i < |t| ==> !IsSpace(t[i])
    requires u == [] || IsSpace(u[0])
    ensures ParseLeadingDate(w + t + u).Ok? <==> ParseDate(t).Some?
    ensures ParseLeadingDate(w + t + u).Ok? ==> ParseLeadingDate(w + t + u).value == ParseDate(t).value
    ensures ParseLeadingDate(w + t + u).Err? ==> ParseLeadingDate(w + t + u) == Err(Malformed)
  {
    assert w + t + u == w + (t + u);
    LStripLeading(w, t + u);
    TakeWordUpTo(t, u);
  }

  /** Why a date string was refused: `split()[0]` raised IndexError (the string
      is blank), or strptime raised ValueError. */
  datatype DateError = Blank | Malformed

  // ---------------------------------------------------------------------
  // Lemmas

  /** Printing a date and parsing it back gives the same date. */
  lemma ParseFormat(d: Date)
    requires ValidDate(d)
    ensures ParseDate(FormatDate(d)) == Some(d)
    ensures IsCanonical(FormatDate(d))
  {
    var ys, ms, dd := Digits(d.year, 4), Digits(d.month, 2), Digits(d.day, 2);
    var s := FormatDate(d);
    assert s == ys + "-" + ms + "-" + dd;
    assert s[..4] == ys;
    var rest := s[5..];
    assert rest == ms + "-" + dd;
    assert rest[1] == ms[1] && IsDigit(ms[1]);
    assert rest[..2] == ms && rest[3..] == dd;
    ValueOfDigits(d.year, 4);
    ValueOfDigits(d.month, 2);
    ValueOfDigits(d.day, 2);
  }

  /** Parsing never yields two dates from one string, and a canonical string is
      determined by its date. */
  lemma CanonicalUnique(s: string, t: string)
    requires IsCanonical(s) && IsCanonical(t)
    ensures ParseDate(s) == ParseDate(t) <==> s == t
  {
  }

  /** A string accepted by ParseDate that is not canonical: strptime accepts
      unpadded months and days. */
  lemma UnpaddedAccepted()
    ensures ParseDate("2024-6-5") == Some(Date(2024, 6, 5))
    ensures !IsCanonical("2024-6-5")
  {
    var s := "2024-6-5";
    assert s[..4] == "2024" && s[5..] == "6-5";
    assert Value("2024") == 2024 by {
      assert "2024"[..3] == "202" && "202"[..2] == "20" && "20"[..1] == "2" && "2"[..0] == "";
    }
    assert "6-5"[..1] == "6" && "6-5"[2..] == "5";
    assert Value("6") == 6 && Value("5") == 5 by {
      assert "6"[..0] == "" && "5"[..0] == "";
    }
    assert ParseDate(s) == Some(Date(2024, 6, 5));
    assert |FormatDate(Date(2024, 6, 5))| != |s|;
  }

  /** The day may also be a space and one digit, as the `%d` directive allows,
      so a whole-string parse (the `as_of` of a manual run) accepts it. */
  lemma SpacePaddedDayAccepted()
    ensures ParseDate("2024-06- 5") == Some(Date(2024, 6, 5))
  {
    var s := "2024-06- 5";
    assert s[..4] == "2024" && s[5..] == "06- 5";
    assert Value("2024") == 2024 by {
      assert "2024"[..3] == "202" && "202"[..2] == "20" && "20"[..1] == "2" && "2"[..0] == "";
    }
    assert "06- 5"[..2] == "06" && "06- 5"[3..] == " 5" && " 5"[1..] == "5";
    assert Value("06") == 6 && Value("5") == 5 by {
      assert "06"[..1] == "0" && "0"[..0] == "" && "5"[..0] == "";
    }
    assert ParseDate(s) == Some(Date(2024, 6, 5));
  }

  /** The text order of canonical dates is the calendar order, which is why
      sorting the stored strings sorts the reminders by date. */
  lemma FormatOrder(a: Date, b: Date)
    requires ValidDate(a) && ValidDate(b)
    ensures StrLe(FormatDate(a), FormatDate(b)) <==> DateLe(a, b)
  {
    var ya, yb := Digits(a.year, 4), Digits(b.year, 4);
    assert Pow10(4) == 10000;
    DigitsOrder(a.year, b.year, 4);
    ValueOfDigits(a.year, 4);
    ValueOfDigits(b.year, 4);
    FormatSplit(a);
    FormatSplit(b);
    StrLeConcat(ya, MonthDay(a), yb, MonthDay(b));
    MonthDayOrder(a, b);
  }

  /** The `-MM-DD` tail of a printed date. */
  function MonthDay(d: Date): string
    requires ValidDate(d)
  {
    "-" + Digits(d.month, 2) + "-" + Digits(d.day, 2)
  }

  /** A printed date is its four-digit year followed by its `-MM-DD` tail. */
  lemma FormatSplit(d: Date)
    requires ValidDate(d)
    ensures FormatDate(d) == Digits(d.year, 4) + MonthDay(d)
  {
  }

  lemma MonthDayOrder(a: Date, b: Date)
    requires ValidDate(a) && ValidDate(b)
    ensures StrLe(MonthDay(a), MonthDay(b)) <==> a.month < b.month || (a.month == b.month && a.day <= b.day)
  {
    var ma, da := Digits(a.month, 2), Digits(a.day, 2);
    var mb, db := Digits(b.month, 2), Digits(b.day, 2);
    assert Pow10(2) == 100;
    DigitsOrder(a.month, b.month, 2);
    DigitsOrder(a.day, b.day, 2);
    ValueOfDigits(a.month, 2);
    ValueOfDigits(b.month, 2);
    assert MonthDay(a) == "-" + (ma + ("-" + da));
    assert MonthDay(b) == "-" + (mb + ("-" + db));
    StrLeConcat("-", ma + ("-" + da), "-", mb + ("-" + db));
    StrLeConcat(ma, "-" + da, mb, "-" + db);
    StrLeConcat("-", da, "-", db);
  }

  lemma DaysBeforeYearStep(y: int)
    requires y >= 1
    ensures DaysBeforeYear(y + 1) == DaysBeforeYear(y) + DaysInYear(y)
  {
    var p := y - 1;
    DivStep(p, 4);
    DivStep(p, 100);
    DivStep(p, 400);
    LeapDivisors(y);
    assert DaysBeforeYear(y + 1) - DaysBeforeYear(y)
      == 365 + ((p + 1) / 4 - p / 4) - ((p + 1) / 100 - p / 100) + ((p + 1) / 400 - p / 400);
  }

  /** A year divisible by 400 is divisible by 100, and one divisible by 100 is
      divisible by 4. */
  lemma LeapDivisors(y: int)
    ensures y % 400 == 0 ==> y % 100 == 0
    ensures y % 100 == 0 ==> y % 4 == 0
  {
    var q4, q100 := y / 400, y / 100;
    if y % 400 == 0 {
      assert y == 400 * q4;
      assert y - 100 * (4 * q4) == 0;
    }
    if y % 100 == 0 {
      assert y == 100 * q100;
      assert y - 4 * (25 * q100) == 0;
    }
  }

  lemma DivStep(p: int, k: int)
    requires p >= 0 && k in {4, 100, 400}
    ensures (p + 1) / k == p / k + (if (p + 1) % k == 0 then 1 else 0)
  {
  }

  lemma {:induction false} DaysBeforeYearMono(y1: int, y2: int)
    requires 1 <= y1 < y2
    ensures DaysBeforeYear(y1) + DaysInYear(y1) <= DaysBeforeYear(y2)
    decreases y2 - y1
  {
    DaysBeforeYearStep(y1);
    if y1 + 1 < y2 {
      DaysBeforeYearMono(y1 + 1, y2);
    }
  }

  lemma DaysBeforeMonthStep(y: int, m: int)
    requires 1 <= m <= 12
    ensures m < 12 ==> DaysBeforeMonth(y, m) + DaysInMonth(y, m) == DaysBeforeMonth(y, m + 1)
    ensures m == 12 ==> DaysBeforeMonth(y, m) + DaysInMonth(y, m) == DaysInYear(y)
  {
  }

  lemma {:induction false} DaysBeforeMonthMono(y: int, m1: int, m2: int)
    requires 1 <= m1 < m2 <= 12
    ensures DaysBeforeMonth(y, m1) + DaysInMonth(y, m1) <= DaysBeforeMonth(y, m2)
    decreases m2 - m1
  {
    DaysBeforeMonthStep(y, m1);
    if m1 + 1 < m2 {
      DaysBeforeMonthMono(y, m1 + 1, m2);
    }
  }

  /** Day numbers follow the calendar order, in both directions: a later date
      has a larger day number, so `days_until` grows with the due date. */
  lemma OrdinalOrder(a: Date, b: Date)
    requires ValidDate(a) && ValidDate(b)
    ensures DateLe(a, b) <==> Ordinal(a) <= Ordinal(b)
    ensures a == b <==> Ordinal(a) == Ordinal(b)
  {
    if a != b {
      if DateLe(a, b) {
        OrdinalStrict(a, b);
      } else {
        OrdinalStrict(b, a);
      }
    }
  }

  /** The calendar day after `d`: the next day of the month, else the first
      of the next month, else 1 January of the next year. */
  function NextDay(d: Date): (n: Date)
    requires ValidDate(d)
    ensures d != Date(9999, 12, 31) ==> ValidDate(n)
    ensures DateLe(d, n) && n != d
  {
    if d.day < DaysInMonth(d.year, d.month) then Date(d.year, d.month, d.day + 1)
    else if d.month < 12 then Date(d.year, d.month + 1, 1)
    else Date(d.year + 1, 1, 1)
  }

  /** Day numbers count days: 1 January of year 1 is day 1, and the day after
      any date (across month and year ends) has the next day number, so
      `(due - asOf).days` is 1 exactly for the next calendar day. */
  lemma OrdinalCountsDays(d: Date)
    requires ValidDate(d) && d != Date(9999, 12, 31)
    ensures Ordinal(Date(1, 1, 1)) == 1
    ensures Ordinal(NextDay(d)) == Ordinal(d) + 1
    ensures DaysBetween(d, NextDay(d)) == 1
  {
    assert DaysBeforeYear(1) == 0;
    var n := NextDay(d);
    if d.day < DaysInMonth(d.year, d.month) {
      assert n == Date(d.year, d.month, d.day + 1);
      OrdinalInMonth(d);
    } else if d.month < 12 {
      assert n == Date(d.year, d.month + 1, 1);
      OrdinalMonthEnd(d);
    } else {
      assert n == Date(d.year + 1, 1, 1);
      OrdinalYearEnd(d);
    }
    assert Ordinal(n) == Ordinal(d) + 1;
  }

  /** The next day of the same month follows any day but the last. */
  lemma OrdinalInMonth(d: Date)
    requires ValidDate(d) && d.day < DaysInMonth(d.year, d.month)
    ensures ValidDate(Date(d.year, d.month, d.day + 1))
    ensures Ordinal(Date(d.year, d.month, d.day + 1)) == Ordinal(d) + 1
  {
  }

  /** The first of the next month follows the last day of a month. */
  lemma OrdinalMonthEnd(d: Date)
    requires ValidDate(d) && d.day == DaysInMonth(d.year, d.month) && d.month < 12
    ensures ValidDate(Date(d.year, d.month + 1, 1))
    ensures Ordinal(Date(d.year, d.month + 1, 1)) == Ordinal(d) + 1
  {
    DaysBeforeMonthStep(d.year, d.month);
  }

  /** 1 January of the next year follows 31 December. */
  lemma OrdinalYearEnd(d: Date)
    requires ValidDate(d) && d.month == 12 && d.day == 31 && d.year < 9999
    ensures ValidDate(Date(d.year + 1, 1, 1))
    ensures Ordinal(Date(d.year + 1, 1, 1)) == Ordinal(d) + 1
  {
    var y := d.year;
    var before := DaysBeforeYear(y);
    DaysBeforeMonthStep(y, 12);
    DaysBeforeYearStep(y);
    assert Ordinal(d) == before + DaysInYear(y);
    assert Ordinal(Date(y + 1, 1, 1)) == DaysBeforeYear(y + 1) + 1;
  }

  lemma OrdinalStrict(a: Date, b: Date)
    requires ValidDate(a) && ValidDate(b)
    requires DateLe(a, b) && a != b
    ensures Ordinal(a) < Ordinal(b)
  {
    if a.year < b.year {
      DaysBeforeMonthStep(a.year, a.month);
      if a.month < 12 {
        DaysBeforeMonthMono(a.year, a.month, 12);
        DaysBeforeMonthStep(a.year, 12);
      }
      DaysBeforeYearMono(a.year, b.year);
    } else if a.month < b.month {
      DaysBeforeMonthMono(a.year, a.month, b.month);
    }
  }
}
