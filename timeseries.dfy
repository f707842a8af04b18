/** The month buckets of the messages time series: the last N months up to
    the current one, as `YYYY-MM` labels, each with its count of outgoing
    messages (0 when the month has none). */
module Timeseries {
  import opened Text

  datatype YearMonth = YearMonth(year: int, month: int)

  /** Months are numbered consecutively across years: January of year 0 is
      month 0. */
  function MonthNumber(ym: YearMonth): int {
    ym.year * 12 + (ym.month - 1)
  }

  /** The month `i` months before (`nowYear`, `nowMonth`); a negative `i`
      counts forward. */
  function MonthsBack(nowYear: int, nowMonth: int, i: int): (ym: YearMonth)
    requires 1 <= nowMonth <= 12
    ensures 1 <= ym.month <= 12
    ensures MonthNumber(ym) == MonthNumber(YearMonth(nowYear, nowMonth)) - i
  {
    var t := nowYear * 12 + (nowMonth - 1) - i;
    YearMonth(t / 12, t % 12 + 1)
  }

  /** `f"{y:04d}-{m:02d}"`. */
  function MonthLabel(ym: YearMonth): string {
    ZeroPadded(ym.year, 4) + "-" + ZeroPadded(ym.month, 2)
  }

  /** The month-bucket loop of `api_messages_timeseries` for `period=month`:
      for `i` from `months - 1` down to 0 it steps `i` months back from the
      current month (`nowYear`, `nowMonth`, the first of the month in UTC),
      wrapping below January into the previous year, and collects the
      labels; then it pairs every label with its count in `counts` (the
      query's `period -> cnt` rows), or 0. No `months` above 0 gives no
      buckets. */
  method MonthBuckets(months: int, nowYear: int, nowMonth: int, counts: map<string, nat>)
    returns (labels: seq<string>, data: seq<nat>)
    requires 1 <= nowMonth <= 12
    ensures |labels| == |data| == (if months > 0 then months else 0)
    ensures forall k :: 0 <= k < |labels| ==>
      labels[k] == MonthLabel(MonthsBack(nowYear, nowMonth, months - 1 - k))
    ensures forall k :: 0 <= k < |labels| ==>
      data[k] == (if labels[k] in counts then counts[labels[k]] else 0)
  {
    var monthsList: seq<string> := [];
    var i := months - 1;
    while i >= 0
      invariant i >= -1 || i == months - 1
      invariant |monthsList| == months - 1 - i
      invariant forall k :: 0 <= k < |monthsList| ==>
        monthsList[k] == MonthLabel(MonthsBack(nowYear, nowMonth, months - 1 - k))
    {
      var ym := StepBack(nowYear, nowMonth, i);
      monthsList := monthsList + [MonthLabel(ym)];
      i := i - 1;
    }
    labels, data := ZeroFill(monthsList, counts);
  }

  /** The second loop of the month buckets: copy every label and look up its
      count, 0 when the month has no row. */
  method ZeroFill(monthsList: seq<string>, counts: map<string, nat>)
    returns (labels: seq<string>, data: seq<nat>)
    ensures labels == monthsList && |data| == |labels|
    ensures forall k :: 0 <= k < |labels| ==>
      data[k] == (if labels[k] in counts then counts[labels[k]] else 0)
  {
    labels, data := [], [];
    for j := 0 to |monthsList|
      invariant |labels| == |data| == j
      invariant labels == monthsList[..j]
      invariant forall k :: 0 <= k < j ==> data[k] == (if labels[k] in counts then counts[labels[k]] else 0)
    {
      var entry := monthsList[j];
      labels := labels + [entry];
      data := data + [if entry in counts then counts[entry] else 0];
    }
    assert labels == monthsList;
  }

  /** The inner wrap of the month-bucket loop: subtract `i` from the month and
      add 12 (taking a year off) while the month is not positive. */
  method StepBack(nowYear: int, nowMonth: int, i: nat) returns (ym: YearMonth)
    requires 1 <= nowMonth <= 12
    ensures ym == MonthsBack(nowYear, nowMonth, i)
  {
    var y := nowYear;
    var m := nowMonth - i;
    while m <= 0
      invariant m <= 12
      invariant y * 12 + (m - 1) == nowYear * 12 + (nowMonth - 1) - i
      decreases -m
    {
      m := m + 12;
      y := y - 1;
    }
    ym := YearMonth(y, m);
    SameMonth(ym, MonthsBack(nowYear, nowMonth, i));
  }

  /** A month is determined by its number. */
  lemma SameMonth(a: YearMonth, b: YearMonth)
    requires 1 <= a.month <= 12 && 1 <= b.month <= 12 && MonthNumber(a) == MonthNumber(b)
    ensures a == b
  {
  }

  /** The last bucket is the current month. */
  lemma LastIsCurrent(nowYear: int, nowMonth: int)
    requires 1 <= nowMonth <= 12
    ensures MonthsBack(nowYear, nowMonth, 0) == YearMonth(nowYear, nowMonth)
  {
    SameMonth(MonthsBack(nowYear, nowMonth, 0), YearMonth(nowYear, nowMonth));
  }

  /** Each bucket is the calendar month right after the one before it:
      the next month of the same year, or January after December. */
  lemma NextMonth(nowYear: int, nowMonth: int, i: int)
    requires 1 <= nowMonth <= 12
    ensures var before, after := MonthsBack(nowYear, nowMonth, i + 1), MonthsBack(nowYear, nowMonth, i);
      after == (if before.month < 12 then YearMonth(before.year, before.month + 1)
                else YearMonth(before.year + 1, 1))
  {
    var before, after := MonthsBack(nowYear, nowMonth, i + 1), MonthsBack(nowYear, nowMonth, i);
    var next := if before.month < 12 then YearMonth(before.year, before.month + 1) else YearMonth(before.year + 1, 1);
    SameMonth(after, next);
  }

  /** Going back twelve months lands on the same month of the previous year. */
  lemma YearBack(nowYear: int, nowMonth: int, i: int)
    requires 1 <= nowMonth <= 12
    ensures var a, b := MonthsBack(nowYear, nowMonth, i), MonthsBack(nowYear, nowMonth, i + 12);
      b == YearMonth(a.year - 1, a.month)
  {
    var a, b := MonthsBack(nowYear, nowMonth, i), MonthsBack(nowYear, nowMonth, i + 12);
    SameMonth(b, YearMonth(a.year - 1, a.month));
  }

  /** For years of at most four digits, a label names exactly one month, so
      the counts of two buckets never come from the same row. */
  lemma LabelInjective(a: YearMonth, b: YearMonth)
    requires 0 <= a.year <= 9999 && 0 <= b.year <= 9999
    requires 1 <= a.month <= 12 && 1 <= b.month <= 12
    ensures MonthLabel(a) == MonthLabel(b) <==> a == b
  {
    if MonthLabel(a) == MonthLabel(b) {
      assert Pow10(2) == 100 && Pow10(4) == 10000;
      PaddedFits(a.year, 4);
      PaddedFits(b.year, 4);
      PaddedFits(a.month, 2);
      PaddedFits(b.month, 2);
      var la, lb := MonthLabel(a), MonthLabel(b);
      assert la[..4] == Digits(a.year, 4) && lb[..4] == Digits(b.year, 4);
      assert la[5..] == Digits(a.month, 2) && lb[5..] == Digits(b.month, 2);
      ValueOfDigits(a.year, 4);
      ValueOfDigits(b.year, 4);
      ValueOfDigits(a.month, 2);
      ValueOfDigits(b.month, 2);
    }
  }

  /** A number below `10^w` is printed in exactly `w` digits. */
  lemma PaddedFits(n: nat, w: nat)
    requires w >= 1 && n < Pow10(w)
    ensures ZeroPadded(n, w) == Digits(n, w)
  {
    NumDigitsBound(n, w);
  }
}
