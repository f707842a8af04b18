/** `list_reminders`: the reminders in stored-date order, each row whose date
    parses annotated with its day count and urgency tier. */
module Listing {
  import opened Wrappers
  import opened Text
  import opened Calendar
  import opened Status
  import opened Records

  /** A row of the listing: the stored row with `test_date` rewritten in
      canonical form, plus the `status`, `color` and `days_until` keys. */
  datatype Listed = Listed(row: Reminder, status: string, color: string, daysUntil: int)

  /** `str(r['test_date']).split()[0]` raised IndexError: a stored date is blank.
      It is evaluated outside the try, so the whole listing fails. */
  datatype ListError = BlankTestDate

  // ---------------------------------------------------------------------
  // ORDER BY test_date

  /** Every row's date sorts (as TEXT) no later than every later row's. */
  predicate SortedByDate(rows: seq<Reminder>) {
    forall i, j :: 0 <= i < j < |rows| ==> StrLe(rows[i].testDate, rows[j].testDate)
  }

  /** Puts `x` after every row whose date does not sort after it. */
  function InsertByDate(x: Reminder, rows: seq<Reminder>): (r: seq<Reminder>)
    ensures multiset(r) == multiset(rows) + multiset{x}
  {
    if rows == [] then [x]
    else if !StrLe(rows[0].testDate, x.testDate) then [x] + rows
    else
      assert rows == [rows[0]] + rows[1..];
      [rows[0]] + InsertByDate(x, rows[1..])
  }

  /** `SELECT * FROM reminders ORDER BY test_date`, with rows of equal date
      kept in rowid order. */
  function OrderByTestDate(rows: seq<Reminder>): (r: seq<Reminder>)
    ensures multiset(r) == multiset(rows)
  {
    if rows == [] then []
    else
      var n := |rows| - 1;
      assert rows == rows[..n] + [rows[n]];
      InsertByDate(rows[n], OrderByTestDate(rows[..n]))
  }

  lemma {:induction false} InsertByDateSorted(x: Reminder, rows: seq<Reminder>)
    requires SortedByDate(rows)
    ensures SortedByDate(InsertByDate(x, rows))
  {
    if rows != [] && StrLe(rows[0].testDate, x.testDate) {
      var tail := rows[1..];
      InsertByDateSorted(x, tail);
      var r := InsertByDate(x, tail);
      assert multiset(r) == multiset(tail) + multiset{x};
      forall k | 0 <= k < |r|
        ensures StrLe(rows[0].testDate, r[k].testDate)
      {
        assert r[k] in multiset(r);
        if r[k] == x {
        } else {
          assert r[k] in multiset(tail);
          var j :| 0 <= j < |tail| && tail[j] == r[k];
          assert rows[j + 1] == r[k];
        }
      }
      SortedCons(rows[0], r);
    } else if rows != [] {
      StrLeTotal(x.testDate, rows[0].testDate);
      forall j | 0 <= j < |rows|
        ensures StrLe(x.testDate, rows[j].testDate)
      {
        if j > 0 {
          StrLeTrans(x.testDate, rows[0].testDate, rows[j].testDate);
        }
      }
      SortedCons(x, rows);
    }
  }

  /** A row that sorts no later than every row of a sorted sequence can go in
      front of it. */
  lemma SortedCons(x: Reminder, rows: seq<Reminder>)
    requires SortedByDate(rows)
    requires forall k :: 0 <= k < |rows| ==> StrLe(x.testDate, rows[k].testDate)
    ensures SortedByDate([x] + rows)
  {
    var r := [x] + rows;
    forall i, j | 0 <= i < j < |r|
      ensures StrLe(r[i].testDate, r[j].testDate)
    {
      assert r[j] == rows[j - 1];
      if i > 0 {
        assert r[i] == rows[i - 1];
      }
    }
  }

  /** The query returns every row once, sorted by stored date. */
  lemma {:induction false} OrderByTestDateSorted(rows: seq<Reminder>)
    ensures SortedByDate(OrderByTestDate(rows))
    ensures multiset(OrderByTestDate(rows)) == multiset(rows)
  {
    if rows != [] {
      var n := |rows| - 1;
      OrderByTestDateSorted(rows[..n]);
      InsertByDateSorted(rows[n], OrderByTestDate(rows[..n]));
    }
  }

  // ---------------------------------------------------------------------
  // The listing

  /** The keys the loop adds to a row whose date parsed to `d`. */
  function Annotate(row: Reminder, d: Date, today: Date): Listed
    requires ValidDate(d) && ValidDate(today)
  {
    var days := DaysBetween(today, d);
    var t := ClassifyByDays(days);
    Listed(row.(testDate := FormatDate(d)), t.status, t.color, days)
  }

  /** An annotated row has its date stored back in canonical form, which
      parses to the same date; its day count is measured from `today` and its
      tier follows from the day count; nothing else in the row changes. */
  lemma AnnotateFacts(row: Reminder, d: Date, today: Date)
    requires ValidDate(d) && ValidDate(today)
    ensures var x := Annotate(row, d, today);
      && IsCanonical(x.row.testDate) && ParseDate(x.row.testDate) == Some(d)
      && x.daysUntil == Ordinal(d) - Ordinal(today)
      && Tier(x.status, x.color) == ClassifyByDays(x.daysUntil)
      && x.row == row.(testDate := x.row.testDate)
  {
    ParseFormat(d);
  }

  /** What the loop does with one row: the whole listing stops (the stored
      date is blank, so `split()[0]` raises), the row is skipped (strptime
      refuses its first token), or the row is listed, annotated. */
  datatype Step = Stop | Skip | Keep(entry: Listed)

  /** One turn of the loop of `list_reminders()`. */
  function Visit(row: Reminder, today: Date): Step
    requires ValidDate(today)
  {
    match ParseLeadingDate(row.testDate)
    case Err(Blank) => Stop
    case Err(Malformed) => Skip
    case Ok(d) => Keep(Annotate(row, d, today))
  }

  /** The turn for each row, in order. */
  function Visits(rows: seq<Reminder>, today: Date): (ss: seq<Step>)
    requires ValidDate(today)
    ensures |ss| == |rows|
  {
    if rows == [] then []
    else
      var n := |rows| - 1;
      Visits(rows[..n], today) + [Visit(rows[n], today)]
  }

  /** What the loop returns after the turns `ss`: the first Stop fails it,
      and otherwise the kept entries are returned in order. */
  function Collect(ss: seq<Step>): (r: Result<seq<Listed>, ListError>)
    ensures r.Ok? ==> |r.value| <= |ss|
  {
    if ss == [] then Ok([])
    else
      var n := |ss| - 1;
      match Collect(ss[..n])
      case Err(e) => Err(e)
      case Ok(xs) =>
        match ss[n]
        case Stop => Err(BlankTestDate)
        case Skip => Ok(xs)
        case Keep(x) => Ok(xs + [x])
  }

  /** What `list_reminders()` returns for `rows` taken in the given order: a
      blank date anywhere makes it fail, a date that does not parse drops its
      row, and every other row is annotated. */
  function ListSpec(rows: seq<Reminder>, today: Date): (r: Result<seq<Listed>, ListError>)
    requires ValidDate(today)
    ensures r.Ok? ==> |r.value| <= |rows|
  {
    Collect(Visits(rows, today))
  }

  lemma VisitsAt(rows: seq<Reminder>, today: Date)
    requires ValidDate(today)
    ensures forall i :: 0 <= i < |rows| ==> Visits(rows, today)[i] == Visit(rows[i], today)
  {
    forall i | 0 <= i < |rows|
      ensures Visits(rows, today)[i] == Visit(rows[i], today)
    {
      VisitAt(rows, today, i);
    }
  }

  /** The i-th turn is the turn for the i-th row. */
  lemma {:induction false} VisitAt(rows: seq<Reminder>, today: Date, i: nat)
    requires ValidDate(today) && i < |rows|
    ensures Visits(rows, today)[i] == Visit(rows[i], today)
    decreases |rows|
  {
    var n := |rows| - 1;
    var ss, ts := Visits(rows, today), Visits(rows[..n], today);
    assert ss == ts + [Visit(rows[n], today)];
    if i < n {
      VisitAt(rows[..n], today, i);
      assert ss[i] == ts[i] && rows[..n][i] == rows[i];
    } else {
      assert i == n;
    }
  }

  /** The turns for one more row of `rows` taken in order. */
  lemma VisitsPrefix(rows: seq<Reminder>, today: Date, i: nat)
    requires ValidDate(today) && i < |rows|
    ensures Visits(rows[..i + 1], today) == Visits(rows[..i], today) + [Visit(rows[i], today)]
  {
    assert rows[..i + 1][..i] == rows[..i];
  }

  /** How one more turn changes what the loop returns. */
  lemma CollectStep(ss: seq<Step>, s: Step)
    ensures Collect(ss + [s]) ==
      match Collect(ss)
      case Err(e) => Err(e)
      case Ok(xs) => (match s case Stop => Err(BlankTestDate) case Skip => Ok(xs) case Keep(x) => Ok(xs + [x]))
  {
    assert (ss + [s])[..|ss|] == ss;
  }

  /** The loop fails exactly when some turn stops it. */
  lemma {:induction false} CollectFails(ss: seq<Step>)
    ensures Collect(ss).Err? <==> exists i :: 0 <= i < |ss| && ss[i].Stop?
  {
    if ss != [] {
      var n := |ss| - 1;
      CollectFails(ss[..n]);
      if exists i :: 0 <= i < n && ss[..n][i].Stop? {
        var i :| 0 <= i < n && ss[..n][i].Stop?;
        assert ss[i].Stop?;
      }
      if exists i :: 0 <= i < |ss| && ss[i].Stop? {
        var i :| 0 <= i < |ss| && ss[i].Stop?;
        if i < n {
          assert ss[..n][i].Stop?;
        }
      }
    }
  }

  /** Every returned entry was kept by some turn. */
  lemma {:induction false} CollectFrom(ss: seq<Step>)
    requires Collect(ss).Ok?
    ensures var xs := Collect(ss).value;
      forall k :: 0 <= k < |xs| ==> exists i :: 0 <= i < |ss| && ss[i] == Keep(xs[k])
  {
    if ss != [] {
      var n := |ss| - 1;
      CollectFrom(ss[..n]);
      var xs, ys := Collect(ss).value, Collect(ss[..n]).value;
      forall k | 0 <= k < |xs|
        ensures exists i :: 0 <= i < |ss| && ss[i] == Keep(xs[k])
      {
        if k < |ys| {
          assert xs[k] == ys[k];
          var i :| 0 <= i < n && ss[..n][i] == Keep(ys[k]);
          assert ss[i] == ss[..n][i];
        } else {
          assert ss[n] == Keep(xs[k]);
        }
      }
    }
  }

  /** Every kept entry is returned. */
  lemma {:induction false} CollectKeeps(ss: seq<Step>)
    requires Collect(ss).Ok?
    ensures forall i :: 0 <= i < |ss| && ss[i].Keep? ==> ss[i].entry in Collect(ss).value
  {
    if ss != [] {
      var n := |ss| - 1;
      CollectKeeps(ss[..n]);
      var xs, ys := Collect(ss).value, Collect(ss[..n]).value;
      forall i | 0 <= i < |ss| && ss[i].Keep?
        ensures ss[i].entry in xs
      {
        if i < n {
          assert ss[..n][i] == ss[i];
          var j :| 0 <= j < |ys| && ys[j] == ss[i].entry;
          assert xs[j] == ys[j];
        } else {
          assert xs[|ys|] == ss[n].entry;
        }
      }
    }
  }

  /** When every turn keeps its row, every entry is returned, in order. */
  lemma {:induction false} CollectAll(ss: seq<Step>)
    requires forall i :: 0 <= i < |ss| ==> ss[i].Keep?
    ensures Collect(ss).Ok? && |Collect(ss).value| == |ss|
    ensures forall k :: 0 <= k < |ss| ==> Collect(ss).value[k] == ss[k].entry
  {
    if ss != [] {
      var n := |ss| - 1;
      assert forall i :: 0 <= i < n ==> ss[..n][i] == ss[i];
      CollectAll(ss[..n]);
      var xs, ys := Collect(ss).value, Collect(ss[..n]).value;
      assert xs == ys + [ss[n].entry];
      forall k | 0 <= k < |ss|
        ensures xs[k] == ss[k].entry
      {
        if k < n {
          assert xs[k] == ys[k] == ss[..n][k].entry;
        }
      }
    }
  }

  /** The positions of the turns that keep an entry, in increasing order. */
  function KeptIndices(ss: seq<Step>): (idx: seq<nat>)
    ensures forall k :: 0 <= k < |idx| ==> idx[k] < |ss|
  {
    if ss == [] then []
    else
      var n := |ss| - 1;
      KeptIndices(ss[..n]) + (if ss[n].Keep? then [n] else [])
  }

  /** The kept positions increase. */
  lemma {:induction false} KeptIndicesIncrease(ss: seq<Step>)
    ensures forall k, l :: 0 <= k < l < |KeptIndices(ss)| ==> KeptIndices(ss)[k] < KeptIndices(ss)[l]
  {
    if ss != [] {
      var n := |ss| - 1;
      var idx, jdx := KeptIndices(ss), KeptIndices(ss[..n]);
      KeptIndicesIncrease(ss[..n]);
      assert idx == jdx + (if ss[n].Keep? then [n] else []);
      forall k, l | 0 <= k < l < |idx|
        ensures idx[k] < idx[l]
      {
        if l < |jdx| {
          assert idx[k] == jdx[k] && idx[l] == jdx[l];
        } else {
          assert idx[k] == jdx[k] < n && idx[l] == n;
        }
      }
    }
  }

  /** Every keeping turn is among the kept positions. */
  lemma {:induction false} KeptIndicesCover(ss: seq<Step>)
    ensures forall i :: 0 <= i < |ss| && ss[i].Keep? ==> i in KeptIndices(ss)
  {
    if ss != [] {
      var n := |ss| - 1;
      var idx, jdx := KeptIndices(ss), KeptIndices(ss[..n]);
      KeptIndicesCover(ss[..n]);
      assert idx == jdx + (if ss[n].Keep? then [n] else []);
      forall i | 0 <= i < |ss| && ss[i].Keep?
        ensures i in idx
      {
        if i < n {
          assert ss[..n][i] == ss[i];
          var k :| 0 <= k < |jdx| && jdx[k] == i;
          assert idx[k] == i;
        } else {
          assert idx[|jdx|] == n;
        }
      }
    }
  }

  /** A loop that does not fail returns one entry per keeping turn: the k-th
      entry is the one the k-th keeping turn keeps. */
  lemma {:induction false} CollectIndices(ss: seq<Step>)
    requires Collect(ss).Ok?
    ensures var xs, idx := Collect(ss).value, KeptIndices(ss);
      |idx| == |xs| && forall k :: 0 <= k < |idx| ==> ss[idx[k]] == Keep(xs[k])
  {
    if ss != [] {
      var n := |ss| - 1;
      var xs, idx := Collect(ss).value, KeptIndices(ss);
      var ys, jdx := Collect(ss[..n]).value, KeptIndices(ss[..n]);
      CollectIndices(ss[..n]);
      assert idx == jdx + (if ss[n].Keep? then [n] else []);
      assert xs == ys + (if ss[n].Keep? then [ss[n].entry] else []);
      forall k | 0 <= k < |idx|
        ensures ss[idx[k]] == Keep(xs[k])
      {
        if k < |jdx| {
          assert ss[..n][jdx[k]] == ss[jdx[k]];
        }
      }
    }
  }

  /** The positions of the rows the listing keeps. */
  function ListedIndices(rows: seq<Reminder>, today: Date): (idx: seq<nat>)
    requires ValidDate(today)
    ensures forall k :: 0 <= k < |idx| ==> idx[k] < |rows|
  {
    KeptIndices(Visits(rows, today))
  }

  /** The listing of any rows, canonical or not: the k-th entry is the
      annotation of the row at the k-th listed position, the positions
      increase (so entries keep the order the query returned the rows in), a
      row is listed exactly when its date parses, and every row left out has a
      first token `strptime` refuses. */
  lemma ListInOrder(rows: seq<Reminder>, today: Date)
    requires ValidDate(today) && ListSpec(rows, today).Ok?
    ensures var xs, idx := ListSpec(rows, today).value, ListedIndices(rows, today);
      && |idx| == |xs|
      && (forall k, l :: 0 <= k < l < |idx| ==> idx[k] < idx[l])
      && (forall k :: 0 <= k < |idx| ==> AnnotationOf(xs[k], rows[idx[k]], today))
      && (forall i :: 0 <= i < |rows| ==> (i in idx <==> ParseLeadingDate(rows[i].testDate).Ok?))
      && (forall i :: 0 <= i < |rows| && i !in idx ==> ParseLeadingDate(rows[i].testDate) == Err(Malformed))
  {
    var ss := Visits(rows, today);
    var xs, idx := Collect(ss).value, KeptIndices(ss);
    CollectIndices(ss);
    KeptIndicesIncrease(ss);
    KeptIndicesCover(ss);
    CollectFails(ss);
    VisitsAt(rows, today);
    forall k | 0 <= k < |idx|
      ensures AnnotationOf(xs[k], rows[idx[k]], today)
    {
      KeptIsAnnotation(rows[idx[k]], today, xs[k]);
    }
  }

  /** The listing fails exactly when some stored date is blank. */
  lemma ListFailsOnBlank(rows: seq<Reminder>, today: Date)
    requires ValidDate(today)
    ensures ListSpec(rows, today).Err? <==> exists i :: 0 <= i < |rows| && FirstToken(rows[i].testDate).None?
  {
    var ss := Visits(rows, today);
    CollectFails(ss);
    VisitsAt(rows, today);
    forall i | 0 <= i < |rows|
      ensures ss[i].Stop? <==> FirstToken(rows[i].testDate).None?
    {
      ParseLeadingDateCases(rows[i].testDate);
    }
  }

  /** `x` is what the loop makes of `row`: its date parses, and `x` is the
      row annotated with that date. */
  predicate AnnotationOf(x: Listed, row: Reminder, today: Date)
    requires ValidDate(today)
  {
    var p := ParseLeadingDate(row.testDate);
    p.Ok? && x == Annotate(row, p.value, today)
  }

  /** A turn that keeps an entry keeps the annotation of its row. */
  lemma KeptIsAnnotation(row: Reminder, today: Date, x: Listed)
    requires ValidDate(today) && Visit(row, today) == Keep(x)
    ensures AnnotationOf(x, row, today)
  {
  }

  /** Every listed entry is the annotation of a row whose date parses. */
  lemma ListEntriesFromRows(rows: seq<Reminder>, today: Date)
    requires ValidDate(today) && ListSpec(rows, today).Ok?
    ensures var xs := ListSpec(rows, today).value;
      forall k :: 0 <= k < |xs| ==> exists i :: 0 <= i < |rows| && AnnotationOf(xs[k], rows[i], today)
  {
    var ss := Visits(rows, today);
    var xs := Collect(ss).value;
    CollectFrom(ss);
    VisitsAt(rows, today);
    forall k | 0 <= k < |xs|
      ensures exists i :: 0 <= i < |rows| && AnnotationOf(xs[k], rows[i], today)
    {
      var i :| 0 <= i < |ss| && ss[i] == Keep(xs[k]);
      KeptIsAnnotation(rows[i], today, xs[k]);
    }
  }

  /** Every row whose date parses is listed: rows are dropped only for a
      malformed date. */
  lemma ListKeepsParsedRows(rows: seq<Reminder>, today: Date)
    requires ValidDate(today) && ListSpec(rows, today).Ok?
    ensures var xs := ListSpec(rows, today).value;
      forall i :: 0 <= i < |rows| && ParseLeadingDate(rows[i].testDate).Ok? ==>
        Annotate(rows[i], ParseLeadingDate(rows[i].testDate).value, today) in xs
  {
    var ss := Visits(rows, today);
    CollectKeeps(ss);
    VisitsAt(rows, today);
    forall i | 0 <= i < |rows| && ParseLeadingDate(rows[i].testDate).Ok?
      ensures Annotate(rows[i], ParseLeadingDate(rows[i].testDate).value, today) in Collect(ss).value
    {
      assert ss[i] == Keep(Annotate(rows[i], ParseLeadingDate(rows[i].testDate).value, today));
    }
  }

  // ---------------------------------------------------------------------
  // Stored dates in canonical form

  /** Every stored date is in the form `add_reminder` writes. */
  predicate AllCanonical(rows: seq<Reminder>) {
    forall i :: 0 <= i < |rows| ==> IsCanonical(rows[i].testDate)
  }

  /** A canonical date is its own first token. */
  lemma CanonicalToken(s: string)
    requires IsCanonical(s)
    ensures ParseLeadingDate(s) == Ok(ParseDate(s).value)
  {
    var d := ParseDate(s).value;
    assert s == Digits(d.year, 4) + "-" + Digits(d.month, 2) + "-" + Digits(d.day, 2);
    assert forall i :: 0 <= i < |s| ==> IsDigit(s[i]) || s[i] == '-';
    assert forall i :: 0 <= i < |s| ==> !IsSpace(s[i]);
    TakeWordWhole(s);
  }

  /** With every stored date canonical, the listing keeps every row, in order. */
  lemma ListOfCanonical(rows: seq<Reminder>, today: Date)
    requires ValidDate(today) && AllCanonical(rows)
    ensures ListSpec(rows, today).Ok?
    ensures var xs := ListSpec(rows, today).value;
      |xs| == |rows| && forall k :: 0 <= k < |xs| ==> xs[k] == Annotate(rows[k], ParseDate(rows[k].testDate).value, today)
  {
    var ss := Visits(rows, today);
    VisitsAt(rows, today);
    forall i | 0 <= i < |rows|
      ensures ss[i] == Keep(Annotate(rows[i], ParseDate(rows[i].testDate).value, today))
    {
      CanonicalToken(rows[i].testDate);
    }
    CollectAll(ss);
  }

  /** The order the listing promises: when the stored dates are canonical and
      the rows come sorted by date text, the day counts never decrease. Text
      order and calendar order agree on canonical dates. */
  lemma ListAscending(rows: seq<Reminder>, today: Date)
    requires ValidDate(today) && AllCanonical(rows) && SortedByDate(rows)
    ensures ListSpec(rows, today).Ok?
    ensures var xs := ListSpec(rows, today).value;
      |xs| == |rows| && forall k, l :: 0 <= k < l < |xs| ==> xs[k].daysUntil <= xs[l].daysUntil
  {
    ListOfCanonical(rows, today);
    var xs := ListSpec(rows, today).value;
    forall k, l | 0 <= k < l < |xs|
      ensures xs[k].daysUntil <= xs[l].daysUntil
    {
      var a, b := ParseDate(rows[k].testDate).value, ParseDate(rows[l].testDate).value;
      FormatOrder(a, b);
      OrdinalOrder(a, b);
    }
  }
}
