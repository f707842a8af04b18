/** The `reminders` table as a sequence of rows in rowid order, and the
    row-level effect of each statement the app runs against it. */
module Table {
  import opened Wrappers
  import opened Text
  import opened Calendar
  import opened Records
  import opened Listing

  /** Rowids strictly increase along the table. */
  predicate IdsAscending(rows: seq<Reminder>) {
    forall i, j :: 0 <= i < j < |rows| ==> rows[i].id < rows[j].id
  }

  /** Every rowid lies between 1 and the AUTOINCREMENT sequence value. */
  predicate IdsWithin(rows: seq<Reminder>, last: nat) {
    forall i :: 0 <= i < |rows| ==> 1 <= rows[i].id <= last
  }

  predicate HasId(rows: seq<Reminder>, id: nat) {
    exists i :: 0 <= i < |rows| && rows[i].id == id
  }

  // ---------------------------------------------------------------------
  // INSERT (add_reminder)

  /** The `phone` argument of `add_reminder`: a plain value, or a dict whose
      `phone`, `no_uji` and `jenis_kendaraan` keys are unpacked (a missing key
      reads as None). */
  datatype PhoneArg = Plain(phone: Option<string>)
                    | Fields(phone: Option<string>, noUji: Option<string>, jenisKendaraan: Option<string>)

  /** Why `add_reminder` inserted nothing: the ValueError it raises for a bad
      date, or SQLite's IntegrityError for a NULL in a NOT NULL column. */
  datatype AddError = InvalidTestDate | NotNull(column: string)

  /** The row `add_reminder` inserts with rowid `id` at time `now`, or why it
      inserts nothing. The date check comes first: a missing date, a blank one
      or one whose first token is not a `%Y-%m-%d` date is refused whatever the
      other arguments are. The stored date is the canonical print of the
      parsed one. Then SQLite refuses a NULL name, then a NULL vehicle number. */
  function PrepareRow(name: Option<string>, vehicleNumber: Option<string>, testDate: Option<string>,
                      phone: PhoneArg, id: nat, now: string): (r: Result<Reminder, AddError>)
    ensures r == Err(InvalidTestDate) <==> testDate.None? || ParseLeadingDate(testDate.value).Err?
    ensures r == Err(NotNull("name")) <==>
      testDate.Some? && ParseLeadingDate(testDate.value).Ok? && name.None?
    ensures r == Err(NotNull("vehicle_number")) <==>
      testDate.Some? && ParseLeadingDate(testDate.value).Ok? && name.Some? && vehicleNumber.None?
    ensures r.Ok? <==>
      testDate.Some? && ParseLeadingDate(testDate.value).Ok? && name.Some? && vehicleNumber.Some?
    ensures r.Ok? ==>
      (IsCanonical(r.value.testDate)
       && ParseDate(r.value.testDate) == Some(ParseLeadingDate(testDate.value).value))
    ensures r.Ok? ==>
      (&& r.value.id == id && Some(r.value.name) == name
       && Some(r.value.vehicleNumber) == vehicleNumber && r.value.createdAt == now
       && r.value.phone == phone.phone
       && r.value.noUji == (if phone.Fields? then phone.noUji else None)
       && r.value.jenisKendaraan == (if phone.Fields? then phone.jenisKendaraan else None))
  {
    if testDate.None? then Err(InvalidTestDate)
    else
      match ParseLeadingDate(testDate.value)
      case Err(_) => Err(InvalidTestDate)
      case Ok(d) =>
        ParseFormat(d);
        var canonical := FormatDate(d);
        var noUji, jenis := if phone.Fields? then phone.noUji else None,
                            if phone.Fields? then phone.jenisKendaraan else None;
        if name.None? then Err(NotNull("name"))
        else if vehicleNumber.None? then Err(NotNull("vehicle_number"))
        else Ok(Reminder(id, name.value, vehicleNumber.value, noUji, jenis, canonical, phone.phone, now))
  }

  /** Appending a row with a fresh rowid above the sequence keeps the table's
      id invariants, and a canonical date keeps every stored date canonical. */
  lemma AppendKeepsInvariants(rows: seq<Reminder>, last: nat, row: Reminder)
    requires IdsAscending(rows) && IdsWithin(rows, last) && row.id == last + 1
    ensures IdsAscending(rows + [row]) && IdsWithin(rows + [row], last + 1)
    ensures AllCanonical(rows) && IsCanonical(row.testDate) ==> AllCanonical(rows + [row])
  {
    var r := rows + [row];
    assert forall i :: 0 <= i < |rows| ==> r[i] == rows[i];
  }

  // ---------------------------------------------------------------------
  // DELETE FROM reminders WHERE id=?

  /** The table without the row whose rowid is `id`; every other row stays,
      in order. */
  function WithoutId(rows: seq<Reminder>, id: nat): (r: seq<Reminder>)
    ensures |r| <= |rows|
    ensures forall x :: x in r <==> x in rows && x.id != id
  {
    if rows == [] then []
    else
      var n := |rows| - 1;
      assert rows == rows[..n] + [rows[n]];
      WithoutId(rows[..n], id) + (if rows[n].id == id then [] else [rows[n]])
  }

  /** Deleting keeps the id invariants and canonical dates. */
  lemma {:induction false} WithoutIdKeepsInvariants(rows: seq<Reminder>, id: nat, last: nat)
    requires IdsAscending(rows) && IdsWithin(rows, last)
    ensures IdsAscending(WithoutId(rows, id)) && IdsWithin(WithoutId(rows, id), last)
    ensures AllCanonical(rows) ==> AllCanonical(WithoutId(rows, id))
  {
    WithoutIdAscending(rows, id);
    var r := WithoutId(rows, id);
    forall i | 0 <= i < |r|
      ensures 1 <= r[i].id <= last && (AllCanonical(rows) ==> IsCanonical(r[i].testDate))
    {
      assert r[i] in rows;
    }
  }

  lemma {:induction false} WithoutIdAscending(rows: seq<Reminder>, id: nat)
    requires IdsAscending(rows)
    ensures IdsAscending(WithoutId(rows, id))
  {
    if rows != [] {
      var n := |rows| - 1;
      var init := rows[..n];
      WithoutIdAscending(init, id);
      var p := WithoutId(init, id);
      forall i | 0 <= i < |p|
        ensures p[i].id < rows[n].id
      {
        assert p[i] in init;
      }
    }
  }

  /** Deleting a rowid that is not there changes nothing. */
  lemma {:induction false} WithoutAbsentId(rows: seq<Reminder>, id: nat)
    requires forall i :: 0 <= i < |rows| ==> rows[i].id != id
    ensures WithoutId(rows, id) == rows
  {
    if rows != [] {
      var n := |rows| - 1;
      var init := rows[..n];
      assert rows == init + [rows[n]];
      assert forall i :: 0 <= i < n ==> init[i].id != id;
      WithoutAbsentId(init, id);
    }
  }

  // ---------------------------------------------------------------------
  // UPDATE reminders SET ... WHERE id=? (edit_reminder)

  /** The NOT NULL column of the update that SQLite complains about first, in
      table order: name, vehicle_number, test_date. */
  function NullColumn(name: Option<string>, vehicleNumber: Option<string>, testDate: Option<string>): (c: Option<string>)
    ensures c.None? <==> name.Some? && vehicleNumber.Some? && testDate.Some?
    ensures c == Some("name") <==> name.None?
    ensures c == Some("vehicle_number") <==> name.Some? && vehicleNumber.None?
    ensures c == Some("test_date") <==> name.Some? && vehicleNumber.Some? && testDate.None?
  {
    if name.None? then Some("name")
    else if vehicleNumber.None? then Some("vehicle_number")
    else if testDate.None? then Some("test_date")
    else None
  }

  /** Every row with rowid `id` gets all six editable columns replaced; its
      rowid and creation time stay. Nothing is validated: the test date is
      stored as given. Other rows are untouched. */
  function EditRows(rows: seq<Reminder>, id: nat, name: string, vehicleNumber: string,
                    noUji: Option<string>, jenisKendaraan: Option<string>, testDate: string,
                    phone: Option<string>): (r: seq<Reminder>)
    ensures |r| == |rows|
    ensures forall i :: 0 <= i < |r| ==> r[i].id == rows[i].id && r[i].createdAt == rows[i].createdAt
    ensures forall i :: 0 <= i < |r| && rows[i].id != id ==> r[i] == rows[i]
    ensures forall i :: 0 <= i < |r| && rows[i].id == id ==>
      r[i] == Reminder(id, name, vehicleNumber, noUji, jenisKendaraan, testDate, phone, rows[i].createdAt)
  {
    if rows == [] then []
    else
      var n := |rows| - 1;
      var row := rows[n];
      EditRows(rows[..n], id, name, vehicleNumber, noUji, jenisKendaraan, testDate, phone)
        + [if row.id == id
           then Reminder(id, name, vehicleNumber, noUji, jenisKendaraan, testDate, phone, row.createdAt)
           else row]
  }

  /** An update keeps the id invariants, and does nothing when no row has the id. */
  lemma EditRowsKeepsIds(rows: seq<Reminder>, id: nat, name: string, vehicleNumber: string,
                         noUji: Option<string>, jenisKendaraan: Option<string>, testDate: string,
                         phone: Option<string>, last: nat)
    requires IdsAscending(rows) && IdsWithin(rows, last)
    ensures var r := EditRows(rows, id, name, vehicleNumber, noUji, jenisKendaraan, testDate, phone);
      IdsAscending(r) && IdsWithin(r, last) && (!HasId(rows, id) ==> r == rows)
  {
  }

  // ---------------------------------------------------------------------
  // SELECT * FROM reminders WHERE id = ?

  /** The row with rowid `id`, if there is one. */
  function FindRow(rows: seq<Reminder>, id: nat): (r: Option<Reminder>)
    ensures r.None? <==> !HasId(rows, id)
    ensures r.Some? ==> r.value in rows && r.value.id == id
  {
    if rows == [] then None
    else if rows[0].id == id then Some(rows[0])
    else
      var r := FindRow(rows[1..], id);
      assert HasId(rows, id) ==> HasId(rows[1..], id) by {
        if HasId(rows, id) {
          var i :| 0 <= i < |rows| && rows[i].id == id;
          assert rows[1..][i - 1] == rows[i];
        }
      }
      assert HasId(rows[1..], id) ==> HasId(rows, id) by {
        if HasId(rows[1..], id) {
          var i :| 0 <= i < |rows[1..]| && rows[1..][i].id == id;
          assert rows[i + 1] == rows[1..][i];
        }
      }
      r
  }
}
