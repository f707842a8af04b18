/** The reminder app's database and the operations that read and change it:
    the `reminders` table with its AUTOINCREMENT counter, and the `messages`
    log. */
module Store {
  import opened Wrappers
  import opened Text
  import opened Calendar
  import opened Status
  import opened Records
  import opened Phone
  import opened Template
  import opened Listing
  import opened Table
  import opened Dispatch

  /** What `edit_reminder` answers: `{"status": "updated", "id": id}`, or the
      500 answer carrying the database error's text. */
  datatype EditResult = Updated(id: nat) | EditFailed(message: string)

  /** Why `run_now_check` raised instead of returning its actions: the `as_of`
      text is not a `%Y-%m-%d` date, or the listing raised. */
  datatype RunError = BadAsOf | ListFailed

  /** What `send_one` answers: the 404 for an unknown id, or the id with the
      send's status and the whole send result. */
  datatype SendOneResult = NotFound | SentOne(id: nat, status: string, detail: SendResult)

  class ReminderDb {
    /** The `reminders` table in rowid order. */
    var reminders: seq<Reminder>
    /** The table's `sqlite_sequence` entry: the largest rowid handed out. */
    var lastId: nat
    /** The `messages` table in insertion order. */
    var messages: seq<LogEntry>

    /** Rowids are unique, ascending and never above the counter, so the next
        AUTOINCREMENT rowid is free. */
    predicate Valid()
      reads this
    {
      IdsAscending(reminders) && IdsWithin(reminders, lastId)
    }

    /** `init_db()` on a fresh file: both tables empty, no rowid handed out. */
    constructor ()
      ensures Valid() && reminders == [] && lastId == 0 && messages == []
    {
      reminders, lastId, messages := [], 0, [];
    }

    /** `add_reminder`: inserts the row PrepareRow describes with the next
        rowid, or changes nothing and reports why. The stored date is always
        canonical. */
    method AddReminder(name: Option<string>, vehicleNumber: Option<string>, testDate: Option<string>,
                       phone: PhoneArg, now: string) returns (err: Option<AddError>)
      requires Valid()
      modifies this
      ensures Valid() && messages == old(messages)
      ensures var p := PrepareRow(name, vehicleNumber, testDate, phone, old(lastId) + 1, now);
        && (p.Err? ==> err == Some(p.error) && reminders == old(reminders) && lastId == old(lastId))
        && (p.Ok? ==> err == None && reminders == old(reminders) + [p.value] && lastId == old(lastId) + 1)
      ensures AllCanonical(old(reminders)) ==> AllCanonical(reminders)
    {
      var p := PrepareRow(name, vehicleNumber, testDate, phone, lastId + 1, now);
      match p
      case Err(e) =>
        err := Some(e);
      case Ok(row) =>
        AppendKeepsInvariants(reminders, lastId, row);
        reminders, lastId := reminders + [row], lastId + 1;
        err := None;
    }

    /** `DELETE FROM reminders WHERE id=?`: the row goes, the counter stays, so
        its rowid is never handed out again. Answers the same whether or not
        the row was there. */
    method DeleteReminder(id: nat)
      requires Valid()
      modifies this
      ensures Valid() && reminders == WithoutId(old(reminders), id)
      ensures lastId == old(lastId) && messages == old(messages)
      ensures AllCanonical(old(reminders)) ==> AllCanonical(reminders)
    {
      WithoutIdKeepsInvariants(reminders, id, lastId);
      reminders := WithoutId(reminders, id);
    }

    /** `/clear`: every row goes and the counter is reset, so the next rowid
        is 1 again. The message log stays. */
    method ClearReminders()
      modifies this
      ensures Valid() && reminders == [] && lastId == 0 && messages == old(messages)
    {
      reminders, lastId := [], 0;
    }

    /** `edit_reminder`: an UPDATE of the row with rowid `id`. When that row
        exists and a NOT NULL column is given no value the update fails with
        SQLite's message and nothing changes; otherwise every row with that
        id is rewritten (none, when the id is unknown, which is still
        answered as updated). */
    method EditReminder(id: nat, name: Option<string>, vehicleNumber: Option<string>,
                        noUji: Option<string>, jenisKendaraan: Option<string>,
                        testDate: Option<string>, phone: Option<string>) returns (r: EditResult)
      requires Valid()
      modifies this
      ensures Valid() && lastId == old(lastId) && messages == old(messages)
      ensures var col := NullColumn(name, vehicleNumber, testDate);
        && (r.EditFailed? <==> HasId(old(reminders), id) && col.Some?)
        && (r.EditFailed? ==>
              r.message == "NOT NULL constraint failed: reminders." + col.value && reminders == old(reminders))
        && (r.Updated? ==> r.id == id)
        && (!HasId(old(reminders), id) ==> reminders == old(reminders))
        && (HasId(old(reminders), id) && col.None? ==>
              reminders == EditRows(old(reminders), id, name.value, vehicleNumber.value,
                                    noUji, jenisKendaraan, testDate.value, phone))
    {
      var found := FindRow(reminders, id);
      var col := NullColumn(name, vehicleNumber, testDate);
      if found.None? {
        return Updated(id);
      }
      if col.Some? {
        return EditFailed("NOT NULL constraint failed: reminders." + col.value);
      }
      EditRowsKeepsIds(reminders, id, name.value, vehicleNumber.value, noUji, jenisKendaraan, testDate.value, phone, lastId);
      reminders := EditRows(reminders, id, name.value, vehicleNumber.value, noUji, jenisKendaraan, testDate.value, phone);
      r := Updated(id);
    }

    /** `log_message`: appends one row to the message log; a missing meta is
        stored as "". */
    method LogMessage(direction: string, phone: string, text: string, status: string,
                      meta: Option<string>, now: string)
      modifies this
      ensures messages == old(messages) + [LogEntry(direction, phone, text, status, if meta.Some? then meta.value else "", now)]
      ensures reminders == old(reminders) && lastId == old(lastId)
    {
      var m := match meta case None => "" case Some(v) => v;
      messages := messages + [LogEntry(direction, phone, text, status, m, now)];
    }

    /** `send_whatsapp_message`: normalizes the phone, hands the text to the
        relay (whose answer is `outcome`), logs exactly one outgoing row and
        returns the classified result. */
    method SendWhatsappMessage(phone: string, text: string, outcome: RelayResult, now: string)
      returns (r: SendResult)
      modifies this
      ensures r == Classify(outcome)
      ensures messages == old(messages) + [SendLog(NormalizePhone(phone), text, r, now)]
      ensures reminders == old(reminders) && lastId == old(lastId)
    {
      var phoneNorm := NormalizePhone(phone);
      r := Classify(outcome);
      LogMessage("out", phoneNorm, text, LogStatus(r), Some(Detail(r)), now);
    }

    /** `list_reminders()`: walks the rows in `ORDER BY test_date` order,
        annotating every row whose date parses, skipping one whose date does
        not, and failing on a blank date. */
    method ListReminders(today: Date) returns (r: Result<seq<Listed>, ListError>)
      requires ValidDate(today)
      ensures r == ListSpec(OrderByTestDate(reminders), today)
    {
      var rows := OrderByTestDate(reminders);
      var results: seq<Listed> := [];
      var i := 0;
      while i < |rows|
        invariant 0 <= i <= |rows|
        invariant ListSpec(rows[..i], today) == Ok(results)
      {
        VisitsPrefix(rows, today, i);
        CollectStep(Visits(rows[..i], today), Visit(rows[i], today));
        ParseLeadingDateCases(rows[i].testDate);
        var raw := FirstToken(rows[i].testDate);
        if raw.None? {
          ListFailsOnBlank(rows, today);
          assert FirstToken(rows[i].testDate).None?;
          var e := ListSpec(rows, today);
          assert e.Err? && e.error == BlankTestDate;
          return e;
        }
        var parsed := ParseDate(raw.value);
        if parsed.Some? {
          var d := parsed.value;
          var days := DaysBetween(today, d);
          var tier := ClassifyByDays(days);
          results := results + [Listed(rows[i].(testDate := FormatDate(d)), tier.status, tier.color, days)];
        }
        i := i + 1;
      }
      assert rows[..i] == rows;
      r := Ok(results);
    }

    /** `run_now_check(as_of)`: takes `asOf` (today when absent) as the
        reference day, lists the reminders, and sends the reminder text to
        every listed reminder that is not yet past as of that day, in list
        order; the k-th send gets the relay answer `relay(k)` and is logged at
        `clock(k)`. */
    method RunNowCheck(asOfArg: Option<string>, today: Date, relay: nat -> RelayResult, clock: nat -> string)
      returns (r: Result<seq<Action>, RunError>)
      requires ValidDate(today)
      modifies this
      ensures reminders == old(reminders) && lastId == old(lastId)
      ensures asOfArg.Some? && ParseDate(asOfArg.value).None? ==> r == Err(BadAsOf)
      ensures ((asOfArg.None? || ParseDate(asOfArg.value).Some?)
               && ListSpec(OrderByTestDate(old(reminders)), today).Err?) ==> r == Err(ListFailed)
      ensures r.Err? ==> messages == old(messages)
      ensures r.Ok? <==> (asOfArg.None? || ParseDate(asOfArg.value).Some?)
                         && ListSpec(OrderByTestDate(old(reminders)), today).Ok?
      ensures r.Ok? ==>
        && (asOfArg.None? || ParseDate(asOfArg.value).Some?)
        && ListSpec(OrderByTestDate(old(reminders)), today).Ok?
        && var asOf := if asOfArg.None? then today else ParseDate(asOfArg.value).value;
           var shift := Shift(today, asOf);
           var es := Eligible(ListSpec(OrderByTestDate(old(reminders)), today).value, shift);
           && r.value == Actions(es, shift, relay)
           && messages == old(messages) + Logs(es, shift, relay, clock)
    {
      var asOf := today;
      if asOfArg.Some? {
        var p := ParseDate(asOfArg.value);
        if p.None? {
          return Err(BadAsOf);
        }
        asOf := p.value;
      }
      var listed := ListReminders(today);
      if listed.Err? {
        return Err(ListFailed);
      }
      ListedDatesReparse(OrderByTestDate(reminders), today, asOf);
      r := SendDue(listed.value, asOf, Shift(today, asOf), relay, clock);
    }

    /** The loop of `run_now_check` over the listed reminders `xs`: re-parses
        each one's date, and sends to it when it is not yet past as of
        `asOf`. `shift` is what that day adds to the listed day counts. */
    method SendDue(xs: seq<Listed>, asOf: Date, ghost shift: int, relay: nat -> RelayResult, clock: nat -> string)
      returns (r: Result<seq<Action>, RunError>)
      requires ValidDate(asOf)
      requires forall k :: 0 <= k < |xs| ==>
        && ParseDate(xs[k].row.testDate).Some?
        && DaysBetween(asOf, ParseDate(xs[k].row.testDate).value) == DaysAsOf(xs[k], shift)
      modifies this
      ensures reminders == old(reminders) && lastId == old(lastId)
      ensures r == Ok(Actions(Eligible(xs, shift), shift, relay))
      ensures messages == old(messages) + Logs(Eligible(xs, shift), shift, relay, clock)
    {
      ghost var done: seq<Listed> := [];
      var actions: seq<Action> := [];
      var i := 0;
      while i < |xs|
        invariant 0 <= i <= |xs| && done == xs[..i]
        invariant reminders == old(reminders) && lastId == old(lastId)
        invariant actions == Actions(Eligible(done, shift), shift, relay)
        invariant messages == old(messages) + Logs(Eligible(done, shift), shift, relay, clock)
      {
        var x := xs[i];
        RunStep(done, x, shift, relay, clock, old(messages));
        var d := ParseDate(x.row.testDate).value;
        var days := DaysBetween(asOf, d);
        if days >= 0 {
          var n := |actions|;
          var action := RemindDue(x, shift, days, relay(n), clock(n));
          actions := actions + [action];
        }
        PrefixStep(xs, i);
        done := done + [x];
        i := i + 1;
      }
      assert done == xs;
      r := Ok(actions);
    }

    /** One turn of that loop for a reminder that is not yet past, `days`
        days before its test: sends it the reminder text labelled with its
        tier and records the action. */
    method RemindDue(x: Listed, ghost shift: int, days: int, outcome: RelayResult, now: string)
      returns (action: Action)
      requires days == DaysAsOf(x, shift)
      modifies this
      ensures action == ActionFor(x, shift, Classify(outcome))
      ensures messages == old(messages) + [LogFor(x, shift, outcome, now)]
      ensures reminders == old(reminders) && lastId == old(lastId)
    {
      var tier := ClassifyByDays(days);
      var sendResult := SendReminder(x.row, tier.status, outcome, now);
      action := Action(x.row.id, x.row.name, x.row.vehicleNumber, x.row.testDate,
                       days, tier.status, tier.color, sendResult);
    }

    /** `send_one(id)`: the 404 when no row has the id; otherwise the row's
        reminder text with the label "manual" goes to its phone as the relay
        receives it, one log row is written, and the send's status and result
        are returned. */
    method SendOne(id: nat, outcome: RelayResult, now: string) returns (r: SendOneResult)
      modifies this
      ensures reminders == old(reminders) && lastId == old(lastId)
      ensures r.NotFound? <==> !HasId(old(reminders), id)
      ensures r.NotFound? ==> messages == old(messages)
      ensures r.SentOne? ==>
        var row := FindRow(old(reminders), id).value;
        && r == SentOne(id, StatusText(Classify(outcome)), Classify(outcome))
        && messages == old(messages) + [SendLog(NormalizePhoneStable(PhoneOf(row)), BuildMessage(row, "manual"),
                                                Classify(outcome), now)]
    {
      var found := FindRow(reminders, id);
      if found.None? {
        return NotFound;
      }
      var sendResult := SendReminder(found.value, "manual", outcome, now);
      r := SentOne(id, StatusText(sendResult), sendResult);
    }

    /** The three steps both `run_now_check` and `send_one` take for one row:
        build the reminder text with the given label, normalize the row's
        phone (`r.get('phone') or ""`), and send. The phone is normalized a
        second time inside the send, so the log row carries the stable
        rewrite of the stored phone. */
    method SendReminder(row: Reminder, statusLabel: string, outcome: RelayResult, now: string)
      returns (r: SendResult)
      modifies this
      ensures r == Classify(outcome)
      ensures messages == old(messages) + [SendLog(NormalizePhoneStable(PhoneOf(row)), BuildMessage(row, statusLabel), r, now)]
      ensures reminders == old(reminders) && lastId == old(lastId)
    {
      var message := BuildMessage(row, statusLabel);
      var phone := NormalizePhone(PhoneOf(row));
      r := SendWhatsappMessage(phone, message, outcome, now);
      NormalizeTwice(PhoneOf(row));
    }
  }

  lemma PrefixStep<T>(xs: seq<T>, i: nat)
    requires i < |xs|
    ensures xs[..i + 1] == xs[..i] + [xs[i]]
  {
  }
}
