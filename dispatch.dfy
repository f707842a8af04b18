/** What sending a reminder does: how the relay's answer is classified
    (`send_whatsapp_message`), and which listed reminders `run_now_check`
    sends to, with the actions and log rows that produces. */
module Dispatch {
  import opened Wrappers
  import opened Calendar
  import opened Status
  import opened Records
  import opened Phone
  import opened Template
  import opened Listing

  /** What the POST to the relay came back with: an HTTP status and the body
      as the app renders it (`str(r.json())`, or the raw text), or the
      exception it raised, as text. */
  datatype RelayResult = Responded(statusCode: int, body: string) | Fault(reason: string)

  /** The dict `send_whatsapp_message` returns, by its `status` key. */
  datatype SendResult = Sent(response: string) | Failed(error: string) | Errored(error: string)

  /** Sorts the relay's answer into the three outcomes: sent only for status
      exactly 200 (any other code, 2xx included, is a failure), and an error
      when the call itself raised. The relay's text is kept in every case. */
  function Classify(outcome: RelayResult): (r: SendResult)
    ensures r.Sent? <==> outcome.Responded? && outcome.statusCode == 200
    ensures r.Failed? <==> outcome.Responded? && outcome.statusCode != 200
    ensures r.Errored? <==> outcome.Fault?
    ensures outcome.Responded? ==> Detail(r) == outcome.body
    ensures outcome.Fault? ==> Detail(r) == outcome.reason
  {
    match outcome
    case Responded(code, body) => if code == 200 then Sent(body) else Failed(body)
    case Fault(reason) => Errored(reason)
  }

  /** The text that goes into the log row's `meta` column. */
  function Detail(r: SendResult): string {
    match r
    case Sent(t) => t
    case Failed(t) => t
    case Errored(t) => t
  }

  /** The `status` the caller sees. */
  function StatusText(r: SendResult): string {
    match r
    case Sent(_) => "sent via Node API"
    case Failed(_) => "failed"
    case Errored(_) => "error"
  }

  /** The `status` written to the log row. */
  function LogStatus(r: SendResult): string {
    match r
    case Sent(_) => "sent"
    case Failed(_) => "failed"
    case Errored(_) => "error"
  }

  /** The one log row a send writes. */
  function SendLog(phone: string, text: string, r: SendResult, now: string): LogEntry {
    LogEntry("out", phone, text, LogStatus(r), Detail(r), now)
  }

  /** `r.get('phone') or ""`. */
  function PhoneOf(row: Reminder): string {
    match row.phone
    case None => ""
    case Some(p) => p
  }

  // ---------------------------------------------------------------------
  // run_now_check

  /** An entry of the list `run_now_check` returns. */
  datatype Action = Action(
    id: nat,
    name: string,
    vehicleNumber: string,
    testDate: string,
    daysUntil: int,
    status: string,
    color: string,
    sendResult: SendResult)

  /** How many days `asOf` lies before `today`: what moving the reference day
      from `today` to `asOf` adds to every day count. */
  function Shift(today: Date, asOf: Date): int
    requires ValidDate(today) && ValidDate(asOf)
  {
    Ordinal(today) - Ordinal(asOf)
  }

  /** `(test_date - as_of).days` for a listed reminder, whose `days_until` was
      measured from `today` (DaysAsOfReparsed shows this is what re-parsing
      the listed date and subtracting `asOf` gives). */
  function DaysAsOf(x: Listed, shift: int): int {
    x.daysUntil + shift
  }

  /** The listed reminders that are not yet past as of the shifted day, in
      list order. */
  function Eligible(xs: seq<Listed>, shift: int): (es: seq<Listed>)
    ensures |es| <= |xs|
  {
    if xs == [] then []
    else
      var n := |xs| - 1;
      Eligible(xs[..n], shift) + (if DaysAsOf(xs[n], shift) >= 0 then [xs[n]] else [])
  }

  /** The action recorded for an eligible reminder. */
  function ActionFor(x: Listed, shift: int, r: SendResult): Action {
    var days := DaysAsOf(x, shift);
    var t := ClassifyByDays(days);
    Action(x.row.id, x.row.name, x.row.vehicleNumber, x.row.testDate, days, t.status, t.color, r)
  }

  /** The log row of the send to an eligible reminder: the reminder text, to
      the reminder's phone as the relay receives it. */
  function LogFor(x: Listed, shift: int, outcome: RelayResult, now: string): LogEntry {
    var tierText := ClassifyByDays(DaysAsOf(x, shift)).status;
    SendLog(NormalizePhoneStable(PhoneOf(x.row)), BuildMessage(x.row, tierText), Classify(outcome), now)
  }

  /** `[f(xs[0], 0), f(xs[1], 1), ...]`. */
  function MapIndexed<A, B>(xs: seq<A>, f: (A, nat) -> B): (ys: seq<B>)
    ensures |ys| == |xs|
  {
    if xs == [] then [] else
      var n := |xs| - 1;
      MapIndexed(xs[..n], f) + [f(xs[n], n)]
  }

  lemma {:induction false} MapIndexedAt<A, B>(xs: seq<A>, f: (A, nat) -> B)
    ensures forall k :: 0 <= k < |xs| ==> MapIndexed(xs, f)[k] == f(xs[k], k)
  {
    if xs != [] {
      var n := |xs| - 1;
      MapIndexedAt(xs[..n], f);
      assert forall k :: 0 <= k < n ==> xs[..n][k] == xs[k];
    }
  }

  /** The actions for the eligible reminders `es`, the k-th sent with the k-th
      relay answer. */
  function Actions(es: seq<Listed>, shift: int, relay: nat -> RelayResult): seq<Action> {
    MapIndexed(es, (x: Listed, k: nat) => ActionFor(x, shift, Classify(relay(k))))
  }

  /** The log rows written while sending to `es`, the k-th at time `clock(k)`. */
  function Logs(es: seq<Listed>, shift: int, relay: nat -> RelayResult, clock: nat -> string): seq<LogEntry> {
    MapIndexed(es, (x: Listed, k: nat) => LogFor(x, shift, relay(k), clock(k)))
  }

  // ---------------------------------------------------------------------
  // Lemmas

  /** For a listed reminder, the shifted count is what re-parsing its stored
      date and subtracting `asOf` gives. */
  lemma DaysAsOfReparsed(row: Reminder, d: Date, today: Date, asOf: Date)
    requires ValidDate(d) && ValidDate(today) && ValidDate(asOf)
    ensures var x := Annotate(row, d, today);
      ParseDate(x.row.testDate) == Some(d) && DaysAsOf(x, Shift(today, asOf)) == DaysBetween(asOf, d)
  {
    AnnotateFacts(row, d, today);
  }

  /** A listed reminder is sent to exactly when it is not yet past as of the
      shifted day; past reminders are never sent to. */
  lemma {:induction false} EligibleMembers(xs: seq<Listed>, shift: int)
    ensures forall x :: x in Eligible(xs, shift) <==> x in xs && DaysAsOf(x, shift) >= 0
  {
    if xs != [] {
      var n := |xs| - 1;
      EligibleMembers(xs[..n], shift);
      assert xs == xs[..n] + [xs[n]];
    }
  }

  /** Selecting is done row by row, so it distributes over concatenation:
      the eligible reminders keep their list order. */
  lemma {:induction false} EligibleAppend(xs: seq<Listed>, ys: seq<Listed>, shift: int)
    ensures Eligible(xs + ys, shift) == Eligible(xs, shift) + Eligible(ys, shift)
  {
    if ys == [] {
      assert xs + ys == xs;
    } else {
      var n := |ys| - 1;
      EligibleAppend(xs, ys[..n], shift);
      assert (xs + ys)[..|xs + ys| - 1] == xs + ys[..n];
    }
  }

  /** The k-th action describes the k-th eligible reminder, with the day count
      and tier as of the shifted day, and carries the k-th relay answer as
      classified. */
  lemma ActionsDescribe(es: seq<Listed>, shift: int, relay: nat -> RelayResult)
    ensures var acts := Actions(es, shift, relay);
      && |acts| == |es|
      && forall k :: 0 <= k < |es| ==>
        && acts[k].id == es[k].row.id
        && acts[k].name == es[k].row.name
        && acts[k].vehicleNumber == es[k].row.vehicleNumber
        && acts[k].testDate == es[k].row.testDate
        && acts[k].daysUntil == DaysAsOf(es[k], shift)
        && Tier(acts[k].status, acts[k].color) == ClassifyByDays(acts[k].daysUntil)
        && acts[k].sendResult == Classify(relay(k))
  {
    var f := (x: Listed, k: nat) => ActionFor(x, shift, Classify(relay(k)));
    var acts := Actions(es, shift, relay);
    assert acts == MapIndexed(es, f);
    MapIndexedAt(es, f);
    forall k | 0 <= k < |es|
      ensures acts[k] == ActionFor(es[k], shift, Classify(relay(k)))
    {
      assert acts[k] == f(es[k], k);
    }
  }

  /** The k-th log row records the k-th send: outgoing, to the reminder's phone
      as the relay receives it, with the status and detail of the outcome the
      k-th action reports. */
  lemma LogsMatchActions(es: seq<Listed>, shift: int, relay: nat -> RelayResult, clock: nat -> string)
    ensures var acts, logs := Actions(es, shift, relay), Logs(es, shift, relay, clock);
      && |logs| == |es|
      && forall k :: 0 <= k < |es| ==>
        && logs[k].direction == "out"
        && logs[k].phone == NormalizePhoneStable(PhoneOf(es[k].row))
        && logs[k].message == BuildMessage(es[k].row, acts[k].status)
        && logs[k].status == LogStatus(acts[k].sendResult)
        && logs[k].meta == Detail(acts[k].sendResult)
        && logs[k].createdAt == clock(k)
  {
    MapIndexedAt(es, (x: Listed, k: nat) => LogFor(x, shift, relay(k), clock(k)));
    ActionsDescribe(es, shift, relay);
  }

  /** Which reminders get an action does not depend on how the sends go: the
      relay's answers change only the recorded outcomes. */
  lemma ActionsIndependentOfRelay(es: seq<Listed>, shift: int,
                                  relay1: nat -> RelayResult, relay2: nat -> RelayResult)
    ensures forall k :: 0 <= k < |es| ==>
      Actions(es, shift, relay1)[k] == Actions(es, shift, relay2)[k].(sendResult := Classify(relay1(k)))
  {
    ActionsDescribe(es, shift, relay1);
    ActionsDescribe(es, shift, relay2);
  }

  /** One more eligible reminder adds one action at the end, sent with the
      next relay answer. */
  lemma ActionsSnoc(es: seq<Listed>, x: Listed, shift: int, relay: nat -> RelayResult)
    ensures Actions(es + [x], shift, relay) == Actions(es, shift, relay) + [ActionFor(x, shift, Classify(relay(|es|)))]
  {
    assert (es + [x])[..|es|] == es;
  }

  /** One more eligible reminder adds one log row at the end, written at the
      next clock reading. */
  lemma LogsSnoc(es: seq<Listed>, x: Listed, shift: int, relay: nat -> RelayResult, clock: nat -> string)
    ensures Logs(es + [x], shift, relay, clock) == Logs(es, shift, relay, clock) + [LogFor(x, shift, relay(|es|), clock(|es|))]
  {
    assert (es + [x])[..|es|] == es;
  }

  /** The second parse in `run_now_check` never fails: every listed date is
      canonical, and subtracting `asOf` from it gives the shifted day count. */
  lemma ListedDatesReparse(rows: seq<Reminder>, today: Date, asOf: Date)
    requires ValidDate(today) && ValidDate(asOf) && ListSpec(rows, today).Ok?
    ensures var xs := ListSpec(rows, today).value;
      forall k :: 0 <= k < |xs| ==>
        && ParseDate(xs[k].row.testDate).Some?
        && DaysBetween(asOf, ParseDate(xs[k].row.testDate).value) == DaysAsOf(xs[k], Shift(today, asOf))
  {
    var xs := ListSpec(rows, today).value;
    ListEntriesFromRows(rows, today);
    forall k | 0 <= k < |xs|
      ensures && ParseDate(xs[k].row.testDate).Some?
              && DaysBetween(asOf, ParseDate(xs[k].row.testDate).value) == DaysAsOf(xs[k], Shift(today, asOf))
    {
      var i :| 0 <= i < |rows| && AnnotationOf(xs[k], rows[i], today);
      var d := ParseLeadingDate(rows[i].testDate).value;
      DaysAsOfReparsed(rows[i], d, today, asOf);
    }
  }

  /** One more listed reminder: it is sent to, becoming the next action and
      the next log row, exactly when it is not yet past. This is the step of
      the dispatch loop's invariant. `logged` (the log rows written before the
      run) models nothing in the source: it is there so that the loop's proof
      gets the regrouped concatenation ready-made instead of re-proving
      sequence associativity itself. */
  lemma RunStep(done: seq<Listed>, x: Listed, shift: int, relay: nat -> RelayResult, clock: nat -> string,
                logged: seq<LogEntry>)
    ensures var es := Eligible(done, shift);
      && |Actions(es, shift, relay)| == |es|
      && (DaysAsOf(x, shift) < 0 ==> Eligible(done + [x], shift) == es)
      && (DaysAsOf(x, shift) >= 0 ==>
            && Actions(Eligible(done + [x], shift), shift, relay) ==
                 Actions(es, shift, relay) + [ActionFor(x, shift, Classify(relay(|es|)))]
            && logged + Logs(Eligible(done + [x], shift), shift, relay, clock) ==
                 logged + Logs(es, shift, relay, clock) + [LogFor(x, shift, relay(|es|), clock(|es|))])
  {
    assert (done + [x])[..|done|] == done;
    var es := Eligible(done, shift);
    if DaysAsOf(x, shift) >= 0 {
      ActionsSnoc(es, x, shift, relay);
      LogsSnoc(es, x, shift, relay, clock);
      var l := LogFor(x, shift, relay(|es|), clock(|es|));
      assert logged + (Logs(es, shift, relay, clock) + [l]) == logged + Logs(es, shift, relay, clock) + [l];
    }
  }

  /** The second parse in `run_now_check`, for one listed reminder. */
  lemma ListedDateReparses(rows: seq<Reminder>, today: Date, asOf: Date, k: nat)
    requires ValidDate(today) && ValidDate(asOf) && ListSpec(rows, today).Ok?
    requires k < |ListSpec(rows, today).value|
    ensures var x := ListSpec(rows, today).value[k];
      && ParseDate(x.row.testDate).Some?
      && DaysBetween(asOf, ParseDate(x.row.testDate).value) == DaysAsOf(x, Shift(today, asOf))
  {
    ListedDatesReparse(rows, today, asOf);
  }
}
