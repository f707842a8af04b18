# KIR inspection reminder: a Dafny model

This project models the core of a small vehicle-inspection (uji KIR) reminder
service. The Flask app `whatsapp_reminder_app.py` keeps reminders in a SQLite
table `reminders`. It lists them by test date, with each row's days until the
test and an urgency tier. It builds a fixed WhatsApp text per reminder and
posts it to a Node relay (`wa-bot/index.js`). Each send is logged in a
`messages` table.

Modules, one per concern:

- `Wrappers`: `Option` and `Result`.
- `Text`: Python's `strip`, `split()[0]`, `replace`, zero-padded integer printing, and code-point string order.
- `Calendar`: dates as `datetime.date` has them, `strptime`/`strftime` with `%Y-%m-%d`, and day numbers (`toordinal`).
- `Status`: `classify_by_days`.
- `Records`: the rows of the two tables.
- `Phone`: `normalize_phone`.
- `Template`: `build_message`.
- `Listing`: `ORDER BY test_date` and the loop of `list_reminders`, given as a specification function `ListSpec`.
- `Table`: the row-level effect of each SQL statement (INSERT, DELETE, UPDATE, SELECT by id).
- `Dispatch`: how relay answers are classified, and which reminders `run_now_check` sends to, with the actions and log rows that follow.
- `Store`: class `ReminderDb`. Its fields are the two tables and the AUTOINCREMENT counter. Its methods are the app's operations, each proved against the functions above.
- `Relay`: the relay's `formatPhoneNumber` and its `/send` handler.
- `Timeseries`: the month buckets of `api_messages_timeseries`.

The outside world is passed in as parameters:

- the current date (`today`) and the timestamp text (`now`);
- the relay's answer to each POST (`outcome`, or `relay(k)` for the k-th send of a batch);
- the relay's connection state and socket outcome;
- the current year and month for the time series, and the counts its SQL query returns.

Behaviour of the code worth knowing (the model follows the code):

- `list_reminders` always measures from the real current date. `run_now_check` re-parses every listed date and measures it again from `as_of`.
- `send_whatsapp_message` counts only HTTP status 200 as sent. Any other code, 2xx included, is logged as a failure.
- `delete` and `edit` never report an unknown id. Only `send_one` answers 404.
- `normalize_phone` strips before it deletes spaces and hyphens, so a second call can change its output (see Findings).
- `list_reminders` does not skip a row with a blank stored test date. `split()[0]` raises outside the `try` at line 85, so the whole listing fails.
- `build_message` prints a missing `no_uji` or `jenis_kendaraan` as `None`.
- `add_reminder` accepts a one-digit month or day and ignores anything after the first whitespace. It stores the canonical `YYYY-MM-DD` form.
- `run_now_check` parses `as_of` whole, so there a day written as a space and one digit ("2024-06- 5") is accepted, as `strptime`'s `%d` allows.
- `edit` stores its test date unvalidated. A non-canonical or blank date can then reach the listing.
- `classify_by_days` labels the upcoming tier "H-3 or more" but gives it from 2 days on.

## Model

| member | source | states |
|---|---|---|
| Text.FirstToken | whatsapp_reminder_app.py:85 | `split()[0]`, when there is a token, is non-empty and holds no whitespace |
| Text.TakeWordUpTo | whatsapp_reminder_app.py:85 | the token ends at the first whitespace after it |
| Text.LStripLeading | whatsapp_reminder_app.py:85 | only leading whitespace is skipped before the token |
| Text.StripShape | whatsapp_reminder_app.py:113 | `strip()` (`Strip`) leaves no whitespace at either end |
| Text.RemoveAppend | whatsapp_reminder_app.py:113 | `replace(c, "")` (`Remove`) works piece by piece: removing from a concatenation concatenates the pieces' results, so the other characters stay in order |
| Text.RemoveOne | whatsapp_reminder_app.py:113 | on one character, `replace(c, "")` drops `c` and keeps any other character |
| Status.ClassifyByDays | whatsapp_reminder_app.py:99-107 | each day count gets exactly one tier, each as an if-and-only-if: 0 due today, 1 tomorrow, 2 and more upcoming, negative expired |
| Calendar.ParseDate | whatsapp_reminder_app.py:87 | whatever `strptime` with `%Y-%m-%d` accepts (four-digit year, month of one or two digits, day of one or two digits or a space and one digit, nothing after) is a real calendar date, year 1 to 9999 |
| Calendar.FormatDate | whatsapp_reminder_app.py:95 | `strftime('%Y-%m-%d')` prints ten characters with dashes at positions 4 and 7 |
| Calendar.DaysInMonth | whatsapp_reminder_app.py:87 | every month has 28 to 31 days; 29 exactly for February of a Gregorian leap year, 28 exactly for February otherwise, 30 exactly for April, June, September and November |
| Calendar.ParseLeadingDate | whatsapp_reminder_app.py:85-89 | a date read from the first whitespace token is a valid date |
| Calendar.ParseLeadingDateIgnoresRest | whatsapp_reminder_app.py:85-87 | for leading whitespace w, a token t without whitespace and a rest u that is empty or starts with whitespace, the text w+t+u is accepted exactly when t parses, to t's date, and is otherwise refused as malformed |
| Calendar.SpacePaddedDayAccepted | whatsapp_reminder_app.py:174 | a whole-string parse accepts "2024-06- 5" as 5 June 2024, as `%d` allows |
| Calendar.ParseFormat | whatsapp_reminder_app.py:60 | printing a date and parsing it back gives the same date, and the print is canonical |
| Calendar.CanonicalUnique | whatsapp_reminder_app.py:60 | two canonical date strings parse to the same date exactly when they are equal |
| Calendar.UnpaddedAccepted | whatsapp_reminder_app.py:60 | `strptime` accepts "2024-6-5", which is not canonical, so `add_reminder` rewrites it |
| Calendar.FormatOrder | whatsapp_reminder_app.py:80 | on canonical dates, text order is calendar order in both directions, so `ORDER BY test_date` sorts by date |
| Calendar.OrdinalOrder | whatsapp_reminder_app.py:90 | day numbers (`Ordinal`, `toordinal()`) follow calendar order in both directions, and equal day numbers mean equal dates |
| Calendar.OrdinalCountsDays | whatsapp_reminder_app.py:90 | day numbers count days: 1 January of year 1 is day 1, and the next calendar day (`NextDay`, across month and year ends) is exactly one more, so `days_until` is 1 exactly for tomorrow |
| Records.Show | whatsapp_reminder_app.py:139-140 | an f-string prints a present column as itself and a NULL column as "None" |
| Phone.NormalizePhone | whatsapp_reminder_app.py:109-123 | empty input gives ""; for the cleaned text c, "+62"… gives c without the plus, "62"… gives c, "0"… gives "62" followed by c without the 0, "8"… gives "62" followed by c; any other cleaned text comes back unchanged |
| Phone.CleanShape | whatsapp_reminder_app.py:113 | no space or hyphen survives the clean-up (`Clean`) |
| Phone.CleanJoinsGroups | whatsapp_reminder_app.py:113 | a space or hyphen between two groups of digits is deleted and both groups are kept in order ("0812 345" and "0812-345" give "0812345") |
| Phone.PrefixRules | whatsapp_reminder_app.py:115-120 | the prefix rule (`PrefixRule`) turns "+62"+u, "62"+u and "0"+u all into "62"+u, and "8"+u into "628"+u |
| Phone.RuleIdempotent | whatsapp_reminder_app.py:115-123 | the prefix rules leave their own output alone |
| Phone.NormalizePhoneNotIdempotent | whatsapp_reminder_app.py:113 | for any digit string d, "0"+d+"\t-" normalizes to "62"+d+"\t", and that normalizes again to "62"+d |
| Phone.NormalizePhoneStableIdempotent | whatsapp_reminder_app.py:109-123 | the rewrite that strips after deleting spaces and hyphens (`NormalizePhoneStable`) is idempotent |
| Phone.NormalizeTwice | whatsapp_reminder_app.py:183-184 | normalizing before the send and again inside `send_whatsapp_message` (line 151) gives exactly the stable rewrite |
| Template.MessageLayout | whatsapp_reminder_app.py:135-147 | the message starts with the fixed greeting, followed by the name verbatim, and ends with the test date verbatim followed by the fixed closing |
| Template.BuildMessage | whatsapp_reminder_app.py:135-147 | the message is exactly as long as the fixed text plus the five fields, with NULL columns printed as "None" |
| Template.MessageFields | whatsapp_reminder_app.py:137-139 | the vehicle number, the test number and the vehicle kind stand verbatim in their slots, each right after the fixed text that precedes it |
| Template.MessageLabels | whatsapp_reminder_app.py:137-138 | the labels "(sesuai STNK) … Nomor Kendaraan: " and "Nomor Uji : " stand verbatim right after the name and the vehicle number |
| Template.MessageLateLabels | whatsapp_reminder_app.py:138-140 | the labels "Jenis Kendaraan : " and "Tanggal Uji Kendaraan: " stand verbatim right after the test number and the vehicle kind |
| Template.MessageIgnoresLabel | whatsapp_reminder_app.py:135 | the status label makes no difference to the message |
| Listing.InsertByDate | whatsapp_reminder_app.py:80 | inserting one row adds exactly that row to the multiset of rows |
| Listing.OrderByTestDate | whatsapp_reminder_app.py:80 | `ORDER BY test_date` returns a permutation of the table |
| Listing.InsertByDateSorted | whatsapp_reminder_app.py:80 | inserting into rows sorted by date text keeps them sorted |
| Listing.OrderByTestDateSorted | whatsapp_reminder_app.py:80 | the query returns every row once, sorted by date text |
| Listing.AnnotateFacts | whatsapp_reminder_app.py:90-95 | a listed row (`Annotate`) has its date rewritten canonically, to the same date; its day count is measured from today; its tier follows from that count; no other column changes |
| Listing.Visits | whatsapp_reminder_app.py:83-89 | the loop takes one turn per row |
| Listing.Collect | whatsapp_reminder_app.py:83-96 | the loop returns at most one entry per row |
| Listing.VisitsAt | whatsapp_reminder_app.py:83-89 | the i-th turn is decided by the i-th row alone |
| Listing.CollectFails | whatsapp_reminder_app.py:85 | the loop fails exactly when some turn stops it |
| Listing.CollectFrom | whatsapp_reminder_app.py:96 | every returned entry was kept by some turn |
| Listing.CollectKeeps | whatsapp_reminder_app.py:96 | every kept entry is returned |
| Listing.CollectAll | whatsapp_reminder_app.py:83-96 | when every turn keeps its row, all entries are returned in row order |
| Listing.KeptIndices | whatsapp_reminder_app.py:83-96 | the positions of the turns that keep a row all lie within the turns |
| Listing.KeptIndicesIncrease | whatsapp_reminder_app.py:83-96 | those positions increase |
| Listing.KeptIndicesCover | whatsapp_reminder_app.py:83-96 | every turn that keeps a row is among them |
| Listing.CollectIndices | whatsapp_reminder_app.py:83-96 | when the loop does not fail, it returns one entry per keeping turn, the k-th entry being the one the k-th keeping turn keeps |
| Listing.ListFailsOnBlank | whatsapp_reminder_app.py:85 | the listing fails exactly when some stored test date is blank |
| Listing.ListSpec | whatsapp_reminder_app.py:78-97 | the listing returns at most one entry per row |
| Listing.KeptIsAnnotation | whatsapp_reminder_app.py:85-96 | a turn of the loop (`Visit`) that keeps a row keeps that row annotated with its parsed date (`Annotate`) |
| Listing.ListEntriesFromRows | whatsapp_reminder_app.py:83-96 | every listed entry is the annotation of a row whose date parses |
| Listing.ListKeepsParsedRows | whatsapp_reminder_app.py:86-89 | every row whose date parses is listed, so rows are dropped only for a malformed date |
| Listing.ListedIndices | whatsapp_reminder_app.py:83-96 | the listed positions are positions of rows |
| Listing.ListInOrder | whatsapp_reminder_app.py:80-96 | for any stored dates, canonical or not, the k-th listed entry is the annotation of the row at the k-th listed position; the positions increase, so entries keep the query's row order; a row is listed exactly when its date parses; every row left out has a first token `strptime` refuses |
| Listing.CanonicalToken | whatsapp_reminder_app.py:85 | a canonical date is its own first token |
| Listing.ListOfCanonical | whatsapp_reminder_app.py:83-96 | with every stored date canonical, every row is listed, in order, each as its annotation |
| Listing.ListAscending | whatsapp_reminder_app.py:80-96 | with canonical dates sorted by text, the listing's day counts never decrease |
| Table.PrepareRow | whatsapp_reminder_app.py:57-76 | the date check comes first: a missing, blank or unparsable date fails whatever else is given; then a NULL name, then a NULL vehicle number, each as an if-and-only-if; and the add succeeds exactly when the date parses and name and vehicle number are given. The inserted row has the new rowid, the canonical date of the parsed one, the fields unpacked from a dict `phone` argument (None otherwise), and the creation time |
| Table.AppendKeepsInvariants | whatsapp_reminder_app.py:37 | an AUTOINCREMENT rowid one above the counter keeps rowids ascending and within the counter, and keeps every date canonical |
| Table.WithoutId | whatsapp_reminder_app.py:242 | after the DELETE, a row remains exactly when it was there and has another rowid |
| Table.WithoutIdKeepsInvariants | whatsapp_reminder_app.py:242 | deleting keeps rowids ascending and within the counter, and keeps dates canonical |
| Table.WithoutIdAscending | whatsapp_reminder_app.py:242 | deleting keeps rowids ascending |
| Table.WithoutAbsentId | whatsapp_reminder_app.py:242 | deleting an absent rowid changes nothing |
| Table.NullColumn | whatsapp_reminder_app.py:38-44 | the UPDATE violates no NOT NULL column exactly when name, vehicle_number and test_date are all given; otherwise it reports the first missing one in table order, each case as an if-and-only-if: `name`, then `vehicle_number`, then `test_date` |
| Table.EditRows | whatsapp_reminder_app.py:289-301 | the row with the rowid gets all six columns replaced; its rowid and creation time stay and every other row is untouched |
| Table.EditRowsKeepsIds | whatsapp_reminder_app.py:289-301 | an UPDATE keeps the rowid invariants and changes nothing when no row has the rowid |
| Table.FindRow | whatsapp_reminder_app.py:250-252 | the lookup finds nothing exactly when no row has the rowid; otherwise it finds a row of the table with that rowid |
| Dispatch.Classify | whatsapp_reminder_app.py:157-171 | sent exactly for status 200, failed exactly for any other status, error exactly when the call raised; the relay's text or the exception text is kept as the detail |
| Dispatch.Eligible | whatsapp_reminder_app.py:181 | the selected reminders are no more than the listed ones |
| Dispatch.DaysAsOfReparsed | whatsapp_reminder_app.py:178-179 | re-parsing a listed date and subtracting `as_of` gives the listed day count shifted by the days between `as_of` and today, which is the day difference `DaysBetween(as_of, date)` |
| Dispatch.EligibleMembers | whatsapp_reminder_app.py:181 | a listed reminder is sent to exactly when it is not past as of `as_of` |
| Dispatch.EligibleAppend | whatsapp_reminder_app.py:177-181 | selecting row by row keeps list order |
| Dispatch.ActionsDescribe | whatsapp_reminder_app.py:185-194 | the k-th action (`Actions`, built by `ActionFor`) carries the k-th eligible reminder's id, name, plate and date, its day count as of `as_of`, the tier of that count, and the k-th send's result |
| Dispatch.LogsMatchActions | whatsapp_reminder_app.py:182-184 | the k-th log row (`Logs`, built by `LogFor`) is outgoing, goes to the reminder's phone as the relay receives it, holds the reminder text built with the k-th action's tier, and has the status and detail of the k-th action's result |
| Dispatch.ActionsIndependentOfRelay | whatsapp_reminder_app.py:185-194 | which reminders get an action, and what it says apart from the result, does not depend on the relay's answers |
| Dispatch.ListedDatesReparse | whatsapp_reminder_app.py:178 | the second parse never fails on a listed date, and gives the shifted day count |
| Dispatch.ListedDateReparses | whatsapp_reminder_app.py:178 | the same for one listed reminder |
| Store.ReminderDb.constructor | whatsapp_reminder_app.py:34-54 | a fresh database has both tables empty and no rowid handed out, and satisfies the invariant `Valid` (rowids unique, ascending and never above the AUTOINCREMENT counter) that every other method keeps |
| Store.ReminderDb.AddReminder | whatsapp_reminder_app.py:57-76 | appends exactly PrepareRow's row with the next rowid, or changes nothing and returns its error; keeps the invariants and canonical dates |
| Store.ReminderDb.DeleteReminder | whatsapp_reminder_app.py:238-245 | the table becomes WithoutId of the old one; the counter and the log stay |
| Store.ReminderDb.ClearReminders | whatsapp_reminder_app.py:265-275 | the table is emptied and the counter reset, so the next rowid is 1; the log stays |
| Store.ReminderDb.EditReminder | whatsapp_reminder_app.py:284-304 | fails with "NOT NULL constraint failed: reminders.<column>" exactly when the row exists and a NOT NULL column is missing; otherwise it answers updated and applies EditRows (nothing when the row is absent) |
| Store.ReminderDb.LogMessage | whatsapp_reminder_app.py:125-133 | appends exactly one log row, with a missing meta stored as ""; the reminders stay |
| Store.ReminderDb.SendWhatsappMessage | whatsapp_reminder_app.py:149-171 | returns the classified outcome and appends exactly one log row: outgoing, to the normalized phone, with the text, the status and the detail |
| Store.ReminderDb.ListReminders | whatsapp_reminder_app.py:78-97 | returns ListSpec of the rows in ORDER BY order, changing nothing |
| Store.ReminderDb.RunNowCheck | whatsapp_reminder_app.py:173-196 | a bad `as_of` fails before any send; a failed listing fails with no send; the run succeeds exactly when `as_of` is absent or parses and the listing succeeds, and then it returns Actions of the reminders not past as of `as_of` and appends exactly their Logs, in list order |
| Store.ReminderDb.SendDue | whatsapp_reminder_app.py:177-194 | the loop over the listed reminders returns Actions of the eligible ones and appends exactly their Logs |
| Store.ReminderDb.RemindDue | whatsapp_reminder_app.py:180-194 | one eligible reminder gives its action and exactly its log row |
| Store.ReminderDb.SendOne | whatsapp_reminder_app.py:247-263 | answers not found exactly when no row has the id, and then logs nothing; otherwise it sends the row's message with the "manual" label, logs one row and returns the status text and the whole result |
| Store.ReminderDb.SendReminder | whatsapp_reminder_app.py:255-257 | builds the text, normalizes the phone and sends; the log row goes to the stable rewrite of the stored phone |
| Relay.KeepDialChars | wa-bot/index.js:178 | only digits and `+` survive the filter, and it never lengthens the text |
| Relay.KeepDialCharsAppend | wa-bot/index.js:178 | the filter works piece by piece: filtering a concatenation concatenates the filtered pieces, so the kept characters stay in order |
| Relay.KeepDialCharsOne | wa-bot/index.js:178 | a digit or `+` is kept, and any other character is dropped |
| Relay.FormatPhoneNumber | wa-bot/index.js:177-184 | accepted exactly when the filtered text starts with 62, 0, +62 or +0; a refusal carries the relay's message; an accepted JID is the filtered text with one leading `+` dropped and a leading 0 turned into 62, then "@s.whatsapp.net" |
| Relay.WrittenFormsAgree | wa-bot/index.js:177-184 | for local digits d, "62"+d, "0"+d, "+62"+d and "+0"+d all give the JID "62"+d+"@s.whatsapp.net" |
| Relay.SendHandler | wa-bot/index.js:157-174 | 400 exactly when phone or message is missing or empty, with the missing-field text; 503 exactly when both are present but not connected, with the not-connected text; 500 exactly when the formatter refuses or the socket fails, with the formatter's or the socket's error text; 200 exactly otherwise, addressed to the formatted JID |
| Relay.KeepDialCharsOfDialString | wa-bot/index.js:178 | a text of digits and `+` passes the filter unchanged |
| Relay.FormatSeesOnlyDialChars | wa-bot/index.js:178-183 | formatting the filtered text gives the same answer as formatting the original |
| Relay.SixtyTwoDigitsKept | wa-bot/index.js:177-184 | a digit string starting with 62 comes back as itself plus the suffix |
| Relay.EightRejectedUnlessNormalized | wa-bot/index.js:181-182 | the relay refuses a bare local `8…` number, while the app's normalization first makes it `628…`, which the relay accepts |
| Relay.NormalizedDigitsAccepted | wa-bot/index.js:177-184 | the app's normalization of a digit string with a recognised prefix is accepted by the relay unchanged |
| Relay.DigitsAreClean | whatsapp_reminder_app.py:113 | the clean-up leaves a digit string alone |
| Relay.EmptyPhoneRefused | wa-bot/index.js:160-161 | a reminder without a phone reaches the relay with "" and is refused with 400 |
| Timeseries.MonthsBack | whatsapp_reminder_app.py:366-372 | stepping back i months from the current month gives a month from 1 to 12 whose month number is i less |
| Timeseries.MonthBuckets | whatsapp_reminder_app.py:364-377 | max(months, 0) buckets, the k-th labelled with the month months-1-k back from now, and its count 0 when the query has no row for that label |
| Timeseries.StepBack | whatsapp_reminder_app.py:366-372 | the `while m <= 0` wrap lands on MonthsBack |
| Timeseries.ZeroFill | whatsapp_reminder_app.py:374-377 | the labels are copied, each with its count or 0 |
| Timeseries.SameMonth | whatsapp_reminder_app.py:369-372 | a month is determined by its month number |
| Timeseries.LastIsCurrent | whatsapp_reminder_app.py:364-373 | the last bucket is the current month |
| Timeseries.NextMonth | whatsapp_reminder_app.py:364-373 | each bucket is the calendar month right after the one before it, with January after December |
| Timeseries.YearBack | whatsapp_reminder_app.py:369-372 | twelve months back is the same month of the previous year |
| Timeseries.LabelInjective | whatsapp_reminder_app.py:373 | for years 0 to 9999, two labels (`MonthLabel`) are equal exactly when their months are, so no two buckets share a count |

## Left out

- Flask routes, request parsing and JSON responses. The operations are modelled as the functions they call. `http_add`'s pre-checks (lines 217-236) are not part of this model.
- SQLite internals: the file, connections, transactions, and the SQL text. Each statement is modelled by its effect on the rows. `sqlite_sequence` is the `lastId` field.
- The HTTP POST to the relay, its timeout, and `r.json()` / `str(...)` of the body. The relay's answer is a parameter, with the body already rendered as text.
- `print` diagnostics and the filesystem (uploads, the auth session).
- LogMessage: an error while writing the log row is caught and only printed (lines 132-133). The model always appends the row.
- Clocks: `date.today()`, `datetime.utcnow()` and the year and month of "now" are parameters.
- Whitespace for `strip()` and `split()` is the full set `str.isspace` accepts. Digits are ASCII only: the non-ASCII decimal digits that `strptime` also accepts are not modelled.
- Calendar.FormatDate: always pads the year to four digits. Whether `strftime('%Y')` does so for years below 1000 depends on the platform's C library; glibc does not. There, a date in year 999 is written as "999-01-01", which the four-digit `%Y` parse then refuses, so such a row is stored but never listed or sent to. The model does not capture that platform-dependent behaviour.
- Timeseries.MonthBuckets: the SQL query that produces the counts, and the `int()` parse of the `months` parameter, are not modelled. The counts come in as a map.
- The dead loop at lines 361-362 computes a value nobody reads, and is not modelled.
- The `period=day` branch of `api_messages_timeseries` (lines 380-397), `api_stats` and `api_user_count` are not part of this model.
- The relay's session, QR and reset routes, and `sock.sendMessage` itself: the socket's outcome is a parameter.
- `check_db.py` is not part of this model.
- Listing.OrderByTestDate: SQLite does not fix the order of rows with equal `test_date`. The model keeps them in rowid order.
- Store.ReminderDb.AddReminder: AUTOINCREMENT's failure once the rowid reaches 2^63-1 is not modelled, because rowids are unbounded here.
- Store.ReminderDb.EditReminder: JSON values that are not strings (numbers, lists) are not modelled; every field is a string or absent.
- Store.ReminderDb.AddReminder: the same holds for the `name` and `vehicle_number` values `http_add` passes on unchecked from the JSON body (lines 231-235): each is a string or absent.

## Findings

| source | as written | input that shows it | evidently intended | confidence | as-written member | corrected member |
|---|---|---|---|---|---|---|
| whatsapp_reminder_app.py:113 | `strip()` runs before spaces and hyphens are deleted, so whitespace next to a trailing or leading hyphen survives | "0812\t-" gives "62812\t", and normalizing that again gives "62812" | a number in international form with no whitespace left, unchanged by a second normalization | not executed | Phone.NormalizePhoneNotIdempotent | Phone.NormalizePhoneStableIdempotent |

The corrected rewrite is `Phone.NormalizePhoneStable`: delete spaces and
hyphens, then strip. `Phone.NormalizeTwice` shows it is what the app ends up
sending. Both `run_now_check` and `send_one` normalize the phone before calling
`send_whatsapp_message`, which normalizes it again. So the dispatch lemmas
(`Dispatch.LogFor`, `Store.ReminderDb.SendReminder`) state the logged phone
with the corrected rewrite.
