/** The rows of the two SQLite tables, `reminders` and `messages`. */
module Records {
  import opened Wrappers

  /** A row of `reminders`. The NOT NULL columns are plain strings; the
      nullable ones are options. */
  datatype Reminder = Reminder(
    id: nat,
    name: string,
    vehicleNumber: string,
    noUji: Option<string>,
    jenisKendaraan: Option<string>,
    testDate: string,
    phone: Option<string>,
    createdAt: string)

  /** A row of `messages`. Every row the core writes is outgoing and carries
      a status and a meta text, so only `phone` is ever absent. */
  datatype LogEntry = LogEntry(
    direction: string,
    phone: string,
    message: string,
    status: string,
    meta: string,
    createdAt: string)

  /** How a Python f-string renders a nullable text column: None prints as "None". */
  function Show(v: Option<string>): (s: string)
    ensures v.Some? ==> s == v.value
    ensures v.None? ==> s == "None"
  {
    match v
    case None => "None"
    case Some(t) => t
  }
}
