/** The due-date classifier: `classify_by_days` maps the signed number of days
    until the inspection to the label and the colour the dashboard shows. */
module Status {

  /** A (label, colour) pair as `classify_by_days` returns it. */
  datatype Tier = Tier(status: string, color: string)

  const DueToday := Tier("H (today)", "danger")
  const DueTomorrow := Tier("H-1", "warning")
  const Upcoming := Tier("H-3 or more", "success")
  const Expired := Tier("Expired", "secondary")

  /** Every integer gets exactly one of the four tiers: 0 is due today, 1 is due
      tomorrow, 2 and above are upcoming, and only negative offsets are expired.
      (The upcoming label says "H-3" but the branch starts at 2.) */
  function ClassifyByDays(daysUntil: int): (t: Tier)
    ensures t == DueToday <==> daysUntil == 0
    ensures t == DueTomorrow <==> daysUntil == 1
    ensures t == Upcoming <==> daysUntil >= 2
    ensures t == Expired <==> daysUntil < 0
  {
    if daysUntil == 0 then DueToday
    else if daysUntil == 1 then DueTomorrow
    else if daysUntil >= 2 then Upcoming
    else Expired
  }

}
