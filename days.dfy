/**
 * Calendar days as integers: day 0 is 1970-01-01, a Thursday. The pages
 * import addDaysUTC and startOfWeekUTC from `@/lib/dates`, whose text defines
 * neither. They are modelled as adding whole days and walking back to the
 * requested weekday.
 */
module Days {

  type Day = int

  function AddDays(d: Day, n: int): Day {
    d + n
  }

  /** JavaScript's getUTCDay: 0 is Sunday, and day 0 is a Thursday (4). */
  function Weekday(d: Day): (w: int)
    ensures 0 <= w < 7
  {
    (d + 4) % 7
  }

  /** startOfWeekUTC: walk back `(weekday - weekStartsOn + 7) mod 7` days. */
  function StartOfWeek(d: Day, weekStartsOn: int): (r: Day)
    requires 0 <= weekStartsOn < 7
    ensures d - 6 <= r <= d
    ensures Weekday(r) == weekStartsOn
    ensures forall e :: r < e <= d ==> Weekday(e) != weekStartsOn
  {
    var back := (Weekday(d) - weekStartsOn + 7) % 7;
    assert (d - back + 4) % 7 == weekStartsOn;
    d - back
  }
}
