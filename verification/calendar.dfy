/** Calendar dates as day numbers, and the host's ISO-8601 text for them.
    The exact grammar Python's `date.fromisoformat` and
    `datetime.fromisoformat` accept varies between Python versions, so the
    model takes it as a parameter. */
module Calendar {
  import opened Results
  import opened PyText
  import opened Decimal

  /** `isoformat` renders a day number the way `date.isoformat()` does,
      `fromisoformat` is `date.fromisoformat` (`None` where it raises
      `ValueError`), and `isDatetime` says whether `datetime.fromisoformat`
      accepts a text. */
  datatype Calendar = Calendar(
    isoformat: int -> string,
    fromisoformat: string -> Option<int>,
    isDatetime: string -> bool)

  /** Parsing what `isoformat` printed for day `d` gives `d` back. Python's
      `date` only covers 0001-01-01 to 9999-12-31, so this is a law about one
      day at a time, not about every integer. */
  predicate LawfulOn(cal: Calendar, d: int) {
    cal.fromisoformat(cal.isoformat(d)) == Some(d)
  }

  /** `date.fromisoformat(text)` succeeds. */
  predicate IsDate(cal: Calendar, text: string) {
    cal.fromisoformat(text).Some?
  }

  /** `datetime.fromisoformat(text.replace("Z", "+00:00"))` succeeds: a
      trailing zone marker `Z` counts as an explicit zero offset. */
  predicate IsTimestamp(cal: Calendar, text: string) {
    cal.isDatetime(ReplaceZ(text))
  }

  /** The ordinal of `date.max`, 9999-12-31; day 1 is 0001-01-01. */
  const MaxOrdinal: int := 3652059

  /** A calendar bounded like Python's `date`: it prints a day as its
      ordinal and parses back only ordinals from 1 to `MaxOrdinal`. */
  function BoundedCalendar(): Calendar {
    Calendar(
      d => ShowInt(d),
      s => match ParseInt(s)
           case Some(n) => if 1 <= n <= MaxOrdinal then Some(n) else None
           case None => None,
      s => true)
  }

  /** The per-day law holds on every day of a bounded calendar's range and
      nowhere outside it, so the law is no stronger than Python's `date`
      can meet. */
  lemma BoundedCalendarLawfulOn(d: int)
    ensures LawfulOn(BoundedCalendar(), d) <==> 1 <= d <= MaxOrdinal
  {
    ParseShow(d);
  }
}
