/** The values that flow through reconciliation: raw calendar events in, assignments out. */
module Events {

  /** A date or date-time from the calendar feed, carried as its ISO-8601 text; the empty
      text stands for a missing (falsy) date. */
  type Timestamp = string

  /** One calendar entry as the feed reader hands it over (`uid`, `title`, `date`). */
  datatype RawEvent = RawEvent(uid: string, title: string, date: Timestamp)

  /** The structured assignment built from a raw event: the dictionary with keys
      `uid`, `title`, `course_number` and `due_date`. */
  datatype Assignment = Assignment(uid: string, title: string, courseNumber: string, dueDate: Timestamp)
}
