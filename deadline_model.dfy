/**
 * The record types of the deadline tracker (src/models/deadline.model.ts).
 *
 * A due date is a day number: the count of days since 1 January of year 0 in
 * the proleptic Gregorian calendar (see module Calendar). The source keeps a
 * JavaScript `Date` at local midnight; every comparison it makes is between
 * two such midnights, so only the day matters.
 */
module DeadlineModel {
  datatype DeadlineStatus = Overdue | Due | Upcoming | Safe

  datatype Deadline = Deadline(
    id: int,
    subject: string,
    recipient: string,
    dueDate: int,
    originalInput: string,
    status: DeadlineStatus)
}
