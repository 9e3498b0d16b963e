/** An event document as the server returns it to the pages. */
module Events {

  /** `_id` is assigned by the event store; `title` is the document's `event` field. Every field the
      pages read is a string (dates as "YYYY-MM-DD" or an ISO timestamp, times as "HH:MM"). */
  datatype Event = Event(
    id: string,
    title: string,
    date: string,
    startTime: string,
    endTime: string,
    location: string,
    requiredItems: string,
    username: string,
    familyId: string)
}
