/** The one domain entity shared by the browser client and the backend:
    a calendar event. Timestamps are epoch milliseconds. */
module EventTypes {

  datatype Option<+T> = None | Some(value: T) {
    /** The wrapped value, or `default` when absent (JavaScript's `x || default`
        for a value that is never an empty string). */
    function GetOr(default: T): T {
      match this
      case Some(v) => v
      case None => default
    }
  }

  /** An event as the client holds it and the backend stores it.
      `id` is absent until the backend has assigned one; `createdBy`,
      `createdAt` and `updatedAt` are set by the backend only. */
  datatype Event = Event(
    id: Option<int>,
    title: string,
    description: Option<string>,
    startTime: int,
    endTime: int,
    location: Option<string>,
    timezone: string,
    createdBy: Option<string>,
    createdAt: Option<int>,
    updatedAt: Option<int>)

  /** JavaScript truthiness of `event?.id`: the id is present and not 0. */
  predicate HasTruthyId(e: Event) {
    e.id.Some? && e.id.value != 0
  }

  /** No two events of the list that carry an id carry the same one. */
  ghost predicate UniqueIds(events: seq<Event>) {
    forall i, j :: 0 <= i < j < |events| && events[i].id.Some? ==> events[i].id != events[j].id
  }
}
