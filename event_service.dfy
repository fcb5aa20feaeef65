/** The backend's event service: a repository of events keyed by id, with
    creation stamped by the caller's IP address, updates and deletes
    allowed only to that address, and one audit record per successful
    mutation. */
module EventStore {
  import opened EventTypes
  import opened SessionLogs

  const CreateEventAction: string := "CREATE_EVENT"
  const UpdateEventAction: string := "UPDATE_EVENT"
  const DeleteEventAction: string := "DELETE_EVENT"

  /** The setters of an authorised update: the six editable fields come
      from the request, `updatedAt` is the clock reading, and id, creator
      and creation time stay. */
  function ApplyDetails(existing: Event, details: Event, now: int): (r: Event)
    ensures r.id == existing.id && r.createdBy == existing.createdBy && r.createdAt == existing.createdAt
    ensures r.title == details.title && r.description == details.description
    ensures r.startTime == details.startTime && r.endTime == details.endTime
    ensures r.location == details.location && r.timezone == details.timezone
    ensures r.updatedAt == Some(now)
  {
    existing.(title := details.title, description := details.description,
              startTime := details.startTime, endTime := details.endTime,
              location := details.location, timezone := details.timezone,
              updatedAt := Some(now))
  }

  /** The caller is the event's creator. */
  predicate OwnedBy(e: Event, ipAddress: string) {
    e.createdBy == Some(ipAddress)
  }

  class EventService {
    /** The event repository, by id. */
    var store: map<int, Event>
    /** The next identity the repository will assign. */
    var nextId: int
    const sessionLogService: SessionLogService

    /** Every stored event carries its own key as id, a creator, and a key
        below the next identity; every audit record names one of the three
        mutations and an event. */
    ghost predicate Valid()
      reads this, sessionLogService
    {
      && nextId >= 1
      && (forall k :: k in store ==> k < nextId && store[k].id == Some(k) && store[k].createdBy.Some?)
      && (forall i :: 0 <= i < |sessionLogService.logs| ==>
            && sessionLogService.logs[i].eventId.Some?
            && (sessionLogService.logs[i].action == CreateEventAction
                || sessionLogService.logs[i].action == UpdateEventAction
                || sessionLogService.logs[i].action == DeleteEventAction))
    }

    constructor ()
      ensures Valid() && fresh(sessionLogService)
      ensures store == map[] && sessionLogService.logs == []
    {
      store := map[];
      nextId := 1;
      sessionLogService := new SessionLogService();
    }

    /** `findByCreatedBy`: exactly the stored events created from
        `ipAddress`. */
    function GetEventsByUser(ipAddress: string): (r: set<Event>)
      reads this
      ensures forall e :: e in r ==> e in store.Values && OwnedBy(e, ipAddress)
      ensures forall k :: k in store && OwnedBy(store[k], ipAddress) ==> store[k] in r
    {
      set k | k in store && OwnedBy(store[k], ipAddress) :: store[k]
    }

    /** `findByStartTimeBetween`: exactly the stored events whose start
        lies between `start` and `end`, both included. */
    function GetEventsByTimeRange(start: int, end: int): (r: set<Event>)
      reads this
      ensures forall e :: e in r ==> e in store.Values && start <= e.startTime <= end
      ensures forall k :: k in store && start <= store[k].startTime <= end ==> store[k] in r
    {
      set k | k in store && start <= store[k].startTime <= end :: store[k]
    }

    /** `createEvent`: stamps the creator and creation time, stores the
        event under a fresh identity and logs `CREATE_EVENT` once. */
    method CreateEvent(event: Event, ipAddress: string, location: string, now: int) returns (saved: Event)
      requires Valid()
      modifies this, sessionLogService
      ensures Valid()
      ensures saved == event.(id := Some(old(nextId)), createdBy := Some(ipAddress), createdAt := Some(now))
      ensures old(nextId) !in old(store) && store == old(store)[old(nextId) := saved]
      ensures sessionLogService.logs == old(sessionLogService.logs) +
        [SessionLog(|old(sessionLogService.logs)| + 1, ipAddress, CreateEventAction, saved.id, now, location)]
    {
      var stamped := event.(createdBy := Some(ipAddress), createdAt := Some(now));
      var id := nextId;
      saved := stamped.(id := Some(id));
      store := store[id := saved];
      nextId := nextId + 1;
      sessionLogService.LogAction(ipAddress, CreateEventAction, saved.id, location, now);
    }

    /** `updateEvent`: empty when the id is unknown or the caller is not the
        creator, and then nothing is saved or logged; otherwise the editable
        fields are overwritten, saved, and `UPDATE_EVENT` is logged once. */
    method UpdateEvent(id: int, details: Event, ipAddress: string, location: string, now: int)
      returns (updated: Option<Event>)
      requires Valid()
      modifies this, sessionLogService
      ensures Valid()
      ensures updated.Some? <==> id in old(store) && OwnedBy(old(store)[id], ipAddress)
      ensures updated.None? ==>
        store == old(store) && sessionLogService.logs == old(sessionLogService.logs)
      ensures updated.Some? ==>
        && updated.value == ApplyDetails(old(store)[id], details, now)
        && store == old(store)[id := updated.value]
        && sessionLogService.logs == old(sessionLogService.logs) +
             [SessionLog(|old(sessionLogService.logs)| + 1, ipAddress, UpdateEventAction, Some(id), now, location)]
      ensures nextId == old(nextId)
    {
      if id !in store {
        return None;
      }
      var existing := store[id];
      if !OwnedBy(existing, ipAddress) {
        return None;
      }
      var changed := ApplyDetails(existing, details, now);
      store := store[id := changed];
      sessionLogService.LogAction(ipAddress, UpdateEventAction, changed.id, location, now);
      updated := Some(changed);
    }

    /** `deleteEvent`: false, with nothing changed, when the id is unknown
        or the caller is not the creator; otherwise removes exactly that id,
        logs `DELETE_EVENT` once and answers true. */
    method DeleteEvent(id: int, ipAddress: string, location: string, now: int) returns (deleted: bool)
      requires Valid()
      modifies this, sessionLogService
      ensures Valid()
      ensures deleted <==> id in old(store) && OwnedBy(old(store)[id], ipAddress)
      ensures !deleted ==>
        store == old(store) && sessionLogService.logs == old(sessionLogService.logs)
      ensures deleted ==>
        && store == old(store) - {id}
        && sessionLogService.logs == old(sessionLogService.logs) +
             [SessionLog(|old(sessionLogService.logs)| + 1, ipAddress, DeleteEventAction, Some(id), now, location)]
      ensures nextId == old(nextId)
    {
      if id !in store || !OwnedBy(store[id], ipAddress) {
        return false;
      }
      store := store - {id};
      sessionLogService.LogAction(ipAddress, DeleteEventAction, Some(id), location, now);
      deleted := true;
    }
  }
}
