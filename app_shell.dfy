/** The top-level state container of the client: the event list, the
    selected event and whether the event form is shown. */
module AppShell {
  import opened EventTypes
  import opened Seqs

  /** The update handler's list: every element carrying the updated
      event's id (both absent counts as equal) becomes the updated event. */
  function ReplaceById(events: seq<Event>, updated: Event): (r: seq<Event>)
    ensures |r| == |events|
    ensures forall i :: 0 <= i < |events| && events[i].id == updated.id ==> r[i] == updated
    ensures forall i :: 0 <= i < |events| && events[i].id != updated.id ==> r[i] == events[i]
  {
    if events == [] then []
    else [if events[0].id == updated.id then updated else events[0]] + ReplaceById(events[1..], updated)
  }

  /** An update whose id matches nothing leaves the list as it was. */
  lemma {:induction false} ReplaceWithoutMatch(events: seq<Event>, updated: Event)
    requires forall i :: 0 <= i < |events| ==> events[i].id != updated.id
    ensures ReplaceById(events, updated) == events
  {
    if events != [] {
      ReplaceWithoutMatch(events[1..], updated);
    }
  }

  /** The delete handler's test: keep an event unless it carries `id`. */
  function KeepOther(id: int): Event -> bool {
    (e: Event) => e.id != Some(id)
  }

  /** The delete handler's list: the events not carrying `id`, in order. */
  function RemoveById(events: seq<Event>, id: int): (r: seq<Event>)
    ensures |r| <= |events|
    ensures forall i :: 0 <= i < |r| ==> r[i] in events && r[i].id != Some(id)
    ensures forall i :: 0 <= i < |events| && events[i].id != Some(id) ==> events[i] in r
  {
    Filter(events, KeepOther(id))
  }

  /** Deleting from a concatenation deletes from each part: the survivors
      keep their relative order. */
  lemma RemoveByIdAppend(a: seq<Event>, b: seq<Event>, id: int)
    ensures RemoveById(a + b, id) == RemoveById(a, id) + RemoveById(b, id)
  {
    FilterAppend(a, b, KeepOther(id));
  }

  /** Deleting an id that no event carries leaves the list unchanged. */
  lemma RemoveAbsentId(events: seq<Event>, id: int)
    requires forall i :: 0 <= i < |events| ==> events[i].id != Some(id)
    ensures RemoveById(events, id) == events
  {
    FilterKeepsAll(events, KeepOther(id));
  }

  /** With unique ids, deleting the id of a listed event shortens the list
      by exactly one. */
  lemma RemoveUniqueId(events: seq<Event>, k: nat, id: int)
    requires UniqueIds(events)
    requires k < |events| && events[k].id == Some(id)
    ensures |RemoveById(events, id)| == |events| - 1
  {
    forall i | 0 <= i < |events| && i != k
      ensures KeepOther(id)(events[i])
    {
      if i < k {
        assert events[i].id != events[k].id || events[i].id.None?;
      } else {
        assert events[k].id != events[i].id;
      }
    }
    CountAllButOne(events, KeepOther(id), k);
    FilterLength(events, KeepOther(id));
  }

  /** Which handler the form's `onSave` is bound to. */
  datatype SaveRoute = UpdateRoute | AddRoute

  class Shell {
    var events: seq<Event>
    var timezone: string
    var selectedEvent: Option<Event>
    var showForm: bool

    /** The shell once its initial load has finished with `loaded` events
        and the timezone `tz`. */
    constructor (loaded: seq<Event>, tz: string)
      ensures events == loaded && timezone == tz
      ensures selectedEvent == None && !showForm
    {
      events := loaded;
      timezone := tz;
      selectedEvent := None;
      showForm := false;
    }

    /** A calendar click opens the form on that event. */
    method HandleEventSelect(e: Event)
      modifies this`selectedEvent, this`showForm
      ensures selectedEvent == Some(e) && showForm
    {
      selectedEvent := Some(e);
      showForm := true;
    }

    /** "New Event" opens the form with nothing selected. */
    method NewEvent()
      modifies this`selectedEvent, this`showForm
      ensures selectedEvent == None && showForm
    {
      selectedEvent := None;
      showForm := true;
    }

    method HandleEventUpdate(updated: Event)
      modifies this`events, this`selectedEvent, this`showForm
      ensures events == ReplaceById(old(events), updated)
      ensures |events| == |old(events)|
      ensures selectedEvent == None && !showForm
    {
      events := ReplaceById(events, updated);
      selectedEvent := None;
      showForm := false;
    }

    method HandleEventAdd(added: Event)
      modifies this`events, this`showForm
      ensures events == old(events) + [added]
      ensures |events| == |old(events)| + 1 && events[|events| - 1] == added
      ensures events[..|old(events)|] == old(events)
      ensures !showForm && selectedEvent == old(selectedEvent)
    {
      events := events + [added];
      showForm := false;
    }

    method HandleEventDelete(id: int)
      modifies this`events, this`selectedEvent, this`showForm
      ensures events == RemoveById(old(events), id)
      ensures forall i :: 0 <= i < |events| ==> events[i].id != Some(id)
      ensures selectedEvent == None && !showForm
    {
      events := RemoveById(events, id);
      selectedEvent := None;
      showForm := false;
    }

    /** The form's cancel button. */
    method Cancel()
      modifies this`selectedEvent, this`showForm
      ensures selectedEvent == None && !showForm
    {
      selectedEvent := None;
      showForm := false;
    }

    /** The form's save callback is the update handler while an event is
        selected and the add handler otherwise. */
    function SaveRouteFor(): (r: SaveRoute)
      reads this
      ensures r == UpdateRoute <==> selectedEvent.Some?
    {
      if selectedEvent.Some? then UpdateRoute else AddRoute
    }

    /** `onDelete` is passed to the form only when the selected event has a
        truthy id. */
    function DeleteOffered(): (offered: bool)
      reads this
      ensures offered <==> selectedEvent.Some? && selectedEvent.value.id.Some? && selectedEvent.value.id.value != 0
    {
      selectedEvent.Some? && HasTruthyId(selectedEvent.value)
    }

    /** The form reported a saved event: update when an event was selected,
        add otherwise. */
    method HandleFormSave(saved: Event)
      modifies this`events, this`selectedEvent, this`showForm
      ensures old(SaveRouteFor()) == UpdateRoute ==> events == ReplaceById(old(events), saved) && selectedEvent == None
      ensures old(SaveRouteFor()) == AddRoute ==> events == old(events) + [saved] && selectedEvent == old(selectedEvent)
      ensures !showForm
    {
      if SaveRouteFor() == UpdateRoute {
        HandleEventUpdate(saved);
      } else {
        HandleEventAdd(saved);
      }
    }
  }
}
