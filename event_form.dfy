/** The modal editor for one event: its draft fields, validation, the save
    payload, the create-or-update dispatch, the in-flight flag and the
    two-step delete. */
module EventForm {
  import opened EventTypes
  import opened JsSemantics

  const OneMinute: int := 60_000
  const OneHour: int := 3_600_000

  /** Messages of the two validation errors. */
  const TitleRequired: string := "Title is required"
  const EndNotAfterStart: string := "End time must be after start time"

  /** The keys of the error map: `title` and `timeRange`. */
  datatype ErrorKey = Title | TimeRange

  /** Truncation to whole minutes, as `toISOString().slice(0, 16)` drops
      seconds and milliseconds. */
  function ToMinute(t: int): (r: int)
    ensures r <= t < r + OneMinute
    ensures r % OneMinute == 0
  {
    t - t % OneMinute
  }

  /** Shifting by whole minutes commutes with truncation to minutes. */
  lemma ToMinuteShift(t: int, q: int)
    ensures ToMinute(t + q * OneMinute) == ToMinute(t) + q * OneMinute
  {
    var a, b := ToMinute(t), ToMinute(t + q * OneMinute);
    assert b - (a + q * OneMinute) == (t + q * OneMinute - a - q * OneMinute) - (t + q * OneMinute - b);
    var m := ToMinute(t + q * OneMinute) - q * OneMinute;
    assert m <= t < m + OneMinute;
    assert m % OneMinute == 0 by {
      assert b == (b / OneMinute) * OneMinute;
      assert m == (b / OneMinute - q) * OneMinute;
    }
    MinuteFloorUnique(t, m, a);
  }

  lemma MinuteFloorUnique(t: int, m: int, n: int)
    requires m <= t < m + OneMinute && m % OneMinute == 0
    requires n <= t < n + OneMinute && n % OneMinute == 0
    ensures m == n
  {
    var i, j := m / OneMinute, n / OneMinute;
    assert m == i * OneMinute && n == j * OneMinute;
    assert i * OneMinute < (j + 1) * OneMinute && j * OneMinute < (i + 1) * OneMinute;
  }

  /** `new Date(value)` on a `datetime-local` value: the wall-clock reading
      `wall` (kept as the epoch milliseconds it would denote in UTC) is read
      in the browser's zone, `utcOffset` milliseconds east of UTC. */
  function ParseLocal(wall: int, utcOffset: int): (t: int)
    ensures t + utcOffset == wall
  {
    wall - utcOffset
  }

  /** The value the form shows for an instant, as the source computes it:
      the UTC digits of `toISOString()`, cut to minutes. */
  function EditValueAsWritten(t: int): (wall: int)
    ensures wall <= t < wall + OneMinute && wall % OneMinute == 0
    ensures ParseLocal(wall, 0) == ToMinute(t)
  {
    ToMinute(t)
  }

  /** Corrected: the wall-clock digits of the instant in the browser's own
      zone, cut to minutes, so that `ParseLocal` reads them back. */
  function EditValue(t: int, utcOffset: int): (wall: int)
    ensures utcOffset % OneMinute == 0 ==> ParseLocal(wall, utcOffset) == ToMinute(t)
  {
    ToMinuteShift(t, utcOffset / OneMinute);
    ToMinute(t + utcOffset)
  }

  /** As written, a time shown in the form and submitted unchanged moves by
      the browser's UTC offset whenever that offset is not zero. */
  lemma UnchangedSubmitShiftsTimeAsWritten(t: int, utcOffset: int)
    requires t % OneMinute == 0 && utcOffset != 0
    ensures ParseLocal(EditValueAsWritten(t), utcOffset) == t - utcOffset
    ensures ParseLocal(EditValueAsWritten(t), utcOffset) != t
  {
  }

  /** A new draft ends exactly one hour after it starts, shown and parsed,
      with the display as written and with the corrected one. */
  lemma DefaultEndOneHourLater(now: int, utcOffset: int)
    ensures EditValueAsWritten(now + OneHour) == EditValueAsWritten(now) + OneHour
    ensures ParseLocal(EditValueAsWritten(now + OneHour), utcOffset)
         == ParseLocal(EditValueAsWritten(now), utcOffset) + OneHour
    ensures EditValue(now + OneHour, utcOffset) == EditValue(now, utcOffset) + OneHour
    ensures ParseLocal(EditValue(now + OneHour, utcOffset), utcOffset)
         == ParseLocal(EditValue(now, utcOffset), utcOffset) + OneHour
  {
    ToMinuteShift(now, 60);
    assert now + OneHour + utcOffset == (now + utcOffset) + 60 * OneMinute;
    ToMinuteShift(now + utcOffset, 60);
  }

  /** The error map `validateForm` builds from the draft. */
  function FormErrors(title: string, startWall: int, endWall: int, utcOffset: int): (errors: map<ErrorKey, string>)
    ensures Title in errors <==> forall i :: 0 <= i < |title| ==> IsWhitespace(title[i])
    ensures TimeRange in errors <==> startWall >= endWall
    ensures Title in errors ==> errors[Title] == TitleRequired
    ensures TimeRange in errors ==> errors[TimeRange] == EndNotAfterStart
  {
    var titleErrors := if IsBlank(title) then map[Title := TitleRequired] else map[];
    if ParseLocal(startWall, utcOffset) >= ParseLocal(endWall, utcOffset)
    then titleErrors[TimeRange := EndNotAfterStart]
    else titleErrors
  }

  /** The save payload: the draft's six fields spread over the edited
      event, or over nothing in create mode. */
  function SavePayload(base: Option<Event>, title: string, description: string,
                       startTime: int, endTime: int, location: string, timezone: string): (p: Event)
    ensures p.title == title && p.description == Some(description) && p.location == Some(location)
    ensures p.startTime == startTime && p.endTime == endTime && p.timezone == timezone
    ensures base.Some? ==>
      p.(title := base.value.title, description := base.value.description,
         startTime := base.value.startTime, endTime := base.value.endTime,
         location := base.value.location, timezone := base.value.timezone) == base.value
    ensures base.None? ==>
      p.id.None? && p.createdBy.None? && p.createdAt.None? && p.updatedAt.None?
  {
    match base
    case Some(e) =>
      e.(title := title, description := Some(description), startTime := startTime,
         endTime := endTime, location := Some(location), timezone := timezone)
    case None =>
      Event(None, title, Some(description), startTime, endTime, Some(location), timezone, None, None, None)
  }

  /** A request the form sends to the API client. */
  datatype SaveRequest = CreateRequest(payload: Event) | UpdateRequest(id: int, payload: Event)

  /** The save call: an update of the edited event's id when that id is
      truthy, a create otherwise. */
  function DispatchFor(base: Option<Event>, payload: Event): (r: SaveRequest)
    ensures r.payload == payload
    ensures r.UpdateRequest? <==> base.Some? && base.value.id.Some? && base.value.id.value != 0
    ensures r.UpdateRequest? ==> base.value.id == Some(r.id)
  {
    if base.Some? && HasTruthyId(base.value) then UpdateRequest(base.value.id.value, payload)
    else CreateRequest(payload)
  }

  /** The awaited call the form is suspended on, if any. */
  datatype Pending = Idle | Saving(request: SaveRequest) | Deleting(id: int)

  class Form {
    /** Props: the event being edited (none in create mode), the app's
        timezone, whether `onDelete` was passed; and the browser's offset
        from UTC in milliseconds. */
    const event: Option<Event>
    const timezone: string
    const hasOnDelete: bool
    const utcOffset: int

    var title: string
    var description: string
    var startTime: int
    var endTime: int
    var location: string
    var isSubmitting: bool
    var errors: map<ErrorKey, string>
    var showConfirmModal: bool
    var pending: Pending

    /** The submitting flag is up exactly while a call is awaited. */
    ghost predicate Valid()
      reads this
    {
      isSubmitting <==> !pending.Idle?
    }

    /** The draft the form will submit, as an event payload. */
    function Payload(): (p: Event)
      reads this
      ensures p.startTime == ParseLocal(startTime, utcOffset) && p.endTime == ParseLocal(endTime, utcOffset)
      ensures p.title == title && p.timezone == timezone
      ensures p.description == Some(description) && p.location == Some(location)
      ensures event.Some? ==>
        p.id == event.value.id && p.createdBy == event.value.createdBy &&
        p.createdAt == event.value.createdAt && p.updatedAt == event.value.updatedAt
      ensures event.None? ==>
        p.id.None? && p.createdBy.None? && p.createdAt.None? && p.updatedAt.None?
    {
      SavePayload(event, title, description, ParseLocal(startTime, utcOffset),
                  ParseLocal(endTime, utcOffset), location, timezone)
    }

    /** Mounting the form, followed by its initialisation effect at time
        `now`. The draft times are filled as the source fills them: the UTC
        digits of each instant, cut to minutes (`EditValue` is the
        corrected display). */
    constructor (event: Option<Event>, timezone: string, hasOnDelete: bool, utcOffset: int, now: int)
      ensures this.event == event && this.timezone == timezone
      ensures this.hasOnDelete == hasOnDelete && this.utcOffset == utcOffset
      ensures Valid() && !isSubmitting && pending == Idle
      ensures errors == map[] && !showConfirmModal
      ensures event.Some? ==>
        && title == event.value.title
        && description == event.value.description.GetOr("")
        && location == event.value.location.GetOr("")
        && startTime == EditValueAsWritten(event.value.startTime)
        && endTime == EditValueAsWritten(event.value.endTime)
      ensures event.None? ==>
        && title == "" && description == "" && location == ""
        && startTime == EditValueAsWritten(now)
        && endTime == EditValueAsWritten(now + OneHour)
    {
      this.event := event;
      this.timezone := timezone;
      this.hasOnDelete := hasOnDelete;
      this.utcOffset := utcOffset;
      title, description, startTime, endTime, location := "", "", 0, 0, "";
      isSubmitting := false;
      errors := map[];
      showConfirmModal := false;
      pending := Idle;
      new;
      if event.Some? {
        var e := event.value;
        title := e.title;
        description := e.description.GetOr("");
        startTime := EditValueAsWritten(e.startTime);
        endTime := EditValueAsWritten(e.endTime);
        location := e.location.GetOr("");
      } else {
        startTime := EditValueAsWritten(now);
        endTime := EditValueAsWritten(now + OneHour);
      }
    }

    /** The inputs' change handlers. */
    method Edit(newTitle: string, newDescription: string, newStart: int, newEnd: int, newLocation: string)
      modifies this`title, this`description, this`startTime, this`endTime, this`location
      ensures title == newTitle && description == newDescription && location == newLocation
      ensures startTime == newStart && endTime == newEnd
    {
      title, description, startTime, endTime, location := newTitle, newDescription, newStart, newEnd, newLocation;
    }

    /** `validateForm`: builds the error map one check at a time, stores it,
        and reports whether it is empty. */
    method ValidateForm() returns (ok: bool)
      modifies this`errors
      ensures errors == FormErrors(title, startTime, endTime, utcOffset)
      ensures ok <==> errors == map[]
    {
      var newErrors: map<ErrorKey, string> := map[];
      if IsBlank(title) {
        newErrors := newErrors[Title := TitleRequired];
      }
      if ParseLocal(startTime, utcOffset) >= ParseLocal(endTime, utcOffset) {
        newErrors := newErrors[TimeRange := EndNotAfterStart];
      }
      errors := newErrors;
      ok := |newErrors| == 0;
      assert ok <==> newErrors == map[] by {
        if !ok {
          assert exists k :: k in newErrors;
        }
      }
    }

    /** `handleSubmit` up to the awaited call: an invalid draft stops with
        the error map set; a valid one raises the submitting flag and sends
        an update when the edited event has a truthy id, a create otherwise.
        The submit button is disabled while submitting. */
    method HandleSubmit() returns (request: Option<SaveRequest>)
      requires Valid() && !isSubmitting
      modifies this`errors, this`isSubmitting, this`pending
      ensures Valid()
      ensures errors == FormErrors(title, startTime, endTime, utcOffset)
      ensures request.None? <==> errors != map[]
      ensures request.None? ==> !isSubmitting && pending == Idle
      ensures request.Some? ==> isSubmitting && pending == Saving(request.value)
      ensures request.Some? ==> request.value == DispatchFor(event, Payload())
    {
      var ok := ValidateForm();
      if !ok {
        return None;
      }
      isSubmitting := true;
      var req := DispatchFor(event, Payload());
      pending := Saving(req);
      request := Some(req);
    }

    /** The awaited save settles with the API's response (`None` when the
        call failed). `onSave` receives the saved event only on success;
        the flag drops either way. */
    method SaveSettled(response: Option<Event>) returns (saved: Option<Event>)
      requires Valid() && pending.Saving?
      modifies this`isSubmitting, this`pending
      ensures Valid() && !isSubmitting && pending == Idle
      ensures saved == response
    {
      saved := response;
      isSubmitting := false;
      pending := Idle;
    }

    /** The delete button: opens the confirmation only when the event has a
        truthy id and `onDelete` was passed; otherwise does nothing. The
        button is disabled while submitting. */
    method HandleDelete()
      requires !isSubmitting
      modifies this`showConfirmModal
      ensures showConfirmModal <==> old(showConfirmModal) || (event.Some? && HasTruthyId(event.value) && hasOnDelete)
    {
      if !(event.Some? && HasTruthyId(event.value)) || !hasOnDelete {
        return;
      }
      showConfirmModal := true;
    }

    /** The confirmation's cancel button only closes it. */
    method CancelDelete()
      modifies this`showConfirmModal
      ensures !showConfirmModal
    {
      showConfirmModal := false;
    }

    /** `confirmDelete` up to the awaited call: raises the submitting flag,
        closes the confirmation and asks the API to delete the event's id. */
    method ConfirmDelete() returns (request: Option<int>)
      requires Valid() && !isSubmitting && showConfirmModal
      modifies this`isSubmitting, this`showConfirmModal, this`pending
      ensures Valid()
      ensures request.Some? <==> event.Some? && HasTruthyId(event.value) && hasOnDelete
      ensures request.None? ==> !isSubmitting && showConfirmModal && pending == Idle
      ensures request.Some? ==>
        && Some(request.value) == event.value.id
        && isSubmitting && !showConfirmModal && pending == Deleting(request.value)
    {
      if !(event.Some? && HasTruthyId(event.value)) || !hasOnDelete {
        return None;
      }
      var id := event.value.id.value;
      isSubmitting := true;
      showConfirmModal := false;
      pending := Deleting(id);
      request := Some(id);
    }

    /** The awaited delete settles. `onDelete(id)` is called only on
        success; the flag drops either way. */
    method DeleteSettled(succeeded: bool) returns (deleted: Option<int>)
      requires Valid() && pending.Deleting?
      modifies this`isSubmitting, this`pending
      ensures Valid() && !isSubmitting && pending == Idle
      ensures deleted == if succeeded then Some(old(pending).id) else None
    {
      deleted := if succeeded then Some(pending.id) else None;
      isSubmitting := false;
      pending := Idle;
    }
  }

  /** As written, opening a saved event in a browser east or west of UTC
      and submitting it unchanged sends its times moved by the offset. */
  method UnchangedSubmitScenario(e: Event, timezone: string, utcOffset: int)
    returns (request: Option<SaveRequest>)
    requires e.id.Some? && e.id.value != 0 && !IsBlank(e.title)
    requires e.startTime % OneMinute == 0 && e.endTime % OneMinute == 0 && e.startTime < e.endTime
    ensures request.Some? && request.value == UpdateRequest(e.id.value, request.value.payload)
    ensures request.value.payload.startTime == e.startTime - utcOffset
    ensures request.value.payload.endTime == e.endTime - utcOffset
  {
    var form := new Form(Some(e), timezone, true, utcOffset, 0);
    assert form.startTime == e.startTime && form.endTime == e.endTime;
    assert FormErrors(form.title, form.startTime, form.endTime, utcOffset) == map[];
    request := form.HandleSubmit();
    assert request.value == DispatchFor(Some(e), form.Payload());
  }
}
