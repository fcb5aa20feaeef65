/** The calendar view: the title-derived display colour, the mapping of
    domain events to the widget's event shape, the widget's event store,
    the click and drop callbacks and the toolbar's view state. */
module Calendar {
  import opened EventTypes
  import opened JsSemantics

  /** Two integers are congruent modulo 2^32 when their difference is a
      multiple of 2^32. */
  lemma CongruentMod(x: int, y: int)
    requires (x - y) % TwoTo32 == 0
    ensures x % TwoTo32 == y % TwoTo32
  {
    var k := (x - y) / TwoTo32;
    assert x == y + k * TwoTo32;
  }

  /** Multiples of 2^32 are closed under scaling and addition. */
  lemma MultipleOfTwoTo32(x: int, y: int, c: int)
    requires x % TwoTo32 == 0 && y % TwoTo32 == 0
    ensures (c * x + y) % TwoTo32 == 0
  {
    var i, j := x / TwoTo32, y / TwoTo32;
    assert x == i * TwoTo32 && y == j * TwoTo32;
    assert c * x + y == (c * i + j) * TwoTo32;
  }

  /** One step of the title hash: the code unit plus 31 times the
      accumulator, where the 32-fold product comes from a left shift by 5
      (which converts its operand with ToInt32 and wraps its result) and the
      accumulator itself is subtracted unwrapped. Modulo 2^32 this is the
      step `31 * acc + unit` of the classic string hash, and exactly that
      step while the shift does not overflow. */
  function HashStep(acc: int, unit: int): (r: int)
    ensures (r - (31 * acc + unit)) % TwoTo32 == 0
    ensures -TwoTo31 <= 32 * acc < TwoTo31 ==> r == 31 * acc + unit
    ensures -TwoTo31 <= r - unit + acc < TwoTo31
    ensures (r - unit + acc - 32 * acc) % TwoTo32 == 0
  {
    var shifted := ToInt32(ToInt32(acc) * 32);
    ShiftCongruence(acc);
    unit + (shifted - acc)
  }

  /** The left shift by 5 agrees with multiplying by 32 modulo 2^32. */
  lemma ShiftCongruence(acc: int)
    ensures (ToInt32(ToInt32(acc) * 32) - 32 * acc) % TwoTo32 == 0
  {
    var t := ToInt32(acc);
    var shifted := ToInt32(t * 32);
    MultipleOfTwoTo32(acc - t, t * 32 - shifted, 32);
    assert 32 * (acc - t) + (t * 32 - shifted) == 32 * acc - shifted;
    MultipleOfTwoTo32(32 * acc - shifted, 0, -1);
  }

  /** Reference definition: the classic `31 * h + c` string hash over
      unsigned 32-bit words, from the word `acc`. */
  function Hash31From(acc: int, units: seq<int>): (r: int)
    requires 0 <= acc < TwoTo32
    ensures 0 <= r < TwoTo32
    decreases |units|
  {
    if units == [] then acc else Hash31From((31 * acc + units[0]) % TwoTo32, units[1..])
  }

  /** The reduction over the code units: a left fold, first unit first.
      Its result agrees modulo 2^32 with the reference hash. */
  function HashFrom(acc: int, units: seq<int>): (r: int)
    ensures r % TwoTo32 == Hash31From(acc % TwoTo32, units)
    decreases |units|
  {
    if units == [] then acc
    else
      StepAgreesWithReference(acc, units[0]);
      HashFrom(HashStep(acc, units[0]), units[1..])
  }

  /** One step of the fold agrees modulo 2^32 with one step of the
      reference hash from the accumulator's word. */
  lemma StepAgreesWithReference(acc: int, unit: int)
    ensures HashStep(acc, unit) % TwoTo32 == (31 * (acc % TwoTo32) + unit) % TwoTo32
  {
    var next := HashStep(acc, unit);
    var q, m := acc / TwoTo32, acc % TwoTo32;
    var d := next - (31 * acc + unit);
    assert d % TwoTo32 == 0;
    MultipleOfTwoTo32(TwoTo32, d, 31 * q);
    assert next - (31 * m + unit) == 31 * q * TwoTo32 + d;
    CongruentMod(next, 31 * m + unit);
  }

  /** The fold consumes its last unit last. */
  lemma {:induction false} HashFromSnoc(acc: int, units: seq<int>, unit: int)
    ensures HashFrom(acc, units + [unit]) == HashStep(HashFrom(acc, units), unit)
    decreases |units|
  {
    if units != [] {
      assert (units + [unit])[1..] == units[1..] + [unit];
      HashFromSnoc(HashStep(acc, units[0]), units[1..], unit);
    }
  }

  /** The hash of a title: the fold from 0 over its UTF-16 code units.
      Modulo 2^32 it is the classic string hash of those units. */
  function TitleHash(title: string): (h: int)
    ensures h % TwoTo32 == Hash31From(0, Utf16(title))
  {
    HashFrom(0, Utf16(title))
  }

  /** The sign-keeping remainder by 360 differs from its dividend by a
      multiple of 360. */
  lemma RemainderBy360(a: int)
    ensures (a - Remainder(a, 360)) % 360 == 0
  {
    assert a < 0 ==> a - Remainder(a, 360) == -((-a) - (-a) % 360);
  }

  /** The hash's remainder by 360: congruent to the hash modulo 360,
      strictly between -360 and 360, and negative for a negative hash (it is
      not normalised). */
  function Hue(title: string): (h: int)
    ensures -360 < h < 360
    ensures (TitleHash(title) - h) % 360 == 0
    ensures TitleHash(title) >= 0 ==> h >= 0
    ensures TitleHash(title) <= 0 ==> h <= 0
  {
    RemainderBy360(TitleHash(title));
    Remainder(TitleHash(title), 360)
  }

  /** The HSL colour with the title's hue, 70% saturation and 60% lightness. */
  function GetEventColor(e: Event): (c: string)
    ensures |c| > 15 && c[..4] == "hsl(" && c[|c| - 11..] == ", 70%, 60%)"
    ensures c[4..|c| - 11] == NumberToString(Hue(e.title))
    ensures ParseInt(c[4..|c| - 11]) == Some(Hue(e.title))
  {
    var hue := NumberToString(Hue(e.title));
    ParseIntOfNumberToString(Hue(e.title));
    var c := "hsl(" + hue + ", 70%, 60%)";
    assert c[4..|c| - 11] == hue;
    c
  }

  /** The colour depends on the title alone. */
  lemma ColorDependsOnTitleOnly(a: Event, b: Event)
    requires a.title == b.title
    ensures GetEventColor(a) == GetEventColor(b)
  {
  }

  /** An empty title hashes to 0 and gets hue 0. */
  lemma EmptyTitleColor(e: Event)
    requires e.title == ""
    ensures TitleHash(e.title) == 0 && Hue(e.title) == 0
    ensures GetEventColor(e) == "hsl(0, 70%, 60%)"
  {
    assert Utf16(e.title) == [];
    assert TitleHash(e.title) == 0;
    assert Hue(e.title) == 0;
    assert NumberToString(0) == "0";
    assert "hsl(" + "0" + ", 70%, 60%)" == "hsl(0, 70%, 60%)";
  }

  /** The title "Standup" hashes past the 32-bit range on the way and ends
      negative, so its hue is negative too. */
  lemma NegativeHueExample()
    ensures TitleHash("Standup") == -232665903
    ensures Hue("Standup") == -63
  {
    StandupUnits();
    StandupFold();
    assert TitleHash("Standup") == -232665903;
    assert Remainder(-232665903, 360) == -63;
  }

  lemma StandupUnits()
    ensures Utf16("Standup") == [83, 116, 97, 110, 100, 117, 112]
  {
    Utf16OfBmp("Standup");
  }

  lemma StandupFold()
    ensures HashFrom(0, [83, 116, 97, 110, 100, 117, 112]) == -232665903
  {
    StandupSteps();
    var u := [83, 116, 97, 110, 100, 117, 112];
    assert u[1..] == [116, 97, 110, 100, 117, 112];
    assert u[1..][1..] == [97, 110, 100, 117, 112];
    assert u[1..][1..][1..] == [110, 100, 117, 112];
    assert u[1..][1..][1..][1..] == [100, 117, 112];
    assert u[1..][1..][1..][1..][1..] == [117, 112];
    assert u[1..][1..][1..][1..][1..][1..] == [112];
    assert u[1..][1..][1..][1..][1..][1..][1..] == [];
  }

  lemma StandupSteps()
    ensures HashStep(0, 83) == 83
    ensures HashStep(83, 116) == 2689
    ensures HashStep(2689, 97) == 83456
    ensures HashStep(83456, 110) == 2587246
    ensures HashStep(2587246, 100) == 80204726
    ensures HashStep(80204726, 117) == -1808620673
    ensures HashStep(-1808620673, 112) == -232665903
  {
    assert ToInt32(80204726 * 32) == 2566551232 - TwoTo32;
    assert ToInt32(-1808620673 * 32) == -57875861536 + 13 * TwoTo32;
  }

  /** The widget's event shape. */
  datatype WidgetEvent = WidgetEvent(
    id: string,
    title: string,
    start: int,
    end: int,
    backgroundColor: string,
    borderColor: string,
    description: Option<string>,
    location: Option<string>)

  /** The widget id of a domain event: the decimal numeral of its id, or
      "undefined" for an event without one. */
  function IdString(id: Option<int>): (r: string)
    ensures id.Some? ==> ParseInt(r) == id
    ensures id.None? ==> r == "undefined" && ParseInt(r) == None
  {
    match id
    case Some(n) =>
      ParseIntOfNumberToString(n);
      NumberToString(n)
    case None =>
      ParseIntOfUndefined();
      "undefined"
  }

  /** The widget event shown for one domain event. */
  function ToWidgetEvent(e: Event): (w: WidgetEvent)
    ensures e.id.Some? ==> ParseInt(w.id) == e.id
    ensures e.id.None? ==> ParseInt(w.id) == None
    ensures w.id == IdString(e.id)
    ensures w.title == e.title && w.start == e.startTime && w.end == e.endTime
    ensures w.backgroundColor == w.borderColor == GetEventColor(e)
    ensures w.description == e.description && w.location == e.location
  {
    WidgetEvent(IdString(e.id), e.title, e.startTime, e.endTime,
                GetEventColor(e), GetEventColor(e), e.description, e.location)
  }

  /** The sync effect's mapping: one widget event per domain event, in
      order. */
  function ToWidgetEvents(events: seq<Event>): (r: seq<WidgetEvent>)
    ensures |r| == |events|
    ensures forall i :: 0 <= i < |events| ==> r[i] == ToWidgetEvent(events[i])
  {
    if events == [] then [] else [ToWidgetEvent(events[0])] + ToWidgetEvents(events[1..])
  }

  /** A domain event carries the parsed widget id; `key` is `None` for NaN,
      which equals nothing. */
  predicate Matches(e: Event, key: Option<int>) {
    key.Some? && e.id == key
  }

  /** The index the list search stops at: the first match. */
  function FirstMatch(events: seq<Event>, key: Option<int>): (r: Option<nat>)
    ensures r.Some? ==> r.value < |events| && Matches(events[r.value], key)
    ensures r.Some? ==> forall j :: 0 <= j < r.value ==> !Matches(events[j], key)
    ensures r.None? ==> forall j :: 0 <= j < |events| ==> !Matches(events[j], key)
  {
    if events == [] then None
    else if Matches(events[0], key) then Some(0)
    else match FirstMatch(events[1..], key)
      case Some(k) => Some(k + 1)
      case None => None
  }

  /** The list search: the first event carrying `key`, if any. */
  function FindById(events: seq<Event>, key: Option<int>): (r: Option<Event>)
    ensures r.Some? ==> r.value in events && Matches(r.value, key)
    ensures r.None? <==> forall j :: 0 <= j < |events| ==> !Matches(events[j], key)
    ensures r.Some? ==>
      (exists k :: 0 <= k < |events| && r.value == events[k] && (forall j :: 0 <= j < k ==> !Matches(events[j], key)))
  {
    match FirstMatch(events, key)
    case Some(k) => Some(events[k])
    case None => None
  }

  /** With unique ids, clicking the widget event shown for a saved domain
      event (its id is `IdString` of the domain id, by `ToWidgetEvents`)
      resolves to exactly that domain event. */
  lemma ClickResolvesDisplayedEvent(events: seq<Event>, k: nat)
    requires UniqueIds(events)
    requires k < |events| && events[k].id.Some?
    ensures FindById(events, ParseInt(IdString(events[k].id))) == Some(events[k])
  {
    ParseIntOfNumberToString(events[k].id.value);
  }

  /** A widget event shown for an unsaved domain event resolves to
      nothing. */
  lemma UnsavedEventNeverResolves(events: seq<Event>, k: nat)
    requires k < |events| && events[k].id.None?
    ensures FindById(events, ParseInt(IdString(events[k].id))) == None
  {
    ParseIntOfUndefined();
  }

  /** The event handed on after a drop: only the two times change, each
      falling back to the original when the widget gives none. */
  function DroppedEvent(original: Event, newStart: Option<int>, newEnd: Option<int>): (r: Event)
    ensures r.(startTime := original.startTime, endTime := original.endTime) == original
    ensures newStart.Some? ==> r.startTime == newStart.value
    ensures newStart.None? ==> r.startTime == original.startTime
    ensures newEnd.Some? ==> r.endTime == newEnd.value
    ensures newEnd.None? ==> r.endTime == original.endTime
  {
    original.(startTime := newStart.GetOr(original.startTime), endTime := newEnd.GetOr(original.endTime))
  }

  const DefaultView: string := "timeGridWeek"

  class CalendarView {
    /** The `events` prop of the latest render. */
    var events: seq<Event>
    /** The `events` prop the widget's callbacks closed over when the
        widget was created. */
    var captured: seq<Event>
    /** The widget's own event store. */
    var widgetEvents: seq<WidgetEvent>
    /** The view the widget shows, and the toolbar's copy of it. */
    var widgetView: string
    var currentView: string
    var currentDate: int

    /** The widget shows exactly the current domain events. */
    ghost predicate Valid()
      reads this
    {
      widgetEvents == ToWidgetEvents(events)
    }

    /** Mounting at time `now` with `initial` events: the widget is created
        (its callbacks capturing `initial`), then the sync effect runs. */
    constructor (initial: seq<Event>, now: int)
      ensures Valid()
      ensures events == initial && captured == initial
      ensures currentView == DefaultView && widgetView == DefaultView && currentDate == now
    {
      events := initial;
      captured := initial;
      currentView := DefaultView;
      currentDate := now;
      widgetView := DefaultView;
      widgetEvents := ToWidgetEvents(initial);
    }

    /** The sync effect on a new `events` prop: remove all widget events,
        then add the mapped list as the new source. */
    method SyncEvents(newEvents: seq<Event>)
      modifies this`events, this`widgetEvents
      ensures Valid() && events == newEvents
      ensures widgetEvents == ToWidgetEvents(newEvents)
    {
      events := newEvents;
      widgetEvents := [];
      widgetEvents := widgetEvents + ToWidgetEvents(events);
    }

    /** A toolbar view button. */
    method ChangeView(viewName: string)
      requires Valid()
      modifies this`widgetView, this`currentView
      ensures Valid()
      ensures widgetView == viewName && currentView == viewName
    {
      widgetView := viewName;
      currentView := viewName;
    }

    /** The widget reports a new visible range. */
    method DatesSet(viewType: string, currentStart: int)
      requires Valid()
      modifies this`currentView, this`currentDate
      ensures Valid()
      ensures currentView == viewType && currentDate == currentStart
    {
      currentDate := currentStart;
      currentView := viewType;
    }

    /** `eventClick` as written: the id is looked up in the list captured
        when the widget was created. */
    function EventClickAsWritten(widgetId: string): (selected: Option<Event>)
      reads this
      ensures selected.Some? ==> selected.value in captured && Matches(selected.value, ParseInt(widgetId))
      ensures selected.None? <==> forall j :: 0 <= j < |captured| ==> !Matches(captured[j], ParseInt(widgetId))
      ensures selected.Some? ==>
        (exists k :: 0 <= k < |captured| && selected.value == captured[k] && (forall j :: 0 <= j < k ==> !Matches(captured[j], ParseInt(widgetId))))
    {
      FindById(captured, ParseInt(widgetId))
    }

    /** `eventClick`, corrected to look the id up in the current list:
        `onEventSelect` receives the matching domain event, and nothing
        happens when none matches. */
    function EventClick(widgetId: string): (selected: Option<Event>)
      reads this
      ensures selected.Some? ==> selected.value in events && Matches(selected.value, ParseInt(widgetId))
      ensures selected.None? <==> forall j :: 0 <= j < |events| ==> !Matches(events[j], ParseInt(widgetId))
      ensures selected.Some? ==>
        (exists k :: 0 <= k < |events| && selected.value == events[k] && (forall j :: 0 <= j < k ==> !Matches(events[j], ParseInt(widgetId))))
    {
      FindById(events, ParseInt(widgetId))
    }

    /** `eventDrop` as written: the original is looked up in the captured
        list. */
    function EventDropAsWritten(widgetId: string, newStart: Option<int>, newEnd: Option<int>): (dropped: Option<Event>)
      reads this
      ensures dropped.None? <==> EventClickAsWritten(widgetId).None?
      ensures dropped.Some? ==> dropped.value == DroppedEvent(EventClickAsWritten(widgetId).value, newStart, newEnd)
    {
      match FindById(captured, ParseInt(widgetId))
      case Some(original) => Some(DroppedEvent(original, newStart, newEnd))
      case None => None
    }

    /** `eventDrop`, corrected to look the original up in the current list:
        `onEventDrop` receives it with only its times replaced, and is not
        called when nothing matches. */
    function EventDrop(widgetId: string, newStart: Option<int>, newEnd: Option<int>): (dropped: Option<Event>)
      reads this
      ensures dropped.None? <==> forall j :: 0 <= j < |events| ==> !Matches(events[j], ParseInt(widgetId))
      ensures dropped.Some? ==>
        exists j :: 0 <= j < |events| && Matches(events[j], ParseInt(widgetId))
          && dropped.value == DroppedEvent(events[j], newStart, newEnd)
          && forall i :: 0 <= i < j ==> !Matches(events[i], ParseInt(widgetId))
    {
      match FirstMatch(events, ParseInt(widgetId))
      case Some(k) => Some(DroppedEvent(events[k], newStart, newEnd))
      case None => None
    }
  }

  /** As written, an event added after the widget was created is shown but
      a click on it is ignored; the corrected lookup selects it. */
  method StaleClickScenario(a: Event, b: Event) returns (asWritten: Option<Event>, corrected: Option<Event>)
    requires a.id == Some(1) && b.id == Some(2)
    ensures asWritten == None
    ensures corrected == Some(b)
  {
    var view := new CalendarView([a], 0);
    view.SyncEvents([a, b]);
    var shown := view.widgetEvents[1].id;
    assert view.widgetEvents[1] == ToWidgetEvent(b);
    assert ParseInt(shown) == Some(2);
    asWritten := view.EventClickAsWritten(shown);
    assert FirstMatch([a], Some(2)) == None;
    assert FirstMatch([a, b], Some(2)) == Some(1) by {
      assert [a, b][1..] == [b];
    }
    corrected := view.EventClick(shown);
  }

  /** As written, dragging an event whose title was edited after the widget
      was created hands the pre-edit event to `onEventDrop`; the corrected
      lookup keeps the edit. */
  method StaleDropScenario(a: Event, newTitle: string, newStart: int, newEnd: int)
    returns (asWritten: Option<Event>, corrected: Option<Event>)
    requires a.id == Some(1) && a.title != newTitle
    ensures asWritten == Some(a.(startTime := newStart, endTime := newEnd))
    ensures corrected == Some(a.(title := newTitle, startTime := newStart, endTime := newEnd))
    ensures asWritten.value.title != corrected.value.title
  {
    var edited := a.(title := newTitle);
    var view := new CalendarView([a], 0);
    view.SyncEvents([edited]);
    var shown := view.widgetEvents[0].id;
    assert view.widgetEvents[0] == ToWidgetEvent(edited);
    assert ParseInt(shown) == Some(1);
    asWritten := view.EventDropAsWritten(shown, Some(newStart), Some(newEnd));
    corrected := view.EventDrop(shown, Some(newStart), Some(newEnd));
  }
}
