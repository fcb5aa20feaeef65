# Event booking calendar — a verified model of its core

The application is a calendar where anyone can create, edit, drag and
delete events. The browser client keeps the event list and shows it in a
calendar widget. The Java backend stores events, lets only the creating
IP address change or delete them, and writes an audit log of every
change. This project models the four pieces of sequential logic under
that UI and HTTP plumbing, and proves what each of them promises:

- `AppShell` (`app_shell.dfy`) is the client's top-level state: the event
  list, the selected event and whether the form is shown. The list
  updates are pure functions (`ReplaceById`, `RemoveById`), and the
  `Shell` class applies them through its handlers.
- `EventForm` (`event_form.dfy`) is the modal editor. It holds the draft
  fields, validation into an error map, the save payload, the choice
  between create and update, the `isSubmitting` flag while a call is
  awaited, and the two-step delete. Times are epoch milliseconds. A form
  value (`datetime-local`) is the wall-clock reading kept as an integer,
  and the browser's UTC offset is a parameter. The `Form` class fills its
  draft times as the source does, with the UTC digits of each instant;
  `EditValue` is the corrected display (see "## Findings").
- `Calendar` (`calendar.dfy`) holds the title-hash colour with JavaScript
  32-bit shift and remainder semantics, the mapping of domain events to the
  widget's event shape, the widget's event store, click and drop
  resolution, and the toolbar's view state.
- `EventStore` (`event_service.dfy`) and `SessionLogs`
  (`session_log_service.dfy`) are the backend. The event repository is a
  `map<int, Event>` with ownership checks on update and delete. The audit
  log is an append-only `seq<SessionLog>`. The clock is a `now`
  parameter.

Shared pieces: `EventTypes` holds the `Event` record. `Seqs` holds
order-preserving filtering. `JsSemantics` holds the JavaScript operations
the client relies on: ToInt32, the sign-of-dividend remainder, `trim`,
UTF-16 code units, `String(number)` and `parseInt`.

## Model

| member | source | states |
|---|---|---|
| AppShell.ReplaceById | frontend/src/components/App.tsx:49-52 | the list keeps its length; every element with the updated event's id becomes the updated event; every other element is untouched |
| AppShell.ReplaceWithoutMatch | frontend/src/components/App.tsx:50-52 | an update whose id matches no element leaves the list unchanged |
| AppShell.RemoveById | frontend/src/components/App.tsx:63 | no survivor carries the deleted id; every survivor was in the list; every element with another id survives |
| AppShell.RemoveByIdAppend | frontend/src/components/App.tsx:63 | deleting from a concatenation deletes from each part, so the survivors keep their relative order |
| AppShell.RemoveAbsentId | frontend/src/components/App.tsx:63 | deleting an id no element carries leaves the list unchanged |
| AppShell.RemoveUniqueId | frontend/src/components/App.tsx:62-63 | with unique ids, deleting the id of a listed event shortens the list by exactly one |
| AppShell.Shell.constructor | frontend/src/components/App.tsx:8-11 | after the initial load nothing is selected and the form is hidden |
| AppShell.Shell.HandleEventSelect | frontend/src/components/App.tsx:44-47 | selecting an event selects it and shows the form |
| AppShell.Shell.NewEvent | frontend/src/components/App.tsx:79 | "New Event" clears the selection and shows the form |
| AppShell.Shell.HandleEventUpdate | frontend/src/components/App.tsx:49-55 | the list becomes the replaced list of the same length; selection cleared; form hidden |
| AppShell.Shell.HandleEventAdd | frontend/src/components/App.tsx:57-60 | the list grows by one with the new event last and every earlier element unchanged; form hidden; selection untouched |
| AppShell.Shell.HandleEventDelete | frontend/src/components/App.tsx:62-66 | no element with the deleted id remains; selection cleared; form hidden |
| AppShell.Shell.Cancel | frontend/src/components/App.tsx:126 | cancel clears the selection and hides the form |
| AppShell.Shell.SaveRouteFor | frontend/src/components/App.tsx:124 | a save routes to update exactly when an event is selected, otherwise to add |
| AppShell.Shell.DeleteOffered | frontend/src/components/App.tsx:125 | delete is offered exactly when the selected event has a present, non-zero id |
| AppShell.Shell.HandleFormSave | frontend/src/components/App.tsx:124 | a save from the form replaces by id when an event was selected and appends otherwise; the form is hidden either way |
| EventForm.ParseLocal | frontend/src/components/EventForm.tsx:79-80 | a form value is read as a wall-clock reading in the browser's zone: the instant plus the offset is the reading |
| EventForm.EditValueAsWritten | frontend/src/components/EventForm.tsx:33-34 | the value shown for an instant, as written: its UTC digits cut to a whole minute, whatever the browser's zone |
| EventForm.ToMinute | frontend/src/components/EventForm.tsx:33-34 | a form value is the instant cut down to a whole minute: at most the instant and less than a minute before it |
| EventForm.EditValue | frontend/src/components/EventForm.tsx:33-34 | corrected form value: parsing it back in the browser's zone gives the instant cut to the minute |
| EventForm.UnchangedSubmitShiftsTimeAsWritten | frontend/src/components/EventForm.tsx:33-34 | as written, a time shown and submitted unchanged moves by the browser's UTC offset |
| EventForm.DefaultEndOneHourLater | frontend/src/components/EventForm.tsx:37-40 | a new draft's end is exactly 3,600,000 ms after its start, both as shown and as parsed, with the display as written and with the corrected one |
| EventForm.FormErrors | frontend/src/components/EventForm.tsx:44-57 | the map has `title` exactly when the title is all whitespace, and `timeRange` exactly when start is not before end, each with its message |
| EventForm.SavePayload | frontend/src/components/EventForm.tsx:75-83 | the payload keeps every field of the edited event and overrides only title, description, start, end, location and timezone; in create mode it carries no id or backend stamps |
| EventForm.DispatchFor | frontend/src/components/EventForm.tsx:87-93 | the save is an update of the edited event's id exactly when that id is truthy, a create otherwise; the payload is passed unchanged |
| EventForm.Form.Payload | frontend/src/components/EventForm.tsx:75-83 | the submitted payload carries the draft title, description and location, the timezone prop and the draft times parsed in the browser's zone; when editing it keeps the event's id, creator and timestamps, and when creating it has none |
| EventForm.Form.constructor | frontend/src/components/EventForm.tsx:18-42 | editing fills the draft from the event (absent description and location become empty) with the times shown as written, as UTC digits cut to minutes; creating starts now and ends one hour later, shown the same way; nothing in flight, no errors, no confirmation |
| EventForm.Form.Edit | frontend/src/components/EventForm.tsx:163-240 | each input sets its own draft field |
| EventForm.Form.ValidateForm | frontend/src/components/EventForm.tsx:44-60 | the stored error map is the draft's error map, and the result is true exactly when it is empty |
| EventForm.Form.HandleSubmit | frontend/src/components/EventForm.tsx:62-93 | an invalid draft stops with no call and the flag down; a valid one raises the flag and sends the dispatch of the payload |
| EventForm.Form.SaveSettled | frontend/src/components/EventForm.tsx:95-101 | the saved event is passed on only when the call succeeded; the flag drops on success and failure |
| EventForm.Form.HandleDelete | frontend/src/components/EventForm.tsx:104-108 | the delete button only opens the confirmation, and does nothing without a truthy id or a delete callback |
| EventForm.Form.CancelDelete | frontend/src/components/EventForm.tsx:294 | cancelling the confirmation only closes it |
| EventForm.Form.ConfirmDelete | frontend/src/components/EventForm.tsx:110-120 | confirming closes the confirmation, raises the flag and asks to delete the event's id; without an id or callback nothing changes |
| EventForm.Form.DeleteSettled | frontend/src/components/EventForm.tsx:119-128 | the delete callback receives the id only after success; the flag drops on success and failure |
| EventForm.UnchangedSubmitScenario | frontend/src/components/EventForm.tsx:79-80 | the form opened on any saved event (truthy id), minute-aligned, and submitted unchanged sends an update of that id whose times are moved by the browser's UTC offset |
| JsSemantics.IsBlank | frontend/src/components/EventForm.tsx:50 | a title is empty after trimming exactly when every character is whitespace |
| JsSemantics.ToInt32 | frontend/src/components/Calendar.tsx:38 | the result is in the signed 32-bit range, congruent to the input modulo 2^32, and the input itself when already in range |
| JsSemantics.Remainder | frontend/src/components/Calendar.tsx:40 | the remainder differs from the dividend by a multiple of the divisor, lies strictly inside (-d, d) and takes the sign of the dividend |
| JsSemantics.RemainderOfNegation | frontend/src/components/Calendar.tsx:40 | negating the dividend negates the remainder |
| JsSemantics.CodeUnits | frontend/src/components/Calendar.tsx:37-38 | a character inside the Basic Multilingual Plane is one code unit equal to its code point; any other is a high surrogate then a low surrogate that together encode its code point |
| JsSemantics.Utf16 | frontend/src/components/Calendar.tsx:37-38 | every character gives at least one code unit, and every code unit is a 16-bit value |
| JsSemantics.Utf16Append | frontend/src/components/Calendar.tsx:37-38 | the code units of a concatenation are those of its parts, in order, so a title's units are its characters' units one after another |
| JsSemantics.Utf16OfBmp | frontend/src/components/Calendar.tsx:37-38 | for text inside the Basic Multilingual Plane there is one code unit per character, equal to its code point |
| JsSemantics.NumberToString | frontend/src/components/Calendar.tsx:154 | the numeral is non-empty, starts with a minus exactly for negative numbers, is decimal digits otherwise, and has no leading zero unless it is "0" |
| JsSemantics.ParseInt | frontend/src/components/Calendar.tsx:67 | a number results only from a string holding a decimal digit (a hexadecimal numeral starts with "0x"); otherwise the result is NaN |
| JsSemantics.ParseIntOfNumberToString | frontend/src/components/Calendar.tsx:67 | parsing the decimal numeral of any integer gives that integer back |
| JsSemantics.ParseIntOfUndefined | frontend/src/components/Calendar.tsx:67 | parsing "undefined" gives NaN |
| Calendar.HashStep | frontend/src/components/Calendar.tsx:38 | one step is `c` plus a shifted term minus the unwrapped accumulator, where the shifted term is a signed 32-bit word congruent to `32 * acc` modulo 2^32; hence congruent to `31 * acc + c`, and equal to it while the shift does not overflow |
| Calendar.HashFrom | frontend/src/components/Calendar.tsx:37-39 | the fold agrees modulo 2^32 with the classic `31 * h + c` hash over unsigned 32-bit words |
| Calendar.TitleHash | frontend/src/components/Calendar.tsx:37-39 | a title's hash agrees modulo 2^32 with the classic string hash of its UTF-16 code units from 0 |
| Calendar.HashFromSnoc | frontend/src/components/Calendar.tsx:37-39 | the hash is a left fold: the last code unit is consumed last |
| Calendar.Hue | frontend/src/components/Calendar.tsx:40 | the hue is congruent to the hash modulo 360, strictly between -360 and 360, and has the hash's sign |
| Calendar.GetEventColor | frontend/src/components/Calendar.tsx:35-42 | the colour reads "hsl(", then exactly `String` of the title's hue (a canonical numeral that parses back to the hue), then ", 70%, 60%)" |
| Calendar.ColorDependsOnTitleOnly | frontend/src/components/Calendar.tsx:35-42 | equal titles give equal colours |
| Calendar.EmptyTitleColor | frontend/src/components/Calendar.tsx:37-41 | an empty title hashes to 0 and gets "hsl(0, 70%, 60%)" |
| Calendar.NegativeHueExample | frontend/src/components/Calendar.tsx:37-40 | "Standup" wraps past 32 bits, hashes to -232665903 and gets the negative hue -63 |
| Calendar.IdString | frontend/src/components/Calendar.tsx:154 | the widget id of a saved event parses back to its id; an unsaved event's is "undefined", which parses to NaN |
| Calendar.ToWidgetEvent | frontend/src/components/Calendar.tsx:153-164 | the widget event's id parses back to the domain id (NaN when there is none); title, start, end, description and location are copied; both colours are the title colour |
| Calendar.ToWidgetEvents | frontend/src/components/Calendar.tsx:153-164 | one widget event per domain event, in order, each the widget event of the domain event at the same position |
| Calendar.FirstMatch | frontend/src/components/Calendar.tsx:68 | the search stops at the first event carrying the key, or finds none when none does |
| Calendar.FindById | frontend/src/components/Calendar.tsx:68 | the found event is the first listed event carrying the key; nothing is found exactly when no event carries it |
| Calendar.ClickResolvesDisplayedEvent | frontend/src/components/Calendar.tsx:66-71 | with unique ids, clicking the widget event shown for a saved event resolves to exactly that event |
| Calendar.UnsavedEventNeverResolves | frontend/src/components/Calendar.tsx:66-71 | the widget event shown for an event without an id resolves to nothing |
| Calendar.DroppedEvent | frontend/src/components/Calendar.tsx:78-82 | a drop changes only the two times, each falling back to the original when the widget gives none |
| Calendar.CalendarView.constructor | frontend/src/components/Calendar.tsx:25-32 | mounting starts in the week view at the current date, with the widget showing exactly the mapped events |
| Calendar.CalendarView.SyncEvents | frontend/src/components/Calendar.tsx:149-168 | after a sync the widget holds exactly the mapped current list and nothing from before |
| Calendar.CalendarView.ChangeView | frontend/src/components/Calendar.tsx:192-197 | the widget and the toolbar both switch to the requested view; the widget still shows exactly the current events |
| Calendar.CalendarView.DatesSet | frontend/src/components/Calendar.tsx:133-136 | the toolbar takes the reported view type and range start; the widget still shows exactly the current events |
| Calendar.CalendarView.EventClickAsWritten | frontend/src/components/Calendar.tsx:66-72 | as written, a click selects the first event of the list captured when the widget was created that carries the parsed id, and nothing when none does |
| Calendar.CalendarView.EventClick | frontend/src/components/Calendar.tsx:66-72 | a click selects the first current event carrying the parsed id, and nothing when none does |
| Calendar.CalendarView.EventDropAsWritten | frontend/src/components/Calendar.tsx:73-85 | as written, a drop moves the event found in the captured list and is silent exactly when the click lookup is |
| Calendar.CalendarView.EventDrop | frontend/src/components/Calendar.tsx:73-85 | a drop hands on the first current matching event with only its times changed, and nothing when none matches |
| Calendar.StaleClickScenario | frontend/src/components/Calendar.tsx:147 | an event added after mounting is ignored on click as written and selected when corrected |
| Calendar.StaleDropScenario | frontend/src/components/Calendar.tsx:147 | a drop after a title edit hands on the pre-edit title as written and the edited one when corrected |
| SessionLogs.SessionLogService.LogAction | backend/src/main/java/com/eventbooking/service/SessionLogService.java:25-34 | exactly one record is appended carrying the ip, action, event id, location and clock reading; earlier records are unchanged |
| SessionLogs.SessionLogService.GetLogsByIp | backend/src/main/java/com/eventbooking/service/SessionLogService.java:17-19 | every returned record is logged and from the address, and every logged record from the address is returned |
| SessionLogs.SessionLogService.GetLogsByEventId | backend/src/main/java/com/eventbooking/service/SessionLogService.java:21-23 | every returned record is logged and about the event, and every logged record about it is returned |
| SessionLogs.LogActionExtendsIpQuery | backend/src/main/java/com/eventbooking/service/SessionLogService.java:25-33 | logging extends the by-address query by the new record exactly when it is from that address |
| SessionLogs.LogActionExtendsEventQuery | backend/src/main/java/com/eventbooking/service/SessionLogService.java:25-33 | logging extends the by-event query by the new record exactly when it is about that event |
| EventStore.ApplyDetails | backend/src/main/java/com/eventbooking/service/EventService.java:55-61 | an update takes the six editable fields from the request and stamps the update time; id, creator and creation time stay |
| EventStore.EventService.GetEventsByUser | backend/src/main/java/com/eventbooking/service/EventService.java:29-31 | every returned event is stored and created by the address, and every stored event created by it is returned |
| EventStore.EventService.GetEventsByTimeRange | backend/src/main/java/com/eventbooking/service/EventService.java:33-35 | exactly the stored events whose start lies between the bounds, both included |
| EventStore.EventService.CreateEvent | backend/src/main/java/com/eventbooking/service/EventService.java:37-45 | the event is stamped with the caller's address and the clock, stored under a fresh id, and one CREATE_EVENT record with that id is logged |
| EventStore.EventService.UpdateEvent | backend/src/main/java/com/eventbooking/service/EventService.java:47-68 | empty, with store and log unchanged, when the id is unknown or the caller is not the creator; otherwise the applied update is stored and one UPDATE_EVENT record is logged |
| EventStore.EventService.DeleteEvent | backend/src/main/java/com/eventbooking/service/EventService.java:70-83 | true exactly when the id exists and the caller created it; then exactly that id is removed and one DELETE_EVENT record is logged; otherwise nothing changes |

## Left out

- The HTTP client in `frontend/src/services/api.ts` is not modelled. A save or delete is a request value the form hands out, and its outcome comes back as a parameter. The client resolves a DELETE whatever the status, so a delete the backend refuses (403) still reaches the delete callback and removes the event from the client's list. The model takes the outcome as given and does not capture this.
- `EventController.java`: HTTP status mapping and request plumbing. Its default for an empty timezone depends on IP geolocation and is left out too.
- `LocationService.java`: a wrapper around a GeoIP database and the network. The location reaches the model as a plain string parameter.
- Widget internals are not modelled: rendering, tooltips, navigation buttons, the date-range title, date clicks and range selection. The drop callback calls the update handler captured at mount; that handler's own stale list is not modelled either.
- Date strings are represented only by the integer times above: ISO formatting, `Date` parsing, daylight-saving transitions, and the server's `LocalDateTime` without a zone.
- Toasts, console output, React render scheduling, the initial `Promise.all` load and the browser timezone fallback are asynchronous I/O and browser APIs. `AppShell.Shell.constructor` starts from the loaded list.
- JavaScript numbers are doubles, but the model's integers are unbounded. `JsSemantics.ParseInt` does not model the precision loss of numerals beyond 2^53 or the `Infinity` result. `Calendar.TitleHash` does not model rounding when the accumulator leaves the exactly representable range, which only very long titles reach.
- `EventForm.Form.HandleSubmit`, `EventForm.Form.HandleDelete` and `EventForm.Form.ConfirmDelete` require that no call is in flight. The submit and delete buttons are disabled while submitting (`EventForm.tsx` lines 267 and 277). The confirmation's Delete button is not disabled, and the overlay does not make the form inert: a keyboard user can return to a text input under it and submit with Enter, then confirm the delete while the save is pending. The model assumes no keyboard submission while the confirmation is open, so it does not capture a save and a delete in flight together.
- Utf16: its own contract gives only lengths and the 16-bit range. The units themselves are fixed by `JsSemantics.CodeUnits` (per character) and `JsSemantics.Utf16Append` (per concatenation).
- `EventStore.EventService.CreateEvent` always assigns a fresh id. A request body that already carries an id would be merged into that entity by the persistence layer, and this is not modelled. The creation and log timestamps are one `now` reading, while the source reads the clock twice.
- `EventStore.EventService.GetEventsByUser` and `EventStore.EventService.GetEventsByTimeRange` return sets. The repository's list order is unspecified and not modelled.
- `EventStore.EventService.UpdateEvent` and `EventStore.EventService.DeleteEvent` assume every stored event has a creator, which `Valid()` keeps. A stored event without one would make the source throw, and this is not modelled.
- In the source, every log record has a non-null address, action and timestamp. The model gets this from its types: these fields are a `string` and an `int`, not options.
- SessionLogs.SessionLogService.LogAction: numbers records 1, 2, 3, ... in append order. The repository's identity column promises only distinct ids, not consecutive ones; no operation of the model reads a record's id.
- `getAllEvents` and `getEventById` read the store directly, and `findByTimezone` is never called. None of them is modelled.

## Findings

| source | as written | input that shows it | evidently intended | confidence | as-written member | corrected member |
|---|---|---|---|---|---|---|
| frontend/src/components/EventForm.tsx:33-34 | the form shows an event's times as UTC digits, but on submit they are parsed as local wall-clock time | an existing event opened and saved unchanged in a browser at UTC+2 moves two hours earlier | show local wall-clock digits so that an unchanged submit keeps the time | high; not executed | EventForm.UnchangedSubmitScenario | EventForm.EditValue |
| frontend/src/components/Calendar.tsx:147 | the click callback looks ids up in the event list captured when the widget was created, because the effect does not depend on `events` | an event with id 2 created after mounting is displayed, but clicking it does nothing | look ids up in the current list | high; not executed | Calendar.StaleClickScenario | Calendar.CalendarView.EventClick |
| frontend/src/components/Calendar.tsx:147 | the drop callback moves the event as captured when the widget was created | an event renamed after mounting and then dragged is handed on with its old title | move the current event | high; not executed | Calendar.StaleDropScenario | Calendar.CalendarView.EventDrop |
