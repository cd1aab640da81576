/** The pure rules of the calendar service (calendar/service.go): the guard
    and error wrapping around the availability sweep, the validation of
    event-creation requests, and the application of partial updates to a
    stored event. Calls to the Google Calendar API become parameters. */
module Service {
  import opened Wrappers
  import opened Errors
  import opened Availability

  /** Go's zero `time.Time` (January 1 of year 1, UTC), in Unix seconds. It
      is what an unset request time holds. */
  const ZeroTime: Instant := -62135596800

  // ---------------------------------------------------------------------
  // Availability

  const InvalidRangeMessage := "Start time must be before end time"
  const ListFailedMessage := "Failed to retrieve events"

  /** `CheckAvailability`: rejects a window that starts after it ends, passes
      on a failure to obtain the API client unchanged (`connect`), wraps a
      failure to list the window's events (`listed`), and otherwise runs the
      sweep over the listed events. */
  function CheckAvailability(ws: Instant, we: Instant, connect: Option<Error>, listed: Result<seq<Event>, Error>)
    : (r: Result<seq<TimeSlot>, Error>)
    ensures r.Success? <==> ws <= we && connect.None? && listed.Success?
    ensures ws > we ==>
      && r.error.Calendar? && r.error.err.Type() == InvalidInput
      && r.error.err.Code() == ErrCodeInvalidTimeRange
      && r.error.err.Details() == "" && r.error.err.Unwrap() == None
      && r.error.err.Error() == ErrCodeInvalidTimeRange + ": " + InvalidRangeMessage
    ensures ws <= we && connect.Some? ==> r == Failure(connect.value)
    ensures ws <= we && connect.None? && listed.Failure? ==>
      && r.error.Calendar? && r.error.err.Type() == Internal
      && r.error.err.Code() == ErrCodeServiceUnavailable && r.error.err.Unwrap() == Some(listed.error)
      && r.error.err.Details() == ""
      && r.error.err.Error() == ErrCodeServiceUnavailable + ": " + ListFailedMessage + " (caused by: " + ErrorText(listed.error) + ")"
    ensures r.Success? ==> r.value == CalculateFreeTimeSlots(ws, we, listed.value)
  {
    if ws > we then
      Failure(Calendar(NewInvalidInputError(ErrCodeInvalidTimeRange, InvalidRangeMessage, "")))
    else if connect.Some? then
      Failure(connect.value)
    else if listed.Failure? then
      Failure(Calendar(NewInternalError(ErrCodeServiceUnavailable, ListFailedMessage, Some(listed.error))))
    else
      Success(CalculateFreeTimeSlots(ws, we, listed.value))
  }

  /** Whatever the listed events, the slots an availability check returns
      lie inside the window and are free exactly where no event is. */
  lemma CheckAvailabilitySlots(ws: Instant, we: Instant, listed: seq<Event>, t: Instant)
    requires CheckAvailability(ws, we, None, Success(listed)).Success?
    ensures forall s :: s in CheckAvailability(ws, we, None, Success(listed)).value ==> WithinWindow(s, ws, we)
    ensures InFreeSlot(CheckAvailability(ws, we, None, Success(listed)).value, t) <==> ws <= t < we && !Occupied(listed, t)
  {
    FreeTimeSlotsCorrect(ws, we, listed);
  }

  // ---------------------------------------------------------------------
  // Creating events

  /** The fields of a creation request the service looks at; the times are
      already parsed. */
  datatype EventCreateRequest = EventCreateRequest(
    summary: string,
    description: string,
    start: Instant,
    end: Instant,
    location: string,
    attendees: seq<string>)

  /** One validation rule: whether it fails, and the error it reports. */
  datatype Rule = Rule(fails: bool, err: CalendarError)

  /** The error for an attendee address without '@'. */
  function BadEmailError(email: string): CalendarError {
    NewInvalidInputError(ErrCodeInvalidEventData, "Invalid email format: " + email, "")
  }

  /** The creation rules in the order they are checked: summary, start,
      end, time order, then one rule per attendee in list order. */
  function CreateRules(req: EventCreateRequest): seq<Rule> {
    [ Rule(req.summary == "", NewInvalidInputError(ErrCodeInvalidEventData, "Event summary is required", "")),
      Rule(req.start == ZeroTime, NewInvalidInputError(ErrCodeInvalidTimeFormat, "Start time is required", "")),
      Rule(req.end == ZeroTime, NewInvalidInputError(ErrCodeInvalidTimeFormat, "End time is required", "")),
      Rule(req.start > req.end, NewInvalidInputError(ErrCodeInvalidTimeRange, InvalidRangeMessage, "")) ]
    + seq(|req.attendees|, k requires 0 <= k < |req.attendees| =>
        Rule('@' !in req.attendees[k], BadEmailError(req.attendees[k])))
  }

  /** The error of the first failing rule, if any. */
  function FirstFailure(rules: seq<Rule>): Option<CalendarError> {
    if |rules| == 0 then None
    else if rules[0].fails then Some(rules[0].err)
    else FirstFailure(rules[1..])
  }

  /** The first failing rule decides. */
  lemma {:induction false} FirstFailureAt(rules: seq<Rule>, k: nat)
    requires k < |rules| && rules[k].fails
    requires forall j :: 0 <= j < k ==> !rules[j].fails
    ensures FirstFailure(rules) == Some(rules[k].err)
  {
    if k > 0 {
      FirstFailureAt(rules[1..], k - 1);
    }
  }

  /** No rule fails exactly when there is no first failure. */
  lemma {:induction false} FirstFailureNone(rules: seq<Rule>)
    ensures FirstFailure(rules).None? <==> forall j :: 0 <= j < |rules| ==> !rules[j].fails
  {
    if |rules| > 0 {
      FirstFailureNone(rules[1..]);
      if !rules[0].fails {
        assert forall j :: 1 <= j < |rules| ==> rules[j] == rules[1..][j - 1];
      }
    }
  }

  /** A request every rule accepts. */
  predicate CreateRequestValid(req: EventCreateRequest) {
    && req.summary != ""
    && req.start != ZeroTime
    && req.end != ZeroTime
    && req.start <= req.end
    && forall k :: 0 <= k < |req.attendees| ==> '@' in req.attendees[k]
  }

  /** `validateEventCreateRequest`: the checks in source order, the attendee
      check as a loop that stops at the first address without '@'. */
  method ValidateEventCreateRequest(req: EventCreateRequest) returns (r: Option<CalendarError>)
    ensures r == FirstFailure(CreateRules(req))
    ensures r.None? <==> CreateRequestValid(req)
    ensures r.Some? ==> r.value.Type() == InvalidInput && r.value.Details() == "" && r.value.Unwrap() == None
  {
    var rules := CreateRules(req);
    FirstFailureNone(rules);
    if req.summary == "" {
      FirstFailureAt(rules, 0);
      return Some(NewInvalidInputError(ErrCodeInvalidEventData, "Event summary is required", ""));
    }
    if req.start == ZeroTime {
      FirstFailureAt(rules, 1);
      return Some(NewInvalidInputError(ErrCodeInvalidTimeFormat, "Start time is required", ""));
    }
    if req.end == ZeroTime {
      FirstFailureAt(rules, 2);
      return Some(NewInvalidInputError(ErrCodeInvalidTimeFormat, "End time is required", ""));
    }
    if req.start > req.end {
      FirstFailureAt(rules, 3);
      return Some(NewInvalidInputError(ErrCodeInvalidTimeRange, InvalidRangeMessage, ""));
    }
    for i := 0 to |req.attendees|
      invariant forall j :: 0 <= j < 4 + i ==> !rules[j].fails
    {
      var email := req.attendees[i];
      assert rules[4 + i] == Rule('@' !in email, BadEmailError(email));
      if '@' !in email {
        FirstFailureAt(rules, 4 + i);
        return Some(NewInvalidInputError(ErrCodeInvalidEventData, "Invalid email format: " + email, ""));
      }
    }
    assert forall k :: 0 <= k < |req.attendees| ==> rules[4 + k].fails == ('@' !in req.attendees[k]);
    return None;
  }

  /** An event may start and end at the same instant. */
  lemma InstantEventAccepted(req: EventCreateRequest)
    requires req.summary != "" && req.start != ZeroTime && req.start == req.end
    requires forall k :: 0 <= k < |req.attendees| ==> '@' in req.attendees[k]
    ensures FirstFailure(CreateRules(req)) == None
  {
    FirstFailureNone(CreateRules(req));
  }

  /** A missing summary is reported before anything else, however bad the
      rest of the request is. */
  lemma SummaryCheckedFirst(req: EventCreateRequest)
    requires req.summary == ""
    ensures FirstFailure(CreateRules(req)).Some?
    ensures FirstFailure(CreateRules(req)).value.Code() == ErrCodeInvalidEventData
    ensures FirstFailure(CreateRules(req)).value.Error() == ErrCodeInvalidEventData + ": Event summary is required"
  {
    var rules := CreateRules(req);
    var err := NewInvalidInputError(ErrCodeInvalidEventData, "Event summary is required", "");
    assert rules[0] == Rule(true, err);
    FirstFailureAt(rules, 0);
  }

  /** When the fixed checks pass, the error names the first attendee without
      '@', in list order. */
  lemma {:induction false} FirstBadAttendeeReported(req: EventCreateRequest, k: nat)
    requires req.summary != "" && req.start != ZeroTime && req.end != ZeroTime && req.start <= req.end
    requires k < |req.attendees| && '@' !in req.attendees[k]
    requires forall j :: 0 <= j < k ==> '@' in req.attendees[j]
    ensures FirstFailure(CreateRules(req)) == Some(BadEmailError(req.attendees[k]))
  {
    var rules := CreateRules(req);
    assert forall j :: 0 <= j < k ==> rules[4 + j].fails == ('@' !in req.attendees[j]);
    FirstFailureAt(rules, 4 + k);
  }

  // ---------------------------------------------------------------------
  // Updating events

  /** A time of a stored event, with the zone it is expressed in. */
  datatype EventDateTime = EventDateTime(dateTime: Instant, timeZone: string)

  /** An attendee of a stored event. */
  datatype Attendee = Attendee(email: string, responseStatus: string)

  /** The fields of a stored Google Calendar event that updates touch or
      keep; a missing start or end is `None`. */
  datatype GoogleEvent = GoogleEvent(
    id: string,
    summary: string,
    description: string,
    location: string,
    start: Option<EventDateTime>,
    end: Option<EventDateTime>,
    attendees: seq<Attendee>,
    status: string)

  /** A partial update: `None` is a nil field, to be left alone. A present
      but empty attendee list is different from a missing one. */
  datatype EventUpdateRequest = EventUpdateRequest(
    summary: Option<string>,
    description: Option<string>,
    start: Option<Instant>,
    end: Option<Instant>,
    location: Option<string>,
    attendees: Option<seq<string>>)

  /** Fresh attendee records for a list of addresses, nothing but the
      address set. */
  function AttendeesFor(emails: seq<string>): (r: seq<Attendee>)
    ensures |r| == |emails|
    ensures forall i :: 0 <= i < |r| ==> r[i] == Attendee(emails[i], "")
  {
    seq(|emails|, i requires 0 <= i < |emails| => Attendee(emails[i], ""))
  }

  /** The addresses of a list of attendees, in order, as the conversion
      back from a stored event reads them. */
  function Emails(attendees: seq<Attendee>): (r: seq<string>)
    ensures |r| == |attendees|
    ensures forall i :: 0 <= i < |r| ==> r[i] == attendees[i].email
  {
    if |attendees| == 0 then [] else [attendees[0].email] + Emails(attendees[1..])
  }

  /** Reading back the addresses of freshly built attendees gives the
      addresses, in order. */
  lemma EmailsOfAttendeesFor(emails: seq<string>)
    ensures Emails(AttendeesFor(emails)) == emails
  {
  }

  /** `applyEventUpdates`: every present field overwrites the stored one,
      times in the configured zone; absent fields are kept. */
  function ApplyEventUpdates(event: GoogleEvent, update: EventUpdateRequest, timeZone: string): (r: GoogleEvent)
    ensures r.id == event.id && r.status == event.status
    ensures r.summary == (if update.summary.Some? then update.summary.value else event.summary)
    ensures r.description == (if update.description.Some? then update.description.value else event.description)
    ensures r.location == (if update.location.Some? then update.location.value else event.location)
    ensures update.start.None? ==> r.start == event.start
    ensures update.start.Some? ==> r.start == Some(EventDateTime(update.start.value, timeZone))
    ensures update.end.None? ==> r.end == event.end
    ensures update.end.Some? ==> r.end == Some(EventDateTime(update.end.value, timeZone))
    ensures update.attendees.None? ==> r.attendees == event.attendees
    ensures update.attendees.Some? ==>
      && Emails(r.attendees) == update.attendees.value
      && forall i :: 0 <= i < |r.attendees| ==> r.attendees[i].responseStatus == ""
  {
    var startAt := if update.start.Some? then Some(EventDateTime(update.start.value, timeZone)) else event.start;
    var endAt := if update.end.Some? then Some(EventDateTime(update.end.value, timeZone)) else event.end;
    var attendees := if update.attendees.Some? then AttendeesFor(update.attendees.value) else event.attendees;
    event.(
      summary := update.summary.GetOr(event.summary),
      description := update.description.GetOr(event.description),
      location := update.location.GetOr(event.location),
      start := startAt,
      end := endAt,
      attendees := attendees)
  }

  /** The update with every field absent. */
  const NoChange := EventUpdateRequest(None, None, None, None, None, None)

  /** An update with nothing in it changes nothing. */
  lemma EmptyUpdateIsIdentity(event: GoogleEvent, timeZone: string)
    ensures ApplyEventUpdates(event, NoChange, timeZone) == event
  {
  }

  /** Applying the same update twice is applying it once. */
  lemma ApplyIdempotent(event: GoogleEvent, update: EventUpdateRequest, timeZone: string)
    ensures ApplyEventUpdates(ApplyEventUpdates(event, update, timeZone), update, timeZone)
      == ApplyEventUpdates(event, update, timeZone)
  {
  }

  /** `later` laid over `earlier`: each field of `later` wins when present. */
  function Overlay(earlier: EventUpdateRequest, later: EventUpdateRequest): EventUpdateRequest {
    EventUpdateRequest(
      if later.summary.Some? then later.summary else earlier.summary,
      if later.description.Some? then later.description else earlier.description,
      if later.start.Some? then later.start else earlier.start,
      if later.end.Some? then later.end else earlier.end,
      if later.location.Some? then later.location else earlier.location,
      if later.attendees.Some? then later.attendees else earlier.attendees)
  }

  /** Two updates in a row act like one update in which the later one's
      present fields win. */
  lemma ApplyTwiceIsOverlay(event: GoogleEvent, earlier: EventUpdateRequest, later: EventUpdateRequest, timeZone: string)
    ensures ApplyEventUpdates(ApplyEventUpdates(event, earlier, timeZone), later, timeZone)
      == ApplyEventUpdates(event, Overlay(earlier, later), timeZone)
  {
  }

  /** A present but empty attendee list clears the attendees. */
  lemma EmptyAttendeeListClears(event: GoogleEvent, timeZone: string)
    ensures ApplyEventUpdates(event, NoChange.(attendees := Some([])), timeZone).attendees == []
  {
  }
}
