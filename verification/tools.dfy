/** The argument handling of the calendar tools (calendar/tools.go): the
    service-availability check, the `max_results` clamp, the splitting of a
    comma-separated attendee list, and how the create and update handlers
    turn string arguments into requests, where an empty string means
    "not given". Time parsing and the tool library's own messages are
    parameters. */
module Tools {
  import opened Wrappers
  import opened Text
  import opened Availability
  import opened Service

  // ---------------------------------------------------------------------
  // Service check

  const ServiceUnavailableMessage := "Calendar service unavailable. Please check your Google Calendar credentials configuration."

  /** `checkServiceAvailability`: an error result exactly when no calendar
      service was configured. */
  function CheckServiceAvailability(serviceConfigured: bool): (r: Option<string>)
    ensures r.Some? <==> !serviceConfigured
    ensures r.Some? ==> r.value == ServiceUnavailableMessage
  {
    if serviceConfigured then None else Some(ServiceUnavailableMessage)
  }

  // ---------------------------------------------------------------------
  // max_results

  const DefaultMaxResults := 50
  const MaxResultsLimit := 250

  /** Go's conversion of a float to an integer: truncation toward zero. */
  function TruncateTowardZero(x: real): (n: int)
    ensures 0.0 <= x ==> n as real <= x < n as real + 1.0
    ensures x < 0.0 ==> n as real - 1.0 < x <= n as real
  {
    if x >= 0.0 then x.Floor else -((-x).Floor)
  }

  /** `parseMaxResults`: the `max_results` argument (0 when absent),
      truncated, if that lies in 1..250, and 50 otherwise. */
  function ParseMaxResults(maxResults: Option<real>): (n: int)
    ensures 1 <= n <= MaxResultsLimit
    ensures maxResults.Some? && 1.0 <= maxResults.value < (MaxResultsLimit + 1) as real ==> n == maxResults.value.Floor
    ensures maxResults.None? || maxResults.value < 1.0 || maxResults.value >= (MaxResultsLimit + 1) as real ==> n == DefaultMaxResults
  {
    var n := TruncateTowardZero(maxResults.GetOr(0.0));
    if 0 < n <= MaxResultsLimit then n else DefaultMaxResults
  }

  /** The clamp is a fixed point: feeding its result back returns it. */
  lemma ParseMaxResultsStable(maxResults: Option<real>)
    ensures ParseMaxResults(Some(ParseMaxResults(maxResults) as real)) == ParseMaxResults(maxResults)
  {
  }

  // ---------------------------------------------------------------------
  // Attendee lists

  /** The comma-separated attendee argument split at every comma, each
      piece with its surrounding white space removed. */
  function SplitAttendees(param: string): (r: seq<string>)
    ensures |r| == Count(param, ',') + 1
    ensures forall i :: 0 <= i < |r| ==> IsTrimmingOf(r[i], Split(param, ',')[i])
  {
    var parts := Split(param, ',');
    seq(|parts|, i requires 0 <= i < |parts| => TrimSpace(parts[i]))
  }

  /** Splitting a comma-joined list of pieces returns the pieces' trimmings,
      in order. */
  lemma SplitAttendeesOfJoin(parts: seq<string>, emails: seq<string>)
    requires |parts| == |emails| >= 1
    requires forall i :: 0 <= i < |parts| ==> ',' !in parts[i] && TrimSpace(parts[i]) == emails[i]
    ensures SplitAttendees(Join(parts, [','])) == emails
  {
    SplitJoin(parts, ',');
  }

  /** A list of addresses without commas or white space survives being
      joined with commas and split again. */
  lemma AttendeesRoundTrip(emails: seq<string>)
    requires |emails| >= 1
    requires forall i :: 0 <= i < |emails| ==> ',' !in emails[i] && NoSpace(emails[i])
    ensures SplitAttendees(Join(emails, [','])) == emails
  {
    forall i | 0 <= i < |emails| ensures TrimSpace(emails[i]) == emails[i] {
      TrimSpaceOfNoSpace(emails[i]);
    }
    SplitAttendeesOfJoin(emails, emails);
  }

  /** A separator at the end opens one more, empty, piece. */
  lemma {:induction false} SplitTrailingSeparator(s: string, sep: char)
    ensures Split(s + [sep], sep) == Split(s, sep) + [""]
  {
    if |s| == 0 {
      assert [sep][1..] == [];
    } else {
      assert (s + [sep])[1..] == s[1..] + [sep];
      SplitTrailingSeparator(s[1..], sep);
      var rest := Split(s[1..], sep);
      if s[0] != sep {
        assert (rest + [""])[1..] == rest[1..] + [""];
      }
    }
  }

  /** White space trims to nothing. */
  lemma TrimSpaceOfEmpty()
    ensures TrimSpace("") == ""
  {
    assert TrimmedAt("", "", 0, 0);
    TrimmingUnique(TrimSpace(""), "", "");
  }

  /** A trailing comma in the attendee argument adds an empty address, so
      a request built from it fails validation. */
  lemma TrailingCommaRejected(req: EventCreateRequest, s: string)
    requires req.attendees == SplitAttendees(s + ",")
    ensures req.attendees[|req.attendees| - 1] == ""
    ensures !CreateRequestValid(req)
  {
    var parts := Split(s + [','], ',');
    SplitTrailingSeparator(s, ',');
    assert s + "," == s + [','];
    var last := |parts| - 1;
    assert parts[last] == "";
    TrimSpaceOfEmpty();
    assert req.attendees[last] == TrimSpace(parts[last]);
  }

  // ---------------------------------------------------------------------
  // Handler arguments

  /** A tool call's string arguments by name. */
  type Args = map<string, string>

  /** The argument, or "" when it is absent. */
  function GetString(args: Args, key: string): string {
    if key in args then args[key] else ""
  }

  /** An optional argument: absent or empty counts as not given. */
  function Given(args: Args, key: string): Option<string> {
    if GetString(args, key) == "" then None else Some(args[key])
  }

  /** A required argument; `missing` is the tool library's message for an
      absent one. */
  function RequireString(args: Args, key: string, missing: string -> string): (r: Result<string, string>)
    ensures r.Success? <==> key in args
    ensures r.Success? ==> r.value == args[key]
    ensures r.Failure? ==> r.error == missing(key)
  {
    if key in args then Success(args[key]) else Failure(missing(key))
  }

  const FormatHint := "Please use RFC3339 format: "

  /** The create handler from its arguments to a creation request, or the
      text of the tool error it returns. `parse` reads an RFC 3339 time. */
  function CreateRequestFromArgs(args: Args, parse: string -> Result<Instant, string>, missing: string -> string)
    : (r: Result<EventCreateRequest, string>)
    ensures r.Success? <==>
      && "title" in args && "start_time" in args && "end_time" in args
      && parse(args["start_time"]).Success? && parse(args["end_time"]).Success?
    ensures "title" !in args ==> r == Failure("Invalid title: " + missing("title"))
    ensures "title" in args && "start_time" !in args ==> r == Failure("Invalid start_time: " + missing("start_time"))
    ensures "title" in args && "start_time" in args && "end_time" !in args ==>
      r == Failure("Invalid end_time: " + missing("end_time"))
    ensures "title" in args && "start_time" in args && "end_time" in args && parse(args["start_time"]).Failure? ==>
      r == Failure("Invalid start_time format. " + FormatHint + parse(args["start_time"]).error)
    ensures && "title" in args && "start_time" in args && "end_time" in args
            && parse(args["start_time"]).Success? && parse(args["end_time"]).Failure? ==>
      r == Failure("Invalid end_time format. " + FormatHint + parse(args["end_time"]).error)
    ensures r.Success? ==>
      && r.value.summary == args["title"]
      && r.value.start == parse(args["start_time"]).value
      && r.value.end == parse(args["end_time"]).value
      && r.value.description == GetString(args, "description")
      && r.value.location == GetString(args, "location")
    ensures r.Success? ==> (r.value.attendees == [] <==> GetString(args, "attendees") == "")
    ensures r.Success? && GetString(args, "attendees") != "" ==>
      && |r.value.attendees| == Count(args["attendees"], ',') + 1
      && forall i :: 0 <= i < |r.value.attendees| ==> IsTrimmingOf(r.value.attendees[i], Split(args["attendees"], ',')[i])
  {
    var title := RequireString(args, "title", missing);
    var startText := RequireString(args, "start_time", missing);
    var endText := RequireString(args, "end_time", missing);
    if title.Failure? then Failure("Invalid title: " + title.error)
    else if startText.Failure? then Failure("Invalid start_time: " + startText.error)
    else if endText.Failure? then Failure("Invalid end_time: " + endText.error)
    else
      var start := parse(startText.value);
      var end := parse(endText.value);
      if start.Failure? then Failure("Invalid start_time format. " + FormatHint + start.error)
      else if end.Failure? then Failure("Invalid end_time format. " + FormatHint + end.error)
      else
        var attendees := match Given(args, "attendees")
          case Some(param) => SplitAttendees(param)
          case None => [];
        Success(EventCreateRequest(
          title.value,
          Given(args, "description").GetOr(""),
          start.value,
          end.value,
          Given(args, "location").GetOr(""),
          attendees))
  }

  /** What the update handler passes on: the event's id and the update. */
  datatype UpdateCall = UpdateCall(eventId: string, update: EventUpdateRequest)

  /** A time argument of the update handler: not given, given and parsed,
      or given and unreadable. */
  function OptionalTime(args: Args, key: string, parse: string -> Result<Instant, string>): Result<Option<Instant>, string> {
    match Given(args, key)
    case None => Success(None)
    case Some(text) =>
      match parse(text)
      case Success(t) => Success(Some(t))
      case Failure(err) => Failure(err)
  }

  /** The update handler from its arguments to an update, or the text of
      the tool error it returns: every argument that is absent or empty
      leaves its field unset. */
  function UpdateRequestFromArgs(args: Args, parse: string -> Result<Instant, string>, missing: string -> string)
    : (r: Result<UpdateCall, string>)
    ensures r.Success? <==>
      && "event_id" in args
      && (GetString(args, "start_time") == "" || parse(args["start_time"]).Success?)
      && (GetString(args, "end_time") == "" || parse(args["end_time"]).Success?)
    ensures "event_id" !in args ==> r == Failure("Invalid event_id: " + missing("event_id"))
    ensures "event_id" in args && GetString(args, "start_time") != "" && parse(args["start_time"]).Failure? ==>
      r == Failure("Invalid start_time format. " + FormatHint + parse(args["start_time"]).error)
    ensures r.Success? ==> r.value.eventId == args["event_id"]
    ensures r.Success? ==>
      && (r.value.update.summary.None? <==> GetString(args, "title") == "")
      && (r.value.update.description.None? <==> GetString(args, "description") == "")
      && (r.value.update.location.None? <==> GetString(args, "location") == "")
      && (r.value.update.start.None? <==> GetString(args, "start_time") == "")
      && (r.value.update.end.None? <==> GetString(args, "end_time") == "")
      && (r.value.update.attendees.None? <==> GetString(args, "attendees") == "")
    ensures && "event_id" in args
            && (GetString(args, "start_time") == "" || parse(args["start_time"]).Success?)
            && GetString(args, "end_time") != "" && parse(args["end_time"]).Failure? ==>
      r == Failure("Invalid end_time format. " + FormatHint + parse(args["end_time"]).error)
    ensures r.Success? && r.value.update.summary.Some? ==> r.value.update.summary.value == args["title"]
    ensures r.Success? && r.value.update.description.Some? ==> r.value.update.description.value == args["description"]
    ensures r.Success? && r.value.update.location.Some? ==> r.value.update.location.value == args["location"]
    ensures r.Success? && r.value.update.start.Some? ==> r.value.update.start == Some(parse(args["start_time"]).value)
    ensures r.Success? && r.value.update.end.Some? ==> r.value.update.end == Some(parse(args["end_time"]).value)
    ensures r.Success? && r.value.update.attendees.Some? ==>
      && r.value.update.attendees.value == SplitAttendees(args["attendees"])
      && |r.value.update.attendees.value| >= 1
  {
    var eventId := RequireString(args, "event_id", missing);
    if eventId.Failure? then Failure("Invalid event_id: " + eventId.error)
    else
      var start := OptionalTime(args, "start_time", parse);
      var end := OptionalTime(args, "end_time", parse);
      if start.Failure? then Failure("Invalid start_time format. " + FormatHint + start.error)
      else if end.Failure? then Failure("Invalid end_time format. " + FormatHint + end.error)
      else
        var attendees := match Given(args, "attendees")
          case Some(param) => Some(SplitAttendees(param))
          case None => None;
        Success(UpdateCall(eventId.value, EventUpdateRequest(
          Given(args, "title"),
          Given(args, "description"),
          start.value,
          end.value,
          Given(args, "location"),
          attendees)))
  }

  /** Through the update tool the attendee list can be replaced but never
      cleared: an empty argument keeps the stored attendees, any other
      yields at least one. */
  lemma UpdateToolNeverClearsAttendees(args: Args, parse: string -> Result<Instant, string>, missing: string -> string,
                                       event: GoogleEvent, timeZone: string)
    requires UpdateRequestFromArgs(args, parse, missing).Success?
    ensures var after := ApplyEventUpdates(event, UpdateRequestFromArgs(args, parse, missing).value.update, timeZone);
      GetString(args, "attendees") == "" ==> after.attendees == event.attendees
    ensures var after := ApplyEventUpdates(event, UpdateRequestFromArgs(args, parse, missing).value.update, timeZone);
      GetString(args, "attendees") != "" ==> |after.attendees| >= 1
  {
  }
}
