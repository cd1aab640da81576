# Google Calendar MCP server: free/busy sweep and request rules in Dafny

This project models the pure core of a Go server that exposes a Google
Calendar as tools. Its main piece is the **free/busy sweep** behind the
availability check (`calculateFreeTimeSlots`). The sweep does four things:

- It sorts a window's events by start.
- It skips events lying strictly outside the window `[start, end]`.
- It clips the rest to the window.
- It walks left to right with a cursor, emitting a free slot for every gap,
  one busy slot per kept event, and a final free slot up to the window's end.

Around the sweep sit four layers, also modelled:

- **Service rules** (`calendar/service.go`): the guard of `CheckAvailability`,
  the validation of event-creation requests, and the application of partial
  updates to a stored event.
- **Configuration** (`calendar/config.go`): environment look-ups with
  defaults, the accumulating configuration validation, the error wrapping of
  `LoadConfig`, and the accessors.
- **Errors** (`calendar/errors.go`): the calendar error family, its message
  format, its constructors and the error-response record.
- **Tool arguments** (`calendar/tools.go`): the `max_results` clamp, the
  service check, the comma-separated attendee list, and how the create and
  update handlers treat an empty argument as "not given".

Modules, one per Dafny file:

- `Wrappers`: `Option` (Go's nil) and `Result` (Go's value/error pair).
- `Text`: the Go `strings` functions the core uses. These are `TrimSpace` with
  Go's `unicode.IsSpace`, `Split` on one character, `Join`, `HasPrefix` and
  `ToLower`.
- `Errors`: calendar/errors.go.
- `Config`: calendar/config.go. The process environment is a
  `map<string, string>`. "The credentials file does not exist" is a
  predicate parameter standing for `os.Stat` plus `os.IsNotExist`.
- `Availability`: the sweep. Instants are integers, in seconds, already
  parsed from RFC 3339. The walk is a recursive function `Sweep` over a
  processing order. A method `CalculateFreeTimeSlotsLoop` follows the Go loop
  statement by statement and is proved equal to it.
- `Service`: calendar/service.go outside the sweep. Failures of the Google
  API calls are parameters. Go's zero time is the instant -62135596800.
- `Tools`: calendar/tools.go argument handling. RFC 3339 parsing and the
  tool library's "missing argument" text are function parameters.

`sort.Slice` is not stable, so the order it leaves equal-start events in is
unspecified. The sweep's properties are therefore proved for every
start-sorted permutation of the events. `SortByStart`, a stable insertion
sort, is one admissible outcome. The free time reported does not depend on
which one is chosen.

The model follows the code as written; in particular:

- Overlapping or touching events are not merged. Each kept event gives its
  own busy slot.
- The skip test is strict. An event ending exactly at the window's start is
  kept, as a zero-length busy slot.
- An empty event list gives one free slot, even for a zero-length window. A
  non-empty list over a zero-length window gives no free slot.
- Events that end before they start are not rejected. The sweep copes with
  them: slots stay inside the window.
- Events that end before they start can make free slots overlap. In window
  [0, 100], the events [50, 30] and [60, 70] give free [0, 50) and free
  [30, 60). Free slots still come out in order of their starts, because the
  cursor never moves back.
- The coverage and "free exactly where unoccupied" properties hold for any
  events. They do not need each event's start to be at most its end.

## Model

| member | source | states |
|---|---|---|
| Availability.Sweep | calendar/service.go:283-331 | The cursor walk over a processing order; characterised by SweepWithinWindow, SweepCovers, SweepBusySlots, SweepNoAdjacentFree and SweepFreeIffUnoccupied below |
| Availability.CalculateFreeTimeSlots | calendar/service.go:264-334 | The whole computation, sorting then sweeping; characterised by FreeTimeSlotsCorrect, FreeTimeSlotsBusy, FreeTimeSlotsCover, FreeTimeSlotsFreeShape and FreeTimeOrderIndependent below, and equal to the loop CalculateFreeTimeSlotsLoop |
| Availability.CalculateFreeTimeSlotsLoop | calendar/service.go:264-334 | The Go loop (sort, skip, clip, gap slot, busy slot, cursor advance, final gap) computes exactly the recursive sweep over the sorted events; the empty list returns the whole window as one free slot |
| Availability.SortByStart | calendar/service.go:277-281 | The sort's outcome is ordered by start and is a permutation (same multiset) of the events |
| Availability.SweepWithinWindow | calendar/service.go:289-300 | From a cursor inside the window, every slot's endpoints lie inside [start, end], even for events ending before they start |
| Availability.SweepFreeSlotsNonEmpty | calendar/service.go:302-331 | Every free slot starts at or after the cursor it was emitted from and has start < end |
| Availability.SweepFreeStartsOrdered | calendar/service.go:302-331 | Free slots appear in order of their starts, because the cursor never moves back, even for events that end before they start |
| Availability.SweepNoAdjacentFree | calendar/service.go:302-331 | Two free slots are never next to each other in the output |
| Availability.SweepBusySlots | calendar/service.go:289-316 | The busy slots are exactly the non-skipped events clipped to the window, one each, in processing order: nothing merged, nothing dropped |
| Availability.SweepCovers | calendar/service.go:283-331 | Every instant from the cursor to the window's end lies in some emitted slot, for any order and any events |
| Availability.SweepFreeAvoidsEvents | calendar/service.go:283-331 | For a start-sorted order, no free slot overlaps any event |
| Availability.SweepBusyInsideEvents | calendar/service.go:294-316 | Each busy slot lies inside one of the events |
| Availability.SweepFreeIffUnoccupied | calendar/service.go:264-334 | For a start-sorted order and start <= end, an instant is in a free slot exactly when it is inside [start, end) and no event contains it |
| Availability.KeptClippedSort | calendar/service.go:277-281 | Sorting does not change which clipped events become busy slots (as a multiset) |
| Availability.KeptClippedPermutation | calendar/service.go:277-281 | Any permutation of the events, so any order the unstable sort may leave, keeps the multiset of clipped kept events |
| Availability.FreeTimeSlotsOfNoEvents | calendar/service.go:268-274 | No events give one free slot spanning the window, even a zero-length one |
| Availability.FreeTimeSlotsBusy | calendar/service.go:277-316 | The busy slots are, as a multiset, the kept events clipped to the window, one each, none merged |
| Availability.AnyOrderBusy | calendar/service.go:277-316 | Sweeping any permutation of the events gives, as a multiset, one busy slot per kept event clipped to the window |
| Availability.FreeTimeSlotsFreeShape | calendar/service.go:302-331 | With at least one event, free slots are non-empty, and two free slots are never adjacent |
| Availability.FreeTimeSlotsCover | calendar/service.go:283-331 | Every instant of [start, end) lies in some slot |
| Availability.FreeTimeSlotsCorrect | calendar/service.go:264-334 | With start <= end, every slot is inside the window and an instant is free exactly when it is in [start, end) and no event contains it |
| Availability.FreeTimeOrderIndependent | calendar/service.go:277-281 | Any two start-sorted orders of the same events report the same free instants |
| Availability.OverlappingEventsNotMerged | calendar/service.go:311-316 | Events [20,40) and [10,30) in window [0,100] give free [0,10), busy [10,30), busy [20,40), free [40,100) |
| Availability.TouchingEventKeptAsZeroLength | calendar/service.go:289-300 | An event ending exactly at the window's start is kept as a zero-length busy slot |
| Availability.EmptyListZeroLengthWindow | calendar/service.go:268-274 | A zero-length window gives one free slot for no events, but none when the list holds only a skipped event |
| Service.CheckAvailability | calendar/service.go:51-76 | Succeeds exactly when start <= end and both API calls succeed; start after end is INVALID_TIME_RANGE of category INVALID_INPUT with no details, no cause and text "INVALID_TIME_RANGE: Start time must be before end time"; a client failure is passed on unchanged; a listing failure is wrapped as SERVICE_UNAVAILABLE, INTERNAL_ERROR, with no details, the failure as cause and text "SERVICE_UNAVAILABLE: Failed to retrieve events (caused by: <failure>)"; on success the slots are the sweep of the listed events |
| Service.CheckAvailabilitySlots | calendar/service.go:51-76 | On success every slot lies inside the window and an instant is free exactly when it is in [start, end) and no listed event contains it |
| Service.ValidateEventCreateRequest | calendar/service.go:363-388 | Returns the error of the first failing rule in the order summary, start, end, time order, attendees in list order; no error exactly when the request is valid; every error is INVALID_INPUT with no details and no cause |
| Service.FirstFailureAt | calendar/service.go:363-388 | When rule k fails and no earlier rule fails, rule k's error is the one reported |
| Service.FirstFailureNone | calendar/service.go:363-388 | No error is reported exactly when no rule fails |
| Service.InstantEventAccepted | calendar/service.go:376-378 | A request whose start equals its end (otherwise valid) is accepted |
| Service.SummaryCheckedFirst | calendar/service.go:364-366 | An empty summary is reported (INVALID_EVENT_DATA, "Event summary is required") whatever else is wrong |
| Service.FirstBadAttendeeReported | calendar/service.go:381-385 | Once the fixed checks pass, the error names the first attendee lacking '@' |
| Service.AttendeesFor | calendar/service.go:418-425 | Fresh attendee records, one per address in order, with only the address set |
| Service.Emails | calendar/service.go:343-346 | Reading the addresses of stored attendees keeps their number and order |
| Service.EmailsOfAttendeesFor | calendar/service.go:343-346 | Reading back the addresses of freshly built attendees gives the addresses |
| Service.ApplyEventUpdates | calendar/service.go:391-426 | Each present field overwrites the stored one (times in the configured zone), absent fields are kept, id and status never change; a present attendee list replaces the attendees by the listed addresses with their response status reset |
| Service.EmptyUpdateIsIdentity | calendar/service.go:391-426 | An update with every field absent leaves the event unchanged |
| Service.ApplyIdempotent | calendar/service.go:391-426 | Applying the same update twice equals applying it once |
| Service.ApplyTwiceIsOverlay | calendar/service.go:391-426 | Two updates in a row equal one update in which the later one's present fields win |
| Service.EmptyAttendeeListClears | calendar/service.go:418-425 | A present but empty attendee list clears the attendees |
| Tools.CheckServiceAvailability | calendar/tools.go:519-524 | An error result exactly when no service is configured, with the fixed message |
| Tools.TruncateTowardZero | calendar/tools.go:529 | Go's float-to-int conversion: the result is within one of the value, toward zero |
| Tools.ParseMaxResults | calendar/tools.go:527-533 | Always in 1..250; a value in [1, 251) gives its integer part; absent, below 1 or from 251 on gives 50 |
| Tools.ParseMaxResultsStable | calendar/tools.go:527-533 | Feeding the result back in returns it unchanged |
| Tools.SplitAttendees | calendar/tools.go:180-186 | Exactly (number of commas + 1) entries, entry i being the trimming of the i-th comma-separated piece |
| Tools.SplitAttendeesOfJoin | calendar/tools.go:180-186 | Splitting comma-joined comma-free pieces gives their trimmings back, in order |
| Tools.AttendeesRoundTrip | calendar/tools.go:180-186 | Addresses without commas or white space survive joining with commas and splitting |
| Tools.SplitTrailingSeparator | calendar/tools.go:181 | A trailing comma opens one more, empty, piece |
| Tools.TrailingCommaRejected | calendar/tools.go:180-186 | A trailing comma in the attendee argument yields an empty last address, so the request fails validation |
| Tools.RequireString | calendar/tools.go:140-153 | A required argument succeeds exactly when present, with its value; otherwise the library's message |
| Tools.CreateRequestFromArgs | calendar/tools.go:140-186 | Succeeds exactly when title, start_time and end_time are present and both times parse; each failure (missing title, start_time or end_time, unreadable start_time, unreadable end_time) has its own message, in check order; on success fields are copied and the attendee list is empty exactly when the argument is absent or empty, else the split-and-trimmed pieces |
| Tools.UpdateRequestFromArgs | calendar/tools.go:308-349 | Succeeds exactly when event_id is present and each non-empty time parses; an unreadable start_time or end_time has its own message, start_time first; every update field is unset exactly when its argument is absent or empty and otherwise holds the argument (times parsed); a given attendee list is the split-and-trimmed argument and is never empty |
| Tools.UpdateToolNeverClearsAttendees | calendar/tools.go:343-349 | Through the update tool the stored attendees are either kept (empty argument) or replaced by at least one entry; they cannot be cleared |
| Text.IsSpace | calendar/tools.go:183 | Go's white-space set, the one TrimSpace removes; TrimmingUnique and TrimSpaceOfNoSpace characterise trimming by it |
| Text.TrimLeft | calendar/tools.go:183 | Drops exactly the leading white space: the result is a suffix, the dropped part is white space, and the result does not start with white space |
| Text.TrimRight | calendar/tools.go:183 | Drops exactly the trailing white space, symmetrically |
| Text.TrimSpace | calendar/tools.go:183 | The result is a slice of the input flanked by white space only and neither starting nor ending with white space |
| Text.TrimmingUnique | calendar/tools.go:183 | There is only one such trimming, so the characterisation determines TrimSpace |
| Text.TrimSpaceOfNoSpace | calendar/tools.go:183 | A string without white space is its own trimming |
| Text.Split | calendar/tools.go:181 | Count of separators + 1 pieces, none containing the separator |
| Text.JoinSplit | calendar/tools.go:181 | Joining the pieces back with the separator restores the input |
| Text.SplitJoin | calendar/tools.go:181 | Splitting a join of separator-free pieces gives the pieces back |
| Text.Join | calendar/config.go:98 | Joins pieces with a separator; JoinSplit and SplitJoin show it inverse to Split, JoinStartsWithFirst that it starts with the first piece |
| Text.LowerChar | calendar/config.go:82 | The result is never a capital that lowering would change, so lowering is idempotent (ToLowerIdempotent) |
| Text.ToLower | calendar/config.go:82 | Same length, each character lowered |
| Text.ToLowerIdempotent | calendar/config.go:82 | Lowering twice is lowering once |
| Errors.ErrorText | calendar/errors.go:39-44 | The text of an error; ErrorTextShape states its "code: message" form and the cause suffix |
| Errors.ErrorTextShape | calendar/errors.go:39-44 | The text always starts with "code: message" and equals it exactly when there is no cause, in which case the message can be read back after the code |
| Errors.NewNotFoundError | calendar/errors.go:64-71 | Category NOT_FOUND, the given code, empty details, no cause, text "code: message" |
| Errors.NewPermissionError | calendar/errors.go:73-80 | Category PERMISSION_DENIED, the given code, empty details, no cause |
| Errors.NewInvalidInputError | calendar/errors.go:82-90 | Category INVALID_INPUT and the only constructor that records details |
| Errors.NewQuotaExceededError | calendar/errors.go:92-99 | Category QUOTA_EXCEEDED, empty details, no cause |
| Errors.NewInternalError | calendar/errors.go:101-109 | Category INTERNAL_ERROR, empty details, the given cause, and the cause's text appended when there is one |
| Errors.NewAuthenticationError | calendar/errors.go:111-119 | Category AUTHENTICATION_ERROR, empty details, the given cause |
| Errors.NewNetworkError | calendar/errors.go:121-129 | Category NETWORK_ERROR, empty details, the given cause |
| Errors.NewTimeoutError | calendar/errors.go:131-138 | Category TIMEOUT_ERROR, empty details, no cause |
| Errors.NewConflictError | calendar/errors.go:140-147 | Category CONFLICT_ERROR, empty details, no cause |
| Errors.ToErrorResponse | calendar/errors.go:175-182 | The response copies code and details, its message is the error's text and its type the category's name |
| Errors.NameInjective | calendar/errors.go:10-20 | Distinct categories have distinct names |
| Errors.ResponseRecoversType | calendar/errors.go:175-182 | A response's type field names the error's category and no other |
| Errors.GetErrorType | calendar/errors.go:191-196 | A calendar error's own category; INTERNAL_ERROR for any other error |
| Errors.ErrorResponseFor | calendar/tools.go:536-550 | A calendar error's own response; for any other error code INTERNAL_ERROR, its text as message, no details |
| Config.ConfigFromEnv | calendar/config.go:12-21 | The configuration read from the environment; DefaultsWithOnlyCredentials gives its defaults and LoadedIdAndZoneNeverEmpty shows calendar ID and time zone are never empty |
| Config.GetEnvWithDefault | calendar/config.go:31-36 | The variable's value when set and non-empty, the default exactly when unset or empty |
| Config.ParseBool | calendar/config.go:41 | true exactly for the six true spellings, false exactly for the six false spellings, an error otherwise |
| Config.GetEnvBool | calendar/config.go:39-46 | True exactly when the value is a true spelling, or is not a false spelling and the default is true; the default when unset or empty |
| Config.RuleViolation | calendar/config.go:53-95 | The rule in a given position reports a violation exactly when that violation applies |
| Config.ViolationsFrom | calendar/config.go:49-96 | The violations from a given rule on, each applying violation exactly once, in rule order |
| Config.Violations | calendar/config.go:49-96 | Every applying violation and no other, in rule order; empty exactly when the configuration is valid |
| Config.ValidIffNothingViolated | calendar/config.go:49-102 | A configuration is valid exactly when no rule is violated |
| Config.ValidateConfig | calendar/config.go:49-102 | No error exactly when valid; otherwise one error whose text is the fixed prefix followed by all violation messages joined with "; " |
| Config.ValidationMessageLeadsWithFirstViolation | calendar/config.go:97-99 | The failure text starts with the prefix and the first violated rule's message |
| Config.InlineCredentialsSkipFileCheck | calendar/config.go:57-62 | Credentials starting with "{" are never looked up on the file system: the outcome is the same whatever it says |
| Config.ValidationIgnoresCase | calendar/config.go:74-95 | Log level and environment are accepted regardless of letter case |
| Config.NewConfigurationError | calendar/config.go:105-112 | Category INVALID_INPUT, the given code and cause, no details, text "code: message" with the cause's text appended when there is one |
| Config.LoadConfig | calendar/config.go:11-28 | Fails exactly when the configuration read from the environment is invalid, with CONFIGURATION_ERROR, INVALID_INPUT, no details, the validation error as cause and text "CONFIGURATION_ERROR: Invalid configuration (caused by: <validation text>)"; otherwise returns that configuration |
| Config.LoadConfigErrorText | calendar/config.go:22-25 | A loading failure's text lists every violation message, joined with "; ", after the fixed prefixes |
| Config.MissingCredentialsFail | tests/config_test.go:13-20 | Without credentials loading fails, with the missing-credentials violation |
| Config.LoadedIdAndZoneNeverEmpty | calendar/config.go:14-15 | The loaded calendar ID and time zone are never empty, so their rules never fire while loading |
| Config.InlineCredentialsOnlyLoadsDefaults | tests/config_test.go:22-41 | With only inline credentials set, loading succeeds with calendar "primary", zone "UTC", debugging off |
| Config.IsProduction | calendar/config.go:114-117 | Production implies an accepted environment name and excludes development |
| Config.IsDevelopment | calendar/config.go:119-122 | Development implies an accepted environment name |
| Config.EnvironmentKindsExclusive | calendar/config.go:114-122 | Never both production and development, and the answers ignore letter case |
| Config.GetLogLevel | calendar/config.go:124-127 | Same length, each character lowered, and already in lower case |
| Config.ValidConfigLogLevelIsKnown | calendar/config.go:74-84 | For a valid configuration the log level is one of the five names |
| Config.ConfigString | calendar/config.go:129-133 | Shows the calendar ID right after the fixed prefix |
| Config.ConfigStringOmitsCredentials | calendar/config.go:129-133 | The printable form depends only on calendar ID, time zone, environment and debug flag, never on the credentials |

## Left out

- calendar/auth.go, main.go: credential loading, OAuth2 and JWT clients, and
  server start-up are I/O and foreign libraries.
- RFC 3339 parsing and formatting. Instants are integers of whole seconds,
  and the stored event time is the instant itself, not its text. The silent
  zero-time fallback when an event's time does not parse is not modelled:
  the sweep and its sort discard `time.Parse`'s error and use the zero
  instant it returns, and the model takes already-parsed instants. The update and create handlers take the
  parser as a parameter.
- The Google Calendar API calls: listing, inserting, updating, deleting and
  searching, and the classification of their errors by substrings such as
  "notFound" and "forbidden". `CheckAvailability` takes their outcomes as
  parameters; the other service operations are not modelled.
- JSON encoding of responses and tool registration. `ErrorResponseFor` models
  the record `formatErrorResponse` encodes, not the encoding.
- The all-day `Date` field of an event's start and end. `EventDateTime` holds
  only the date-time and the zone, so the model cannot show that an update
  of the start or end time replaces the whole record and so drops an
  all-day date.
- `convertGoogleEventToEvent` beyond the attendee addresses (`Emails`).
- Go's `unicode.ToLower` beyond ASCII and the two non-ASCII capitals whose
  lower case is ASCII. This is enough to decide membership in the level and
  environment name sets, which are ASCII.
- Strings are sequences of Unicode scalar values; invalid UTF-8 is not
  modelled.
- Tools.TruncateTowardZero: does not model NaN, infinities or values out of
  the 64-bit range, where Go's conversion is implementation-defined.
- Tools.ParseMaxResults: the argument is the number the tool library returns
  (0 when absent). The library's conversion of non-numeric arguments is not
  modelled. No tool handler in the source calls `parseMaxResults`.
- Config.IsProduction: states only that a production answer implies an
  accepted environment name and not development; the function itself is a
  case-insensitive comparison.
- Config.IsDevelopment: states only that a development answer implies an
  accepted environment name; the function itself is a case-insensitive
  comparison.
- Config.ConfigString: states the prefix and, in the companion lemma, what the
  text depends on. The Go `%t` rendering of the debug flag is modelled as
  "true"/"false".
- Errors.IsCalendarError has no contract: it is the test for the calendar
  variant of the error type. Go's nil error has no counterpart.
- Tools.RequireString: tool arguments are strings only (`Args` maps names to
  strings). A present argument of another JSON type makes `RequireString` fail
  with the library's type error rather than its missing-argument error, and
  makes `GetString` fall back to ""; neither is modelled.
- Concurrency and contexts: the operations are sequential and pure.
