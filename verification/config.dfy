/** Configuration loading: environment lookups with defaults, the
    accumulating validation of the loaded settings, the wrapping of a
    validation failure into a configuration error, and the derived accessors
    (calendar/config.go). The process environment is a map and the file
    system is reduced to the one question the code asks of it. */
module Config {
  import opened Wrappers
  import opened Text
  import opened Errors

  const DefaultCalendarId := "primary"
  const DefaultTimeZone := "UTC"

  // Names of the environment variables that are read.
  const CredentialsVar := "GOOGLE_CALENDAR_CREDENTIALS_JSON"
  const CalendarIdVar := "GOOGLE_CALENDAR_ID"
  const TimeZoneVar := "GOOGLE_CALENDAR_TIMEZONE"
  const ServerNameVar := "MCP_SERVER_NAME"
  const ServerVersionVar := "MCP_SERVER_VERSION"
  const LogLevelVar := "LOG_LEVEL"
  const EnvironmentVar := "ENVIRONMENT"
  const DebugVar := "DEBUG"

  /** The process environment: variables that are set, with their values. */
  type Environment = map<string, string>

  /** The inputs `os.Stat` reports as not existing; only that answer is
      consulted. */
  type NotExist = string -> bool

  datatype CalendarConfig = CalendarConfig(
    credentialsJson: string,
    calendarId: string,
    timeZone: string,
    serverName: string,
    serverVersion: string,
    logLevel: string,
    environment: string,
    debug: bool)

  /** `os.Getenv`: an unset variable reads as the empty string. */
  function Getenv(env: Environment, key: string): string {
    if key in env then env[key] else ""
  }

  /** A variable's value when it is set to something non-empty, otherwise
      the default. */
  function GetEnvWithDefault(env: Environment, key: string, default: string): (r: string)
    ensures key in env && env[key] != "" ==> r == env[key]
    ensures key !in env || env[key] == "" ==> r == default
  {
    if Getenv(env, key) != "" then Getenv(env, key) else default
  }

  /** Spellings `strconv.ParseBool` accepts. */
  const TrueWords: set<string> := {"1", "t", "T", "TRUE", "true", "True"}
  const FalseWords: set<string> := {"0", "f", "F", "FALSE", "false", "False"}

  /** `strconv.ParseBool`; `None` is its error. */
  function ParseBool(s: string): (r: Option<bool>)
    ensures r == Some(true) <==> s in TrueWords
    ensures r == Some(false) <==> s in FalseWords
  {
    if s in TrueWords then Some(true)
    else if s in FalseWords then Some(false)
    else None
  }

  /** A boolean variable: its parsed value when it parses, the default when
      it is unset, empty or unparsable. */
  function GetEnvBool(env: Environment, key: string, default: bool): (r: bool)
    ensures r <==> Getenv(env, key) in TrueWords || (Getenv(env, key) !in FalseWords && default)
    ensures Getenv(env, key) == "" ==> r == default
  {
    var value := Getenv(env, key);
    if value != "" && ParseBool(value).Some? then ParseBool(value).value else default
  }

  /** The configuration as read from the environment, before validation. */
  function ConfigFromEnv(env: Environment): CalendarConfig {
    CalendarConfig(
      GetEnvWithDefault(env, CredentialsVar, ""),
      GetEnvWithDefault(env, CalendarIdVar, DefaultCalendarId),
      GetEnvWithDefault(env, TimeZoneVar, DefaultTimeZone),
      GetEnvWithDefault(env, ServerNameVar, "Google Calendar MCP Server"),
      GetEnvWithDefault(env, ServerVersionVar, "1.0.0"),
      GetEnvWithDefault(env, LogLevelVar, "info"),
      GetEnvWithDefault(env, EnvironmentVar, "development"),
      GetEnvBool(env, DebugVar, false))
  }

  const ValidLogLevels: set<string> := {"debug", "info", "warn", "error", "fatal"}
  const ValidEnvironments: set<string> := {"development", "staging", "production", "test"}

  /** One broken validation rule. */
  datatype Violation =
    | MissingCredentials
    | CredentialsFileNotFound(path: string)
    | EmptyCalendarId
    | EmptyTimeZone
    | InvalidLogLevel(level: string)
    | InvalidEnvironment(environment: string)
  {
    /** The message collected for this violation. */
    function Message(): string {
      match this
      case MissingCredentials => "GOOGLE_CALENDAR_CREDENTIALS_JSON is required"
      case CredentialsFileNotFound(path) => "Credentials file not found: " + path
      case EmptyCalendarId => "Calendar ID cannot be empty"
      case EmptyTimeZone => "Timezone cannot be empty"
      case InvalidLogLevel(level) =>
        "Invalid log level: " + level + ". Valid levels are: debug, info, warn, error, fatal"
      case InvalidEnvironment(environment) =>
        "Invalid environment: " + environment + ". Valid environments are: development, staging, production, test"
    }

    /** Position of the rule in the order the rules are checked. */
    function Rank(): nat {
      match this
      case MissingCredentials => 0
      case CredentialsFileNotFound(_) => 1
      case EmptyCalendarId => 2
      case EmptyTimeZone => 3
      case InvalidLogLevel(_) => 4
      case InvalidEnvironment(_) => 5
    }
  }

  /** When each violation applies to a configuration, rule by rule. */
  predicate Violates(c: CalendarConfig, notExist: NotExist, v: Violation) {
    match v
    case MissingCredentials => c.credentialsJson == ""
    case CredentialsFileNotFound(path) =>
      && path == c.credentialsJson
      && path != ""
      && !StartsWith(path, "{")
      && notExist(path)
    case EmptyCalendarId => c.calendarId == ""
    case EmptyTimeZone => c.timeZone == ""
    case InvalidLogLevel(level) => level == c.logLevel && ToLower(level) !in ValidLogLevels
    case InvalidEnvironment(environment) =>
      environment == c.environment && ToLower(environment) !in ValidEnvironments
  }

  /** A configuration every rule accepts. */
  predicate ConfigValid(c: CalendarConfig, notExist: NotExist) {
    && c.credentialsJson != ""
    && (StartsWith(c.credentialsJson, "{") || !notExist(c.credentialsJson))
    && c.calendarId != ""
    && c.timeZone != ""
    && ToLower(c.logLevel) in ValidLogLevels
    && ToLower(c.environment) in ValidEnvironments
  }

  /** The rule checked in position `rank`, applied to `c`: the violation
      it reports, if any. */
  function RuleViolation(c: CalendarConfig, notExist: NotExist, rank: nat): (r: Option<Violation>)
    ensures r.Some? ==> r.value.Rank() == rank && Violates(c, notExist, r.value)
    ensures forall v: Violation :: v.Rank() == rank && Violates(c, notExist, v) ==> r == Some(v)
  {
    if rank == 0 then
      if c.credentialsJson == "" then Some(MissingCredentials) else None
    else if rank == 1 then
      if c.credentialsJson != "" && !StartsWith(c.credentialsJson, "{") && notExist(c.credentialsJson)
      then Some(CredentialsFileNotFound(c.credentialsJson)) else None
    else if rank == 2 then
      if c.calendarId == "" then Some(EmptyCalendarId) else None
    else if rank == 3 then
      if c.timeZone == "" then Some(EmptyTimeZone) else None
    else if rank == 4 then
      if ToLower(c.logLevel) !in ValidLogLevels then Some(InvalidLogLevel(c.logLevel)) else None
    else if rank == 5 then
      if ToLower(c.environment) !in ValidEnvironments then Some(InvalidEnvironment(c.environment)) else None
    else None
  }

  /** The violations reported by the rules from position `rank` on, in
      rule order. */
  function ViolationsFrom(c: CalendarConfig, notExist: NotExist, rank: nat): (vs: seq<Violation>)
    ensures forall v: Violation :: v in vs <==> Violates(c, notExist, v) && v.Rank() >= rank
    ensures forall i :: 0 <= i < |vs| ==> vs[i].Rank() >= rank
    ensures forall i, j :: 0 <= i < j < |vs| ==> vs[i].Rank() < vs[j].Rank()
    decreases 6 - rank
  {
    if rank >= 6 then []
    else
      var head := match RuleViolation(c, notExist, rank) case Some(v) => [v] case None => [];
      head + ViolationsFrom(c, notExist, rank + 1)
  }

  /** Every violated rule, collected in the order the rules are checked. */
  function Violations(c: CalendarConfig, notExist: NotExist): (vs: seq<Violation>)
    ensures forall v: Violation :: v in vs <==> Violates(c, notExist, v)
    ensures forall i, j :: 0 <= i < j < |vs| ==> vs[i].Rank() < vs[j].Rank()
    ensures |vs| == 0 <==> ConfigValid(c, notExist)
  {
    var vs := ViolationsFrom(c, notExist, 0);
    ValidIffNothingViolated(c, notExist);
    assert |vs| > 0 ==> Violates(c, notExist, vs[0]);
    vs
  }

  /** A configuration is valid exactly when no violation applies to it. */
  lemma ValidIffNothingViolated(c: CalendarConfig, notExist: NotExist)
    ensures ConfigValid(c, notExist) <==> forall v: Violation :: !Violates(c, notExist, v)
  {
    if !ConfigValid(c, notExist) {
      var v :=
        if c.credentialsJson == "" then MissingCredentials
        else if !(StartsWith(c.credentialsJson, "{") || !notExist(c.credentialsJson))
        then CredentialsFileNotFound(c.credentialsJson)
        else if c.calendarId == "" then EmptyCalendarId
        else if c.timeZone == "" then EmptyTimeZone
        else if ToLower(c.logLevel) !in ValidLogLevels then InvalidLogLevel(c.logLevel)
        else InvalidEnvironment(c.environment);
      assert Violates(c, notExist, v);
    }
  }

  function Texts(vs: seq<Violation>): (ts: seq<string>)
    ensures |ts| == |vs| && forall i :: 0 <= i < |vs| ==> ts[i] == vs[i].Message()
  {
    seq(|vs|, i requires 0 <= i < |vs| => vs[i].Message())
  }

  const ValidationPrefix := "configuration validation failed: "

  /** Checks every rule and reports all violations at once, joined with
      "; "; `None` when the configuration is valid. */
  function ValidateConfig(c: CalendarConfig, notExist: NotExist): (r: Option<Error>)
    ensures r.None? <==> ConfigValid(c, notExist)
    ensures r.Some? ==> r.value == Foreign(ValidationPrefix + Join(Texts(Violations(c, notExist)), "; "))
  {
    var vs := Violations(c, notExist);
    if |vs| > 0 then Some(Foreign(ValidationPrefix + Join(Texts(vs), "; "))) else None
  }

  /** The failure message names the first violated rule right after the
      fixed prefix. */
  lemma ValidationMessageLeadsWithFirstViolation(c: CalendarConfig, notExist: NotExist)
    requires !ConfigValid(c, notExist)
    ensures ValidationPrefix + Violations(c, notExist)[0].Message() <= ValidateConfig(c, notExist).value.text
  {
    var ts := Texts(Violations(c, notExist));
    JoinStartsWithFirst(ts, "; ");
    PrefixExtends(ValidationPrefix, ts[0], Join(ts, "; "));
  }

  /** An inline JSON credential (one starting with "{") is never looked up
      on the file system: the outcome is the same whatever the file system
      says. */
  lemma InlineCredentialsSkipFileCheck(c: CalendarConfig, notExist1: NotExist, notExist2: NotExist)
    requires StartsWith(c.credentialsJson, "{")
    ensures Violations(c, notExist1) == Violations(c, notExist2)
    ensures ValidateConfig(c, notExist1) == ValidateConfig(c, notExist2)
  {
    RulesIgnoreFileSystem(c, notExist1, notExist2, 0);
  }

  /** From any position on, the rules report the same for inline
      credentials whatever the file system says. */
  lemma {:induction false} RulesIgnoreFileSystem(c: CalendarConfig, notExist1: NotExist, notExist2: NotExist, rank: nat)
    requires StartsWith(c.credentialsJson, "{")
    ensures ViolationsFrom(c, notExist1, rank) == ViolationsFrom(c, notExist2, rank)
    decreases 6 - rank
  {
    if rank < 6 {
      RuleIgnoresFileSystem(c, notExist1, notExist2, rank);
      RulesIgnoreFileSystem(c, notExist1, notExist2, rank + 1);
    }
  }

  /** No single rule consults the file system for inline credentials. */
  lemma RuleIgnoresFileSystem(c: CalendarConfig, notExist1: NotExist, notExist2: NotExist, rank: nat)
    requires StartsWith(c.credentialsJson, "{")
    ensures RuleViolation(c, notExist1, rank) == RuleViolation(c, notExist2, rank)
  {
  }

  /** Log level and environment are accepted regardless of letter case. */
  lemma ValidationIgnoresCase(c: CalendarConfig, level: string, environment: string, notExist: NotExist)
    requires ToLower(level) == ToLower(c.logLevel)
    requires ToLower(environment) == ToLower(c.environment)
    ensures ConfigValid(c.(logLevel := level, environment := environment), notExist) <==> ConfigValid(c, notExist)
  {
  }

  /** The wrapper for configuration failures: category INVALID_INPUT with
      the given cause. */
  function NewConfigurationError(code: string, message: string, cause: Option<Error>): (e: CalendarError)
    ensures e.Code() == code && e.Type() == InvalidInput
    ensures e.Details() == "" && e.Unwrap() == cause
    ensures cause.None? ==> e.Error() == code + ": " + message
    ensures cause.Some? ==> e.Error() == code + ": " + message + " (caused by: " + ErrorText(cause.value) + ")"
  {
    CalendarError(code, InvalidInput, message, "", cause)
  }

  const LoadFailedMessage := "Invalid configuration"

  /** Reads and validates the configuration; a validation failure is
      wrapped as CONFIGURATION_ERROR carrying the validation error as its
      cause. */
  function LoadConfig(env: Environment, notExist: NotExist): (r: Result<CalendarConfig, CalendarError>)
    ensures r.Failure? <==> !ConfigValid(ConfigFromEnv(env), notExist)
    ensures r.Success? ==> r.value == ConfigFromEnv(env)
    ensures r.Failure? ==>
      && r.error.Code() == ErrCodeConfigurationError
      && r.error.Type() == InvalidInput
      && r.error.Details() == ""
      && r.error.Unwrap() == ValidateConfig(ConfigFromEnv(env), notExist)
      && r.error.Error() == ErrCodeConfigurationError + ": " + LoadFailedMessage + " (caused by: "
                            + ErrorText(ValidateConfig(ConfigFromEnv(env), notExist).value) + ")"
  {
    var config := ConfigFromEnv(env);
    match ValidateConfig(config, notExist)
    case Some(err) => Failure(NewConfigurationError(ErrCodeConfigurationError, LoadFailedMessage, Some(err)))
    case None => Success(config)
  }

  /** A loading failure's text spells out every violation after the fixed
      message. */
  lemma LoadConfigErrorText(env: Environment, notExist: NotExist)
    requires LoadConfig(env, notExist).Failure?
    ensures LoadConfig(env, notExist).error.Error()
      == ErrCodeConfigurationError + ": " + LoadFailedMessage + " (caused by: "
         + (ValidationPrefix + Join(Texts(Violations(ConfigFromEnv(env), notExist)), "; ")) + ")"
  {
    var c := ConfigFromEnv(env);
    var text := ValidationPrefix + Join(Texts(Violations(c, notExist)), "; ");
    assert ValidateConfig(c, notExist).value == Foreign(text);
    assert ErrorText(Foreign(text)) == text;
  }

  /** Missing (or empty) credentials always make loading fail. */
  lemma MissingCredentialsFail(env: Environment, notExist: NotExist)
    requires Getenv(env, CredentialsVar) == ""
    ensures LoadConfig(env, notExist).Failure?
    ensures MissingCredentials in Violations(ConfigFromEnv(env), notExist)
  {
  }

  /** The calendar ID and time zone read from the environment are never
      empty, so the two emptiness rules never fire during loading. */
  lemma LoadedIdAndZoneNeverEmpty(env: Environment, notExist: NotExist)
    ensures ConfigFromEnv(env).calendarId != "" && ConfigFromEnv(env).timeZone != ""
    ensures EmptyCalendarId !in Violations(ConfigFromEnv(env), notExist)
    ensures EmptyTimeZone !in Violations(ConfigFromEnv(env), notExist)
  {
    var c := ConfigFromEnv(env);
    assert c.calendarId == GetEnvWithDefault(env, CalendarIdVar, DefaultCalendarId);
    assert c.timeZone == GetEnvWithDefault(env, TimeZoneVar, DefaultTimeZone);
    assert !Violates(c, notExist, EmptyCalendarId) && !Violates(c, notExist, EmptyTimeZone);
  }

  /** The configuration read from an environment holding only inline
      credentials: every other setting at its default. */
  lemma DefaultsWithOnlyCredentials(json: string)
    ensures ConfigFromEnv(map[CredentialsVar := json])
      == CalendarConfig(json, "primary", "UTC", "Google Calendar MCP Server", "1.0.0", "info", "development", false)
  {
    var env := map[CredentialsVar := json];
    assert CalendarIdVar !in env && TimeZoneVar !in env && ServerNameVar !in env && ServerVersionVar !in env;
    assert LogLevelVar !in env && EnvironmentVar !in env && DebugVar !in env;
  }

  /** With only inline JSON credentials set, loading succeeds with the
      "primary" calendar, the "UTC" time zone and debugging off. */
  lemma InlineCredentialsOnlyLoadsDefaults(json: string, notExist: NotExist)
    requires StartsWith(json, "{")
    ensures LoadConfig(map[CredentialsVar := json], notExist).Success?
    ensures LoadConfig(map[CredentialsVar := json], notExist).value.calendarId == "primary"
    ensures LoadConfig(map[CredentialsVar := json], notExist).value.timeZone == "UTC"
    ensures !LoadConfig(map[CredentialsVar := json], notExist).value.debug
  {
    DefaultsWithOnlyCredentials(json);
    assert ToLower("info") == "info";
    assert ToLower("development") == "development";
  }

  /** True iff the environment is "development", ignoring case. */
  function IsDevelopment(c: CalendarConfig): (r: bool)
    ensures r ==> ToLower(c.environment) in ValidEnvironments
  {
    ToLower(c.environment) == "development"
  }

  /** True iff the environment is "production", ignoring case; never at the
      same time as development. */
  function IsProduction(c: CalendarConfig): (r: bool)
    ensures r ==> ToLower(c.environment) in ValidEnvironments && !IsDevelopment(c)
  {
    ToLower(c.environment) == "production"
  }

  /** A configuration is never both production and development, and the
      answer does not depend on letter case. */
  lemma EnvironmentKindsExclusive(c: CalendarConfig, environment: string)
    ensures !(IsProduction(c) && IsDevelopment(c))
    ensures ToLower(environment) == ToLower(c.environment) ==>
      IsProduction(c.(environment := environment)) == IsProduction(c)
      && IsDevelopment(c.(environment := environment)) == IsDevelopment(c)
  {
  }

  /** The log level in lower case; for a validated configuration it is one
      of the five level names. */
  function GetLogLevel(c: CalendarConfig): (level: string)
    ensures |level| == |c.logLevel|
    ensures forall i :: 0 <= i < |level| ==> level[i] == LowerChar(c.logLevel[i])
    ensures ToLower(level) == level
  {
    ToLowerIdempotent(c.logLevel);
    ToLower(c.logLevel)
  }

  lemma ValidConfigLogLevelIsKnown(c: CalendarConfig, notExist: NotExist)
    requires ConfigValid(c, notExist)
    ensures GetLogLevel(c) in ValidLogLevels
  {
  }

  const ConfigStringPrefix := "CalendarConfig{CalendarID: "

  function BoolText(b: bool): string {
    if b then "true" else "false"
  }

  /** The printable form of a configuration; it shows the calendar ID right
      after its fixed prefix. */
  function ConfigString(c: CalendarConfig): (s: string)
    ensures ConfigStringPrefix + c.calendarId <= s
  {
    ConfigStringPrefix + c.calendarId + ", TimeZone: " + c.timeZone + ", Environment: " + c.environment
    + ", Debug: " + BoolText(c.debug) + "}"
  }

  /** The printable form depends only on calendar ID, time zone,
      environment and debug flag: the credentials (like the server name,
      version and log level) cannot influence it. */
  lemma ConfigStringOmitsCredentials(a: CalendarConfig, b: CalendarConfig)
    requires a.calendarId == b.calendarId && a.timeZone == b.timeZone
    requires a.environment == b.environment && a.debug == b.debug
    ensures ConfigString(a) == ConfigString(b)
  {
  }
}
