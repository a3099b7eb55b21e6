/** Start-up configuration and the `/search` handler of the `spidermonkey` binary.

    An `AppConfig` starts from built-in defaults, is overlaid with the `scan_settings` record
    of a YAML file when `--config` is given, then with the command-line values, and is finally
    validated. Parsing a duration string (`humantime::parse_duration`) is an external partial
    function, passed in as `parse`; reading the YAML file is external too, and its outcome
    arrives with the command line. */
module Spidermonkey {
  import opened Wrappers
  import opened Text
  import SearchEngine

  /** `std::time::Duration`, in nanoseconds. */
  datatype Duration = Duration(nanos: nat)

  function Seconds(secs: nat): Duration
  {
    Duration(secs * 1_000_000_000)
  }

  /** The `scan_settings` record of the YAML file; every field may be absent. */
  datatype ScanSettings = ScanSettings(
    rescanInterval: Option<string>,
    preScanCommands: Option<seq<string>>,
    scanDirectory: Option<string>,
    excludePatterns: Option<seq<string>>,
    endpoint: Option<string>)

  /** The outcome of reading and parsing the file named by `--config`. */
  datatype ConfigFile = Loaded(settings: ScanSettings) | LoadFailed(reason: string)

  /** The command line: the values of `--directory`, `--endpoint` and `--interval`, and the
      loaded configuration file when `--config` was given. */
  datatype CliMatches = CliMatches(
    directory: Option<string>,
    endpoint: Option<string>,
    interval: Option<string>,
    config: Option<ConfigFile>)

  datatype AppError = ConfigError(reason: string) | EmptyDirectory

  /** The value held by an `AppConfig`. */
  datatype Settings = Settings(
    directory: string,
    endpoint: string,
    preScanCommands: seq<string>,
    interval: Duration,
    excludePatterns: seq<string>)

  /** `AppConfig::new`. */
  function Defaults(): Settings
  {
    Settings("", "127.0.0.1:3000", [], Seconds(30), [".git"])
  }

  /** The interval after offering the duration string `text`: replaced only when `text` is
      present and parses. */
  function Reparse(current: Duration, text: Option<string>, parse: string -> Option<Duration>): (d: Duration)
    ensures text.None? || parse(text.value).None? ==> d == current
    ensures text.Some? && parse(text.value).Some? ==> d == parse(text.value).value
  {
    if text.Some? && parse(text.value).Some? then parse(text.value).value else current
  }

  /** `AppConfig::with_config`: every setting present in the file replaces its field; every
      absent one leaves its field as it was. */
  function ApplyFile(c: Settings, s: ScanSettings, parse: string -> Option<Duration>): (r: Settings)
    ensures s.scanDirectory.None? ==> r.directory == c.directory
    ensures s.scanDirectory.Some? ==> r.directory == s.scanDirectory.value
    ensures s.endpoint.None? ==> r.endpoint == c.endpoint
    ensures s.endpoint.Some? ==> r.endpoint == s.endpoint.value
    ensures s.preScanCommands.None? ==> r.preScanCommands == c.preScanCommands
    ensures s.preScanCommands.Some? ==> r.preScanCommands == s.preScanCommands.value
    ensures s.excludePatterns.None? ==> r.excludePatterns == c.excludePatterns
    ensures s.excludePatterns.Some? ==> r.excludePatterns == s.excludePatterns.value
    ensures r.interval == Reparse(c.interval, s.rescanInterval, parse)
  {
    Settings(
      s.scanDirectory.GetOr(c.directory),
      s.endpoint.GetOr(c.endpoint),
      s.preScanCommands.GetOr(c.preScanCommands),
      Reparse(c.interval, s.rescanInterval, parse),
      s.excludePatterns.GetOr(c.excludePatterns))
  }

  /** `AppConfig::with_cli`: the directory, endpoint and interval given on the command line
      replace theirs; the pre-scan commands and exclude patterns are never touched. */
  function ApplyCli(c: Settings, m: CliMatches, parse: string -> Option<Duration>): (r: Settings)
    ensures m.directory.None? ==> r.directory == c.directory
    ensures m.directory.Some? ==> r.directory == m.directory.value
    ensures m.endpoint.None? ==> r.endpoint == c.endpoint
    ensures m.endpoint.Some? ==> r.endpoint == m.endpoint.value
    ensures r.interval == Reparse(c.interval, m.interval, parse)
    ensures r.preScanCommands == c.preScanCommands && r.excludePatterns == c.excludePatterns
  {
    c.(directory := m.directory.GetOr(c.directory),
       endpoint := m.endpoint.GetOr(c.endpoint),
       interval := Reparse(c.interval, m.interval, parse))
  }

  /** `AppConfig::validate`, which looks at the directory only: it fails exactly when the
      directory is empty once surrounding whitespace is trimmed. */
  function Validate(directory: string): (r: Result<(), AppError>)
    ensures r.Failure? <==> forall k :: 0 <= k < |directory| ==> IsWhitespace(directory[k])
    ensures r.Failure? ==> r.error == EmptyDirectory
  {
    if Trim(directory) == [] then Failure(EmptyDirectory) else Success(())
  }

  /** What `exec_cli` produces: a configuration file that cannot be loaded stops start-up;
      otherwise defaults, then the file, then the command line, then validation. */
  function Effective(m: CliMatches, parse: string -> Option<Duration>): Result<Settings, AppError>
  {
    if m.config.Some? && m.config.value.LoadFailed? then Failure(ConfigError(m.config.value.reason))
    else
      var fromFile := if m.config.Some? then ApplyFile(Defaults(), m.config.value.settings, parse) else Defaults();
      var c := ApplyCli(fromFile, m, parse);
      if Validate(c.directory).Failure? then Failure(EmptyDirectory) else Success(c)
  }

  class AppConfig {
    var directory: string
    var endpoint: string
    var preScanCommands: seq<string>
    var interval: Duration
    var excludePatterns: seq<string>

    function Value(): Settings
      reads this
    {
      Settings(directory, endpoint, preScanCommands, interval, excludePatterns)
    }

    /** `AppConfig::new`: no directory, endpoint 127.0.0.1:3000, no pre-scan commands, a
        30-second interval and ".git" excluded. */
    constructor ()
      ensures directory == "" && endpoint == "127.0.0.1:3000" && preScanCommands == []
      ensures interval == Seconds(30) && excludePatterns == [".git"]
      ensures Value() == Defaults()
    {
      directory := "";
      endpoint := "127.0.0.1:3000";
      preScanCommands := [];
      interval := Seconds(30);
      excludePatterns := [".git"];
    }

    /** `AppConfig::with_config`. */
    method WithConfig(settings: ScanSettings, parse: string -> Option<Duration>)
      modifies this
      ensures Value() == ApplyFile(old(Value()), settings, parse)
    {
      if settings.scanDirectory.Some? {
        directory := settings.scanDirectory.value;
      }
      if settings.endpoint.Some? {
        endpoint := settings.endpoint.value;
      }
      if settings.preScanCommands.Some? {
        preScanCommands := settings.preScanCommands.value;
      }
      if settings.rescanInterval.Some? {
        var dur := parse(settings.rescanInterval.value);
        if dur.Some? {
          interval := dur.value;
        }
      }
      if settings.excludePatterns.Some? {
        excludePatterns := settings.excludePatterns.value;
      }
    }

    /** `AppConfig::with_cli`: may change only the directory, endpoint and interval. */
    method WithCli(matches: CliMatches, parse: string -> Option<Duration>)
      modifies this`directory, this`endpoint, this`interval
      ensures Value() == ApplyCli(old(Value()), matches, parse)
    {
      if matches.directory.Some? {
        directory := matches.directory.value;
      }
      if matches.endpoint.Some? {
        endpoint := matches.endpoint.value;
      }
      if matches.interval.Some? {
        var dur := parse(matches.interval.value);
        if dur.Some? {
          interval := dur.value;
        }
      }
    }
  }

  /** `exec_cli`, from the parsed command line onwards. */
  method ExecCli(matches: CliMatches, parse: string -> Option<Duration>) returns (r: Result<AppConfig, AppError>)
    ensures Effective(matches, parse).Failure? ==> r == Failure(Effective(matches, parse).error)
    ensures Effective(matches, parse).Success? ==>
      r.Success? && fresh(r.value) && r.value.Value() == Effective(matches, parse).value
  {
    var config := new AppConfig();
    if matches.config.Some? {
      match matches.config.value
      case LoadFailed(reason) =>
        return Failure(ConfigError(reason));
      case Loaded(settings) =>
        config.WithConfig(settings, parse);
    }
    config.WithCli(matches, parse);
    var valid := Validate(config.directory);
    if valid.Failure? {
      return Failure(valid.error);
    }
    return Success(config);
  }

  // ---------------------------------------------------------------------------------------
  // Properties of the precedence order

  /** The directory start-up uses: the command line's, else the file's, else none. */
  function ChosenDirectory(m: CliMatches): string
  {
    if m.directory.Some? then m.directory.value
    else if m.config.Some? && m.config.value.Loaded? && m.config.value.settings.scanDirectory.Some? then
      m.config.value.settings.scanDirectory.value
    else ""
  }

  /** Start-up fails exactly when the configuration file cannot be loaded, or when the chosen
      directory is blank; with neither `--directory` nor a file naming one it always fails. */
  lemma StartupFailsIff(m: CliMatches, parse: string -> Option<Duration>)
    ensures Effective(m, parse).Failure? <==>
      || (m.config.Some? && m.config.value.LoadFailed?)
      || forall k :: 0 <= k < |ChosenDirectory(m)| ==> IsWhitespace(ChosenDirectory(m)[k])
    ensures Effective(m, parse).Success? ==> Effective(m, parse).value.directory == ChosenDirectory(m)
    ensures m.directory.None? ==>
      (m.config.None? || m.config.value.LoadFailed? || m.config.value.settings.scanDirectory.None?) ==>
      Effective(m, parse).Failure?
  {
    if !(m.config.Some? && m.config.value.LoadFailed?) {
      var fromFile := if m.config.Some? then ApplyFile(Defaults(), m.config.value.settings, parse) else Defaults();
      assert ApplyCli(fromFile, m, parse).directory == ChosenDirectory(m);
    }
  }

  /** Command-line values win over file values: after both overlays the directory, endpoint
      and a parsable interval are the command line's whatever the file said. */
  lemma CliTakesPrecedence(c: Settings, s: ScanSettings, m: CliMatches, parse: string -> Option<Duration>)
    ensures
      var r := ApplyCli(ApplyFile(c, s, parse), m, parse);
      && (m.directory.Some? ==> r.directory == m.directory.value)
      && (m.endpoint.Some? ==> r.endpoint == m.endpoint.value)
      && (m.interval.Some? && parse(m.interval.value).Some? ==> r.interval == parse(m.interval.value).value)
      && r.preScanCommands == ApplyFile(c, s, parse).preScanCommands
      && r.excludePatterns == ApplyFile(c, s, parse).excludePatterns
  {
  }

  /** The effective interval: the command line's if it parses, else the file's if it parses,
      else 30 seconds. */
  lemma EffectiveInterval(m: CliMatches, parse: string -> Option<Duration>)
    ensures
      var fileText := if m.config.Some? && m.config.value.Loaded? then m.config.value.settings.rescanInterval else None;
      Effective(m, parse).Success? ==>
      Effective(m, parse).value.interval == Reparse(Reparse(Seconds(30), fileText, parse), m.interval, parse)
  {
  }

  /** Applying the same overlay twice is the same as applying it once. */
  lemma OverlaysIdempotent(c: Settings, s: ScanSettings, m: CliMatches, parse: string -> Option<Duration>)
    ensures ApplyFile(ApplyFile(c, s, parse), s, parse) == ApplyFile(c, s, parse)
    ensures ApplyCli(ApplyCli(c, m, parse), m, parse) == ApplyCli(c, m, parse)
  {
  }

  // ---------------------------------------------------------------------------------------
  // search_handler

  /** The JSON body of a `/search` reply: the results, and whether it carries the "time" key. */
  datatype Response = Response(results: seq<SearchEngine.SearchResult>, timed: bool)

  /** `search_handler`: a failed search is answered with an empty result list, never with an
      error; a successful one passes its results through. */
  function SearchHandler(outcome: Result<SearchEngine.SearchResults, SearchEngine.SearchError>): (resp: Response)
    ensures outcome.Failure? ==> resp == Response([], false)
    ensures outcome.Success? ==> resp == Response(outcome.value.results, true)
  {
    match outcome
    case Success(value) => Response(value.results, true)
    case Failure(_) => Response([], false)
  }

  /** The reply to a query is empty exactly when the query failed or every match was dropped
      for want of a cached line. */
  lemma HandlerEmptyIff(engine: SearchEngine.CodeSearchEngine, matches: Result<seq<nat>, SearchEngine.SearchError>)
    requires SearchEngine.WellFormed(engine)
    requires matches.Success? ==> SearchEngine.ValidAddresses(engine, matches.value)
    ensures SearchHandler(SearchEngine.SearchOutcome(engine, matches)).results == [] <==>
      || matches.Failure?
      || SearchEngine.Assemble(engine.linesMap, SearchEngine.Retrieve(engine, matches.value)) == []
  {
  }
}
