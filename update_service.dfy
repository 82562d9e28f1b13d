/**
 * The self-update service (app/services/update_service.py): how the status
 * of an update is read off the host's update log, and the shape of the
 * results of `trigger_update` and `get_update_status`.
 *
 * Running the update script and reading the log are host I/O: the model
 * takes their outcome as a parameter. The bytes of the log are decoded by
 * the abstract `decode`, as UTF-8 with replacement.
 */
module UpdateService {
  import opened Text

  /** The line the update script writes last when everything went through. */
  const UPDATE_COMPLETE := "Update complete"

  /** The word, in any case, that marks a failed step in the log. */
  const FAILED := "failed"

  /** What `trigger_update` answers when the script was launched. */
  const LAUNCHED_MESSAGE := "Update launched on host"

  /** The tag the new image gets. */
  const LATEST_TAG := ":latest"

  /** The `status` of an update; `Unknown` when the log could not be read. */
  datatype Status = Complete | Failed | Updating | Unknown

  /** The text the `status` field carries. */
  function StatusName(s: Status): (name: string) {
    match s
    case Complete => "complete"
    case Failed => "failed"
    case Updating => "updating"
    case Unknown => "unknown"
  }

  /** What `get_update_status` returns: `{"status": ..., "log": ...}`. */
  datatype UpdateStatus = UpdateStatus(status: Status, log: string)

  /** How reading the log on the host ended: its standard output, or the exception raised. */
  datatype LogRead = Communicated(stdout: seq<Byte>) | Raised(message: string)

  /**
   * The status of a stripped log: `complete` as soon as the script's last
   * line is there, otherwise `failed` when the lower-cased log mentions
   * `failed`, otherwise `updating`.
   */
  function ClassifyStatus(log: string): (s: Status)
    ensures s != Unknown
    ensures s == Complete <==> Occurs(UPDATE_COMPLETE, log)
  {
    var done := Contains(log, UPDATE_COMPLETE);
    var failed := Contains(Lower(log), FAILED);
    if done then Complete else if failed then Failed else Updating
  }

  /** `get_update_status`: the status and stripped log, or `unknown` with the exception's text. */
  function GetUpdateStatus(read: LogRead, decode: seq<Byte> -> string): (r: UpdateStatus)
    ensures r.status == Unknown <==> read.Raised?
    ensures read.Raised? ==> r.log == read.message
    ensures read.Communicated? ==> r.log == Strip(decode(read.stdout)) && r.status == ClassifyStatus(r.log)
  {
    match read
    case Raised(message) => UpdateStatus(Unknown, message)
    case Communicated(stdout) =>
      var log := Strip(decode(stdout));
      UpdateStatus(ClassifyStatus(log), log)
  }

  /** How waiting for the launch ended: the launcher exited, or an exception was raised. */
  datatype Launch = Launched | LaunchRaised(message: string)

  /** The two outcomes of `trigger_update`. */
  datatype TriggerStatus = Started | Error

  /** The text the `status` field of `trigger_update`'s answer carries. */
  function TriggerStatusName(s: TriggerStatus): (name: string) {
    match s
    case Started => "started"
    case Error => "error"
  }

  /** `{"status": ..., "message": ...}` */
  datatype TriggerResult = TriggerResult(status: TriggerStatus, message: string)

  /** The values filled into the update script. */
  datatype ScriptParameters = ScriptParameters(container: string, image: string, tarballUrl: string)

  /** The image the script builds: the container's name tagged `latest`. */
  function ImageOf(container: string): (image: string)
    ensures |image| == |container| + |LATEST_TAG|
    ensures image[..|container|] == container && image[|container|..] == LATEST_TAG
  {
    container + LATEST_TAG
  }

  /**
   * `trigger_update`: the parameters the script is formatted with, and the
   * answer, `started` when the launch went through and `error` with the
   * exception's text otherwise.
   */
  function TriggerUpdate(container: string, tarballUrl: string, launch: Launch): (r: (ScriptParameters, TriggerResult))
    ensures r.0.container == container && r.0.tarballUrl == tarballUrl
    ensures r.0.image == ImageOf(container)
    ensures r.1.status == Started <==> launch.Launched?
    ensures r.1.message == if launch.Launched? then LAUNCHED_MESSAGE else launch.message
  {
    var parameters := ScriptParameters(container, ImageOf(container), tarballUrl);
    match launch
    case Launched => (parameters, TriggerResult(Started, LAUNCHED_MESSAGE))
    case LaunchRaised(message) => (parameters, TriggerResult(Error, message))
  }

  /**
   * The attributes the settings class declares. Reading any other attribute
   * of `settings` raises `AttributeError`.
   */
  const SETTINGS_FIELDS: set<string> := {
    "HOST", "PORT", "DEBUG", "DOCKER_SOCKET", "NOSANA_CONTAINER_PATTERN", "HAS_GPU",
    "ALLOWED_COMMAND_PREFIXES", "ALLOW_CUSTOM_COMMANDS", "COMMAND_TIMEOUT"}

  /** What a call of `trigger_update` gives: its answer, or the `AttributeError` raised before its `try`. */
  datatype TriggerOutcome = Answered(parameters: ScriptParameters, result: TriggerResult) | RaisedAttributeError(name: string)

  /**
   * `trigger_update` as written, against settings whose attributes (by name,
   * with the text of their values) are `settings`: the script's values are
   * read before the `try`, container name first, so a missing one raises.
   */
  function TriggerUpdateAsWritten(settings: map<string, string>, launch: Launch): (r: TriggerOutcome)
    ensures r.RaisedAttributeError? <==> "CONTAINER_NAME" !in settings || "REPO_TARBALL_URL" !in settings
    ensures r.Answered? ==>
      (r.parameters, r.result) == TriggerUpdate(settings["CONTAINER_NAME"], settings["REPO_TARBALL_URL"], launch)
  {
    if "CONTAINER_NAME" !in settings then RaisedAttributeError("CONTAINER_NAME")
    else if "REPO_TARBALL_URL" !in settings then RaisedAttributeError("REPO_TARBALL_URL")
    else
      var (parameters, result) := TriggerUpdate(settings["CONTAINER_NAME"], settings["REPO_TARBALL_URL"], launch);
      Answered(parameters, result)
  }

  /**
   * With the settings class as declared, `trigger_update` never answers:
   * reading the container name raises, whatever the launch would have done.
   */
  lemma DeclaredSettingsRaise(settings: map<string, string>, launch: Launch)
    requires settings.Keys <= SETTINGS_FIELDS
    ensures TriggerUpdateAsWritten(settings, launch) == RaisedAttributeError("CONTAINER_NAME")
  {
    assert "CONTAINER_NAME" !in SETTINGS_FIELDS;
  }

  /** `word` is in `log` at position `i`, ignoring ASCII case. */
  ghost predicate MatchesAnyCase(log: string, word: string, i: int) {
    0 <= i <= |log| - |word| && Lower(log[i..i + |word|]) == word
  }

  /** Lower-casing commutes with taking a slice. */
  lemma LowerSlice(log: string, i: int, j: int)
    requires 0 <= i <= j <= |log|
    ensures Lower(log)[i..j] == Lower(log[i..j])
  {
  }

  /** `"failed" in log.lower()` holds exactly when `failed` occurs in the log in some mix of cases. */
  lemma FailedAnyCaseIff(log: string)
    ensures Contains(Lower(log), FAILED) <==> exists i :: MatchesAnyCase(log, FAILED, i)
  {
    if Contains(Lower(log), FAILED) {
      var i :| MatchAt(Lower(log), FAILED, i);
      LowerSlice(log, i, i + |FAILED|);
      assert MatchesAnyCase(log, FAILED, i);
    }
    if exists i :: MatchesAnyCase(log, FAILED, i) {
      var i :| MatchesAnyCase(log, FAILED, i);
      LowerSlice(log, i, i + |FAILED|);
      assert MatchAt(Lower(log), FAILED, i);
    }
  }

  /** A log holding the script's last line is `complete`, whatever else it says. */
  lemma CompleteWins(log: string, i: int)
    requires 0 <= i <= |log| - |UPDATE_COMPLETE| && log[i..i + |UPDATE_COMPLETE|] == UPDATE_COMPLETE
    ensures ClassifyStatus(log) == Complete
  {
    assert MatchAt(log, UPDATE_COMPLETE, i);
  }

  /** Without the last line, `failed` in any case makes the status `failed`. */
  lemma FailedInAnyCase(log: string, i: int)
    requires !Occurs(UPDATE_COMPLETE, log)
    requires MatchesAnyCase(log, FAILED, i)
    ensures ClassifyStatus(log) == Failed
  {
    FailedAnyCaseIff(log);
  }

  /** The status is `updating` exactly when neither the last line nor `failed`, in any case, is in the log. */
  lemma UpdatingIff(log: string)
    ensures ClassifyStatus(log) == Updating <==>
      !Occurs(UPDATE_COMPLETE, log) && forall i :: !MatchesAnyCase(log, FAILED, i)
  {
    FailedAnyCaseIff(log);
  }

  /** The log returned after a read has no surrounding whitespace, and its status is the one the returned log itself gives. */
  lemma StatusLogStripped(stdout: seq<Byte>, decode: seq<Byte> -> string)
    ensures var r := GetUpdateStatus(Communicated(stdout), decode);
      Strip(r.log) == r.log && r.status == ClassifyStatus(Strip(r.log))
  {
    StripIdempotent(decode(stdout));
  }
}
