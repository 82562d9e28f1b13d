/**
 * The command-safety decision and the host-run output protocol of
 * `CommandService` (app/services/command_service.py).
 *
 * `ValidateCommand` is the first-match decision over the blocked patterns,
 * the allowed prefixes and the custom-command flag. `RunCommand` replaces the
 * spawned `nsenter` process by what can be observed of it: whether spawning
 * raised, the outcome of each `readline()` awaited under the timeout, and the
 * exit status reported by `wait()`.
 */
module CommandService {
  import opened Text

  /** Substrings that reject a command whatever else it matches. */
  const BLOCKED_PATTERNS: seq<string> := [
    "rm -rf /", "rm -rf /*", "mkfs", "dd if=", "> /dev/", "chmod 777 /",
    ":(){ :|:&", "shutdown", "reboot", "poweroff", "init 0", "init 6",
    "halt", "kill -9 1", "killall", "pkill -9", "curl | sh", "wget | sh",
    "curl | bash", "wget | bash"
  ]

  /** The argument prefix that re-executes a command in the host's namespaces. */
  const NSENTER_PREFIX: seq<string> := ["nsenter", "-t", "1", "-m", "-u", "-i", "-n", "-p", "--"]

  const EMPTY_COMMAND := "Empty command"
  const BLOCKED_REASON := "Command contains blocked pattern: "
  const PREFIX_REASON := "Matches allowed prefix"
  const CUSTOM_REASON := "Custom commands enabled"
  const NO_PREFIX_REASON := "Command does not match any allowed prefix"

  const TIMEOUT_LINE := "\n[TIMEOUT] Command exceeded time limit.\n"
  const NSENTER_MISSING_LINE := "[ERROR] nsenter not found. Is the container running with --pid=host?\n"

  /** The configuration a `CommandService` is built with. */
  datatype Service = Service(allowedPrefixes: seq<string>, allowCustom: bool, timeout: int)

  datatype Validation = Validation(allowed: bool, reason: string)

  /** The first pattern, in list order, that occurs in `cmd`. */
  function FirstBlocked(cmd: string, patterns: seq<string>): (r: Option<nat>)
    ensures r.Some? ==> r.value < |patterns| && Contains(cmd, patterns[r.value])
    ensures r.Some? ==> forall j :: 0 <= j < r.value ==> !Contains(cmd, patterns[j])
    ensures r.None? ==> forall j :: 0 <= j < |patterns| ==> !Contains(cmd, patterns[j])
  {
    if patterns == [] then None
    else if Contains(cmd, patterns[0]) then Some(0)
    else match FirstBlocked(cmd, patterns[1..])
      case None => None
      case Some(k) => Some(k + 1)
  }

  /** Some prefix of the list starts `cmd`. */
  predicate AnyPrefix(cmd: string, prefixes: seq<string>) {
    exists p :: p in prefixes && StartsWith(cmd, p)
  }

  /** `validate_command`: every check runs on the stripped text. */
  function ValidateCommand(svc: Service, command: string): (r: Validation)
    ensures r.allowed ==> Strip(command) != []
    ensures r.allowed ==> forall p :: p in BLOCKED_PATTERNS ==> !Contains(Strip(command), p)
    ensures r.allowed ==> AnyPrefix(Strip(command), svc.allowedPrefixes) || svc.allowCustom
  {
    var cmd := Strip(command);
    if cmd == [] then Validation(false, EMPTY_COMMAND)
    else match FirstBlocked(cmd, BLOCKED_PATTERNS)
      case Some(k) => Validation(false, BLOCKED_REASON + BLOCKED_PATTERNS[k])
      case None =>
        if AnyPrefix(cmd, svc.allowedPrefixes) then Validation(true, PREFIX_REASON)
        else if svc.allowCustom then Validation(true, CUSTOM_REASON)
        else Validation(false, NO_PREFIX_REASON)
  }

  /** Any command that is blank once stripped is refused as empty. */
  lemma ValidateEmpty(svc: Service, command: string)
    requires AllSpace(command)
    ensures ValidateCommand(svc, command) == Validation(false, EMPTY_COMMAND)
  {
  }

  /**
   * A blocked pattern refuses the command even when an allowed prefix
   * matches it, and the reason names the first pattern in list order.
   */
  lemma ValidateBlockedFirst(svc: Service, command: string, k: nat)
    requires Strip(command) != []
    requires k < |BLOCKED_PATTERNS| && Contains(Strip(command), BLOCKED_PATTERNS[k])
    requires forall j :: 0 <= j < k ==> !Contains(Strip(command), BLOCKED_PATTERNS[j])
    ensures ValidateCommand(svc, command) == Validation(false, BLOCKED_REASON + BLOCKED_PATTERNS[k])
  {
    var r := FirstBlocked(Strip(command), BLOCKED_PATTERNS);
    assert r.Some? && r.value == k;
  }

  /** With no blocked pattern, a matching prefix accepts whatever the custom flag says. */
  lemma ValidatePrefix(svc: Service, command: string, p: string)
    requires Strip(command) != []
    requires forall q :: q in BLOCKED_PATTERNS ==> !Contains(Strip(command), q)
    requires p in svc.allowedPrefixes && StartsWith(Strip(command), p)
    ensures ValidateCommand(svc, command) == Validation(true, PREFIX_REASON)
  {
  }

  /** With no blocked pattern and no matching prefix, the custom flag decides. */
  lemma ValidateNoPrefix(svc: Service, command: string)
    requires Strip(command) != []
    requires forall q :: q in BLOCKED_PATTERNS ==> !Contains(Strip(command), q)
    requires !AnyPrefix(Strip(command), svc.allowedPrefixes)
    ensures ValidateCommand(svc, command) ==
      if svc.allowCustom then Validation(true, CUSTOM_REASON) else Validation(false, NO_PREFIX_REASON)
  {
  }

  /** Exactly the non-blank, unblocked commands that match a prefix or are permitted as custom run. */
  lemma ValidateAllowedIff(svc: Service, command: string)
    ensures ValidateCommand(svc, command).allowed <==>
      && Strip(command) != []
      && (forall p :: p in BLOCKED_PATTERNS ==> !Contains(Strip(command), p))
      && (AnyPrefix(Strip(command), svc.allowedPrefixes) || svc.allowCustom)
  {
    var cmd := Strip(command);
    if cmd != [] && FirstBlocked(cmd, BLOCKED_PATTERNS).Some? {
      var k := FirstBlocked(cmd, BLOCKED_PATTERNS).value;
      assert BLOCKED_PATTERNS[k] in BLOCKED_PATTERNS;
    }
  }

  /** Validation sees only the stripped text: surrounding whitespace never changes the decision. */
  lemma ValidateStripped(svc: Service, command: string)
    ensures ValidateCommand(svc, command) == ValidateCommand(svc, Strip(command))
  {
    StripIdempotent(command);
  }

  /**
   * A command containing `"rm -rf /"` (the first pattern) is refused naming it,
   * whichever allowed prefix it starts with: `"docker ps; rm -rf /"` is one.
   */
  lemma BlockedDespitePrefix(svc: Service, command: string)
    requires exists p :: p in svc.allowedPrefixes && StartsWith(Strip(command), p)
    requires Contains(Strip(command), "rm -rf /")
    ensures ValidateCommand(svc, command) == Validation(false, BLOCKED_REASON + "rm -rf /")
  {
    assert BLOCKED_PATTERNS[0] == "rm -rf /";
    ValidateBlockedFirst(svc, command, 0);
  }

  // ---------------------------------------------------------------------------
  // run_command

  /** An exception raised while spawning or reading: `FileNotFoundError` or any other. */
  datatype Failure = FileNotFound | Raised(message: string)

  /**
   * What one `readline()` awaited under the timeout gives. `Line(text)`
   * carries the line already decoded with `decode("utf-8", errors="replace")`,
   * so `text` is empty exactly when the bytes read are empty, which is end of
   * file.
   */
  datatype ReadOutcome = Line(text: string) | TimedOut | ReadRaised(error: Failure)

  /**
   * What spawning gives: an exception, or a process whose successive reads
   * are `trace` (running out of reads is end of file) and whose status,
   * once waited for, is `exitCode`.
   */
  datatype Spawn = SpawnRaised(error: Failure) | Spawned(trace: seq<ReadOutcome>, exitCode: int)

  function BlockedLine(reason: string): string {
    "[BLOCKED] " + reason + "\n"
  }

  function ExitLine(code: int): string {
    "\n[Exit code: " + IntToString(code) + "]\n"
  }

  function ErrorLine(e: Failure): string {
    match e
    case FileNotFound => NSENTER_MISSING_LINE
    case Raised(m) => "[ERROR] " + m + "\n"
  }

  /** The argv handed to the spawn: the command as passed in, not stripped. */
  function HostArgv(command: string): seq<string> {
    NSENTER_PREFIX + ["bash", "-c", command]
  }

  /** A read that yields a line and lets the loop go on. */
  predicate Continues(r: ReadOutcome) {
    r.Line? && r.text != []
  }

  /** The position of the read that ends the loop, or `|trace|` when the reads run out. */
  function StopIndex(trace: seq<ReadOutcome>): (k: nat)
    ensures k <= |trace|
    ensures forall j :: 0 <= j < k ==> Continues(trace[j])
    ensures k < |trace| ==> !Continues(trace[k])
  {
    if trace == [] || !Continues(trace[0]) then 0 else StopIndex(trace[1..]) + 1
  }

  /** The texts of a run of line reads, in order. */
  function Texts(trace: seq<ReadOutcome>): (ts: seq<string>)
    ensures |ts| == |trace|
    ensures forall i :: 0 <= i < |trace| ==> ts[i] == if trace[i].Line? then trace[i].text else []
  {
    if trace == [] then []
    else Texts(trace[..|trace| - 1]) + [if trace[|trace| - 1].Line? then trace[|trace| - 1].text else []]
  }

  /** The one line that ends the output of a process that was spawned. */
  function Ending(trace: seq<ReadOutcome>, exitCode: int): string {
    var k := StopIndex(trace);
    if k == |trace| then ExitLine(exitCode)
    else match trace[k]
      case Line(_) => ExitLine(exitCode)
      case TimedOut => TIMEOUT_LINE
      case ReadRaised(e) => ErrorLine(e)
  }

  /** The items `run_command` yields, as a function of the validation and the process's behaviour. */
  function RunOutput(svc: Service, command: string, spawn: Spawn): (out: seq<string>)
    ensures |out| >= 1
    ensures !ValidateCommand(svc, command).allowed ==> |out| == 1
  {
    Output(ValidateCommand(svc, command), spawn)
  }

  /** The items yielded once the command has been judged `v`. */
  function Output(v: Validation, spawn: Spawn): (out: seq<string>)
    ensures !v.allowed || spawn.SpawnRaised? ==> |out| == 1
    ensures v.allowed && spawn.Spawned? ==> |out| == StopIndex(spawn.trace) + 1
  {
    if !v.allowed then [BlockedLine(v.reason)]
    else match spawn
      case SpawnRaised(e) => [ErrorLine(e)]
      case Spawned(trace, code) =>
        var k := StopIndex(trace);
        Texts(trace[..k]) + [Ending(trace, code)]
  }

  /** The process is killed exactly when a read timed out before end of file. */
  predicate KilledBy(svc: Service, command: string, spawn: Spawn) {
    && ValidateCommand(svc, command).allowed
    && spawn.Spawned?
    && StopIndex(spawn.trace) < |spawn.trace|
    && spawn.trace[StopIndex(spawn.trace)].TimedOut?
  }

  /** One of the four terminal markers. */
  ghost predicate IsTerminal(s: string) {
    || (exists reason :: s == BlockedLine(reason))
    || (exists code :: s == ExitLine(code))
    || s == TIMEOUT_LINE
    || (exists e :: s == ErrorLine(e))
  }

  /** Every output of `run_command` ends with one terminal marker. */
  lemma OutputEndsTerminal(v: Validation, spawn: Spawn)
    ensures |Output(v, spawn)| >= 1 && IsTerminal(Output(v, spawn)[|Output(v, spawn)| - 1])
  {
    var out := Output(v, spawn);
    if !v.allowed {
      assert out[|out| - 1] == BlockedLine(v.reason);
    } else if spawn.SpawnRaised? {
      assert out[|out| - 1] == ErrorLine(spawn.error);
    } else {
      var trace, code := spawn.trace, spawn.exitCode;
      var k := StopIndex(trace);
      assert out[|out| - 1] == Ending(trace, code);
      if k == |trace| || trace[k].Line? {
        assert Ending(trace, code) == ExitLine(code);
      } else if trace[k].ReadRaised? {
        assert Ending(trace, code) == ErrorLine(trace[k].error);
      }
    }
  }

  /**
   * The read loop of `run_command` over a spawned process: each line read,
   * in order, then the one line that ends it; `killed` when a read timed out.
   */
  method ReadProcess(trace: seq<ReadOutcome>, code: int) returns (out: seq<string>, killed: bool)
    ensures out == Texts(trace[..StopIndex(trace)]) + [Ending(trace, code)]
    ensures killed <==> StopIndex(trace) < |trace| && trace[StopIndex(trace)].TimedOut?
  {
    ghost var k := StopIndex(trace);
    killed := false;
    out := [];
    var i := 0;
    while i < |trace|
      invariant i <= k
      invariant out == Texts(trace[..i])
    {
      match trace[i]
      case Line(t) =>
        if t == [] {
          break;
        }
        assert trace[..i + 1][..i] == trace[..i];
        out := out + [t];
        i := i + 1;
      case TimedOut =>
        assert i == k;
        out := out + [TIMEOUT_LINE];
        killed := true;
        return;
      case ReadRaised(e) =>
        assert i == k;
        out := out + [ErrorLine(e)];
        return;
    }
    assert i == k;
    out := out + [ExitLine(code)];
  }

  /** The `try` block of `run_command` once the command is allowed. */
  method RunSpawned(spawn: Spawn) returns (out: seq<string>, killed: bool)
    ensures out == Output(Validation(true, PREFIX_REASON), spawn)
    ensures killed <==> spawn.Spawned? && StopIndex(spawn.trace) < |spawn.trace| && spawn.trace[StopIndex(spawn.trace)].TimedOut?
  {
    match spawn
    case SpawnRaised(e) =>
      out, killed := [ErrorLine(e)], false;
    case Spawned(trace, code) =>
      out, killed := ReadProcess(trace, code);
  }

  /**
   * `run_command`: yields each line read, in order, and ends with exactly one
   * terminal marker. `argv` is what was spawned (`None` when nothing was) and
   * `killed` tells whether the process was killed.
   */
  method RunCommand(svc: Service, command: string, spawn: Spawn)
    returns (out: seq<string>, argv: Option<seq<string>>, killed: bool)
    ensures out == RunOutput(svc, command, spawn)
    ensures |out| >= 1 && IsTerminal(out[|out| - 1])
    ensures argv == (if ValidateCommand(svc, command).allowed then Some(HostArgv(command)) else None)
    ensures killed <==> KilledBy(svc, command, spawn)
  {
    var v := ValidateCommand(svc, command);
    if !v.allowed {
      out, argv, killed := [BlockedLine(v.reason)], None, false;
    } else {
      argv := Some(HostArgv(command));
      out, killed := RunSpawned(spawn);
    }
    RunOutputEndsTerminal(svc, command, spawn);
  }

  /** `OutputEndsTerminal` for the command as judged by the service. */
  lemma RunOutputEndsTerminal(svc: Service, command: string, spawn: Spawn)
    ensures |RunOutput(svc, command, spawn)| >= 1
    ensures IsTerminal(RunOutput(svc, command, spawn)[|RunOutput(svc, command, spawn)| - 1])
  {
    OutputEndsTerminal(ValidateCommand(svc, command), spawn);
  }

  /** A refused command yields only its `[BLOCKED]` line. */
  lemma RunBlocked(svc: Service, command: string, spawn: Spawn)
    requires !ValidateCommand(svc, command).allowed
    ensures RunOutput(svc, command, spawn) == [BlockedLine(ValidateCommand(svc, command).reason)]
    ensures !KilledBy(svc, command, spawn)
  {
  }

  /**
   * A process that reaches end of file yields every line it wrote, in order,
   * then `[Exit code: N]`; nothing it might write after end of file is read.
   */
  lemma {:induction false} RunToEof(v: Validation, lines: seq<string>, rest: seq<ReadOutcome>, code: int)
    requires v.allowed
    requires forall j :: 0 <= j < |lines| ==> lines[j] != []
    ensures Output(v, Spawned(LineReads(lines) + [Line([])] + rest, code)) == lines + [ExitLine(code)]
    ensures Output(v, Spawned(LineReads(lines), code)) == lines + [ExitLine(code)]
  {
    TextsOfLines(lines);
    var trace := LineReads(lines) + ([Line([])] + rest);
    assert trace == LineReads(lines) + [Line([])] + rest;
    StopAfterLines(lines, [Line([])] + rest);
    assert trace[|lines|] == Line([]);
    assert Ending(trace, code) == ExitLine(code);
    assert trace[..|lines|] == LineReads(lines);
    StopAfterLines(lines, []);
    assert LineReads(lines) + [] == LineReads(lines);
    assert LineReads(lines)[..|lines|] == LineReads(lines);
  }

  /** A read that times out yields `[TIMEOUT]` after the lines before it, and no exit code. */
  lemma {:induction false} RunTimesOut(v: Validation, lines: seq<string>, rest: seq<ReadOutcome>, code: int)
    requires v.allowed
    requires forall j :: 0 <= j < |lines| ==> lines[j] != []
    ensures Output(v, Spawned(LineReads(lines) + [TimedOut] + rest, code)) == lines + [TIMEOUT_LINE]
    ensures StopIndex(LineReads(lines) + [TimedOut] + rest) == |lines|
  {
    TextsOfLines(lines);
    var trace := LineReads(lines) + ([TimedOut] + rest);
    assert trace == LineReads(lines) + [TimedOut] + rest;
    StopAfterLines(lines, [TimedOut] + rest);
    assert trace[|lines|] == TimedOut;
    assert Ending(trace, code) == TIMEOUT_LINE;
    assert trace[..|lines|] == LineReads(lines);
  }

  /**
   * A spawn that raises yields only its `[ERROR]` line: the `nsenter` hint
   * for `FileNotFoundError`, the exception's text for any other.
   */
  lemma RunSpawnRaises(v: Validation, m: string)
    requires v.allowed
    ensures Output(v, SpawnRaised(FileNotFound)) == [NSENTER_MISSING_LINE]
    ensures Output(v, SpawnRaised(Raised(m))) == ["[ERROR] " + m + "\n"]
  {
  }

  /**
   * A read that raises yields the lines before it, then the `[ERROR]` line
   * for its exception, and no exit code.
   */
  lemma {:induction false} RunReadRaises(v: Validation, lines: seq<string>, e: Failure, rest: seq<ReadOutcome>, code: int)
    requires v.allowed
    requires forall j :: 0 <= j < |lines| ==> lines[j] != []
    ensures Output(v, Spawned(LineReads(lines) + [ReadRaised(e)] + rest, code)) ==
      lines + [if e.FileNotFound? then NSENTER_MISSING_LINE else "[ERROR] " + e.message + "\n"]
    ensures StopIndex(LineReads(lines) + [ReadRaised(e)] + rest) == |lines|
  {
    TextsOfLines(lines);
    var trace := LineReads(lines) + ([ReadRaised(e)] + rest);
    assert trace == LineReads(lines) + [ReadRaised(e)] + rest;
    StopAfterLines(lines, [ReadRaised(e)] + rest);
    assert trace[|lines|] == ReadRaised(e);
    assert Ending(trace, code) == ErrorLine(e);
    assert trace[..|lines|] == LineReads(lines);
  }

  /** The reads of a process that writes `lines`. */
  function LineReads(lines: seq<string>): (rs: seq<ReadOutcome>)
    ensures |rs| == |lines|
    ensures forall j :: 0 <= j < |lines| ==> rs[j] == Line(lines[j])
  {
    seq(|lines|, j requires 0 <= j < |lines| => Line(lines[j]))
  }

  lemma {:induction false} StopAfterLines(lines: seq<string>, rest: seq<ReadOutcome>)
    requires forall j :: 0 <= j < |lines| ==> lines[j] != []
    requires rest == [] || !Continues(rest[0])
    ensures StopIndex(LineReads(lines) + rest) == |lines|
    decreases |lines|
  {
    if lines != [] {
      var rs := LineReads(lines) + rest;
      assert rs[1..] == LineReads(lines[1..]) + rest;
      StopAfterLines(lines[1..], rest);
    }
  }

  lemma {:induction false} TextsOfLines(lines: seq<string>)
    ensures Texts(LineReads(lines)) == lines
    decreases |lines|
  {
    if lines != [] {
      var n := |lines| - 1;
      assert LineReads(lines)[..n] == LineReads(lines[..n]);
      TextsOfLines(lines[..n]);
    }
  }

  /** The example of a process writing `"a\n"` and `"b\n"`: three items, the last an exit code. */
  lemma RunTwoLines(v: Validation, code: int)
    requires v.allowed
    ensures Output(v, Spawned([Line("a\n"), Line("b\n")], code)) == ["a\n", "b\n", ExitLine(code)]
  {
    RunToEof(v, ["a\n", "b\n"], [], code);
    assert LineReads(["a\n", "b\n"]) == [Line("a\n"), Line("b\n")];
  }
}
