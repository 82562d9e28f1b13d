/**
 * The command-execution socket of app/routers/commands.py: the per-message
 * loop of `execute_command_ws`, which frames the output of each command
 * between a start and a done event, and the preset catalogue.
 *
 * The socket is replaced by the sequence of messages the client sends, each
 * paired with how the host process would behave if its command were run;
 * running out of messages is the client disconnecting.
 */
module CommandsRouter {
  import opened Text
  import CS = CommandService

  /** The command-safety settings a connection reads. */
  datatype Settings = Settings(allowedCommandPrefixes: seq<string>, allowCustomCommands: bool, commandTimeout: int)

  /** The defaults of `Settings` in app/config.py. */
  const DEFAULT_SETTINGS := Settings(
    [ "npx @nosana/cli", "nosana", "nvidia-smi", "docker ps", "docker logs",
      "docker stats", "docker inspect", "uptime", "df -h", "free -h",
      "top -bn1", "lscpu", "lsblk", "ip addr", "hostname",
      "cat /etc/os-release", "uname -a" ],
    true, 30)

  /** One `CommandService` per connection, built from the three settings. */
  function ServiceFor(settings: Settings): (svc: CS.Service)
    ensures svc.allowedPrefixes == settings.allowedCommandPrefixes
    ensures svc.allowCustom == settings.allowCustomCommands
    ensures svc.timeout == settings.commandTimeout
  {
    CS.Service(settings.allowedCommandPrefixes, settings.allowCustomCommands, settings.commandTimeout)
  }

  /** A JSON value as far as the loop looks at it: a string, or anything else. */
  datatype Json = JString(text: string) | JOther

  /** What `receive_json` gives: an object, or any other JSON value. */
  datatype Message = Object(fields: map<string, Json>) | NonObject

  /**
   * `data.get("command", "").strip()`: the stripped command, or `None` when
   * evaluating it raises (the message is not an object, or its command is
   * not a string).
   */
  function CommandOf(m: Message): (r: Option<string>)
    ensures r.Some? ==> Strip(r.value) == r.value
  {
    match m
    case NonObject => None
    case Object(fields) =>
      if "command" !in fields then Some("")
      else match fields["command"]
        case JString(s) =>
          StripIdempotent(s);
          Some(Strip(s))
        case JOther => None
  }

  /** The events sent on the socket. */
  datatype Event = ExecError(data: string) | ExecStart(command: string) | ExecOutput(data: string) | ExecDone(command: string)

  /** One received message, and what the host does if its command is run. */
  datatype Turn = Turn(message: Message, host: CS.Spawn)

  /** One `exec_output` per item, in order. */
  function Outputs(lines: seq<string>): (es: seq<Event>)
    ensures |es| == |lines|
    ensures forall i :: 0 <= i < |lines| ==> es[i] == ExecOutput(lines[i])
  {
    seq(|lines|, i requires 0 <= i < |lines| => ExecOutput(lines[i]))
  }

  /** The events around the items of one command. */
  function Frame(command: string, out: seq<string>): (es: seq<Event>)
    ensures |es| == |out| + 2
    ensures es[0] == ExecStart(command) && es[|es| - 1] == ExecDone(command)
    ensures forall i :: 1 <= i < |es| - 1 ==> es[i] == ExecOutput(out[i - 1])
  {
    [ExecStart(command)] + Outputs(out) + [ExecDone(command)]
  }

  /** The events for one stripped command, `out` being what running it yields. */
  function TurnEvents(command: string, out: seq<string>): seq<Event> {
    if command == [] then [ExecError(CS.EMPTY_COMMAND)] else Frame(command, out)
  }

  /** What a session sends, and whether it ended by the server closing the socket after an exception. */
  datatype SessionResult = SessionResult(events: seq<Event>, closed: bool)

  /** How the loop body answers one stripped command. */
  type Reply = (string, CS.Spawn) -> seq<Event>

  /** The loop body of a connection whose service is `svc`. */
  function Replies(svc: CS.Service): Reply {
    (command: string, host: CS.Spawn) => TurnEvents(command, CS.RunOutput(svc, command, host))
  }

  /**
   * The loop over the messages, each answered by `reply`: it stops, closing
   * the socket, at the first message whose command raises.
   */
  function Session(reply: Reply, turns: seq<Turn>): (r: SessionResult)
    ensures r.closed ==> turns != []
    ensures turns != [] && CommandOf(turns[0].message).None? ==> r == SessionResult([], true)
  {
    if turns == [] then SessionResult([], false)
    else match CommandOf(turns[0].message)
      case None => SessionResult([], true)
      case Some(command) =>
        var r := Session(reply, turns[1..]);
        SessionResult(reply(command, turns[0].host) + r.events, r.closed)
  }

  /** The `async for line in ...: send_json(exec_output)` loop. */
  method SendOutputs(sent: seq<Event>, out: seq<string>) returns (events: seq<Event>)
    ensures events == sent + Outputs(out)
  {
    events := sent;
    var j := 0;
    while j < |out|
      invariant 0 <= j <= |out|
      invariant events == sent + Outputs(out[..j])
    {
      assert Outputs(out[..j + 1]) == Outputs(out[..j]) + [ExecOutput(out[j])];
      events := events + [ExecOutput(out[j])];
      j := j + 1;
    }
    assert out[..j] == out;
  }

  /** The loop invariant of `ExecuteSession` carried past a message whose command evaluates. */
  lemma SessionStep(reply: Reply, turns: seq<Turn>, i: nat, sent: seq<Event>, events: seq<Event>)
    requires i < |turns| && CommandOf(turns[i].message).Some?
    requires events == reply(CommandOf(turns[i].message).value, turns[i].host)
    requires Session(reply, turns).events == sent + Session(reply, turns[i..]).events
    requires Session(reply, turns).closed == Session(reply, turns[i..]).closed
    ensures Session(reply, turns).events == (sent + events) + Session(reply, turns[i + 1..]).events
    ensures Session(reply, turns).closed == Session(reply, turns[i + 1..]).closed
  {
    assert turns[i..][1..] == turns[i + 1..];
    var rest := Session(reply, turns[i + 1..]).events;
    assert Session(reply, turns[i..]).events == events + rest;
    Assoc(sent, events, rest);
  }

  /** The loop invariant of `ExecuteSession` at a message whose command raises: the session ends there. */
  lemma SessionStop(reply: Reply, turns: seq<Turn>, i: nat, sent: seq<Event>)
    requires i < |turns| && CommandOf(turns[i].message).None?
    requires Session(reply, turns).events == sent + Session(reply, turns[i..]).events
    requires Session(reply, turns).closed == Session(reply, turns[i..]).closed
    ensures Session(reply, turns) == SessionResult(sent, true)
  {
    assert Session(reply, turns[i..]) == SessionResult([], true);
    assert sent + [] == sent;
  }

  /** The events of one stripped command, as the loop body sends them. */
  method HandleCommand(svc: CS.Service, cmd: string, host: CS.Spawn) returns (events: seq<Event>)
    ensures events == Replies(svc)(cmd, host)
  {
    if cmd == [] {
      events := [ExecError(CS.EMPTY_COMMAND)];
    } else {
      var out, argv, killed := CS.RunCommand(svc, cmd, host);
      events := SendOutputs([ExecStart(cmd)], out);
      events := events + [ExecDone(cmd)];
      assert events == Frame(cmd, out);
    }
  }

  /** One pass of the loop body for a message whose command evaluates, keeping the loop invariant. */
  method Advance(svc: CS.Service, turns: seq<Turn>, i: nat, sent: seq<Event>) returns (events: seq<Event>)
    requires i < |turns| && CommandOf(turns[i].message).Some?
    requires Session(Replies(svc), turns).events == sent + Session(Replies(svc), turns[i..]).events
    requires Session(Replies(svc), turns).closed == Session(Replies(svc), turns[i..]).closed
    ensures Session(Replies(svc), turns).events == events + Session(Replies(svc), turns[i + 1..]).events
    ensures Session(Replies(svc), turns).closed == Session(Replies(svc), turns[i + 1..]).closed
  {
    var reply := HandleCommand(svc, CommandOf(turns[i].message).value, turns[i].host);
    SessionStep(Replies(svc), turns, i, sent, reply);
    events := sent + reply;
  }

  /**
   * `execute_command_ws` after `accept`: for each message, either one
   * `exec_error` for an empty command, or `exec_start`, one `exec_output`
   * per item `run_command` yields, and `exec_done`.
   */
  method ExecuteSession(settings: Settings, turns: seq<Turn>) returns (events: seq<Event>, closed: bool)
    ensures SessionResult(events, closed) == Session(Replies(ServiceFor(settings)), turns)
  {
    var svc := ServiceFor(settings);
    events := [];
    closed := false;
    var i := 0;
    while i < |turns|
      invariant 0 <= i <= |turns|
      invariant Session(Replies(svc), turns).events == events + Session(Replies(svc), turns[i..]).events
      invariant Session(Replies(svc), turns).closed == Session(Replies(svc), turns[i..]).closed
    {
      if CommandOf(turns[i].message).None? {
        SessionStop(Replies(svc), turns, i, events);
        closed := true;
        return;
      }
      events := Advance(svc, turns, i, events);
      i := i + 1;
    }
    assert turns[i..] == [];
  }

  /** A command that is missing, or only whitespace, is the empty command. */
  lemma EmptyCommandIff(m: Message)
    requires m.Object? && ("command" in m.fields ==> m.fields["command"].JString?)
    ensures CommandOf(m) == Some("") <==>
      "command" !in m.fields || AllSpace(m.fields["command"].text)
  {
  }

  /** An empty command is answered with one `exec_error` and nothing else. */
  lemma EmptyCommandOneError(svc: CS.Service, host: CS.Spawn)
    ensures Replies(svc)("", host) == [ExecError("Empty command")]
  {
  }

  /**
   * A non-empty command is framed: `exec_start` and `exec_done` both carry
   * the stripped command, and between them is one `exec_output` per item
   * `run_command` yields for that command (`Frame`).
   */
  lemma CommandFramed(svc: CS.Service, command: string, host: CS.Spawn)
    requires command != []
    ensures Replies(svc)(command, host) == Frame(command, CS.RunOutput(svc, command, host))
  {
  }

  /** The last `exec_output` of a non-empty command is one of the terminal lines. */
  lemma CommandEndsTerminal(svc: CS.Service, command: string, host: CS.Spawn)
    requires command != []
    ensures var es := Frame(command, CS.RunOutput(svc, command, host)); CS.IsTerminal(es[|es| - 2].data)
  {
    CS.RunOutputEndsTerminal(svc, command, host);
    FrameTerminal(command, CS.RunOutput(svc, command, host));
  }

  lemma FrameTerminal(command: string, out: seq<string>)
    requires |out| >= 1 && CS.IsTerminal(out[|out| - 1])
    ensures var es := Frame(command, out); CS.IsTerminal(es[|es| - 2].data)
  {
  }

  /**
   * A command the service refuses is still framed, with the refusal as its
   * only output (the session then goes on, `SessionCons`).
   */
  lemma BlockedStillFramed(svc: CS.Service, command: string, host: CS.Spawn)
    requires command != [] && !CS.ValidateCommand(svc, command).allowed
    ensures Replies(svc)(command, host) ==
      [ExecStart(command), ExecOutput(CS.BlockedLine(CS.ValidateCommand(svc, command).reason)), ExecDone(command)]
  {
    CS.RunBlocked(svc, command, host);
    FrameOne(command, CS.BlockedLine(CS.ValidateCommand(svc, command).reason));
  }

  lemma FrameOne(command: string, line: string)
    ensures Frame(command, [line]) == [ExecStart(command), ExecOutput(line), ExecDone(command)]
  {
    assert Outputs([line]) == [ExecOutput(line)];
  }

  /**
   * A handled message sends its turn's events, whatever they are, and the
   * session goes on with the next message.
   */
  lemma SessionCons(reply: Reply, t: Turn, rest: seq<Turn>)
    requires Handled(t)
    ensures Session(reply, [t] + rest) ==
      SessionResult(reply(CommandOf(t.message).value, t.host) + Session(reply, rest).events, Session(reply, rest).closed)
  {
    var turns := [t] + rest;
    assert turns[0] == t && turns[1..] == rest;
    var command := CommandOf(t.message).value;
    assert CommandOf(turns[0].message) == Some(command);
  }

  /**
   * The events of a session follow the framing protocol: each
   * `exec_start` is followed by `exec_output`s and then an `exec_done` for
   * the same command, and `exec_error` only comes between frames.
   * `open` is the command of the frame in progress.
   */
  predicate Framed(es: seq<Event>, open: Option<string>) {
    if es == [] then open.None?
    else match es[0]
      case ExecError(_) => open.None? && Framed(es[1..], None)
      case ExecStart(c) => open.None? && Framed(es[1..], Some(c))
      case ExecOutput(_) => open.Some? && Framed(es[1..], open)
      case ExecDone(c) => open == Some(c) && Framed(es[1..], None)
  }

  lemma {:induction false} OutputsFramed(lines: seq<string>, c: string, rest: seq<Event>)
    ensures Framed(Outputs(lines) + rest, Some(c)) == Framed(rest, Some(c))
  {
    if lines != [] {
      OutputsFramed(lines[1..], c, rest);
      assert (Outputs(lines) + rest)[0] == ExecOutput(lines[0]);
      assert (Outputs(lines) + rest)[1..] == Outputs(lines[1..]) + rest;
    } else {
      assert Outputs(lines) + rest == rest;
    }
  }

  lemma FrameFramed(command: string, out: seq<string>, rest: seq<Event>)
    ensures Framed(Frame(command, out) + rest, None) == Framed(rest, None)
  {
    var es := Frame(command, out) + rest;
    assert es[1..] == Outputs(out) + ([ExecDone(command)] + rest);
    OutputsFramed(out, command, [ExecDone(command)] + rest);
    assert ([ExecDone(command)] + rest)[1..] == rest;
  }

  /** One turn's events form whole frames. */
  lemma TurnFramed(command: string, out: seq<string>, rest: seq<Event>)
    ensures Framed(TurnEvents(command, out) + rest, None) == Framed(rest, None)
  {
    if command == [] {
      assert ([ExecError(CS.EMPTY_COMMAND)] + rest)[1..] == rest;
    } else {
      FrameFramed(command, out, rest);
    }
  }

  /** Every session, however it ends, sends whole frames. */
  lemma {:induction false} SessionFramed(svc: CS.Service, turns: seq<Turn>)
    ensures Framed(Session(Replies(svc), turns).events, None)
  {
    if turns != [] && CommandOf(turns[0].message).Some? {
      SessionFramed(svc, turns[1..]);
      var command := CommandOf(turns[0].message).value;
      TurnFramed(command, CS.RunOutput(svc, command, turns[0].host), Session(Replies(svc), turns[1..]).events);
    }
  }

  /** A message is handled when its command evaluates without raising. */
  predicate Handled(t: Turn) {
    CommandOf(t.message).Some?
  }

  /**
   * The socket is closed by the server exactly when some message's command
   * raises; otherwise the session runs until the client disconnects.
   */
  lemma {:induction false} SessionClosedIff(reply: Reply, turns: seq<Turn>)
    ensures Session(reply, turns).closed <==> exists k :: 0 <= k < |turns| && !Handled(turns[k])
  {
    if turns != [] {
      SessionClosedIff(reply, turns[1..]);
      if Handled(turns[0]) {
        if exists k :: 0 <= k < |turns| && !Handled(turns[k]) {
          var k :| 0 <= k < |turns| && !Handled(turns[k]);
          assert turns[1..][k - 1] == turns[k];
        }
        if exists k :: 0 <= k < |turns[1..]| && !Handled(turns[1..][k]) {
          var k :| 0 <= k < |turns[1..]| && !Handled(turns[1..][k]);
          assert turns[k + 1] == turns[1..][k];
        }
      }
    }
  }

  /**
   * Messages are handled one after another: a run of handled messages
   * sends its events, then the rest of the session follows unchanged.
   */
  lemma {:induction false} SessionAppend(reply: Reply, a: seq<Turn>, b: seq<Turn>)
    requires forall k :: 0 <= k < |a| ==> Handled(a[k])
    ensures Session(reply, a + b).events == Session(reply, a).events + Session(reply, b).events
    ensures Session(reply, a + b).closed == Session(reply, b).closed
  {
    if a == [] {
      assert a + b == b;
      assert Session(reply, a).events == [];
    } else {
      var t, a' := a[0], a[1..];
      assert forall k :: 0 <= k < |a'| ==> Handled(a'[k]) by {
        forall k | 0 <= k < |a'| ensures Handled(a'[k]) {
          assert a'[k] == a[k + 1];
        }
      }
      SessionAppend(reply, a', b);
      Uncons(a);
      Assoc([t], a', b);
      SessionCons(reply, t, a');
      SessionCons(reply, t, a' + b);
      var e0 := reply(CommandOf(t.message).value, t.host);
      Assoc(e0, Session(reply, a').events, Session(reply, b).events);
    }
  }

  lemma Uncons<T>(x: seq<T>)
    requires x != []
    ensures x == [x[0]] + x[1..]
  {
  }

  /** One entry of the button catalogue; `label` is a Dafny keyword, so its label is `buttonLabel`. */
  datatype Preset = Preset(buttonLabel: string, command: string, description: string, category: string)

  /**
   * `PRESET_COMMANDS`, its keys in insertion order. A command that extends
   * an allowed prefix is written as that prefix followed by the rest.
   */
  const PRESET_COMMANDS: seq<(string, Preset)> := [
    ("node_status", Preset("Node Status", "npx @nosana/cli" + "@latest node view",
      "Display current Nosana node information", "nosana")),
    ("nosana_version", Preset("Nosana Version", "npx @nosana/cli" + "@latest --version",
      "Show Nosana CLI version", "nosana")),
    ("gpu_info", Preset("GPU Info", "nvidia-smi", "Full NVIDIA GPU diagnostic output", "gpu")),
    ("gpu_processes", Preset("GPU Processes", "nvidia-smi" + " --query-compute-apps=pid,name,used_memory --format=csv",
      "Show processes using GPU memory", "gpu")),
    ("disk_usage", Preset("Disk Usage", "df -h", "Show disk space usage", "system")),
    ("memory_usage", Preset("Memory Usage", "free -h", "Show RAM usage", "system")),
    ("docker_ps", Preset("Docker Containers", "docker ps" + " --format 'table {{.Names}}\\t{{.Status}}\\t{{.Image}}'",
      "List running Docker containers", "docker")),
    ("system_uptime", Preset("System Uptime", "uptime", "Show system uptime and load averages", "system")),
    ("os_info", Preset("OS Info", "cat /etc/os-release", "Show operating system details", "system")),
    ("network_info", Preset("Network Info", "ip addr" + " show", "Show network interface configuration", "system"))
  ]

  /** `GET /presets` returns the catalogue unchanged. */
  function GetPresetCommands(): (presets: seq<(string, Preset)>)
    ensures |presets| == 10
    ensures forall i :: 0 <= i < |presets| ==> presets[i].1.command != []
  {
    PRESET_COMMANDS
  }

  lemma StartsWithJoin(s: string, p: string, t: string)
    requires s == p + t
    ensures StartsWith(s, p)
  {
    assert s[..|p|] == p;
  }

  /** The catalogue has ten entries under distinct keys, as a dictionary's are. */
  lemma PresetKeysDistinct()
    ensures |GetPresetCommands()| == 10
    ensures forall i, j :: 0 <= i < j < |GetPresetCommands()| ==> GetPresetCommands()[i].0 != GetPresetCommands()[j].0
  {
  }

  /** The command of preset `i` is an allowed prefix followed by the rest of the command. */
  lemma PresetPrefixAt(i: nat) returns (p: string, t: string)
    requires i < |PRESET_COMMANDS|
    ensures p in DEFAULT_SETTINGS.allowedCommandPrefixes
    ensures PRESET_COMMANDS[i].1.command == p + t
  {
    var ps := DEFAULT_SETTINGS.allowedCommandPrefixes;
    var c := PRESET_COMMANDS[i].1.command;
    var k := [0, 0, 2, 2, 8, 9, 3, 7, 15, 13][i];
    p := ps[k];
    t := c[|p|..];
    assert c == p + t;
  }

  /** Every preset command starts with one of the default allowed prefixes. */
  lemma PresetPrefixes()
    ensures forall i :: 0 <= i < |GetPresetCommands()| ==>
      CS.AnyPrefix(GetPresetCommands()[i].1.command, DEFAULT_SETTINGS.allowedCommandPrefixes)
  {
    forall i | 0 <= i < |PRESET_COMMANDS|
      ensures CS.AnyPrefix(PRESET_COMMANDS[i].1.command, DEFAULT_SETTINGS.allowedCommandPrefixes)
    {
      var p, t := PresetPrefixAt(i);
      StartsWithJoin(PRESET_COMMANDS[i].1.command, p, t);
    }
  }
}
