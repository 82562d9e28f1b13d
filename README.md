# NOSweb-B core, modelled in Dafny

NOSweb-B is a small web dashboard for a GPU host running a Nosana node. It
lets an operator run vetted shell commands on the host, follow container
logs, and read GPU and update status. This project models the parts of it
that make decisions or move data step by step, and proves what they promise:

- **Command safety and host execution** (`command_service.dfy`, module
  `CommandService`). `ValidateCommand` is the first-match decision of
  `validate_command`: a blank command is refused, then any blocked pattern
  refuses it, then an allowed prefix accepts it, then the custom-command flag
  decides. `RunCommand` is `run_command` over an abstract process. The
  process is the outcome of spawning, the outcome of each `readline()` under
  the timeout, and the exit status. The output is every line read, in
  order, then exactly one terminal marker (`[BLOCKED]`, `[Exit code: N]`,
  `[TIMEOUT]` or `[ERROR]`).
- **The command socket** (`commands_router.dfy`, module `CommandsRouter`).
  `ExecuteSession` is the `while True` loop of `execute_command_ws` over the
  messages a client sends. An empty command gets one `exec_error`. Any other
  command is framed by `exec_start` and `exec_done`, with one `exec_output`
  per line between them. A message whose command cannot be read ends the
  session with the socket closed. The preset catalogue is here too, and it
  is proved consistent with the default allowed prefixes.
- **The log bridge** (`docker_logs.dfy`, module `DockerLogs`). `ReadLogs` is
  the blocking reader `_read_logs`. It buffers decoded chunks and puts each
  complete line on a queue (`BridgeQueue`), then the leftover or an error
  marker, then the sentinel. `Consume` is the consumer loop. `HandleLogSession`
  is `stream_container_logs` with its entry failures.
- **The Docker service** (`docker_service.dfy`, module `DockerService`). The
  `DockerService` class holds `list_containers` with its name filter and
  projection, `list_all_containers`, and the log-source lookup
  `stream_logs`. The Docker engine is abstract.
- **The `nvidia-smi` parser** (`gpu_service.dfy`, module `GpuService`). This
  is `_parse_nvidia_smi`. It makes one record per well-formed CSV line, and a
  malformed line is skipped without affecting the others.
- **The update status** (`update_service.dfy`, module `UpdateService`). This
  covers how `get_update_status` classifies the host's update log, and the
  results of `trigger_update` and `get_update_status`.
- **Python string semantics** (`text.dfy`, module `Text`). `str.strip` with
  Python's whitespace set, `in`, `startswith`, `split` on one character,
  `join`, ASCII `lower`, `int()` in base 10 and `str()` of an integer.

Some behaviours of the code are easy to misread, and the model follows the
code in each:

- The checks of `validate_command` run on the stripped command
  (app/services/command_service.py:111). The spawned process gets the
  command as it was given (app/services/command_service.py:139).
- The `[BLOCKED]` item ends with a newline (app/services/command_service.py:136).
- A `FileNotFoundError` raised anywhere in the `try` block, including while
  reading, gives the `nsenter not found` line
  (app/services/command_service.py:141-166).
- A message whose `command` cannot be evaluated is not answered with an
  error event. It raises out of the loop, and the server closes the socket
  (app/routers/commands.py:28-29, 54-60).
- Looking up a container's image (`c.image`, app/services/docker_service.py:38)
  is outside the `try` of `list_containers`, so a failed image lookup
  propagates to the caller.
- A container that does not exist is reported as the service being
  unavailable, not as not found. See "Findings".
- `trigger_update` reads settings that the settings class does not declare.
  See "Findings".

## Model

| member | source | states |
|---|---|---|
| CommandService.FirstBlocked | app/services/command_service.py:116-119 | the pattern found is the first, in list order, that occurs in the command; `None` exactly when no pattern occurs |
| CommandService.ValidateCommand | app/services/command_service.py:109-130 | an accepted command is non-blank once stripped, contains no blocked pattern, and matches an allowed prefix or custom commands are enabled |
| CommandService.ValidateEmpty | app/services/command_service.py:111-114 | a command that is only whitespace is refused with reason `Empty command` |
| CommandService.ValidateBlockedFirst | app/services/command_service.py:116-119 | a command containing a blocked pattern is refused, whatever prefix it has, and the reason names the first pattern in list order |
| CommandService.ValidatePrefix | app/services/command_service.py:121-124 | with no blocked pattern, a matching allowed prefix accepts with `Matches allowed prefix`, whatever the custom flag says |
| CommandService.ValidateNoPrefix | app/services/command_service.py:126-130 | with no blocked pattern and no matching prefix, the result is `Custom commands enabled` if custom commands are allowed, and otherwise a refusal with `Command does not match any allowed prefix` |
| CommandService.ValidateAllowedIff | app/services/command_service.py:109-130 | a command is allowed exactly when it is non-blank, unblocked, and matches a prefix or custom commands are allowed |
| CommandService.ValidateStripped | app/services/command_service.py:111 | the decision for a command and for its stripped text are the same |
| CommandService.BlockedDespitePrefix | app/services/command_service.py:116-124 | a command with an allowed prefix that contains `rm -rf /` is refused naming that pattern |
| CommandService.StopIndex | app/services/command_service.py:148-160 | the loop stops at the first read that is not a non-empty line; every read before it yields a line |
| CommandService.Texts | app/services/command_service.py:150-156 | the item yielded for each read is the line's text, one per read |
| CommandService.Output | app/services/command_service.py:134-168 | a refusal or a failed spawn yields one item; a spawned process yields one item per line read before the stop, plus one ending line |
| CommandService.OutputEndsTerminal | app/services/command_service.py:134-168 | every output of `run_command` is non-empty and its last item is one terminal marker |
| CommandService.ReadProcess | app/services/command_service.py:148-163 | the read loop yields the text of every line read before the stop, in order, then the one ending line; it kills the process exactly when the stopping read timed out |
| CommandService.RunSpawned | app/services/command_service.py:139-168 | the `try` block for an allowed command gives the output the process's behaviour determines, and kills exactly on a timeout |
| CommandService.RunCommand | app/services/command_service.py:132-168 | `run_command` yields the output the validation and the process determine, ending with one terminal marker; it spawns `NSENTER_PREFIX + ["bash", "-c", command]` with the unstripped command exactly when the command is allowed, and nothing otherwise |
| CommandService.RunOutput | app/services/command_service.py:132-168 | `run_command` yields at least one item, and exactly one for a refused command |
| CommandService.RunBlocked | app/services/command_service.py:134-137 | a refused command yields only `[BLOCKED] <reason>\n` and nothing is killed |
| CommandService.RunToEof | app/services/command_service.py:148-163 | a process that reaches end of file yields all its lines in order, then `\n[Exit code: N]\n`; nothing after the empty read is read |
| CommandService.RunSpawnRaises | app/services/command_service.py:141-168 | a spawn that raises yields only the `[ERROR]` line: the `nsenter` hint for `FileNotFoundError`, `[ERROR] <message>` for any other exception |
| CommandService.RunReadRaises | app/services/command_service.py:148-168 | a read that raises yields the lines before it, then the `[ERROR]` line for that exception, and no exit code |
| CommandService.RunTimesOut | app/services/command_service.py:148-160 | a timed-out read yields the lines before it, then `\n[TIMEOUT] Command exceeded time limit.\n`, and no exit code |
| CommandService.RunTwoLines | app/services/command_service.py:148-163 | a process writing `a\n` and `b\n` yields exactly those two lines and one exit-code line |
| CommandService.RunOutputEndsTerminal | app/services/command_service.py:132-168 | whatever the command and the process, the output is non-empty and ends with one terminal marker |
| CommandService.StopAfterLines | app/services/command_service.py:148-160 | reads of non-empty lines keep the loop going, and it stops at the first read after them that is empty, timed out or failed |
| CommandService.TextsOfLines | app/services/command_service.py:150-156 | the texts yielded for reads of lines are those lines |
| CommandsRouter.ServiceFor | app/routers/commands.py:20-24 | the service is built from the allowed prefixes, the custom-command flag and the timeout of the settings |
| CommandsRouter.CommandOf | app/routers/commands.py:28-29 | the command read from a message is always stripped |
| CommandsRouter.EmptyCommandIff | app/routers/commands.py:29-31 | the command is empty exactly when the field is missing or only whitespace |
| CommandsRouter.Outputs | app/routers/commands.py:43-47 | one `exec_output` per item, in order, carrying the item |
| CommandsRouter.Frame | app/routers/commands.py:38-52 | a frame opens with `exec_start` and closes with `exec_done`, both carrying the command, with each item as `exec_output` between them |
| CommandsRouter.SendOutputs | app/routers/commands.py:43-47 | the `async for` loop appends one `exec_output` per item to what was sent |
| CommandsRouter.HandleCommand | app/routers/commands.py:31-52 | the loop body sends for a stripped command exactly the events `Session` gives that command |
| CommandsRouter.Advance | app/routers/commands.py:27-52 | one pass of the loop body keeps the session's events equal to those sent so far followed by the rest of the session |
| CommandsRouter.ExecuteSession | app/routers/commands.py:15-60 | the loop sends exactly the events of `Session` over the messages, and closes the socket exactly when `Session` does |
| CommandsRouter.Session | app/routers/commands.py:26-60 | the socket is closed only after some message, and a first message whose command cannot be evaluated closes it with nothing sent |
| CommandsRouter.EmptyCommandOneError | app/routers/commands.py:31-36 | an empty command gets exactly one `exec_error` with `Empty command` |
| CommandsRouter.CommandFramed | app/routers/commands.py:38-52 | a non-empty command is framed, and its outputs are exactly what `run_command` yields for the stripped command |
| CommandsRouter.CommandEndsTerminal | app/routers/commands.py:43-52 | the last `exec_output` of a non-empty command is a terminal marker |
| CommandsRouter.BlockedStillFramed | app/routers/commands.py:38-52 | a refused command is still framed by start and done, with the `[BLOCKED]` line as its only output |
| CommandsRouter.SessionCons | app/routers/commands.py:27-36 | after a handled message the session goes on with the next one |
| CommandsRouter.TurnFramed | app/routers/commands.py:31-52 | the events of one message form whole frames |
| CommandsRouter.SessionFramed | app/routers/commands.py:26-60 | every session, however it ends, sends a sequence of whole frames and `exec_error`s between them |
| CommandsRouter.SessionClosedIff | app/routers/commands.py:54-60 | the server closes the socket exactly when some message's command cannot be evaluated |
| CommandsRouter.SessionAppend | app/routers/commands.py:27-52 | handled messages are answered one after another: the session of `a + b` is the events of `a` followed by the session of `b` |
| CommandsRouter.SessionStep | app/routers/commands.py:27-52 | after the events of a handled message are sent, what is left to send is the session of the remaining messages |
| CommandsRouter.SessionStop | app/routers/commands.py:28-60 | a message whose command cannot be evaluated ends the session closed, after exactly what was sent before it |
| CommandsRouter.FrameOne | app/routers/commands.py:38-52 | a one-line output is sent as start, that line, done |
| CommandsRouter.FrameTerminal | app/routers/commands.py:43-52 | the event just before `exec_done` carries the terminal marker |
| CommandsRouter.OutputsFramed | app/routers/commands.py:43-47 | `exec_output` events keep an open frame open |
| CommandsRouter.FrameFramed | app/routers/commands.py:38-52 | a frame opens and closes on the same command, leaving nothing open |
| CommandsRouter.PresetKeysDistinct | app/services/command_service.py:6-67 | the catalogue has ten entries under distinct keys |
| CommandsRouter.GetPresetCommands | app/routers/commands.py:8-11 | the catalogue returned has ten entries, each with a non-empty command |
| CommandsRouter.PresetPrefixAt | app/services/command_service.py:6-67 | the command of each preset is one of the default allowed prefixes followed by the rest of the command |
| CommandsRouter.PresetPrefixes | app/config.py:18-36 | every preset command starts with one of the default allowed prefixes, so each preset passes the prefix check |
| DockerService.Project | app/services/docker_service.py:38-45 | once `c.image` is found, the dictionary of a container carries its short id, name and status, its first tag or `unknown` as image, and its `Created` attribute or an empty text as creation time |
| DockerService.ProjectAll | app/services/docker_service.py:34-46 | one dictionary per container, in order |
| DockerService.SelectedMembers | app/services/docker_service.py:35-37 | a container is kept exactly when it is listed and the pattern is empty or occurs in its name |
| DockerService.SelectedConcat | app/services/docker_service.py:35-37 | filtering keeps listing order |
| DockerService.EmptyPatternKeepsAll | app/services/docker_service.py:48-50 | the empty pattern keeps every container, in order |
| DockerService.StreamLogsReadings | app/services/docker_service.py:52-68 | `stream_logs` as written returns a source exactly when the lookup succeeds, and `None` exactly where a propagating lookup would raise or the service is down |
| DockerService.DockerService.constructor | app/services/docker_service.py:9-18 | a failed connection leaves the service unavailable with no client |
| DockerService.Selected | app/services/docker_service.py:35-37 | the filter keeps only containers whose name the pattern admits, and never more than were listed |
| DockerService.FirstImageFailure | app/services/docker_service.py:34-38 | the position of the first container whose image lookup raises; every image before it is found |
| DockerService.ListKept | app/services/docker_service.py:34-46 | the loop over the kept containers raises exactly when some kept container's image lookup raises, and otherwise returns their dictionaries |
| DockerService.KeptImagesAgree | app/services/docker_service.py:34-46 | listing raises exactly when a container that passes the name filter has an image lookup that raises |
| DockerService.ImageFailurePropagates | app/services/docker_service.py:34-38 | the first kept container whose image lookup raises, after kept containers whose images were found, makes the listing raise that exception |
| DockerService.DockerService.ListContainers | app/services/docker_service.py:24-46 | nothing when the service is unavailable or listing raises `APIError`; the image lookup's exception propagates exactly when a container that passes the filter has an image that cannot be looked up; otherwise one dictionary per kept container, in listing order, with its name and image |
| DockerService.DockerService.ListAllContainers | app/services/docker_service.py:48-50 | every container's dictionary in listing order, unless some container's image lookup raises, which then propagates |
| DockerService.DockerService.StreamLogs | app/services/docker_service.py:52-68 | the log source of the container, or `None` when the service is down, the container is unknown or not found, or the engine raises `APIError` |
| DockerService.DockerService.StreamLogsRaising | app/services/docker_service.py:52-68 | the lookup with `NotFound` and `APIError` propagated: it raises `NotFound` exactly for an unknown or not-found container |
| DockerLogs.BridgeQueue.constructor | app/routers/docker_logs.py:57 | the queue starts empty |
| DockerLogs.BridgeQueue.Put | app/routers/docker_logs.py:68-69 | an item is added at the back |
| DockerLogs.BridgeQueue.Get | app/routers/docker_logs.py:90 | the front item is removed and returned |
| DockerLogs.ScanShape | app/routers/docker_logs.py:66-67 | every line split off ends with its newline and has no other, and the rest has no newline |
| DockerLogs.ScanRecompose | app/routers/docker_logs.py:62-75 | the lines and the rest put back together are the text |
| DockerLogs.ScanNoNewline | app/routers/docker_logs.py:65-66 | appending text with no newline only extends the buffer |
| DockerLogs.ScanUnique | app/routers/docker_logs.py:66-67 | complete lines and a newline-free rest can be read off a text in one way only |
| DockerLogs.FailIndex | app/routers/docker_logs.py:63-79 | the position of the first step that raises; every step before it is a chunk |
| DockerLogs.Produced | app/routers/docker_logs.py:59-83 | what the reader puts on the queue always ends with the sentinel |
| DockerLogs.SplitOffLine | app/routers/docker_logs.py:67 | `buffer.split("\n", 1)` moves one complete line out of the buffer and loses nothing |
| DockerLogs.EmitLines | app/routers/docker_logs.py:66-70 | the inner loop enqueues complete lines whose texts, followed by what is left, are the buffer; no newline is left |
| DockerLogs.ReadLogs | app/routers/docker_logs.py:59-83 | the reader enqueues exactly the items of `Produced`, after what was already queued |
| DockerLogs.SentinelOnceLast | app/routers/docker_logs.py:80-83 | exactly one sentinel is enqueued, and it is the last item, on every path |
| DockerLogs.ProducedShape | app/routers/docker_logs.py:66-79 | every item before the last two is a complete line; the one before the sentinel is a line, the error marker, or a non-empty leftover without a newline |
| DockerLogs.MarkerIffFailure | app/routers/docker_logs.py:76-79 | the error marker is enqueued exactly when the source raised |
| DockerLogs.ProducedOnFailure | app/routers/docker_logs.py:62-83 | when the source raises at some step, the queue receives the lines completed before it, the error marker and the sentinel, and not the partial line |
| DockerLogs.ProducedOnEnd | app/routers/docker_logs.py:62-83 | when the source ends, the queue receives the complete lines, then the leftover if it is not empty, then the sentinel |
| DockerLogs.NoFailureKeepsText | app/routers/docker_logs.py:62-75 | when nothing raises, the enqueued texts put together are the decoded chunks put together |
| DockerLogs.ChunkBoundariesIrrelevant | app/routers/docker_logs.py:62-75 | two sources that decode to the same text enqueue the same items, wherever the chunk boundaries fall |
| DockerLogs.FailureKeepsCompleteLines | app/routers/docker_logs.py:76-79 | on a failure the complete lines stay, the partial line is dropped, and one error marker precedes the sentinel |
| DockerLogs.Taken | app/routers/docker_logs.py:89-99 | the consumer takes no more items than are queued |
| DockerLogs.ConsumerEvents | app/routers/docker_logs.py:89-104 | the consumer sends at most one event per item it takes |
| DockerLogs.Consume | app/routers/docker_logs.py:89-104 | the consumer sends one `log_line` per text item until the sentinel, or one `Log stream interrupted` error at the marker, and takes exactly the items it looked at |
| DockerLogs.ConsumeLines | app/routers/docker_logs.py:100-104 | text items are forwarded one `log_line` each, in queue order |
| DockerLogs.BridgeEvents | app/routers/docker_logs.py:59-104 | reader and consumer together send one `log_line` per line in order, then the leftover or exactly one error when the source raised; the consumer never waits on an empty queue |
| DockerLogs.FailAfterOneChunk | app/routers/docker_logs.py:62-99 | a source that raises after one chunk with one complete line gives exactly one `log_line` and one error event |
| DockerLogs.HandleLogSession | app/routers/docker_logs.py:28-104 | an entry failure sends one error event and closes without starting the reader; otherwise the session sends the bridge's events |
| DockerLogs.SessionEvents | app/routers/docker_logs.py:28-51 | when `stream_logs` gives no source, the session is one error event and the close |
| DockerLogs.StreamContainerLogs | app/routers/docker_logs.py:28-51 | against the service as written, the reader is started exactly when `stream_logs` returns a source |
| DockerLogs.MissingContainerReportedAsUnavailable | app/routers/docker_logs.py:45-51 | as written, an unknown container is reported as `Docker service is not available.` |
| DockerLogs.CorrectedLookupReportsNotFound | app/routers/docker_logs.py:30-36 | with the lookup failures propagated, an unknown container is reported as not found |
| GpuService.Fields | app/services/gpu_service.py:109 | the fields are the stripped comma-separated pieces, as many as there are pieces |
| GpuService.ParseLine | app/services/gpu_service.py:107-127 | a record is read only from a non-blank line with at least eleven fields |
| GpuService.Record | app/services/gpu_service.py:112-125 | a record carries field 1 as its name and the fan reading of field 10 |
| GpuService.ParseNvidiaSmi | app/services/gpu_service.py:103-128 | there are never more records than lines of the stripped output |
| GpuService.ParseLinesStep | app/services/gpu_service.py:106-127 | each pass of the loop appends the line's record, or nothing when the line is skipped |
| GpuService.ParseOneLine | app/services/gpu_service.py:107-127 | the loop body gives for one line the record `ParseLine` gives, or skips it |
| GpuService.ParseEachLine | app/services/gpu_service.py:106-128 | the loop collects the records of the lines, in line order |
| GpuService.ParseNvidiaSmiOutput | app/services/gpu_service.py:103-128 | the parser returns the records of the lines of the stripped output |
| GpuService.ParseLinesConcat | app/services/gpu_service.py:105-128 | lines are parsed independently and in order |
| GpuService.ParseLinesBound | app/services/gpu_service.py:106-108 | there are never more records than non-blank lines |
| GpuService.BlankOutputNoRecords | app/services/gpu_service.py:106-108 | output that is only whitespace gives no records |
| GpuService.RecordSomeIff | app/services/gpu_service.py:112-127 | a record is built exactly when every int and float conversion succeeds |
| GpuService.ParseLineNoneIff | app/services/gpu_service.py:106-127 | a line is skipped exactly when it is blank, has fewer than eleven fields, or a conversion fails |
| GpuService.ParseLineRecord | app/services/gpu_service.py:107-111 | a record read from a line comes from its stripped fields, and the line is not blank |
| GpuService.RecordCounters | app/services/gpu_service.py:114-118 | `index`, temperature and the utilisations are the ints of fields 0 and 2 to 4 |
| GpuService.RecordMemory | app/services/gpu_service.py:119-121 | the memory values are the ints of fields 5 to 7 |
| GpuService.RecordNamePower | app/services/gpu_service.py:115-123 | the name is field 1 as given, and the power values are the floats of fields 8 and 9 |
| GpuService.RecordFan | app/services/gpu_service.py:124 | the fan speed is absent exactly when field 10 is `[N/A]`, and otherwise the int of field 10 |
| GpuService.ExtraFieldsIgnored | app/services/gpu_service.py:110-125 | fields after the eleventh are ignored |
| GpuService.CsvLineRoundTrip | app/services/gpu_service.py:87-128 | a line as `--format=csv,noheader,nounits` prints it for a GPU, its cells separated by a comma and a blank, is parsed back to that GPU's record |
| GpuService.FieldsOfSpaced | app/services/gpu_service.py:109 | splitting cells joined by `", "` on the comma and stripping each part gives back the stripped cells, when no cell holds a comma |
| UpdateService.ClassifyStatus | app/services/update_service.py:98-100 | the status is never `unknown`, and it is `complete` exactly when the log contains `Update complete` |
| UpdateService.CompleteWins | app/services/update_service.py:98-100 | a log containing `Update complete` is `complete`, whatever else it contains |
| UpdateService.FailedAnyCaseIff | app/services/update_service.py:99 | `"failed" in log.lower()` holds exactly when `failed` occurs in the log in some mix of cases |
| UpdateService.FailedInAnyCase | app/services/update_service.py:99-100 | without `Update complete`, `failed` in any case makes the status `failed` |
| UpdateService.UpdatingIff | app/services/update_service.py:98-100 | the status is `updating` exactly when neither `Update complete` nor `failed` in any case is in the log |
| UpdateService.GetUpdateStatus | app/services/update_service.py:84-103 | a read gives the stripped decoded log and its classification; an exception gives `unknown` with the exception's text |
| UpdateService.StatusLogStripped | app/services/update_service.py:97-101 | the returned log has no surrounding whitespace, and the status is the one the returned log gives |
| UpdateService.ImageOf | app/services/update_service.py:63 | the image is the container's name followed by `:latest` |
| UpdateService.TriggerUpdate | app/services/update_service.py:59-81 | the script gets the container, its `latest` image and the tarball URL; the answer is `started` with `Update launched on host` exactly when the launch succeeds, and otherwise `error` with the exception's text |
| UpdateService.TriggerUpdateAsWritten | app/services/update_service.py:59-81 | reading a setting the settings do not have raises `AttributeError` before the `try`, container name first; with both settings present, the answer is the one `TriggerUpdate` gives |
| UpdateService.DeclaredSettingsRaise | app/config.py:4-40 | with only the attributes the settings class declares, `trigger_update` raises on the container name whatever the launch would do |
| Text.Strip | app/services/command_service.py:111 | `str.strip()` gives a text with no leading or trailing whitespace, and gives the empty text exactly for text that is only whitespace |
| Text.StripSlice | app/services/command_service.py:111 | the stripped text is a slice of the original with only whitespace before and after it |
| Text.StripUnique | app/services/command_service.py:111 | any slice with only whitespace around it and non-space ends is the stripped text, so `Strip` is exactly `str.strip()` |
| Text.StripLeadingBlank | app/services/gpu_service.py:109 | a blank in front of a text does not change what `strip` gives, so the blank after each comma is dropped |
| Text.StripIdempotent | app/routers/commands.py:29 | stripping twice is stripping once, so the service sees the command the router already stripped unchanged |
| Text.Contains | app/services/command_service.py:117 | `pattern in cmd` is true exactly when the pattern occurs at some position of the command |
| Text.JoinSplit | app/services/gpu_service.py:106 | joining the pieces of `split` with the separator gives back the text |
| Text.SplitJoin | app/services/gpu_service.py:109 | splitting pieces joined by a separator they do not contain gives back the pieces |
| Text.IntToStringRoundTrip | app/services/gpu_service.py:114 | `int(str(n)) == n` for every integer |

## Left out

- Real processes: spawning, `nsenter`, `asyncio.wait_for` timing and `process.kill()` are replaced by an abstract spawn outcome, a trace of read outcomes and an exit code.
- CommandService.RunCommand: the timeout value of the service is carried but plays no part, because timing is abstract. A read either returns or times out.
- The thread pool, the cross-thread `run_coroutine_threadsafe` handoff and the queue capacity of 100. The reader runs to completion before the consumer, and each put is an ordered append. The program does not guarantee that order: each put is scheduled without waiting for it, and once 100 items are pending a woken put re-checks the queue, so a put scheduled later, the sentinel's included, can take the freed slot first. Lines can then be reordered and the consumer can stop at an early sentinel.
- DockerLogs.SentinelOnceLast: holds for the model's ordered handoff, that is for the program while fewer than 100 items are pending, not for the program under a consumer slow enough to fill the queue.
- DockerLogs.BridgeEvents: the lines arrive in order for the model's ordered handoff only, for the same reason.
- DockerLogs.ReadLogs: the queue receives the items in the order they are put for the model's ordered handoff only, for the same reason.
- UTF-8 decoding with replacement is an abstract function applied to each chunk on its own. Independence from chunk boundaries is therefore stated for decoded text, not for raw bytes.
- Python's `float()` is the abstract `toFloat`. Floating-point values are `real`.
- Text.ParseInt: `int()` is modelled for ASCII digits with an optional sign and surrounding whitespace. Underscores between digits and non-ASCII digits are not accepted.
- Text.Lower: lower-cases ASCII letters only, where Python's `str.lower` covers all of Unicode.
- The pynvml path of the GPU service (`get_all_gpu_stats`, `device_count`, `_safe_fan_speed`, `close`) and the subprocess call of `get_stats_via_nsenter`. These are a foreign SDK and host I/O.
- The system service, which is psutil and platform reads and float arithmetic.
- The shell text of the update script and its launch through `nsenter`. This is host shell and I/O. UpdateService.TriggerUpdate records only the values the script is formatted with.
- UpdateService.TriggerUpdate: the container name and tarball URL are parameters, that is, it assumes a settings class that declares `CONTAINER_NAME` and `REPO_TARBALL_URL`. The settings class of this snapshot does not, and UpdateService.TriggerUpdateAsWritten models what then happens (see "Findings").
- The update router imports an `APP_VERSION` the settings module does not define (app/routers/update.py:3). `main.py` does not register that router, so neither endpoint is reachable in this snapshot. Imports and routing are not modelled.
- DockerService.DockerService.StreamLogs, DockerService.DockerService.ListContainers: exceptions of the Docker client other than `NotFound` and `APIError` (a `requests` connection error once the daemon has gone away, say) are not modelled. In the program they propagate out of `stream_logs`, `list_containers` and `list_all_containers`, and nothing in the log router catches them.
- The `tail`, `follow` and `timestamps` arguments of the log request are not modelled. The engine gives the source directly.
- Exceptions raised while sending on a socket or by a client disconnect. These only end a session, and the model ends a session when the messages run out.
- Routers with no logic of their own (`main.py`, the GPU, overview, system and update routers), the pydantic schemas and the WebSocket transport.
- CommandsRouter.PresetPrefixes: it proves that every preset passes the prefix check, but not that no preset contains a blocked pattern. Deciding substring occurrence on these literals is beyond what the verifier does cheaply.

## Findings

| source | as written | input that shows it | evidently intended | confidence | as-written member | corrected member |
|---|---|---|---|---|---|---|
| app/services/docker_service.py:59-68 | `stream_logs` catches `NotFound` and `APIError` and returns `None`, so the router's `NotFound` and `APIError` handlers (app/routers/docker_logs.py:30-43) can never run | a container id the engine does not know, with the service up | the router reports `Container '<id>' not found.`, or the Docker error, as its handlers are written to do | not executed; the dead handlers are visible in the text | DockerLogs.MissingContainerReportedAsUnavailable | DockerLogs.CorrectedLookupReportsNotFound |
| app/services/update_service.py:61-65 | `trigger_update` reads `settings.CONTAINER_NAME` and `settings.REPO_TARBALL_URL` before its `try`, and the settings class (app/config.py:4-40) declares neither, so the call raises `AttributeError` and never answers `started` or `error` | any call of `trigger_update` with the settings as declared | the settings class declares both values and `trigger_update` answers `started` or `error` | not executed | UpdateService.DeclaredSettingsRaise | UpdateService.TriggerUpdate |
