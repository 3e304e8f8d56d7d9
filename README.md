# UR human interaction: verified model of the coordination core

This project models the decision logic of a pipeline. The pipeline watches a
JSON file on a remote host. When the file's `"text"` instruction changes, it
asks a streaming language-model endpoint for a list of robot programs. It then
runs those programs one after another on a Universal Robots controller through
the controller's dashboard text protocol.

The model has these modules:

- `PyText`: the Python `str` operations the core uses, namely `strip`,
  `startswith`, `endswith`, `sub in s` and `lower`.
- `Json`: the Python values `json.loads` returns, with truthiness, `dict.get`
  and `str()`.
- `Completion`: `LLM_Agent.process_request`. This covers the request body, the
  streaming loop, the trim and code-fence strip, decoding, wrapping a single
  object into a list, and the bounded retry with its soft failure `[]`.
- `Dashboard`: `send_cmd` as a `Session` class. The class holds the
  controller's reply transcript, a read position and the log of commands sent.
  It also defines the wire framing and how the controller reads commands back.
- `Executor`: `execute_actions`. Reference functions say which commands are
  sent, given the controller's responses. The methods are proved to send
  exactly these over a `Session`.
- `FileWatcher`: `SSHFileWatcher`. One poll is a step on `last_hash`. A run of
  the generator is the trace of its yields over a finite sequence of poll
  observations. The watcher class also models `close`.
- `Orchestrator`: the loop of `main`. It handles the baseline, skips unchanged
  content, drops invalid JSON and empty instructions, and dispatches to
  `process_request` and `execute_actions`.

Transports and foreign libraries are parameters:

- The HTTP stream is what each attempt receives (`Completion.Exchange`).
- The dashboard socket is a transcript of replies. Past its end `recv` answers
  `""`, just as a closed connection does.
- `json.loads` is a function `parse: string -> Option<Value>`. `None` means it
  raised `JSONDecodeError`.
- `hashlib.md5(...).hexdigest()` is a function into 32-hex-digit strings.

The exceptions the core raises on the values it handles, and does not catch,
are modelled as outcomes (`Crashed`, `Raised`, `Fatal`, `crashed`): indexing
into a decoded event that is not a dict, a `"response"` that is not a
string, `.get` on a decoded document or an action that is not a dict, and a
`"text"` that is not a string. Exceptions raised by the transports themselves
are not modelled; "## Left out" names them.

Facts about the code that the model keeps:

- `process_request` makes `max(1, max_retries)` attempts. The test
  `retry_count >= max_retries` comes only after the first failure
  (main.py:65-66).
- A stream that ends without a `done` event still yields the text gathered so
  far (main.py:36-48).
- The watcher has no reconnect logic. Any exception in a poll is swallowed and
  the next poll runs (file_watcher.py:79-81).
- A load path is `programs_folder + "/" + program`. With the default folder
  this gives `/programs/interaction//<program>`, with a doubled slash
  (main.py:96, 118).
- For a key repeated in a decoded document, `dict.get` answers the last value
  given for it.

## Model

| member | source | states |
|---|---|---|
| PyText.TrimStartSpec | main.py:54 | the part `^\s*` removes is all whitespace, what is left is a suffix, and it does not start with whitespace |
| PyText.TrimEndSpec | main.py:55 | the part `\s*$` removes is all whitespace, what is left is a prefix, and it does not end with whitespace |
| PyText.StripInfix | main.py:48 | `strip()` keeps a contiguous piece of the text, drops only whitespace around it, and leaves no whitespace at either end |
| PyText.StripStripped | main.py:48 | a text with no whitespace at either end is its own `strip()` |
| PyText.TrimStartPadded | main.py:54 | whitespace in front of a text that does not start with whitespace is exactly what is removed |
| PyText.TrimEndPadded | main.py:55 | whitespace after a text that does not end with whitespace is exactly what is removed |
| PyText.ContainsAt | main.py:106 | the substring test `sub in s` holds exactly when `sub` occurs at some position of `s` |
| Json.LookupFinds | main.py:99 | `d.get(key)` is `None` exactly when no member has the key, and otherwise returns the value of the last member with that key |
| Completion.MakeConfig | main.py:15-19 | the configuration keeps the model, URL and system prompt; `max_retries` defaults to 3 |
| Completion.Message | main.py:22-26 | the request names the model, has `stream` true, and its prompt is exactly the system prompt, one newline, then the user prompt |
| Completion.ThroughDoneIsPrefix | main.py:46-47 | the events consumed are the shortest prefix that ends in a `done` event, or all events when none is done |
| Completion.SkippedLineIgnored | main.py:38-43 | an empty line, or one that does not decode, changes nothing about the outcome of the stream |
| Completion.AfterDoneIgnored | main.py:46-47 | once an event is `done`, later lines and a later transport break do not change the outcome |
| Completion.WholeStreamCollected | main.py:36-47 | a stream of well-formed events with no `done` that ends normally gives the in-order concatenation of all `"response"` fragments |
| Completion.MalformedAt | main.py:44-46 | a decoded event that is not a dict with a string `"response"`, after clean events, makes the stream end in an uncaught exception |
| Completion.DoneAt | main.py:44-47 | a `done` event after clean events ends the stream with the fragments gathered so far plus its own |
| Completion.EndOfStream | main.py:35-47 | a stream of clean events ends with a transport error when it was cut, and otherwise with the concatenation of its fragments |
| Completion.CollectStream | main.py:36-47 | the streaming loop produces exactly the reference outcome: the concatenation up to the first `done`, a transport error, or an uncaught exception |
| Completion.Unfence | main.py:53-55 | a text that does not start with the fence is passed on unchanged |
| Completion.StripPadded | main.py:48 | `strip()` removes exactly the whitespace around a fenced text |
| Completion.DropOpeningTagged | main.py:54 | the opening fence, an optional `json` tag and the whole whitespace run after them go, whatever whitespace it holds, and the body stays |
| Completion.DropClosingFenced | main.py:55 | the closing fence and the whole whitespace run before it go, and the body stays |
| Completion.PrefixJson | main.py:54 | a text that goes on with whitespace or a backtick starts with `json` only when its first part does |
| Completion.AllSpaceAppend | main.py:54-55 | two whitespace runs in a row are one whitespace run |
| Completion.Unfenced | main.py:53-55 | the two fence regexes together leave exactly the body inside the fence |
| Completion.FencedClean | main.py:48-55 | a fenced body with nothing around the fences cleans up to the body |
| Completion.FencedRoundTrip | main.py:48-55 | a body in a ``` or ```json fence, with any whitespace between the fences and the body and around the whole, cleans up to the body itself; the bare body (not itself fenced) cleans up to itself too, so both decode alike |
| Completion.AsActionList | main.py:59-62 | a decoded dict becomes a one-element list holding it; any other value is returned unchanged; the answer is never a dict |
| Completion.Attempt | main.py:35-62 | one attempt's outcome is a refusal or broken stream (retried), a decode failure (retried), an uncaught exception, or the decoded value |
| Completion.Budget | main.py:64-66 | the number of attempts is `max_retries`, but never fewer than one |
| Completion.FirstSettledIsFirst | main.py:29-70 | every attempt before the settling one fails, and the settling one, if any, does not |
| Completion.SettledAt | main.py:29-70 | the settling attempt is the only index with those two properties |
| Completion.ProcessRequest | main.py:21-70 | the retry loop answers what the first attempt that does not fail gives (wrapped), or `[]` once the budget is spent; it sends one identical request per attempt made |
| Completion.SoftFailure | main.py:64-68 | against an endpoint that always fails, exactly `max(1, max_retries)` requests are sent and `[]` is returned without raising |
| Completion.DefaultSoftFailure | main.py:17 | with the default configuration an always-failing endpoint is asked exactly three times |
| Completion.SingleObjectWrapped | main.py:57-62 | a first attempt that decodes to one object answers a one-element list holding it, after a single request |
| Dashboard.Wire | main.py:85 | the wire holds one newline terminator per command, plus the commands' characters |
| Dashboard.WireAppend | main.py:85 | sending one more command appends exactly its newline-terminated text to what is on the wire |
| Dashboard.LinesFrame | main.py:85 | a command without a newline is read back whole, up to its terminator |
| Dashboard.WireRoundTrip | main.py:85 | the controller reads back exactly the commands sent, in order, when none holds a newline |
| Dashboard.Stripped | main.py:87 | there is exactly one stripped response per reply of the transcript |
| Dashboard.StrippedAt | main.py:87 | the response for reply `i` is the stripped reply, and `""` once the controller has closed |
| Dashboard.Session.constructor | main.py:148-149 | a fresh connection has read nothing and sent nothing |
| Dashboard.Session.Send | main.py:83-89 | `send_cmd` appends the command to the log, consumes one reply, and returns it stripped |
| Dashboard.Session.Receive | main.py:159 | the greeting consumes one reply and sends nothing |
| Executor.BusyIsSent | main.py:106 | a closed connection never looks busy, so every busy response is one the controller sent |
| Executor.BusyRunSpec | main.py:105-109 | the busy count covers the busy responses from `n` on, up to the first response without `true` |
| Executor.BusyRunUnique | main.py:105-109 | the busy count is the only count with that property |
| Executor.Repeat | main.py:105-109 | `count` copies of a command make a log of length `count` |
| Executor.RepeatAll | main.py:105-109 | every entry of a repeated log is the repeated command |
| Executor.Entries | main.py:98 | iterating a list gives its items, and iterating `None`, a boolean or a number raises |
| Executor.NoProgramNoCommands | main.py:99-101 | an action whose `program` is missing or empty sends nothing and reads nothing |
| Executor.WaitLog | main.py:105-109 | a busy-wait sends `k + 1` `running` polls, where the first `k` responses report a running program and the next does not; the wait after `play` gives one progress message per ten extra polls |
| Executor.LaunchLog | main.py:113-142 | from `stop` on: `stop`, then the `load` of the given path, then `play` exactly when the load was not refused, then the second wait exactly when the play was not refused either |
| Executor.ActionLog | main.py:98-142 | an action with a program sends the first busy-wait, then everything from `stop` on |
| Executor.LoadsOfPerform | main.py:118-119 | an action sends exactly one `load`, of `folder/program`, when it names a program, and none otherwise |
| Executor.ExecuteReads | main.py:96-144 | every command reads exactly one reply |
| Executor.CrashIff | main.py:98-99 | the loop raises exactly when some action is not a dict |
| Executor.LoadsInOrder | main.py:96-130 | when nothing raises, the `load` commands are those of the actions that name a program, in list order; a refused load or play skips only its own action |
| Executor.ExecuteAppend | main.py:98 | running `a + b` runs `a`, then, unless it raised, `b` from where `a` stopped reading |
| Executor.ExecuteOne | main.py:98-142 | the reference for a single action is that action's pass |
| Executor.ExecuteStep | main.py:98-142 | running one more action extends the run by that action's pass, and a raising action ends the loop |
| Executor.AwaitIdle | main.py:104-109 | the first busy-wait sends exactly the reference polls and reads their replies |
| Executor.AwaitCompletion | main.py:135-142 | the second busy-wait sends the reference polls and counts one progress message each time `check_count` reaches a multiple of ten |
| Executor.LaunchProgram | main.py:113-142 | from `stop` on, the commands sent and the replies read are those of the reference |
| Executor.PerformAction | main.py:98-142 | one pass of the `for` body sends what the reference says, and raises exactly when it does |
| Executor.ExecuteActions | main.py:96-144 | `execute_actions` appends exactly the reference commands to the log, reads one reply per command, and raises exactly when the reference does |
| FileWatcher.FileHash | file_watcher.py:48-57 | a missing file fingerprints to `""`, another error raises, and a readable file gives its MD5 digest |
| FileWatcher.Step | file_watcher.py:70-81 | a poll yields exactly when the fingerprint is computed, differs from `last_hash`, and the read succeeds; it yields what was read; `last_hash` takes every computed fingerprint |
| FileWatcher.DigestNotEmpty | file_watcher.py:55-57 | a digest is never the empty fingerprint of a missing file |
| FileWatcher.TraceAppend | file_watcher.py:71-81 | the generator never stops: what it yields over two runs of polls is what it yields over the first, then over the second from where `last_hash` was left |
| FileWatcher.PathUnchanged | file_watcher.py:77 | every yield carries the watched path unchanged |
| FileWatcher.FailedPollIgnored | file_watcher.py:79-81 | a poll that raises before the comparison changes nothing |
| FileWatcher.UnchangedPollIgnored | file_watcher.py:74 | a poll whose fingerprint equals `last_hash` yields nothing and leaves `last_hash` as it was |
| FileWatcher.FirstSuccessfulPollYields | file_watcher.py:70-77 | after polls that raise, the first poll whose fingerprint is computed and whose read succeeds is yielded |
| FileWatcher.FailuresIgnored | file_watcher.py:79-81 | polls that all raise yield nothing and leave `last_hash` alone |
| FileWatcher.SettledHashYieldsNothing | file_watcher.py:74 | once `last_hash` holds `h`, polls that find `h` again, or raise, yield nothing |
| FileWatcher.DroppedChange | file_watcher.py:75-81 | a change whose read fails is lost: it is not yielded later unless the fingerprint changes again |
| FileWatcher.MissingNeverYields | file_watcher.py:56-81 | a file that stays missing never yields |
| FileWatcher.Closing | file_watcher.py:43-46 | `close` closes exactly the clients that are set, the SFTP client before the SSH client |
| FileWatcher.Watcher.constructor | file_watcher.py:8-20 | the watcher keeps its connection parameters and holds both clients |
| FileWatcher.Watcher.Close | file_watcher.py:39-46 | the clients closed are those `Closing` names, and both fields are left as they were |
| FileWatcher.Watcher.WatchFile | file_watcher.py:66-81 | the polling loop yields exactly the reference trace, starting from `last_hash = None` |
| Orchestrator.Classify | main.py:166-186 | the first content is the baseline; content equal to the stored one is unchanged; new content that does not decode is invalid JSON; a decoded value that is not a dict raises; a dict without a truthy `"text"` is dropped; a truthy non-string `"text"` raises; a non-empty string `"text"` is exactly the prompt |
| Orchestrator.ResultNeverDict | main.py:57-62 | `process_request` never answers with a dict |
| Orchestrator.HandleSpec | main.py:163-201 | one pass stores the content; the baseline and unchanged content do nothing else; invalid JSON and a missing or empty instruction drop the change without raising; a prompt is sent exactly when the content gives one; an answer that raises ends the loop; an empty answer is not executed; a non-empty answer is executed with the default folder, its commands appended to the log; an executed answer is never a dict |
| Orchestrator.CrashSticks | main.py:176-201 | once a pass raises, no later yield changes anything |
| Orchestrator.LoopInvariant | main.py:161-201 | unless a pass raised, the stored content is the last yielded one; every executed action list is non-empty and not a dict; at most one prompt and one execution per yield |
| Orchestrator.FirstYieldIgnored | main.py:166-169 | the first yield is only stored: no prompt, no command |
| Orchestrator.RepeatIgnored | main.py:171-172 | a yield equal to the one before it is skipped entirely |
| Orchestrator.AnswerStreamed | main.py:36-48 | a stream of one `done` event whose response is the fenced action gathers exactly that fenced text |
| Orchestrator.AnswerCleaned | main.py:48-55 | the fenced `{"program":"forward.urp"}` cleans up to the bare JSON text |
| Orchestrator.FencedAnswer | main.py:21-62 | that stream, on the first attempt, makes `process_request` answer the one-element action list |
| Orchestrator.SecondAsked | main.py:171-186 | the content `{"text":"move forward"}` after the baseline `{"text":"go"}` is the prompt `move forward` |
| Orchestrator.ForwardRun | main.py:96-122 | running that action list does not raise and loads `/programs/interaction//forward.urp`, once |
| Orchestrator.MoveForward | main.py:161-201 | from end to end: the baseline then the changed instruction send exactly one prompt, execute exactly the one-element action list, do not raise, and load only `forward.urp` from the default folder, whatever the controller answers |
| Orchestrator.LoopStep | main.py:163-201 | one more yield extends the run by one pass of the loop body |
| Orchestrator.Serve | main.py:159-201 | after the greeting, the loop sends exactly the reference prompts and commands, executes the reference action lists, and stops exactly when a pass raises |

## Left out

- Real I/O: `requests.post` streaming, the TCP socket, and the SSH and SFTP
  connections. They are replaced by what each attempt, reply and poll
  produces.
- `json.loads`, `yaml.safe_load` and `hashlib.md5` are foreign libraries. The
  decoder is the parameter `parse` and the digest is the parameter `md5`. The
  YAML configuration is given as a `Completion.Config` value.
- JSON floating-point numbers. Numbers are Python `int`s only.
- `time.sleep` delays, and the text of the progress message
  (`check_count * 0.5` seconds, main.py:142). Only the `check_count % 10 == 0`
  condition is kept, as a count of progress messages.
- `print` output. Nothing the core computes depends on it.
- `run_think_in_background` (main.py:91-94). It starts a thread, and its call
  sites are commented out.
- `recv` buffer sizes, truncation and UTF-8 decoding. Each reply is one whole,
  decoded string.
- Dashboard.Session.Send: never fails. A real `sendall` or `recv` can raise
  `OSError`, and `.decode()` can raise `UnicodeDecodeError`
  (main.py:85-87, 159); these would end `execute_actions` and `main`, and the
  model does not capture them.
- Dashboard.Session.Receive: never fails, for the same reason.
- A controller that has closed the connection answers `""` for ever in the
  model. A real socket closed by the peer would, after a while, make
  `sendall` raise.
- A controller that answers `true` for ever: the busy-waits at main.py:106-109
  and 137-140 have no timeout and would spin without end. The model's reply
  transcript is finite, so every busy-wait in it ends.
- File contents: `_read_file` returns bytes (file_watcher.py:63-64), which
  `json.loads` decodes as UTF-8. The model takes the content as decoded text,
  so it leaves out the `UnicodeDecodeError` that content that is not UTF-8
  would raise in `main`.
- PyText.Lower: lowers ASCII letters only. That is all the controller's
  replies hold.
- Json.Repr: quotes strings nested in lists and dicts in a simplified way.
  Only `str()` of a string program name matters to a load path, and that name
  is the string itself.
- The `poll_interval` argument that main.py:155 passes to `SSHFileWatcher`.
  The constructor does not accept it (file_watcher.py:8-9), so the call
  raises a `TypeError`. The model starts the loop as if construction
  succeeded.
- `_connect` failures (file_watcher.py:22-37). The constructor models only a
  successful connection.
- `sock.close()` at main.py:204. It cannot be reached, because the watch
  generator never ends.
- The module-level configuration, hosts, paths and keys (main.py:11, 73-81,
  151-156). `REMOTE_FILE` is only passed through as the watched path.
- LLM_respond_test.py and ur_connection.py are not part of this model. They are
  fixed sequences of network calls with no decisions in them.
- Dashboard.Session: keeps the stripped form of every reply (`responses`) next
  to the raw transcript (`replies`). `Dashboard.StrippedAt` proves what
  `send_cmd` returns is `strip()` of the raw reply.
- Completion.Unfence: its own contract only fixes the unfenced case. The
  fenced case is stated by `Completion.FencedRoundTrip`, for a body with no
  whitespace at either end.
- Orchestrator.Serve: takes the watcher's yields as a finite sequence.
  `FileWatcher.Watcher.WatchFile` produces such a sequence, but the two are
  not composed into one method, because the generator interleaves with the
  loop body.
