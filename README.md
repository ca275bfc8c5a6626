# skate — a Dafny model of the slide servers' synchronisation core

skate serves a set of HTML slides and keeps every viewer's browser on the same
slide. Two servers exist side by side.

- `src/main.rs`, the Rust server:
  - parses its command line (`Args::parse`);
  - resolves the effective port, password and control flag from the command line and `skate.json`;
  - serves slide `n` as `n mod slides.len()`;
  - keeps a registry of WebSocket connections: a `u16` counter plus a map from id to a capacity-1 channel sender;
  - runs one handler per connection, which relays channel messages to the socket, answers pings, and deregisters on close;
  - on an authorised `goto`, pushes the decimal page number into every registered channel.
- `src/main.tsx`, the TypeScript server:
  - parses its command line (`parseArgs`);
  - serves a client script whose `LENGTH` placeholder it substitutes;
  - keeps a `Set` of open sockets;
  - broadcasts `JSON.stringify(slide)` to all of them on an authorised `/goto/:slide`.

The model has these modules:

- `Wrappers`: `Option` and `Result`.
- `Decimal`: decimal rendering of naturals (`usize::to_string`, `JSON.stringify` of a whole number) and its inverse.
- `JsNumber`: ECMAScript `parseInt` with one argument.
- `RustCli`: `Args::parse`.
  - It is a specification function `Scan` over the option tokens and a `while` method `Parse` proved equal to it.
  - `exit(1)` after an error message and the `unwrap` panic on an unparsable port both become an `Err` carrying the error.
- `RustSettings`: the choice of config file and the resolution of the effective settings.
- `Pages`: the `page` handler.
  - The slide file read is a function parameter that returns `Ok(content)` or `Err(message)`.
  - The out-of-bounds panic on an empty slide list is the `Panicked` response.
- `Lifecycle`: one connection handler as a pure state machine over the events its `select!` loop can see.
  - A channel message to relay.
  - An inbound frame.
  - The socket stream ending or failing.
  - Both sources exhausted.
- `RustSync`: the shared state and the handler as classes.
  - `Channel` is a tokio `mpsc::channel(1)`.
    - `queue[0]` is the buffered message.
    - `queue[1..]` are sends that are still waiting for capacity. `send().await` never drops a message; it fails only once the receiver is gone.
    - The sender and receiver flags are explicit.
  - `Server` holds the counter and the `websockets` map, with `Register`, `Deregister` and `Goto`.
  - `Connection` is one running `handle_socket`. Each `Step` is one wake-up of the `select!`, and the resulting state is proved equal to `Lifecycle.Step`.
- `TsCli`: `parseArgs`, again as a specification function `Scan` and a `while` method `ParseArgs`.
- `TsServer`: the `clients` set (`open`/`close`), the `/goto/:slide` route, and the `script` substitution.

Behaviour worth noting. The model follows the code throughout, including where it departs from the usage text or the evident purpose.

- In `handle_socket`, a transport error or the end of the socket stream does not end the handler. `select!` only disables that branch. The handler keeps waiting on its channel, and the id stays registered. If the next relayed message cannot be sent, the `unwrap` panics and aborts the task without removing the id. The model assumes such a send always fails once the read side is lost (`Lifecycle.RelayAfterLoss`); see "Left out".
- The Rust `page` handler panics on an empty slide list. `checked_rem` gives `None`, the index becomes 0, and `slides[0]` is out of bounds.
- The counter is a `u16`. It is modelled with release-build wrap-around. After 65536 registrations an id is reused, and `insert` then replaces, and so drops, the earlier connection's sender (`RustSync.IssuedIdsWrap`, `RustSync.Server.Register`).
- In the TypeScript server:
  - `--password` is parsed but never read. `/goto` compares the query's `pass` with the config file's `password`.
  - The config file's `control` is never read. The script substitution uses the command line's `--control` only.
  - `-c`, which the usage text offers for `--control`, falls to the `default` case and becomes the config file path.

## Model

| member | source | states |
|---|---|---|
| RustCli.Parse | src/main.rs:25-88 | The loop's result equals `Scan` of the arguments after the first two, including where it stops at the first error. |
| RustCli.ScanThen | src/main.rs:31-81 | Parsing a prefix that succeeds and then the rest is the same as parsing the rest from the options the prefix set. |
| RustCli.RepeatedOptionRejected | src/main.rs:33-75 | A second `--config`, `--port`, `--password` or `--control` is an error naming that option, whatever follows. |
| RustCli.MissingValueRejected | src/main.rs:38-67 | `--config`, `--port` or `--password` as the last argument is the matching "not specified" error. |
| RustCli.ValueTakenVerbatim | src/main.rs:38-66 | The token after `--config`/`--password` is taken as the value as it is, even when it looks like an option. |
| RustCli.PortValue | src/main.rs:45-56 | The token after `--port` sets the port when it parses as a `u16`; otherwise parsing ends in the unparsable-port error. |
| RustCli.ParseU16 | src/main.rs:51 | A port string is accepted only if it is non-empty, not just `+`, and made of digits with at most a leading `+`; the value is below 65536. |
| RustCli.ParseU16OfShow | src/main.rs:51 | A decimal rendering parses back to its value (also with a leading `+`) below 65536, and fails at 65536 and above. |
| RustCli.MessagesIdentifyError | src/main.rs:33-75 | No two of the errors that end in `exit(1)` print the same message. |
| RustCli.UnknownTolerated | src/main.rs:76-79 | An unknown argument is recorded as reported, and parsing continues with the options unchanged. |
| RustCli.GivenOptionsKept | src/main.rs:31-81 | A successful parse never unsets or changes an option once it is set; reported unknown arguments only accumulate. |
| RustCli.NoOptionsAllUnknown | src/main.rs:76-80 | Arguments none of which is an option are all reported, in order, and set nothing. |
| RustSettings.ConfigFile | src/main.rs:273-280 | The config file is the `--config` path when given, else `skate.json`. |
| RustSettings.Resolve | src/main.rs:282-285 | Password: the command line's, else the config's, else `""`. Control: the command-line flag or a config `true`. Port: the command line's, else 3000. Slides come from the config. |
| Pages.PageIndex | src/main.rs:200 | The index is the remainder of the page modulo the slide count, so it is below the count; with no slides it is 0. |
| Pages.PageIndexInRange | src/main.rs:200 | A page already in range is served as itself. |
| Pages.PageIndexPeriodic | src/main.rs:200 | Pages one slide count apart are served the same slide. |
| Pages.ServePage | src/main.rs:199-206 | It panics exactly when there are no slides. A successful read gives 200 with the file's content; a failed read gives 404 with the error inside `<h1>`. |
| Lifecycle.Step | src/main.rs:172-191 | A stopped handler never changes. Output is append-only, one frame at most, and only onto a working socket. It closes exactly on a Close frame from a working socket or when both sources are exhausted. It aborts exactly when it relays onto a lost socket. |
| Lifecycle.StepOnWorkingSocket | src/main.rs:174-187 | On a working socket, a channel message becomes one Text frame, a Ping(p) exactly one Pong(p), and Close ends the handler; any other frame changes nothing. |
| Lifecycle.RunAppend | src/main.rs:172-191 | Running two event sequences one after the other is running their concatenation. |
| Lifecycle.RunStopped | src/main.rs:181 | Once the handler has returned or aborted, no event changes it. |
| Lifecycle.RunAfterStop | src/main.rs:179-192 | Events after the handler stops are never seen. |
| Lifecycle.RunAppendOnly | src/main.rs:172-191 | What was written to the socket is never taken back. |
| Lifecycle.RunWritesResponses | src/main.rs:172-188 | While the socket works and nothing ends the loop, the socket receives exactly each event's response, in order. |
| Lifecycle.RelayAfterLoss | src/main.rs:174-177 | After the socket stream is lost, the next channel message aborts the handler instead of ending it cleanly. |
| Decimal.Show | src/main.rs:218 | The rendering of a page number has at least one digit, only digits, and no leading zero. |
| Decimal.ValueOfShow | src/main.rs:218 | The decimal rendering of a page number reads back as that number. |
| Decimal.ShowInjective | src/main.rs:218 | Different page numbers are rendered as different messages. |
| RustSync.NextId | src/main.rs:168 | The counter advances by one and wraps from 65535 to 0. |
| RustSync.IssuedIdAt | src/main.rs:167-168 | The i-th id handed out from counter c is (c + i) mod 65536. |
| RustSync.IssuedIdsDistinct | src/main.rs:164-169 | Any 65536 consecutive registrations get pairwise distinct ids. |
| RustSync.IssuedIdsWrap | src/main.rs:164-169 | The 65537th registration reuses the first one's id. |
| RustSync.GotoStatus | src/main.rs:215-223 | 200 exactly when the presented password equals the configured one, otherwise 401. |
| RustSync.Channel.constructor | src/main.rs:166 | A new channel is empty, with a live sender and receiver. |
| RustSync.Channel.Send | src/main.rs:218 | A send succeeds exactly when the receiver is alive, and then queues the message behind those already waiting; otherwise nothing changes. |
| RustSync.Channel.Recv | src/main.rs:174 | A receive takes the message in the one-message buffer, and the next waiting send moves into the freed slot. |
| RustSync.Channel.DropSender | src/main.rs:169 | Dropping the sender leaves queued messages to be received. |
| RustSync.Channel.DropReceiver | src/main.rs:181 | Dropping the receiver discards what was queued. |
| RustSync.Server.constructor | src/main.rs:286-295 | The state starts with counter 0, no connections, and the resolved password, control and slides. |
| RustSync.Server.Register | src/main.rs:164-171 | The id is the old counter; the counter advances by one, with wrap-around; a fresh empty channel is inserted under the id and every other entry is unchanged; a sender it displaces is dropped. The registry invariant is kept. |
| RustSync.Server.Deregister | src/main.rs:180-192 | Only this id is removed, and removing an absent id changes nothing; the removed sender is dropped. The registry invariant is kept. |
| RustSync.Server.Goto | src/main.rs:214-224 | The status is `GotoStatus`. When authorised, every registered channel whose receiver is alive gets the page's decimal rendering once; a failed send stops nothing. When refused, no channel changes. |
| RustSync.EventOf | src/main.rs:173-189 | A channel wake-up with a message ready relays exactly that message, and a frame from a working socket is seen as exactly that frame. A relay happens only on a channel wake-up with a message ready. Both sources count as exhausted only when the queue is empty, the sender is gone, and the socket branch is disabled too: the stream was lost before or ends in this wake-up. An inbound frame is seen only while the socket stream works. |
| RustSync.Connection.constructor | src/main.rs:163-171 | Connecting registers under the old counter value and starts an open handler with nothing written. |
| RustSync.Connection.Step | src/main.rs:172-192 | Each wake-up moves the handler as `Lifecycle.Step` does on the event it sees, and pops a relayed message from the channel. A close deregisters this id only; abort and every other step leave the registry unchanged. |
| RustSync.Connection.Observe | src/main.rs:174-187 | The handler state moves as `Lifecycle.Step` says; a relayed message is taken off the channel; the channel's flags are unchanged. |
| RustSync.TwoViewers | src/main.rs:163-171 | Two connections to a fresh server get ids 0 and 1 and distinct empty channels, and both are registered. |
| RustSync.BroadcastReachesEveryViewer | src/main.rs:214-220 | After an authorised `goto`, both registered viewers have the page queued, and the first relays it as a single Text frame. |
| RustSync.WrongPasswordSendsNothing | src/main.rs:215-223 | A wrong password gets 401 and leaves the channels empty. |
| RustSync.PingIsAnswered | src/main.rs:183-185 | A viewer that pings gets exactly one Pong with the same payload, stays open, and stays registered under its id. |
| RustSync.ClosedViewerIsSkipped | src/main.rs:179-219 | A viewer that sent Close is out of the registry, leaving only the other viewer. Removing its id a second time leaves the registry exactly as the Close left it. A later authorised `goto` queues the page for the other viewer only. |
| JsNumber.ParseInt | src/main.tsx:57 | White space alone is NaN. A number is found only when the first non-white character is a digit or a sign, and a negative result needs a leading `-`. |
| JsNumber.TrimStart | src/main.tsx:57 | `parseInt` skips exactly the leading white space. |
| JsNumber.DigitRun | src/main.tsx:57 | `parseInt` reads the longest run of digits in its radix. |
| JsNumber.ParseIntSkipsWhite | src/main.tsx:57 | Leading white space does not change `parseInt`'s result. |
| JsNumber.ParseIntOfShow | src/main.tsx:57 | A decimal number followed by a non-digit parses as that number. |
| TsCli.PortOf | src/main.tsx:57 | The port is `parseInt`'s value unless that is NaN or 0, which are both rejected. |
| TsCli.ParseArgs | src/main.tsx:32-66 | The loop's outcome equals `Scan` of the arguments from the defaults (config `skate.json`). |
| TsCli.ScanThen | src/main.tsx:36-64 | Parsing a prefix and then the rest is the same as parsing the rest from what the prefix set. |
| TsCli.LastPathWins | src/main.tsx:33-35 | Among plain arguments, the last one is the config path; with none, the default stays. |
| TsCli.DashCIsConfigPath | src/main.tsx:39-61 | `-c` sets the config path to `-c`, not the control flag. |
| TsCli.PasswordTaken | src/main.tsx:50-52 | The token after `--password`/`-P` becomes the password, overwriting an earlier one. |
| TsCli.ControlSet | src/main.tsx:53-55 | `--control` sets the flag and consumes no further token. |
| TsCli.PortTaken | src/main.tsx:56-58 | The token after `--port`/`-p` sets the port, unless `parseInt` gives NaN or 0, which throws "Invalid port". |
| TsCli.MissingValueThrows | src/main.tsx:50-58 | A trailing `--password` throws "Missing password"; a trailing `--port` throws "Missing port". |
| TsCli.HelpEndsParsing | src/main.tsx:40-49 | `--help`/`-h` ends parsing with the usage text, whatever follows. |
| TsCli.PortNeverZero | src/main.tsx:57 | A successful parse never yields port 0. |
| TsServer.FindFrom | src/main.tsx:75 | It finds the first occurrence at or after the start, or reports that there is none. |
| TsServer.ReplaceFirst | src/main.tsx:75 | With no occurrence the string is unchanged; otherwise the string splits around its first occurrence and only that occurrence is replaced. |
| TsServer.Script | src/main.tsx:74-76 | With control on, the script ends in `()`. With control off and no `LENGTH`, it is the source unchanged. Text before the first `LENGTH` is kept, and the replacement starts where `LENGTH` was. |
| TsServer.ScriptSubstitutes | src/main.tsx:74-76 | Only the first `LENGTH` is replaced: with control on by the last slide's index, followed by an appended `()`; with control off by `0`. |
| TsServer.ScriptWithoutPlaceholder | src/main.tsx:74-76 | A script without `LENGTH` is served unchanged, apart from the `()` appended when control is on. |
| TsServer.GotoReply | src/main.tsx:126-141 | A slide outside 0 .. count-1 is rejected by validation. Otherwise the route succeeds exactly when `pass` equals the configured password, where either may be absent. |
| TsServer.UnsetPasswordAdmitsOnlyAbsentPass | src/main.tsx:127 | With no configured password, only a request without `pass` succeeds; an empty `pass` is refused. |
| TsServer.Client.Send | src/main.tsx:129 | Sending appends the message to what the socket received. |
| TsServer.Presentation.constructor | src/main.tsx:79 | The client set starts empty. |
| TsServer.Presentation.Open | src/main.tsx:143-145 | `open` adds the socket to the set, which has no effect when it is already there. |
| TsServer.Presentation.Close | src/main.tsx:146-148 | `close` removes the socket from the set, which has no effect when it is absent. |
| TsServer.Presentation.Goto | src/main.tsx:126-141 | The reply is `GotoReply`. On success every client in the set receives the slide number exactly once; otherwise no client receives anything. |
| TsServer.ReopenThenClose | src/main.tsx:143-148 | A socket opened twice and closed once is out of the set and gets nothing from a later `/goto`, while another open socket does. |

## Left out

- Concurrency is not modelled.
  - The model takes one event at a time.
  - The `Mutex`/`RwLock` ordering, task scheduling and `select!` fairness are not modelled.
  - The chance that `goto`, while holding the registry read lock and waiting on a full channel, deadlocks with a handler waiting for the write lock to deregister is not modelled.
- RustSync.NextId: models release-build wrap-around only; a debug build panics on the overflow from 65535 instead.
- HTTP routing, static file serving, the WebSocket upgrade and the HTTP status of a failed TypeScript parameter validation are not modelled. They are transport plumbing in libraries outside the model.
- The TypeScript `/:slide` route is not modelled; it only serves a file.
- File reads, JSON (de)serialisation and schema validation are not modelled. The slide read is a function parameter, and the config is taken as already parsed.
- The schema's guarantee of at least one slide is taken as `TsServer.Script`'s precondition.
- The HTML and CSS templating in `root` and the JSX page is not modelled; neither are `display_help`, the usage text, the interactive `init` flow or `src/script.js`. These are user-interface output and terminal I/O.
- Rust `root` appends `()` to the script when control is on; this is not modelled, being the same template output.
- The TypeScript listening port is not modelled. It is `args.port ?? 3000`, a single expression with no logic of its own.
- Message payloads other than Ping and Close are abstracted: Text, Binary and Pong frames are carried with their contents but ignored alike.
- TsServer.Presentation.Goto: takes the slide as an integer; fractional numbers that pass the schema's bounds, and their `JSON.stringify` rendering, are not modelled.
- TsServer.ReplaceFirst: models a replacement string without `$` patterns. The replacements used are digit strings, so none has them.
- JsNumber.ParseInt: computes with exact integers and so does not model double-precision rounding of very long digit strings.
- Lifecycle.Step: assumes that once `socket.recv()` has given `None` or `Some(Err(_))`, every later send fails, so the next relay aborts the handler. Whether it does fail is decided by the WebSocket library, which is outside the model. A read error that leaves the connection writable (an invalid or over-size inbound message, say) would let the handler keep relaying and stay registered. The model does not cover that case.
- Lifecycle.Step: does not model a Pong send that fails on a socket whose stream still works; the source discards that error with `let _ =`, and the model writes the Pong.
