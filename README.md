# Chat server session core, modelled in Dafny

This project models the core of a small asyncio line-chat server:

- the server's registry of connected sessions, a dictionary from each connection's task to its client object;
- the read loop's handling of each line;
- the `/nick` and `/private` commands;
- broadcast, disconnect and shutdown;
- the two lazy-reset rules on a client's moderation counters.

Everything a session is sent is kept as its **outbox**, the sequence of strings written to its stream writer. Each operation's effect is stated as the change it makes to the outboxes and the registry.

The project has three files:

- `text.dfy` (module `Text`): the Python string operations the server relies on. These are `startswith`, `replace(c, "")` for one character, `split(" ")` and `replace(old, new)`. Each keeps Python's semantics, including empty pieces from doubled separators and an empty pattern in `replace`.
- `client_model.dfy` (module `Sessions`): one session. `SessionView` is its observable state as a value. `AfterBanTime` and `AfterMessagingTime` are the reset rules as functions. The class `ClientModel` has the source's fields and updates them in place, and each method is proved equal to its function.
- `server.dfy` (module `ChatServer`): the registry. The first part states each operation as a function on the registry's value, a `map<Task, SessionView>`, and proves what the operation promises. The class `Server` keeps `clients: map<Task, ClientModel>` of session objects and updates them in place, as the source does. Each of its methods is proved to change `Abstract()`, the value of the registry, exactly as the matching function says.

Modelling decisions:

- `datetime.now()` becomes an integer argument `now`, in seconds.
- The peer address's string form is a constructor argument.
- The read loop is a method over the sequence of lines the client sends. Its body, one pass per line, is a method of its own.
- Disconnect is an explicit call, made when that loop ends.
- The sender of a line is named by its task. While its read loop runs, its client object is the one registered under that task.
- `timedelta.seconds` is the elapsed time within the day, not the total elapsed time. The reset rules therefore compare `(now - since) mod 86400` with 14400 or 3600 seconds. `(seconds / 60) >= 240` is exactly `seconds >= 14400`.
- A consequence is proved in `Sessions.BanKeptAfterWholeDay` and `Sessions.WindowPassedPeriodic`: a ban set exactly one day earlier is not lifted, and the outcome repeats every 24 hours.
- `server.py` imports `Client` from `client_model`, but that file defines `ClientModel`. As written, the import fails. The model uses `ClientModel` as the session type.
- `ban_time` and `messaging_time` are never called from `server.py`. No complaint, delay or rate-limit command exists in this code, so none is modelled.
- The `/private` handler sends nothing when no nickname matches. It has no "no such user" reply and no check against messaging oneself. The model keeps both gaps, as written.
- `broadcast_message` uses a shared list as its default exclusion list. The list is never mutated, so a fresh empty set per call behaves the same.
- Exclusion compares client objects by identity. Each client object is registered under exactly one task (`Server.Valid`), so excluding an object is the same as excluding its task (`Server.ExcludeOne`).

## Model

| member | source | states |
|---|---|---|
| `Text.StartsWith` | server.py:80-82 | definition of `str.startswith`; what the dispatch does with it is stated in `ChatServer.ProcessLineDispatch` and the command lemmas |
| `Text.Remove` | server.py:95 | `s.replace(c, "")` leaves no `c` in the result; every other character keeps its number of occurrences (`multiset(r) == multiset(s)[c := 0]`) |
| `Text.RemoveAppend` | server.py:95 | removal distributes over concatenation, so the characters kept appear in their original order |
| `Text.RemoveOne` | server.py:95 | a single character is kept exactly when it differs from the one removed; with `RemoveAppend` this determines `Remove` on every string |
| `Text.RemoveIdempotent` | server.py:95 | removing a character a second time changes nothing |
| `Text.Split` | server.py:97 | `split(" ")` yields at least one piece and no piece contains the separator |
| `Text.JoinSplit` | server.py:97 | joining the pieces of a split with the separator gives back the original line |
| `Text.SplitJoin` | server.py:105 | splitting a join of separator-free pieces gives back exactly those pieces, so a doubled space shows up as an empty token |
| `Text.ReplaceAll` | server.py:112-114 | definition of `str.replace(old, new)`, including the empty pattern; its promises are stated in `Text.ReplaceAllMatch`, `Text.ReplaceAllSkipFirst`, `Text.ReplaceAllFrontOnly`, `Text.ReplaceAllCutOne`, `Text.ReplaceAllSelf` and `Text.ReplaceAllAbsent` |
| `Text.ReplaceAllMatch` | server.py:112-114 | an occurrence of a non-empty pattern at the front is replaced by `new`, and the scan continues right after it |
| `Text.ReplaceAllSkipFirst` | server.py:112-114 | a stretch that lacks the pattern's first character is copied unchanged, and the scan continues with what follows |
| `Text.ReplaceAllFrontOnly` | server.py:112-114 | a pattern at the front whose first character does not occur again is replaced there once, and the rest is kept |
| `Text.ReplaceAllCutOne` | server.py:112-114 | replacing by `""` a pattern whose first character occurs nowhere else cuts out that one occurrence and keeps both sides |
| `Text.ReplaceAllSelf` | server.py:112-114 | `replace(p, p)` leaves any string unchanged, also for an empty `p` |
| `Text.ReplaceAllAbsent` | server.py:112-114 | `replace` with a non-empty pattern that occurs nowhere leaves the string unchanged |
| `Sessions.DaySeconds` | client_model.py:47-48 | `timedelta.seconds` of a difference lies in [0, 86400) and differs from the elapsed time by whole days |
| `Sessions.Deliver` | client_model.py:39-40 | definition of one write to a session; its effect on the class is stated in `Sessions.ClientModel.SendMessage` |
| `Sessions.AfterBanTime` | client_model.py:42-49 | definition of the `ban_time` rule on a session's value; its promises are stated in `Sessions.BanTimeEffect`, `Sessions.BanTimeIdempotent` and `Sessions.BanKeptAfterWholeDay` |
| `Sessions.AfterMessagingTime` | client_model.py:51-58 | definition of the `messaging_time` rule on a session's value; its promises are stated in `Sessions.MessagingTimeEffect` and `Sessions.MessagingTimeIdempotent` |
| `Sessions.BanTimeEffect` | client_model.py:42-49 | `ban_time` changes only `complaint_count`; it does nothing when `banned_time` is unset; otherwise it sets the count to 0 exactly when `(now - banned_time) mod 86400 >= 14400` |
| `Sessions.MessagingTimeEffect` | client_model.py:51-58 | `messaging_time` changes only `message_count`; it does nothing when `first_message` is unset; otherwise it sets the count to 0 exactly when `(now - first_message) mod 86400 >= 3600` |
| `Sessions.BanTimeIdempotent` | client_model.py:42-49 | for a fixed `now`, applying `ban_time` twice equals applying it once |
| `Sessions.MessagingTimeIdempotent` | client_model.py:51-58 | for a fixed `now`, applying `messaging_time` twice equals applying it once |
| `Sessions.ResetsCommute` | client_model.py:42-58 | the two reset rules can run in either order with the same result |
| `Sessions.WindowPassedPeriodic` | client_model.py:47-48 | whether a reset window has passed is the same at `now` and at `now` plus any whole number of days |
| `Sessions.BanKeptAfterWholeDay` | client_model.py:46-49 | a ban set exactly 24 hours earlier is not lifted, while one set 240 minutes earlier is |
| `Sessions.ClientModel.constructor` | client_model.py:6-15 | a new session has the peer address's string as nickname, zero complaint and message counts, no ban or first-message time, and nothing written |
| `Sessions.ClientModel.SendMessage` | client_model.py:39-40 | `send_message` appends its argument to this session's writer output and changes nothing else |
| `Sessions.ClientModel.BanTime` | client_model.py:42-49 | the method changes the fields exactly as `ban_time` does: only `complaint_count`, and only under the condition above |
| `Sessions.ClientModel.MessagingTime` | client_model.py:51-58 | the method changes the fields exactly as `messaging_time` does: only `message_count`, and only under the condition above |
| `ChatServer.Deliveries` | server.py:122-124 | definition of a fan-out of one message to a set of sessions; its promises are stated in `ChatServer.DeliveriesToNobody`, `ChatServer.DeliveriesOneMore` and `ChatServer.DeliveriesDisjoint` |
| `ChatServer.DeliveriesToNobody` | server.py:122-124 | a fan-out to nobody changes nothing |
| `ChatServer.DeliveriesOneMore` | server.py:122-124 | the loop's order does not matter: one more recipient adds the message to that session alone, on top of the fan-out to the others |
| `ChatServer.DeliveriesDisjoint` | server.py:122-124 | two fan-outs of one message to disjoint sets equal one fan-out to their union |
| `ChatServer.Broadcast` | server.py:120-124 | definition of `broadcast_message` on the registry's value; its promise is stated in `ChatServer.BroadcastReaches` |
| `ChatServer.Named` | server.py:108-109 | definition of the private-message targets; their routing is stated in `ChatServer.PrivateRoutes` and `ChatServer.NickThenPrivate` |
| `ChatServer.Accept` | server.py:65-69 | definition of `accept_client` on the registry's value; its promise is stated in `ChatServer.AcceptAddsOne` |
| `ChatServer.Disconnect` | server.py:130-137 | definition of `disconnect_client` on a registered task; its promise is stated in `ChatServer.DisconnectRemovesOne` |
| `ChatServer.Shutdown` | server.py:141-144 | definition of `shutdown_server` on the registry's value; its promise is stated in `ChatServer.ShutdownIsBroadcast` |
| `ChatServer.Strip` | server.py:95 | definition of the two `replace` calls; their promise is stated in `ChatServer.StripIdempotent` |
| `ChatServer.PrivateBody` | server.py:112-114 | definition of the private text; its empty-target case is stated in `ChatServer.PrivateBodyEmptyTarget`, its usual shape in `ChatServer.PrivateBodyShape` and a worked line in `ChatServer.PrivateBodyExample` |
| `ChatServer.BroadcastReaches` | server.py:120-124 | `broadcast_message(m, excl)` keeps the registry's keys; every registered session not excluded gets `m` appended once and nothing else changed; an excluded one is left exactly as it was |
| `ChatServer.PrivateBodyShape` | server.py:104-114 | for a line made of `/private `, the target's name and a remainder `<rest>`, with no other `/` and whose target's first character occurs neither in the sender's label nor in `<rest>`, the text sent is `private message from <nick>:  ` followed by `<rest>`: the command word becomes the label and the name is cut out, its spaces kept |
| `ChatServer.PrivateBodyExample` | server.py:112-114 | `/private bob hi` from `alice` sends `private message from alice:   hi`: the command word becomes the label and the name `bob` is cut out, its spaces kept |
| `ChatServer.AcceptAddsOne` | server.py:65-69 | accepting adds exactly one new task; existing sessions are unchanged; the new session's only output is the welcome text |
| `ChatServer.DisconnectRemovesOne` | server.py:130-137 | disconnecting removes only that task; every other session is sent `<nick> has left!`; the departing one gets no leave notice and its last write is `quit` |
| `ChatServer.AcceptThenDisconnect` | server.py:65-137 | a connection accepted and then disconnected leaves the original tasks; each has only been told that the newcomer left; the newcomer saw the welcome text and `quit` |
| `ChatServer.ShutdownIsBroadcast` | server.py:141-144 | shutting down writes `quit` once to every session, the same as broadcasting `quit` with nobody excluded |
| `ChatServer.StripIdempotent` | server.py:95 | after the two `replace` calls the line has no `\n` and no `\r`, and stripping again changes nothing |
| `ChatServer.HandleCommand` | server.py:94-118 | handling a command never adds or removes a registry entry |
| `ChatServer.HandleCommandIgnoresLineBreaks` | server.py:95 | the command handler's result on a line equals its result on that line with every `\n` and `\r` removed |
| `ChatServer.NickRenames` | server.py:96-102 | `/nick` with at least two tokens leaves the sender's record as it was except that the nickname is token 1 and `Nickname changed to <token1>\n` is appended to its output; keys and all other sessions are unchanged |
| `ChatServer.NickThenPrivate` | server.py:96-116 | after a session renames itself to `X`, a `/private X ...` line from any session appends the private body to the renamed session's output |
| `ChatServer.NickWithoutNameIsSilent` | server.py:96-98 | `/nick` with fewer than two tokens changes nothing and writes nothing, not even `Invalid Command` |
| `ChatServer.PrivateRoutes` | server.py:104-116 | `/private T ...` appends the private body to exactly the sessions named `T`, the sender included if it matches, and writes to no other session |
| `ChatServer.PrivateToNobodyIsSilent` | server.py:104-116 | a `/private` line whose target matches no nickname writes nothing at all |
| `ChatServer.PrivateBodyEmptyTarget` | server.py:112-114 | with an empty target name, from a doubled space, the second `replace` removes nothing |
| `ChatServer.UnknownCommandRejected` | server.py:117-118 | a command that is neither `/nick` nor `/private` appends exactly `Invalid Command\n` to the sender and changes nothing else |
| `ChatServer.ProcessLine` | server.py:80-86 | one pass of the read loop never adds or removes a registry entry |
| `ChatServer.ProcessLineDispatch` | server.py:80-86 | a line starting `quit` ends the loop with no output; a line starting `/` goes only to the command handler; any other line appends `<nickname>: <line>` to every session, the sender's included |
| `ChatServer.EmptyReadBroadcasts` | server.py:78-86 | an empty read, which is what the stream returns at its end, is not a `quit`: it broadcasts `<nickname>: ` to every session and the loop goes on |
| `ChatServer.RunLines` | server.py:76-90 | the read loop keeps the registry's keys, and it ends exactly when some line it reads starts with `quit` |
| `ChatServer.RunLinesAppend` | server.py:77-90 | one more line continues the loop from where it stopped, unless it had already ended |
| `ChatServer.RunLinesStopsAtQuit` | server.py:80-81 | once a `quit` line has ended the loop, later lines have no effect |
| `ChatServer.SessionLifecycle` | server.py:65-137 | accepting a connection, reading its lines to `quit` and disconnecting it leaves the registry with its original tasks |
| `ChatServer.Server.constructor` | server.py:22-26 | a new server has an empty registry |
| `ChatServer.Server.AcceptClient` | server.py:65-74 | `accept_client` registers a fresh session object under a fresh task and writes the welcome text to it; the registry's value changes as `Accept` says |
| `ChatServer.Server.IncomingClientMessages` | server.py:76-92 | the read loop changes the registry exactly as `RunLines` says and reports whether a `quit` line ended it |
| `ChatServer.Server.IncomingClientMessage` | server.py:78-86 | one pass of the loop changes the registry exactly as `ProcessLine` says |
| `ChatServer.Server.HandleClientCommand` | server.py:94-118 | `handle_client_command` changes the registry exactly as `HandleCommand` says |
| `ChatServer.Server.PrivateToNickname` | server.py:106-116 | the loop over the clients sends the private body, built from the sender's nickname, to every session named `msg_for` and to no other |
| `ChatServer.Server.BroadcastMessage` | server.py:120-124 | `broadcast_message` changes the registry exactly as `Broadcast` says, with the tasks of the excluded client objects excluded |
| `ChatServer.Server.PrivateMessage` | server.py:126-128 | `private_message` appends the message to the target's writer output only |
| `ChatServer.Server.ExcludeOne` | server.py:133-134 | excluding a registered client object excludes exactly its own task |
| `ChatServer.Server.DisconnectClient` | server.py:130-139 | an unregistered task raises `KeyError` and changes nothing; for a registered task, the registry and the departed session change as `Disconnect` says |
| `ChatServer.Server.ShutdownServer` | server.py:141-144 | `shutdown_server` writes `quit` to every session as `Shutdown` says |

## Left out

- `client.py`: an interactive terminal client. It is pure I/O over `aioconsole` and `asyncio` streams.
- The asyncio plumbing: `start_server`, `run_until_complete`, `run_forever`, task creation, `add_done_callback`, `writer.drain`, `writer.close` and `loop.stop`. The read loop is one method call per client, and disconnect is an explicit call.
- Concurrency between connection tasks: the model is sequential.
- `loguru` configuration and every log call.
- Byte framing: `reader.read(255)` and UTF-8 encoding and decoding. Messages are strings, and each line given to the read loop is one read.
- The end of the stream: in the source a read at end of stream returns an empty string, which does not stop the loop. The model reads only the lines it is given; `ChatServer.EmptyReadBroadcasts` states what each such empty read does, and that it does not end the loop. Whether the connection is torn down later depends on a write to it failing at `writer.drain`, which is not modelled.
- `writer.get_extra_info('peername')`: the peer address's string form is a constructor argument. `ClientModel`'s `_ip`, `_port` and `__str__` serve only logging and are not modelled.
- `datetime.now()`: the current time is an integer `now` in seconds. Sub-second parts of a `timedelta` are not modelled.
- The `Server`'s `ip`, `port` and `loop` only configure the excluded listening socket. `ip` and `port` are kept as constants, and `loop` is left out.
- `Text.ReplaceAll`: the replacing case is proved where the pattern's first character does not recur within the stretch skipped (`ReplaceAllSkipFirst`, `ReplaceAllFrontOnly`, `ReplaceAllCutOne`). Skipping a stretch where that character recurs but the whole pattern never starts is stated only for a whole string (`ReplaceAllAbsent`). So a private text whose target's first letter also occurs in the sender's label or in the message is not characterised beyond `ChatServer.PrivateRoutes` and `ChatServer.PrivateBodyEmptyTarget`.
