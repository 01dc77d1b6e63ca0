# Collaboration server, chat client and Python playground — a Dafny model

This project models the three pieces of eduCareerAI that hold real logic:

- **The signalling and chat server** (`backend/server.js`). It keeps a map of video rooms, each with a host and an insertion-ordered participant set. It handles `create-room`, `join-room` and `end-room`. On `disconnect` it hands the host role over or deletes the room. It relays `offer` / `answer` / `ice-candidate` while a room exists. It keeps one append-only chat log per collaboration room (`message`, `join-collaboration`) and fans typing notices out to the rest of the room.
  - Every handler is a pure transition `(Server, event) -> Reply(state, effects)`. The effects are the socket subscriptions and the emits the handler performs, in order.
  - `Step` dispatches one inbound event; `Run` folds a sequence of them.
- **The chat page** (`src/components/EnhancedLearning/CollaborationSpace.tsx`).
  - It models the state updaters behind the `message`, `existing-messages`, `user-typing`, `user-stopped-typing` and `user-left` listeners.
  - It also models the decisions in `handleSendMessage` and `handleTyping`, and the typing timer that clears the flag.
- **The code playground** (`src/components/EnhancedLearning/CodePlayground.tsx`).
  - `checkPythonSyntax` is modelled in full: the bracket stack carried across lines, the indentation rule, and the two regular-expression checks.
  - So are the canned result chosen by `simulatePythonExecution`, the `print(...)` output it builds, and what `runCode` shows.

Modules, one concept each:

| module | file | what it holds |
|---|---|---|
| `Wrappers` | wrappers.dfy | `Option`, `Result` |
| `Strings` | strings.dfy | JavaScript whitespace, `trim`, `search(/\S/)`, `split` / `join` on one character, `includes`, decimal rendering of integers |
| `Members` | members.dfy | a JavaScript `Set` as a duplicate-free, insertion-ordered sequence (`add`, `delete`) |
| `RoomTable` | room_table.dfy | the `rooms` `Map` as an insertion-ordered association list (`has`/`get`, `set`, `delete`) and the room invariant |
| `Protocol` | protocol.dfy | inbound events, outbound events, effects, the clock-and-dice environment, the error texts |
| `SignalServer` | signal_server.dfy | the server handlers and `Step` |
| `ServerProperties` | server_properties.dfy | invariant preservation, disconnect hand-over, the roster reply, log replay, scenarios |
| `ChatClient` | chat_client.dfy | the client reducers and the send/typing decisions |
| `PythonSyntax` | python_syntax.dfy | `checkPythonSyntax` |
| `Playground` | playground.dfy | `print(...)` matching, `simulatePythonExecution`, `runCode` |

Modelling choices:

- **Absent fields.** An absent or empty string field on the server is `""`. The field checks of `create-room`, `join-room`, `join-collaboration`, `message`, `typing` and `stopped-typing` test truthiness, so `undefined` and `""` take the same branch there. `end-room` and the three relays instead test `rooms.has(roomId)` and `room.host === userId` (backend/server.js:134-136, 149, 159, 169). There `undefined` and `""` also agree, because every stored room id and participant id is non-empty (`RoomTable.Valid`), so neither value ever finds a room or matches a host.
  - A missing payload is `None`. On `create-room`, `join-room` and `join-collaboration`, destructuring `undefined` throws inside the `try`. The catch sends the handler's own error text, and the model returns that error.
  - On the client, `data.userId` is an `Option<string>`, because `undefined !== ""` matters in the typing listeners.
- **Clock and random numbers.** `Date.now()`, `new Date().toISOString()` and `Math.random()` are parameters: `Env(millis, isoNow, rolls)`.
  - Draw `k` of a join decides the `k`-th display name. The name is `"User" + floor(roll mod 1000)`.
- **Host failover.** Participants are a duplicate-free sequence in insertion order, so `Array.from(set)[0]` is the earliest-joined survivor.
- **Connection ids are separate from user ids.** Disconnect takes the connection id as given and removes exactly that id. `create-room` and `join-room` store the client-chosen `userId`. The model never assumes the two are equal, so a room whose members joined under other ids is left alone by a disconnect (`DisconnectSparesOtherRooms`).
- **JavaScript whitespace.** `trim()` and `\s` use the ECMAScript set: the WhiteSpace and LineTerminator characters, including U+FEFF and the Zs space separators. `.` in a regular expression stops at `\n`, `\r`, U+2028 and U+2029.

Behaviours of the code worth noting:

- **`message` guard.** The handler drops a post only when `roomId` or the `message` object is falsy (backend/server.js:210). An empty `content` is stored and broadcast.
- **Fallback ids.** A post without an id gets `Date.now().toString()`. Two such posts in the same millisecond therefore share an id (`FallbackIdsCollideOnlyWithinAMillisecond`); nothing makes them distinct.
- **`new-host` is sent twice** on a host hand-over (backend/server.js:58-59): once to the new host's own channel and once to the whole room.
- **Rejoining announces again.** A rejoin by a present member still sends `user-joined` to the others; only the participant set is unchanged.
- **The relay uses `socket.to(target)`.** It sends to the target's channel excluding the sender; payloads are passed through untouched.

## Model

| member | source | states |
|---|---|---|
| Members.Add | backend/server.js:103 | `set.add`: the members are the old ones plus the new one; the old order is a prefix; the set is unchanged exactly when the element was already in it; no duplicates arise |
| Members.Remove | backend/server.js:52 | `set.delete`: the members are the old ones except the removed one; deleting an absent element changes nothing; no duplicates arise |
| Members.RemoveCutsOut | backend/server.js:52 | in a duplicate-free set, deleting a member cuts out exactly its one position and keeps everyone else in order |
| Members.FirstSurvivor | backend/server.js:55-56 | after deleting `x` from a set of two or more, `Array.from(set)[0]` is the earliest-inserted member other than `x` |
| Members.RemoveAfterAdd | backend/server.js:103-114 | adding the joiner and then filtering it out gives the old set without the joiner |
| RoomTable.Find | backend/server.js:101-102 | `rooms.has` / `rooms.get`: nothing is found exactly when the id is not a key; a found room is the stored one |
| RoomTable.PutFacts | backend/server.js:77-80 | `rooms.set`: a new key goes last and an existing key keeps its place; the key then maps to the new room; every other key keeps its room; no other entry appears |
| RoomTable.Delete | backend/server.js:141 | `rooms.delete`: the key leaves the key order, looking it up fails, and every other key keeps its room |
| RoomTable.PutKeepsValid | backend/server.js:76-80 | storing a valid room under a non-empty key keeps the keys unique and every room valid (non-empty, host a participant, no duplicates) |
| RoomTable.DeleteKeepsValid | backend/server.js:141 | deleting a key keeps the table valid |
| SignalServer.DisplayName | backend/server.js:109 | a synthesized name is `User` followed by one to three digits |
| SignalServer.HandleCreateRoom | backend/server.js:68-91 | a missing payload or field, or an existing id, sends the matching error to the sender and changes nothing; otherwise a room with the creator as host and sole participant is stored last, other rooms are untouched, and the sender is subscribed and told `room-created` |
| SignalServer.Joined | backend/server.js:102-103 | joining keeps the host, adds the joiner once (at the end if new), changes nothing on a rejoin, and keeps a valid room valid |
| SignalServer.Roster | backend/server.js:113-119 | the `existing-participants` entries follow the given ids in order, and `isHost` holds exactly for the host's id |
| SignalServer.HandleJoinRoom | backend/server.js:93-130 | a missing payload or field, or an unknown room, sends the matching error and changes nothing; otherwise only that room changes (to the joined room), key order is kept, and the four effects are subscribe, `room-joined`, `user-joined` to the others with draw 0 as name, and `existing-participants` to the sender |
| SignalServer.EndNotices | backend/server.js:137-140 | `room-ended` goes first to the room channel, then to each participant's channel in set order |
| SignalServer.HandleEndRoom | backend/server.js:132-145 | the host's request deletes exactly that room, keeps the other room ids in their order, and emits the end notices; any other request (unknown room, non-host) changes nothing and emits nothing |
| SignalServer.RelaySignal | backend/server.js:147-175 | relays never change the state; while the room exists the sender id and payload go unchanged to the target (sender excluded), otherwise nothing is sent |
| SignalServer.HandleJoinCollaboration | backend/server.js:178-200 | after the field checks, an existing log is left as it is and a missing one is created empty; the sender is subscribed and receives that log verbatim |
| SignalServer.Stamp | backend/server.js:219-223 | a stored message keeps sender, content and type; a supplied id or timestamp is kept and a missing one is filled from the clock; the stored id is never empty |
| SignalServer.PostMessage | backend/server.js:202-231 | no payload, no room id or no message stores and sends nothing; otherwise exactly one stamped entry is appended to that room's log (created if missing), every other log is unchanged, and the entry is broadcast to the room |
| SignalServer.Presence | backend/server.js:233-275 | typing notices never change the state; with both fields present, exactly one `user-typing` / `user-stopped-typing` with the matching flag goes to the room without the sender |
| SignalServer.Depart | backend/server.js:51-62 | the leaver is removed and `user-left` goes to the room; the room is deleted exactly when nobody else was in it; a non-host leaving keeps the host; a host leaving hands over to a remaining participant, who is told `new-host` on their own channel and then on the room channel; validity is kept |
| SignalServer.SweepKeepsValid | backend/server.js:50-64 | the disconnect sweep keeps room ids unique and every remaining room valid |
| SignalServer.SweepActsPerRoom | backend/server.js:50-64 | after the sweep, each room is exactly the per-room outcome: untouched if the id was not a participant, otherwise the departure's result |
| SignalServer.SweepActsOnEveryRoom | backend/server.js:50-64 | the per-room outcome holds for every room id at once |
| SignalServer.HandleDisconnect | backend/server.js:46-65 | disconnect leaves the chat logs alone and, while room ids are unique, turns every room into its per-room departure outcome; the surviving room ids keep their table order (`Survivors`); its events are exactly the rooms' departure notices concatenated in table order (`AllNotices`), so a hand-over's two `new-host` events are among them; it emits nothing exactly when no room lists the id; every room that lists it hears `user-left`; and every emitted event is a notice of leaving a room that listed it |
| SignalServer.SweepRooms | backend/server.js:50-64 | the `rooms.forEach` sweep leaves the ids of the rooms that outlive the departure in their table order (`Survivors`), invents no room id, keeps every room that does not list the id exactly as it was, and leaves no remaining room listing the id |
| SignalServer.Survivors | backend/server.js:50-64 | the ids that outlive a disconnect are drawn from the table, at most one per room, and include every room whose departure keeps it |
| SignalServer.SweepEmits | backend/server.js:50-64 | the `forEach` sweep emits the rooms' departure notices in table order; it emits nothing exactly when no room lists the id; each of its events belongs to the departure from a room that lists the id; every event of every such departure is emitted, `user-left` included |
| ServerProperties.StepKeepsInvariant | backend/server.js:37-276 | every handler keeps the store invariant: unique non-empty room ids, each room non-empty, duplicate-free, with its host among its participants |
| ServerProperties.RunKeepsInvariant | backend/server.js:37-276 | from a state that satisfies the invariant, the invariant holds after any sequence of events handled one at a time |
| ServerProperties.ReachableStatesKeepInvariant | backend/server.js:31-35 | every state reachable from the empty stores satisfies the invariant |
| ServerProperties.DisconnectEmitsEveryNotice | backend/server.js:50-64 | every event of the departure from a room that lists the id, the hand-over's two `new-host` events included, is emitted by the disconnect |
| ServerProperties.DisconnectSparesOtherRooms | backend/server.js:50-51 | a disconnect leaves every room that does not contain the id untouched |
| ServerProperties.NonHostLeaveKeepsHost | backend/server.js:51-53 | a non-host leaving keeps the host and removes just that participant |
| ServerProperties.HostLeaveHandsOver | backend/server.js:55-59 | when the host leaves a room of two or more, the new host is the earliest-joined remaining participant |
| ServerProperties.HostDisconnectNotices | backend/server.js:51-59 | when the host of a two-person room disconnects, the events are `user-left` to the room, then `new-host` to the remaining member's channel, then `new-host` to the room |
| ServerProperties.LastLeaveDeletesRoom | backend/server.js:60-61 | when the only participant leaves, the room is deleted |
| ServerProperties.ExistingParticipantsExact | backend/server.js:113-121 | the roster lists the room's participants other than the joiner, in join order, and flags exactly the host's entries; in a valid room, when the joiner is not the host, exactly one entry is flagged |
| ServerProperties.RosterFlagsOne | backend/server.js:118 | when the host appears once among the ids, exactly one roster entry is flagged |
| ServerProperties.RejoinDoesNotDuplicate | backend/server.js:101-103 | a participant joining again leaves the room exactly as it was |
| ServerProperties.PostsAppendInOrder | backend/server.js:215-225 | posting a sequence of messages appends their stamped copies to the log, once each, in post order |
| ServerProperties.PostsLeaveOtherLogs | backend/server.js:215-225 | posts to one room leave every other room's log unchanged |
| ServerProperties.ReplayAfterPosts | backend/server.js:188-195 | a client joining a collaboration room after a run of posts receives the earlier log followed by exactly the posted messages, stamped, in post order |
| ServerProperties.JoinCollaborationKeepsLog | backend/server.js:188-190 | joining a collaboration room never changes any log |
| ServerProperties.FallbackIdsCollideOnlyWithinAMillisecond | backend/server.js:221 | two posts without ids get the same stored id exactly when they arrive in the same millisecond |
| ServerProperties.CreateThenJoin | backend/server.js:68-130 | after create then join by someone else, the joiner's roster is just the host, flagged as host; the room hears one `user-joined` for the joiner; no other effect is a `user-joined` |
| ServerProperties.JoinHostOnlyRoom | backend/server.js:113-121 | joining a room that holds only its host sends a roster of just the host, flagged |
| ServerProperties.JoinAnnouncesOnce | backend/server.js:104-121 | an admitted join emits exactly one `user-joined`, the third effect |
| ServerProperties.CreateTwice | backend/server.js:76-86 | a second create for a live room sends "Room already exists", changes nothing, and the first membership stays |
| ServerProperties.SoleParticipantLeaves | backend/server.js:50-62 | after the sole participant disconnects, joining that room id fails with "Room does not exist" |
| ServerProperties.NonHostCannotEnd | backend/server.js:134-136 | an `end-room` from a non-host changes nothing and emits nothing |
| ChatClient.OnMessage | src/components/EnhancedLearning/CollaborationSpace.tsx:81-94 | the list grows by one exactly when the message has id, sender and content and its id is new, and the message goes last; otherwise it is unchanged; unique ids stay unique |
| ChatClient.OnMessageIdempotent | src/components/EnhancedLearning/CollaborationSpace.tsx:84-91 | delivering a message twice gives the same list as delivering it once |
| ChatClient.Fresh | src/components/EnhancedLearning/CollaborationSpace.tsx:101-103 | the kept messages are exactly those of the batch whose id is not already listed |
| ChatClient.OnExistingMessages | src/components/EnhancedLearning/CollaborationSpace.tsx:96-108 | the old list stays as a prefix; the appended part holds exactly the batch's messages with unlisted ids; a missing or non-array batch changes nothing |
| ChatClient.FreshDistributes | src/components/EnhancedLearning/CollaborationSpace.tsx:101-103 | the filter works message by message, so the batch's order is kept |
| ChatClient.FreshKeepsNewIds | src/components/EnhancedLearning/CollaborationSpace.tsx:101-103 | a batch with no listed id is appended whole |
| ChatClient.FreshOfCovered | src/components/EnhancedLearning/CollaborationSpace.tsx:101-103 | a batch whose ids are all listed adds nothing |
| ChatClient.BatchNotDeduplicated | src/components/EnhancedLearning/CollaborationSpace.tsx:101-104 | duplicates inside one batch are not removed against each other |
| ChatClient.OnExistingMessagesIdempotent | src/components/EnhancedLearning/CollaborationSpace.tsx:96-108 | merging the same batch twice gives the same list as merging it once |
| ChatClient.OnPresence | src/components/EnhancedLearning/CollaborationSpace.tsx:110-124 | only `isTyping` can change, and only on users whose id is the event's id, unless that id is the page's own user |
| ChatClient.OnPresenceTouchesOnlyNamedUser | src/components/EnhancedLearning/CollaborationSpace.tsx:110-124 | other users are untouched; an event about oneself changes nothing; applying the same event twice is applying it once |
| ChatClient.Without | src/components/EnhancedLearning/CollaborationSpace.tsx:128 | the remaining users are exactly those with another id |
| ChatClient.OnUserLeft | src/components/EnhancedLearning/CollaborationSpace.tsx:126-130 | a falsy id changes nothing; otherwise exactly the users with that id are removed |
| ChatClient.WithoutDistributes | src/components/EnhancedLearning/CollaborationSpace.tsx:128 | removal works user by user, so the survivors keep their order |
| ChatClient.WithoutKeepsOthers | src/components/EnhancedLearning/CollaborationSpace.tsx:128 | a list without the id passes unchanged |
| ChatClient.WithoutCutsOut | src/components/EnhancedLearning/CollaborationSpace.tsx:126-130 | when the id appears once, `user-left` cuts out exactly that entry and keeps the rest in order |
| ChatClient.SendDraft | src/components/EnhancedLearning/CollaborationSpace.tsx:164-194 | a message is sent exactly when the input is not all whitespace and a session exists; it carries the input, the user's name, the clock id and the clock's ISO time; it is `code` exactly when the input contains three backticks, else `text`; sending clears the box and the typing flag, and not sending changes nothing |
| ChatClient.Keystroke | src/components/EnhancedLearning/CollaborationSpace.tsx:196-206 | the input's change handler (lines 284-287) puts the new text in the box; `typing` is sent exactly on the not-typing to typing step of a session; the flag is then set while a session exists and otherwise keeps its value |
| ChatClient.TypingTimeout | src/components/EnhancedLearning/CollaborationSpace.tsx:208-216 | the timer clears the flag, keeps the input, and sends `stopped-typing` |
| ChatClient.TypingAnnouncedOnce | src/components/EnhancedLearning/CollaborationSpace.tsx:196-216 | whatever is typed, a second keystroke sends nothing; after the timer fires, the next keystroke announces typing again |
| Strings.SearchNonWhitespace | src/components/EnhancedLearning/CodePlayground.tsx:73 | `search(/\S/)` is -1 exactly on all-whitespace text, else the index of the first non-whitespace character |
| Strings.TrimEmptyIffBlank | src/components/EnhancedLearning/CodePlayground.tsx:70-71 | `trim()` is empty exactly when the text is all whitespace |
| Strings.TrimStartsAtSearch | src/components/EnhancedLearning/CodePlayground.tsx:70-74 | on a non-blank line the trimmed text starts with the character `search(/\S/)` finds |
| Strings.Split | src/components/EnhancedLearning/CodePlayground.tsx:39 | `split('\n')` yields at least one piece and no piece contains the separator |
| Strings.JoinSplit | src/components/EnhancedLearning/CodePlayground.tsx:39 | joining the pieces of a split gives back the text |
| Strings.SplitJoin | src/components/EnhancedLearning/CodePlayground.tsx:110 | splitting a join of separator-free pieces gives back the pieces |
| Strings.Decimal | backend/server.js:221 | a rendered integer is a non-empty digit string without a leading zero |
| Strings.ParseDecimalInverts | backend/server.js:221 | reading a rendered integer gives the integer back |
| Strings.DecimalInjective | backend/server.js:221 | two integers render alike exactly when they are equal |
| PythonSyntax.Pair | src/components/EnhancedLearning/CodePlayground.tsx:43-47 | exactly the three openers have a partner, and it is a closer |
| PythonSyntax.FlatScan | src/components/EnhancedLearning/CodePlayground.tsx:49-61 | the scan fails only on a closer, and its stack holds only openers |
| PythonSyntax.ScanLine | src/components/EnhancedLearning/CodePlayground.tsx:51-60 | the inner loop fails only at a closer, on the line it is scanning, and pushes only openers; `ScanLineIsFlat` ties it to the reference scan |
| PythonSyntax.ScanLines | src/components/EnhancedLearning/CodePlayground.tsx:49-61 | the outer loop reports a closer on one of the lines it scanned, and carries a stack of openers from line to line; `ScanLinesIsFlat` ties it to the reference scan |
| PythonSyntax.ScanLineIsFlat | src/components/EnhancedLearning/CodePlayground.tsx:51-59 | the per-line inner loop is the whole-text scan on a line without a newline |
| PythonSyntax.FlatScanAcrossNewline | src/components/EnhancedLearning/CodePlayground.tsx:49-61 | a newline ends one line's scan and carries the stack into the next line, with the line number one higher |
| PythonSyntax.ScanLinesIsFlat | src/components/EnhancedLearning/CodePlayground.tsx:39-61 | the nested loop over `split('\n')` is the same as one scan over the text |
| PythonSyntax.BalancedClosesParens | src/components/EnhancedLearning/CodePlayground.tsx:42-65 | when the bracket scan passes, every `(` has a `)` after it |
| PythonSyntax.ClosedParensDefeatRegexes | src/components/EnhancedLearning/CodePlayground.tsx:80-89 | when every `(` has a later `)`, neither `print\s*\([^)]*$` nor `def\s+\w+\s*\([^)]*$` matches |
| PythonSyntax.BadlyIndented | src/components/EnhancedLearning/CodePlayground.tsx:70-74 | the per-line indentation test; `BadlyIndentedMeans` states what it flags |
| PythonSyntax.PrintRegexMatches | src/components/EnhancedLearning/CodePlayground.tsx:80-81 | `print\s*\([^)]*$` matches somewhere in the text; `ClosedParensDefeatRegexes` states when it cannot |
| PythonSyntax.DefRegexMatches | src/components/EnhancedLearning/CodePlayground.tsx:86-87 | `def\s+\w+\s*\([^)]*$` matches somewhere in the text; `ClosedParensDefeatRegexes` states when it cannot |
| PythonSyntax.BadlyIndentedMeans | src/components/EnhancedLearning/CodePlayground.tsx:70-74 | a line is flagged exactly when it has a first non-whitespace character, at an index not a multiple of 4, that is not `#` |
| PythonSyntax.FirstBadIndent | src/components/EnhancedLearning/CodePlayground.tsx:68-77 | the reported line is flagged and no earlier line is; none is reported exactly when no line is flagged |
| PythonSyntax.IndentVerdict | src/components/EnhancedLearning/CodePlayground.tsx:68-77 | the indentation check passes exactly when no line is flagged, else it names the first flagged line, counted from 1 |
| PythonSyntax.BalancedOutcome | src/components/EnhancedLearning/CodePlayground.tsx:63-91 | with balanced brackets the check passes exactly when no line is badly indented, and otherwise reports the first such line |
| PythonSyntax.Diagnose | src/components/EnhancedLearning/CodePlayground.tsx:37-92 | the checks in source order: a reported closer is a closer on a line of the text (1-based), a reported leftover is an opener, and a reported indentation problem names the first badly indented line; `DiagnoseMeaning` gives the order |
| PythonSyntax.DiagnoseMeaning | src/components/EnhancedLearning/CodePlayground.tsx:37-92 | bracket errors come first (a bad closer with its 1-based line, else the last open opener); a balanced text gets exactly the indentation verdict |
| PythonSyntax.RegexChecksUnreachable | src/components/EnhancedLearning/CodePlayground.tsx:79-89 | the print and def "missing closing parenthesis" errors are never returned |
| PythonSyntax.BracketMessages | src/components/EnhancedLearning/CodePlayground.tsx:56-64 | a stray closer gives `SyntaxError: Unmatched <c> on line <n>`, with the 1-based line of the closer; a leftover opener gives `SyntaxError: Unmatched <c>`, for the last one opened |
| PythonSyntax.IndentMessage | src/components/EnhancedLearning/CodePlayground.tsx:68-77 | a balanced text passes exactly when no line is badly indented; otherwise the message names the first badly indented line, counted from 1 |
| PythonSyntax.CheckPythonSyntax | src/components/EnhancedLearning/CodePlayground.tsx:37-92 | the result is the bracket-scan message when the scan fails: an unmatched closer with its 1-based line, else the last unclosed opener. For balanced text it is null exactly when no line is badly indented, and otherwise the indentation message for the first such line, counted from 1 |
| PythonSyntax.ExampleScan | src/components/EnhancedLearning/CodePlayground.tsx:51-57 | in `print(")")` the second `)` meets an empty stack on the first line |
| PythonSyntax.BracketInStringLiteral | src/components/EnhancedLearning/CodePlayground.tsx:51-59 | brackets inside string literals count: `print(")")` is rejected with `SyntaxError: Unmatched ) on line 1`, by `CheckPythonSyntax`'s own contract |
| Playground.CallEnd | src/components/EnhancedLearning/CodePlayground.tsx:105 | the lazy group stops at the first `)` or line terminator, or at the end of the text |
| Playground.PrintMatches | src/components/EnhancedLearning/CodePlayground.tsx:105 | every match of the global search starts at or after the search position |
| Playground.PrintMatchesAreStatements | src/components/EnhancedLearning/CodePlayground.tsx:105 | each match is `print(` + its capture + `)` in the text, and the capture holds no `)` and no line break |
| Playground.PrintMatchesOrdered | src/components/EnhancedLearning/CodePlayground.tsx:105 | matches do not overlap and come in text order |
| Playground.PrintMatchesLeftmost | src/components/EnhancedLearning/CodePlayground.tsx:105 | no match is skipped: nothing can match before the first match found, or anywhere when none is found |
| Playground.RematchRecovers | src/components/EnhancedLearning/CodePlayground.tsx:107 | matching a matched statement again captures the same text |
| Playground.StripQuotes | src/components/EnhancedLearning/CodePlayground.tsx:108 | the result has no quote characters and keeps every other character |
| Playground.StripQuotesDistributes | src/components/EnhancedLearning/CodePlayground.tsx:108 | quotes are removed character by character, so the rest keeps its order |
| Playground.StripQuotesIdempotent | src/components/EnhancedLearning/CodePlayground.tsx:108 | text without quotes passes unchanged |
| Playground.Outputs | src/components/EnhancedLearning/CodePlayground.tsx:106-109 | there is one output line per match |
| Playground.OutputsAreContents | src/components/EnhancedLearning/CodePlayground.tsx:106-109 | each output line is the statement's capture with the quotes removed |
| Playground.PrintedOutput | src/components/EnhancedLearning/CodePlayground.tsx:104-110 | code without a `print(...)` match prints nothing; the lines of the output are stated by `Playground.PrintOutputLines` |
| Playground.PrintOutputLines | src/components/EnhancedLearning/CodePlayground.tsx:104-110 | the printed output splits on newlines into one line per match, in order, each the capture without quotes |
| Playground.Simulate | src/components/EnhancedLearning/CodePlayground.tsx:94-118 | a syntax error is thrown with its message; otherwise code containing `print(` gives the printed output, else code containing `def ` gives "Function defined successfully", else code containing `import ` gives "Module imported successfully", else "Code executed successfully" |
| Playground.RunCode | src/components/EnhancedLearning/CodePlayground.tsx:22-35 | the error panel is empty exactly when the syntax check passes; a failure shows `Error: ` + the message and no output; a success shows the simulated result |

## Left out

- **Transport plumbing** (backend/server.js:1-29, 278-281): Express, CORS, the Socket.IO configuration, `server.listen`, the `connect_error` listener and all logging. `socket.join`, `emit` and `to` are recorded as effects; delivery to dead connections is not modelled.
- **Payload-less `end-room` and relay events.** These handlers destructure without a `try`, so a missing payload throws out of the listener. The model always gives these handlers a payload.
- **Non-string field values.** Numbers, objects and other non-string values in ids are not modelled; every id is a string, and a falsy one is `""`.
- **Extra message fields.** Fields beyond id, sender, content, timestamp and type survive the spread `...message` in the source but are not modelled.
- **Timers and delays.** The one-second delay in `simulatePythonExecution`, the two-second typing timer and `clearTimeout` are not modelled as time. The timer's firing is the separate `TypingTimeout` transition, and only the last timer set can fire.
- **React plumbing.** React state batching, `scrollToBottom`, rendering, `selectedUser`, the `isRunning` flag, `handleEditorChange`, and the `connect` / `disconnect` / `user-list` listeners are presentation or session set-up, not state logic. The server never sends `user-list`.
- **The page's own id.** In the page the typing listeners close over the first render's `currentUser`, which is `null`. The model therefore takes the page's own id as a parameter of `ChatClient.OnPresence` and does not fix it.
- **UTF-16 code units.** JavaScript strings are sequences of UTF-16 code units; the model's strings are sequences of Dafny characters. Surrogate pairs are not split.
- **Video conference client.** src/components/EnhancedLearning/VideoConference.tsx is not part of this model: it is WebRTC and media I/O around an external library.
- **Concurrency.** Node runs one handler to completion at a time, so the model is a sequence of transitions.
- Playground.PrintMatches: its own contract only bounds where matches start; what each match is, their order and that none is skipped are stated by `Playground.PrintMatchesAreStatements`, `Playground.PrintMatchesOrdered` and `Playground.PrintMatchesLeftmost`.
- Playground.Outputs: its own contract states only the count; the content of each line is stated by `Playground.OutputsAreContents`.
- SignalServer.DisplayName: states the shape of the name (`User` and one to three digits), not which digits a given draw produces.
