# MindLink room registry, modelled in Dafny

MindLink is a two-player game. Both players see the same picture and each types one word. A round is a
"match" when the two words are equal ignoring case. The server keeps every live game room in one registry,
`games`, keyed by a four-letter room code. This project models that registry and the socket handlers that
change it:

- `create_game` builds a code from four random letters. It opens a waiting room under the code only if the
  code is unused.
- `join_game` seats a second player in a room that has exactly one, sets the room to playing and starts a
  round.
- `submit_word` keeps the first word each connection sends in a round. When two responses are stored, it ends
  the round.
- `disconnect` removes the connection from every room and deletes rooms left empty.
- `startNewRound` clears the responses and shows a new picture.
- `endRound` judges the round: match flag plus the two reported words.

Files, one module each:

- `wrappers.dfy` (`Wrappers`): `Option`, for JavaScript `null`/`undefined`.
- `text.dfy` (`Text`): ASCII lower-casing, standing in for `toLowerCase`.
- `room_code.dfy` (`RoomCode`): the code-building loop and the facts about the codes it produces.
- `rooms.dfy` (`Rooms`): the room record as a value, the response write, the player filter and the
  round judgement.
- `games.dfy` (`Games`): the registry class `Server` (field `games: map<string, Room>`) with one method per
  handler, the pure registry functions the methods are proved against, their lemmas, and three client
  scenarios.

Modelling choices:

- Randomness becomes parameters. The four `Math.floor(Math.random() * 26)` draws are a `seq<int>`. The
  picture URL is a `prompt` string.
- A stored room is an object, so `games[code]` is truthy exactly when the code is a key of the registry.
- A submitted word is `Option<string>`. `None` is a payload without a `word` field (`undefined`).
- Responses map connection ids to `Option<string>`. A key stored with `None` still counts toward
  `Object.keys(...).length`. It does not block a later submission, because the guard tests
  `=== undefined`.
- A word is truthy when it is `Some` and not the empty string, as `&&` and `||` treat string values.
- Events become returned outcome values: `CreateOutcome`, `JoinOutcome`, `SubmitOutcome`, the
  `Option<RoundResult>` of `round_over`, and two sets of codes: those the handler tells `player_disconnected` as written, and those it should tell.
- The two timers become operations the environment calls. When the 30-second timer fires it calls
  `RoundTimedOut`. When the 3-second timer fires it calls `StartNewRound`.
- `Server.Valid()` says every room has one or two players, and a waiting room has exactly one. Every handler
  keeps it.

What the code does not do, and the model therefore does not do either:

- The code has no rounds counter, no total rounds, no scores and no final similarity.
- A code collision is reported with `create_game_error`. The code does not retry.
- `submit_word` does not check that the room is playing. It does not check that the sender is one of the
  room's players.
- Nothing makes round resolution happen exactly once.
- The same connection may join the room it created. It then holds both seats under one id, so its one
  word is read for both players and the round matches on a single submission (`Games.SelfJoinMatchesAlone`).
- A room that lost either player can be joined again; the player who stayed becomes player 1.

## Model

| member | source | states |
|---|---|---|
| `RoomCode.CharAt` | server/server.js:37 | `charAt` gives one capital letter for an index in [0,26) and the empty string otherwise |
| `RoomCode.CodeOf` | server/server.js:35-38 | the accumulated code is never longer than the number of draws and holds only capital letters |
| `RoomCode.CodeExample` | server/server.js:34-38 | the draws 2, 14, 3, 4 spell CODE |
| `RoomCode.BuildCode` | server/server.js:34-38 | the loop appends one `charAt` per draw, left to right; with draws in [0,26) the code has exactly four characters, all in `A`–`Z`, and character k is the letter of draw k |
| `RoomCode.AlphabetAt` | server/server.js:34 | letter k of the `chars` string is the character k places after `A` |
| `RoomCode.CodeOfLetters` | server/server.js:36-38 | in-range draws give a code with one letter per draw, each the letter that draw indexes |
| `RoomCode.GeneratedCodeIsRoomCode` | server/server.js:34-38 | four in-range draws always give four capital letters |
| `RoomCode.EveryRoomCodeGenerated` | server/server.js:34-38 | every four-capital-letter code comes from some four draws, so all 26^4 codes can occur |
| `RoomCode.CodeOfInjective` | server/server.js:34-38 | distinct in-range draws give distinct codes, so uniform draws give uniform codes |
| `Text.Lower` | server/server.js:133 | `toLowerCase` (ASCII): same length, each character folded, no capital letter left |
| `Text.LowerEqualIff` | server/server.js:133 | lower-case forms are equal exactly when the strings have the same length and agree letter by letter up to case |
| `Text.LowerChar` | server/server.js:133 | one character is folded: a capital letter becomes its small letter, every other character is kept, and no capital is left |
| `Rooms.Record` | server/server.js:85 | writing a response sets only that id's entry; players, state and prompt are untouched; the id counts as having responded exactly when the word is present; the key count grows by one only for a new key |
| `Rooms.PairCompletes` | server/server.js:84-88 | after the responses are cleared, two distinct ids submitting bring the count to two, which makes `submit_word` call `endRound` |
| `Rooms.Without` | server/server.js:97 | `filter` keeps exactly the players whose id differs, and never lengthens the list |
| `Rooms.WithoutPair` | server/server.js:97 | from a pair with distinct ids, removing one id leaves exactly the other player, so that player becomes player 1 |
| `Rooms.WithoutUnchanged` | server/server.js:97 | the filter returns the list unchanged exactly when no player has the id |
| `Rooms.HasResponse` | server/server.js:84 | an id has responded when its entry exists and is not `undefined` |
| `Rooms.WordOf` | server/server.js:129-130 | the word under the i-th player's id; `undefined` when there is no i-th player or that player has no response |
| `Rooms.Truthy` | server/server.js:133 | a word counts as given when it is present and not the empty string |
| `Rooms.Reported` | server/server.js:139-140 | the reported word (the word, or "No response" in its place) is never empty, and is the word itself whenever the word is truthy |
| `Rooms.Judge` | server/server.js:132-140 | the `round_over` payload; when it reports a match, both reported words are the submitted words, non-empty and equal up to case |
| `Rooms.WellFormed` | server/server.js:40-104 | the room invariant: one or two players, and exactly one while waiting |
| `Rooms.JudgeMatch` | server/server.js:132-135 | match holds exactly when both words are present and non-empty, of equal length, and equal letter by letter up to case |
| `Rooms.JudgeWords` | server/server.js:137-141 | each reported word is the player's word, or "No response" when that word is missing or empty; a missing word never matches |
| `Rooms.JudgeSymmetric` | server/server.js:132-141 | swapping the two players keeps the match flag and swaps the reported words |
| `Rooms.CaseInsensitiveExamples` | server/server.js:132-141 | "Cat"/"cat" match; "cat"/"dog" do not; a missing word gives "No response"; two empty words do not match |
| `Games.EndRound` | server/server.js:126-128 | `endRound` produces a `round_over` exactly when the room exists and is playing; as a function it never changes the registry |
| `Games.EndRoundReportsResponses` | server/server.js:129-141 | for a playing two-player room, the match flag and both reported words, stated in terms of the responses stored under player 1's and player 2's ids |
| `Games.LonePlayerNeverMatches` | server/server.js:129-141 | a playing room left with one player reports "No response" for player 2 and never matches |
| `Games.OneResponseAtTimeout` | server/server.js:118-141 | when the timer fires with only player 1's word stored, the round is not a match; player 1's word is reported and player 2 gets "No response" |
| `Games.SelfJoinMatchesAlone` | server/server.js:129-140 | when both seats hold the same id and that id stored a truthy word, the same entry is read twice and the round matches on that one word |
| `Games.RegistryValid` | server/server.js:18 | the registry invariant: every room in `games` is well formed, so no room is empty |
| `Games.AfterDisconnect` | server/server.js:96-100 | the registry after the loop keeps no code that was not there before |
| `Games.DisconnectRemovesPlayer` | server/server.js:96-104 | after a disconnect no room holds the id; a room survives exactly when some other player remains; a surviving room keeps its state, prompt and responses |
| `Games.AfterDisconnectValid` | server/server.js:96-104 | a disconnect keeps every room at one or two players, and a waiting room at one |
| `Games.AfterDisconnectIdempotent` | server/server.js:96-104 | a second disconnect of the same id changes nothing |
| `Games.DisconnectOfStranger` | server/server.js:96-104 | disconnecting an id that no room holds leaves the registry as it is; the handler still tells every room, and the corrected set is empty |
| `Games.NotifiedAsWritten` | server/server.js:101-103 | the rooms the handler tells `player_disconnected`, as written: only codes of the registry |
| `Games.NotifiedAsWrittenRooms` | server/server.js:101-103 | as written, a room is told exactly when some player other than the leaving one remains, whether or not the leaving one was in it |
| `Games.Notified` | server/server.js:101-103 | the corrected set of rooms to tell: among the rooms the handler tells |
| `Games.NotifiedRooms` | server/server.js:101-103 | in the corrected set, a room is told exactly when it held the id and still has another player |
| `Games.UnrelatedRoomNotified` | server/server.js:101-103 | as the loop is written, a room the disconnected player was never in is still told |
| `Games.Server.constructor` | server/server.js:18 | the registry starts empty |
| `Games.Server.CreateGame` | server/server.js:32-53 | with an unused code, exactly one room is added: the creator alone, waiting, no prompt, no responses; the reply is `game_created` with the code; every other room is unchanged. With a used code the registry is unchanged and the reply is `create_game_error` |
| `Games.Server.JoinGame` | server/server.js:56-77 | join succeeds exactly when the room exists with one player. The players become [the player already seated, joiner], the state playing, the responses empty and the prompt the new one; the reply names player 1 and player 2. Otherwise the registry is unchanged and the reply is `join_game_error` |
| `Games.Server.SubmitWord` | server/server.js:80-91 | a word is stored only if the room exists and the sender has no response yet, so the first word wins. Otherwise the registry is unchanged. `endRound` is called exactly when the stored responses number two; it reports a result only for a playing room |
| `Games.Server.Disconnect` | server/server.js:94-105 | the registry becomes the filtered registry, with empty rooms deleted; `told` is the set the handler tells, every room that survives; `shouldTell` is the corrected set, the rooms that held the id and keep a player |
| `Games.Server.LeaveRoom` | server/server.js:97-99 | one turn of the loop: the id is filtered out of one room, and the room is deleted if that empties it |
| `Games.Server.StartNewRound` | server/server.js:108-124 | on an existing room, only the responses (cleared) and the prompt (the new one) change; on a missing code nothing changes |
| `Games.Server.RoundTimedOut` | server/server.js:118-122 | the 30-second timer ends the round only if the room is playing, and then reports what `endRound` reports |
| `Games.PairingScenario` | server/server.js:32-77 | create under CODE succeeds; a second create under CODE fails; joining starts a playing room with both players |
| `Games.MatchingRound` | server/server.js:80-91 | "Cat" then "cat" ends the round as a match; a later word from the first player is ignored |
| `Games.LeavingScenario` | server/server.js:94-105 | when Ann leaves, the registry in between is CODE with Bob alone, still playing, same prompt and responses, and CODE is told; when Bob leaves, nothing is told and the registry is empty |

## Findings

| source | as written | input that shows it | evidently intended | confidence | as-written member | corrected member |
|---|---|---|---|---|---|---|
| server/server.js:101-103 | the `else` branch sends `player_disconnected` to every room that still has players, including rooms the disconnected connection was never in | a registry with room ABCD holding only player p; connection q disconnects; ABCD is told that a player disconnected | tell only the rooms the connection was in, when another player remains | high; not executed | `Games.UnrelatedRoomNotified` | `Games.Notified` |

`Games.NotifiedAsWritten` is the as-written set of rooms told, and `Games.NotifiedAsWrittenRooms` says which
rooms it holds. `Games.NotifiedRooms` proves which rooms the corrected set holds. `Games.Server.Disconnect`
returns both: `told` is what the handler emits, `shouldTell` is the corrected set.

## Left out

- HTTP and static file serving (server/server.js:1-26, 147-149): I/O plumbing.
- The Socket.IO transport: `socket.join`, the `io.to(...).emit` fan-out and console logging. Emits appear only
  as returned outcome values.
- `Math.random` and the picture URL built from it: these become the `draws` and `prompt` parameters.
- `setTimeout` scheduling: the environment calls `RoundTimedOut` and `StartNewRound`. Nothing models time or
  the order in which pending timers fire.
- Games.Server.RoundTimedOut: the timer at server/server.js:118-122 tests the room object captured when the
  round started. The model tests the room currently stored under the code. The two differ only when that room
  was deleted and a new room took the same code before the timer fired.
- Exactly-once round resolution: the code does not guarantee it. After two submissions end a round early, the
  30-second timer still calls `endRound` while the room is playing. That sends a second `round_over` and
  schedules a second `startNewRound`. The other order happens too: when the timer has already reported a
  round with one word, a second word arriving before the new round starts brings the count to two, and
  `endRound` reports the same round again, possibly now as a match. No property claims otherwise.
- Response ids being a subset of player ids: `submit_word` never checks membership, so no such invariant is
  stated.
- Rounds counter, total rounds, per-player scores and final similarity: they do not exist in this code.
- Full Unicode `toLowerCase`: case folding is ASCII only.
- Non-string or missing payload fields other than `word`: `playerName` and `gameCode` are modelled as
  strings. A missing `data` object throws in the JavaScript, and so can a word that is a truthy non-string
  value. Neither is modelled.
- A `null` word: the JavaScript stores it, and because `null !== undefined` it blocks later submissions
  from that id; it is reported as "No response". `Option<string>` has only `undefined` (`None`), so this
  case is not modelled.
- A lone player's round: `player2Id` is then `undefined`, and `responses[undefined]` reads the key
  "undefined". The model reads no response for a missing second player; a connection id that is the
  string "undefined" is not modelled.
- Codes that name inherited object properties (such as `constructor`): `games[code]` would then find a
  prototype member, and the handler would throw. Generated codes are capital letters and never collide with
  these names. A client-sent code could, and this is not modelled.
- In-place mutation of the shared room object: each handler replaces the room's entry in the `games` map with
  the updated value. No two codes share a room object, so nothing else observes the difference, except the
  timer capture noted above.
