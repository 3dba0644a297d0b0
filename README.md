# Multiplayer quiz game — a verified model

The system is a small networked game. Up to four players walk on a 50 x 40
tile grid and race to answer the quiz questions held by three "microphones"
(quiz stations) before a timer runs out. The core has four parts:

- **The authoritative server** (`modules/server.py`).
  - It admits players, gives each one an id and a spawn corner, and starts the clock on the first admission.
  - It moves players one cell at a time, avoiding the map edge and a wall at x = 15.
  - It lets a player claim the unanswered microphone they stand on, as a test-and-set.
  - It scores correct answers and ends the game when every microphone is answered or the time is up.
  - It cleans up after a player disconnects.
  - It replies to a new client with an `init` message (or "Server full"), and to a claim or a wrong answer only to the acting player.
  - It broadcasts a state snapshot after a move, a correct answer and a disconnect, and once a second from the timer loop while the game runs; when the game ends it broadcasts the final scores.
- **Length-prefixed framing** (`modules/network.py`). Every message travels as its payload length in four big-endian bytes, followed by the payload.
- **The client** (`modules/client.py`).
  - The handshake.
  - The listener thread, which folds server messages into the local view.
  - Key and mouse handling in the main loop: movement, interaction, quiz answers, leaving the quiz, the lobby's ready button.
  - The timer display.
  - The ranking on the game-over screen.
- **The single-player prototype** (`modules/game.py`). A player moved by the WASD keys, and a random obstacle field on a tile grid.

Layout of the Dafny project:

- `protocol.dfy` (module `Protocol`): the messages. Each message "type" is one constructor, and the optional keys are `Option` fields.
- `server.dfy` (module `GameServer`):
  - the value-level rules: spawning, direction parsing, movement, the station search, the time left and the snapshots;
  - the session invariant, with one preservation lemma per state change;
  - `class Server`, whose fields are updated in place by one method per handler branch.
  - The effect of each handler is one two-state predicate (`Moved`, `Interacted`, `Answered`, and `Cancelled` for the corrected server). The handler and the dispatch both ensure it.
- `network.dfy` (module `Framing`):
  - header encoding and decoding;
  - `send_data`;
  - `recv_data`, both as a function over the chunks a socket will deliver and as a method over a `Socket` object.
- `client.dfy` (module `GameClient`):
  - the listener as a pure reducer `Apply` / `Run`, and `class Client`, whose methods are proved to follow it;
  - input handling (`OnEvent`), the timer text and the ranking.
- `legacy.dfy` (module `LegacyGame`): `Player.move` and `GameWorld.generate_obstacles`.
- `sync.dfy` (module `Sync`): how the two sides fit together.
  - A client mirrors every state broadcast.
  - A client receives the final scores.
  - Every key command parses on the server and moves the player the way the key says.
  - The server's welcome completes the handshake.
  - The server never ends the client's lobby.

Modelling conventions:

- **Time.** Wall-clock time is an integer parameter in seconds (`now`, `at`). The server only uses whole elapsed seconds (`int(time.time() - start)`).
- **Randomness.** The random draws of the obstacle generator are a parameter.
- **Threads.** A message handler runs under the server lock. A microphone's non-blocking lock is held exactly when `activeBy` is `Some`, so the lock is not stored separately.
- **Sockets.**
  - Sends become returned `Effects`: a reply to the acting player, plus the broadcasts.
  - Receives become a sequence of `Arrival`s (message and time).
  - For framing, receives become the queue of chunks the network delivers.

## Model

| member | source | states |
|---|---|---|
| `GameServer.InitialMics` | modules/server.py:57-68 | three stations with ids 1, 2, 3, none answered and none claimed |
| `GameServer.SpawnPosition` | modules/server.py:141-151 | ids 1 to 4 spawn in the corners (row 2 at the top), others at the origin; every spawn cell is passable |
| `GameServer.SpawnCornersDistinct` | modules/server.py:145-150 | the first four players get four different spawn cells |
| `GameServer.Lower` | modules/server.py:166 | lower-casing keeps the length and lower-cases every character |
| `GameServer.ParseDirection` | modules/server.py:166-173 | a recognised direction is one whose name the lower-cased word equals |
| `GameServer.LowerIdempotent` | modules/server.py:166 | lower-casing twice is lower-casing once |
| `GameServer.ParseDirectionExact` | modules/server.py:166-173 | the word names direction d exactly when it lower-cases to d's name (both directions) |
| `GameServer.DirNameParses` | modules/server.py:166-173 | the name of every direction parses back to that direction |
| `GameServer.ParseDirectionCaseInsensitive` | modules/server.py:166-173 | parsing ignores case |
| `GameServer.Target` | modules/server.py:165-173 | a recognised direction aims at a cell at Manhattan distance 1; an unknown word aims at the current cell |
| `GameServer.MoveFrom` | modules/server.py:165-177 | the move reaches the target when it is in bounds and not an obstacle, and stays on the current cell whenever the target is out of bounds or an obstacle (from any cell); a player on a passable cell stays on one |
| `GameServer.FirstOpenMicAt` | modules/server.py:187-191 | the first unanswered station on the cell: it matches, no earlier one matches, and None means none matches |
| `GameServer.MicWithId` | modules/server.py:219 | the first station with the id, or None when no station has it |
| `GameServer.CheckAllAnswered` | modules/server.py:234 | true exactly when every station is answered |
| `GameServer.TimeLeft` | modules/server.py:274-278 | limit minus elapsed seconds when positive, zero exactly when that is not positive, never negative |
| `GameServer.Remaining` | modules/server.py:274-278 | the time left is reported exactly when the game has started and the start time is set, and its value is then `TimeLeft`: max(0, limit − elapsed seconds) |
| `GameServer.TimeLeftNonIncreasing` | modules/server.py:276-278 | the time left never grows as time passes |
| `GameServer.TimeLeftAtMostLimit` | modules/server.py:276-278 | the time left never exceeds the (non-negative part of the) limit |
| `GameServer.AdmitKeepsInv` | modules/server.py:114-128 | admitting under the player cap keeps the registry, station and phase invariants, and the new id is fresh |
| `GameServer.MoveKeepsInv` | modules/server.py:174-177 | moving a player onto a passable cell keeps the invariants |
| `GameServer.ClaimKeepsInv` | modules/server.py:197-198 | a connected player claiming an unanswered station keeps the invariants |
| `GameServer.ReleaseKeepsInv` | modules/server.py:241-242 | releasing a claim keeps the invariants |
| `GameServer.CorrectKeepsInv` | modules/server.py:226-236 | a correct answer keeps the invariants; the claimant is connected and the game has started |
| `GameServer.ProgressTrans` | modules/server.py:153-270 | monotone progress (stations fixed, answers kept, scores not decreasing) composes across handler steps |
| `GameServer.DisconnectKeepsInv` | modules/server.py:253-266 | removing a player and releasing its claims keeps the invariants and leaves no claim by that player |
| `GameServer.PlayerViews` | modules/server.py:279 | a snapshot's players are exactly the connected ids, each with its position and score |
| `GameServer.MicViews` | modules/server.py:280 | a snapshot's stations are all the stations in order, each with its id, position and answered flag |
| `GameServer.StateMessage` | modules/server.py:281-286 | a state message carries exactly `PlayerViews` of the players and `MicViews` of the stations, the time left when given, and the game-over flag |
| `GameServer.GameOverMessage` | modules/server.py:298-302 | the game-over message carries exactly the connected ids, each with its final score and nothing else |
| `GameServer.Server.BuildStateMessage` | modules/server.py:272-286 | the snapshot holds `PlayerViews` of the players and `MicViews` of the stations, the time left exactly when the clock runs, with the value `TimeLeft(limit, start, now)` = max(0, limit − elapsed seconds), and the game-over flag |
| `GameServer.Server.constructor` | modules/server.py:35-68 | an empty registry, the three initial stations, no clock, not started, not over |
| `GameServer.Server.Admit` | modules/server.py:106-138 | a full server replies "Server full" and changes nothing; otherwise the next id joins at its spawn cell with score 0, the first admission starts the clock, and the reply is the init message |
| `GameServer.Server.Move` | modules/server.py:160-180 | (`Moved`) the player's position becomes `MoveFrom` of the old one, nothing else changes, the state is broadcast; the invariant is kept |
| `GameServer.Server.LocateMic` | modules/server.py:187-191 | the search loop finds `FirstOpenMicAt` |
| `GameServer.Server.Interact` | modules/server.py:181-213 | (`Interacted`) a free station under the player becomes claimed and its question is sent; a claimed one is left alone and the player is told it is in use; nothing is broadcast and players and the game-over flag are unchanged |
| `GameServer.Server.Answer` | modules/server.py:214-250 | (`Answered`) ignored unless the station exists, is unanswered and is claimed by the player; otherwise accepted or rejected by the correct option; the invariant and the set of players are kept, and the loop ends exactly when the game ends |
| `GameServer.Server.AcceptAnswer` | modules/server.py:225-250 | (`Accepted`) station answered and released, score + 1, game over when all are answered, the state (taken before the flag is set) broadcast, then the final scores and the loop exit; (`AnswerFits`) the effects have that shape |
| `GameServer.Server.RejectAnswer` | modules/server.py:237-242 | (`Rejected`) a wrong answer releases the station, tells the player, and changes nothing else |
| `GameServer.Server.RecordCorrect` | modules/server.py:226-232 | marks the station answered and released, and adds one point to the claimant |
| `GameServer.Server.Disconnect` | modules/server.py:252-269 | the player leaves both tables, exactly its claims are released, and the state is broadcast unless the game is over; an unknown id changes nothing |
| `GameServer.Server.ReleaseClaims` | modules/server.py:258-266 | every station claimed by the player is released and no other station changes |
| `GameServer.Server.TimerTick` | modules/server.py:88-100 | a running game ends exactly when the time left reaches zero, then broadcasts the final scores; otherwise it broadcasts the state |
| `GameServer.Server.Dispatch` | modules/server.py:159-251 | a move does `Moved`, an interact `Interacted`, an answer `Answered`; every other type, `cancel_quiz` included, changes nothing and has no effect |
| `GameServer.Server.Iteration` | modules/server.py:156-251 | one pass of the loop keeps the invariant; its effects fit the message (`Fits`: a move broadcasts one state, an interaction replies at most once and broadcasts nothing, other types have no effect); it ends the loop exactly when it ends the game |
| `GameServer.Server.Serve` | modules/server.py:155-251 | the loop keeps the invariant, the players and monotone progress; entry i's effects fit message i; it does nothing once the game is over; it stops early only with the game over, and only the last entry can end it |
| `GameServer.Server.HandleClient` | modules/server.py:153-270 | after the loop and the cleanup the player is gone, holds no claim, and every other player's score has not decreased |
| `GameServer.Server.RetryAfterCancel` | modules/server.py:159-251 | as written: claim, leave the quiz, interact again, and the player is told the station is in use |
| `GameServer.Server.Cancel` | modules/server.py:241-242 | corrected handler (`Cancelled`): the claimant of a station releases it; from anyone else it changes nothing; the invariant is kept |
| `GameServer.Server.DispatchFixed` | modules/server.py:159-251 | corrected: a cancellation with a station id does `Cancelled`, one without changes nothing; move, interact, answer and the other types as in `Dispatch` |
| `GameServer.Server.RetryAfterCancelFixed` | modules/server.py:181-213 | corrected: leaving the quiz and interacting again brings the same question back |
| `Framing.ToBigEndian` | modules/network.py:14 | `to_bytes(k, 'big')` produces exactly k bytes |
| `Framing.BigEndian4` | modules/network.py:14 | the header is four bytes |
| `Framing.FromBigEndian` | modules/network.py:26 | `from_bytes(.., 'big')` of k bytes is below 256^k |
| `Framing.ToFromBigEndian` | modules/network.py:14-26 | decoding a k-byte encoding gives back any n below 256^k |
| `Framing.FromToBigEndian` | modules/network.py:14-26 | encoding a decoded byte string gives back the bytes |
| `Framing.HeaderRoundTrip` | modules/network.py:14-26 | header decode undoes header encode for every length below 2^32 |
| `Framing.HeaderParseRoundTrip` | modules/network.py:14-26 | every four-byte header encodes exactly one length |
| `Framing.SendData` | modules/network.py:7-17 | the wire bytes are header then payload; an over-long payload sends nothing |
| `Framing.SendDataAnnouncesLength` | modules/network.py:13-14 | the header of a sent frame decodes to the payload length |
| `Framing.Take` | modules/network.py:23 | one `recv(n)` yields at most n bytes, a prefix of the next chunk, and no bytes exactly at the end of the stream |
| `Framing.Rest` | modules/network.py:23-30 | after one `recv(n)` the stream moves on exactly when bytes were returned, and never grows |
| `Framing.TakeRest` | modules/network.py:23 | a receive plus the rest of the stream is the whole stream |
| `Framing.Prefixed` | modules/network.py:33 | accumulating bytes in front of a result keeps its success and its remaining stream |
| `Framing.Collect` | modules/network.py:28-33 | the payload loop, on success, returns exactly `length` bytes |
| `Framing.PrefixedAssoc` | modules/network.py:33 | accumulating in two steps equals accumulating the concatenation |
| `Framing.RestLive` | modules/network.py:30 | what remains of a stream with no premature close still has none |
| `Framing.FrameParts` | modules/network.py:14 | a frame followed by more bytes splits into header, payload and the rest |
| `Framing.CollectExact` | modules/network.py:28-33 | the loop succeeds exactly when the stream holds enough bytes, returns them, and consumes exactly them |
| `Framing.CollectNothing` | modules/network.py:28-29 | a zero length collects nothing and consumes nothing |
| `Framing.RecvFrame` | modules/network.py:19-36 | as written: a closed stream gives None, and a payload's length is whatever the header read decodes to |
| `Framing.RecvFrameRoundTrip` | modules/network.py:19-36 | as written: when the first chunk holds the whole header, every sent frame is received intact and nothing more is consumed |
| `Framing.RecvFrameShort` | modules/network.py:31-32 | a stream that ends inside the payload gives None |
| `Framing.SplitHeaderMisparsed` | modules/network.py:23-26 | as written: the frame for payload [7], delivered as [0,0],[0,1],[7], is read as a zero-length frame, and [0,1],[7] stay in the stream |
| `Framing.RecvFrameFixed` | modules/network.py:19-36 | corrected: a received payload has the length its fully read header gives |
| `Framing.RecvFrameFixedRoundTrip` | modules/network.py:19-36 | corrected: every sent frame is received intact under any chunking, consuming exactly the frame |
| `Framing.RecvFrameFixedShort` | modules/network.py:24-25 | corrected: a stream shorter than a header gives None |
| `Framing.Socket.Recv` | modules/network.py:23-30 | one `recv(n)` returns `Take` of the pending chunks and leaves `Rest` of them |
| `Framing.RecvExactly` | modules/network.py:28-33 | the accumulation loop computes `Collect` on the socket's pending chunks |
| `Framing.RecvData` | modules/network.py:19-39 | `recv_data` as written computes `RecvFrame` |
| `Framing.RecvDataFixed` | modules/network.py:19-36 | the corrected `recv_data` computes `RecvFrameFixed` |
| `GameClient.Apply` | modules/client.py:90-159 | one listener message never clears the game-over flag, never changes the player id, and changes the lobby flag only on `game_start` |
| `GameClient.ApplyState` | modules/client.py:103-114 | each part the state message carries replaces the local one; game over is raised by the message's flag and never lowered; quiz, lobby and notice unchanged |
| `GameClient.ApplyQuestion` | modules/client.py:116-126 | the quiz view opens on the question, the last verdict is cleared, the quiz fields are consistent, and game and lobby are unchanged |
| `GameClient.ApplyAnswerResult` | modules/client.py:128-143 | the verdict is recorded; a correct one closes the quiz view, a wrong one leaves it as it was; quiz consistency is kept |
| `GameClient.ApplyGameOver` | modules/client.py:145-152 | the game is over and the final players, when sent, replace the local ones; stations, time, quiz and lobby unchanged |
| `GameClient.StateMessageEffect` | modules/client.py:103-114 | a state message replaces exactly the fields it carries, raises game over only on its flag, and leaves the quiz and lobby alone |
| `GameClient.LobbyMessagesLocal` | modules/client.py:91-101 | lobby_state, countdown and game_start each set only their own field |
| `GameClient.QuestionEffect` | modules/client.py:116-126 | a question opens the quiz view on it and clears the last verdict |
| `GameClient.AnswerResultEffect` | modules/client.py:128-143 | a correct result closes the quiz view; a wrong one only records the miss |
| `GameClient.IgnoredMessagesNoOp` | modules/client.py:90-159 | message types the listener has no branch for change nothing and do not stop it |
| `GameClient.ApplyKeepsQuizInv` | modules/client.py:116-143 | the quiz view is open exactly when a question is held, and a correct verdict implies it is closed, after any message |
| `GameClient.Run` | modules/client.py:83-152 | the listener over an inbox keeps the player id, and keeps the lobby flag when no message is `game_start` |
| `GameClient.RunKeepsGameOver` | modules/client.py:83-152 | once over, the game stays over for the rest of the inbox |
| `GameClient.RunKeepsQuizInv` | modules/client.py:83-159 | the quiz consistency holds over any inbox |
| `GameClient.RunStopsAtGameOver` | modules/client.py:145-152 | messages after a game-over message are never processed |
| `GameClient.Handshake` | modules/client.py:72-79 | the handshake succeeds exactly on an init message, taking the player id and the players from it |
| `GameClient.OptionIndex` | modules/client.py:256-263 | exactly the keys 1 to 4 choose an option, counting from zero |
| `GameClient.OptionIndexInjective` | modules/client.py:256-263 | different number keys choose different options |
| `GameClient.Command` | modules/client.py:241-251 | exactly WASD and the arrows send moves, exactly E and space send an interact, and no other key sends anything |
| `GameClient.QuizKey` | modules/client.py:253-281 | a key in the quiz view never stops the loop and sends at most one message |
| `GameClient.OnEvent` | modules/client.py:223-285 | the main loop stops exactly on a quit event |
| `GameClient.AnswerSentExactly` | modules/client.py:253-274 | an answer is sent exactly when the quiz view holds a question with the chosen option, and it names that station and option |
| `GameClient.KeysIgnoredOutsideGame` | modules/client.py:230-237 | in the lobby, or once the game is over, a key changes nothing and sends nothing |
| `GameClient.EscapeLeavesQuiz` | modules/client.py:264-270 | escape closes the quiz view and sends the question's station id in a cancellation |
| `GameClient.OnEventKeepsQuizInv` | modules/client.py:225-285 | input keeps the quiz consistency and never touches the synchronised game fields |
| `GameClient.GameOverKeyIgnored` | modules/client.py:283-285 | as written: on the game-over screen a key press does not stop the loop |
| `GameClient.OnEventFixed` | modules/client.py:283-285 | corrected: on the game-over screen any key stops the loop; everything else is unchanged |
| `GameClient.SplitTime` | modules/client.py:319-320 | minutes times 60 plus seconds is the time, with seconds in 0..59 |
| `GameClient.SplitTimeUnique` | modules/client.py:319-320 | that split is the only one with seconds in range |
| `GameClient.DigitChar` | modules/client.py:321 | the digit character stands for its value |
| `GameClient.Digits` | modules/client.py:321 | decimal digits with no leading zero: one digit below 10, at most two below 100 |
| `GameClient.Pad2` | modules/client.py:321 | `:02d` gives at least two digits, and exactly two below 100 |
| `GameClient.TimerText` | modules/client.py:321 | the timer line starts with "Time: " and is at least 11 characters long |
| `GameClient.DigitsRoundTrip` | modules/client.py:321 | the digits read back as the number |
| `GameClient.Pad2RoundTrip` | modules/client.py:321 | the padded field reads back as the number |
| `GameClient.TimerTextSeconds` | modules/client.py:318-321 | the last two characters of the timer line read back as the seconds in the current minute |
| `GameClient.TimerTextMinutes` | modules/client.py:318-321 | the field between "Time: " and the colon is all digits and reads back as the whole minutes left |
| `GameClient.Insert` | modules/client.py:406-407 | insertion adds exactly the one entry |
| `GameClient.Ranking` | modules/client.py:406-407 | the ranking is a permutation of the scoreboard |
| `GameClient.InsertDescending` | modules/client.py:406-407 | insertion keeps the scores descending |
| `GameClient.WithScoreAppend` | modules/client.py:406-407 | the entries with one score, after an append |
| `GameClient.WithScorePrepend` | modules/client.py:406-407 | the entries with one score, after a prepend |
| `GameClient.WithScoreNone` | modules/client.py:406-407 | a list with no entry of that score has none |
| `GameClient.InsertStable` | modules/client.py:406-407 | insertion puts a new entry after the entries with its score |
| `GameClient.InsertStableBehind` | modules/client.py:406-407 | stability when the entry goes behind the head |
| `GameClient.InsertStableInFront` | modules/client.py:406-407 | stability when the entry goes in front |
| `GameClient.RankingDescending` | modules/client.py:406-407 | the ranking lists scores from highest to lowest |
| `GameClient.RankingStable` | modules/client.py:406-407 | players with equal scores keep their scoreboard order (the sort is stable) |
| `GameClient.Client.constructor` | modules/client.py:27-44 | the initial view: no id, empty tables, in the lobby, no quiz |
| `GameClient.Client.Connect` | modules/client.py:66-79 | the object takes the handshake's view, or is unchanged and reports failure |
| `GameClient.Client.Receive` | modules/client.py:90-159 | one listener iteration updates the fields to `Apply` and goes on exactly when the message is not game over |
| `GameClient.Client.ReceiveState` | modules/client.py:103-114 | the state branch updates the fields as `ApplyState` does |
| `GameClient.Client.ReceiveQuestion` | modules/client.py:116-126 | the question branch updates the fields as `ApplyQuestion` does |
| `GameClient.Client.ReceiveAnswerResult` | modules/client.py:128-143 | the answer_result branch updates the fields as `ApplyAnswerResult` does |
| `GameClient.Client.ReceiveGameOver` | modules/client.py:145-152 | the game_over branch updates the fields as `ApplyGameOver` does |
| `GameClient.Client.Listen` | modules/client.py:81-161 | the listener thread leaves the object in `Run` of its old view over the inbox |
| `GameClient.Client.HandleEvent` | modules/client.py:223-285 | one event updates the fields and sends the messages that `OnEvent` gives |
| `LegacyGame.Candidate` | modules/game.py:15-23 | each axis moves by minus speed, zero or plus speed |
| `LegacyGame.OppositeKeysCancel` | modules/game.py:16-23 | holding two opposite keys is the same as holding neither |
| `LegacyGame.CandidateAxes` | modules/game.py:16-23 | an axis moves exactly when one key of its pair (not both) is held and the speed is not zero |
| `LegacyGame.NoKeysNoMove` | modules/game.py:15-26 | with no key held the player stays put |
| `LegacyGame.Player.constructor` | modules/game.py:7-12 | the given position, size and colour, and speed 10 |
| `LegacyGame.Player.Move` | modules/game.py:14-26 | the player moves to the candidate cell unless an obstacle is exactly there; it never ends on an obstacle it moved onto |
| `LegacyGame.ScaledInside` | modules/game.py:41-42 | an index up to `extent // tile - 1`, scaled, is a tile corner inside the world |
| `LegacyGame.GameWorld.constructor` | modules/game.py:32-36 | the world holds the scaled draws, all on the grid |
| `LegacyGame.Scaled` | modules/game.py:38-44 | there are at most as many obstacles as draws |
| `LegacyGame.GenerateObstacles` | modules/game.py:38-44 | the loop collects exactly the scaled draws: at most 50 obstacles, each a tile corner inside the world |
| `Sync.ClientMirrorsState` | modules/client.py:103-114 | after a server snapshot the client holds every player's position and score and every station's answered flag, as the server has them |
| `Sync.ClientGetsFinalScores` | modules/client.py:145-152 | after the server's game-over message the client holds every final score, and its listener stops |
| `Sync.KeyMovesPlayer` | modules/client.py:241-248 | every movement key sends a word the server parses back to the direction of that name; end to end, W and up aim one cell up (y - 1), S and down one cell down, A and left one cell left, D and right one cell right; no other key sends a move |
| `Sync.LobbyNeverEnds` | modules/client.py:99-101 | the client starts in the lobby and only `game_start` ends it, which the server never sends; so after the handshake and any server messages the client is still in the lobby and every key press is ignored |
| `Sync.WelcomeCompletesHandshake` | modules/client.py:72-76 | the server's init message completes the client's handshake with the player's id and exactly the server's players, with their positions and scores |

## Left out

- Sockets, `pickle` serialisation, threads and locks are left out.
  - The payload is the serialised byte string itself. A deserialisation error, which makes `recv_data` return None, is not modelled. `Framing.RecvFrame` therefore returns the empty payload where the program's `pickle.loads(b'')` raises and `recv_data` returns None.
  - Handlers are modelled as running one at a time under the server lock. Interleavings between lock releases, such as the broadcast after an answer or a move being sent outside the lock, are not modelled.
- Broadcasting is not modelled as sends: every broadcast goes to every connected client, and `Effects` lists the messages in order. Server shutdown (`stop`, modules/server.py:304-313) is not modelled. It sets the game-over flag and closes every socket. It runs when the timer loop has ended, after the flag is already raised, or on an interrupt; sockets and interrupts are outside the model.
- All of the rendering is left out: pygame drawing, fonts, `wrap_text`, the info banner's three-second display, and the lobby's button geometry. A `ButtonClick` event stands for a press inside the ready button.
- Floating-point time is an integer number of seconds. `time.time()` is the `now` / `at` parameter. Stored info notes keep the second they arrived.
- `random.randint` results are the `draws` parameter of `GameWorld`. A width or height smaller than one tile makes `randint` raise, so the constructor requires at least one tile per axis.
- `GameServer.ParseDirection` lower-cases ASCII letters only. Python's full Unicode lower-casing gives the same answer on the four direction words. A move message without a direction, which would raise in the server thread, is not modelled: the direction is always a string.
- `GameServer.Server.Move` and the other handlers assume a well-typed message. The Python handlers use `dict.get`, and a missing key gives `None`.
- The "players" map and the "microphones" list of a snapshot are modelled as the server's own tables. Iteration order of Python dictionaries appears only in the ranking: its input sequence is the order of the dictionary's items.
- The lobby messages (`lobby_state`, `countdown`, `game_start`) are handled by the client, but no server file in the model sends them. `player_ready` is sent by the client and dropped by the server like any other unknown type.
- `main.py`, `modules/ui.py` and `modules/helper.py` (argument parsing and launching) are not part of this model.
- `Framing.Take` models one `recv(n)` as delivering up to n bytes of the next chunk the network hands over. An empty chunk, or the end of the chunk list, is the peer closing the connection. Lemmas about whole frames assume a stream with no empty chunk before its end (`Live`).

## Findings

| source | as written | input that shows it | evidently intended | confidence | as-written member | corrected member |
|---|---|---|---|---|---|---|
| modules/network.py:23-26 | the 4-byte header is read with a single `recv(4)`, and whatever came back is parsed as the length | the frame for payload [7] arriving in the chunks [0,0], [0,1], [7]: the header read returns [0,0], so length 0 is read and the empty payload goes to `pickle.loads`, which raises; `recv_data` returns None, so the server ends that player's handler and removes the player (modules/server.py:156-158), or the client's listener stops (modules/client.py:84-88). The rest of the frame, [0,1] and [7], stays in the stream, so after a 3-byte first read of a longer frame the stream also falls out of step | read the header with the same loop as the payload, so that any chunking of a sent frame is received intact | not executed | `Framing.SplitHeaderMisparsed` | `Framing.RecvFrameFixedRoundTrip` |
| modules/client.py:283-285 | the "any key to exit" branch of the game-over screen is inside `elif not self.game_over`, so it can never fire | any key press on the game-over screen: the loop keeps running, although the screen says "Press any key to exit". Reaching that branch needs a client that has left the lobby, and only a `game_start` message does that (modules/client.py:99-101); the server in this model never sends one (`Sync.LobbyNeverEnds`), so against it the client stays in the lobby and the branch is shown on the code alone | a key press on the game-over screen ends the main loop | not executed | `GameClient.GameOverKeyIgnored` | `GameClient.OnEventFixed` |
| modules/server.py:159-251 | the client handler has no branch for `cancel_quiz`, so a player who leaves the quiz with escape keeps the microphone claimed | interact on a free microphone, press escape, then interact again: the reply is "Microphone is currently in use by another player.", for the claimant and for everyone else. The unmodified client sends these messages only after it has left the lobby, which needs a `game_start` the server never sends (`Sync.LobbyNeverEnds`); the scenario is the server's handling of a client that does send them | the cancellation releases the claimant's microphone, so interacting again brings the question back | not executed | `GameServer.Server.RetryAfterCancel` | `GameServer.Server.RetryAfterCancelFixed` |
