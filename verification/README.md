# Tic-tac-toe and draw-and-guess room server, modelled in Dafny

The server keeps two in-memory registries of game rooms, `ticTacToeRooms` and
`drawGuessRooms`, keyed by caller-chosen room ids. Each socket event handler
(`joinTicTacToe`, `makeMove`, `restartTicTacToe`, `joinDrawGuess`, `draw`,
`guess`, `disconnect`) runs to completion on one thread, so each is one atomic
transition: it reads the registry, mutates at most the rooms it touches and
emits events.

This project models every handler as a pure function from a registry (a
`map<RoomId, Room>`) and the caller's socket id to the next registry and the
list of events emitted, in emit order (`Registry.Step`). The two helpers
`checkTicTacToeWinner` and `startNewDrawGuessRound`/`getRandomWord` are pure
functions over a room. `Session.Handle` dispatches one inbound message to its
handler over both registries at once.

Files and modules:

- `wrappers.dfy` (`Wrappers`): `Option`, standing for JavaScript `null`.
- `registry.dfy` (`Registry`): socket ids, room ids, `Step`, the members every
  registry inherits, the `Array.prototype.filter` that disconnect applies, and
  room enumeration.
- `random.dfy` (`Random`): a `Math.random()` value, taken as an exact fraction
  in [0, 1), and `Math.floor(Math.random() * n)`.
- `text.dfy` (`Text`): ASCII lower-casing and case-insensitive equality.
- `board.dfy` (`Board`): marks, the 9-square board, the 8 lines in scan order,
  and the winner check.
- `tictactoe.dfy` (`TicTacToe`): the tic-tac-toe room record and its handlers.
- `tictactoe_invariants.dfy` (`TicTacToeInvariants`): the invariants every
  tic-tac-toe handler preserves, plus the documented scenarios and quirks.
- `drawguess.dfy` (`DrawGuess`): the draw-and-guess room record, round start
  and handlers.
- `drawguess_invariants.dfy` (`DrawGuessInvariants`): its invariants, the
  reach of the random choices, and its scenarios and quirks.
- `session.dfy` (`Session`): one inbound message over both registries. The
  server invariant holds at start-up and is kept by every message.

Behaviour of the code that is easy to miss, all of it kept in the model:

- **Restart ignores the player count.** Any member's restart sets `'playing'`,
  even when that member is alone in the room (index.js:80-83).
- **Roles come from array position.** A caller that is not `players[0]` moves
  for O, even if it never joined the room (index.js:56).
- **Tic-tac-toe disconnect walks every room.** The leaver is filtered out of
  every room. Every room then left with fewer than two players is set to
  `'waiting'` and broadcast once (index.js:135-141). Every room the leaver sat
  in is among them, because no room holds more than two players
  (`LeaversRoomsNotified`). Rooms the leaver never joined are broadcast too
  when they already had fewer than two players.
- **The waiting branch of a round start keeps the guess log**
  (index.js:179-183). Only a round that actually starts clears it.
- **Joining a finished room does not clear the board.** Reaching two players
  sets `'playing'` over the old board (index.js:41-42). A later move can then
  credit the old line's owner again (`StaleWinAfterRejoin`).
- **Guesses are logged loosely.** They are accepted from non-members and while
  the room is waiting (index.js:122).
- **The same socket can join twice.** Neither join deduplicates
  (index.js:37, index.js:101).
- **The word is broadcast.** Every `gameState` snapshot of a draw-and-guess
  room carries `word` to every member, drawer or not. `DrawGuess.GameState`
  carries the whole room in the same way.
- **Empty rooms stay.** No handler ever deletes a room, and neither does any
  function here.
- **Room ids that name inherited members throw.** Both registries are plain
  object literals, so `rooms["constructor"]`, `rooms["toString"]`,
  `rooms["__proto__"]` and the other `Object.prototype` members
  (`Registry.InheritedKeys`) are truthy without being rooms. `joinTicTacToe`
  then creates nothing and throws a TypeError at `.players.length`
  (index.js:26, index.js:36); so does `joinDrawGuess` (index.js:90, index.js:100).
  `restartTicTacToe` throws at `.players.includes` (index.js:80), and `guess`
  throws at `.guesses.push` because such a member has no drawer
  (index.js:122-123). `makeMove` and `draw` do nothing for such ids
  (index.js:55, index.js:114), and `disconnect` never visits them, since
  `for ... in` skips non-enumerable members. A handler that throws has changed
  nothing and emitted nothing; `Step.threw` and `Reply.threw` record it.

Randomness and runtime choices are parameters. Each `Math.random()` value is a
`Random.Draw` (a fraction `num/den` with `num < den`). A round start consumes
two of them (`DrawGuess.RoundDraw`). The order in which `for (roomId in rooms)`
visits a registry is a sequence that must list every room id exactly once
(`Registry.Enumerates`). The resulting state never depends on that order; only
the order of the emitted events does.

## Model

| member | source | states |
|---|---|---|
| Registry.Without | index.js:137 | Filtering keeps exactly the ids other than the leaver, in their original order (a subsequence). It never grows the list, and it strictly shrinks it when the leaver was present. |
| Registry.WithoutCounts | index.js:137 | Filtering removes every copy of the leaver and keeps every other id as many times as it occurred; the length drops by the leaver's number of copies. With the subsequence property this determines the result. |
| Random.Pick | index.js:174 | `Math.floor(Math.random() * n)` is always a valid index into a non-empty collection. |
| Random.PickReaches | index.js:190 | Every index below `n` is produced by some random value, so no player or word is unreachable. |
| Text.Lower | index.js:124 | `toLowerCase` keeps the length, leaves no upper-case ASCII letter, folds each one to its lower-case letter, and leaves every other character as it was. |
| Text.SameIgnoringCaseCharwise | index.js:124 | Comparing lower-cased strings is the same as equal length plus character-by-character agreement after folding, in both directions. |
| Board.ScanFrom | index.js:155-168 | Null means that no line from the scan position on holds three equal marks. A mark means that some line holds it three times, and every line scanned before that one is not uniform. |
| Board.Winner | index.js:155-168 | `checkTicTacToeWinner` returns null only when no line holds three equal marks. A returned mark completes some line, and every line before it in scan order is not uniform. |
| Board.FullExactlyWhenNoSquareEmpty | index.js:67 | `!board.includes(null)` holds exactly when no square is empty, and exactly when the X and O counts add up to nine. |
| Board.WinnerExactlyWhenLineComplete | index.js:161-167 | The winner check reports a mark exactly when some line is complete, and the mark it reports completes a line. |
| Board.WinnerIsFirstLine | index.js:161-165 | If line `i` is complete with `m` and no earlier line is uniform, the check returns `m`. This is the first-match tie-break of the scan order. |
| Board.CountAfterWrite | index.js:58 | Writing a mark into an empty square adds exactly one of that mark and none of the other. |
| Board.EmptyBoardHoldsNoMarks | index.js:29 | A fresh or restarted board holds no X and no O. |
| Board.EmptyBoardUndecided | index.js:29 | A fresh board has no winner and is not full. |
| TicTacToe.Credit | index.js:65 | A win adds exactly one to the winner's score and leaves the other mark's score alone. |
| TicTacToe.Role | index.js:56 | The caller plays X exactly when it is the first player. Everyone else plays O. |
| TicTacToe.Join | index.js:25-50 | A join to a room id naming an inherited member throws, exactly then, and changes and emits nothing. A join at two players emits only `roomFull` and changes nothing. Otherwise it appends the caller, assigns X to the first joiner and O to the second, and sets `playing` on reaching two players. Board, turn and scores stay as they were. The snapshot goes to the room at two players and to the caller alone otherwise. No other room changes. |
| TicTacToe.MoveAccepted | index.js:55-57 | A move is accepted exactly when the room exists and is playing, the square is one of 0..8 and still empty, and the turn is X exactly when the caller is the first player. A taken square, a square outside 0..8 or a room that is not playing rejects it. An accepted move never meets a full board. |
| TicTacToe.MakeMove | index.js:53-75 | A move never throws. A move is a no-op with no event when the room is missing, not playing, the square is outside 0..8 or taken, or the caller's role is not on turn. An accepted move writes only that square, with the mover's mark, and passes the turn. A completed line finishes the round, credits that mark with one point and reports the win, ahead of any draw. A full board with no line finishes as a draw with scores unchanged. Otherwise play continues. |
| TicTacToe.Restart | index.js:78-86 | A restart throws exactly when the room id names an inherited member. Only a member of an existing room can restart. The board is then all empty, X is on turn and the status is `playing` whatever the player count. Players and scores are unchanged and one snapshot goes to the room. A non-member's restart changes nothing. |
| TicTacToe.Leave | index.js:136-141 | The players become exactly the filter's result: every copy of the leaver goes, and the others keep their order and copies (`Registry.Without`, `Registry.WithoutCounts`), so the first player keeps X. Board, turn and scores are untouched. Below two players the room waits; otherwise its status is kept. |
| TicTacToe.WaitingNotices | index.js:138-141 | The disconnect broadcasts go to the rooms left below two players, each exactly once and carrying that room's new state, and to no other room. |
| TicTacToe.WaitingNoticesInOrder | index.js:135-141 | The broadcasts come in the order the loop visits the rooms. |
| TicTacToe.DisconnectInOrder | index.js:135-141 | The disconnect broadcasts come in the enumeration order of the registry. |
| TicTacToe.Disconnect | index.js:134-142 | It never throws. Every tic-tac-toe room, whether or not the leaver was in it, loses the leaver. Each room left below two players waits and is notified exactly once, and every notice goes to such a room. No room is added or removed. |
| TicTacToeInvariants.FreshIsValid | index.js:26-34 | A new room satisfies the room invariant: at most two players, equal mark counts with X on turn, and no finished round without a reason. |
| TicTacToeInvariants.JoinPreservesValid | index.js:36-46 | Joining keeps at most two players, the turn/count balance, and the rule that a finished round has a line or a full board. |
| TicTacToeInvariants.AcceptedMoveKeepsRoomValid | index.js:58-69 | The room an accepted move rewrites keeps its mark counts balanced with the right mark on turn, and it is finished only on a line or a full board. |
| TicTacToeInvariants.MovePreservesValid | index.js:55-72 | A move keeps `#X - #O` in {0, 1}, keeps X on turn exactly when the counts are equal, and finishes a round only on a line or a full board. |
| TicTacToeInvariants.RestartPreservesValid | index.js:80-84 | Restart re-establishes the balance: an empty board with X on turn. |
| TicTacToeInvariants.LeaveKeepsValid | index.js:137-139 | Removing a player from one room keeps its invariant, since the board is untouched and only `waiting` can be set. |
| TicTacToeInvariants.DisconnectPreservesValid | index.js:135-141 | Disconnect keeps every room's invariant, since it only shrinks player lists and sets `waiting`. |
| TicTacToeInvariants.LeaversRoomsNotified | index.js:135-141 | Every room the leaver sat in is broadcast exactly once on disconnect, because it drops below two players. |
| TicTacToeInvariants.MoveNeverOverwrites | index.js:55-58 | No move, accepted or not, changes a square that already holds a mark, in any room. |
| TicTacToeInvariants.WinOutranksDraw | index.js:62-69 | When the last empty square completes a line, the broadcast reports a win, not a draw, and exactly one point is credited. |
| TicTacToeInvariants.WinningMove | index.js:62-66 | A move that completes a line writes the square, passes the turn, finishes the round, credits the line's mark, and sends one broadcast reporting that mark. |
| TicTacToeInvariants.QuietMove | index.js:58-71 | A move that neither wins nor fills the board only writes its square and passes the turn. |
| TicTacToeInvariants.ScenarioSeating | index.js:36-43 | Two distinct connections joining a new room id are assigned X then O. The room is then playing on an empty board with X on turn and zero scores. |
| TicTacToeInvariants.ScenarioTopRowWin | index.js:53-66 | After X 0, O 4, X 1, O 5, X 2, the room is finished, X has one point, O has none, and the broadcast reports X as the winner. |
| TicTacToeInvariants.NoWinnerEarly | index.js:163 | A board whose squares 2, 3, 6, 7 and 8 are empty has no winner and is not full. |
| TicTacToeInvariants.StaleWinAfterRejoin | index.js:41-42 | After X wins on the top row, O leaves and a newcomer joins, the room plays on over the old board. The newcomer's move then credits X with another point. |
| TicTacToeInvariants.OutsiderMovesForO | index.js:56 | A socket that never joined the room can make O's move. |
| TicTacToeInvariants.LoneRestartPlays | index.js:83 | A lone player's restart puts the room into `playing`. |
| DrawGuess.RandomWord | index.js:188-191 | The chosen word is one of the seven fixed words. |
| DrawGuess.StartRound | index.js:171-185 | With three or more players there is a drawer from the players, a word from the list, an empty guess log and `playing`. With fewer there is no drawer, no word, `waiting`, and the guess log is kept. Players never change. |
| DrawGuess.Join | index.js:89-110 | A join to a room id naming an inherited member throws, exactly then, and changes and emits nothing. A join at ten players emits only `roomFull` and changes nothing. Otherwise it appends the caller. If that makes three or more players and no drawer is set, a round starts and the state is broadcast twice; otherwise it is broadcast once. No other room changes. |
| DrawGuess.Relay | index.js:113-117 | A stroke is relayed verbatim to the room, at most once, exactly when the caller is that existing room's drawer. |
| DrawGuess.Matches | index.js:124 | With no word nothing matches. With a word, a guess matches exactly when it has the same length and agrees letter by letter after ASCII folding, so the word itself always matches. |
| DrawGuess.MakeGuess | index.js:120-131 | A guess throws exactly when the room id names an inherited member. A guess from the drawer, or to a missing room, changes nothing and emits nothing. Any other guess is appended to the log. A case-insensitive match with the word emits `correctGuess` naming the guesser, then starts a new round. A miss broadcasts the state. |
| DrawGuess.Leave | index.js:144-148 | The players become exactly the filter's result: every copy of the leaver goes, and the others keep their order and copies, which decide whether three remain for a new round. If it was drawing, a new round starts over the remaining players; otherwise drawer, word, log and status stay. |
| DrawGuess.LeaveNotices | index.js:143-150 | Every broadcast carries a visited room's new state. A room whose drawer left is broadcast exactly twice (by the round start, then by the loop); every other room exactly once. |
| DrawGuess.LeaveNoticesInOrder | index.js:143-150 | The broadcasts come in the order the loop visits the rooms; both notices of a room come before any later room's. |
| DrawGuess.DisconnectInOrder | index.js:143-150 | The disconnect broadcasts come in the enumeration order of the registry. |
| DrawGuess.Disconnect | index.js:143-150 | It never throws. Every draw-and-guess room loses the leaver. A room whose drawer left restarts its round. Every room is notified with its new state, exactly twice where the drawer left and exactly once elsewhere. No room is added or removed. |
| DrawGuessInvariants.FreshIsValid | index.js:90-97 | A new room satisfies the room invariant: no players over ten, and no drawer, no word and `waiting` together. |
| DrawGuessInvariants.StartRoundValid | index.js:171-185 | A round start leaves the drawer among the players and the word in the list. It keeps `playing` exactly when there is a drawer, exactly when there is a word. |
| DrawGuessInvariants.JoinPreservesValid | index.js:100-106 | Joining keeps at most ten players, the drawer among the players, and `playing` ⇔ drawer ⇔ word. |
| DrawGuessInvariants.GuessPreservesValid | index.js:122-128 | A guess, logged or winning, keeps every room's invariant. |
| DrawGuessInvariants.DisconnectPreservesValid | index.js:143-150 | Disconnect keeps the drawer among the players: a drawer who leaves is replaced or cleared. |
| DrawGuessInvariants.StartRoundReaches | index.js:173-176 | For any player and any listed word, some random values make that player the drawer of that word. |
| DrawGuessInvariants.DrawerLeavingRestartsRound | index.js:146-147 | When the drawer disconnects, the room gets a new drawer other than the leaver and an empty log if three or more remain, and waits with no drawer otherwise. |
| DrawGuessInvariants.CorrectGuessOpensRound | index.js:124-126 | A correct guess in a room of three or more announces the guesser first. It opens a round with an empty log, a drawer from the room and a listed word. |
| DrawGuessInvariants.CorrectGuessBelowQuorumKeepsLog | index.js:179-183 | A correct guess in a room below three leaves it waiting with no word, and the winning guess is still logged. |
| DrawGuessInvariants.StrangerGuessLogged | index.js:122-123 | A non-member's guess in a waiting room is logged. |
| DrawGuessInvariants.ScenarioCorrectGuess | index.js:100-126 | Three joins start a round with a drawer among them and a listed word. A non-drawer typing the word in any letter case is announced, and a new round with an empty log starts. |
| Session.DisconnectAll | index.js:134-151 | Disconnect never throws and adds no room. Every room of each game becomes that game's `Leave` of it, so the caller is gone everywhere. Its events are exactly the tic-tac-toe `Disconnect` events followed by the draw-and-guess `Disconnect` events, each in emit order, so every notice those members promise is sent. It emits at least one event per draw-and-guess room and at most one per tic-tac-toe room plus two per draw-and-guess room. |
| Session.HandleTicTacToe | index.js:25-86 | A tic-tac-toe message never touches the draw-and-guess registry, never removes a room, and emits only tic-tac-toe events. The reply is the called handler's step: its registry, its events in emit order and its throw. A join or restart throws exactly when its room id names an inherited member, and then changes and emits nothing; a move never throws. |
| Session.HandleDrawGuess | index.js:89-131 | A draw-and-guess join or guess never touches the tic-tac-toe registry, never removes a room, and emits only draw-and-guess events. The reply is the called handler's step: its registry, its events in emit order and its throw. It throws exactly when its room id names an inherited member, and then changes and emits nothing. |
| Session.HandleDraw | index.js:113-117 | A stroke never throws and changes no state. It is relayed verbatim at most once, exactly when the caller draws in that room. |
| Session.Handle | index.js:21-152 | Each message touches only its own game's registry, a stroke touches none, and a disconnect removes the caller from every room of both games. A message throws exactly when it is a join, restart or guess naming an inherited member, and a message that throws changes and emits nothing. |
| Session.HandlePreservesValid | index.js:21-152 | Whatever the random values, every message keeps every room of both games within its invariant. |
| Session.BootIsValid | index.js:17-18 | The empty registries at start-up satisfy the server invariant. |

## Left out

- Express, HTTP, CORS, the socket.io server and `server.listen`
  (index.js:1-15, index.js:193-195). They are transport and bootstrap.
- Message delivery and `socket.join` group membership (index.js:38,
  index.js:102). Events are an abstract list of target, name and payload. Each
  payload is the room as it stands when emitted.
- `console.log` (index.js:22, index.js:194). It only produces output.
- Floating-point `Math.random()` (index.js:174, index.js:190). It is an exact
  fraction in [0, 1), so uniformity is not stated. Only that every choice is
  valid and reachable is stated.
- Full Unicode `toLowerCase` (index.js:124). Only the ASCII letters A-Z are
  folded.
- Loosely typed payloads. A move index is an integer, so JavaScript's string
  keys such as `"4"` are not modelled. A guess is a string: a non-string
  guess, on which `toLowerCase` throws, is not modelled. A room id is a string,
  as every object key is. Inherited members are those of a standard
  `Object.prototype`; one that a library adds at run time is not modelled.
- What happens after a handler throws (index.js:36, index.js:80,
  index.js:100, index.js:123). The model records only that the handler threw
  before it changed or emitted anything; how the runtime reports the error is
  outside the server's code.
- Concurrency. Handlers never interleave on the single event loop, so there is
  nothing to model there.
- The stroke payload of `draw` (index.js:113-117) is an opaque type parameter.
  Its content is never inspected.
- The order in which JavaScript enumerates object keys (integer-like keys
  first, then insertion order) is a caller-supplied enumeration.
- TicTacToe.WaitingNotices and TicTacToe.Disconnect: their own contracts do
  not state the order of the notices. The lemmas
  TicTacToe.WaitingNoticesInOrder and TicTacToe.DisconnectInOrder state it
  for all inputs.
- DrawGuess.LeaveNotices and DrawGuess.Disconnect: likewise, their order is
  stated by DrawGuess.LeaveNoticesInOrder and DrawGuess.DisconnectInOrder.
- Session.Handle: it states which registry each message touches and when a
  message throws. The step each handler takes is stated on
  Session.HandleTicTacToe, Session.HandleDrawGuess, Session.HandleDraw and
  Session.DisconnectAll, which carry their handlers' registries and events.
