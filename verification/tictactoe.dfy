/**
 * The tic-tac-toe room: its record and the handlers `joinTicTacToe`,
 * `makeMove`, `restartTicTacToe` and the tic-tac-toe half of `disconnect`.
 * Each handler is one atomic transition of the registry `ticTacToeRooms`.
 */
module TicTacToe {

  import opened Wrappers
  import opened Registry
  import opened Board

  datatype Status = Waiting | Playing | Finished

  /** `scores: { X, O }`: wins per mark, kept across restarts. */
  datatype Scores = Scores(x: nat, o: nat)

  function Score(s: Scores, m: Mark): nat
  {
    if m == X then s.x else s.o
  }

  /** `scores[winner] = (scores[winner] || 0) + 1` */
  function Credit(s: Scores, m: Mark): (r: Scores)
    ensures Score(r, m) == Score(s, m) + 1
    ensures Score(r, Other(m)) == Score(s, Other(m))
  {
    if m == X then s.(x := s.x + 1) else s.(o := s.o + 1)
  }

  /** A room record; the role of a player is its position in `players`. */
  datatype Room = Room(players: seq<Id>, board: Board, current: Mark, status: Status, scores: Scores)

  /** The record created on the first join to an unknown room id. */
  const Fresh: Room := Room([], EmptyBoard, X, Waiting, Scores(0, 0))

  const Capacity: nat := 2

  type Rooms = map<RoomId, Room>

  /** How a finished round ended, as attached to the broadcast snapshot. */
  datatype Outcome = Won(mark: Mark) | Draw

  /** `socket.emit` reaches the caller only; `io.to(roomId).emit` reaches the room. */
  datatype Target = Caller | Group(roomId: RoomId)

  datatype Event =
    | PlayerAssignment(role: Mark)
    | GameState(to: Target, room: Room, outcome: Option<Outcome>)
    | RoomFull

  /** The room under `roomId`, or the record a join would create. */
  function Lookup(rooms: Rooms, roomId: RoomId): Room
  {
    if roomId in rooms then rooms[roomId] else Fresh
  }

  /** `players[0] === socket.id ? 'X' : 'O'`: anyone but the first player is O, members or not. */
  function Role(players: seq<Id>, caller: Id): (m: Mark)
    ensures m == X <==> |players| > 0 && players[0] == caller
  {
    if |players| > 0 && players[0] == caller then X else O
  }

  // ---------------------------------------------------------------- join

  /**
   * `joinTicTacToe`: create the room if needed, then admit the caller if fewer than
   * two are in. An id naming an inherited member is not created and `.players.length`
   * of that member throws.
   */
  function Join(rooms: Rooms, caller: Id, roomId: RoomId): (s: Step<Room, Event>)
    ensures s.threw <==> ReadsInherited(rooms, roomId)
    ensures s.threw ==> s.rooms == rooms && s.events == []
    ensures !s.threw ==> roomId in s.rooms && s.rooms.Keys == rooms.Keys + {roomId}
    ensures forall k :: k in rooms && k != roomId ==> k in s.rooms && s.rooms[k] == rooms[k]
    ensures |Lookup(rooms, roomId).players| >= Capacity ==>
              roomId in rooms && s.rooms == rooms && s.events == [RoomFull]
    ensures !s.threw && |Lookup(rooms, roomId).players| < Capacity ==>
              var r, r' := Lookup(rooms, roomId), s.rooms[roomId];
              && r'.players == r.players + [caller]
              && r'.board == r.board && r'.current == r.current && r'.scores == r.scores
              && (|r'.players| == Capacity ==> r'.status == Playing)
              && (|r'.players| < Capacity ==> r'.status == r.status)
              && s.events == [
                   PlayerAssignment(if r.players == [] then X else O),
                   GameState(if |r'.players| == Capacity then Group(roomId) else Caller, r', None)
                 ]
  {
    var r := Lookup(rooms, roomId);
    if ReadsInherited(rooms, roomId) then Step(rooms, [], true)
    else if |r.players| < Capacity then
      var players := r.players + [caller];
      var r' := if |players| == Capacity then r.(players := players, status := Playing)
                else r.(players := players);
      var role := if |players| == 1 then X else O;
      var to := if |players| == Capacity then Group(roomId) else Caller;
      Step(rooms[roomId := r'], [PlayerAssignment(role), GameState(to, r', None)], false)
    else
      Step(rooms[roomId := r], [RoomFull], false)
  }

  // ---------------------------------------------------------------- move

  /**
   * The guard of `makeMove`: room exists, is playing, the square is empty, and the
   * caller's role has the turn. An inherited member has no `status`, so it fails here.
   */
  function MoveAccepted(rooms: Rooms, caller: Id, roomId: RoomId, index: int): (ok: bool)
    ensures ok ==> roomId in rooms && !Full(rooms[roomId].board)
    ensures ok ==> (rooms[roomId].current == X <==>
                      |rooms[roomId].players| > 0 && rooms[roomId].players[0] == caller)
    ensures index < 0 || 9 <= index ==> !ok
    ensures roomId in rooms && rooms[roomId].status != Playing ==> !ok
    ensures roomId in rooms && 0 <= index < 9 && rooms[roomId].board[index].Some? ==> !ok
    ensures roomId in rooms && rooms[roomId].status == Playing && 0 <= index < 9
            && rooms[roomId].board[index].None?
            && (rooms[roomId].current == X <==> |rooms[roomId].players| > 0 && rooms[roomId].players[0] == caller)
            ==> ok
  {
    && roomId in rooms
    && rooms[roomId].status == Playing
    && 0 <= index < 9 && rooms[roomId].board[index].None?
    && Role(rooms[roomId].players, caller) == rooms[roomId].current
  }

  /** The outcome the move broadcast carries for a board just written. */
  function Verdict(b: Board): Option<Outcome>
  {
    match Winner(b)
    case Some(w) => Some(Won(w))
    case None => if Full(b) then Some(Draw) else None
  }

  /** `makeMove`: write the caller's mark, pass the turn, then settle a win or a draw. It never throws. */
  function MakeMove(rooms: Rooms, caller: Id, roomId: RoomId, index: int): (s: Step<Room, Event>)
    ensures !s.threw
    ensures s.rooms.Keys == rooms.Keys
    ensures !MoveAccepted(rooms, caller, roomId, index) ==> s.rooms == rooms && s.events == []
    ensures MoveAccepted(rooms, caller, roomId, index) ==>
              var r, r' := rooms[roomId], s.rooms[roomId];
              && (forall k :: k in rooms && k != roomId ==> s.rooms[k] == rooms[k])
              && r'.players == r.players
              && r'.board[index] == Some(r.current)
              && (forall i :: 0 <= i < 9 && i != index ==> r'.board[i] == r.board[i])
              && r'.current == Other(r.current)
              && (forall w :: Winner(r'.board) == Some(w) ==>
                    && r'.status == Finished
                    && Score(r'.scores, w) == Score(r.scores, w) + 1
                    && Score(r'.scores, Other(w)) == Score(r.scores, Other(w))
                    && s.events == [GameState(Group(roomId), r', Some(Won(w)))])
              && (Winner(r'.board).None? && Full(r'.board) ==>
                    r'.status == Finished && r'.scores == r.scores
                    && s.events == [GameState(Group(roomId), r', Some(Draw))])
              && (Winner(r'.board).None? && !Full(r'.board) ==>
                    r'.status == Playing && r'.scores == r.scores
                    && s.events == [GameState(Group(roomId), r', None)])
  {
    if !MoveAccepted(rooms, caller, roomId, index) then Step(rooms, [], false)
    else
      var r := rooms[roomId];
      var board := r.board[index := Some(r.current)];
      var played := r.(board := board, current := Other(r.current));
      var verdict := Verdict(board);
      var r' := match verdict
                case Some(Won(w)) => played.(status := Finished, scores := Credit(r.scores, w))
                case Some(Draw) => played.(status := Finished)
                case None => played;
      Step(rooms[roomId := r'], [GameState(Group(roomId), r', verdict)], false)
  }

  // ---------------------------------------------------------------- restart

  /**
   * `restartTicTacToe`: any member clears the board and starts a new round; scores
   * stay. `.players.includes` of an inherited member throws.
   */
  function Restart(rooms: Rooms, caller: Id, roomId: RoomId): (s: Step<Room, Event>)
    ensures s.threw <==> ReadsInherited(rooms, roomId)
    ensures s.rooms.Keys == rooms.Keys
    ensures !(roomId in rooms && caller in rooms[roomId].players) ==> s.rooms == rooms && s.events == []
    ensures roomId in rooms && caller in rooms[roomId].players ==>
              var r, r' := rooms[roomId], s.rooms[roomId];
              && (forall k :: k in rooms && k != roomId ==> s.rooms[k] == rooms[k])
              && (forall i :: 0 <= i < 9 ==> r'.board[i].None?)
              && r'.current == X && r'.status == Playing
              && r'.players == r.players && r'.scores == r.scores
              && s.events == [GameState(Group(roomId), r', None)]
  {
    if roomId in rooms && caller in rooms[roomId].players then
      var r' := rooms[roomId].(board := EmptyBoard, current := X, status := Playing);
      Step(rooms[roomId := r'], [GameState(Group(roomId), r', None)], false)
    else Step(rooms, [], ReadsInherited(rooms, roomId))
  }

  // ---------------------------------------------------------------- disconnect

  /** One room's share of `disconnect`: drop the leaver; below two players the room waits. */
  function Leave(r: Room, id: Id): (r': Room)
    ensures r'.players == Without(r.players, id)
    ensures forall p :: p in r'.players <==> p in r.players && p != id
    ensures |r'.players| <= |r.players|
    ensures r'.board == r.board && r'.current == r.current && r'.scores == r.scores
    ensures |r'.players| < Capacity ==> r'.status == Waiting
    ensures |r'.players| >= Capacity ==> r'.status == r.status
  {
    var players := Without(r.players, id);
    if |players| < Capacity then r.(players := players, status := Waiting)
    else r.(players := players)
  }

  /** The snapshots `disconnect` broadcasts, visiting rooms in `order`: one per room left below two players. */
  function WaitingNotices(after: Rooms, order: seq<RoomId>): (es: seq<Event>)
    requires forall k :: k in order ==> k in after
    requires Distinct(order)
    ensures |es| <= |order|
    ensures forall k :: k in order ==>
              multiset(es)[GameState(Group(k), after[k], None)] == if |after[k].players| < Capacity then 1 else 0
    ensures forall e :: e in es ==>
              e.GameState? && e.to.Group? && e.to.roomId in order && e.outcome.None?
              && e.room == after[e.to.roomId] && |e.room.players| < Capacity
    ensures forall k :: k in order && |after[k].players| < Capacity ==>
              GameState(Group(k), after[k], None) in es
  {
    if order == [] then []
    else
      var k := order[0];
      var head := if |after[k].players| < Capacity then [GameState(Group(k), after[k], None)] else [];
      var rest := WaitingNotices(after, order[1..]);
      assert forall k' :: k' in order[1..] ==> k' != k;
      head + rest
  }

  /** The rooms a list of broadcasts goes to, in emit order. */
  function Recipients(es: seq<Event>): (ks: seq<RoomId>)
    requires forall e :: e in es ==> e.GameState? && e.to.Group?
    ensures |ks| == |es|
    ensures forall i :: 0 <= i < |es| ==> ks[i] == es[i].to.roomId
  {
    if es == [] then [] else [es[0].to.roomId] + Recipients(es[1..])
  }

  /** The notices follow the enumeration: a room visited earlier is broadcast earlier. */
  lemma {:induction false} WaitingNoticesInOrder(after: Rooms, order: seq<RoomId>)
    requires forall k :: k in order ==> k in after
    requires Distinct(order)
    ensures FollowsOrder(Recipients(WaitingNotices(after, order)), order)
  {
    if order != [] {
      var es := WaitingNotices(after, order);
      var rest := WaitingNotices(after, order[1..]);
      WaitingNoticesInOrder(after, order[1..]);
      var h := |es| - |rest|;
      assert es[h..] == rest;
      var ks := Recipients(es);
      assert ks[h..] == Recipients(rest);
      FollowsOrderCons(order, ks, h);
    }
  }

  /**
   * The tic-tac-toe half of `disconnect`: every room, member or not, loses the leaver;
   * each room left below two players is broadcast once. `for ... in` skips the
   * inherited members, so it never throws.
   */
  function Disconnect(rooms: Rooms, id: Id, order: seq<RoomId>): (s: Step<Room, Event>)
    requires Enumerates(order, rooms)
    ensures !s.threw
    ensures s.rooms.Keys == rooms.Keys
    ensures forall k :: k in rooms ==> id !in s.rooms[k].players
    ensures forall k :: k in rooms ==> s.rooms[k] == Leave(rooms[k], id)
    ensures |s.events| <= |rooms|
    ensures forall e :: e in s.events ==>
              e.GameState? && e.to.Group? && e.to.roomId in rooms && e.outcome.None?
              && e.room == s.rooms[e.to.roomId] && e.room.status == Waiting
              && |e.room.players| < Capacity
    ensures forall k :: k in rooms ==>
              multiset(s.events)[GameState(Group(k), s.rooms[k], None)] ==
                if |s.rooms[k].players| < Capacity then 1 else 0
  {
    var after := map k | k in rooms :: Leave(rooms[k], id);
    EnumerationSize(order, rooms);
    Step(after, WaitingNotices(after, order), false)
  }

  /** `disconnect` broadcasts in the order `for (roomId in rooms)` visits the rooms. */
  lemma DisconnectInOrder(rooms: Rooms, id: Id, order: seq<RoomId>)
    requires Enumerates(order, rooms)
    ensures FollowsOrder(Recipients(Disconnect(rooms, id, order).events), order)
  {
    var after := map k | k in rooms :: Leave(rooms[k], id);
    WaitingNoticesInOrder(after, order);
  }
}
