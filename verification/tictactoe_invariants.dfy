/**
 * What every tic-tac-toe handler keeps true of every room, and the documented
 * scenarios of the two-player game, including the quirks of the server.
 */
module TicTacToeInvariants {

  import opened Wrappers
  import opened Registry
  import opened Board
  import opened TicTacToe

  /** `#X - #O` is 0 or 1, and X has the turn exactly when the counts are equal. */
  predicate TurnBalanced(b: Board, current: Mark)
  {
    var nx, no := Count(b, X), Count(b, O);
    && (nx == no || nx == no + 1)
    && (current == X <==> nx == no)
  }

  /** A finished round was finished by a line or by a full board. */
  predicate FinishedForAReason(r: Room)
  {
    r.status == Finished ==> Winner(r.board).Some? || Full(r.board)
  }

  predicate Valid(r: Room)
  {
    && |r.players| <= Capacity
    && TurnBalanced(r.board, r.current)
    && FinishedForAReason(r)
  }

  predicate AllValid(rooms: Rooms)
  {
    forall k :: k in rooms ==> Valid(rooms[k])
  }

  lemma FreshIsValid()
    ensures Valid(Fresh)
  {
    EmptyBoardHoldsNoMarks(X);
    EmptyBoardHoldsNoMarks(O);
  }

  lemma JoinPreservesValid(rooms: Rooms, caller: Id, roomId: RoomId)
    requires AllValid(rooms)
    ensures AllValid(Join(rooms, caller, roomId).rooms)
  {
    FreshIsValid();
    var s := Join(rooms, caller, roomId);
    var r := Lookup(rooms, roomId);
    assert Valid(r);
    forall k | k in s.rooms
      ensures Valid(s.rooms[k])
    {
      if k != roomId {
        assert s.rooms[k] == rooms[k];
      } else if |r.players| < Capacity {
        var r' := s.rooms[roomId];
        assert r'.board == r.board && r'.current == r.current;
        assert r'.status == Finished ==> r.status == Finished;
      }
    }
  }

  /** The room an accepted move rewrites stays valid. */
  lemma AcceptedMoveKeepsRoomValid(rooms: Rooms, caller: Id, roomId: RoomId, index: int)
    requires MoveAccepted(rooms, caller, roomId, index)
    requires Valid(rooms[roomId])
    ensures Valid(MakeMove(rooms, caller, roomId, index).rooms[roomId])
  {
    var r, r' := rooms[roomId], MakeMove(rooms, caller, roomId, index).rooms[roomId];
    assert r'.board == r.board[index := Some(r.current)];
    CountAfterWrite(r.board, index, r.current);
    assert TurnBalanced(r'.board, r'.current);
    assert FinishedForAReason(r');
  }

  lemma MovePreservesValid(rooms: Rooms, caller: Id, roomId: RoomId, index: int)
    requires AllValid(rooms)
    ensures AllValid(MakeMove(rooms, caller, roomId, index).rooms)
  {
    var s := MakeMove(rooms, caller, roomId, index);
    if MoveAccepted(rooms, caller, roomId, index) {
      AcceptedMoveKeepsRoomValid(rooms, caller, roomId, index);
      forall k | k in s.rooms
        ensures Valid(s.rooms[k])
      {
        if k != roomId {
          assert s.rooms[k] == rooms[k];
        }
      }
    }
  }

  lemma RestartPreservesValid(rooms: Rooms, caller: Id, roomId: RoomId)
    requires AllValid(rooms)
    ensures AllValid(Restart(rooms, caller, roomId).rooms)
  {
    var s := Restart(rooms, caller, roomId);
    EmptyBoardHoldsNoMarks(X);
    EmptyBoardHoldsNoMarks(O);
    forall k | k in s.rooms
      ensures Valid(s.rooms[k])
    {
      if k == roomId && caller in rooms[roomId].players {
        var r' := s.rooms[k];
        assert r'.board == EmptyBoard;
        assert r'.status == Playing;
        assert |r'.players| == |rooms[k].players| && Valid(rooms[k]);
      } else {
        assert s.rooms[k] == rooms[k];
      }
    }
  }

  /** Dropping a player keeps a room valid: the board is untouched and a finished room only waits. */
  lemma LeaveKeepsValid(r: Room, id: Id)
    requires Valid(r)
    ensures Valid(Leave(r, id))
  {
  }

  lemma DisconnectPreservesValid(rooms: Rooms, id: Id, order: seq<RoomId>)
    requires Enumerates(order, rooms)
    requires AllValid(rooms)
    ensures AllValid(Disconnect(rooms, id, order).rooms)
  {
    var s := Disconnect(rooms, id, order);
    forall k | k in s.rooms
      ensures Valid(s.rooms[k])
    {
      LeaveKeepsValid(rooms[k], id);
    }
  }

  /**
   * Every room the leaver sat in drops below two players (no room holds more than
   * two), so each of them is broadcast, exactly once.
   */
  lemma LeaversRoomsNotified(rooms: Rooms, id: Id, order: seq<RoomId>)
    requires Enumerates(order, rooms)
    requires AllValid(rooms)
    ensures var s := Disconnect(rooms, id, order);
            forall k :: k in rooms && id in rooms[k].players ==>
              multiset(s.events)[GameState(Group(k), s.rooms[k], None)] == 1
  {
    var s := Disconnect(rooms, id, order);
    forall k | k in rooms && id in rooms[k].players
      ensures multiset(s.events)[GameState(Group(k), s.rooms[k], None)] == 1
    {
      LeaverLeavesRoomWaiting(rooms[k], id);
    }
  }

  /** A valid room the leaver sat in is left below two players. */
  lemma LeaverLeavesRoomWaiting(r: Room, id: Id)
    requires Valid(r) && id in r.players
    ensures |Leave(r, id).players| < Capacity
  {
  }

  /** No handler but restart ever clears or overwrites a marked square. */
  lemma MoveNeverOverwrites(rooms: Rooms, caller: Id, roomId: RoomId, index: int)
    ensures var s := MakeMove(rooms, caller, roomId, index);
            forall k, i :: k in rooms && 0 <= i < 9 && rooms[k].board[i].Some? ==>
              s.rooms[k].board[i] == rooms[k].board[i]
  {
  }

  /**
   * A move that fills the last empty square and completes a line at once is reported
   * as a win, never as a draw, and a point is credited.
   */
  lemma WinOutranksDraw(rooms: Rooms, caller: Id, roomId: RoomId, index: int, i: nat)
    requires MoveAccepted(rooms, caller, roomId, index)
    requires forall j :: 0 <= j < 9 && j != index ==> rooms[roomId].board[j].Some?
    requires i < |Lines|
    requires Completes(rooms[roomId].board[index := Some(rooms[roomId].current)], Lines[i], rooms[roomId].current)
    ensures var s := MakeMove(rooms, caller, roomId, index);
            && Full(s.rooms[roomId].board)
            && |s.events| == 1 && s.events[0].GameState?
            && s.events[0].outcome.Some? && s.events[0].outcome.value.Won?
            && Score(s.rooms[roomId].scores, X) + Score(s.rooms[roomId].scores, O)
               == Score(rooms[roomId].scores, X) + Score(rooms[roomId].scores, O) + 1
  {
    var b' := rooms[roomId].board[index := Some(rooms[roomId].current)];
    WinnerExactlyWhenLineComplete(b');
    assert Winner(b').Some?;
  }

  /** An accepted move that neither wins nor fills the board only writes the square and passes the turn. */
  lemma QuietMove(rooms: Rooms, caller: Id, roomId: RoomId, index: int)
    requires MoveAccepted(rooms, caller, roomId, index)
    requires var b := rooms[roomId].board[index := Some(rooms[roomId].current)];
             Winner(b).None? && !Full(b)
    ensures var r := rooms[roomId];
            MakeMove(rooms, caller, roomId, index).rooms ==
              rooms[roomId := r.(board := r.board[index := Some(r.current)], current := Other(r.current))]
  {
  }

  /** An accepted move that completes a line finishes the round, credits the winner and announces it. */
  lemma WinningMove(rooms: Rooms, caller: Id, roomId: RoomId, index: int, w: Mark)
    requires MoveAccepted(rooms, caller, roomId, index)
    requires Winner(rooms[roomId].board[index := Some(rooms[roomId].current)]) == Some(w)
    ensures var r := rooms[roomId];
            var r' := r.(board := r.board[index := Some(r.current)], current := Other(r.current),
                         status := Finished, scores := Credit(r.scores, w));
            MakeMove(rooms, caller, roomId, index) ==
              Step(rooms[roomId := r'], [GameState(Group(roomId), r', Some(Won(w)))], false)
  {
  }

  /** Two distinct connections joining an unknown room id get X then O, and the room starts playing. */
  lemma ScenarioSeating(a: Id, b: Id, id: RoomId)
    requires a != b && id !in InheritedKeys
    ensures var s1 := Join(map[], a, id);
            var s2 := Join(s1.rooms, b, id);
            && s1.events[0] == PlayerAssignment(X)
            && s2.events[0] == PlayerAssignment(O)
            && s2.rooms == map[id := Room([a, b], EmptyBoard, X, Playing, Scores(0, 0))]
  {
    var s1 := Join(map[], a, id);
    var r1 := s1.rooms[id];
    assert r1.players == [a];
    assert r1 == Room([a], EmptyBoard, X, Waiting, Scores(0, 0));
    assert s1.rooms.Keys == {id};
    assert s1.rooms == map[id := r1];
    assert [a] + [b] == [a, b];
  }

  /**
   * The end-to-end game: X plays 0, O plays 4, X plays 1, O plays 5, X plays 2;
   * X wins on the top row and scores one.
   */
  lemma ScenarioTopRowWin(a: Id, b: Id, id: RoomId)
    requires a != b && id !in InheritedKeys
    ensures var s2 := Join(Join(map[], a, id).rooms, b, id);
            var m1 := MakeMove(s2.rooms, a, id, 0);
            var m2 := MakeMove(m1.rooms, b, id, 4);
            var m3 := MakeMove(m2.rooms, a, id, 1);
            var m4 := MakeMove(m3.rooms, b, id, 5);
            var m5 := MakeMove(m4.rooms, a, id, 2);
            && m5.rooms[id].status == Finished
            && Score(m5.rooms[id].scores, X) == 1
            && Score(m5.rooms[id].scores, O) == 0
            && m5.events == [GameState(Group(id), m5.rooms[id], Some(Won(X)))]
  {
    ScenarioSeating(a, b, id);
    OpeningMoves(a, b, id);
    MiddleMoves(a, b, id);
    ClosingMove(a, b, id);
  }

  /** The last move of the top-row game: X at 2 completes the top row. */
  lemma ClosingMove(a: Id, b: Id, id: RoomId)
    requires a != b
    ensures var before := Room([a, b], [Some(X), Some(X), None, None, Some(O), Some(O), None, None, None], X, Playing, Scores(0, 0));
            var after := Room([a, b], [Some(X), Some(X), Some(X), None, Some(O), Some(O), None, None, None], O, Finished, Scores(1, 0));
            MakeMove(map[id := before], a, id, 2) == Step(map[id := after], [GameState(Group(id), after, Some(Won(X)))], false)
  {
    var before := Room([a, b], [Some(X), Some(X), None, None, Some(O), Some(O), None, None, None], X, Playing, Scores(0, 0));
    var b5 := before.board[2 := Some(X)];
    WinnerIsFirstLine(b5, 0, X);
    WinningMove(map[id := before], a, id, 2, X);
    assert b5 == [Some(X), Some(X), Some(X), None, Some(O), Some(O), None, None, None];
    assert map[id := before][id := before.(board := b5, current := O, status := Finished, scores := Scores(1, 0))]
        == map[id := before.(board := b5, current := O, status := Finished, scores := Scores(1, 0))];
  }

  /** The first two quiet moves of the top-row game: X at 0, then O at 4. */
  lemma OpeningMoves(a: Id, b: Id, id: RoomId)
    requires a != b
    ensures var start := Room([a, b], EmptyBoard, X, Playing, Scores(0, 0));
            var m1 := MakeMove(map[id := start], a, id, 0);
            MakeMove(m1.rooms, b, id, 4).rooms ==
              map[id := start.(board := [Some(X), None, None, None, Some(O), None, None, None, None])]
  {
    var start := Room([a, b], EmptyBoard, X, Playing, Scores(0, 0));
    var b1 := EmptyBoard[0 := Some(X)];
    var b2 := b1[4 := Some(O)];
    NoWinnerEarly(b1);
    QuietMoveAlone(start, id, a, 0);
    NoWinnerEarly(b2);
    QuietMoveAlone(start.(board := b1, current := O), id, b, 4);
    assert b2 == [Some(X), None, None, None, Some(O), None, None, None, None];
  }

  /** The next two quiet moves of the top-row game: X at 1, then O at 5. */
  lemma MiddleMoves(a: Id, b: Id, id: RoomId)
    requires a != b
    ensures var start := Room([a, b], [Some(X), None, None, None, Some(O), None, None, None, None], X, Playing, Scores(0, 0));
            var m3 := MakeMove(map[id := start], a, id, 1);
            MakeMove(m3.rooms, b, id, 5).rooms ==
              map[id := start.(board := [Some(X), Some(X), None, None, Some(O), Some(O), None, None, None])]
  {
    var start := Room([a, b], [Some(X), None, None, None, Some(O), None, None, None, None], X, Playing, Scores(0, 0));
    var b3 := start.board[1 := Some(X)];
    var b4 := b3[5 := Some(O)];
    NoWinnerEarly(b3);
    QuietMoveAlone(start, id, a, 1);
    NoWinnerEarly(b4);
    QuietMoveAlone(start.(board := b3, current := O), id, b, 5);
    assert b4 == [Some(X), Some(X), None, None, Some(O), Some(O), None, None, None];
  }

  /** `QuietMove` in a registry of one room. */
  lemma QuietMoveAlone(r: Room, id: RoomId, caller: Id, index: int)
    requires r.status == Playing && 0 <= index < 9 && r.board[index].None?
    requires Role(r.players, caller) == r.current
    requires Winner(r.board[index := Some(r.current)]).None? && !Full(r.board[index := Some(r.current)])
    ensures MakeMove(map[id := r], caller, id, index).rooms ==
              map[id := r.(board := r.board[index := Some(r.current)], current := Other(r.current))]
  {
    QuietMove(map[id := r], caller, id, index);
    assert map[id := r][id := r.(board := r.board[index := Some(r.current)], current := Other(r.current))]
        == map[id := r.(board := r.board[index := Some(r.current)], current := Other(r.current))];
  }

  /** A board with squares 2, 3 and 6..8 empty completes no line and is not full. */
  lemma NoWinnerEarly(b: Board)
    requires b[2].None? && b[6].None? && b[7].None? && b[8].None?
    requires b[3].None?
    ensures Winner(b) == None
    ensures !Full(b)
  {
    assert b[2] == None;
  }

  /**
   * Joining a finished room does not clear the board. After X wins on the top row,
   * if O leaves and a newcomer takes the free seat, the room plays on over the old
   * winning line, and the newcomer's next move credits X with another point.
   */
  lemma StaleWinAfterRejoin(r: Room, roomId: RoomId, x: Id, leaver: Id, newcomer: Id, index: int)
    requires r.players == [x, leaver] && x != leaver && x != newcomer
    requires r.status == Finished && r.current == O
    requires r.board[0] == Some(X) && r.board[1] == Some(X) && r.board[2] == Some(X)
    requires 0 <= index < 9 && r.board[index].None?
    ensures var d := Disconnect(map[roomId := r], leaver, [roomId]);
            var j := Join(d.rooms, newcomer, roomId);
            var m := MakeMove(j.rooms, newcomer, roomId, index);
            && j.rooms[roomId].status == Playing
            && j.rooms[roomId].board == r.board
            && Score(m.rooms[roomId].scores, X) == Score(r.scores, X) + 1
            && m.events == [GameState(Group(roomId), m.rooms[roomId], Some(Won(X)))]
  {
    var back := r.(players := [x, newcomer], status := Playing);
    RejoinSeats(r, roomId, x, leaver, newcomer);
    WinnerIsFirstLine(r.board[index := Some(O)], 0, X);
    WinningMove(map[roomId := back], newcomer, roomId, index, X);
  }

  /** O leaving a two-player room and a newcomer joining seats the newcomer as O and resumes play. */
  lemma RejoinSeats(r: Room, roomId: RoomId, x: Id, leaver: Id, newcomer: Id)
    requires r.players == [x, leaver] && x != leaver
    ensures var d := Disconnect(map[roomId := r], leaver, [roomId]);
            Join(d.rooms, newcomer, roomId).rooms == map[roomId := r.(players := [x, newcomer], status := Playing)]
  {
    assert [x] + [newcomer] == [x, newcomer];
    var left := r.(players := [x], status := Waiting);
    LeaverLeavesOne(r, roomId, x, leaver);
    SecondSeat(left, roomId, newcomer);
  }

  /** Of a two-player room, the first player stays and the room waits. */
  lemma LeaverLeavesOne(r: Room, roomId: RoomId, x: Id, leaver: Id)
    requires r.players == [x, leaver] && x != leaver
    ensures Disconnect(map[roomId := r], leaver, [roomId]).rooms == map[roomId := r.(players := [x], status := Waiting)]
  {
    assert Without([x, leaver], leaver) == [x] by {
      assert [x, leaver][1..] == [leaver];
      assert Without([leaver], leaver) == [];
    }
  }

  /** A join to a one-player room takes the second seat and starts play. */
  lemma SecondSeat(r: Room, roomId: RoomId, newcomer: Id)
    requires |r.players| == 1
    ensures Join(map[roomId := r], newcomer, roomId).rooms ==
              map[roomId := r.(players := r.players + [newcomer], status := Playing)]
  {
  }

  /** Roles come from array position: a socket that never joined still moves for O. */
  lemma OutsiderMovesForO(r: Room, roomId: RoomId, outsider: Id, index: int)
    requires outsider !in r.players && |r.players| > 0
    requires r.status == Playing && r.current == O
    requires 0 <= index < 9 && r.board[index].None?
    ensures MoveAccepted(map[roomId := r], outsider, roomId, index)
    ensures MakeMove(map[roomId := r], outsider, roomId, index).rooms[roomId].board[index] == Some(O)
  {
  }

  /** Restart ignores the head count: a lone player can put the room into play. */
  lemma LoneRestartPlays(r: Room, roomId: RoomId, p: Id)
    requires r.players == [p]
    ensures Restart(map[roomId := r], p, roomId).rooms[roomId].status == Playing
  {
  }
}
