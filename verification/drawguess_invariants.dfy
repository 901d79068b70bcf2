/**
 * What every draw-and-guess handler keeps true of every room, the reach of the
 * random choices, and the documented scenarios, quirks included.
 */
module DrawGuessInvariants {

  import opened Wrappers
  import opened Registry
  import Random
  import opened Text
  import opened DrawGuess

  /**
   * At most ten players; the drawer, if any, is a player; a round is on exactly when
   * there is a drawer, exactly when there is a word; the word comes from the list.
   */
  predicate Valid(r: Room)
  {
    && |r.players| <= Capacity
    && (r.drawer.Some? ==> r.drawer.value in r.players)
    && (r.status == Playing <==> r.drawer.Some?)
    && (r.drawer.Some? <==> r.word.Some?)
    && (r.word.Some? ==> r.word.value in Words)
  }

  predicate AllValid(rooms: Rooms)
  {
    forall k :: k in rooms ==> Valid(rooms[k])
  }

  lemma FreshIsValid()
    ensures Valid(Fresh)
  {
  }

  lemma StartRoundValid(r: Room, d: RoundDraw)
    requires |r.players| <= Capacity
    ensures Valid(StartRound(r, d))
  {
  }

  lemma JoinPreservesValid(rooms: Rooms, caller: Id, roomId: RoomId, d: RoundDraw)
    requires AllValid(rooms)
    ensures AllValid(Join(rooms, caller, roomId, d).rooms)
  {
    var s := Join(rooms, caller, roomId, d);
    var r := Lookup(rooms, roomId);
    assert Valid(r);
    forall k | k in s.rooms
      ensures Valid(s.rooms[k])
    {
      if k != roomId {
        assert s.rooms[k] == rooms[k];
      } else if |r.players| < Capacity {
        var r' := s.rooms[roomId];
        if |r'.players| >= Quorum && r.drawer.None? {
          StartRoundValid(r.(players := r'.players), d);
        } else {
          assert r.drawer.Some? ==> r.drawer.value in r'.players;
        }
      }
    }
  }

  lemma GuessPreservesValid(rooms: Rooms, caller: Id, roomId: RoomId, text: string, d: RoundDraw)
    requires AllValid(rooms)
    ensures AllValid(MakeGuess(rooms, caller, roomId, text, d).rooms)
  {
    var s := MakeGuess(rooms, caller, roomId, text, d);
    forall k | k in s.rooms
      ensures Valid(s.rooms[k])
    {
      assert Valid(rooms[k]);
      if k == roomId && rooms[roomId].drawer != Some(caller) {
        var r := rooms[roomId];
        StartRoundValid(r.(guesses := r.guesses + [Guess(caller, text)]), d);
      }
    }
  }

  lemma DisconnectPreservesValid(rooms: Rooms, id: Id, order: seq<RoomId>, draws: RoomId -> RoundDraw)
    requires Enumerates(order, rooms)
    requires AllValid(rooms)
    ensures AllValid(Disconnect(rooms, id, order, draws).rooms)
  {
    var s := Disconnect(rooms, id, order, draws);
    forall k | k in s.rooms
      ensures Valid(s.rooms[k])
    {
      var r := rooms[k];
      assert Valid(r);
      var r' := s.rooms[k];
      if r.drawer == Some(id) {
        StartRoundValid(r.(players := r'.players), draws(k));
      } else {
        assert r.drawer.Some? ==> r.drawer.value in r'.players;
      }
    }
  }

  /** The random choices reach everything: any player can be picked to draw, with any word. */
  lemma StartRoundReaches(r: Room, p: Id, w: string)
    requires |r.players| >= Quorum
    requires p in r.players && w in Words
    ensures exists d :: StartRound(r, d).drawer == Some(p) && StartRound(r, d).word == Some(w)
  {
    var i :| 0 <= i < |r.players| && r.players[i] == p;
    var j :| 0 <= j < |Words| && Words[j] == w;
    Random.PickReaches(|r.players|, i);
    Random.PickReaches(|Words|, j);
    var d := RoundDraw(Random.Fraction(i, |r.players|), Random.Fraction(j, |Words|));
    assert StartRound(r, d).drawer == Some(p);
  }

  /**
   * When the drawer disconnects, the room always restarts its round: a new drawer among
   * those left and a fresh guess log with a quorum, or waiting without one.
   */
  lemma DrawerLeavingRestartsRound(rooms: Rooms, id: Id, order: seq<RoomId>, draws: RoomId -> RoundDraw, k: RoomId)
    requires Enumerates(order, rooms)
    requires k in rooms && rooms[k].drawer == Some(id)
    ensures var r' := Disconnect(rooms, id, order, draws).rooms[k];
            && (|r'.players| >= Quorum ==>
                  r'.status == Playing && r'.drawer.Some? && r'.drawer.value != id && r'.guesses == [])
            && (|r'.players| < Quorum ==> r'.status == Waiting && r'.drawer == None)
  {
  }

  /** A correct guess in a room of three or more opens a fresh round with a drawer from the room. */
  lemma CorrectGuessOpensRound(rooms: Rooms, caller: Id, roomId: RoomId, text: string, d: RoundDraw)
    requires roomId in rooms && rooms[roomId].drawer != Some(caller)
    requires Matches(text, rooms[roomId].word)
    requires |rooms[roomId].players| >= Quorum
    ensures var s := MakeGuess(rooms, caller, roomId, text, d);
            && s.events[0] == CorrectGuess(roomId, caller)
            && s.rooms[roomId].guesses == []
            && s.rooms[roomId].drawer.Some? && s.rooms[roomId].drawer.value in rooms[roomId].players
            && s.rooms[roomId].word.Some? && s.rooms[roomId].word.value in Words
  {
  }

  /**
   * The waiting branch of a round start keeps the log: a correct guess once the room has
   * shrunk below three leaves the room waiting with the winning guess still logged.
   */
  lemma CorrectGuessBelowQuorumKeepsLog(rooms: Rooms, caller: Id, roomId: RoomId, text: string, d: RoundDraw)
    requires roomId in rooms && rooms[roomId].drawer != Some(caller)
    requires Matches(text, rooms[roomId].word)
    requires |rooms[roomId].players| < Quorum
    ensures var r' := MakeGuess(rooms, caller, roomId, text, d).rooms[roomId];
            && r'.status == Waiting && r'.word == None
            && r'.guesses == rooms[roomId].guesses + [Guess(caller, text)]
  {
  }

  /** Guesses are taken loosely: a stranger's guess in a waiting room is logged all the same. */
  lemma StrangerGuessLogged(r: Room, roomId: RoomId, stranger: Id, text: string, d: RoundDraw)
    requires Valid(r) && r.status == Waiting && stranger !in r.players
    ensures MakeGuess(map[roomId := r], stranger, roomId, text, d).rooms[roomId].guesses ==
              r.guesses + [Guess(stranger, text)]
  {
  }

  /**
   * The end-to-end round: three connections join, the third join starts a round, and a
   * non-drawer who types the word in any letter case is announced and a new round starts
   * with an empty guess log.
   */
  lemma ScenarioCorrectGuess(a: Id, b: Id, c: Id, id: RoomId, d1: RoundDraw, d2: RoundDraw, d3: RoundDraw,
                             guesser: Id, text: string, d4: RoundDraw)
    requires guesser in [a, b, c] && id !in InheritedKeys
    ensures var s3 := Join(Join(Join(map[], a, id, d1).rooms, b, id, d2).rooms, c, id, d3);
            var r := s3.rooms[id];
            && r.status == Playing && r.drawer.Some? && r.drawer.value in [a, b, c]
            && r.word.Some? && r.word.value in Words
            && (guesser != r.drawer.value && SameIgnoringCase(text, r.word.value) ==>
                  var g := MakeGuess(s3.rooms, guesser, id, text, d4);
                  && g.events[0] == CorrectGuess(id, guesser)
                  && g.rooms[id].guesses == []
                  && g.rooms[id].status == Playing)
  {
    var s1 := Join(map[], a, id, d1);
    assert s1.rooms[id] == Fresh.(players := [a]);
    var s2 := Join(s1.rooms, b, id, d2);
    assert [a] + [b] == [a, b];
    assert s2.rooms[id] == Fresh.(players := [a, b]);
    var s3 := Join(s2.rooms, c, id, d3);
    assert [a, b] + [c] == [a, b, c];
    assert s3.rooms[id].players == [a, b, c];
  }
}
