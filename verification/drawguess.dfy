/**
 * The draw-and-guess room: its record, the round start `startNewDrawGuessRound`
 * with `getRandomWord`, and the handlers `joinDrawGuess`, `draw`, `guess` and
 * the draw-and-guess half of `disconnect`.
 */
module DrawGuess {

  import opened Wrappers
  import opened Registry
  import Random
  import opened Text

  datatype Status = Waiting | Playing

  /** One entry of the guess log: `{ player, guess }`. */
  datatype Guess = Guess(player: Id, text: string)

  datatype Room = Room(
    players: seq<Id>,
    drawer: Option<Id>,
    word: Option<string>,
    guesses: seq<Guess>,
    status: Status)

  /** The record created on the first join to an unknown room id. */
  const Fresh: Room := Room([], None, None, [], Waiting)

  const Capacity: nat := 10

  /** Players needed for a round to run. */
  const Quorum: nat := 3

  /** The fixed word list of `getRandomWord`. */
  const Words: seq<string> := ["apple", "house", "tree", "car", "dog", "sun", "book"]

  type Rooms = map<RoomId, Room>

  /** The two `Math.random()` values one round start consumes: the drawer's, then the word's. */
  datatype RoundDraw = RoundDraw(drawer: Random.Draw, word: Random.Draw)

  /** Every event of this game goes to the whole room except `roomFull`, which goes to the caller. */
  datatype Event =
    | GameState(roomId: RoomId, room: Room)
    | RoomFull
    | CorrectGuess(roomId: RoomId, player: Id)

  /** A relayed `draw` event carrying the stroke payload verbatim. */
  datatype Relayed<D> = Relayed(roomId: RoomId, data: D)

  function Lookup(rooms: Rooms, roomId: RoomId): Room
  {
    if roomId in rooms then rooms[roomId] else Fresh
  }

  /** `getRandomWord` */
  function RandomWord(u: Random.Draw): (w: string)
    ensures w in Words
  {
    Words[Random.Pick(u, |Words|)]
  }

  /**
   * `startNewDrawGuessRound`: with a quorum, a drawer from the players, a word from
   * the list and an empty guess log; without one, back to waiting with no drawer and
   * no word, the guess log left as it was.
   */
  function StartRound(r: Room, d: RoundDraw): (r': Room)
    ensures r'.players == r.players
    ensures |r.players| >= Quorum ==>
              && r'.status == Playing
              && r'.drawer.Some? && r'.drawer.value in r.players
              && r'.word.Some? && r'.word.value in Words
              && r'.guesses == []
    ensures |r.players| < Quorum ==>
              r'.status == Waiting && r'.drawer == None && r'.word == None && r'.guesses == r.guesses
  {
    if |r.players| >= Quorum then
      var drawer := r.players[Random.Pick(d.drawer, |r.players|)];
      r.(drawer := Some(drawer), word := Some(RandomWord(d.word)), guesses := [], status := Playing)
    else
      r.(status := Waiting, drawer := None, word := None)
  }

  /**
   * `joinDrawGuess`: admit up to ten players; the third arrival in a room without a
   * drawer starts a round. An id naming an inherited member is not created and
   * `.players.length` of that member throws.
   */
  function Join(rooms: Rooms, caller: Id, roomId: RoomId, d: RoundDraw): (s: Step<Room, Event>)
    ensures s.threw <==> ReadsInherited(rooms, roomId)
    ensures s.threw ==> s.rooms == rooms && s.events == []
    ensures !s.threw ==> roomId in s.rooms && s.rooms.Keys == rooms.Keys + {roomId}
    ensures forall k :: k in rooms && k != roomId ==> k in s.rooms && s.rooms[k] == rooms[k]
    ensures |Lookup(rooms, roomId).players| >= Capacity ==>
              roomId in rooms && s.rooms == rooms && s.events == [RoomFull]
    ensures !s.threw && |Lookup(rooms, roomId).players| < Capacity ==>
              var r, r' := Lookup(rooms, roomId), s.rooms[roomId];
              && r'.players == r.players + [caller]
              && (|r'.players| >= Quorum && r.drawer.None? ==>
                    r' == StartRound(r.(players := r'.players), d)
                    && s.events == [GameState(roomId, r'), GameState(roomId, r')])
              && (|r'.players| < Quorum || r.drawer.Some? ==>
                    r' == r.(players := r'.players)
                    && s.events == [GameState(roomId, r')])
  {
    var r := Lookup(rooms, roomId);
    if ReadsInherited(rooms, roomId) then Step(rooms, [], true)
    else if |r.players| < Capacity then
      var joined := r.(players := r.players + [caller]);
      if |joined.players| >= Quorum && joined.drawer.None? then
        var r' := StartRound(joined, d);
        Step(rooms[roomId := r'], [GameState(roomId, r'), GameState(roomId, r')], false)
      else
        Step(rooms[roomId := joined], [GameState(roomId, joined)], false)
    else
      Step(rooms[roomId := r], [RoomFull], false)
  }

  /** `draw`: the stroke reaches the room only when the caller is that room's drawer. */
  function Relay<D>(rooms: Rooms, caller: Id, roomId: RoomId, data: D): (out: seq<Relayed<D>>)
    ensures |out| <= 1
    ensures out != [] <==> roomId in rooms && rooms[roomId].drawer == Some(caller)
    ensures forall e :: e in out ==> e == Relayed(roomId, data)
  {
    if roomId in rooms && rooms[roomId].drawer == Some(caller) then [Relayed(roomId, data)] else []
  }

  /**
   * `guess.toLowerCase() === room.word?.toLowerCase()`: never true while there is no
   * word; otherwise a letter-by-letter comparison up to ASCII case.
   */
  function Matches(text: string, word: Option<string>): (hit: bool)
    ensures word.None? ==> !hit
    ensures word.Some? ==>
              (hit <==> |text| == |word.value|
                        && forall i :: 0 <= i < |text| ==> LowerChar(text[i]) == LowerChar(word.value[i]))
    ensures word.Some? && text == word.value ==> hit
  {
    if word.Some? then SameIgnoringCaseCharwise(text, word.value); SameIgnoringCase(text, word.value)
    else false
  }

  /**
   * `guess`: anyone but the drawer (members or not, waiting or playing) has the guess
   * logged; a case-insensitive hit announces the guesser and starts a new round. An
   * inherited member has no drawer, so `.guesses.push` is reached and throws.
   */
  function MakeGuess(rooms: Rooms, caller: Id, roomId: RoomId, text: string, d: RoundDraw): (s: Step<Room, Event>)
    ensures s.threw <==> ReadsInherited(rooms, roomId)
    ensures s.rooms.Keys == rooms.Keys
    ensures forall k :: k in rooms && k != roomId ==> s.rooms[k] == rooms[k]
    ensures roomId !in rooms || rooms[roomId].drawer == Some(caller) ==>
              s.rooms == rooms && s.events == []
    ensures roomId in rooms && rooms[roomId].drawer != Some(caller) ==>
              var r, r' := rooms[roomId], s.rooms[roomId];
              var logged := r.guesses + [Guess(caller, text)];
              && r'.players == r.players
              && (Matches(text, r.word) ==>
                    r' == StartRound(r.(guesses := logged), d)
                    && s.events == [CorrectGuess(roomId, caller), GameState(roomId, r')])
              && (!Matches(text, r.word) ==>
                    r' == r.(guesses := logged)
                    && s.events == [GameState(roomId, r')])
  {
    if roomId in rooms && rooms[roomId].drawer != Some(caller) then
      var r := rooms[roomId];
      var logged := r.(guesses := r.guesses + [Guess(caller, text)]);
      if Matches(text, r.word) then
        var r' := StartRound(logged, d);
        Step(rooms[roomId := r'], [CorrectGuess(roomId, caller), GameState(roomId, r')], false)
      else
        Step(rooms[roomId := logged], [GameState(roomId, logged)], false)
    else
      Step(rooms, [], ReadsInherited(rooms, roomId))
  }

  /** One room's share of `disconnect`: drop the leaver; if it was drawing, start a new round. */
  function Leave(r: Room, id: Id, d: RoundDraw): (r': Room)
    ensures r'.players == Without(r.players, id)
    ensures forall p :: p in r'.players <==> p in r.players && p != id
    ensures |r'.players| <= |r.players|
    ensures r.drawer == Some(id) ==> r' == StartRound(r.(players := r'.players), d)
    ensures r.drawer != Some(id) ==> r' == r.(players := r'.players)
  {
    var remaining := r.(players := Without(r.players, id));
    if r.drawer == Some(id) then StartRound(remaining, d) else remaining
  }

  /** The snapshots `disconnect` broadcasts, visiting rooms in `order`: two where the drawer left, else one. */
  function LeaveNotices(before: Rooms, after: Rooms, order: seq<RoomId>, id: Id): (es: seq<Event>)
    requires forall k :: k in order ==> k in before && k in after
    requires Distinct(order)
    ensures |order| <= |es| <= 2 * |order|
    ensures forall e :: e in es ==> e.GameState? && e.roomId in order && e.room == after[e.roomId]
    ensures forall k :: k in order ==>
              multiset(es)[GameState(k, after[k])] == if before[k].drawer == Some(id) then 2 else 1
  {
    if order == [] then []
    else
      var k := order[0];
      var notice := GameState(k, after[k]);
      var rest := LeaveNotices(before, after, order[1..], id);
      assert k !in order[1..];
      assert notice !in rest;
      if before[k].drawer == Some(id) then [notice, notice] + rest else [notice] + rest
  }

  /** The rooms a list of snapshots goes to, in emit order. */
  function Recipients(es: seq<Event>): (ks: seq<RoomId>)
    requires forall e :: e in es ==> e.GameState?
    ensures |ks| == |es|
    ensures forall i :: 0 <= i < |es| ==> ks[i] == es[i].roomId
  {
    if es == [] then [] else [es[0].roomId] + Recipients(es[1..])
  }

  /** The notices follow the enumeration: both notices of a room come before any later room's. */
  lemma {:induction false} LeaveNoticesInOrder(before: Rooms, after: Rooms, order: seq<RoomId>, id: Id)
    requires forall k :: k in order ==> k in before && k in after
    requires Distinct(order)
    ensures FollowsOrder(Recipients(LeaveNotices(before, after, order, id)), order)
  {
    if order != [] {
      var es := LeaveNotices(before, after, order, id);
      var rest := LeaveNotices(before, after, order[1..], id);
      LeaveNoticesInOrder(before, after, order[1..], id);
      var notice := GameState(order[0], after[order[0]]);
      var head := if before[order[0]].drawer == Some(id) then [notice, notice] else [notice];
      assert es == head + rest;
      RecipientsCons(order, head, rest);
    }
  }

  /** A room's notices put in front of notices that follow the rest of `order` follow all of it. */
  lemma RecipientsCons(order: seq<RoomId>, head: seq<Event>, rest: seq<Event>)
    requires Distinct(order) && order != []
    requires forall e :: e in head ==> e.GameState? && e.roomId == order[0]
    requires forall e :: e in rest ==> e.GameState?
    requires FollowsOrder(Recipients(rest), order[1..])
    ensures FollowsOrder(Recipients(head + rest), order)
  {
    var es := head + rest;
    var ks, tail := Recipients(es), Recipients(rest);
    forall i | 0 <= i < |head|
      ensures ks[i] == order[0]
    {
      assert es[i] == head[i];
    }
    forall i | 0 <= i < |rest|
      ensures ks[|head|..][i] == tail[i]
    {
      assert es[|head| + i] == rest[i];
    }
    assert ks[|head|..] == tail;
    FollowsOrderCons(order, ks, |head|);
  }

  /**
   * The draw-and-guess half of `disconnect`: every room loses the leaver and is
   * broadcast once, twice where the leaver was drawing (the round start broadcasts
   * too). `for ... in` skips the inherited members, so it never throws.
   */
  function Disconnect(rooms: Rooms, id: Id, order: seq<RoomId>, draws: RoomId -> RoundDraw): (s: Step<Room, Event>)
    requires Enumerates(order, rooms)
    ensures !s.threw
    ensures s.rooms.Keys == rooms.Keys
    ensures forall k :: k in rooms ==> id !in s.rooms[k].players
    ensures forall k :: k in rooms ==> s.rooms[k] == Leave(rooms[k], id, draws(k))
    ensures |rooms| <= |s.events| <= 2 * |rooms|
    ensures forall e :: e in s.events ==> e.GameState? && e.roomId in rooms && e.room == s.rooms[e.roomId]
    ensures forall k :: k in rooms ==>
              multiset(s.events)[GameState(k, s.rooms[k])] == if rooms[k].drawer == Some(id) then 2 else 1
  {
    var after := map k | k in rooms :: Leave(rooms[k], id, draws(k));
    EnumerationSize(order, rooms);
    Step(after, LeaveNotices(rooms, after, order, id), false)
  }

  /** `disconnect` broadcasts in the order `for (roomId in rooms)` visits the rooms. */
  lemma DisconnectInOrder(rooms: Rooms, id: Id, order: seq<RoomId>, draws: RoomId -> RoundDraw)
    requires Enumerates(order, rooms)
    ensures FollowsOrder(Recipients(Disconnect(rooms, id, order, draws).events), order)
  {
    var after := map k | k in rooms :: Leave(rooms[k], id, draws(k));
    LeaveNoticesInOrder(rooms, after, order, id);
  }
}
