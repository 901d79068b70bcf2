/**
 * The connection handler: one inbound message from one connection, dispatched to
 * the game it names, as a single atomic step of the whole server state (both
 * registries). Everything the runtime decides besides the message is an `Env`.
 */
module Session {

  import opened Wrappers
  import opened Registry
  import TicTacToe
  import DrawGuess
  import TicTacToeInvariants
  import DrawGuessInvariants

  /** The inbound events; `D` is the opaque stroke payload of `draw`. */
  datatype Message<D> =
    | JoinTicTacToe(roomId: RoomId)
    | MakeMove(roomId: RoomId, index: int)
    | RestartTicTacToe(roomId: RoomId)
    | JoinDrawGuess(roomId: RoomId)
    | Draw(roomId: RoomId, data: D)
    | Guess(roomId: RoomId, text: string)
    | Disconnect
  {
    predicate ForTicTacToe()
    {
      JoinTicTacToe? || MakeMove? || RestartTicTacToe?
    }

    predicate ForDrawGuess()
    {
      JoinDrawGuess? || Guess?
    }
  }

  /** The two process-wide registries `ticTacToeRooms` and `drawGuessRooms`. */
  datatype Server = Server(ticTacToe: TicTacToe.Rooms, drawGuess: DrawGuess.Rooms)

  /** The server at start-up: no rooms at all. */
  const Boot: Server := Server(map[], map[])

  /**
   * What the runtime supplies: the order in which `for (roomId in rooms)` visits each
   * registry, and the `Math.random()` values of a round start in each room.
   */
  datatype Env = Env(ticTacToeOrder: seq<RoomId>, drawGuessOrder: seq<RoomId>, draws: RoomId -> DrawGuess.RoundDraw)

  datatype Output<D> =
    | TicTacToeEvent(ttt: TicTacToe.Event)
    | DrawGuessEvent(dg: DrawGuess.Event)
    | Stroke(relayed: DrawGuess.Relayed<D>)

  /** The next server state, the messages sent, and whether the handler threw a TypeError. */
  datatype Reply<D> = Reply(server: Server, out: seq<Output<D>>, threw: bool)

  /** The enumeration orders describe the registries a disconnect walks. */
  predicate Consistent(server: Server, env: Env)
  {
    Enumerates(env.ticTacToeOrder, server.ticTacToe) && Enumerates(env.drawGuessOrder, server.drawGuess)
  }

  function WrapTicTacToe<D>(es: seq<TicTacToe.Event>): (out: seq<Output<D>>)
    ensures |out| == |es|
    ensures forall i :: 0 <= i < |es| ==> out[i] == TicTacToeEvent(es[i])
    ensures forall o :: o in out ==> o.TicTacToeEvent?
  {
    if es == [] then [] else [TicTacToeEvent(es[0])] + WrapTicTacToe(es[1..])
  }

  function WrapDrawGuess<D>(es: seq<DrawGuess.Event>): (out: seq<Output<D>>)
    ensures |out| == |es|
    ensures forall i :: 0 <= i < |es| ==> out[i] == DrawGuessEvent(es[i])
    ensures forall o :: o in out ==> o.DrawGuessEvent?
  {
    if es == [] then [] else [DrawGuessEvent(es[0])] + WrapDrawGuess(es[1..])
  }

  /** The reply is the handler's step on the tic-tac-toe registry: its rooms, its events in order, its throw. */
  predicate CarriesTicTacToe<D>(reply: Reply<D>, server: Server, s: Step<TicTacToe.Room, TicTacToe.Event>)
  {
    && reply.server == server.(ticTacToe := s.rooms)
    && |reply.out| == |s.events|
    && (forall i :: 0 <= i < |s.events| ==> reply.out[i] == TicTacToeEvent(s.events[i]))
    && reply.threw == s.threw
  }

  /** The reply is the handler's step on the draw-and-guess registry. */
  predicate CarriesDrawGuess<D>(reply: Reply<D>, server: Server, s: Step<DrawGuess.Room, DrawGuess.Event>)
  {
    && reply.server == server.(drawGuess := s.rooms)
    && |reply.out| == |s.events|
    && (forall i :: 0 <= i < |s.events| ==> reply.out[i] == DrawGuessEvent(s.events[i]))
    && reply.threw == s.threw
  }

  /**
   * The tic-tac-toe half of `disconnect` followed by the draw-and-guess half: the
   * replies are both halves' events, in emit order, tic-tac-toe first.
   */
  function DisconnectAll<D>(server: Server, caller: Id, env: Env): (reply: Reply<D>)
    requires Consistent(server, env)
    ensures reply.server.ticTacToe.Keys == server.ticTacToe.Keys
    ensures reply.server.drawGuess.Keys == server.drawGuess.Keys
    ensures forall k :: k in reply.server.ticTacToe ==> caller !in reply.server.ticTacToe[k].players
    ensures forall k :: k in reply.server.drawGuess ==> caller !in reply.server.drawGuess[k].players
    ensures forall k :: k in server.ticTacToe ==>
              reply.server.ticTacToe[k] == TicTacToe.Leave(server.ticTacToe[k], caller)
    ensures forall k :: k in server.drawGuess ==>
              reply.server.drawGuess[k] == DrawGuess.Leave(server.drawGuess[k], caller, env.draws(k))
    ensures reply.out ==
              WrapTicTacToe(TicTacToe.Disconnect(server.ticTacToe, caller, env.ticTacToeOrder).events)
              + WrapDrawGuess(DrawGuess.Disconnect(server.drawGuess, caller, env.drawGuessOrder, env.draws).events)
    ensures |server.drawGuess| <= |reply.out| <= |server.ticTacToe| + 2 * |server.drawGuess|
    ensures forall i, j :: 0 <= i < j < |reply.out| && reply.out[j].TicTacToeEvent? ==> reply.out[i].TicTacToeEvent?
    ensures !reply.threw
  {
    var t := TicTacToe.Disconnect(server.ticTacToe, caller, env.ticTacToeOrder);
    var g := DrawGuess.Disconnect(server.drawGuess, caller, env.drawGuessOrder, env.draws);
    var out: seq<Output<D>> := WrapTicTacToe(t.events) + WrapDrawGuess(g.events);
    TicTacToeFirst(t.events, g.events, out);
    Reply(Server(t.rooms, g.rooms), out, false)
  }

  /** Every tic-tac-toe event is sent before every draw-and-guess event. */
  lemma TicTacToeFirst<D>(t: seq<TicTacToe.Event>, g: seq<DrawGuess.Event>, out: seq<Output<D>>)
    requires out == WrapTicTacToe(t) + WrapDrawGuess(g)
    ensures forall i, j :: 0 <= i < j < |out| && out[j].TicTacToeEvent? ==> out[i].TicTacToeEvent?
  {
    var wt, wg := WrapTicTacToe<D>(t), WrapDrawGuess<D>(g);
    forall i, j | 0 <= i < j < |out|
      ensures out[j].TicTacToeEvent? ==> out[i].TicTacToeEvent?
    {
      if j < |t| {
        assert out[i] == wt[i];
      } else {
        assert out[j] == wg[j - |t|];
      }
    }
  }

  /**
   * A tic-tac-toe message touches only the tic-tac-toe registry and emits only its
   * events; a join or restart naming an inherited member throws and changes nothing.
   */
  function HandleTicTacToe<D>(server: Server, caller: Id, msg: Message<D>): (reply: Reply<D>)
    requires msg.ForTicTacToe()
    ensures reply.server.drawGuess == server.drawGuess
    ensures reply.server.ticTacToe.Keys >= server.ticTacToe.Keys
    ensures forall o :: o in reply.out ==> o.TicTacToeEvent?
    ensures reply.threw <==> !msg.MakeMove? && ReadsInherited(server.ticTacToe, msg.roomId)
    ensures reply.threw ==> reply.server == server && reply.out == []
    ensures msg.JoinTicTacToe? ==>
              CarriesTicTacToe(reply, server, TicTacToe.Join(server.ticTacToe, caller, msg.roomId))
    ensures msg.MakeMove? ==>
              CarriesTicTacToe(reply, server, TicTacToe.MakeMove(server.ticTacToe, caller, msg.roomId, msg.index))
    ensures msg.RestartTicTacToe? ==>
              CarriesTicTacToe(reply, server, TicTacToe.Restart(server.ticTacToe, caller, msg.roomId))
  {
    var s := match msg
      case JoinTicTacToe(roomId) => TicTacToe.Join(server.ticTacToe, caller, roomId)
      case MakeMove(roomId, index) => TicTacToe.MakeMove(server.ticTacToe, caller, roomId, index)
      case RestartTicTacToe(roomId) => TicTacToe.Restart(server.ticTacToe, caller, roomId);
    Reply(server.(ticTacToe := s.rooms), WrapTicTacToe(s.events), s.threw)
  }

  /**
   * A join or guess of the drawing game touches only its registry and emits only its
   * events; either one naming an inherited member throws and changes nothing.
   */
  function HandleDrawGuess<D>(server: Server, caller: Id, msg: Message<D>, env: Env): (reply: Reply<D>)
    requires msg.ForDrawGuess()
    ensures reply.server.ticTacToe == server.ticTacToe
    ensures reply.server.drawGuess.Keys >= server.drawGuess.Keys
    ensures forall o :: o in reply.out ==> o.DrawGuessEvent?
    ensures reply.threw <==> ReadsInherited(server.drawGuess, msg.roomId)
    ensures reply.threw ==> reply.server == server && reply.out == []
    ensures msg.JoinDrawGuess? ==>
              CarriesDrawGuess(reply, server, DrawGuess.Join(server.drawGuess, caller, msg.roomId, env.draws(msg.roomId)))
    ensures msg.Guess? ==>
              CarriesDrawGuess(reply, server,
                DrawGuess.MakeGuess(server.drawGuess, caller, msg.roomId, msg.text, env.draws(msg.roomId)))
  {
    var s := match msg
      case JoinDrawGuess(roomId) => DrawGuess.Join(server.drawGuess, caller, roomId, env.draws(roomId))
      case Guess(roomId, text) => DrawGuess.MakeGuess(server.drawGuess, caller, roomId, text, env.draws(roomId));
    Reply(server.(drawGuess := s.rooms), WrapDrawGuess(s.events), s.threw)
  }

  /** A stroke changes no state and is relayed verbatim at most once. */
  function HandleDraw<D>(server: Server, caller: Id, roomId: RoomId, data: D): (reply: Reply<D>)
    ensures reply.server == server && !reply.threw
    ensures |reply.out| <= 1
    ensures forall o :: o in reply.out ==> o == Stroke(DrawGuess.Relayed(roomId, data))
    ensures reply.out != [] <==> roomId in server.drawGuess && server.drawGuess[roomId].drawer == Some(caller)
  {
    var relayed := DrawGuess.Relay(server.drawGuess, caller, roomId, data);
    Reply(server, if relayed == [] then [] else [Stroke(relayed[0])], false)
  }

  /** One inbound message, dispatched by its event name. */
  function Handle<D>(server: Server, caller: Id, msg: Message<D>, env: Env): (reply: Reply<D>)
    requires msg.Disconnect? ==> Consistent(server, env)
    ensures msg.ForTicTacToe() ==> reply.server.drawGuess == server.drawGuess
    ensures msg.ForDrawGuess() ==> reply.server.ticTacToe == server.ticTacToe
    ensures msg.Draw? ==> reply.server == server
    ensures msg.Disconnect? ==>
              forall k :: k in reply.server.ticTacToe ==> caller !in reply.server.ticTacToe[k].players
    ensures msg.Disconnect? ==>
              forall k :: k in reply.server.drawGuess ==> caller !in reply.server.drawGuess[k].players
    ensures reply.threw <==>
              || ((msg.JoinTicTacToe? || msg.RestartTicTacToe?) && ReadsInherited(server.ticTacToe, msg.roomId))
              || ((msg.JoinDrawGuess? || msg.Guess?) && ReadsInherited(server.drawGuess, msg.roomId))
    ensures reply.threw ==> reply.server == server && reply.out == []
  {
    if msg.ForTicTacToe() then HandleTicTacToe(server, caller, msg)
    else if msg.ForDrawGuess() then HandleDrawGuess(server, caller, msg, env)
    else if msg.Draw? then HandleDraw(server, caller, msg.roomId, msg.data)
    else DisconnectAll(server, caller, env)
  }

  /** Every room of both games satisfies its game's invariant. */
  predicate Valid(server: Server)
  {
    TicTacToeInvariants.AllValid(server.ticTacToe) && DrawGuessInvariants.AllValid(server.drawGuess)
  }

  lemma BootIsValid()
    ensures Valid(Boot)
  {
  }

  /** Every message keeps the server valid, whatever the runtime's choices. */
  lemma HandlePreservesValid<D>(server: Server, caller: Id, msg: Message<D>, env: Env)
    requires msg.Disconnect? ==> Consistent(server, env)
    requires Valid(server)
    ensures Valid(Handle(server, caller, msg, env).server)
  {
    match msg
    case JoinTicTacToe(roomId) =>
      TicTacToeInvariants.JoinPreservesValid(server.ticTacToe, caller, roomId);
    case MakeMove(roomId, index) =>
      TicTacToeInvariants.MovePreservesValid(server.ticTacToe, caller, roomId, index);
    case RestartTicTacToe(roomId) =>
      TicTacToeInvariants.RestartPreservesValid(server.ticTacToe, caller, roomId);
    case JoinDrawGuess(roomId) =>
      DrawGuessInvariants.JoinPreservesValid(server.drawGuess, caller, roomId, env.draws(roomId));
    case Draw(_, _) =>
    case Guess(roomId, text) =>
      DrawGuessInvariants.GuessPreservesValid(server.drawGuess, caller, roomId, text, env.draws(roomId));
    case Disconnect =>
      TicTacToeInvariants.DisconnectPreservesValid(server.ticTacToe, caller, env.ticTacToeOrder);
      DrawGuessInvariants.DisconnectPreservesValid(server.drawGuess, caller, env.drawGuessOrder, env.draws);
  }
}
