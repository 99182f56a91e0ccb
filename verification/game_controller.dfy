/**
 * backend/controllers/gameserver.go: the game registry and the handlers that start,
 * join, read, connect to and end games. Random ids are parameters (`gameId`,
 * `sessionId`: the ids the generator returned); `removeAnswers` is the helper that
 * hides the answers of the questions sent to players; `load` reads `n` questions.
 */
module GameController {
  import opened Wrappers
  import opened Seqs
  import opened ServerModels
  import SessionStoreOps
  import opened Hub
  import opened HubNotify
  import AnswerController

  const GameServerNotFound := "game server not found"
  const InvalidSessionId := "Invalid session ID"
  const SinglePlayerJoin := "Cannot join a single player game"
  const AlreadyFinished := "Game has already finished"
  const DefaultQuestionCount := 10

  /** `NewGameServer`: a game with a new id, started at once unless multiplayer, stored in the registry. */
  function NewGameServer(servers: Servers, questions: seq<Question>, store: SessionStore, multiplayer: bool, gameId: string)
    : (r: (Servers, GameServer))
    ensures r.1.id == gameId && r.1.questions == questions && r.1.store == store
    ensures r.1.multiplayer == multiplayer
    ensures r.1.started <==> !multiplayer
    ensures !r.1.finished && r.1.owner == ""
    ensures gameId in r.0 && r.0[gameId] == r.1
    ensures forall id :: id != gameId ==> (id in r.0 <==> id in servers) && (id in servers ==> r.0[id] == servers[id])
  {
    var g := GameServer(gameId, multiplayer, !multiplayer, false, "", questions, store);
    (servers[gameId := g], g)
  }

  /** `GetGameServer`: the game stored under `gameId`, or "game server not found". */
  function GetGameServer(servers: Servers, gameId: string): (r: Result<GameServer, string>)
    ensures r.Ok? <==> gameId in servers
    ensures r.Ok? ==> r.value == servers[gameId]
    ensures r.Err? ==> r.error == GameServerNotFound
  {
    if gameId in servers then Ok(servers[gameId]) else Err(GameServerNotFound)
  }

  /** `markGameServerFinished`: sets the game's finished time, or reports it missing. */
  function MarkFinished(servers: Servers, gameId: string): (r: (Servers, Option<string>))
    ensures gameId !in servers ==> r == (servers, Some(GameServerNotFound))
    ensures gameId in servers ==> r.1.None? && gameId in r.0 && r.0[gameId] == servers[gameId].(finished := true)
    ensures forall id :: id != gameId ==> (id in r.0 <==> id in servers) && (id in servers ==> r.0[id] == servers[id])
  {
    if gameId in servers then (servers[gameId := servers[gameId].(finished := true)], None)
    else (servers, Some(GameServerNotFound))
  }

  /** The body of `GET /game/{gameId}/{sessionId}`; `owner` stands for the presence of the `owner` key. */
  datatype GameBody = GameBody(
    id: string,
    started: bool,
    finished: bool,
    multiplayer: bool,
    questions: seq<Question>,
    questionIndex: int,
    currentScore: int,
    owner: bool)

  /** `GetGameHandler`: the snapshot of a game as one session sees it. */
  function GetGameHandler(servers: Servers, gameId: string, sessionId: string, removeAnswers: seq<Question> -> seq<Question>)
    : (r: Response<GameBody>)
    ensures gameId !in servers ==> r == Failure(StatusNotFound, Text(GameServerNotFound))
    ensures gameId in servers && sessionId !in servers[gameId].store.sessions ==>
      r == Failure(StatusNotFound, Text(InvalidSessionId))
    ensures gameId in servers && sessionId in servers[gameId].store.sessions ==>
      var g := servers[gameId];
      var p := g.store.sessions[sessionId];
      r.Success? && r.body.owner == (g.owner == sessionId)
      && r.body.started == g.started && r.body.finished == g.finished
      && r.body.questionIndex == p.currentQuestion && r.body.currentScore == p.score
      && r.body.questions == removeAnswers(g.questions)
      && r.body.id == g.id && r.body.multiplayer == g.multiplayer
  {
    match GetGameServer(servers, gameId)
    case Err(e) => Failure(StatusNotFound, Text(e))
    case Ok(g) =>
      match SessionStoreOps.GetSession(g.store, sessionId)
      case None => Failure(StatusNotFound, Text(InvalidSessionId))
      case Some(p) =>
        Success(GameBody(g.id, g.started, g.finished, g.multiplayer, removeAnswers(g.questions),
                         p.currentQuestion, p.score, g.owner == sessionId))
  }

  /** The body naming a game and a session. */
  datatype SessionBody = SessionBody(gameId: string, sessionId: string)

  /**
   * `JoinGameHandler`: joining an unknown, single-player or finished game is refused;
   * otherwise one session is created, the room is told, and its ids are returned.
   */
  function JoinGameHandler(servers: Servers, h: HubState, gameId: string, name: string, sessionId: string)
    : (r: (Servers, HubState, Response<SessionBody>))
    ensures gameId !in servers ==> r == (servers, h, Failure(StatusNotFound, Text(GameServerNotFound)))
    ensures gameId in servers && !servers[gameId].multiplayer ==>
      r == (servers, h, Failure(StatusBadRequest, Text(SinglePlayerJoin)))
    ensures gameId in servers && servers[gameId].multiplayer && servers[gameId].finished ==>
      r == (servers, h, Failure(StatusBadRequest, Text(AlreadyFinished)))
    ensures gameId in servers && servers[gameId].multiplayer && !servers[gameId].finished ==>
      var g := servers[gameId];
      r.2 == Success(SessionBody(g.id, sessionId))
      && gameId in r.0 && r.0[gameId] == g.(store := SessionStoreOps.CreateSession(g.store, name, sessionId).0)
      && r.1 == PlayerJoinedNotification(h, gameId, name, sessionId)
    ensures r.0.Keys == servers.Keys
    ensures forall id :: id in servers && id != gameId ==> r.0[id] == servers[id]
  {
    match GetGameServer(servers, gameId)
    case Err(e) => (servers, h, Failure(StatusNotFound, Text(e)))
    case Ok(g) =>
      if !g.multiplayer then (servers, h, Failure(StatusBadRequest, Text(SinglePlayerJoin)))
      else if g.finished then (servers, h, Failure(StatusBadRequest, Text(AlreadyFinished)))
      else
        var (store, id) := SessionStoreOps.CreateSession(g.store, name, sessionId);
        var h' := PlayerJoinedNotification(h, gameId, name, id);
        (servers[gameId := g.(store := store)], h', Success(SessionBody(g.id, id)))
  }

  /** How a socket request ended. */
  datatype SocketOutcome = Connected | NotUpgraded | GameNotFound(error: string)

  /**
   * `GameWebSocketHandler`: for a known game whose connection upgrades, the new
   * client joins the game's room and is sent `allPlayers` then `scoreUpdate`.
   * `o1` and `o2` are the orders of the two session-map iterations.
   */
  function GameWebSocketHandler(servers: Servers, h: HubState, gameId: string, conn: nat, upgraded: bool, o1: seq<string>, o2: seq<string>)
    : (r: (HubState, SocketOutcome))
    requires gameId in servers ==> Enumerates(o1, servers[gameId].store.sessions) && Enumerates(o2, servers[gameId].store.sessions)
    ensures gameId !in servers ==> r == (h, GameNotFound(GameServerNotFound))
    ensures gameId in servers && !upgraded ==> r == (h, NotUpgraded)
    ensures gameId in servers && upgraded ==>
      var c := Client(gameId, conn);
      var g := servers[gameId];
      r.1 == Connected && c in Members(r.0, gameId)
      && Inbox(r.0, c) == Inbox(h, c)
         + [Message(AllPlayersKind, "", "", Scores(PlayerRows(g.store, o1)), ""),
            Message(ScoreUpdateKind, "", "", Scores(PlayerRows(g.store, o2)), "")]
      && forall d :: d != c ==> Inbox(r.0, d) == Inbox(h, d)
  {
    match GetGameServer(servers, gameId)
    case Err(e) => (h, GameNotFound(e))
    case Ok(g) =>
      if !upgraded then (h, NotUpgraded)
      else
        var c := Client(gameId, conn);
        var h1 := Register(h, c);
        var h2 := SendExistingPlayersMessage(h1, c, g, o1);
        var h3 := SendScoreUpdateMessage(h2, c, g, o2);
        (h3, Connected)
  }

  /** The question count asked of the loader: 0 means the default of 10. */
  function QuestionCount(requested: int): (n: int)
    ensures requested == 0 ==> n == DefaultQuestionCount
    ensures requested != 0 ==> n == requested
  {
    if requested == 0 then DefaultQuestionCount else requested
  }

  /**
   * `StartGameHandler`: loads the questions (a load error is a 500 with its message),
   * creates the game with one session for the creator, and makes that session the owner.
   */
  function StartGameHandler(
    servers: Servers, name: string, multiplayer: bool, requested: int,
    load: int -> Result<seq<Question>, string>, gameId: string, sessionId: string)
    : (r: (Servers, Response<SessionBody>))
    ensures load(QuestionCount(requested)).Err? ==>
      r == (servers, Failure(StatusInternalServerError, Text(load(QuestionCount(requested)).error)))
    ensures load(QuestionCount(requested)).Ok? ==>
      r.1 == Success(SessionBody(gameId, sessionId))
      && gameId in r.0
      && var g := r.0[gameId];
      g.owner == sessionId && g.multiplayer == multiplayer && (g.started <==> !multiplayer) && !g.finished
      && g.questions == load(QuestionCount(requested)).value
      && g.store.sessions == map[sessionId := SessionStoreOps.NewSession(name)]
    ensures forall id :: id != gameId ==> (id in r.0 <==> id in servers) && (id in servers ==> r.0[id] == servers[id])
  {
    match load(QuestionCount(requested))
    case Err(e) => (servers, Failure(StatusInternalServerError, Text(e)))
    case Ok(questions) =>
      var (servers1, g) := NewGameServer(servers, questions, SessionStore("", map[]), multiplayer, gameId);
      var (store, id) := SessionStoreOps.CreateSession(g.store, name, sessionId);
      var g' := g.(store := store, owner := id);
      (servers1[gameId := g'], Success(SessionBody(g'.id, id)))
  }

  /** The body of `POST /game/end`; `players` is present only for multiplayer games. */
  datatype EndBody = EndBody(finalScore: int, multiplayer: bool, finished: bool, players: Option<seq<Row>>)

  /** `getGameEndDetails`: the session's final score, plus every player's row in a multiplayer game. */
  function EndDetails(g: GameServer, p: PlayerSession, order: seq<string>): (b: EndBody)
    requires Enumerates(order, g.store.sessions)
    ensures b.finalScore == p.score && b.multiplayer == g.multiplayer && b.finished == g.finished
    ensures b.players.Some? <==> g.multiplayer
    ensures b.players.Some? ==>
      |b.players.value| == |g.store.sessions|
      && (forall k :: k in g.store.sessions ==> RowOf(g.store.sessions[k]) in b.players.value)
    ensures b.players.Some? ==>
      |b.players.value| == |order|
      && forall i :: 0 <= i < |order| ==> b.players.value[i] == RowOf(g.store.sessions[order[i]])
  {
    if g.multiplayer then EndBody(p.score, true, g.finished, Some(PlayerRows(g.store, order)))
    else EndBody(p.score, false, g.finished, None)
  }

  /** However the sessions are iterated, the end details list the same rows, each as often. */
  lemma EndDetailsIndependentOfOrder(g: GameServer, p: PlayerSession, o1: seq<string>, o2: seq<string>)
    requires Enumerates(o1, g.store.sessions) && Enumerates(o2, g.store.sessions)
    ensures EndDetails(g, p, o1).players.Some? <==> EndDetails(g, p, o2).players.Some?
    ensures EndDetails(g, p, o1).players.Some? ==>
      multiset(EndDetails(g, p, o1).players.value) == multiset(EndDetails(g, p, o2).players.value)
  {
    RowsIndependentOfOrder(g.store, o1, o2);
  }

  /** Every session of the game has a finish time. */
  predicate AllFinished(store: SessionStore) {
    forall k :: k in store.sessions ==> store.sessions[k].finished
  }

  /**
   * `EndGameHandler`: when every session has finished, the game is marked finished and
   * the room gets `gameFinished`; otherwise the room gets a `scoreUpdate`. Either way
   * the caller gets its end details. `o1` orders the broadcast rows, `o2` the reply's.
   */
  function EndGameHandler(servers: Servers, h: HubState, gameId: string, sessionId: string, o1: seq<string>, o2: seq<string>)
    : (r: (Servers, HubState, Response<EndBody>))
    requires gameId in servers ==> Enumerates(o1, servers[gameId].store.sessions) && Enumerates(o2, servers[gameId].store.sessions)
    ensures gameId !in servers ==> r == (servers, h, Failure(StatusNotFound, Text(GameServerNotFound)))
    ensures gameId in servers && sessionId !in servers[gameId].store.sessions ==>
      r == (servers, h, Failure(StatusNotFound, Text(InvalidSessionId)))
    ensures gameId in servers && sessionId in servers[gameId].store.sessions ==>
      var g := servers[gameId];
      var g' := g.(finished := g.finished || AllFinished(g.store));
      r.0 == servers[gameId := g']
      && (AllFinished(g.store) ==> r.1 == SendGameFinishedMessage(h, g', o1))
      && (!AllFinished(g.store) ==> r.1 == SendScoreUpdateMessageToAllClients(h, g, o1))
      && r.2 == Success(EndDetails(g', g.store.sessions[sessionId], o2))
  {
    match GetGameServer(servers, gameId)
    case Err(e) => (servers, h, Failure(StatusNotFound, Text(e)))
    case Ok(g) =>
      match SessionStoreOps.GetSession(g.store, sessionId)
      case None => (servers, h, Failure(StatusNotFound, Text(InvalidSessionId)))
      case Some(p) => EndFound(servers, h, g, gameId, p, o1, o2)
  }

  /** `EndGameHandler` once the game and the session are found. */
  function EndFound(servers: Servers, h: HubState, g: GameServer, gameId: string, p: PlayerSession, o1: seq<string>, o2: seq<string>)
    : (r: (Servers, HubState, Response<EndBody>))
    requires gameId in servers && servers[gameId] == g
    requires Enumerates(o1, g.store.sessions) && Enumerates(o2, g.store.sessions)
    ensures r.0 == servers[gameId := g.(finished := g.finished || AllFinished(g.store))]
    ensures AllFinished(g.store) ==> r.1 == SendGameFinishedMessage(h, r.0[gameId], o1)
    ensures !AllFinished(g.store) ==> r.1 == SendScoreUpdateMessageToAllClients(h, g, o1)
    ensures r.2 == Success(EndDetails(r.0[gameId], p, o2))
  {
    if AllFinished(g.store) then
      var servers' := MarkFinished(servers, gameId).0;
      var g' := servers'[gameId];
      (servers', SendGameFinishedMessage(h, g', o1), Success(EndDetails(g', p, o2)))
    else
      assert servers[gameId := g] == servers;
      (servers, SendScoreUpdateMessageToAllClients(h, g, o1), Success(EndDetails(g, p, o2)))
  }

  /** A started game can be looked up by its id. */
  lemma CreatedGameIsFound(servers: Servers, questions: seq<Question>, store: SessionStore, multiplayer: bool, gameId: string)
    ensures var (servers', g) := NewGameServer(servers, questions, store, multiplayer, gameId);
      GetGameServer(servers', gameId) == Ok(g)
  {
  }

  /**
   * The creator reads its new game as owner, at question 0 with score 0; any other
   * session of the game reads it without the `owner` key.
   */
  lemma {:induction false} CreatorIsOwner(
    servers: Servers, name: string, multiplayer: bool, requested: int,
    load: int -> Result<seq<Question>, string>, gameId: string, sessionId: string,
    removeAnswers: seq<Question> -> seq<Question>, other: string)
    requires load(QuestionCount(requested)).Ok?
    requires other != sessionId
    ensures var (servers', _) := StartGameHandler(servers, name, multiplayer, requested, load, gameId, sessionId);
      var view := GetGameHandler(servers', gameId, sessionId, removeAnswers);
      view.Success? && view.body.owner && view.body.questionIndex == 0 && view.body.currentScore == 0
      && view.body.started == !multiplayer
      && (var otherView := GetGameHandler(servers', gameId, other, removeAnswers);
          otherView.Success? ==> !otherView.body.owner)
  {
    var (servers', _) := StartGameHandler(servers, name, multiplayer, requested, load, gameId, sessionId);
    var g := servers'[gameId];
    assert sessionId in g.store.sessions;
    assert g.store.sessions[sessionId] == SessionStoreOps.NewSession(name);
  }

  /** A joined player never becomes the game's owner. */
  lemma JoinKeepsOwner(servers: Servers, h: HubState, gameId: string, name: string, sessionId: string)
    requires gameId in servers
    ensures var r := JoinGameHandler(servers, h, gameId, name, sessionId);
      r.0[gameId].owner == servers[gameId].owner
  {
  }

  /** With a fresh id, a successful join adds exactly one session. */
  lemma JoinAddsOneSession(servers: Servers, h: HubState, gameId: string, name: string, sessionId: string)
    requires gameId in servers && servers[gameId].multiplayer && !servers[gameId].finished
    requires sessionId !in servers[gameId].store.sessions
    ensures |JoinGameHandler(servers, h, gameId, name, sessionId).0[gameId].store.sessions|
         == |servers[gameId].store.sessions| + 1
  {
    SessionStoreOps.CreateAddsOne(servers[gameId].store, name, sessionId);
  }

  /** Ending marks the game finished exactly when every session has finished; a finished game stays finished. */
  lemma EndFinishesIffAllFinished(servers: Servers, h: HubState, gameId: string, sessionId: string, o1: seq<string>, o2: seq<string>)
    requires gameId in servers && sessionId in servers[gameId].store.sessions
    requires Enumerates(o1, servers[gameId].store.sessions) && Enumerates(o2, servers[gameId].store.sessions)
    ensures var r := EndGameHandler(servers, h, gameId, sessionId, o1, o2);
      (r.0[gameId].finished <==> servers[gameId].finished || AllFinished(servers[gameId].store))
      && r.2.Success? && r.2.body.finished == r.0[gameId].finished
  {
  }

  /** Starting a game keeps every score within the answer handler's bound. */
  lemma StartKeepsScoresBounded(
    servers: Servers, name: string, multiplayer: bool, requested: int,
    load: int -> Result<seq<Question>, string>, gameId: string, sessionId: string)
    requires AnswerController.AllScoresBounded(servers)
    ensures AnswerController.AllScoresBounded(StartGameHandler(servers, name, multiplayer, requested, load, gameId, sessionId).0)
  {
    AnswerController.NewSessionBounded(name);
  }

  /** Joining a game keeps every score within the bound. */
  lemma JoinKeepsScoresBounded(servers: Servers, h: HubState, gameId: string, name: string, sessionId: string)
    requires AnswerController.AllScoresBounded(servers)
    ensures AnswerController.AllScoresBounded(JoinGameHandler(servers, h, gameId, name, sessionId).0)
  {
    AnswerController.NewSessionBounded(name);
  }

  /** Ending a game changes no session. */
  lemma EndKeepsSessions(servers: Servers, h: HubState, gameId: string, sessionId: string, o1: seq<string>, o2: seq<string>)
    requires gameId in servers ==> Enumerates(o1, servers[gameId].store.sessions) && Enumerates(o2, servers[gameId].store.sessions)
    ensures forall id :: id in servers ==>
      EndGameHandler(servers, h, gameId, sessionId, o1, o2).0[id].store == servers[id].store
  {
  }
}
