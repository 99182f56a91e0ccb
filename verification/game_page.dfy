/**
 * frontend/src/pages/Game.tsx: the play page. It captures the current session,
 * fetches the game snapshot, shows either the waiting room or the questions,
 * submits answers, and for multiplayer games listens on the game's socket.
 */
module GamePage {
  import opened Wrappers
  import opened Json
  import opened Decimal
  import opened ClientModels
  import Seqs
  import Socket
  import GamesProvider
  import LS = LocalStorage

  const ConnectedText := "Connected to game room"
  const JoinedPrefix := "Player joined: "
  const RightFirstText := "\U{1F389} You got the question right!"
  const RightNotFirstText := "\U{1F641} You got the question right, but you weren't first to answer"
  const WrongText := "\U{274C} You got the question wrong"

  /** The component's state variables. `socket` is the path of the last socket opened. */
  datatype PageState = PageState(
    captured: Option<GameSession>,
    questionIndex: int,
    error: string,
    game: Option<Game>,
    loading: bool,
    owner: bool,
    players: seq<string>,
    playerScores: seq<ScoreUpdate>,
    questions: seq<Question>,
    score: int,
    secondsLeft: JsNumber,
    socket: Option<string>,
    waiting: bool)

  function Initial(): (s: PageState)
    ensures s.captured.None? && s.game.None? && s.socket.None?
    ensures !s.loading && !s.waiting && !s.owner && s.error == ""
    ensures s.score == 0 && s.questionIndex == 0 && s.secondsLeft == Finite(0)
    ensures s.players == [] && s.playerScores == [] && s.questions == []
  {
    PageState(None, 0, "", None, false, false, [], [], [], 0, Finite(0), None, false)
  }

  /** The socket path of a game's room. */
  function SocketPath(gameId: string): string {
    "/game/" + gameId + "/ws"
  }

  /**
   * The effect keyed on `game`: the previous multiplayer game's socket is closed,
   * and a socket is opened for the new game if it is multiplayer.
   */
  function SwapGame(s: PageState, g: Game): (r: (PageState, seq<Effect>))
    ensures r.0.game == Some(g)
    ensures r.0.socket == (if g.multiplayer then Some(SocketPath(g.id)) else s.socket)
    ensures (OpenSocket(SocketPath(g.id)) in r.1) <==> g.multiplayer
    ensures (CloseSocket in r.1) <==> s.game.Some? && s.game.value.multiplayer
    ensures r.0 == s.(game := r.0.game, socket := r.0.socket)
  {
    var close := if s.game.Some? && s.game.value.multiplayer then [CloseSocket] else [];
    if g.multiplayer then
      (s.(game := Some(g), socket := Some(SocketPath(g.id))), close + [OpenSocket(SocketPath(g.id))])
    else (s.(game := Some(g)), close)
  }

  /**
   * The effects keyed on `currentGame` and on the captured session: no current
   * session sends the page home; a new one is captured and its snapshot fetched.
   */
  function CurrentGameChanged(s: PageState, current: Option<GameSession>): (r: (PageState, seq<Effect>))
    ensures current.None? ==> r == (s, [Navigate(HomePath)])
    ensures current.Some? && current == s.captured ==> r == (s, [])
    ensures current.Some? && current != s.captured ==>
      r.0 == s.(captured := current, loading := true)
      && r.1 == [FetchGame(current.value.gameId, current.value.sessionId)]
  {
    match current
    case None => (s, [Navigate(HomePath)])
    case Some(g) =>
      if current == s.captured then (s, [])
      else (s.(captured := current, loading := true), [FetchGame(g.gameId, g.sessionId)])
  }

  /** `getGame` settling, followed by `setLoading(false)`. */
  function GameLoaded(s: PageState, gameId: string, reply: Reply<Game>): (r: (PageState, seq<Effect>))
    ensures !r.0.loading
    ensures reply.Done? && reply.value.finished ==>
      r.0.game == Some(reply.value) && Navigate(FinishPath) in r.1
      && r.0.owner == s.owner && r.0.score == s.score && r.0.questionIndex == s.questionIndex
      && r.0.questions == s.questions && r.0.waiting == s.waiting
    ensures reply.Done? && !reply.value.finished ==>
      r.0.game == Some(reply.value) && Navigate(FinishPath) !in r.1
      && r.0.owner == reply.value.owner && r.0.score == reply.value.currentScore
      && r.0.questionIndex == reply.value.questionIndex && r.0.questions == reply.value.questions
      && (r.0.waiting <==> s.waiting || (reply.value.multiplayer && !reply.value.started))
    ensures reply.Failed? ==>
      r == (s.(error := reply.message, loading := false), [DeleteSession(gameId)])
    ensures reply.Done? ==>
      r.0.socket == SwapGame(s, reply.value).0.socket
      && ((OpenSocket(SocketPath(reply.value.id)) in r.1) <==> reply.value.multiplayer)
      && ((CloseSocket in r.1) <==> s.game.Some? && s.game.value.multiplayer)
    ensures reply.Done? ==>
      r.0.players == s.players && r.0.playerScores == s.playerScores && r.0.error == s.error
      && r.0.captured == s.captured && r.0.secondsLeft == s.secondsLeft
  {
    match reply
    case Failed(message) => (s.(error := message, loading := false), [DeleteSession(gameId)])
    case Done(g) =>
      var (t, socketEffects) := SwapGame(s, g);
      if g.finished then
        (t.(loading := false), [Navigate(FinishPath)] + socketEffects)
      else
        var t' := t.(
          waiting := t.waiting || (g.multiplayer && !g.started),
          owner := g.owner,
          score := g.currentScore,
          questionIndex := g.questionIndex,
          questions := g.questions,
          loading := false);
        assert Navigate(FinishPath) !in socketEffects;
        (t', socketEffects)
  }

  /** What an answer's continuation remembers from the render that submitted it. */
  datatype Submission = Submission(askedIndex: int, questionCount: nat)

  /**
   * `submitAnswerHandler(index)` up to the request: the question id is read first,
   * so an index outside the question list throws before any call and is swallowed.
   */
  function Answer(s: PageState, choice: int): (r: (Option<Submission>, seq<Effect>))
    ensures !(0 <= s.questionIndex < |s.questions|) ==> r == (None, [])
    ensures 0 <= s.questionIndex < |s.questions| ==>
      r.0 == Some(Submission(s.questionIndex, |s.questions|))
      && r.1 == [PostAnswer(s.captured, s.questions[s.questionIndex].id, choice)]
  {
    if 0 <= s.questionIndex < |s.questions| then
      (Some(Submission(s.questionIndex, |s.questions|)),
       [PostAnswer(s.captured, s.questions[s.questionIndex].id, choice)])
    else (None, [])
  }

  /** The notification for an answer's outcome. */
  function Verdict(resp: AnswerResponse): (text: string)
    ensures text == WrongText <==> !resp.correct
    ensures text == RightFirstText <==> resp.correct && !resp.alreadyAnswered
    ensures text == RightNotFirstText <==> resp.correct && resp.alreadyAnswered
  {
    if !resp.correct then WrongText
    else if resp.alreadyAnswered then RightNotFirstText
    else RightFirstText
  }

  /** The submission settling: score, notification, then either finish or advance. */
  function AnswerSettled(s: PageState, sub: Submission, reply: Reply<AnswerResponse>): (r: (PageState, seq<Effect>))
    ensures reply.Failed? ==> r == (s, [])
    ensures reply.Done? ==>
      (r.0.score == if reply.value.correct then reply.value.currentScore else s.score)
    ensures reply.Done? && sub.askedIndex == sub.questionCount - 1 ==>
      r.0.questionIndex == s.questionIndex
      && r.1 == [Notify(Verdict(reply.value)), Navigate(FinishPath)]
    ensures reply.Done? && sub.askedIndex != sub.questionCount - 1 ==>
      r.0.questionIndex == reply.value.nextQuestionIndex
      && r.1 == [Notify(Verdict(reply.value))]
    ensures r.0 == s.(score := r.0.score, questionIndex := r.0.questionIndex)
  {
    match reply
    case Failed(_) => (s, [])
    case Done(resp) =>
      var t := if resp.correct then s.(score := resp.currentScore) else s;
      if sub.askedIndex == sub.questionCount - 1 then
        (t, [Notify(Verdict(resp)), Navigate(FinishPath)])
      else
        (t.(questionIndex := resp.nextQuestionIndex), [Notify(Verdict(resp))])
  }

  /** An event delivered to the page's socket listeners, payload already decoded. */
  datatype SocketEvent =
    | Connected
    | Countdown(secondsLeft: string)
    | GameStarts
    | AllPlayers(rows: seq<ScoreUpdate>)
    | ScoresUpdated(rows: seq<ScoreUpdate>)
    | PlayerJoined(name: string, sessionId: string)
    | Unheard(name: string)

  function Names(rows: seq<ScoreUpdate>): (names: seq<string>)
    ensures |names| == |rows|
    ensures forall i :: 0 <= i < |rows| ==> names[i] == rows[i].name
  {
    Seqs.MapSeq((p: ScoreUpdate) => p.name, rows)
  }

  /** The socket handlers registered by the effect keyed on `game`. */
  function OnSocketEvent(s: PageState, ev: SocketEvent): (r: (PageState, seq<Effect>))
    ensures ev.Connected? ==> r == (s, [Notify(ConnectedText)])
    ensures ev.Countdown? ==> r == (s.(secondsLeft := ToNumber(ev.secondsLeft)), [])
    ensures ev.GameStarts? ==> r == (s.(waiting := false), [])
    ensures ev.AllPlayers? ==>
      r.1 == [] && r.0 == s.(players := r.0.players) && |r.0.players| == |ev.rows|
      && (forall i :: 0 <= i < |ev.rows| ==> r.0.players[i] == ev.rows[i].name)
    ensures ev.ScoresUpdated? ==> r == (s.(playerScores := ev.rows), [])
    ensures ev.PlayerJoined? ==>
      r.0 == s.(players := s.players + [ev.name],
                playerScores := s.playerScores + [ScoreUpdate(ev.name, 0, ev.sessionId)])
      && r.1 == [Notify(JoinedPrefix + ev.name)]
    ensures ev.Unheard? ==> r == (s, [])
  {
    match ev
    case Connected => (s, [Notify(ConnectedText)])
    case Countdown(text) => (s.(secondsLeft := ToNumber(text)), [])
    case GameStarts => (s.(waiting := false), [])
    case AllPlayers(rows) => (s.(players := Names(rows)), [])
    case ScoresUpdated(rows) => (s.(playerScores := rows), [])
    case PlayerJoined(name, sessionId) =>
      (s.(players := s.players + [name],
          playerScores := s.playerScores + [ScoreUpdate(name, 0, sessionId)]),
       [Notify(JoinedPrefix + name)])
    case Unheard(_) => (s, [])
  }

  /** `emitStartGame`: asks the server to start the countdown, only with both a session and a socket. */
  function EmitStartGame(c: Codec, s: PageState): (effects: seq<Effect>)
    ensures s.captured.None? || s.socket.None? ==> effects == []
    ensures s.captured.Some? && s.socket.Some? ==>
      effects == [SendFrame(Socket.EncodeFrame(c, Socket.StartGame, s.captured.value.gameId, JObj(map[])))]
  {
    if s.captured.Some? && s.socket.Some? then
      [SendFrame(Socket.EncodeFrame(c, Socket.StartGame, s.captured.value.gameId, JObj(map[])))]
    else []
  }

  /** Leaving the page runs the cleanup of the effect keyed on `game`. */
  function Unmount(s: PageState): (effects: seq<Effect>)
    ensures effects == [CloseSocket] <==> s.game.Some? && s.game.value.multiplayer
    ensures effects == [] || effects == [CloseSocket]
  {
    if s.game.Some? && s.game.value.multiplayer then [CloseSocket] else []
  }

  /** The listener table the effect builds, handlers numbered in registration order. */
  function Listeners(): (table: Socket.Table)
    ensures Socket.WellFormed(table)
    ensures Socket.HandlersFor(table, Socket.Connect) == [0]
    ensures Socket.HandlersFor(table, Socket.StartGameCountdown) == [1]
    ensures Socket.HandlersFor(table, Socket.StartGame) == [2]
    ensures Socket.HandlersFor(table, Socket.AllPlayers) == [3]
    ensures Socket.HandlersFor(table, Socket.ScoreUpdate) == [4]
    ensures Socket.HandlersFor(table, Socket.PlayerJoined) == [5]
  {
    var t := Socket.On(map[], Socket.Connect, 0);
    var t := Socket.On(t, Socket.StartGameCountdown, 1);
    var t := Socket.On(t, Socket.StartGame, 2);
    var t := Socket.On(t, Socket.AllPlayers, 3);
    var t := Socket.On(t, Socket.ScoreUpdate, 4);
    Socket.On(t, Socket.PlayerJoined, 5)
  }

  /** The page listens to neither `gameFinished` nor `disconnect` nor `error`. */
  lemma UnheardEvents()
    ensures Socket.HandlersFor(Listeners(), Socket.GameFinished) == []
    ensures Socket.HandlersFor(Listeners(), Socket.Disconnect) == []
    ensures Socket.HandlersFor(Listeners(), Socket.ErrorEvent) == []
  {
  }

  /** With no `error` listener, a frame that fails to decode throws out of the message handler. */
  lemma MalformedFrameEscapes(c: Codec, frame: string)
    requires Socket.DecodeFrame(c, frame).Malformed?
    ensures Socket.Receive(c, Listeners(), frame) == Socket.Delivery([], true)
  {
    UnheardEvents();
  }

  /** What the page renders, by precedence: loading, error, waiting room, questions. */
  datatype View =
    | Loading
    | NotFound
    | WaitingRoom(secondsLeft: JsNumber, owner: bool, players: seq<string>)
    | Questions(questions: seq<Question>, questionIndex: int, score: int, rows: seq<ScoreUpdate>, viewer: Option<string>)

  function Render(s: PageState): (v: View)
    ensures v.Loading? <==> s.loading
    ensures v.NotFound? <==> !s.loading && s.error != ""
    ensures v.WaitingRoom? <==> !s.loading && s.error == "" && s.waiting
    ensures v.Questions? ==> v.questionIndex == s.questionIndex && v.score == s.score
  {
    if s.loading then Loading
    else if s.error != "" then NotFound
    else if s.waiting then WaitingRoom(s.secondsLeft, s.owner, s.players)
    else Questions(s.questions, s.questionIndex, s.score, s.playerScores,
                   if s.captured.Some? then Some(s.captured.value.sessionId) else None)
  }

  /** Score never moves on a wrong answer, whatever the server says. */
  lemma WrongAnswerKeepsScore(s: PageState, sub: Submission, resp: AnswerResponse)
    requires !resp.correct
    ensures AnswerSettled(s, sub, Done(resp)).0.score == s.score
    ensures AnswerSettled(s, sub, Done(resp)).1[0] == Notify(WrongText)
  {
  }

  /** A join notification preserves every earlier player and row. */
  lemma JoinPreservesEarlier(s: PageState, name: string, sessionId: string)
    ensures var t := OnSocketEvent(s, PlayerJoined(name, sessionId)).0;
      t.players[..|s.players|] == s.players && t.playerScores[..|s.playerScores|] == s.playerScores
      && |t.players| == |s.players| + 1 && |t.playerScores| == |s.playerScores| + 1
  {
    var t := OnSocketEvent(s, PlayerJoined(name, sessionId)).0;
    assert t.players[..|s.players|] == s.players;
    assert t.playerScores[..|s.playerScores|] == s.playerScores;
  }

  /** Capturing the same session twice fetches once. */
  lemma CaptureFetchesOnce(s: PageState, g: GameSession)
    ensures var (t, _) := CurrentGameChanged(s, Some(g));
      CurrentGameChanged(t, Some(g)) == (t, [])
  {
  }

  /**
   * A failed snapshot fetch drops the game from storage through the provider's
   * `deleteGame`, while the provider's in-memory current session still names it.
   */
  lemma FailedLoadForgetsGame(c: Codec, reg: GamesProvider.Registry, s: PageState, g: GameSession, message: string)
    requires Lawful(c)
    requires GamesProvider.Agree(c, reg)
    requires reg.memory.current == Some(g)
    ensures var (s', effects) := GameLoaded(s, g.gameId, Failed(message));
      var reg' := GamesProvider.Perform(c, reg, effects);
      s'.error == message
      && reg'.memory.current == Some(g)
      && LS.GetCurrent(c, reg'.store) == None
      && (forall x :: x in LS.GetGames(c, reg'.store) ==> x.gameId != g.gameId)
  {
    var effects := GameLoaded(s, g.gameId, Failed(message)).1;
    var r1 := GamesProvider.DeleteGame(c, reg, g.gameId);
    GamesProvider.DeleteCurrentDiverges(c, reg, g);
    GamesProvider.DeleteGameListsAgree(c, reg, g.gameId);
    assert GamesProvider.Perform(c, reg, effects) == GamesProvider.Perform(c, r1, effects[1..]);
    assert GamesProvider.Perform(c, r1, effects[1..]) == GamesProvider.Perform(c, r1, []);
  }
}
