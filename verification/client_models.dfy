/**
 * The client's records (frontend/src/models) and the effects its pages ask for.
 * Pages are pure transitions: they return their next state together with the
 * list of effects (navigation, notifications, API calls, socket traffic) the
 * React component performs, in the order it performs them.
 */
module ClientModels {
  import opened Wrappers

  /** One player's participation in one game. */
  datatype GameSession = GameSession(gameId: string, sessionId: string)

  /** A question as the client receives it. */
  datatype Question = Question(id: string, questionText: string, options: seq<string>, correctIndex: int)

  /**
   * A game snapshot from `GET /game/{gameId}/{sessionId}`. `started` and `owner` are
   * absent from the client's type; an absent key reads as false.
   */
  datatype Game = Game(
    id: string,
    multiplayer: bool,
    started: bool,
    finished: bool,
    questionIndex: int,
    currentScore: int,
    questions: seq<Question>,
    owner: bool)

  /** The reply to `POST /answer`; `alreadyAnswered` is never sent and reads as false. */
  datatype AnswerResponse = AnswerResponse(
    correct: bool,
    alreadyAnswered: bool,
    currentScore: int,
    nextQuestionIndex: int)

  /** One leaderboard row. The client types `score` as a number. */
  datatype ScoreUpdate = ScoreUpdate(name: string, score: int, sessionId: string)

  /** The reply to `POST /game/end`; `players` is present only for multiplayer games. */
  datatype EndGameResponse = EndGameResponse(
    finalScore: int,
    multiplayer: bool,
    finished: bool,
    players: seq<ScoreUpdate>)

  /** How an awaited API call settled: its value, or the message of the thrown `Error`. */
  datatype Reply<T> = Done(value: T) | Failed(message: string)

  /** What a page does besides changing its own state. */
  datatype Effect =
    | Navigate(path: string)
    | Notify(message: string)
    | StartSession(session: GameSession, existing: bool)
    | DeleteSession(gameId: string)
    | ClearSearchParams
    | FetchGame(gameId: string, sessionId: string)
    | PostAnswer(captured: Option<GameSession>, questionId: string, answer: int)
    | PostJoin(gameId: string, name: string)
    | PostStart(name: string, multiplayer: bool)
    | PostEnd(gameId: string, sessionId: string)
    | OpenSocket(path: string)
    | CloseSocket
    | SendFrame(frame: string)

  const HomePath := "/"
  const PlayPath := "/game/play"
  const FinishPath := "/game/finish"
}
