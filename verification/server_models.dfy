/**
 * The backend's records (backend/models): questions, player sessions, the per-game
 * session store, game servers, and the hub's messages. Timestamps that the code only
 * tests with `IsZero` are booleans here: set or not set.
 */
module ServerModels {
  /** A question as loaded; `correctIndex` and `correctSession` are the answer fields. */
  datatype Question = Question(
    id: string,
    questionText: string,
    options: seq<string>,
    correctIndex: int,
    correctSession: string)

  /** One player in one game. `finished` stands for a non-zero `Finished` time. */
  datatype PlayerSession = PlayerSession(
    id: string,
    name: string,
    score: int,
    currentQuestion: int,
    finished: bool)

  /** A game's sessions by session id, and the id the store last created. */
  datatype SessionStore = SessionStore(owner: string, sessions: map<string, PlayerSession>)

  /** A game. `started` and `finished` stand for non-zero timestamps. */
  datatype GameServer = GameServer(
    id: string,
    multiplayer: bool,
    started: bool,
    finished: bool,
    owner: string,
    questions: seq<Question>,
    store: SessionStore)

  /** The process-wide registry `GameServers`, by game id. */
  type Servers = map<string, GameServer>

  const StatusOK := 200
  const StatusBadRequest := 400
  const StatusNotFound := 404
  const StatusInternalServerError := 500

  /** The `error` field of an error response: a message, or a Go `error` value, which marshals to `{}`. */
  datatype ErrorValue = Text(message: string) | EmptyObject

  /** A handler's outcome: a 200 body, an error status with its `error` field, or a panic that gin's recovery turns into a bare 500. */
  datatype Response<T> = Success(body: T) | Failure(status: int, error: ErrorValue) | Panic

  /** One player-score row; every field is a string on the wire. */
  datatype Row = Row(name: string, sessionId: string, score: string)

  /** The JSON text a hub message carries, by shape. */
  datatype Content =
    | Scores(rows: seq<Row>)
    | Joined(name: string, sessionId: string)
    | SecondsLeft(text: string)
    | Starting(message: string)
    | Raw(text: string)

  datatype Message = Message(kind: string, sender: string, recipient: string, content: Content, id: string)

  /** A socket connection to a game's room; `conn` tells connections to the same room apart. */
  datatype Client = Client(room: string, conn: nat)
}
