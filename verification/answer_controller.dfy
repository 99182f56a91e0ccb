/**
 * backend/controllers/answer.go: `AnswerHandler`, which records one answer for a
 * session. Every recorded answer advances the session by one question, whether or not
 * it is correct; a correct one is worth 10 points.
 */
module AnswerController {
  import opened Wrappers
  import opened ServerModels
  import SessionStoreOps
  import GameServerModel

  const SessionNotFound := "Session not found"
  const QuestionNotFound := "Question not found"

  /** The 200 body. */
  datatype AnswerBody = AnswerBody(correct: bool, currentScore: int, nextQuestionIndex: int)

  /** The answer was recorded: game, session and question all exist. */
  predicate Recorded(servers: Servers, gameId: string, sessionId: string, questionId: string, answer: int) {
    gameId in servers && sessionId in servers[gameId].store.sessions
    && GameServerModel.CheckAnswer(servers[gameId].questions, questionId, answer).Ok?
  }

  /**
   * `AnswerHandler`: an unknown game is a 404 whose `error` is the Go error value
   * (marshalled as `{}`); an unknown session or question is a 404 with a message.
   * Otherwise the session moves to the next question, is finished once that index
   * reaches the question count, and gains 10 points for a correct answer.
   */
  function AnswerHandler(servers: Servers, gameId: string, sessionId: string, questionId: string, answer: int)
    : (r: (Servers, Response<AnswerBody>))
    ensures gameId !in servers ==> r == (servers, Failure(StatusNotFound, EmptyObject))
    ensures gameId in servers && sessionId !in servers[gameId].store.sessions ==>
      r == (servers, Failure(StatusNotFound, Text(SessionNotFound)))
    ensures gameId in servers && sessionId in servers[gameId].store.sessions
            && GameServerModel.CheckAnswer(servers[gameId].questions, questionId, answer).Err? ==>
      r == (servers, Failure(StatusNotFound, Text(QuestionNotFound)))
    ensures Recorded(servers, gameId, sessionId, questionId, answer) ==>
      var g := servers[gameId];
      var correct := GameServerModel.CheckAnswer(g.questions, questionId, answer).value;
      var after := Advance(g.store.sessions[sessionId], correct, |g.questions|);
      r.0 == servers[gameId := g.(store := g.store.(sessions := g.store.sessions[sessionId := after]))]
      && r.1 == Success(AnswerBody(correct, after.score, after.currentQuestion))
    ensures !Recorded(servers, gameId, sessionId, questionId, answer) ==> r.0 == servers
  {
    if gameId !in servers then (servers, Failure(StatusNotFound, EmptyObject))
    else
      var g := servers[gameId];
      match SessionStoreOps.GetSession(g.store, sessionId)
      case None => (servers, Failure(StatusNotFound, Text(SessionNotFound)))
      case Some(session) =>
        match GameServerModel.CheckAnswer(g.questions, questionId, answer)
        case Err(_) => (servers, Failure(StatusNotFound, Text(QuestionNotFound)))
        case Ok(correct) =>
          var after := Advance(session, correct, |g.questions|);
          var g' := g.(store := g.store.(sessions := g.store.sessions[sessionId := after]));
          (servers[gameId := g'], Success(AnswerBody(correct, after.score, after.currentQuestion)))
  }

  /**
   * The session after one recorded answer in a game of `count` questions: on to the
   * next question, finished once that index reaches the count, 10 points if correct.
   */
  function Advance(before: PlayerSession, correct: bool, count: nat): (after: PlayerSession)
    ensures after.currentQuestion == before.currentQuestion + 1
    ensures after.score == before.score + (if correct then 10 else 0)
    ensures after.finished <==> before.finished || after.currentQuestion >= count
    ensures after.name == before.name && after.id == before.id
  {
    var advanced := before.currentQuestion + 1;
    before.(
      currentQuestion := advanced,
      finished := before.finished || advanced >= count,
      score := if correct then before.score + 10 else before.score)
  }

  /** A session's score is a multiple of 10 and at most 10 per question answered. */
  predicate ScoreBound(p: PlayerSession) {
    p.score % 10 == 0 && 0 <= p.score <= 10 * p.currentQuestion
  }

  /** Every session of every game keeps the score bound. */
  predicate AllScoresBounded(servers: Servers) {
    forall id, k :: id in servers && k in servers[id].store.sessions ==> ScoreBound(servers[id].store.sessions[k])
  }

  /** A freshly created session starts within the bound. */
  lemma NewSessionBounded(name: string)
    ensures ScoreBound(SessionStoreOps.NewSession(name))
  {
  }

  /** Answering keeps every score within the bound. */
  lemma {:induction false} AnswerKeepsScoresBounded(servers: Servers, gameId: string, sessionId: string, questionId: string, answer: int)
    requires AllScoresBounded(servers)
    ensures AllScoresBounded(AnswerHandler(servers, gameId, sessionId, questionId, answer).0)
  {
    var r := AnswerHandler(servers, gameId, sessionId, questionId, answer);
    if Recorded(servers, gameId, sessionId, questionId, answer) {
      var before := servers[gameId].store.sessions[sessionId];
      var after := r.0[gameId].store.sessions[sessionId];
      assert ScoreBound(before);
      assert after.score <= 10 * after.currentQuestion;
      forall id, k | id in r.0 && k in r.0[id].store.sessions
        ensures ScoreBound(r.0[id].store.sessions[k])
      {
        if id == gameId && k == sessionId {
          assert ScoreBound(after);
        } else {
          assert r.0[id].store.sessions[k] == servers[id].store.sessions[k];
        }
      }
    }
  }

  /** A wrong answer still moves the session on but leaves its score alone. */
  lemma WrongAnswerAdvancesOnly(servers: Servers, gameId: string, sessionId: string, questionId: string, answer: int)
    requires Recorded(servers, gameId, sessionId, questionId, answer)
    requires GameServerModel.CheckAnswer(servers[gameId].questions, questionId, answer) == Ok(false)
    ensures var after := AnswerHandler(servers, gameId, sessionId, questionId, answer).0[gameId].store.sessions[sessionId];
      after.score == servers[gameId].store.sessions[sessionId].score
      && after.currentQuestion == servers[gameId].store.sessions[sessionId].currentQuestion + 1
  {
  }
}
