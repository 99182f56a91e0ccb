/**
 * backend/models/GameServer.go: answer checking against a game's questions, and
 * `SubmitAnswer`, which scores a session. Only the sequential meaning is modelled:
 * `SubmitAnswer` holds the server's mutex when it calls `CheckAnswer`, which takes
 * the same mutex again.
 */
module GameServerModel {
  import opened Wrappers
  import opened ServerModels
  import SessionStoreOps

  const QuestionNotFound := "question not found"

  /** Question `i` is the first one with id `questionId`. */
  predicate FirstWithId(questions: seq<Question>, questionId: string, i: int) {
    0 <= i < |questions| && questions[i].id == questionId
    && forall j :: 0 <= j < i ==> questions[j].id != questionId
  }

  /** `CheckAnswer`: whether `answer` is the correct index of the first question with that id. */
  function CheckAnswer(questions: seq<Question>, questionId: string, answer: int): (r: Result<bool, string>)
    ensures r.Err? <==> forall i :: 0 <= i < |questions| ==> questions[i].id != questionId
    ensures r.Err? ==> r.error == QuestionNotFound
    ensures r.Ok? ==> exists i :: FirstWithId(questions, questionId, i)
                                  && r.value == (questions[i].correctIndex == answer)
  {
    if |questions| == 0 then Err(QuestionNotFound)
    else if questions[0].id == questionId then
      assert FirstWithId(questions, questionId, 0);
      Ok(questions[0].correctIndex == answer)
    else
      var r := CheckAnswer(questions[1..], questionId, answer);
      assert forall i :: 1 <= i < |questions| ==> questions[i] == questions[1..][i - 1];
      if r.Ok? then
        var k :| FirstWithId(questions[1..], questionId, k) && r.value == (questions[1..][k].correctIndex == answer);
        assert FirstWithId(questions, questionId, k + 1);
        r
      else r
  }

  /** A later question with the same id never decides the answer. */
  lemma {:induction false} CheckAnswerUsesFirst(questions: seq<Question>, questionId: string, answer: int, i: int)
    requires FirstWithId(questions, questionId, i)
    ensures CheckAnswer(questions, questionId, answer) == Ok(questions[i].correctIndex == answer)
  {
    var r := CheckAnswer(questions, questionId, answer);
    assert r.Ok?;
    var k :| FirstWithId(questions, questionId, k) && r.value == (questions[k].correctIndex == answer);
  }

  /** What `SubmitAnswer` returns: correctness, the session's score, and the error if any. */
  datatype Submitted = Submitted(correct: bool, score: int, error: Option<string>)

  /**
   * `SubmitAnswer`: an unknown session gives `(false, 0, nil)`, an unknown question
   * gives the check's error, and otherwise a correct answer adds 10 to the session's
   * score and the new score is returned.
   */
  function SubmitAnswer(g: GameServer, sessionId: string, questionId: string, answer: int): (r: (GameServer, Submitted))
    ensures r.0.store.sessions.Keys == g.store.sessions.Keys
    ensures sessionId !in g.store.sessions ==> r == (g, Submitted(false, 0, None))
    ensures sessionId in g.store.sessions && CheckAnswer(g.questions, questionId, answer).Err? ==>
      r == (g, Submitted(false, 0, Some(QuestionNotFound)))
    ensures sessionId in g.store.sessions && CheckAnswer(g.questions, questionId, answer).Ok? ==>
      var before := g.store.sessions[sessionId];
      var correct := CheckAnswer(g.questions, questionId, answer).value;
      r.1 == Submitted(correct, r.0.store.sessions[sessionId].score, None)
      && r.0.store.sessions[sessionId] == before.(score := if correct then before.score + 10 else before.score)
    ensures r.0 == g.(store := r.0.store) && r.0.store.owner == g.store.owner
    ensures forall k :: k in g.store.sessions && k != sessionId ==> r.0.store.sessions[k] == g.store.sessions[k]
  {
    match SessionStoreOps.GetSession(g.store, sessionId)
    case None => (g, Submitted(false, 0, None))
    case Some(session) =>
      match CheckAnswer(g.questions, questionId, answer)
      case Err(e) => (g, Submitted(false, 0, Some(e)))
      case Ok(correct) =>
        var session' := if correct then session.(score := session.score + 10) else session;
        var store' := g.store.(sessions := g.store.sessions[sessionId := session']);
        (g.(store := store'), Submitted(correct, session'.score, None))
  }

  /**
   * `SubmitAnswer` scores without advancing `CurrentQuestion`, so repeated correct
   * submissions raise the score past 10 per question answered.
   */
  lemma SubmitAnswerOutrunsQuestions(g: GameServer, sessionId: string, q: Question)
    requires g.questions == [q]
    requires sessionId in g.store.sessions
    requires g.store.sessions[sessionId].score == 0 && g.store.sessions[sessionId].currentQuestion == 0
    ensures var s := SubmitAnswer(g, sessionId, q.id, q.correctIndex).0.store.sessions[sessionId];
      s.score == 10 && s.currentQuestion == 0
  {
  }
}
