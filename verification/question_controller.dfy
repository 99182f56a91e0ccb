/**
 * backend/controllers/question.go: copying questions without their answers and
 * shuffling them. `rand.Shuffle` is Fisher-Yates: for i from n-1 down to 1 it swaps
 * positions i and j for a random j in [0, i]; `draws[i]` is that j.
 */
module QuestionController {
  import opened Wrappers
  import opened Seqs
  import opened ServerModels

  const ServedCount := 10

  /** The copy `ShuffleQuestions` makes: id, text and options only, so the answer fields are zero. */
  function Strip(q: Question): (s: Question)
    ensures s.id == q.id && s.questionText == q.questionText && s.options == q.options
    ensures s.correctIndex == 0 && s.correctSession == ""
  {
    Question(q.id, q.questionText, q.options, 0, "")
  }

  /** A question that reveals no answer. */
  predicate Stripped(q: Question) {
    q.correctIndex == 0 && q.correctSession == ""
  }

  /** Random draws as `rand.Shuffle` makes them: `draws[i]` lies in [0, i]. */
  predicate ValidDraws(draws: seq<int>, n: nat) {
    |draws| == n && forall i :: 0 <= i < n ==> 0 <= draws[i] <= i
  }

  /** `ShuffleQuestions`: the stripped copies, rearranged by the draws. */
  method ShuffleQuestions(questions: seq<Question>, draws: seq<int>) returns (qs: seq<Question>)
    requires ValidDraws(draws, |questions|)
    ensures |qs| == |questions|
    ensures forall i :: 0 <= i < |qs| ==> Stripped(qs[i])
    ensures multiset(qs) == multiset(MapSeq(Strip, questions))
  {
    qs := [];
    var i := 0;
    while i < |questions|
      invariant 0 <= i <= |questions|
      invariant qs == MapSeq(Strip, questions[..i])
    {
      assert questions[..i + 1] == questions[..i] + [questions[i]];
      qs := qs + [Strip(questions[i])];
      i := i + 1;
    }
    assert questions[..|questions|] == questions;
    ghost var stripped := qs;
    i := |qs| - 1;
    while i > 0
      invariant -1 <= i < |qs|
      invariant |qs| == |questions|
      invariant multiset(qs) == multiset(stripped)
      invariant forall k :: 0 <= k < |qs| ==> Stripped(qs[k])
    {
      var j := draws[i];
      qs := qs[i := qs[j]][j := qs[i]];
      i := i - 1;
    }
  }

  /** A question's id, the key the answer handler looks questions up by. */
  function IdOf(q: Question): string { q.id }

  /** The ids come out as often as they went in. */
  lemma ShuffleKeepsIds(questions: seq<Question>, qs: seq<Question>)
    requires multiset(qs) == multiset(MapSeq(Strip, questions))
    ensures multiset(MapSeq(IdOf, qs)) == multiset(MapSeq(IdOf, questions))
  {
    MapSeqMultiset(IdOf, qs, MapSeq(Strip, questions));
    assert MapSeq(IdOf, MapSeq(Strip, questions)) == MapSeq(IdOf, questions);
  }

  /**
   * `GetQuestionsHandler`: a load error is a 500 with its message; otherwise the first
   * 10 shuffled questions, and slicing fewer than 10 panics.
   */
  method GetQuestionsHandler(loaded: Result<seq<Question>, string>, draws: seq<int>) returns (r: Response<seq<Question>>)
    requires loaded.Ok? ==> ValidDraws(draws, |loaded.value|)
    ensures loaded.Err? ==> r == Failure(StatusInternalServerError, Text(loaded.error))
    ensures loaded.Ok? && |loaded.value| < ServedCount ==> r == Panic
    ensures loaded.Ok? && |loaded.value| >= ServedCount ==>
      r.Success? && |r.body| == ServedCount
      && (forall i :: 0 <= i < ServedCount ==> Stripped(r.body[i]))
      && multiset(r.body) <= multiset(MapSeq(Strip, loaded.value))
      && multiset(MapSeq(IdOf, r.body)) <= multiset(MapSeq(IdOf, loaded.value))
  {
    match loaded
    case Err(e) =>
      r := Failure(StatusInternalServerError, Text(e));
    case Ok(questions) =>
      var shuffled := ShuffleQuestions(questions, draws);
      if |shuffled| < ServedCount {
        r := Panic;
      } else {
        assert shuffled == shuffled[..ServedCount] + shuffled[ServedCount..];
        ShuffleKeepsIds(questions, shuffled);
        assert MapSeq(IdOf, shuffled) == MapSeq(IdOf, shuffled[..ServedCount]) + MapSeq(IdOf, shuffled[ServedCount..]);
        r := Success(shuffled[..ServedCount]);
      }
  }
}
