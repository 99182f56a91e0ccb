/**
 * frontend/src/pages/GameFinished.tsx: the results page. It captures the current
 * session, calls the end endpoint once per captured session, and shows the final score.
 */
module FinishPage {
  import opened Wrappers
  import opened ClientModels

  datatype PageState = PageState(
    captured: Option<GameSession>,
    error: string,
    loading: bool,
    details: Option<EndGameResponse>)

  /** The page starts loading: the end call is expected as soon as a session is captured. */
  function Initial(): (s: PageState)
    ensures s.loading && s.captured.None? && s.details.None? && s.error == ""
  {
    PageState(None, "", true, None)
  }

  /**
   * The effects keyed on `currentGame` and on the captured session: no current
   * session sends the page home; a different one is captured and the game ended.
   */
  function CurrentGameChanged(s: PageState, current: Option<GameSession>): (r: (PageState, seq<Effect>))
    ensures current.None? ==> r == (s, [Navigate(HomePath)])
    ensures current.Some? && current == s.captured ==> r == (s, [])
    ensures current.Some? && current != s.captured ==>
      r.0 == s.(captured := current)
      && r.1 == [PostEnd(current.value.gameId, current.value.sessionId)]
  {
    match current
    case None => (s, [Navigate(HomePath)])
    case Some(g) =>
      if current == s.captured then (s, [])
      else (s.(captured := current), [PostEnd(g.gameId, g.sessionId)])
  }

  /** `endGameHandler` settling: the response or the error is kept, and loading ends either way. */
  function EndSettled(s: PageState, reply: Reply<EndGameResponse>): (t: PageState)
    ensures !t.loading
    ensures t.captured == s.captured
    ensures reply.Done? ==> t.details == Some(reply.value) && t.error == s.error
    ensures reply.Failed? ==> t.error == reply.message && t.details == s.details
  {
    match reply
    case Done(v) => s.(details := Some(v), loading := false)
    case Failed(message) => s.(error := message, loading := false)
  }

  datatype View = Loading | NotFound | Result(finalScore: Option<int>)

  /** Render precedence: loading, then error, then the result (the final score once known). */
  function Render(s: PageState): (v: View)
    ensures v.Loading? <==> s.loading
    ensures v.NotFound? <==> !s.loading && s.error != ""
    ensures v.Result? ==> (v.finalScore.Some? <==> s.details.Some?)
    ensures v.Result? && s.details.Some? ==> v.finalScore == Some(s.details.value.finalScore)
  {
    if s.loading then Loading
    else if s.error != "" then NotFound
    else Result(if s.details.Some? then Some(s.details.value.finalScore) else None)
  }

  /** Seeing the same session again does not call the end endpoint a second time. */
  lemma {:induction false} EndCalledOncePerSession(s: PageState, g: GameSession)
    ensures var (t, first) := CurrentGameChanged(s, Some(g));
      |first| <= 1 && CurrentGameChanged(t, Some(g)).1 == []
  {
    var (t, first) := CurrentGameChanged(s, Some(g));
    assert t.captured == Some(g);
  }

  /** Whatever the end call returns, the page stops showing "Loading". */
  lemma SettledPageIsNotLoading(s: PageState, reply: Reply<EndGameResponse>)
    ensures Render(EndSettled(s, reply)) != Loading
  {
  }
}
