/**
 * frontend/src/pages/JoinGame.tsx: joining a game by id, either from the form or
 * from a `?gameId=` deep link. A game the browser already holds a session for is
 * resumed instead of joined. `lookup` is the provider's `getGame`, which reads the
 * stored session for a game id.
 */
module JoinPage {
  import opened Wrappers
  import opened Json
  import opened ClientModels
  import GamesProvider
  import LS = LocalStorage

  const GameIdEmptyText := "Game ID cannot be empty"
  const NameEmptyText := "Player Name cannot be empty"

  datatype PageState = PageState(
    gameId: string,
    playerName: string,
    loading: bool,
    gameIdError: Option<string>,
    playerNameError: Option<string>)

  function Initial(): (s: PageState)
    ensures s.gameId == "" && s.playerName == "" && !s.loading
    ensures s.gameIdError.None? && s.playerNameError.None?
  {
    PageState("", "", false, None, None)
  }

  /** A field's validation message: set exactly when the field is empty. */
  function FieldError(value: string, message: string): (e: Option<string>)
    ensures e.Some? <==> value == ""
    ensures e.Some? ==> e.value == message
  {
    if value == "" then Some(message) else None
  }

  /** Typing in the game id field. */
  function EditGameId(s: PageState, value: string): (t: PageState)
    ensures t.gameId == value
    ensures t.gameIdError.Some? <==> value == ""
    ensures t == s.(gameId := value, gameIdError := t.gameIdError)
  {
    s.(gameId := value, gameIdError := FieldError(value, GameIdEmptyText))
  }

  /** Typing in the name field. */
  function EditName(s: PageState, value: string): (t: PageState)
    ensures t.playerName == value
    ensures t.playerNameError.Some? <==> value == ""
    ensures t == s.(playerName := value, playerNameError := t.playerNameError)
  {
    s.(playerName := value, playerNameError := FieldError(value, NameEmptyText))
  }

  /** The resume path shared by the deep link and the form: register as existing, go play. */
  function Resume(g: GameSession): (effects: seq<Effect>)
    ensures |effects| > 0 && effects[|effects| - 1] == Navigate(PlayPath)
    ensures forall i :: 0 <= i < |effects| && effects[i].StartSession? ==> effects[i].existing && effects[i].session == g
    ensures forall i :: 0 <= i < |effects| ==> !effects[i].DeleteSession?
  {
    [StartSession(g, true), Navigate(PlayPath)]
  }

  /** The effect keyed on the query string: a non-empty `gameId` fills the field and resumes a held session. */
  function DeepLink(s: PageState, param: Option<string>, lookup: string -> Option<GameSession>): (r: (PageState, seq<Effect>))
    ensures param.None? || param == Some("") ==> r == (s, [])
    ensures param.Some? && param.value != "" ==> r.0 == s.(gameId := param.value)
    ensures param.Some? && param.value != "" && lookup(param.value).Some? ==>
      r.1 == [StartSession(lookup(param.value).value, true), Navigate(PlayPath)]
    ensures param.Some? && param.value != "" && lookup(param.value).None? ==> r.1 == []
  {
    match param
    case None => (s, [])
    case Some(id) =>
      if id == "" then (s, [])
      else
        match lookup(id)
        case Some(g) => (s.(gameId := id), Resume(g))
        case None => (s.(gameId := id), [])
  }

  /**
   * `joinGameHandler` up to the join request. Empty fields get their errors and end
   * loading; a held session is resumed (loading is left on, as the handler returns
   * early); otherwise the join request is made.
   */
  function Submit(s: PageState, lookup: string -> Option<GameSession>): (r: (PageState, seq<Effect>))
    ensures s.gameId == "" || s.playerName == "" ==>
      r == (s.(gameIdError := if s.gameId == "" then Some(GameIdEmptyText) else s.gameIdError,
               playerNameError := if s.playerName == "" then Some(NameEmptyText) else s.playerNameError,
               loading := false), [])
    ensures s.gameId != "" && s.playerName != "" && lookup(s.gameId).Some? ==>
      r == (s.(loading := true), [StartSession(lookup(s.gameId).value, true), Navigate(PlayPath)])
    ensures s.gameId != "" && s.playerName != "" && lookup(s.gameId).None? ==>
      r == (s.(loading := true), [PostJoin(s.gameId, s.playerName)])
  {
    if s.gameId == "" || s.playerName == "" then
      var t := s.(
        gameIdError := if s.gameId == "" then Some(GameIdEmptyText) else s.gameIdError,
        playerNameError := if s.playerName == "" then Some(NameEmptyText) else s.playerNameError,
        loading := false);
      (t, [])
    else
      match lookup(s.gameId)
      case Some(g) => (s.(loading := true), Resume(g))
      case None => (s.(loading := true), [PostJoin(s.gameId, s.playerName)])
  }

  /** The join request settling: register the new session and play, or report and clear the query string. */
  function JoinSettled(s: PageState, reply: Reply<GameSession>): (r: (PageState, seq<Effect>))
    ensures r.0 == s.(loading := false)
    ensures reply.Done? ==> r.1 == [StartSession(reply.value, false), Navigate(PlayPath)]
    ensures reply.Failed? ==> r.1 == [Notify(reply.message), ClearSearchParams]
    ensures reply.Failed? ==> forall e :: e in r.1 ==> !e.Navigate?
  {
    match reply
    case Done(g) => (s.(loading := false), [StartSession(g, false), Navigate(PlayPath)])
    case Failed(message) => (s.(loading := false), [Notify(message), ClearSearchParams])
  }

  /** A successful join makes the new session current and appends it to the stored list. */
  lemma JoinRegistersSession(c: Codec, reg: GamesProvider.Registry, s: PageState, g: GameSession)
    requires Lawful(c)
    requires GamesProvider.Agree(c, reg)
    ensures var reg' := GamesProvider.Perform(c, reg, JoinSettled(s, Done(g)).1);
      reg'.memory.current == Some(g)
      && reg'.memory.games == LS.GetGames(c, reg.store) + [g]
      && GamesProvider.Agree(c, reg')
  {
    var effects := JoinSettled(s, Done(g)).1;
    var r1 := GamesProvider.StartGame(c, reg, g, false);
    GamesProvider.StartGamePreservesAgreement(c, reg, g, false);
    assert GamesProvider.Perform(c, reg, effects) == GamesProvider.Perform(c, r1, effects[1..]);
    assert GamesProvider.Perform(c, r1, effects[1..]) == GamesProvider.Perform(c, r1, []);
  }

  /** Resuming makes the held session current and leaves both session lists as they were. */
  lemma ResumeMakesCurrent(c: Codec, reg: GamesProvider.Registry, g: GameSession)
    requires Lawful(c)
    requires GamesProvider.Agree(c, reg)
    ensures var reg' := GamesProvider.Perform(c, reg, Resume(g));
      reg'.memory == reg.memory.(current := Some(g))
      && LS.GetGames(c, reg'.store) == LS.GetGames(c, reg.store)
      && GamesProvider.Agree(c, reg')
  {
    var r1 := GamesProvider.StartGame(c, reg, g, true);
    GamesProvider.PerformKeepsAgreement(c, reg, Resume(g));
    assert GamesProvider.Perform(c, reg, Resume(g)) == GamesProvider.Perform(c, r1, Resume(g)[1..]);
    assert GamesProvider.Perform(c, r1, Resume(g)[1..]) == GamesProvider.Perform(c, r1, []);
  }

  /** Submitting with both fields filled never reports a field error. */
  lemma FilledFormKeepsErrors(s: PageState, lookup: string -> Option<GameSession>)
    requires s.gameId != "" && s.playerName != ""
    ensures Submit(s, lookup).0.gameIdError == s.gameIdError
    ensures Submit(s, lookup).0.playerNameError == s.playerNameError
  {
  }
}
