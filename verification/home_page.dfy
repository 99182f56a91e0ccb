/**
 * frontend/src/pages/Home.tsx: starting a single-player or multiplayer game under a
 * name. One start may be in flight at a time.
 */
module HomePage {
  import opened Wrappers
  import opened ClientModels

  const NameEmptyText := "Name cannot be empty"
  const StartFailedText := "Failed to start game."

  /** Which button's start is in flight. */
  datatype Mode = Single | Multi

  datatype PageState = PageState(
    name: string,
    error: Option<string>,
    loading: Option<Mode>,
    startGameError: string)

  function Initial(): (s: PageState)
    ensures s.name == "" && s.error.None? && s.loading.None? && s.startGameError == ""
  {
    PageState("", None, None, "")
  }

  /** Typing in the name field: the error is set exactly when the name is empty. */
  function EditName(s: PageState, value: string): (t: PageState)
    ensures t.name == value
    ensures t.error.Some? <==> value == ""
    ensures t.error.Some? ==> t.error.value == NameEmptyText
    ensures t.loading == s.loading && t.startGameError == s.startGameError
  {
    s.(name := value, error := if value == "" then Some(NameEmptyText) else None)
  }

  /** `startGameHandler` up to the request. */
  function Start(s: PageState, multiplayer: bool): (r: (PageState, seq<Effect>))
    ensures s.loading.Some? ==> r == (s, [])
    ensures s.loading.None? && s.name == "" ==> r == (s.(error := Some(NameEmptyText)), [])
    ensures s.loading.None? && s.name != "" ==>
      r.0 == s.(error := None, loading := Some(if multiplayer then Multi else Single))
      && r.1 == [PostStart(s.name, multiplayer)]
  {
    if s.loading.Some? then (s, [])
    else if s.name == "" then (s.(error := Some(NameEmptyText)), [])
    else (s.(error := None, loading := Some(if multiplayer then Multi else Single)),
          [PostStart(s.name, multiplayer)])
  }

  /** The start request settling: register and play, or show the start error; loading ends either way. */
  function StartSettled(s: PageState, reply: Reply<GameSession>): (r: (PageState, seq<Effect>))
    ensures r.0.loading.None?
    ensures reply.Done? ==> r == (s.(loading := None), [StartSession(reply.value, false), Navigate(PlayPath)])
    ensures reply.Failed? ==> r == (s.(loading := None, startGameError := StartFailedText), [])
  {
    match reply
    case Done(g) => (s.(loading := None), [StartSession(g, false), Navigate(PlayPath)])
    case Failed(_) => (s.(loading := None, startGameError := StartFailedText), [])
  }

  /** Closing the snackbar clears the start error. */
  function DismissStartError(s: PageState): (t: PageState)
    ensures t.startGameError == "" && t.name == s.name && t.loading == s.loading && t.error == s.error
  {
    s.(startGameError := "")
  }

  /** A second click while a start is in flight makes no second request. */
  lemma {:induction false} DoubleClickStartsOnce(s: PageState, first: bool, second: bool)
    requires s.loading.None? && s.name != ""
    ensures var (t, effects) := Start(s, first);
      |effects| == 1 && Start(t, second) == (t, [])
  {
    var (t, effects) := Start(s, first);
    assert t.loading.Some?;
  }
}
