/**
 * frontend/src/providers/games.tsx: `GamesProvider` keeps an in-memory copy of the
 * session list and of the current session, initialised from localStorage. Each
 * operation below updates the in-memory level and the durable level; the two are
 * separate state and can disagree.
 */
module GamesProvider {
  import opened Wrappers
  import opened Json
  import opened ClientModels
  import LS = LocalStorage

  /** The provider's React state. */
  datatype Memory = Memory(games: seq<GameSession>, current: Option<GameSession>)

  /** Both levels: the in-memory state and the browser store behind it. */
  datatype Registry = Registry(memory: Memory, store: LS.Store)

  /** What the storage readers return for `store`. */
  function Stored(c: Codec, store: LS.Store): Memory {
    Memory(LS.GetGames(c, store), LS.GetCurrent(c, store))
  }

  /** The in-memory level says what the durable level says. */
  predicate Agree(c: Codec, r: Registry) {
    r.memory == Stored(c, r.store)
  }

  /** The provider's initial state: each level is what the storage readers return. */
  function Init(c: Codec, store: LS.Store): (r: Registry)
    ensures Agree(c, r)
    ensures r.store == store
  {
    Registry(Stored(c, store), store)
  }

  /**
   * `startGame(game, existing)`: a new session is appended to the stored list and the
   * in-memory list becomes the list storage returns; in both cases `game` becomes the
   * current session in storage and in memory.
   */
  function StartGame(c: Codec, r: Registry, game: GameSession, existing: bool): (r': Registry)
    ensures r'.memory.current == Some(game)
    ensures !existing ==> r'.memory.games == LS.GetGames(c, r.store) + [game]
    ensures existing ==> r'.memory.games == r.memory.games
    ensures existing ==> LS.GetGames(c, r'.store) == LS.GetGames(c, r.store)
  {
    var (store, games) :=
      if existing then (r.store, r.memory.games)
      else var w := LS.UpdateGames(c, r.store, game); (w.store, w.games);
    var store' := LS.SetCurrent(c, store, game);
    assert existing ==> LS.ReadItem(c, store', LS.GamesKey) == LS.ReadItem(c, r.store, LS.GamesKey);
    Registry(Memory(games, Some(game)), store')
  }

  /** `finishGame`: clears the in-memory current session only. */
  function FinishGame(r: Registry): (r': Registry)
    ensures r'.memory.current == None
    ensures r'.memory.games == r.memory.games && r'.store == r.store
  {
    Registry(r.memory.(current := None), r.store)
  }

  /** Position `i` holds the first session for `gameId`. */
  predicate FirstFor(games: seq<GameSession>, gameId: string, i: int) {
    && 0 <= i < |games|
    && games[i].gameId == gameId
    && forall j :: 0 <= j < i ==> games[j].gameId != gameId
  }

  /** `games.find(...)`: the first session for `gameId`. */
  function FindSession(games: seq<GameSession>, gameId: string): (found: Option<GameSession>)
    ensures found.None? <==> forall i :: 0 <= i < |games| ==> games[i].gameId != gameId
    ensures found.Some? ==> exists i :: FirstFor(games, gameId, i) && games[i] == found.value
  {
    if |games| == 0 then None
    else if games[0].gameId == gameId then
      assert FirstFor(games, gameId, 0);
      Some(games[0])
    else
      var found := FindSession(games[1..], gameId);
      assert found.Some? ==> exists i :: FirstFor(games, gameId, i) && games[i] == found.value by {
        if found.Some? {
          var i :| FirstFor(games[1..], gameId, i) && games[1..][i] == found.value;
          assert FirstFor(games, gameId, i + 1);
        }
      }
      found
  }

  /**
   * `loadGame(gameId)`: the first in-memory session for `gameId` becomes current in
   * storage and in memory; without one nothing changes.
   */
  function LoadGame(c: Codec, r: Registry, gameId: string): (r': Registry)
    ensures (forall g :: g in r.memory.games ==> g.gameId != gameId) ==> r' == r
    ensures r'.memory.games == r.memory.games
    ensures r'.memory.current.Some? && r'.memory.current != r.memory.current ==>
      r'.memory.current.value in r.memory.games && r'.memory.current.value.gameId == gameId
    ensures forall i :: FirstFor(r.memory.games, gameId, i) ==>
      r'.memory.current == Some(r.memory.games[i]) && r'.store == LS.SetCurrent(c, r.store, r.memory.games[i])
  {
    match FindSession(r.memory.games, gameId)
    case None => r
    case Some(g) =>
      assert forall i :: FirstFor(r.memory.games, gameId, i) ==> r.memory.games[i] == g by {
        forall i | FirstFor(r.memory.games, gameId, i)
          ensures r.memory.games[i] == g
        {
          var j :| FirstFor(r.memory.games, gameId, j) && r.memory.games[j] == g;
          FirstForUnique(r.memory.games, gameId, i, j);
        }
      }
      Registry(r.memory.(current := Some(g)), LS.SetCurrent(c, r.store, g))
  }

  /**
   * `deleteGame(gameId)`: the in-memory list becomes the list storage returns after the
   * delete; the in-memory current session is left as it was, even when storage drops it.
   */
  function DeleteGame(c: Codec, r: Registry, gameId: string): (r': Registry)
    ensures r'.memory.current == r.memory.current
    ensures r'.memory.games == LS.Without(LS.GetGames(c, r.store), gameId)
    ensures forall g :: g in r'.memory.games ==> g.gameId != gameId
  {
    var w := LS.DeleteGame(c, r.store, gameId);
    Registry(r.memory.(games := w.games), w.store)
  }

  /** Applies the registry effects a page asks for, in order; other effects leave it alone. */
  function Perform(c: Codec, r: Registry, effects: seq<Effect>): (r': Registry)
    ensures (forall i :: 0 <= i < |effects| ==> !effects[i].StartSession? && !effects[i].DeleteSession?) ==> r' == r
    decreases |effects|
  {
    if |effects| == 0 then r
    else
      var r1 :=
        match effects[0]
        case StartSession(g, existing) => StartGame(c, r, g, existing)
        case DeleteSession(gameId) => DeleteGame(c, r, gameId)
        case _ => r;
      Perform(c, r1, effects[1..])
  }

  /** Effects that only start or resume sessions keep memory and storage in agreement. */
  lemma {:induction false} PerformKeepsAgreement(c: Codec, r: Registry, effects: seq<Effect>)
    requires Lawful(c)
    requires Agree(c, r)
    requires forall i :: 0 <= i < |effects| ==> !effects[i].DeleteSession?
    ensures Agree(c, Perform(c, r, effects))
    decreases |effects|
  {
    if |effects| > 0 {
      var r1 :=
        match effects[0]
        case StartSession(g, existing) => StartGame(c, r, g, existing)
        case DeleteSession(gameId) => DeleteGame(c, r, gameId)
        case _ => r;
      if effects[0].StartSession? {
        StartGamePreservesAgreement(c, r, effects[0].session, effects[0].existing);
      }
      PerformKeepsAgreement(c, r1, effects[1..]);
    }
  }

  /** After `startGame` the in-memory current session is the stored one. */
  lemma StartGameCurrentAgrees(c: Codec, r: Registry, game: GameSession, existing: bool)
    requires Lawful(c)
    ensures LS.GetCurrent(c, StartGame(c, r, game, existing).store) == StartGame(c, r, game, existing).memory.current
  {
    var store := if existing then r.store else LS.UpdateGames(c, r.store, game).store;
    LS.SetThenGetCurrent(c, store, game);
  }

  /** Starting a new session from agreeing levels appends it to both lists and keeps them agreeing. */
  lemma StartGamePreservesAgreement(c: Codec, r: Registry, game: GameSession, existing: bool)
    requires Lawful(c)
    requires Agree(c, r)
    ensures Agree(c, StartGame(c, r, game, existing))
    ensures !existing ==> StartGame(c, r, game, existing).memory.games == r.memory.games + [game]
    ensures !existing ==> LS.GetGames(c, StartGame(c, r, game, existing).store) == LS.GetGames(c, r.store) + [game]
  {
    var r' := StartGame(c, r, game, existing);
    StartGameCurrentAgrees(c, r, game, existing);
    if !existing {
      var w := LS.UpdateGames(c, r.store, game);
      LS.UpdateGamesStoresResult(c, r.store, game);
      assert LS.ReadItem(c, r'.store, LS.GamesKey) == LS.ReadItem(c, w.store, LS.GamesKey);
    }
  }

  /** Only one position holds the first session for a game. */
  lemma FirstForUnique(games: seq<GameSession>, gameId: string, i: int, j: int)
    requires FirstFor(games, gameId, i) && FirstFor(games, gameId, j)
    ensures i == j
  {
  }

  /** After `loadGame` finds a session, storage reads back the session memory now holds. */
  lemma LoadGameCurrentAgrees(c: Codec, r: Registry, gameId: string, i: int)
    requires Lawful(c)
    requires FirstFor(r.memory.games, gameId, i)
    ensures LoadGame(c, r, gameId).memory.current == Some(r.memory.games[i])
    ensures LS.GetCurrent(c, LoadGame(c, r, gameId).store) == Some(r.memory.games[i])
  {
    LS.SetThenGetCurrent(c, r.store, r.memory.games[i]);
  }

  /** Loading the same game twice is the same as loading it once. */
  lemma LoadGameIdempotent(c: Codec, r: Registry, gameId: string)
    ensures LoadGame(c, LoadGame(c, r, gameId), gameId) == LoadGame(c, r, gameId)
  {
    match FindSession(r.memory.games, gameId)
    case None =>
    case Some(g) =>
      var once := LoadGame(c, r, gameId);
      assert LS.SetCurrent(c, once.store, g) == once.store;
  }

  /** Loading a game keeps agreeing levels agreeing. */
  lemma LoadGamePreservesAgreement(c: Codec, r: Registry, gameId: string)
    requires Lawful(c)
    requires Agree(c, r)
    ensures Agree(c, LoadGame(c, r, gameId))
  {
    match FindSession(r.memory.games, gameId)
    case None =>
    case Some(g) =>
      var r' := LoadGame(c, r, gameId);
      LS.SetThenGetCurrent(c, r.store, g);
      assert LS.ReadItem(c, r'.store, LS.GamesKey) == LS.ReadItem(c, r.store, LS.GamesKey);
  }

  /** After `deleteGame` the in-memory list is the stored list. */
  lemma DeleteGameListsAgree(c: Codec, r: Registry, gameId: string)
    requires Lawful(c)
    ensures LS.GetGames(c, DeleteGame(c, r, gameId).store) == DeleteGame(c, r, gameId).memory.games
  {
    LS.DeleteGameStoresResult(c, r.store, gameId);
  }

  /**
   * The levels diverge: deleting the game of the current session removes it from
   * storage, but the in-memory current session survives.
   */
  lemma DeleteCurrentDiverges(c: Codec, r: Registry, g: GameSession)
    requires Lawful(c)
    requires Agree(c, r)
    requires r.memory.current == Some(g)
    ensures DeleteGame(c, r, g.gameId).memory.current == Some(g)
    ensures LS.GetCurrent(c, DeleteGame(c, r, g.gameId).store) == None
    ensures !Agree(c, DeleteGame(c, r, g.gameId))
  {
    var r' := DeleteGame(c, r, g.gameId);
    assert LS.CurrentKey !in r'.store;
    LS.MissingCurrentReadsNone(c, r'.store);
  }

  /** `finishGame` also makes the levels disagree while storage still holds a current session. */
  lemma FinishGameDiverges(c: Codec, r: Registry)
    requires Agree(c, r)
    requires r.memory.current.Some?
    ensures !Agree(c, FinishGame(r))
    ensures LS.GetCurrent(c, FinishGame(r).store) == r.memory.current
  {
  }
}
