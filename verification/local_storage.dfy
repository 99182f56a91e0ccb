/**
 * frontend/src/utils/localStorage.ts: the durable session list under the key
 * `games` and the current session under the key `currentGame`, both stored as JSON
 * text in the browser's key-value store.
 */
module LocalStorage {
  import opened Wrappers
  import opened Json
  import opened Seqs
  import opened ClientModels

  /** The browser's `localStorage`. */
  type Store = map<string, string>

  const GamesKey := "games"
  const CurrentKey := "currentGame"

  /** A write to the store together with the list the writer returns. */
  datatype Written = Written(store: Store, games: seq<GameSession>)

  /**
   * `JSON.parse(localStorage.getItem(key)!)`. A missing item is `null`, which
   * `JSON.parse` coerces to the text "null"; `None` is a thrown SyntaxError.
   */
  function ReadItem(c: Codec, store: Store, key: string): Option<JValue> {
    c.parse(if key in store then store[key] else "null")
  }

  function EncodeSession(g: GameSession): JValue {
    JObj(map["gameId" := JStr(g.gameId), "sessionId" := JStr(g.sessionId)])
  }

  /** Reads `{gameId, sessionId}`; any other value is not a session. */
  function DecodeSession(v: JValue): Option<GameSession> {
    match (Prop(v, "gameId"), Prop(v, "sessionId"))
    case (Some(JStr(gameId)), Some(JStr(sessionId))) => Some(GameSession(gameId, sessionId))
    case _ => None
  }

  function EncodeSessions(gs: seq<GameSession>): JValue {
    JArr(MapSeq(EncodeSession, gs))
  }

  function DecodeSessions(v: JValue): Option<seq<GameSession>> {
    if v.JArr? then DecodeAll(v.items) else None
  }

  function DecodeAll(items: seq<JValue>): Option<seq<GameSession>> {
    if |items| == 0 then Some([])
    else
      match (DecodeSession(items[0]), DecodeAll(items[1..]))
      case (Some(g), Some(rest)) => Some([g] + rest)
      case _ => None
  }

  /** Decoding the JSON form of a session list gives the list back. */
  lemma {:induction false} DecodeEncodeSessions(gs: seq<GameSession>)
    ensures DecodeSessions(EncodeSessions(gs)) == Some(gs)
  {
    if |gs| > 0 {
      DecodeEncodeSessions(gs[1..]);
      assert EncodeSessions(gs).items[1..] == EncodeSessions(gs[1..]).items;
      assert [gs[0]] + gs[1..] == gs;
    }
  }

  /**
   * `getLocalStorageGames`: the parsed list, or the empty list when the item does not
   * parse or parses to a falsy value. It never throws.
   */
  function GetGames(c: Codec, store: Store): (gs: seq<GameSession>)
    ensures GamesKey in store && c.parse(store[GamesKey]) == None ==> gs == []
  {
    match ReadItem(c, store, GamesKey)
    case None => []
    case Some(v) =>
      if !Truthy(v) then []
      else
        match DecodeSessions(v)
        case Some(gs) => gs
        case None => []
  }

  /** `getLocalStorageCurrentGame`: the parsed session, or none when the item does not parse. */
  function GetCurrent(c: Codec, store: Store): (current: Option<GameSession>)
    ensures CurrentKey in store && c.parse(store[CurrentKey]) == None ==> current == None
  {
    match ReadItem(c, store, CurrentKey)
    case None => None
    case Some(v) => DecodeSession(v)
  }

  /** `setLocalStorageCurrentGame` */
  function SetCurrent(c: Codec, store: Store, g: GameSession): (s: Store)
    ensures CurrentKey in s
    ensures forall k :: k != CurrentKey ==> (k in s <==> k in store) && (k in store ==> s[k] == store[k])
  {
    store[CurrentKey := c.stringify(EncodeSession(g))]
  }

  /**
   * `updateLocalStorageGames`: appends `g` to the stored list, without looking for an
   * entry with the same game id, writes the list back and returns it.
   */
  function UpdateGames(c: Codec, store: Store, g: GameSession): (w: Written)
    ensures w.games == GetGames(c, store) + [g]
    ensures forall k :: k != GamesKey ==> (k in w.store <==> k in store) && (k in store ==> w.store[k] == store[k])
  {
    var games := GetGames(c, store) + [g];
    Written(store[GamesKey := c.stringify(EncodeSessions(games))], games)
  }

  /** The entries whose game id differs from `gameId`, in their original order (`Array.filter`). */
  function Without(gs: seq<GameSession>, gameId: string): (kept: seq<GameSession>)
    ensures |kept| <= |gs|
  {
    if |gs| == 0 then []
    else (if gs[0].gameId == gameId then [] else [gs[0]]) + Without(gs[1..], gameId)
  }

  /** The filter keeps exactly the entries of other games. */
  lemma {:induction false} WithoutKeeps(gs: seq<GameSession>, gameId: string)
    ensures forall g :: g in Without(gs, gameId) <==> g in gs && g.gameId != gameId
  {
    if |gs| > 0 {
      WithoutKeeps(gs[1..], gameId);
      assert gs == [gs[0]] + gs[1..];
    }
  }

  /**
   * `deleteLocalStorageGame`: writes back the list without the entries for `gameId`,
   * then removes the current session if it belongs to that game, and returns the list.
   */
  function DeleteGame(c: Codec, store: Store, gameId: string): (w: Written)
    ensures w.games == Without(GetGames(c, store), gameId)
    ensures forall g :: g in w.games ==> g.gameId != gameId
    ensures CurrentKey in w.store <==>
      CurrentKey in store && !(GetCurrent(c, store).Some? && GetCurrent(c, store).value.gameId == gameId)
    ensures CurrentKey in w.store ==> w.store[CurrentKey] == store[CurrentKey]
    ensures forall k :: k != GamesKey && k != CurrentKey ==>
      (k in w.store <==> k in store) && (k in store ==> w.store[k] == store[k])
  {
    var kept := Without(GetGames(c, store), gameId);
    WithoutKeeps(GetGames(c, store), gameId);
    var written := store[GamesKey := c.stringify(EncodeSessions(kept))];
    var current := GetCurrent(c, written);
    assert current == GetCurrent(c, store);
    var cleared := if current.Some? && current.value.gameId == gameId then written - {CurrentKey} else written;
    Written(cleared, kept)
  }

  /** A missing `games` item reads as the empty list. */
  lemma MissingGamesReadEmpty(c: Codec, store: Store)
    requires Lawful(c)
    requires GamesKey !in store
    ensures GetGames(c, store) == []
  {
    assert c.parse(c.stringify(JNull)) == Some(JNull);
  }

  /** A missing `currentGame` item reads as no session. */
  lemma MissingCurrentReadsNone(c: Codec, store: Store)
    requires Lawful(c)
    requires CurrentKey !in store
    ensures GetCurrent(c, store) == None
  {
    assert c.parse(c.stringify(JNull)) == Some(JNull);
  }

  /** Whatever list a writer stores is the list the reader returns afterwards. */
  lemma StoredGamesReadBack(c: Codec, store: Store, gs: seq<GameSession>)
    requires Lawful(c)
    ensures GetGames(c, store[GamesKey := c.stringify(EncodeSessions(gs))]) == gs
  {
    DecodeEncodeSessions(gs);
    assert c.parse(c.stringify(EncodeSessions(gs))) == Some(EncodeSessions(gs));
  }

  /** `updateLocalStorageGames` stores exactly the list it returns: the old list followed by `g`. */
  lemma UpdateGamesStoresResult(c: Codec, store: Store, g: GameSession)
    requires Lawful(c)
    ensures GetGames(c, UpdateGames(c, store, g).store) == GetGames(c, store) + [g]
  {
    StoredGamesReadBack(c, store, GetGames(c, store) + [g]);
  }

  /** Registering the same session twice keeps both copies: there is no duplicate check. */
  lemma UpdateGamesKeepsDuplicates(c: Codec, store: Store, g: GameSession)
    requires Lawful(c)
    ensures GetGames(c, UpdateGames(c, UpdateGames(c, store, g).store, g).store) == GetGames(c, store) + [g, g]
  {
    var once := UpdateGames(c, store, g);
    UpdateGamesStoresResult(c, store, g);
    UpdateGamesStoresResult(c, once.store, g);
  }

  /** `deleteLocalStorageGame` stores exactly the list it returns. */
  lemma DeleteGameStoresResult(c: Codec, store: Store, gameId: string)
    requires Lawful(c)
    ensures GetGames(c, DeleteGame(c, store, gameId).store) == DeleteGame(c, store, gameId).games
  {
    var w := DeleteGame(c, store, gameId);
    StoredGamesReadBack(c, store, w.games);
    var written := store[GamesKey := c.stringify(EncodeSessions(w.games))];
    assert w.store == written || w.store == written - {CurrentKey};
    assert GetGames(c, written - {CurrentKey}) == GetGames(c, written) by {
      assert ReadItem(c, written - {CurrentKey}, GamesKey) == ReadItem(c, written, GamesKey);
    }
  }

  /** Filtering distributes over concatenation, so the kept entries keep their relative order. */
  lemma {:induction false} WithoutConcat(a: seq<GameSession>, b: seq<GameSession>, gameId: string)
    ensures Without(a + b, gameId) == Without(a, gameId) + Without(b, gameId)
  {
    if |a| == 0 {
      assert a + b == b;
    } else {
      var ab := a + b;
      assert ab[0] == a[0] && ab[1..] == a[1..] + b;
      var head := if a[0].gameId == gameId then [] else [a[0]];
      assert Without(ab, gameId) == head + Without(a[1..] + b, gameId);
      WithoutConcat(a[1..], b, gameId);
      assert head + (Without(a[1..], gameId) + Without(b, gameId))
          == (head + Without(a[1..], gameId)) + Without(b, gameId);
    }
  }

  /** Filtering out a game id that no entry has returns the list unchanged. */
  lemma {:induction false} WithoutAbsent(gs: seq<GameSession>, gameId: string)
    requires forall g :: g in gs ==> g.gameId != gameId
    ensures Without(gs, gameId) == gs
  {
    if |gs| > 0 {
      WithoutAbsent(gs[1..], gameId);
    }
  }

  /** Deleting a game that has no stored session leaves the stored list as it read before. */
  lemma DeleteAbsentKeepsList(c: Codec, store: Store, gameId: string)
    requires Lawful(c)
    requires forall g :: g in GetGames(c, store) ==> g.gameId != gameId
    ensures GetGames(c, DeleteGame(c, store, gameId).store) == GetGames(c, store)
  {
    WithoutAbsent(GetGames(c, store), gameId);
    DeleteGameStoresResult(c, store, gameId);
  }

  /** Setting the current session, then reading it, gives the same session. */
  lemma SetThenGetCurrent(c: Codec, store: Store, g: GameSession)
    requires Lawful(c)
    ensures GetCurrent(c, SetCurrent(c, store, g)) == Some(g)
  {
    assert c.parse(c.stringify(EncodeSession(g))) == Some(EncodeSession(g));
  }
}
