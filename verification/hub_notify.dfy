/**
 * backend/controllers/hub.go: the notifications the HTTP handlers push to a game's
 * room. These are plain blocking channel sends, so every current member gets the
 * message. Player rows come from iterating the session map, whose order Go leaves
 * unspecified; `order` is the order one iteration visited the session ids in.
 */
module HubNotify {
  import opened Decimal
  import opened Seqs
  import opened ServerModels
  import opened Hub

  const PlayerJoinedKind := "playerJoined"
  const GameFinishedKind := "gameFinished"
  const AllPlayersKind := "allPlayers"
  const ScoreUpdateKind := "scoreUpdate"

  /** A message with only its type and content set. */
  function Note(kind: string, content: Content): Message {
    Message(kind, "", "", content, "")
  }

  /** Sends `m` to every member of `room`. */
  function Post(h: HubState, room: string, m: Message): (h': HubState)
    ensures forall c :: c in Members(h, room) ==> Inbox(h', c) == Inbox(h, c) + [m]
    ensures forall c :: c !in Members(h, room) ==> Inbox(h', c) == Inbox(h, c)
    ensures h'.rooms == h.rooms && h'.closed == h.closed && h'.crashed == h.crashed
  {
    Send(h, Members(h, room), m)
  }

  /** Sends `m` to one client. */
  function SendTo(h: HubState, c: Client, m: Message): (h': HubState)
    ensures Inbox(h', c) == Inbox(h, c) + [m]
    ensures forall d :: d != c ==> Inbox(h', d) == Inbox(h, d)
    ensures h'.rooms == h.rooms && h'.closed == h.closed && h'.crashed == h.crashed
  {
    Send(h, {c}, m)
  }

  /** `order` visits every session id exactly once. */
  predicate Enumerates(order: seq<string>, sessions: map<string, PlayerSession>) {
    Distinct(order) && (forall k :: k in order ==> k in sessions) && (forall k :: k in sessions ==> k in order)
  }

  /** One session's row: its name, its `ID`, and its score as decimal text. */
  function RowOf(p: PlayerSession): Row {
    Row(p.name, p.id, Itoa(p.score))
  }

  /** `getPlayerScores`: one row per session, in the iteration's order. */
  function PlayerRows(store: SessionStore, order: seq<string>): (rows: seq<Row>)
    requires Enumerates(order, store.sessions)
    ensures |rows| == |store.sessions| == |order|
    ensures forall i :: 0 <= i < |rows| ==> rows[i] == RowOf(store.sessions[order[i]])
    ensures forall k :: k in store.sessions ==> RowOf(store.sessions[k]) in rows
  {
    DistinctCard(order);
    assert (set x | x in order) == store.sessions.Keys;
    var rows := seq(|order|, i requires 0 <= i < |order| => RowOf(store.sessions[order[i]]));
    forall k | k in store.sessions
      ensures RowOf(store.sessions[k]) in rows
    {
      var i :| 0 <= i < |order| && order[i] == k;
      assert rows[i] == RowOf(store.sessions[k]);
    }
    rows
  }

  /** Whatever order the map is iterated in, the same rows come out, each as often. */
  lemma RowsIndependentOfOrder(store: SessionStore, o1: seq<string>, o2: seq<string>)
    requires Enumerates(o1, store.sessions) && Enumerates(o2, store.sessions)
    ensures multiset(PlayerRows(store, o1)) == multiset(PlayerRows(store, o2))
  {
    DistinctSameElements(o1, o2);
    var g := (k: string) => RowFor(store, k);
    MapSeqMultiset(g, o1, o2);
    SameAsMapped(store, o1);
    SameAsMapped(store, o2);
  }

  /** A session's row, with a placeholder for ids that have none. */
  function RowFor(store: SessionStore, k: string): Row {
    if k in store.sessions then RowOf(store.sessions[k]) else Row("", "", "")
  }

  lemma SameAsMapped(store: SessionStore, order: seq<string>)
    requires Enumerates(order, store.sessions)
    ensures PlayerRows(store, order) == MapSeq((k: string) => RowFor(store, k), order)
  {
    var rows := PlayerRows(store, order);
    var mapped := MapSeq((k: string) => RowFor(store, k), order);
    forall i | 0 <= i < |order|
      ensures rows[i] == mapped[i]
    {
      assert order[i] in store.sessions;
    }
  }

  /** A row's score text converts back to the session's score. */
  lemma RowScoreReadsBack(p: PlayerSession)
    ensures ToNumber(RowOf(p).score) == Finite(p.score)
  {
    NumberOfItoa(p.score);
  }

  /** `PlayerJoinedNotification`: the new player's name and session id to everyone in the game's room. */
  function PlayerJoinedNotification(h: HubState, gameId: string, name: string, sessionId: string): (h': HubState)
    ensures forall c :: c in Members(h, gameId) ==>
      Inbox(h', c) == Inbox(h, c) + [Message(PlayerJoinedKind, "", "", Joined(name, sessionId), "")]
    ensures forall c :: c !in Members(h, gameId) ==> Inbox(h', c) == Inbox(h, c)
    ensures h'.rooms == h.rooms
  {
    Post(h, gameId, Note(PlayerJoinedKind, Joined(name, sessionId)))
  }

  /** `SendGameFinishedMessage`: the player rows, as `gameFinished`, to everyone in the game's room. */
  function SendGameFinishedMessage(h: HubState, g: GameServer, order: seq<string>): (h': HubState)
    requires Enumerates(order, g.store.sessions)
    ensures forall c :: c in Members(h, g.id) ==>
      Inbox(h', c) == Inbox(h, c) + [Message(GameFinishedKind, "", "", Scores(PlayerRows(g.store, order)), "")]
    ensures forall c :: c !in Members(h, g.id) ==> Inbox(h', c) == Inbox(h, c)
    ensures h'.rooms == h.rooms
  {
    Post(h, g.id, Note(GameFinishedKind, Scores(PlayerRows(g.store, order))))
  }

  /** `SendExistingPlayersMessage`: the player rows, as `allPlayers`, to the new client only. */
  function SendExistingPlayersMessage(h: HubState, c: Client, g: GameServer, order: seq<string>): (h': HubState)
    requires Enumerates(order, g.store.sessions)
    ensures Inbox(h', c) == Inbox(h, c) + [Message(AllPlayersKind, "", "", Scores(PlayerRows(g.store, order)), "")]
    ensures forall d :: d != c ==> Inbox(h', d) == Inbox(h, d)
    ensures h'.rooms == h.rooms
  {
    SendTo(h, c, Note(AllPlayersKind, Scores(PlayerRows(g.store, order))))
  }

  /** `SendScoreUpdateMessage`: the player rows, as `scoreUpdate`, to the new client only. */
  function SendScoreUpdateMessage(h: HubState, c: Client, g: GameServer, order: seq<string>): (h': HubState)
    requires Enumerates(order, g.store.sessions)
    ensures Inbox(h', c) == Inbox(h, c) + [Message(ScoreUpdateKind, "", "", Scores(PlayerRows(g.store, order)), "")]
    ensures forall d :: d != c ==> Inbox(h', d) == Inbox(h, d)
    ensures h'.rooms == h.rooms
  {
    SendTo(h, c, Note(ScoreUpdateKind, Scores(PlayerRows(g.store, order))))
  }

  /** `SendScoreUpdateMessageToAllClients`: the player rows, as `scoreUpdate`, to everyone in the game's room. */
  function SendScoreUpdateMessageToAllClients(h: HubState, g: GameServer, order: seq<string>): (h': HubState)
    requires Enumerates(order, g.store.sessions)
    ensures forall c :: c in Members(h, g.id) ==>
      Inbox(h', c) == Inbox(h, c) + [Message(ScoreUpdateKind, "", "", Scores(PlayerRows(g.store, order)), "")]
    ensures forall c :: c !in Members(h, g.id) ==> Inbox(h', c) == Inbox(h, c)
    ensures h'.rooms == h.rooms
  {
    Post(h, g.id, Note(ScoreUpdateKind, Scores(PlayerRows(g.store, order))))
  }

  /**
   * A new client's `allPlayers` and `scoreUpdate` come from two separate iterations:
   * they hold the same rows, each as often, possibly in different orders.
   */
  lemma NewClientContentsAgree(h: HubState, c: Client, g: GameServer, o1: seq<string>, o2: seq<string>)
    requires Enumerates(o1, g.store.sessions) && Enumerates(o2, g.store.sessions)
    ensures var h' := SendScoreUpdateMessage(SendExistingPlayersMessage(h, c, g, o1), c, g, o2);
      var tail := Inbox(h', c)[|Inbox(h, c)|..];
      |tail| == 2 && tail[0].kind == AllPlayersKind && tail[1].kind == ScoreUpdateKind
      && multiset(tail[0].content.rows) == multiset(tail[1].content.rows)
  {
    RowsIndependentOfOrder(g.store, o1, o2);
    var h1 := SendExistingPlayersMessage(h, c, g, o1);
    var h2 := SendScoreUpdateMessage(h1, c, g, o2);
    assert Inbox(h2, c)[|Inbox(h, c)|..] == [Note(AllPlayersKind, Scores(PlayerRows(g.store, o1))), Note(ScoreUpdateKind, Scores(PlayerRows(g.store, o2)))];
  }

  /** `gameFinished` and the broadcast `scoreUpdate` carry the same rows for the same iteration. */
  lemma FinishedAndUpdateAgree(h: HubState, g: GameServer, order: seq<string>, c: Client)
    requires Enumerates(order, g.store.sessions)
    requires c in Members(h, g.id)
    ensures var a := Inbox(SendGameFinishedMessage(h, g, order), c);
      var b := Inbox(SendScoreUpdateMessageToAllClients(h, g, order), c);
      |a| == |b| && a[|a| - 1].content == b[|b| - 1].content
      && a[|a| - 1].kind == GameFinishedKind && b[|b| - 1].kind == ScoreUpdateKind
  {
  }
}
