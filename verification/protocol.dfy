/**
 * How the two halves meet on the socket: the hub's event kinds are the names the
 * client listens for, and the countdown text the hub sends is read back by the play
 * page as the same number.
 */
module Protocol {
  import opened Wrappers
  import opened Json
  import opened Decimal
  import Socket
  import Hub
  import HubNotify
  import GamePage

  /** Each kind the server sends is a name the client's socket knows. */
  lemma KindsAreEventNames()
    ensures Hub.CountdownKind == Socket.StartGameCountdown
    ensures Hub.StartGameKind == Socket.StartGame
    ensures HubNotify.PlayerJoinedKind == Socket.PlayerJoined
    ensures HubNotify.GameFinishedKind == Socket.GameFinished
    ensures HubNotify.AllPlayersKind == Socket.AllPlayers
    ensures HubNotify.ScoreUpdateKind == Socket.ScoreUpdate
  {
  }

  /** The object `json.Marshal` makes of the hub's `Message` struct; its `Content` field is text. */
  function HubEnvelope(kind: string, sender: string, recipient: string, content: string, id: string): JValue {
    JObj(map["type" := JStr(kind), "sender" := JStr(sender), "recipient" := JStr(recipient),
             "content" := JStr(content), "id" := JStr(id)])
  }

  /**
   * A frame the hub sends reaches the client's listeners for its kind, with its content
   * text parsed, when that text is JSON; empty or unparsable content is a decode failure.
   */
  lemma HubFrameDecodes(c: Codec, kind: string, sender: string, recipient: string, content: string, id: string)
    requires Lawful(c)
    ensures var d := Socket.DecodeFrame(c, c.stringify(HubEnvelope(kind, sender, recipient, content, id)));
      (c.parse(content).Some? ==> d == Socket.Event(kind, c.parse(content).value))
      && (c.parse(content).None? ==> d == Socket.Malformed)
  {
    var envelope := HubEnvelope(kind, sender, recipient, content, id);
    assert c.parse(c.stringify(envelope)) == Some(envelope);
    assert Prop(envelope, "content") == Some(JStr(content));
    assert Prop(envelope, "type") == Some(JStr(kind));
    assert content == "" ==> c.parse(ObjectText) == None;
  }

  /** The k-th countdown message sets the play page's seconds to 10 - k. */
  lemma CountdownReachesPage(s: GamePage.PageState, k: nat)
    requires k <= 10
    ensures var text := Hub.Tick(k).content.text;
      GamePage.OnSocketEvent(s, GamePage.Countdown(text)).0.secondsLeft == Finite(10 - k)
  {
    NumberOfItoa(10 - k);
  }
}
