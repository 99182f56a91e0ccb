/**
 * frontend/src/utils/socket.ts: class `Socket`, an envelope codec over a WebSocket
 * plus a Node `EventEmitter` that dispatches decoded events to listeners by name.
 */
module Socket {
  import opened Wrappers
  import opened Json
  import opened Seqs

  const AllPlayers := "allPlayers"
  const Connect := "connect"
  const Disconnect := "disconnect"
  const GameFinished := "gameFinished"
  const PlayerJoined := "playerJoined"
  const ScoreUpdate := "scoreUpdate"
  const StartGame := "startGame"
  const StartGameCountdown := "startGameCountdown"

  /** The event the emitter treats specially: emitting it with no listener throws. */
  const ErrorEvent := "error"

  /** A listener function, by identity. */
  type Handler = nat

  /** The emitter's table: each event name's listeners in registration order. */
  type Table = map<string, seq<Handler>>

  /** Like the emitter, the table keeps no entry for a name without listeners. */
  predicate WellFormed(table: Table) {
    forall name :: name in table ==> |table[name]| > 0
  }

  function HandlersFor(table: Table, name: string): seq<Handler> {
    if name in table then table[name] else []
  }

  /** `on(name, fn)`: adds `fn` after the listeners already registered for `name`. */
  function On(table: Table, name: string, fn: Handler): (t: Table)
    ensures HandlersFor(t, name) == HandlersFor(table, name) + [fn]
    ensures forall n :: n != name ==> (n in t <==> n in table) && (n in table ==> t[n] == table[n])
    ensures WellFormed(table) ==> WellFormed(t)
  {
    table[name := HandlersFor(table, name) + [fn]]
  }

  /** Position `i` holds the most recently added copy of `fn`. */
  predicate LastAt(hs: seq<Handler>, fn: Handler, i: int) {
    0 <= i < |hs| && hs[i] == fn && fn !in hs[i + 1..]
  }

  /** The position of the most recently added copy of `fn`, or -1 when there is none. */
  function LastIndex(hs: seq<Handler>, fn: Handler): (i: int)
    ensures i == -1 <==> fn !in hs
    ensures i != -1 ==> LastAt(hs, fn, i)
  {
    if |hs| == 0 then -1
    else if hs[|hs| - 1] == fn then |hs| - 1
    else
      assert hs == hs[..|hs| - 1] + [hs[|hs| - 1]];
      LastIndex(hs[..|hs| - 1], fn)
  }

  /** Removes the most recently added copy of `fn`, as `removeListener` does. */
  function RemoveLast(hs: seq<Handler>, fn: Handler): (r: seq<Handler>)
    ensures fn !in hs ==> r == hs
    ensures fn in hs ==> |r| == |hs| - 1 && multiset(r) == multiset(hs) - multiset{fn}
    ensures fn in hs ==> exists i :: LastAt(hs, fn, i) && r == hs[..i] + hs[i + 1..]
  {
    var i := LastIndex(hs, fn);
    if i == -1 then hs
    else
      RemoveAt(hs, i);
      hs[..i] + hs[i + 1..]
  }

  /** With `f` registered before and after `g`, removing `f` keeps the earlier copy: `g` still fires last. */
  lemma RemoveLastKeepsEarlierCopy()
    ensures RemoveLast([1, 2, 1], 1) == [1, 2]
  {
    assert LastAt([1, 2, 1], 1, 2);
    assert [1, 2, 1][..2] == [1, 2];
  }

  /** `off(name, fn)`: removes one registration of `fn` for `name`, dropping the name once it has none. */
  function Off(table: Table, name: string, fn: Handler): (t: Table)
    ensures fn !in HandlersFor(table, name) ==> HandlersFor(t, name) == HandlersFor(table, name)
    ensures HandlersFor(t, name) == RemoveLast(HandlersFor(table, name), fn)
    ensures name in t <==> |RemoveLast(HandlersFor(table, name), fn)| > 0
    ensures forall n :: n != name ==> (n in t <==> n in table) && (n in table ==> t[n] == table[n])
    ensures WellFormed(table) ==> WellFormed(t)
  {
    var rest := RemoveLast(HandlersFor(table, name), fn);
    if |rest| == 0 then table - {name} else table[name := rest]
  }

  /** Registering a listener and removing it again restores the table. */
  lemma OnThenOffRestores(table: Table, name: string, fn: Handler)
    requires WellFormed(table)
    ensures Off(On(table, name, fn), name, fn) == table
  {
    var hs := HandlersFor(table, name);
    var t := On(table, name, fn);
    RemoveLastAppended(hs, fn);
    if |hs| == 0 {
      assert name !in table;
      assert t - {name} == table;
    } else {
      assert t[name := hs] == table;
    }
  }

  /** The listener added last is the one `RemoveLast` takes away. */
  lemma RemoveLastAppended(hs: seq<Handler>, fn: Handler)
    ensures RemoveLast(hs + [fn], fn) == hs
  {
    assert (hs + [fn])[..|hs|] == hs;
  }

  /** The envelope `{type, id, content}`. */
  function Envelope(eventType: string, id: string, content: string): JValue {
    JObj(map["type" := JStr(eventType), "id" := JStr(id), "content" := JStr(content)])
  }

  /** `emit(eventType, id, data)`: the text sent; `content` carries the payload already stringified. */
  function EncodeFrame(c: Codec, eventType: string, id: string, data: JValue): (frame: string)
    ensures Lawful(c) ==> c.parse(frame) == Some(Envelope(eventType, id, c.stringify(data)))
  {
    c.stringify(Envelope(eventType, id, c.stringify(data)))
  }

  /** The two-step decoding of an inbound frame. */
  datatype Decoded = Event(name: string, data: JValue) | Malformed

  /** The text `JSON.parse(message.content || {})` parses: a missing or falsy content becomes `{}`. */
  function ContentText(content: Option<JValue>): string {
    match content
    case Some(v) => if Truthy(v) then ToText(v) else ObjectText
    case None => ObjectText
  }

  /** The emitter key `message.type` is converted to; a missing type is "undefined". */
  function EventName(eventType: Option<JValue>): string {
    match eventType
    case Some(v) => ToText(v)
    case None => "undefined"
  }

  /**
   * Parses the envelope, then its content. Either parse failing, or reading a field
   * of a `null` envelope, is a decode failure.
   */
  function DecodeFrame(c: Codec, frame: string): (d: Decoded)
    ensures c.parse(frame).None? ==> d == Malformed
    ensures d.Event? <==>
      c.parse(frame).Some? && c.parse(frame).value != JNull
      && c.parse(ContentText(Prop(c.parse(frame).value, "content"))).Some?
    ensures d.Event? ==>
      d.name == EventName(Prop(c.parse(frame).value, "type"))
      && c.parse(ContentText(Prop(c.parse(frame).value, "content"))) == Some(d.data)
  {
    match c.parse(frame)
    case None => Malformed
    case Some(message) =>
      if message == JNull then Malformed
      else
        match c.parse(ContentText(Prop(message, "content")))
        case None => Malformed
        case Some(data) => Event(EventName(Prop(message, "type")), data)
  }

  /** What a listener is called with. */
  datatype Arg = Payload(data: JValue) | Thrown | NoArg

  datatype Call = Call(handler: Handler, arg: Arg)

  /** The listener calls one dispatch makes, and whether an exception escaped it. */
  datatype Delivery = Delivery(calls: seq<Call>, escaped: bool)

  function CallWith(arg: Arg): Handler -> Call {
    (h: Handler) => Call(h, arg)
  }

  /** `EventEmitter.emit`: calls the listeners in order; "error" with no listener throws. */
  function Fire(table: Table, name: string, arg: Arg): (d: Delivery)
    ensures d.escaped <==> name == ErrorEvent && |HandlersFor(table, name)| == 0
    ensures |d.calls| == |HandlersFor(table, name)|
    ensures forall i :: 0 <= i < |d.calls| ==> d.calls[i] == Call(HandlersFor(table, name)[i], arg)
  {
    var hs := HandlersFor(table, name);
    if |hs| == 0 && name == ErrorEvent then Delivery([], true)
    else Delivery(MapSeq(CallWith(arg), hs), false)
  }

  /**
   * `message(event)`: a frame that decodes fires its type with its content; a frame
   * that does not, or whose type event throws, fires "error" instead.
   */
  function Receive(c: Codec, table: Table, frame: string): (d: Delivery)
    ensures DecodeFrame(c, frame).Event? && DecodeFrame(c, frame).name != ErrorEvent ==>
      d == Fire(table, DecodeFrame(c, frame).name, Payload(DecodeFrame(c, frame).data))
    ensures DecodeFrame(c, frame).Event? && DecodeFrame(c, frame).name == ErrorEvent ==>
      d.escaped == (|HandlersFor(table, ErrorEvent)| == 0)
      && (|HandlersFor(table, ErrorEvent)| > 0 ==> d == Fire(table, ErrorEvent, Payload(DecodeFrame(c, frame).data)))
      && (|HandlersFor(table, ErrorEvent)| == 0 ==> d.calls == [])
    ensures DecodeFrame(c, frame).Malformed? ==>
      d.escaped == (|HandlersFor(table, ErrorEvent)| == 0)
      && |d.calls| == |HandlersFor(table, ErrorEvent)|
      && (forall i :: 0 <= i < |d.calls| ==> d.calls[i] == Call(HandlersFor(table, ErrorEvent)[i], Thrown))
  {
    match DecodeFrame(c, frame)
    case Event(name, data) =>
      var fired := Fire(table, name, Payload(data));
      if fired.escaped then Fire(table, ErrorEvent, Thrown) else fired
    case Malformed => Fire(table, ErrorEvent, Thrown)
  }

  /** `open()`: the transport connected. */
  function Opened(table: Table): (d: Delivery)
    ensures !d.escaped
    ensures |d.calls| == |HandlersFor(table, Connect)|
    ensures forall i :: 0 <= i < |d.calls| ==> d.calls[i] == Call(HandlersFor(table, Connect)[i], NoArg)
  {
    Fire(table, Connect, NoArg)
  }

  /** `close()`: the transport disconnected. */
  function Closed(table: Table): (d: Delivery)
    ensures !d.escaped
    ensures |d.calls| == |HandlersFor(table, Disconnect)|
    ensures forall i :: 0 <= i < |d.calls| ==> d.calls[i] == Call(HandlersFor(table, Disconnect)[i], NoArg)
  {
    Fire(table, Disconnect, NoArg)
  }

  /** `error()`: a transport error is only logged. */
  function TransportError(table: Table): (d: Delivery)
    ensures d.calls == [] && !d.escaped
  {
    Delivery([], false)
  }

  /**
   * A "connect" listener added with `on` is called when the transport opens, after
   * the listeners already there; it is not called when the transport closes.
   */
  lemma OpenedCallsNewListenerLast(table: Table, fn: Handler)
    ensures Opened(On(table, Connect, fn)).calls == Opened(table).calls + [Call(fn, NoArg)]
    ensures Closed(On(table, Connect, fn)) == Closed(table)
  {
  }

  /** Receiving the frame `emit(t, id, data)` sends fires `t` with `data`. */
  lemma EmitThenReceive(c: Codec, table: Table, eventType: string, id: string, data: JValue)
    requires Lawful(c)
    requires eventType != ErrorEvent
    ensures DecodeFrame(c, EncodeFrame(c, eventType, id, data)) == Event(eventType, data)
    ensures Receive(c, table, EncodeFrame(c, eventType, id, data)) == Fire(table, eventType, Payload(data))
  {
    var text := c.stringify(data);
    var envelope := Envelope(eventType, id, text);
    assert c.parse(c.stringify(envelope)) == Some(envelope);
    assert c.parse(text) == Some(data);
    assert text != "";
    assert Prop(envelope, "content") == Some(JStr(text));
    assert Prop(envelope, "type") == Some(JStr(eventType));
  }

  /** An envelope whose content is missing or falsy is a decode failure: `{}` is not JSON text. */
  lemma EmptyContentIsMalformed(c: Codec, frame: string, fields: map<string, JValue>)
    requires Lawful(c)
    requires c.parse(frame) == Some(JObj(fields))
    requires "content" !in fields || !Truthy(fields["content"])
    ensures DecodeFrame(c, frame) == Malformed
  {
  }

  /** A decode failure calls only "error" listeners, so no type listener sees the frame. */
  lemma MalformedFiresNoTypeEvent(c: Codec, table: Table, frame: string, name: string)
    requires DecodeFrame(c, frame).Malformed?
    requires name != ErrorEvent
    requires WellFormed(table)
    requires forall h :: h in HandlersFor(table, name) ==> h !in HandlersFor(table, ErrorEvent)
    ensures forall call :: call in Receive(c, table, frame).calls ==> call.handler !in HandlersFor(table, name)
  {
    var d := Receive(c, table, frame);
    forall call | call in d.calls
      ensures call.handler !in HandlersFor(table, name)
    {
      var i :| 0 <= i < |d.calls| && d.calls[i] == call;
      assert call.handler == HandlersFor(table, ErrorEvent)[i];
      assert call.handler in HandlersFor(table, ErrorEvent);
    }
  }
}
