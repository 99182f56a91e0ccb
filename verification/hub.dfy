/**
 * backend/models/Hub.go: rooms of socket clients keyed by game id, and the routing
 * of inbound messages. A message each client has been sent is appended to its inbox.
 * The hub's sends do not block: a client whose buffer is full is closed and evicted
 * instead. Which clients are full at which send is the parameter `accept`
 * (`accept(c, k)`: the k-th send of a run reaches `c`).
 */
module Hub {
  import opened Decimal
  import opened ServerModels
  import Seqs

  /** One send: `message` went to every client in `to`. */
  datatype Sent = Sent(to: set<Client>, message: Message)

  /**
   * The hub: the rooms, every send so far in order, the clients whose channel is
   * closed, and whether the hub's goroutine has panicked.
   */
  datatype HubState = HubState(
    rooms: map<string, set<Client>>,
    sent: seq<Sent>,
    closed: set<Client>,
    crashed: bool)

  const Empty := HubState(map[], [], {}, false)

  const CountdownKind := "startGameCountdown"
  const StartGameKind := "startGame"
  const MessageKind := "message"
  const NotificationKind := "notification"
  const StartingText := "Game is starting"
  /** The index of the last countdown tick (the one that sends 0); the start message is the next. */
  const LastCountdown: nat := 10

  /** Every member sits in its own game's room and still has an open channel. */
  predicate Sound(h: HubState) {
    forall room, c :: room in h.rooms && c in h.rooms[room] ==> c.room == room && c !in h.closed
  }

  /** `GetAllClients(room)`: the room's members; an unknown room has none. */
  function Members(h: HubState, room: string): (members: set<Client>)
    ensures room !in h.rooms ==> members == {}
  {
    if room in h.rooms then h.rooms[room] else {}
  }

  /** In a sound hub every client a room lists belongs to that room and can still be sent to. */
  lemma MembersAreOpen(h: HubState, room: string, c: Client)
    requires Sound(h)
    requires c in Members(h, room)
    ensures c.room == room && c !in h.closed
  {
  }

  /** The messages `log` sent to `c`, in order. */
  function InboxOf(log: seq<Sent>, c: Client): seq<Message>
    decreases |log|
  {
    if |log| == 0 then []
    else
      var last := log[|log| - 1];
      InboxOf(log[..|log| - 1], c) + (if c in last.to then [last.message] else [])
  }

  /** What client `c` has been sent so far. */
  function Inbox(h: HubState, c: Client): seq<Message> {
    InboxOf(h.sent, c)
  }

  lemma InboxAppend(log: seq<Sent>, x: Sent, c: Client)
    ensures InboxOf(log + [x], c) == InboxOf(log, c) + (if c in x.to then [x.message] else [])
  {
    assert (log + [x])[..|log|] == log;
  }

  /** Sends `m` to every client in `to`: exactly those inboxes grow, by `m`. */
  function Send(h: HubState, to: set<Client>, m: Message): (h': HubState)
    ensures forall c :: Inbox(h', c) == Inbox(h, c) + (if c in to then [m] else [])
    ensures h'.rooms == h.rooms && h'.closed == h.closed && h'.crashed == h.crashed
  {
    var h' := h.(sent := h.sent + [Sent(to, m)]);
    forall c
      ensures Inbox(h', c) == Inbox(h, c) + (if c in to then [m] else [])
    {
      InboxAppend(h.sent, Sent(to, m), c);
    }
    h'
  }

  /** `RegisterNewClient`: adds the client to its game's room, creating the room when absent. */
  function Register(h: HubState, c: Client): (h': HubState)
    ensures Members(h', c.room) == Members(h, c.room) + {c}
    ensures c.room in h'.rooms
    ensures forall room :: room != c.room ==> (room in h'.rooms <==> room in h.rooms) && Members(h', room) == Members(h, room)
    ensures h'.sent == h.sent && h'.closed == h.closed && h'.crashed == h.crashed
    ensures Sound(h) && c !in h.closed ==> Sound(h')
  {
    h.(rooms := h.rooms[c.room := Members(h, c.room) + {c}])
  }

  /**
   * `RemoveClient`: when the client's room exists, deletes it from the room and closes
   * its channel; the room itself stays, even when empty. Closing an already closed
   * channel panics.
   */
  function Remove(h: HubState, c: Client): (h': HubState)
    ensures c.room !in h.rooms ==> h' == h
    ensures c.room in h.rooms ==>
      c.room in h'.rooms && Members(h', c.room) == Members(h, c.room) - {c}
      && h'.closed == h.closed + {c} && (h'.crashed <==> h.crashed || c in h.closed)
    ensures forall room :: room != c.room ==> (room in h'.rooms <==> room in h.rooms) && Members(h', room) == Members(h, room)
    ensures h'.sent == h.sent
    ensures Sound(h) ==> Sound(h')
  {
    if c.room in h.rooms then
      h.(rooms := h.rooms[c.room := h.rooms[c.room] - {c}],
         closed := h.closed + {c},
         crashed := h.crashed || c in h.closed)
    else h
  }

  /**
   * One non-blocking send of `m` to every member of `room`: a member that accepts gets
   * `m`; one that does not is closed and deleted from the room. Sending to a closed
   * channel panics.
   */
  function Deliver(h: HubState, room: string, m: Message, accept: Client -> bool): (r: HubState)
    ensures Members(r, room) <= Members(h, room)
    ensures r.closed == h.closed + (Members(h, room) - Members(r, room))
    ensures r.crashed <==> h.crashed || Members(h, room) * h.closed != {}
    ensures |r.sent| == |h.sent| + 1
  {
    var members := Members(h, room);
    var kept := set c | c in members && accept(c);
    var evicted := h.(
      rooms := if room in h.rooms then h.rooms[room := kept] else h.rooms,
      closed := h.closed + (members - kept),
      crashed := h.crashed || members * h.closed != {});
    Send(evicted, kept, m)
  }

  /** A member stays in the room and gets `m` exactly when its send is accepted; nobody else gets anything. */
  lemma DeliverTo(h: HubState, room: string, m: Message, accept: Client -> bool, c: Client)
    ensures c in Members(Deliver(h, room, m, accept), room) <==> c in Members(h, room) && accept(c)
    ensures Inbox(Deliver(h, room, m, accept), c)
         == if c in Members(h, room) && accept(c) then Inbox(h, c) + [m] else Inbox(h, c)
  {
  }

  /** A delivery to one room leaves every other room as it was. */
  lemma DeliverOtherRooms(h: HubState, room: string, m: Message, accept: Client -> bool, other: string)
    requires other != room
    ensures Members(Deliver(h, room, m, accept), other) == Members(h, other)
    ensures other in Deliver(h, room, m, accept).rooms <==> other in h.rooms
  {
  }

  /** Evicting the refused members keeps every remaining member open, so a sound hub does not crash. */
  lemma DeliverKeepsSound(h: HubState, room: string, m: Message, accept: Client -> bool)
    requires Sound(h)
    ensures Sound(Deliver(h, room, m, accept))
    ensures Deliver(h, room, m, accept).crashed == h.crashed
  {
  }

  /** `sendCountdownMessage(seconds)`: the countdown message, seconds as decimal text. */
  function CountdownMessage(seconds: int): (m: Message)
    ensures m.kind == CountdownKind
    ensures m.content.SecondsLeft? && m.content.text == Itoa(seconds)
  {
    Message(CountdownKind, "", "", SecondsLeft(Itoa(seconds)), "")
  }

  /** The message of `sendStartGameMessage`. */
  function StartingMessage(): Message {
    Message(StartGameKind, "", "", Starting(StartingText), "")
  }

  /** The k-th send of a start run: countdown 10 - k for ticks 0..10, then the start message. */
  function Tick(k: nat): (m: Message)
    ensures m.content.SecondsLeft? <==> k <= LastCountdown
    ensures m.content.Starting? <==> k > LastCountdown
  {
    if k <= 10 then CountdownMessage(10 - k) else StartingMessage()
  }

  function AcceptAt(accept: (Client, nat) -> bool, k: nat): Client -> bool {
    c => accept(c, k)
  }

  /** Sends ticks `k`..`last` to the room, one `Deliver` each. */
  function Ticks(h: HubState, room: string, accept: (Client, nat) -> bool, k: nat, last: nat): (r: HubState)
    ensures |r.sent| == |h.sent| + (if k <= last then last + 1 - k else 0)
    decreases last + 1 - k
  {
    if k > last then h
    else Ticks(Deliver(h, room, Tick(k), AcceptAt(accept, k)), room, accept, k + 1, last)
  }

  /**
   * `HandleMessage`: a `startGame` message runs the countdown 10..0 for room `ID`, then
   * marks that game started and sends the start message (a game missing from the
   * registry is a nil dereference: the hub panics before the start message); a
   * `message` goes to room `ID`; a `notification` to room `Recipient`; any other kind
   * is ignored.
   */
  function HandleMessage(h: HubState, servers: Servers, m: Message, accept: (Client, nat) -> bool): (r: (HubState, Servers))
    ensures m.kind == StartGameKind && m.id in servers ==>
      r.1 == servers[m.id := servers[m.id].(started := true)]
    ensures m.kind == StartGameKind && m.id !in servers ==> r.1 == servers && r.0.crashed
    ensures m.kind == MessageKind ==> r == (Deliver(h, m.id, m, AcceptAt(accept, 0)), servers)
    ensures m.kind == NotificationKind ==> r == (Deliver(h, m.recipient, m, AcceptAt(accept, 0)), servers)
    ensures m.kind !in {StartGameKind, MessageKind, NotificationKind} ==> r == (h, servers)
  {
    if m.kind == StartGameKind then
      var counted := Ticks(h, m.id, accept, 0, LastCountdown);
      if m.id in servers then
        (Deliver(counted, m.id, StartingMessage(), AcceptAt(accept, LastCountdown + 1)),
         servers[m.id := servers[m.id].(started := true)])
      else (counted.(crashed := true), servers)
    else if m.kind == MessageKind then (Deliver(h, m.id, m, AcceptAt(accept, 0)), servers)
    else if m.kind == NotificationKind then (Deliver(h, m.recipient, m, AcceptAt(accept, 0)), servers)
    else (h, servers)
  }

  /** What client `c` is sent by ticks `k`..`last`: every tick up to the first it does not accept. */
  function Received(c: Client, accept: (Client, nat) -> bool, k: nat, last: nat): seq<Message>
    decreases last + 1 - k
  {
    if k > last || !accept(c, k) then [] else [Tick(k)] + Received(c, accept, k + 1, last)
  }

  /** A member stays in the room through ticks `k`..`last` exactly when it accepts each of them. */
  lemma {:induction false} TicksMembership(h: HubState, room: string, accept: (Client, nat) -> bool, k: nat, last: nat, c: Client)
    ensures c in Members(Ticks(h, room, accept, k, last), room)
      <==> c in Members(h, room) && forall j :: k <= j <= last ==> accept(c, j)
    decreases last + 1 - k
  {
    if k <= last {
      var h1 := Deliver(h, room, Tick(k), AcceptAt(accept, k));
      var stays := c in Members(Ticks(h, room, accept, k, last), room);
      var staysNext := c in Members(Ticks(h1, room, accept, k + 1, last), room);
      var all := forall j :: k <= j <= last ==> accept(c, j);
      var allNext := forall j :: k + 1 <= j <= last ==> accept(c, j);
      assert stays == staysNext by {
        assert Ticks(h, room, accept, k, last) == Ticks(h1, room, accept, k + 1, last);
      }
      assert staysNext <==> c in Members(h1, room) && allNext by {
        TicksMembership(h1, room, accept, k + 1, last, c);
      }
      assert c in Members(h1, room) <==> c in Members(h, room) && accept(c, k) by {
        TickTo(h, room, accept, k, c);
      }
      assert all <==> accept(c, k) && allNext;
    }
  }

  /** One tick of a run, seen by one client. */
  lemma TickTo(h: HubState, room: string, accept: (Client, nat) -> bool, k: nat, c: Client)
    ensures c in Members(Deliver(h, room, Tick(k), AcceptAt(accept, k)), room) <==> c in Members(h, room) && accept(c, k)
    ensures Inbox(Deliver(h, room, Tick(k), AcceptAt(accept, k)), c)
         == Inbox(h, c) + (if c in Members(h, room) && accept(c, k) then [Tick(k)] else [])
  {
    DeliverTo(h, room, Tick(k), AcceptAt(accept, k), c);
  }

  /** A member's inbox gains exactly `Received`; a non-member's inbox is untouched. */
  lemma TicksInbox(h: HubState, room: string, accept: (Client, nat) -> bool, k: nat, last: nat, c: Client)
    ensures c in Members(h, room) ==> Inbox(Ticks(h, room, accept, k, last), c) == Inbox(h, c) + Received(c, accept, k, last)
    ensures c !in Members(h, room) ==> Inbox(Ticks(h, room, accept, k, last), c) == Inbox(h, c)
  {
    if c in Members(h, room) {
      TicksInboxMember(h, room, accept, k, last, c);
    } else {
      TicksInboxOther(h, room, accept, k, last, c);
    }
  }

  /** Ticks leave the inbox of a client outside the room alone. */
  lemma {:induction false} TicksInboxOther(h: HubState, room: string, accept: (Client, nat) -> bool, k: nat, last: nat, c: Client)
    requires c !in Members(h, room)
    ensures Inbox(Ticks(h, room, accept, k, last), c) == Inbox(h, c)
    decreases last + 1 - k
  {
    if k <= last {
      var h1 := Deliver(h, room, Tick(k), AcceptAt(accept, k));
      TickTo(h, room, accept, k, c);
      TicksInboxOther(h1, room, accept, k + 1, last, c);
    }
  }

  /** A member receives every tick up to the first it refuses. */
  lemma {:induction false} TicksInboxMember(h: HubState, room: string, accept: (Client, nat) -> bool, k: nat, last: nat, c: Client)
    requires c in Members(h, room)
    ensures Inbox(Ticks(h, room, accept, k, last), c) == Inbox(h, c) + Received(c, accept, k, last)
    decreases last + 1 - k
  {
    if k <= last {
      var h1 := Deliver(h, room, Tick(k), AcceptAt(accept, k));
      var received := Received(c, accept, k, last);
      assert Ticks(h, room, accept, k, last) == Ticks(h1, room, accept, k + 1, last);
      if accept(c, k) {
        var rest := Received(c, accept, k + 1, last);
        assert Inbox(Ticks(h1, room, accept, k + 1, last), c) == Inbox(h, c) + received by {
          TickTo(h, room, accept, k, c);
          TicksInboxMember(h1, room, accept, k + 1, last, c);
          assert received == [Tick(k)] + rest;
          Seqs.AppendAssoc(Inbox(h, c), [Tick(k)], rest);
        }
      } else {
        assert Inbox(Ticks(h1, room, accept, k + 1, last), c) == Inbox(h, c) + received by {
          TickTo(h, room, accept, k, c);
          TicksInboxOther(h1, room, accept, k + 1, last, c);
          assert received == [];
          assert Inbox(h, c) + [] == Inbox(h, c);
        }
      }
    } else {
      assert Inbox(h, c) + [] == Inbox(h, c);
    }
  }

  /** The next tick extends what a client receives exactly when it accepted every tick before. */
  lemma {:induction false} ReceivedExtend(c: Client, accept: (Client, nat) -> bool, k: nat, last: nat)
    requires k <= last + 1
    ensures Received(c, accept, k, last + 1)
      == Received(c, accept, k, last)
         + (if (forall j :: k <= j <= last + 1 ==> accept(c, j)) then [Tick(last + 1)] else [])
    decreases last + 1 - k
  {
    if k <= last && accept(c, k) {
      ReceivedExtend(c, accept, k + 1, last);
    }
  }

  /**
   * A start run sends each member of the game's room the countdown and start messages
   * up to the first send its buffer refuses; without the game in the registry the
   * start message is never sent.
   */
  lemma StartRunInbox(h: HubState, servers: Servers, m: Message, accept: (Client, nat) -> bool, c: Client)
    requires m.kind == StartGameKind
    ensures c in Members(h, m.id) && m.id in servers ==>
      Inbox(HandleMessage(h, servers, m, accept).0, c) == Inbox(h, c) + Received(c, accept, 0, LastCountdown + 1)
    ensures c in Members(h, m.id) && m.id !in servers ==>
      Inbox(HandleMessage(h, servers, m, accept).0, c) == Inbox(h, c) + Received(c, accept, 0, LastCountdown)
    ensures c !in Members(h, m.id) ==> Inbox(HandleMessage(h, servers, m, accept).0, c) == Inbox(h, c)
  {
    var counted := Ticks(h, m.id, accept, 0, LastCountdown);
    var r := HandleMessage(h, servers, m, accept).0;
    StartRunShape(h, servers, m, accept);
    TicksInbox(h, m.id, accept, 0, LastCountdown, c);
    if m.id in servers {
      if c in Members(h, m.id) {
        NextTickInbox(h, m.id, accept, 0, LastCountdown, c);
      } else {
        TicksMembership(h, m.id, accept, 0, LastCountdown, c);
        DeliverTo(counted, m.id, Tick(LastCountdown + 1), AcceptAt(accept, LastCountdown + 1), c);
      }
    } else {
      assert r.sent == counted.sent;
    }
  }

  /** One more tick after ticks `k`..`last` extends a member's inbox as `Received` says. */
  lemma NextTickInbox(h: HubState, room: string, accept: (Client, nat) -> bool, k: nat, last: nat, c: Client)
    requires c in Members(h, room)
    requires k <= last + 1
    ensures Inbox(Deliver(Ticks(h, room, accept, k, last), room, Tick(last + 1), AcceptAt(accept, last + 1)), c)
         == Inbox(h, c) + Received(c, accept, k, last + 1)
  {
    var counted := Ticks(h, room, accept, k, last);
    TicksInbox(h, room, accept, k, last, c);
    TicksMembership(h, room, accept, k, last, c);
    ReceivedExtend(c, accept, k, last);
    DeliverTo(counted, room, Tick(last + 1), AcceptAt(accept, last + 1), c);
    var before := Received(c, accept, k, last);
    var stays := c in Members(counted, room) && accept(c, last + 1);
    var all := forall j :: k <= j <= last + 1 ==> accept(c, j);
    assert stays <==> all by {
      if all {
        assert forall j :: k <= j <= last ==> accept(c, j);
      }
    }
    if stays {
      assert Inbox(h, c) + before + [Tick(last + 1)] == Inbox(h, c) + (before + [Tick(last + 1)]);
    } else {
      assert before + [] == before;
    }
  }

  /** With room in every buffer, each member gets 10, 9, ..., 0 and then the start message. */
  lemma {:induction false} AllAcceptedReceivesScript(c: Client, accept: (Client, nat) -> bool, k: nat, last: nat)
    requires forall d: Client, j: nat :: accept(d, j)
    requires k <= last + 1
    ensures |Received(c, accept, k, last)| == last + 1 - k
    ensures forall i :: 0 <= i < last + 1 - k ==> Received(c, accept, k, last)[i] == Tick(k + i)
    decreases last + 1 - k
  {
    if k <= last {
      AllAcceptedReceivesScript(c, accept, k + 1, last);
    }
  }

  /** The script's countdown runs 10, 9, ..., 0 and ends with the start message. */
  lemma ScriptCountsDown()
    ensures forall i :: 0 <= i <= 10 ==> Tick(i).kind == CountdownKind && Tick(i).content == SecondsLeft(Itoa(10 - i))
    ensures Tick(11).kind == StartGameKind
  {
  }

  /** Every hub step keeps members in their own rooms with open channels. */
  lemma HandleMessageKeepsSound(h: HubState, servers: Servers, m: Message, accept: (Client, nat) -> bool)
    requires Sound(h)
    ensures Sound(HandleMessage(h, servers, m, accept).0)
  {
    if m.kind == StartGameKind {
      StartRunKeepsSound(h, servers, m, accept);
    } else if m.kind == MessageKind || m.kind == NotificationKind {
      RelayKeepsSound(h, servers, m, accept);
    }
  }

  lemma StartRunKeepsSound(h: HubState, servers: Servers, m: Message, accept: (Client, nat) -> bool)
    requires Sound(h)
    requires m.kind == StartGameKind
    ensures Sound(HandleMessage(h, servers, m, accept).0)
  {
    var counted := Ticks(h, m.id, accept, 0, LastCountdown);
    StartRunShape(h, servers, m, accept);
    TicksKeepSound(h, m.id, accept, 0, LastCountdown);
    if m.id in servers {
      DeliverKeepsSound(counted, m.id, Tick(LastCountdown + 1), AcceptAt(accept, LastCountdown + 1));
    }
  }

  lemma RelayKeepsSound(h: HubState, servers: Servers, m: Message, accept: (Client, nat) -> bool)
    requires Sound(h)
    requires m.kind == MessageKind || m.kind == NotificationKind
    ensures Sound(HandleMessage(h, servers, m, accept).0)
  {
    if m.kind == MessageKind {
      DeliverKeepsSound(h, m.id, m, AcceptAt(accept, 0));
    } else {
      DeliverKeepsSound(h, m.recipient, m, AcceptAt(accept, 0));
    }
  }

  lemma {:induction false} TicksKeepSound(h: HubState, room: string, accept: (Client, nat) -> bool, k: nat, last: nat)
    requires Sound(h)
    ensures Sound(Ticks(h, room, accept, k, last))
    ensures Ticks(h, room, accept, k, last).crashed == h.crashed
    decreases last + 1 - k
  {
    if k <= last {
      DeliverKeepsSound(h, room, Tick(k), AcceptAt(accept, k));
      TicksKeepSound(Deliver(h, room, Tick(k), AcceptAt(accept, k)), room, accept, k + 1, last);
    }
  }

  /** Registering then removing a fresh client leaves its room's members as they were. */
  lemma RegisterThenRemove(h: HubState, c: Client)
    requires c !in Members(h, c.room)
    ensures Members(Remove(Register(h, c), c), c.room) == Members(h, c.room)
  {
  }

  lemma StartRunShape(h: HubState, servers: Servers, m: Message, accept: (Client, nat) -> bool)
    requires m.kind == StartGameKind
    ensures m.id in servers ==>
      HandleMessage(h, servers, m, accept).0
      == Deliver(Ticks(h, m.id, accept, 0, LastCountdown), m.id, Tick(LastCountdown + 1), AcceptAt(accept, LastCountdown + 1))
    ensures m.id !in servers ==>
      HandleMessage(h, servers, m, accept).0 == Ticks(h, m.id, accept, 0, LastCountdown).(crashed := true)
  {
  }
}
