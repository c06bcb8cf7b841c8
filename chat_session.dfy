/**
  One client's session on the chat endpoint, driven against a registry.

  The endpoint reads the `username` query parameter (required and non-empty)
  and the `room` parameter (default "lobby"), registers the connection,
  announces the join to the room, then relays each inbound chat message to
  the room until the client closes. An inbound message that fails validation
  is not caught by the receive loop: it ends the session just as a close
  does. On the way out the connection is disconnected first and a departure
  notice is broadcast to the members that remain.

  The client's inbound messages are given as a sequence, and the set of
  connections whose sends fail is given as an input that holds for the whole
  session.
*/
module ChatSession {
  import opened Schemas
  import opened WsManager

  /** The room of a client that names none. */
  const DefaultRoom: string := "lobby"

  /** The close code sent to a client whose required query parameter is missing. */
  const MissingParamCloseCode: nat := 4000

  /** How a session ended. */
  datatype SessionEnd =
    | Rejected(closeCode: nat)
    | HandshakeFailed
    | ClientClosed
    | InvalidMessage(errors: set<FieldError>)

  /** A required query parameter: absent or empty is a rejection. */
  function RequireParam(query: map<string, string>, name: string): (r: Option<string>)
    ensures r.Some? <==> name in query && query[name] != ""
    ensures r.Some? ==> r.value == query[name] && r.value != ""
  {
    if name in query && query[name] != "" then Some(query[name]) else None
  }

  /** The room query parameter, "lobby" when absent; a present but empty value is kept. */
  function RoomParam(query: map<string, string>): (room: string)
    ensures "room" in query ==> room == query["room"]
    ensures "room" !in query ==> room == DefaultRoom
  {
    if "room" in query then query["room"] else DefaultRoom
  }

  /** The system message announcing that `username` joined `room`. */
  function JoinNotice(username: string, room: string): WSOutMessage
  {
    WSOutMessage(System, "system", username + " joined", room)
  }

  /** The departure message as the endpoint builds it: the join text, reused. */
  function LeaveNoticeAsWritten(username: string, room: string): WSOutMessage
  {
    WSOutMessage(System, "system", username + " joined", room)
  }

  /** Members of the room cannot tell the departure notice as written from a join notice. */
  lemma LeaveNoticeAsWrittenIsJoinNotice(username: string, room: string)
    ensures LeaveNoticeAsWritten(username, room) == JoinNotice(username, room)
  {
  }

  /** The departure message as intended: a system message saying that `username` left. */
  function LeaveNotice(username: string, room: string): WSOutMessage
  {
    WSOutMessage(System, "system", username + " left", room)
  }

  /** The intended departure notice is never mistaken for a join notice. */
  lemma {:induction false} LeaveNoticeDiffersFromJoin(username: string, room: string)
    ensures LeaveNotice(username, room) != JoinNotice(username, room)
    ensures LeaveNotice(username, room).text != JoinNotice(username, room).text
  {
    assert |LeaveNotice(username, room).text| == |username| + 5;
    assert |JoinNotice(username, room).text| == |username| + 7;
  }

  /** The texts of the inbound messages the endpoint relays: those before the first invalid one. */
  function ChatTexts(inbound: seq<RawMessage>): (texts: seq<string>)
    ensures |texts| <= |inbound|
    ensures forall i | 0 <= i < |texts| :: ParseIn(inbound[i]) == Success(WSInMessage(Chat, texts[i]))
    ensures |texts| < |inbound| ==> ParseIn(inbound[|texts|]).Failure?
  {
    if inbound == [] then []
    else match ParseIn(inbound[0])
      case Success(m) => [m.text] + ChatTexts(inbound[1..])
      case Failure(_) => []
  }

  /** While the messages so far were relayed, a valid next message is the next one relayed. */
  lemma ChatTextsAt(inbound: seq<RawMessage>, i: nat)
    requires i <= |ChatTexts(inbound)| && i < |inbound| && ParseIn(inbound[i]).Success?
    ensures i < |ChatTexts(inbound)| && ParseIn(inbound[i]).value.text == ChatTexts(inbound)[i]
  {
  }

  /** The chat payloads relayed for `texts`, sent by `username` in `room`. */
  function ChatPayloads(username: string, room: string, texts: seq<string>): (out: seq<WSOutMessage>)
    ensures |out| == |texts|
    ensures forall i | 0 <= i < |texts| :: out[i] == WSOutMessage(Chat, username, texts[i], room)
  {
    seq(|texts|, i requires 0 <= i < |texts| => WSOutMessage(Chat, username, texts[i], room))
  }

  /** Relaying one more text appends its payload: the payloads keep the order of the inbound messages. */
  lemma ChatPayloadsExtend(username: string, room: string, texts: seq<string>, i: nat)
    requires i < |texts|
    ensures ChatPayloads(username, room, texts[..i + 1])
         == ChatPayloads(username, room, texts[..i]) + [WSOutMessage(Chat, username, texts[i], room)]
  {
  }

  /**
    The net effect of a session on the registry: the new connection joins
    (and the announcement evicts the failing members of the room), then
    leaves. What remains is the registry before, less the failing members.
  */
  lemma {:induction false} SessionNetEffect(active: Registry, conn: WSConnection, failing: set<WSConnection>)
    requires ValidRegistry(active)
    requires forall r | r in active :: conn !in active[r]
    ensures var members := RoomMembers(active, conn.room);
      Removed(Evicted(Added(active, conn), (members + {conn}) * failing), conn) == Evicted(active, members * failing)
  {
    var members := RoomMembers(active, conn.room);
    var gone := (members + {conn}) * failing;
    var joined := Evicted(Added(active, conn), gone);
    AddedValid(active, conn);
    EvictedValid(Added(active, conn), gone);
    RemovedIsEvicted(joined, conn);
    EvictedTwice(Added(active, conn), gone, {conn});
    var lhs := Evicted(Added(active, conn), gone + {conn});
    var rhs := Evicted(active, members * failing);
    forall r, c
      ensures r in lhs && c in lhs[r] <==> r in rhs && c in rhs[r]
    {
      if r in rhs && c in rhs[r] {
        assert c != conn;
      }
    }
    SameMembersSameRegistry(lhs, rhs);
  }

  /**
    The receive loop: relays each inbound chat message to `room` until the
    inbound sequence ends or a message fails validation. When no member of the
    room has a failing socket, every member receives every relayed message, in
    order, and the registry does not change.
  */
  method RelayChats(
    manager: WSManager, username: string, room: string,
    inbound: seq<RawMessage>, failing: set<WSConnection>)
    returns (relayed: nat)
    requires manager.Valid()
    requires manager.Members(room) * failing == {}
    modifies manager, manager.Members(room)
    ensures manager.Valid()
    ensures relayed == |ChatTexts(inbound)|
    ensures manager.active == old(manager.active)
    ensures forall c | c in old(manager.Members(room)) ::
      c.sent == old(c.sent) + ChatPayloads(username, room, ChatTexts(inbound))
    ensures forall c | c in old(manager.Members(room)) :: c.accepted == old(c.accepted)
  {
    ghost var texts := ChatTexts(inbound);
    ghost var members := manager.Members(room);
    EvictedNobody(manager.active);
    ghost var payloads: seq<WSOutMessage> := [];
    relayed := 0;
    while relayed < |inbound| && ParseIn(inbound[relayed]).Success?
      invariant 0 <= relayed <= |texts|
      invariant manager.Valid()
      invariant manager.active == old(manager.active)
      invariant payloads == ChatPayloads(username, room, texts[..relayed])
      invariant forall c | c in members :: c.sent == old(c.sent) + payloads && c.accepted == old(c.accepted)
    {
      ChatTextsAt(inbound, relayed);
      var msg := ParseIn(inbound[relayed]).value;
      var payload := WSOutMessage(Chat, username, msg.text, room);
      assert manager.Members(room) == members;
      var _ := manager.Broadcast(room, payload, failing);
      assert forall c | c in members :: c.sent == old(c.sent) + payloads + [payload] && c.accepted == old(c.accepted);
      ChatPayloadsExtend(username, room, texts, relayed);
      payloads := payloads + [payload];
      relayed := relayed + 1;
    }
    assert texts[..relayed] == texts;
  }

  /**
    The connections whose sends fail during a session: the failing members
    already there, and the new connection itself when its own socket fails.
  */
  function SessionFailing(failing: set<WSConnection>, conn: WSConnection, joinerFails: bool): (s: set<WSConnection>)
    ensures failing <= s
    ensures conn in s <==> conn in failing || joinerFails
    ensures forall c | c in s :: c in failing || c == conn
  {
    if joinerFails then failing + {conn} else failing
  }

  /**
    Admission: creates the connection, registers it (after the handshake) and
    announces the join to the whole room, the new member included. The
    announcement evicts every member of the room whose socket fails, the new
    member too when `joinerFails`.
  */
  method Join(
    manager: WSManager, username: string, room: string, handshakeFails: bool, joinerFails: bool,
    failing: set<WSConnection>)
    returns (conn: WSConnection, ok: bool)
    requires manager.Valid()
    modifies manager, manager.Members(room)
    ensures manager.Valid()
    ensures fresh(conn) && conn.username == username && conn.room == room
    ensures ok == !handshakeFails
    ensures !ok ==> manager.active == old(manager.active)
    ensures ok ==>
      manager.active == Evicted(Added(old(manager.active), conn),
                                (old(manager.Members(room)) + {conn}) * SessionFailing(failing, conn, joinerFails))
    ensures ok ==>
      manager.Members(room) == (old(manager.Members(room)) + {conn}) - SessionFailing(failing, conn, joinerFails)
    ensures conn.sent == if ok && !joinerFails then [JoinNotice(username, room)] else []
    ensures !ok ==> forall c | c in old(manager.Members(room)) :: c.sent == old(c.sent)
    ensures forall c | c in old(manager.Members(room)) :: c.accepted == old(c.accepted)
    ensures ok ==> forall c | c in old(manager.Members(room)) ::
      c.sent == if c in failing then old(c.sent) else old(c.sent) + [JoinNotice(username, room)]
  {
    conn := new WSConnection(username, room);
    ok := manager.Connect(conn, handshakeFails);
    if ok {
      var sessionFailing := SessionFailing(failing, conn, joinerFails);
      ghost var joined := manager.active;
      assert manager.Members(room) == old(manager.Members(room)) + {conn};
      var _ := manager.Broadcast(room, JoinNotice(username, room), sessionFailing);
      RoomMembersEvicted(joined, room, (old(manager.Members(room)) + {conn}) * sessionFailing);
    }
  }

  /**
    Departure: removes the connection first, then announces the departure to
    the members that remain. No member left in the room has a failing socket.
  */
  method Leave(manager: WSManager, conn: WSConnection, failing: set<WSConnection>)
    requires manager.Valid()
    requires manager.Members(conn.room) * failing == {}
    modifies manager, manager.Members(conn.room)
    ensures manager.Valid()
    ensures manager.active == Removed(old(manager.active), conn)
    ensures conn.sent == old(conn.sent)
    ensures forall c | c in old(manager.Members(conn.room)) && c != conn ::
      c.sent == old(c.sent) + [LeaveNotice(conn.username, conn.room)]
    ensures forall c | c in old(manager.Members(conn.room)) :: c.accepted == old(c.accepted)
  {
    manager.Disconnect(conn);
    ghost var left := manager.active;
    RoomMembersRemoved(old(manager.active), conn);
    assert conn !in manager.Members(conn.room);
    assert manager.Members(conn.room) * failing == {};
    var _ := manager.Broadcast(conn.room, LeaveNotice(conn.username, conn.room), failing);
    EvictedNobody(left);
  }

  /**
    The rest of the session once admitted: the receive loop, then the
    departure. When the room has no failing member left, every member
    receives the relayed chat messages in order, and every member but the
    one leaving also receives the departure notice.
  */
  method Converse(manager: WSManager, conn: WSConnection, inbound: seq<RawMessage>, failing: set<WSConnection>)
    returns (outcome: SessionEnd)
    requires manager.Valid()
    requires manager.Members(conn.room) * failing == {}
    modifies manager, manager.Members(conn.room)
    ensures manager.Valid()
    ensures manager.active == Removed(old(manager.active), conn)
    ensures outcome.ClientClosed? || outcome.InvalidMessage?
    ensures outcome.ClientClosed? <==> |ChatTexts(inbound)| == |inbound|
    ensures outcome.InvalidMessage? ==> ParseIn(inbound[|ChatTexts(inbound)|]) == Failure(outcome.errors)
    ensures forall c | c in old(manager.Members(conn.room)) ::
      c.sent == old(c.sent) + ChatPayloads(conn.username, conn.room, ChatTexts(inbound))
                + (if c == conn then [] else [LeaveNotice(conn.username, conn.room)])
    ensures conn !in old(manager.Members(conn.room)) ==> conn.sent == old(conn.sent)
    ensures forall c | c in old(manager.Members(conn.room)) :: c.accepted == old(c.accepted)
  {
    var relayed := RelayChats(manager, conn.username, conn.room, inbound, failing);
    if relayed < |inbound| {
      outcome := InvalidMessage(ParseIn(inbound[relayed]).error);
    } else {
      outcome := ClientClosed;
    }
    Leave(manager, conn, failing);
  }

  /**
    The session of one client. Returns how it ended and the connection it
    created (null when the user name was rejected).
  */
  method Endpoint(
    manager: WSManager, query: map<string, string>, handshakeFails: bool, joinerFails: bool,
    inbound: seq<RawMessage>, failing: set<WSConnection>)
    returns (outcome: SessionEnd, conn: WSConnection?)
    requires manager.Valid()
    modifies manager, manager.Members(RoomParam(query))
    ensures manager.Valid()
    ensures RequireParam(query, "username").None? ==>
      outcome == Rejected(MissingParamCloseCode) && conn == null && manager.active == old(manager.active)
    ensures RequireParam(query, "username").Some? && handshakeFails ==>
      outcome == HandshakeFailed && manager.active == old(manager.active)
    ensures RequireParam(query, "username").Some? && !handshakeFails ==>
      outcome.ClientClosed? || outcome.InvalidMessage?
    ensures outcome.Rejected? || outcome.HandshakeFailed? ==>
      forall c | c in old(manager.Members(RoomParam(query))) :: c.sent == old(c.sent)
    ensures conn != null && (outcome.HandshakeFailed? || joinerFails) ==> conn.sent == []
    ensures forall c | c in old(manager.Members(RoomParam(query))) :: c.accepted == old(c.accepted)
    ensures RequireParam(query, "username").Some? ==>
      conn != null && fresh(conn) && conn.username == query["username"] && conn.room == RoomParam(query)
    ensures outcome.ClientClosed? || outcome.InvalidMessage? ==>
      && RequireParam(query, "username").Some? && !handshakeFails
      && (outcome.ClientClosed? <==> |ChatTexts(inbound)| == |inbound|)
      && (outcome.InvalidMessage? ==> ParseIn(inbound[|ChatTexts(inbound)|]) == Failure(outcome.errors))
      && conn != null && !Registered(manager.active, conn)
      && manager.active == Evicted(old(manager.active), old(manager.Members(RoomParam(query))) * failing)
      && (!joinerFails ==>
            conn.sent == [JoinNotice(conn.username, conn.room)] + ChatPayloads(conn.username, conn.room, ChatTexts(inbound)))
      && (forall c | c in old(manager.Members(RoomParam(query))) ::
            c.sent == if c in failing then old(c.sent)
                      else old(c.sent) + [JoinNotice(conn.username, conn.room)]
                           + ChatPayloads(conn.username, conn.room, ChatTexts(inbound))
                           + [LeaveNotice(conn.username, conn.room)])
  {
    var name := RequireParam(query, "username");
    if name.None? {
      return Rejected(MissingParamCloseCode), null;
    }
    var username := name.value;
    var room := RoomParam(query);
    ghost var active0 := manager.active;
    ghost var members0 := manager.Members(room);
    var ok;
    conn, ok := Join(manager, username, room, handshakeFails, joinerFails, failing);
    if !ok {
      return HandshakeFailed, conn;
    }
    var sessionFailing := SessionFailing(failing, conn, joinerFails);
    ghost var joined := manager.Members(room);
    assert forall r | r in active0 :: conn !in active0[r];
    SessionNetEffect(active0, conn, sessionFailing);
    assert members0 * sessionFailing == members0 * failing;

    label Joined:
    outcome := Converse(manager, conn, inbound, sessionFailing);
    forall c | c in members0
      ensures c.sent == if c in failing then old@Joined(c.sent)
        else old@Joined(c.sent) + ChatPayloads(username, room, ChatTexts(inbound)) + [LeaveNotice(username, room)]
      ensures c.accepted == old@Joined(c.accepted)
    {
      if c in failing {
        assert c !in joined;
      } else {
        assert c in joined && c != conn;
      }
    }
  }
}
