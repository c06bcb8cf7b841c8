/**
  The room registry and broadcaster of the chat service.

  A `WSManager` owns `active`, a map from room name to the set of
  connections currently in that room. Connections are objects compared by
  identity: two connections with the same user name and room are distinct
  members. The registry keeps two invariants: no room maps to an empty set,
  and a connection is stored only under its own room.

  The network is not modelled. A connection's socket is reduced to whether its
  handshake was accepted and the sequence of messages written to it; whether a
  handshake or a send fails is an input to the operation that performs it.
*/
module WsManager {
  import opened Schemas

  /** One client's WebSocket together with the user name and room it joined under. */
  class WSConnection {
    const username: string
    const room: string
    /** Whether the socket's handshake has been accepted. */
    var accepted: bool
    /** Every message written to the socket, oldest first. */
    var sent: seq<WSOutMessage>

    constructor (username: string, room: string)
      ensures this.username == username && this.room == room
      ensures !accepted && sent == []
    {
      this.username := username;
      this.room := room;
      accepted := false;
      sent := [];
    }

    /** The accept handshake; `fails` stands for a transport error, which leaves the socket as it was. */
    method Accept(fails: bool) returns (ok: bool)
      modifies this
      ensures ok == !fails
      ensures accepted == (old(accepted) || ok)
      ensures sent == old(sent)
    {
      ok := !fails;
      if ok {
        accepted := true;
      }
    }

    /** Writes one message to the socket; `fails` stands for a closed socket or a write error. */
    method SendJson(message: WSOutMessage, fails: bool) returns (ok: bool)
      modifies this
      ensures ok == !fails
      ensures sent == if ok then old(sent) + [message] else old(sent)
      ensures accepted == old(accepted)
    {
      ok := !fails;
      if ok {
        sent := sent + [message];
      }
    }
  }

  /** Room name to the connections in that room. */
  type Registry = map<string, set<WSConnection>>

  /** No room key is kept for an empty set. */
  predicate NoEmptyRooms(active: Registry)
  {
    forall room :: room in active ==> active[room] != {}
  }

  /** Every connection is stored under its own room. */
  predicate StoredUnderOwnRoom(active: Registry)
  {
    forall room, c :: room in active && c in active[room] ==> c.room == room
  }

  predicate ValidRegistry(active: Registry)
  {
    NoEmptyRooms(active) && StoredUnderOwnRoom(active)
  }

  /** The membership test the registry performs: is `conn` in the set of its own room? */
  predicate Registered(active: Registry, conn: WSConnection)
  {
    conn.room in active && conn in active[conn.room]
  }

  /** In a valid registry a connection is stored in some room exactly when it is registered. */
  lemma RegisteredAnywhere(active: Registry, conn: WSConnection, room: string)
    requires ValidRegistry(active)
    requires room in active && conn in active[room]
    ensures Registered(active, conn) && room == conn.room
  {
  }

  /** The registry after `conn` joins its room, the room's set being created if absent. */
  function Added(active: Registry, conn: WSConnection): (r: Registry)
    ensures r.Keys == active.Keys + {conn.room}
    ensures conn.room in r && conn in r[conn.room]
    ensures forall room, c | room in active && c in active[room] :: room in r && c in r[room]
    ensures forall room, c | room in r && c in r[room] ::
      (room in active && c in active[room]) || (room == conn.room && c == conn)
    ensures forall room :: room in active && room != conn.room ==> r[room] == active[room]
  {
    active[conn.room := (if conn.room in active then active[conn.room] else {}) + {conn}]
  }

  /**
    The registry after `conn` is removed: only the set of `conn.room` is
    touched, and the key is dropped when that set becomes empty. A connection
    that is not registered leaves the registry as it was.
  */
  function Removed(active: Registry, conn: WSConnection): (r: Registry)
    ensures forall room, c | room in r && c in r[room] ::
      room in active && c in active[room] && !(room == conn.room && c == conn)
    ensures forall room, c | room in active && c in active[room] && !(room == conn.room && c == conn) ::
      room in r && c in r[room]
    ensures r.Keys <= active.Keys
    ensures forall room :: room in active && room != conn.room ==> room in r && r[room] == active[room]
    ensures NoEmptyRooms(active) ==> NoEmptyRooms(r)
    ensures !Registered(active, conn) ==> r == active
  {
    if conn.room in active && conn in active[conn.room] then
      var roomSet := active[conn.room] - {conn};
      if roomSet == {} then
        assert forall c | c in active[conn.room] && c != conn :: c in roomSet;
        active - {conn.room}
      else
        active[conn.room := roomSet]
    else
      active
  }

  /** The registry with every connection in `gone` taken out and the rooms left empty dropped. */
  function Evicted(active: Registry, gone: set<WSConnection>): (r: Registry)
    ensures forall room, c | room in r && c in r[room] :: room in active && c in active[room] && c !in gone
    ensures forall room, c | room in active && c in active[room] && c !in gone :: room in r && c in r[room]
    ensures r.Keys <= active.Keys
    ensures NoEmptyRooms(r)
  {
    var r := map room | room in active && active[room] - gone != {} :: active[room] - gone;
    assert forall room, c | room in active && c in active[room] && c !in gone :: c in active[room] - gone;
    r
  }

  /** The connections in `room`; none when the room is absent. */
  function RoomMembers(active: Registry, room: string): set<WSConnection>
  {
    if room in active then active[room] else {}
  }

  /** Evicting takes the evicted connections out of every room's membership, and nothing else. */
  lemma {:induction false} RoomMembersEvicted(active: Registry, room: string, gone: set<WSConnection>)
    ensures RoomMembers(Evicted(active, gone), room) == RoomMembers(active, room) - gone
  {
    var r := Evicted(active, gone);
    if room in r {
      assert r[room] == active[room] - gone;
    } else if room in active {
      assert forall c | c in active[room] :: c in gone;
    }
  }

  /** Connecting adds the connection to its own room's membership. */
  lemma RoomMembersAdded(active: Registry, conn: WSConnection)
    ensures RoomMembers(Added(active, conn), conn.room) == RoomMembers(active, conn.room) + {conn}
  {
  }

  /** Removing a connection takes it out of its own room's membership and nothing else. */
  lemma {:induction false} RoomMembersRemoved(active: Registry, conn: WSConnection)
    ensures RoomMembers(Removed(active, conn), conn.room) == RoomMembers(active, conn.room) - {conn}
  {
    if Registered(active, conn) && active[conn.room] - {conn} != {} {
      assert Removed(active, conn)[conn.room] == active[conn.room] - {conn};
    }
  }

  /** A registry with no empty room is unchanged by evicting nobody. */
  lemma EvictedNobody(active: Registry)
    requires NoEmptyRooms(active)
    ensures Evicted(active, {}) == active
  {
    SameMembersSameRegistry(Evicted(active, {}), active);
  }

  /**
    The registry after the failing members of a broadcast are disconnected one
    by one, in the order `order` in which the broadcast visits them.
  */
  function EvictInOrder(active: Registry, order: seq<WSConnection>, failing: set<WSConnection>): Registry
  {
    if order == [] then active
    else
      var before := EvictInOrder(active, order[..|order| - 1], failing);
      var last := order[|order| - 1];
      if last in failing then Removed(before, last) else before
  }

  /** Two registries with the same memberships and no empty rooms are equal. */
  lemma {:induction false} SameMembersSameRegistry(a: Registry, b: Registry)
    requires NoEmptyRooms(a) && NoEmptyRooms(b)
    requires forall room, c :: room in a && c in a[room] <==> room in b && c in b[room]
    ensures a == b
  {
    forall room | room in a
      ensures room in b && a[room] == b[room]
    {
      var c :| c in a[room];
      assert room in b;
      assert a[room] == b[room];
    }
    forall room | room in b
      ensures room in a
    {
      var c :| c in b[room];
    }
  }

  /** Connecting keeps the registry valid. */
  lemma AddedValid(active: Registry, conn: WSConnection)
    requires ValidRegistry(active)
    ensures ValidRegistry(Added(active, conn))
  {
  }

  /** Removing keeps the registry valid. */
  lemma RemovedValid(active: Registry, conn: WSConnection)
    requires ValidRegistry(active)
    ensures ValidRegistry(Removed(active, conn))
  {
  }

  /** Evicting keeps the registry valid. */
  lemma EvictedValid(active: Registry, gone: set<WSConnection>)
    requires ValidRegistry(active)
    ensures ValidRegistry(Evicted(active, gone))
  {
  }

  /** Connecting the same connection twice gives the state of connecting it once. */
  lemma {:induction false} AddedIdempotent(active: Registry, conn: WSConnection)
    ensures Added(Added(active, conn), conn) == Added(active, conn)
  {
    var once := Added(active, conn);
    assert once[conn.room] + {conn} == once[conn.room];
  }

  /** Removing twice gives the state of removing once. */
  lemma {:induction false} RemovedIdempotent(active: Registry, conn: WSConnection)
    ensures Removed(Removed(active, conn), conn) == Removed(active, conn)
  {
    assert !Registered(Removed(active, conn), conn);
  }

  /**
    Connecting a connection that was not registered and then removing it
    restores the registry; in particular a room whose sole member leaves is
    absent, not present with an empty set.
  */
  lemma {:induction false} AddedThenRemoved(active: Registry, conn: WSConnection)
    requires ValidRegistry(active)
    requires !Registered(active, conn)
    ensures Removed(Added(active, conn), conn) == active
  {
    var r := Removed(Added(active, conn), conn);
    AddedValid(active, conn);
    SameMembersSameRegistry(r, active);
  }

  /** In a valid registry, removing one connection is evicting it. */
  lemma {:induction false} RemovedIsEvicted(active: Registry, conn: WSConnection)
    requires ValidRegistry(active)
    ensures Removed(active, conn) == Evicted(active, {conn})
  {
    var r := Removed(active, conn);
    var e := Evicted(active, {conn});
    forall room, c
      ensures room in r && c in r[room] <==> room in e && c in e[room]
    {
      if room in active && c in active[room] && c == conn {
        RegisteredAnywhere(active, conn, room);
      }
    }
    SameMembersSameRegistry(r, e);
  }

  /** Evicting in two steps is evicting the union at once. */
  lemma {:induction false} EvictedTwice(active: Registry, s: set<WSConnection>, t: set<WSConnection>)
    ensures Evicted(Evicted(active, s), t) == Evicted(active, s + t)
  {
    SameMembersSameRegistry(Evicted(Evicted(active, s), t), Evicted(active, s + t));
  }

  /**
    The order in which a broadcast visits the snapshot does not matter: the
    registry ends with exactly the failing visited connections evicted.
  */
  lemma {:induction false} EvictInOrderIsEvicted(active: Registry, order: seq<WSConnection>, failing: set<WSConnection>)
    requires ValidRegistry(active)
    ensures EvictInOrder(active, order, failing) == Evicted(active, (set c | c in order) * failing)
  {
    if order == [] {
      assert (set c | c in order) * failing == {};
      SameMembersSameRegistry(active, Evicted(active, {}));
    } else {
      var prefix := order[..|order| - 1];
      var last := order[|order| - 1];
      var visited := (set c | c in prefix) * failing;
      EvictInOrderIsEvicted(active, prefix, failing);
      var before := Evicted(active, visited);
      assert (set c | c in order) == (set c | c in prefix) + {last} by {
        assert order == prefix + [last];
      }
      if last in failing {
        EvictedValid(active, visited);
        RemovedIsEvicted(before, last);
        EvictedTwice(active, visited, {last});
        assert visited + {last} == (set c | c in order) * failing;
      } else {
        assert visited == (set c | c in order) * failing;
      }
    }
  }

  /** The connection registry. */
  class WSManager {
    var active: Registry

    predicate Valid()
      reads this
    {
      ValidRegistry(active)
    }

    constructor ()
      ensures Valid() && active == map[]
    {
      active := map[];
    }

    /** The members of `room`, empty when the room is absent; all of them belong to `room`. */
    function Members(room: string): (s: set<WSConnection>)
      reads this
      requires Valid()
      ensures forall c :: c in s ==> c.room == room
      ensures s == {} <==> room !in active
      ensures s == RoomMembers(active, room)
    {
      RoomMembers(active, room)
    }

    /**
      Accepts the handshake and adds `conn` to its room. When the handshake
      fails the failure propagates and nothing is registered.
    */
    method Connect(conn: WSConnection, handshakeFails: bool) returns (ok: bool)
      requires Valid()
      modifies this, conn
      ensures Valid()
      ensures ok == !handshakeFails
      ensures active == if ok then Added(old(active), conn) else old(active)
      ensures conn.accepted == (old(conn.accepted) || ok)
      ensures conn.sent == old(conn.sent)
    {
      ok := conn.Accept(handshakeFails);
      if ok {
        var roomSet := if conn.room in active then active[conn.room] else {};
        active := active[conn.room := roomSet + {conn}];
        AddedValid(old(active), conn);
      }
    }

    /** Removes `conn` from its room, dropping the room when it empties; a no-op when not registered. */
    method Remove(conn: WSConnection)
      requires Valid()
      modifies this
      ensures Valid()
      ensures active == Removed(old(active), conn)
    {
      if conn.room in active && conn in active[conn.room] {
        var roomSet := active[conn.room] - {conn};
        if roomSet == {} {
          active := active - {conn.room};
        } else {
          active := active[conn.room := roomSet];
        }
      }
      RemovedValid(old(active), conn);
    }

    /** The public removal; logging is not modelled. */
    method Disconnect(conn: WSConnection)
      requires Valid()
      modifies this
      ensures Valid()
      ensures active == Removed(old(active), conn)
    {
      Remove(conn);
    }

    /**
      One step of a broadcast: writes `message` to `conn`, and on failure
      disconnects it instead of letting the error escape.
    */
    method SendOrEvict(conn: WSConnection, message: WSOutMessage, fails: bool) returns (ok: bool)
      requires Valid()
      modifies this, conn
      ensures Valid()
      ensures ok == !fails
      ensures conn.sent == if ok then old(conn.sent) + [message] else old(conn.sent)
      ensures active == if ok then old(active) else Removed(old(active), conn)
      ensures conn.accepted == old(conn.accepted)
    {
      ok := conn.SendJson(message, fails);
      if !ok {
        Disconnect(conn);
      }
    }

    /**
      Sends `message` to each member of a snapshot of `room` taken at the
      start. A member whose send fails (one in `failing`) is disconnected and
      the loop goes on with the rest. Returns the members that received it.
    */
    method Broadcast(room: string, message: WSOutMessage, failing: set<WSConnection>)
      returns (delivered: set<WSConnection>)
      requires Valid()
      modifies this, Members(room)
      ensures Valid()
      ensures delivered == old(Members(room)) - failing
      ensures active == Evicted(old(active), old(Members(room)) * failing)
      ensures old(Members(room)) * failing == {} ==> active == old(active)
      ensures forall c | c in old(Members(room)) ::
        c.sent == (if c in failing then old(c.sent) else old(c.sent) + [message])
      ensures forall c | c in old(Members(room)) :: c.accepted == old(c.accepted)
    {
      var snapshot := Members(room);
      var remaining := snapshot;
      ghost var order: seq<WSConnection> := [];
      delivered := {};
      while remaining != {}
        invariant remaining <= snapshot
        invariant (set c | c in order) == snapshot - remaining
        invariant Valid()
        invariant active == EvictInOrder(old(active), order, failing)
        invariant delivered == (snapshot - remaining) - failing
        invariant forall c | c in snapshot ::
          c.sent == (if c in delivered then old(c.sent) + [message] else old(c.sent))
        invariant forall c | c in snapshot :: c.accepted == old(c.accepted)
        decreases remaining
      {
        var conn :| conn in remaining;
        var ok := SendOrEvict(conn, message, conn in failing);
        if ok {
          delivered := delivered + {conn};
        }
        assert (order + [conn])[..|order|] == order;
        assert (set c | c in order + [conn]) == (set c | c in order) + {conn};
        order := order + [conn];
        remaining := remaining - {conn};
      }
      EvictInOrderIsEvicted(old(active), order, failing);
      assert (set c | c in order) == snapshot;
      EvictedNobody(old(active));
    }
  }

  /** A connection that was registered and failed during a broadcast to its room is no longer registered. */
  lemma BroadcastEvictsFailing(active: Registry, room: string, failing: set<WSConnection>, conn: WSConnection)
    requires ValidRegistry(active)
    requires room in active && conn in active[room] && conn in failing
    ensures !Registered(Evicted(active, active[room] * failing), conn)
  {
  }

  /**
    A broadcast to one room leaves every other room exactly as it was, and a
    healthy member of the room stays registered.
  */
  lemma {:induction false} BroadcastIsolation(active: Registry, room: string, failing: set<WSConnection>)
    requires ValidRegistry(active)
    requires room in active
    ensures var r := Evicted(active, active[room] * failing);
      && (forall other | other in active && other != room :: other in r && r[other] == active[other])
      && (forall c | c in active[room] && c !in failing :: Registered(r, c))
  {
    var r := Evicted(active, active[room] * failing);
    forall other | other in active && other != room
      ensures other in r && r[other] == active[other]
    {
      forall d | d in active[other]
        ensures d !in active[room]
      {
        assert d.room == other;
      }
      assert active[other] - active[room] * failing == active[other];
    }
    forall c | c in active[room] && c !in failing
      ensures Registered(r, c)
    {
      assert c.room == room && c !in active[room] * failing;
      assert room in r && c in r[room];
    }
  }

  /** Two lobby members both receive a broadcast to the lobby; carol, in another room, does not. */
  method LobbyScenario()
  {
    var manager := new WSManager();
    var alice := new WSConnection("alice", "lobby");
    var bob := new WSConnection("bob", "lobby");
    var carol := new WSConnection("carol", "dev");
    var ok := manager.Connect(alice, false);
    ok := manager.Connect(bob, false);
    ok := manager.Connect(carol, false);
    assert manager.Members("lobby") == {alice, bob};

    var hello := WSOutMessage(System, "system", "alice joined", "lobby");
    var delivered := manager.Broadcast("lobby", hello, {});
    assert delivered == {alice, bob};
    assert alice.sent == [hello] && bob.sent == [hello] && carol.sent == [];
  }

  /** After alice leaves the lobby, a broadcast there reaches only bob. */
  method LeaveScenario()
  {
    var manager := new WSManager();
    var alice := new WSConnection("alice", "lobby");
    var bob := new WSConnection("bob", "lobby");
    var ok := manager.Connect(alice, false);
    ok := manager.Connect(bob, false);
    ghost var registry := manager.active;
    manager.Disconnect(alice);
    RoomMembersRemoved(registry, alice);
    assert manager.Members("lobby") == {bob};

    var bye := WSOutMessage(System, "system", "alice left", "lobby");
    var delivered := manager.Broadcast("lobby", bye, {});
    assert delivered == {bob};
    assert alice.sent == [] && bob.sent == [bye];
  }

  /** A member whose socket fails is evicted; the two healthy members still receive. */
  method FailingSocketScenario()
  {
    var manager := new WSManager();
    var carol := new WSConnection("carol", "dev");
    var dave := new WSConnection("dave", "dev");
    var erin := new WSConnection("erin", "dev");
    ghost var registry := manager.active;
    var ok := manager.Connect(carol, false);
    RoomMembersAdded(registry, carol);
    registry := manager.active;
    ok := manager.Connect(dave, false);
    RoomMembersAdded(registry, dave);
    registry := manager.active;
    ok := manager.Connect(erin, false);
    RoomMembersAdded(registry, erin);
    assert manager.Members("dev") == {carol, dave, erin};

    var note := WSOutMessage(Chat, "carol", "hi", "dev");
    registry := manager.active;
    var delivered := manager.Broadcast("dev", note, {dave});
    assert delivered == {carol, erin};
    assert carol.sent == [note] && erin.sent == [note] && dave.sent == [];
    RoomMembersEvicted(registry, "dev", {dave});
    assert manager.Members("dev") == {carol, erin};
    assert !Registered(manager.active, dave);
  }

  /** Disconnecting a connection that never connected changes nothing. */
  method StrangerScenario()
  {
    var manager := new WSManager();
    var bob := new WSConnection("bob", "lobby");
    var ok := manager.Connect(bob, false);
    var stranger := new WSConnection("mallory", "lobby");
    ghost var registry := manager.active;
    manager.Disconnect(stranger);
    assert manager.active == registry;
  }

  /** The sole member of a room leaves: the room is gone, not kept with an empty set. */
  method SoleMemberScenario()
  {
    var manager := new WSManager();
    var solo := new WSConnection("sam", "x");
    var ok := manager.Connect(solo, false);
    assert "x" in manager.active;
    manager.Disconnect(solo);
    assert "x" !in manager.active;
  }
}
