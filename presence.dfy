/** The presence registry of server/server.js: the process-wide
    `userSocketMap` (user id to socket id), the order in which
    `Object.keys` lists it, and the log of everything `io` has emitted.
    User ids are taken to be MongoDB ObjectId strings, which are neither
    array indices nor `__proto__`, so `Object.keys` lists them in insertion
    order. */
module Presence {
  import opened Records

  predicate NoDuplicates(s: seq<UserId>)
  {
    forall i, j :: 0 <= i < j < |s| ==> s[i] != s[j]
  }

  /** `s` with `x` taken out, the rest in their order. */
  function Without(s: seq<UserId>, x: UserId): (r: seq<UserId>)
    ensures forall y :: y in r <==> y in s && y != x
    ensures NoDuplicates(s) ==> NoDuplicates(r)
    ensures x !in s ==> r == s
  {
    if s == [] then []
    else
      var rest := Without(s[1..], x);
      assert NoDuplicates(s) ==> NoDuplicates(s[1..]) && s[0] !in rest by {
        if NoDuplicates(s) {
          forall i, j | 0 <= i < j < |s[1..]| ensures s[1..][i] != s[1..][j] {
            assert s[1..][i] == s[i + 1] && s[1..][j] == s[j + 1];
          }
        }
      }
      if s[0] == x then rest else [s[0]] + rest
  }

  lemma NoDuplicatesTail(s: seq<UserId>)
    requires NoDuplicates(s) && s != []
    ensures NoDuplicates(s[1..]) && s[0] !in s[1..]
  {
    forall i, j | 0 <= i < j < |s[1..]| ensures s[1..][i] != s[1..][j] {
      assert s[1..][i] == s[i + 1] && s[1..][j] == s[j + 1];
    }
    forall j | 0 <= j < |s[1..]| ensures s[1..][j] != s[0] { assert s[1..][j] == s[j + 1]; }
  }

  /** Deleting a key that sits at position `k` of a duplicate-free key list
      leaves the keys before and after it in their order. */
  lemma {:induction false} WithoutKeepsOrder(s: seq<UserId>, x: UserId, k: nat)
    requires NoDuplicates(s) && k < |s| && s[k] == x
    ensures Without(s, x) == s[..k] + s[k + 1..]
  {
    NoDuplicatesTail(s);
    if k == 0 {
      assert Without(s, x) == Without(s[1..], x);
      assert s[..0] + s[1..] == s[1..];
    } else {
      assert Without(s, x) == [s[0]] + Without(s[1..], x);
      WithoutKeepsOrder(s[1..], x, k - 1);
      assert s[..k] == [s[0]] + s[1..][..k - 1];
      assert s[k + 1..] == s[1..][k..];
    }
  }

  /** The `userId` query parameter of a handshake is truthy. */
  predicate Truthy(userId: Option<string>)
  {
    userId.Some? && userId.value != ""
  }

  /** The property key `delete userSocketMap[userId]` removes: a missing
      `userId` is `undefined`, which JavaScript turns into "undefined". */
  function PropertyKey(userId: Option<string>): (key: string)
    ensures userId.Some? ==> key == userId.value
    ensures userId.None? ==> key == "undefined"
  {
    match userId
    case Some(id) => id
    case None => "undefined"
  }

  /** One socket connection: its own id and the `userId` its handshake
      carried, which its disconnect handler closes over. */
  datatype Connection = Connection(socketId: SocketId, userId: Option<string>)

  class Hub {
    /** `userSocketMap`. */
    var socketOf: map<UserId, SocketId>
    /** `Object.keys(userSocketMap)`: for ObjectId keys, insertion order,
        and a key that is written again keeps its place. */
    var online: seq<UserId>
    /** Every event emitted, in order. */
    var events: seq<Event>

    ghost predicate Valid()
      reads this
    {
      NoDuplicates(online) && (forall u :: u in online <==> u in socketOf)
    }

    constructor ()
      ensures Valid()
      ensures socketOf == map[] && online == [] && events == []
    {
      socketOf, online, events := map[], [], [];
    }

    /** The `connection` handler: a truthy `userId` is bound to this socket,
        overwriting any earlier binding; then the key list is broadcast. */
    method Connect(userId: Option<string>, socketId: SocketId) returns (conn: Connection)
      requires Valid()
      modifies this
      ensures Valid()
      ensures conn == Connection(socketId, userId)
      ensures socketOf == if Truthy(userId) then old(socketOf)[userId.value := socketId] else old(socketOf)
      ensures online == if Truthy(userId) && userId.value !in old(socketOf) then old(online) + [userId.value]
                        else old(online)
      ensures events == old(events) + [GetOnlineUsers(online)]
      ensures forall u :: u in events[|events| - 1].userIds <==> u in socketOf
    {
      conn := Connection(socketId, userId);
      if Truthy(userId) {
        var u := userId.value;
        if u !in socketOf {
          online := online + [u];
        }
        socketOf := socketOf[u := socketId];
      }
      events := events + [GetOnlineUsers(online)];
    }

    /** The `disconnect` handler of `conn`: deletes the key of the user id
        the connection was opened with, whichever socket that key is bound
        to now (possibly a newer connection's), then broadcasts the key
        list. Deleting an absent key changes nothing. */
    method Disconnect(conn: Connection)
      requires Valid()
      modifies this
      ensures Valid()
      ensures socketOf == old(socketOf) - {PropertyKey(conn.userId)}
      ensures online == Without(old(online), PropertyKey(conn.userId))
      ensures PropertyKey(conn.userId) !in old(socketOf) ==> socketOf == old(socketOf) && online == old(online)
      ensures events == old(events) + [GetOnlineUsers(online)]
      ensures forall u :: u in events[|events| - 1].userIds <==> u in socketOf
    {
      var key := PropertyKey(conn.userId);
      socketOf := socketOf - {key};
      online := Without(online, key);
      events := events + [GetOnlineUsers(online)];
    }

    /** The disconnect handler as evidently intended: the key is deleted
        only while it is still bound to this connection's socket, so a
        stale connection closing leaves a newer one registered. */
    method DisconnectIfCurrent(conn: Connection)
      requires Valid()
      modifies this
      ensures Valid()
      ensures var key := PropertyKey(conn.userId);
              && (key in old(socketOf) && old(socketOf)[key] == conn.socketId ==>
                    socketOf == old(socketOf) - {key} && online == Without(old(online), key))
              && (!(key in old(socketOf) && old(socketOf)[key] == conn.socketId) ==>
                    socketOf == old(socketOf) && online == old(online))
      ensures events == old(events) + [GetOnlineUsers(online)]
      ensures forall u :: u in events[|events| - 1].userIds <==> u in socketOf
    {
      var key := PropertyKey(conn.userId);
      if key in socketOf && socketOf[key] == conn.socketId {
        socketOf := socketOf - {key};
        online := Without(online, key);
      }
      events := events + [GetOnlineUsers(online)];
    }

    /** `userSocketMap[userId]`. */
    method Lookup(userId: UserId) returns (socket: Option<SocketId>)
      ensures socket.Some? <==> userId in socketOf
      ensures socket.Some? ==> socket.value == socketOf[userId]
    {
      socket := if userId in socketOf then Some(socketOf[userId]) else None;
    }

    /** `io.to(socketId).emit("newMessage", view)`. */
    method EmitNewMessage(socketId: SocketId, view: View)
      requires Valid()
      modifies this
      ensures Valid()
      ensures socketOf == old(socketOf) && online == old(online)
      ensures events == old(events) + [NewMessage(socketId, view)]
    {
      events := events + [NewMessage(socketId, view)];
    }
  }

  /** Concrete sequence and map facts for the one-user scenarios, given to
      the solver up front so that their proofs stay cheap. */
  lemma OneUserFacts(u: UserId, older: SocketId, newer: SocketId)
    ensures Without([u], u) == []
    ensures map[u := older][u := newer] == map[u := newer]
    ensures map[u := newer] - {u} == map[]
    ensures [] + [u] == [u]
  {
    assert Without([u][1..], u) == [];
  }

  /** A user who reconnects and whose older connection then closes ends up
      offline although the newer connection is still open. */
  method StaleDisconnect(u: UserId, older: SocketId, newer: SocketId) returns (hub: Hub)
    requires u != ""
    ensures hub.Valid()
    ensures u !in hub.socketOf && hub.online == []
    ensures hub.events == [GetOnlineUsers([u]), GetOnlineUsers([u]), GetOnlineUsers([])]
  {
    OneUserFacts(u, older, newer);
    hub := new Hub();
    var first := hub.Connect(Some(u), older);
    var second := hub.Connect(Some(u), newer);
    hub.Disconnect(first);
  }

  /** Concrete sequence and map facts for `TwoUsers`, given to the solver
      up front so that the scenario's proof stays cheap. */
  lemma TwoUsersFacts(a: UserId, b: UserId, sa: SocketId, sb: SocketId)
    requires a != b
    ensures Without([a, b], a) == [b]
    ensures map[a := sa][b := sb] - {a} == map[b := sb]
    ensures [] + [a] == [a] && [a] + [b] == [a, b]
  {
    assert [a, b][1..] == [b];
    assert Without([b], a) == [b] by { assert Without([b][1..], a) == []; }
  }

  /** With the corrected handler, the same events as in `StaleDisconnect`
      leave the user online on the newer socket. */
  method StaleDisconnectIfCurrent(u: UserId, older: SocketId, newer: SocketId) returns (hub: Hub)
    requires u != "" && older != newer
    ensures hub.Valid()
    ensures hub.socketOf == map[u := newer] && hub.online == [u]
  {
    OneUserFacts(u, older, newer);
    hub := new Hub();
    var first := hub.Connect(Some(u), older);
    var second := hub.Connect(Some(u), newer);
    hub.DisconnectIfCurrent(first);
  }

  /** Two users connect and the first leaves: only the second is online,
      and every broadcast listed exactly the users online at that moment. */
  method TwoUsers(a: UserId, b: UserId, sa: SocketId, sb: SocketId) returns (hub: Hub)
    requires a != "" && b != "" && a != b
    ensures hub.Valid()
    ensures hub.socketOf == map[b := sb] && hub.online == [b]
    ensures hub.events == [GetOnlineUsers([a]), GetOnlineUsers([a, b]), GetOnlineUsers([b])]
  {
    TwoUsersFacts(a, b, sa, sb);
    hub := new Hub();
    var ca := hub.Connect(Some(a), sa);
    var cb := hub.Connect(Some(b), sb);
    hub.Disconnect(ca);
  }
}
