/** `usePeerJSSignaling`: signaling over PeerJS data connections, with the
    room's message log in storage as a backup and a registry of peer ids
    under `room_peers_<room>` from which a joining peer learns whom to dial.

    PeerJS itself is outside the model. A data connection is a record of
    its remote peer id, whether it is open, and whether sending on it
    throws; the events PeerJS delivers (a connection opening, data
    arriving, a close, an error) are the inputs of the handlers below, and
    `peer.connect` is recorded as a dial in `dialed`. */
module PeerSignaling {
  import opened Basics
  import opened Signals
  import opened SafeStorage

  const BufferSize := 50
  const StoredSize := 50

  datatype Conn = Conn(peer: string, open: bool, sendFails: bool)

  /** `peerRef.current`: present once the hook has created its peer, whose
      id is known once the peer server has assigned it. */
  datatype PeerHandle = PeerHandle(id: Option<string>)

  /** `conns` is `connectionsRef.current` in insertion order; `dialed`
      records each `peer.connect` call. */
  datatype State = State(
    isConnected: bool,
    connectionError: Option<string>,
    users: seq<string>,
    messages: seq<Message>,
    conns: seq<Conn>,
    currentUser: string,
    peer: Option<PeerHandle>,
    dialed: seq<string>)

  /** `peerRef.current?.id` */
  function OwnId(st: State): Option<string> {
    if st.peer.Some? then st.peer.value.id else None
  }

  // ---------------------------------------------------------------------
  // The connection map

  function PeersOf(conns: seq<Conn>): (r: seq<string>)
    ensures |r| == |conns|
    ensures forall i :: 0 <= i < |conns| ==> r[i] == conns[i].peer
  {
    if conns == [] then [] else [conns[0].peer] + PeersOf(conns[1..])
  }

  lemma PeersOfMembers(conns: seq<Conn>)
    ensures forall c :: c in conns ==> c.peer in PeersOf(conns)
    ensures forall p :: p in PeersOf(conns) ==> exists c :: c in conns && c.peer == p
  {
    var ps := PeersOf(conns);
    forall c | c in conns
      ensures c.peer in ps
    {
      var i :| 0 <= i < |conns| && conns[i] == c;
      assert ps[i] == c.peer;
    }
    forall p | p in ps
      ensures exists c :: c in conns && c.peer == p
    {
      var i :| 0 <= i < |ps| && ps[i] == p;
      assert conns[i] in conns;
    }
  }

  /** `connectionsRef.current.set(c.peer, c)`: an existing entry is replaced
      in place, a new one goes last. */
  function SetConn(conns: seq<Conn>, c: Conn): (r: seq<Conn>)
    ensures c in r
    ensures forall d :: d in r ==> d == c || d in conns
    ensures forall d :: d in conns && d.peer != c.peer ==> d in r
  {
    if conns == [] then [c]
    else if conns[0].peer == c.peer then
      assert forall d :: d in conns <==> d == conns[0] || d in conns[1..];
      [c] + conns[1..]
    else
      var rest := SetConn(conns[1..], c);
      assert forall d :: d in conns <==> d == conns[0] || d in conns[1..];
      [conns[0]] + rest
  }

  lemma PeersOfCons(h: Conn, t: seq<Conn>)
    ensures PeersOf([h] + t) == [h.peer] + PeersOf(t)
  {
    assert ([h] + t)[1..] == t;
  }

  /** On peer ids, `SetConn` is the presence-list update: the map's keys
      gain `c.peer` if it was absent and are otherwise unchanged, in order. */
  lemma {:induction false} SetConnPeers(conns: seq<Conn>, c: Conn)
    ensures PeersOf(SetConn(conns, c)) == AddIfAbsent(PeersOf(conns), c.peer)
  {
    if conns == [] {
      assert PeersOf([c]) == [c.peer];
    } else {
      var h := conns[0];
      var t := conns[1..];
      assert conns == [h] + t;
      PeersOfCons(h, t);
      var tail := PeersOf(t);
      var ps := [h.peer] + tail;
      if h.peer == c.peer {
        PeersOfCons(c, t);
      } else {
        var rest := SetConn(t, c);
        assert SetConn(conns, c) == [h] + rest;
        SetConnPeers(t, c);
        PeersOfCons(h, rest);
        AddIfAbsentCons(h.peer, tail, c.peer);
      }
    }
  }

  /** `connectionsRef.current.delete(peer)` */
  function DropConn(conns: seq<Conn>, peer: string): (r: seq<Conn>)
    ensures forall d :: d in r <==> d in conns && d.peer != peer
    ensures forall q :: q in PeersOf(r) <==> q in PeersOf(conns) && q != peer
    ensures NoDuplicates(PeersOf(conns)) ==> NoDuplicates(PeersOf(r))
  {
    if conns == [] then []
    else
      var rest := DropConn(conns[1..], peer);
      assert PeersOf(conns) == [conns[0].peer] + PeersOf(conns[1..]);
      assert NoDuplicates(PeersOf(conns)) ==> conns[0].peer !in PeersOf(conns[1..]);
      if conns[0].peer == peer then rest
      else
        var r := [conns[0]] + rest;
        assert PeersOf(r) == [conns[0].peer] + PeersOf(rest);
        r
  }

  // ---------------------------------------------------------------------
  // Sending

  /** The peers `sendMessage` reaches: every open connection whose send
      does not throw, in map order. A throwing send is caught and the loop
      goes on. */
  function Delivered(conns: seq<Conn>): (r: seq<string>)
    ensures forall p :: p in r <==> exists c :: c in conns && c.open && !c.sendFails && c.peer == p
  {
    if conns == [] then []
    else
      var rest := Delivered(conns[1..]);
      assert forall d :: d in conns <==> d == conns[0] || d in conns[1..];
      if conns[0].open && !conns[0].sendFails then [conns[0].peer] + rest else rest
  }

  /** The fan-out treats each connection on its own: it distributes over
      splitting the map. */
  lemma {:induction false} DeliveredAppend(a: seq<Conn>, b: seq<Conn>)
    ensures Delivered(a + b) == Delivered(a) + Delivered(b)
  {
    if a == [] {
      assert a + b == b;
    } else {
      assert (a + b)[1..] == a[1..] + b;
      DeliveredAppend(a[1..], b);
    }
  }

  /** `[...prev.slice(-49), message]` */
  function Buffer(prev: seq<Message>, m: Message): (r: seq<Message>)
    ensures |r| <= BufferSize && |r| > 0 && r[|r| - 1] == m
    ensures r[..|r| - 1] == Last(prev, BufferSize - 1)
  {
    Last(prev, BufferSize - 1) + [m]
  }

  /** `[...existing.slice(-50), message]` */
  function StoredLog(existing: seq<Message>, m: Message): (r: seq<Message>)
    ensures |r| <= StoredSize + 1 && |r| > 0 && r[|r| - 1] == m
    ensures r[..|r| - 1] == Last(existing, StoredSize)
  {
    Last(existing, StoredSize) + [m]
  }

  datatype Sent = Sent(state: State, store: Store, delivered: seq<string>)

  /** `sendMessage`: stamped with the room, the current user, the clock and
      a fresh id; fanned out; buffered; then appended to the stored log by a
      plain write, whose failure (or unreadable stored data) only skips the
      backup. */
  function SendMessage(st: State, s: Store, medium: Medium, encode: Serialiser,
                       room: string, m: Message, now: int, id: string): (r: Sent)
    requires Valid(s)
    ensures Valid(r.store)
    ensures var sent := Stamp(m, room, now, id).(userId := Some(st.currentUser));
            r.state == st.(messages := Buffer(st.messages, sent)) &&
            r.delivered == Delivered(st.conns) &&
            (ReadValue(s, RoomKey(room)).MessageLog? ==>
               var log := StoredLog(ReadValue(s, RoomKey(room)).msgs, sent);
               var w := RawWrite(s, medium, RoomKey(room), StoredValue(encode(MessageLog(log)), MessageLog(log)));
               r.store == if w.Written? then w.store else s) &&
            (!ReadValue(s, RoomKey(room)).MessageLog? ==> r.store == s)
  {
    var sent := Stamp(m, room, now, id).(userId := Some(st.currentUser));
    var st' := st.(messages := Buffer(st.messages, sent));
    match ReadValue(s, RoomKey(room))
    case MessageLog(existing) =>
      var log := StoredLog(existing, sent);
      (match RawWrite(s, medium, RoomKey(room), StoredValue(encode(MessageLog(log)), MessageLog(log)))
       case Written(t) => Sent(st', t, Delivered(st.conns))
       case Threw(_) => Sent(st', s, Delivered(st.conns)))
    case _ => Sent(st', s, Delivered(st.conns))
  }

  // ---------------------------------------------------------------------
  // Connections

  /** `connectToPeer`: dials a peer unless there is no peer object yet or
      the map already holds a connection to that id. */
  function ConnectToPeer(st: State, peerId: string): (r: State)
    ensures st.peer.None? || peerId in PeersOf(st.conns) ==> r == st
    ensures st.peer.Some? && peerId !in PeersOf(st.conns) ==> r == st.(dialed := st.dialed + [peerId])
  {
    if st.peer.None? || peerId in PeersOf(st.conns) then st
    else st.(dialed := st.dialed + [peerId])
  }

  /** Once the map holds a connection to a peer, dialing that peer again is
      a no-op. */
  lemma ConnectToExisting(st: State, c: Conn)
    requires c in st.conns
    ensures ConnectToPeer(st, c.peer) == st
  {
    PeersOfMembers(st.conns);
  }

  /** The `open` event of a connection, dialed or incoming: the connection
      enters the map and the peer the user list (the join notice a dialed
      connection sends is output). */
  function Opened(st: State, peerId: string, sendFails: bool): (r: State)
    ensures Conn(peerId, true, sendFails) in r.conns
    ensures PeersOf(r.conns) == AddIfAbsent(PeersOf(st.conns), peerId)
    ensures forall d :: d in st.conns && d.peer != peerId ==> d in r.conns
    ensures forall d :: d in r.conns ==> d == Conn(peerId, true, sendFails) || d in st.conns
    ensures r.users == AddIfAbsent(st.users, peerId)
    ensures r == st.(conns := r.conns, users := r.users)
  {
    SetConnPeers(st.conns, Conn(peerId, true, sendFails));
    st.(conns := SetConn(st.conns, Conn(peerId, true, sendFails)), users := AddIfAbsent(st.users, peerId))
  }

  /** The `data` event. `captured` is the `users` list of the render whose
      handler was installed; the guard tests it, not the current list, so a
      `user-joined` for an id the captured list already has falls through to
      the message buffer. */
  function Data(st: State, captured: seq<string>, m: Message): (r: State)
    ensures r.conns == st.conns && r.isConnected == st.isConnected
    ensures m.kind == UserJoined && Truthy(m.userId) && m.userId.value !in captured ==>
              r.users == AddIfAbsent(st.users, m.userId.value) && r.messages == st.messages
    ensures m.kind == UserLeft ==>
              r.messages == st.messages &&
              (m.userId.Some? ==> r.users == Without(st.users, m.userId.value)) &&
              (m.userId.None? ==> r.users == st.users)
    ensures m.kind != UserLeft && !(m.kind == UserJoined && Truthy(m.userId) && m.userId.value !in captured) ==>
              r.users == st.users && r.messages == Buffer(st.messages, m)
  {
    if m.kind == UserJoined && Truthy(m.userId) && m.userId.value !in captured then
      st.(users := AddIfAbsent(st.users, m.userId.value))
    else if m.kind == UserLeft then
      match m.userId
      case Some(u) => st.(users := Without(st.users, u))
      case None => st
    else
      st.(messages := Buffer(st.messages, m))
  }

  /** A join notice for someone the handler's render already listed is not
      a presence update: it lands in the message buffer. */
  lemma StaleJoinIsBuffered(st: State, captured: seq<string>, m: Message)
    requires m.kind == UserJoined && m.userId.Some? && m.userId.value in captured
    ensures Data(st, captured, m).users == st.users
    ensures Data(st, captured, m).messages == Buffer(st.messages, m)
  {
  }

  /** The `close` event: the peer leaves both the map and the user list. */
  function Closed(st: State, peerId: string): (r: State)
    ensures peerId !in PeersOf(r.conns) && peerId !in r.users
    ensures forall q :: q != peerId ==> (q in PeersOf(r.conns) <==> q in PeersOf(st.conns))
    ensures forall q :: q != peerId ==> (q in r.users <==> q in st.users)
    ensures r.messages == st.messages
  {
    st.(conns := DropConn(st.conns, peerId), users := Without(st.users, peerId))
  }

  /** The `error` event of a dialed connection: the map entry goes, the user
      list stays. */
  function Errored(st: State, peerId: string): (r: State)
    ensures peerId !in PeersOf(r.conns)
    ensures forall q :: q != peerId ==> (q in PeersOf(r.conns) <==> q in PeersOf(st.conns))
    ensures r.users == st.users && r.messages == st.messages
  {
    st.(conns := DropConn(st.conns, peerId))
  }

  /** The peer object's own `open`, `error` and `disconnected` events. */
  function PeerOpened(st: State, id: string): (r: State)
    ensures r.isConnected && r.connectionError == None && OwnId(r) == Some(id)
    ensures r.users == st.users && r.conns == st.conns && r.messages == st.messages
  {
    st.(isConnected := true, connectionError := None, peer := Some(PeerHandle(Some(id))))
  }

  function PeerErrored(st: State, message: string): (r: State)
    ensures !r.isConnected && r.connectionError == Some("Connection error: " + message)
    ensures r.users == st.users && r.conns == st.conns && r.messages == st.messages
  {
    st.(isConnected := false, connectionError := Some("Connection error: " + message))
  }

  function PeerDisconnected(st: State): (r: State)
    ensures !r.isConnected && r.connectionError == st.connectionError
    ensures r.users == st.users && r.conns == st.conns && r.messages == st.messages
  {
    st.(isConnected := false)
  }

  /** The hook's invariant: no user listed twice, at most one connection per
      peer, at most 50 buffered messages. */
  predicate Consistent(st: State) {
    NoDuplicates(st.users) && NoDuplicates(PeersOf(st.conns)) && |st.messages| <= BufferSize
  }

  lemma OpenedKeepsConsistent(st: State, peerId: string, sendFails: bool)
    requires Consistent(st)
    ensures Consistent(Opened(st, peerId, sendFails))
  {
    SetConnPeers(st.conns, Conn(peerId, true, sendFails));
  }

  lemma DataKeepsConsistent(st: State, captured: seq<string>, m: Message)
    requires Consistent(st)
    ensures Consistent(Data(st, captured, m))
  {
  }

  lemma ClosedKeepsConsistent(st: State, peerId: string)
    requires Consistent(st)
    ensures Consistent(Closed(st, peerId))
    ensures Consistent(Errored(st, peerId))
  {
  }

  // ---------------------------------------------------------------------
  // The peer registry, joining and leaving

  /** `room_peers_${roomId}`; it is itself a room key (of the room
      `peers_<room>`). */
  function PeersKey(room: string): (k: string)
    ensures IsRoomKey(k)
  {
    RoomKey("peers_" + room)
  }

  /** `JSON.parse(getItem(key) || "[]")` read as a list of peer ids; `None`
      when it throws or is not such a list. */
  function ReadPeers(s: Store, room: string): (r: Option<seq<string>>)
    ensures !HasData(s, PeersKey(room)) ==> r == Some([])
  {
    match ReadValue(s, PeersKey(room))
    case PeerIds(ids) => Some(ids)
    case MessageLog(ms) => if ms == [] then Some([]) else None
    case _ => None
  }

  /** A listed id `joinRoom` dials: not the hook's own id and not a peer the
      map already holds. */
  predicate Eligible(own: Option<string>, connected: seq<string>, p: string) {
    Some(p) != own && p !in connected
  }

  /** The eligible ids of a list, in list order. */
  function Dialable(own: Option<string>, connected: seq<string>, ids: seq<string>): (r: seq<string>)
    ensures forall p :: p in r <==> p in ids && Eligible(own, connected, p)
  {
    Filter(ids, p => Eligible(own, connected, p))
  }

  /** Dials every listed peer but oneself, in list order; without a peer
      object every dial is a no-op. A dial does not enter the map (only an
      `open` does), so an id listed twice is dialed twice. */
  function DialAll(st: State, ids: seq<string>): (r: State)
    ensures r == st.(dialed := r.dialed)
    ensures st.peer.None? ==> r.dialed == st.dialed
    ensures st.peer.Some? ==> r.dialed == st.dialed + Dialable(OwnId(st), PeersOf(st.conns), ids)
    decreases |ids|
  {
    if ids == [] then st
    else
      var next := if Some(ids[0]) != OwnId(st) then ConnectToPeer(st, ids[0]) else st;
      var r := DialAll(next, ids[1..]);
      DialStep(st, ids, next, r);
      r
  }

  /** One step of `DialAll`: the first id, then the rest. */
  lemma DialStep(st: State, ids: seq<string>, next: State, r: State)
    requires ids != []
    requires next == if Some(ids[0]) != OwnId(st) then ConnectToPeer(st, ids[0]) else st
    requires r == next.(dialed := r.dialed)
    requires next.peer.None? ==> r.dialed == next.dialed
    requires next.peer.Some? ==> r.dialed == next.dialed + Dialable(OwnId(next), PeersOf(next.conns), ids[1..])
    ensures r == st.(dialed := r.dialed)
    ensures st.peer.None? ==> r.dialed == st.dialed
    ensures st.peer.Some? ==> r.dialed == st.dialed + Dialable(OwnId(st), PeersOf(st.conns), ids)
  {
    var own := OwnId(st);
    var connected := PeersOf(st.conns);
    assert next.conns == st.conns && next.peer == st.peer;
    if st.peer.Some? {
      DialableCons(own, connected, ids);
    }
  }

  lemma DialableCons(own: Option<string>, connected: seq<string>, ids: seq<string>)
    requires ids != []
    ensures Dialable(own, connected, ids)
              == (if Eligible(own, connected, ids[0]) then [ids[0]] else []) + Dialable(own, connected, ids[1..])
  {
  }

  datatype Joined = Joined(state: State, store: Store)

  /** `joinRoom`: the user becomes current and joins the user list; the
      hook's own peer id is added to the registry if absent and truthy; then
      every other listed peer is dialed. An unreadable registry, or a failed
      registry write, skips the rest. */
  function JoinRoom(st: State, s: Store, medium: Medium, encode: Serialiser,
                    room: string, userId: string): (r: Joined)
    requires Valid(s)
    ensures Valid(r.store)
    ensures r.state.currentUser == userId
    ensures r.state.users == AddIfAbsent(st.users, userId)
    ensures r.state.conns == st.conns && r.state.messages == st.messages
    ensures r.state == st.(currentUser := userId, users := r.state.users, dialed := r.state.dialed)
    ensures ReadPeers(s, room).None? ==> r.store == s && r.state.dialed == st.dialed
    ensures st.peer.None? ==> r.state.dialed == st.dialed
    ensures ReadPeers(s, room).Some? && !(Truthy(OwnId(st)) && OwnId(st).value !in ReadPeers(s, room).value) ==>
              r.store == s &&
              (st.peer.Some? ==> r.state.dialed == st.dialed + Dialable(OwnId(st), PeersOf(st.conns), ReadPeers(s, room).value))
    ensures ReadPeers(s, room).Some? && Truthy(OwnId(st)) && OwnId(st).value !in ReadPeers(s, room).value ==>
              var ids' := ReadPeers(s, room).value + [OwnId(st).value];
              var w := RawWrite(s, medium, PeersKey(room), StoredValue(encode(PeerIds(ids')), PeerIds(ids')));
              (w.Written? ==> r.store == w.store &&
                              r.state.dialed == st.dialed + Dialable(OwnId(st), PeersOf(st.conns), ids')) &&
              (w.Threw? ==> r.store == s && r.state.dialed == st.dialed)
  {
    var st1 := st.(currentUser := userId, users := AddIfAbsent(st.users, userId));
    match ReadPeers(s, room)
    case None => Joined(st1, s)
    case Some(ids) =>
      if Truthy(OwnId(st)) && OwnId(st).value !in ids then
        var ids' := ids + [OwnId(st).value];
        (match RawWrite(s, medium, PeersKey(room), StoredValue(encode(PeerIds(ids')), PeerIds(ids')))
         case Written(t) => Joined(DialAll(st1, ids'), t)
         case Threw(_) => Joined(st1, s))
      else
        Joined(DialAll(st1, ids), s)
  }

  /** What a join leaves in the registry: the hook's own id appended when
      it was missing and the write went through, the registry as it was
      otherwise. */
  lemma JoinRegistryContents(st: State, s: Store, medium: Medium, encode: Serialiser,
                             room: string, userId: string)
    requires Valid(s) && ReadPeers(s, room).Some?
    ensures var ids := ReadPeers(s, room).value;
            var after := ReadPeers(JoinRoom(st, s, medium, encode, room, userId).store, room);
            (Truthy(OwnId(st)) && OwnId(st).value !in ids ==>
               var w := RawWrite(s, medium, PeersKey(room), StoredValue(encode(PeerIds(ids + [OwnId(st).value])), PeerIds(ids + [OwnId(st).value])));
               (w.Written? ==> after == Some(ids + [OwnId(st).value])) &&
               (w.Threw? ==> after == Some(ids))) &&
            (!(Truthy(OwnId(st)) && OwnId(st).value !in ids) ==> after == Some(ids))
  {
    var ids := ReadPeers(s, room).value;
    if Truthy(OwnId(st)) && OwnId(st).value !in ids {
      var ids' := ids + [OwnId(st).value];
      var w := RawWrite(s, medium, PeersKey(room), StoredValue(encode(PeerIds(ids')), PeerIds(ids')));
      if w.Written? {
        var t := w.store;
        assert t.values[PeersKey(room)] == StoredValue(encode(PeerIds(ids')), PeerIds(ids'));
        assert ReadPeers(t, room) == Some(ids');
      }
    }
  }

  /** A registry holding every id at most once keeps doing so through a
      join, loses no id and gains none but the hook's own; a second join
      does not add that id again. */
  lemma JoinRegistry(st: State, s: Store, medium: Medium, encode: Serialiser,
                     room: string, userId: string)
    requires Valid(s) && ReadPeers(s, room).Some? && NoDuplicates(ReadPeers(s, room).value)
    ensures var after := ReadPeers(JoinRoom(st, s, medium, encode, room, userId).store, room);
            after.Some? && NoDuplicates(after.value) &&
            (forall p :: p in ReadPeers(s, room).value ==> p in after.value) &&
            (forall p :: p in after.value ==> p in ReadPeers(s, room).value || Some(p) == OwnId(st))
  {
    JoinRegistryContents(st, s, medium, encode, room, userId);
    var ids := ReadPeers(s, room).value;
    if Truthy(OwnId(st)) && OwnId(st).value !in ids {
      assert NoDuplicates(AddIfAbsent(ids, OwnId(st).value));
    }
  }

  datatype Left = Left(state: State, store: Store, notified: seq<string>)

  /** `leaveRoom`. The leave notices are sent outside any `try`, so the
      first open connection whose send throws aborts the handler with
      nothing else changed. Otherwise every connection is closed and the map
      cleared, the hook's own peer id (not the user id) is filtered out of
      the registry, and users and messages are emptied. */
  function LeaveRoom(st: State, s: Store, medium: Medium, encode: Serialiser, room: string): (r: Left)
    requires Valid(s)
    ensures Valid(r.store)
    ensures (exists c :: c in st.conns && c.open && c.sendFails) ==> r.state == st && r.store == s
    ensures !(exists c :: c in st.conns && c.open && c.sendFails) ==>
              r.state == st.(conns := [], users := [], messages := []) &&
              r.notified == Delivered(st.conns) &&
              (ReadPeers(s, room).None? ==> r.store == s) &&
              (ReadPeers(s, room).Some? ==>
                 var ids := ReadPeers(s, room).value;
                 var kept := if OwnId(st).Some? then Without(ids, OwnId(st).value) else ids;
                 var w := RawWrite(s, medium, PeersKey(room), StoredValue(encode(PeerIds(kept)), PeerIds(kept)));
                 r.store == if w.Written? then w.store else s)
  {
    if exists c :: c in st.conns && c.open && c.sendFails then
      Left(st, s, NotifiedBeforeFailure(st.conns))
    else
      var st1 := st.(conns := [], users := [], messages := []);
      match ReadPeers(s, room)
      case None => Left(st1, s, Delivered(st.conns))
      case Some(ids) =>
        var kept := if OwnId(st).Some? then Without(ids, OwnId(st).value) else ids;
        (match RawWrite(s, medium, PeersKey(room), StoredValue(encode(PeerIds(kept)), PeerIds(kept)))
         case Written(t) => Left(st1, t, Delivered(st.conns))
         case Threw(_) => Left(st1, s, Delivered(st.conns)))
  }

  /** What a leave that is not aborted leaves in the registry: the list
      without the hook's own peer id (the list as it was when the hook has
      none) when the write goes through, the registry as it was otherwise.
      Either way no other id is lost. */
  lemma LeaveRegistryContents(st: State, s: Store, medium: Medium, encode: Serialiser, room: string)
    requires Valid(s) && ReadPeers(s, room).Some?
    requires !(exists c :: c in st.conns && c.open && c.sendFails)
    ensures var ids := ReadPeers(s, room).value;
            var kept := if OwnId(st).Some? then Without(ids, OwnId(st).value) else ids;
            var w := RawWrite(s, medium, PeersKey(room), StoredValue(encode(PeerIds(kept)), PeerIds(kept)));
            var after := ReadPeers(LeaveRoom(st, s, medium, encode, room).store, room);
            (w.Written? ==> after == Some(kept) && (OwnId(st).Some? ==> OwnId(st).value !in after.value)) &&
            (w.Threw? ==> after == Some(ids)) &&
            after.Some? && (forall p :: p in ids && Some(p) != OwnId(st) ==> p in after.value)
  {
    var ids := ReadPeers(s, room).value;
    var kept := if OwnId(st).Some? then Without(ids, OwnId(st).value) else ids;
    var w := RawWrite(s, medium, PeersKey(room), StoredValue(encode(PeerIds(kept)), PeerIds(kept)));
    if w.Written? {
      assert w.store.values[PeersKey(room)] == StoredValue(encode(PeerIds(kept)), PeerIds(kept));
    }
  }

  /** The peers notified before the first throwing send. */
  function NotifiedBeforeFailure(conns: seq<Conn>): (r: seq<string>)
    ensures forall p :: p in r ==> exists c :: c in conns && c.open && c.peer == p
  {
    if conns == [] then []
    else if conns[0].open && conns[0].sendFails then []
    else
      var rest := NotifiedBeforeFailure(conns[1..]);
      assert forall d :: d in conns[1..] ==> d in conns;
      if conns[0].open then [conns[0].peer] + rest else rest
  }
}
