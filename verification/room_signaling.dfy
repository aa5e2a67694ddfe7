/** `useRoomSignaling`: signaling through an HTTP key-value service
    (one collection of message entries per room and one of user entries),
    with a record `{ messages, users }` in storage under
    `webrtc_room_<room>` as the fallback when a request fails. The service's
    replies are inputs; a request the hook sends is an output and is not
    modelled beyond whether it succeeded. */
module RoomSignaling {
  import opened Basics
  import opened Signals
  import opened SafeStorage

  const BufferKeep := 49
  const StoredSize := 50

  /** Join entries younger than this many milliseconds count as present. */
  const ActiveWindow := 300000

  /** How far before the last poll the fallback poll still looks. */
  const FallbackLookback := 10000

  datatype State = State(
    isConnected: bool,
    connectionError: Option<string>,
    users: seq<string>,
    messages: seq<Message>,
    currentUser: string,
    lastPolled: int)

  /** An entry of the room's message collection: `{ type, data, timestamp }`. */
  datatype Entry = Entry(tag: Option<string>, data: Option<Message>, timestamp: Option<int>)

  /** An entry of the room's user collection: `{ userId, timestamp, action }`. */
  datatype UserEntry = UserEntry(userId: string, timestamp: Option<int>, action: Option<string>)

  /** The outcome of one GET: the request or the JSON decoding threw, the
      status was not ok, the body was not an object, or the body's values. */
  datatype Fetch<T> = Failed | NotOk | NotAnObject | Body(values: seq<T>)

  function EntryStamp(e: Entry): int {
    match e.timestamp
    case Some(t) => t
    case None => 0
  }

  function UserStamp(e: UserEntry): int {
    match e.timestamp
    case Some(t) => t
    case None => 0
  }

  /** `webrtc_room_${roomId}` */
  function RecordKey(room: string): string {
    "webrtc_room_" + room
  }

  /** The fallback record does not live under a room key, so neither the
      storage cleanup nor the room manager ever touches it. */
  lemma RecordKeyIsNotRoomKey(room: string)
    ensures !IsRoomKey(RecordKey(room))
  {
    assert RecordKey(room)[0] == 'w' && RoomPrefix[0] == 'r';
  }

  // ---------------------------------------------------------------------
  // Polling the service

  /** An entry the poll takes up: a message entry with data, from someone
      else, newer than the last poll. */
  predicate Accepted(e: Entry, me: string, since: int) {
    e.tag == Some("message") && e.data.Some? && e.data.value.userId != Some(me) && EntryStamp(e) > since
  }

  function DataOf(entries: seq<Entry>): (r: seq<Message>)
    requires forall i :: 0 <= i < |entries| ==> entries[i].data.Some?
    ensures |r| == |entries|
    ensures forall i :: 0 <= i < |entries| ==> r[i] == entries[i].data.value
  {
    if entries == [] then [] else [entries[0].data.value] + DataOf(entries[1..])
  }

  /** The poll's message filter and `map(entry => entry.data)`. */
  function PollFilter(entries: seq<Entry>, me: string, since: int): (r: seq<Message>)
    ensures forall m :: m in r <==> exists e :: e in entries && Accepted(e, me, since) && e.data == Some(m)
  {
    var kept := Filter(entries, e => Accepted(e, me, since));
    var r := DataOf(kept);
    forall m | m in r
      ensures exists e :: e in entries && Accepted(e, me, since) && e.data == Some(m)
    {
      var i :| 0 <= i < |r| && r[i] == m;
      assert kept[i] in kept;
    }
    forall m | exists e :: e in entries && Accepted(e, me, since) && e.data == Some(m)
      ensures m in r
    {
      var e :| e in entries && Accepted(e, me, since) && e.data == Some(m);
      assert e in kept;
      var i :| 0 <= i < |kept| && kept[i] == e;
      assert r[i] == m;
    }
    r
  }

  /** `[...prev.slice(-49), ...incoming]` */
  function Append(prev: seq<Message>, incoming: seq<Message>): (r: seq<Message>)
    ensures |r| == Min(|prev|, BufferKeep) + |incoming|
    ensures r[|r| - |incoming|..] == incoming
    ensures r[..|r| - |incoming|] == Last(prev, BufferKeep)
  {
    Last(prev, BufferKeep) + incoming
  }

  /** The buffer is not capped at 50: a poll bringing two or more messages
      to a full buffer leaves more than 50. */
  lemma BufferCanExceedFifty(prev: seq<Message>, incoming: seq<Message>)
    requires |prev| >= BufferKeep && |incoming| >= 2
    ensures |Append(prev, incoming)| > BufferKeep + 1
  {
  }

  function ApplyMessages(st: State, entries: seq<Entry>): (r: State)
    ensures r == st.(messages := r.messages)
    ensures PollFilter(entries, st.currentUser, st.lastPolled) == [] ==> r == st
    ensures PollFilter(entries, st.currentUser, st.lastPolled) != [] ==>
              r.messages == Append(st.messages, PollFilter(entries, st.currentUser, st.lastPolled))
  {
    var incoming := PollFilter(entries, st.currentUser, st.lastPolled);
    if |incoming| > 0 then st.(messages := Append(st.messages, incoming)) else st
  }

  predicate RecentJoin(e: UserEntry, now: int) {
    e.action == Some("join") && now - UserStamp(e) < ActiveWindow
  }

  function UserIds(entries: seq<UserEntry>): (r: seq<string>)
    ensures |r| == |entries|
    ensures forall i :: 0 <= i < |entries| ==> r[i] == entries[i].userId
  {
    if entries == [] then [] else [entries[0].userId] + UserIds(entries[1..])
  }

  lemma {:induction false} UserIdsAppend(a: seq<UserEntry>, b: seq<UserEntry>)
    ensures UserIds(a + b) == UserIds(a) + UserIds(b)
  {
    if a == [] {
      assert a + b == b;
    } else {
      assert (a + b)[1..] == a[1..] + b;
      UserIdsAppend(a[1..], b);
    }
  }

  /** The active users: the ids of recent join entries, each once, in order
      of first occurrence. */
  function ActiveUsers(entries: seq<UserEntry>, now: int): (r: seq<string>)
    ensures NoDuplicates(r)
    ensures forall u :: u in r <==> exists e :: e in entries && RecentJoin(e, now) && e.userId == u
  {
    var joins := Filter(entries, e => RecentJoin(e, now));
    var ids := UserIds(joins);
    forall u | u in ids
      ensures exists e :: e in entries && RecentJoin(e, now) && e.userId == u
    {
      var i :| 0 <= i < |ids| && ids[i] == u;
      assert joins[i] in joins;
    }
    forall u | exists e :: e in entries && RecentJoin(e, now) && e.userId == u
      ensures u in ids
    {
      var e :| e in entries && RecentJoin(e, now) && e.userId == u;
      assert e in joins;
      var i :| 0 <= i < |joins| && joins[i] == e;
      assert ids[i] == u;
    }
    Dedup(ids)
  }

  /** First-occurrence order: the users active in a prefix of the entries
      keep their places whatever entries follow. */
  lemma ActiveUsersPrefix(a: seq<UserEntry>, b: seq<UserEntry>, now: int)
    ensures ActiveUsers(a, now) <= ActiveUsers(a + b, now)
  {
    var p := (e: UserEntry) => RecentJoin(e, now);
    FilterAppend(a, b, p);
    UserIdsAppend(Filter(a, p), Filter(b, p));
    DedupPrefix(UserIds(Filter(a, p)), UserIds(Filter(b, p)));
  }

  /** The active list grows one entry at a time: a recent join appends its
      user unless already listed, and any other entry changes nothing. With
      `ActiveUsers([], now) == []` this pins the list down completely. */
  lemma ActiveUsersSnoc(a: seq<UserEntry>, e: UserEntry, now: int)
    ensures ActiveUsers([], now) == []
    ensures RecentJoin(e, now) && e.userId !in ActiveUsers(a, now) ==>
              ActiveUsers(a + [e], now) == ActiveUsers(a, now) + [e.userId]
    ensures RecentJoin(e, now) && e.userId in ActiveUsers(a, now) ==>
              ActiveUsers(a + [e], now) == ActiveUsers(a, now)
    ensures !RecentJoin(e, now) ==> ActiveUsers(a + [e], now) == ActiveUsers(a, now)
  {
    var p := (x: UserEntry) => RecentJoin(x, now);
    FilterAppend(a, [e], p);
    assert [e][1..] == [];
    var xs := UserIds(Filter(a, p));
    UserIdsAppend(Filter(a, p), Filter([e], p));
    if RecentJoin(e, now) {
      assert Filter([e], p) == [e];
      assert UserIds([e]) == [e.userId];
      assert (xs + [e.userId])[..|xs + [e.userId]| - 1] == xs;
    } else {
      assert Filter([e], p) == [];
      assert xs + UserIds([]) == xs;
    }
  }

  /** Leave entries are never consulted: an entry that is not a recent join,
      wherever it stands, changes nothing. */
  lemma ActiveUsersIgnoresOthers(a: seq<UserEntry>, e: UserEntry, b: seq<UserEntry>, now: int)
    requires !RecentJoin(e, now)
    ensures ActiveUsers(a + [e] + b, now) == ActiveUsers(a + b, now)
  {
    FilterSkip(a, e, b, (x: UserEntry) => RecentJoin(x, now));
  }

  /** The poll's test for replacing the user list. */
  predicate UsersChanged(active: seq<string>, users: seq<string>) {
    |active| != |users| || !(forall u :: u in active ==> u in users)
  }

  /** For a duplicate-free list the test is exact: it fires iff the two lists
      hold different users. */
  lemma UsersChangedIff(active: seq<string>, users: seq<string>)
    requires NoDuplicates(active) && NoDuplicates(users)
    ensures UsersChanged(active, users) <==> exists u :: (u in active) != (u in users)
  {
    if !UsersChanged(active, users) {
      SameLengthSubsetIsSameSet(active, users);
    } else if |active| != |users| {
      var sa := set u | u in active;
      var sb := set u | u in users;
      DistinctCardinality(active);
      DistinctCardinality(users);
      assert sa != sb;
      var d := (sa - sb) + (sb - sa);
      assert d != {};
      var u :| u in d;
      assert (u in active) != (u in users);
    }
  }

  function ApplyUsers(st: State, entries: seq<UserEntry>, now: int): (r: State)
    ensures r == st.(users := r.users)
    ensures UsersChanged(ActiveUsers(entries, now), st.users) ==> r.users == ActiveUsers(entries, now)
    ensures !UsersChanged(ActiveUsers(entries, now), st.users) ==> r.users == st.users
  {
    var active := ActiveUsers(entries, now);
    if UsersChanged(active, st.users) then st.(users := active) else st
  }

  // ---------------------------------------------------------------------
  // The fallback record

  /** The fallback record as the hook reads it: missing or empty text is a
      fresh `{ messages: [], users: [] }`; text that does not parse, or
      parses to something other than a record, is `None` (the handler
      throws). */
  function ReadRecord(s: Store, room: string): (r: Option<Parsed>)
    ensures r.Some? ==> r.value.RoomRecord?
    ensures !HasData(s, RecordKey(room)) ==> r == Some(RoomRecord(Some([]), Some([])))
    ensures HasData(s, RecordKey(room)) && s.values[RecordKey(room)].content.RoomRecord? ==>
              r == Some(s.values[RecordKey(room)].content)
    ensures HasData(s, RecordKey(room)) && !s.values[RecordKey(room)].content.RoomRecord? ==> r.None?
  {
    if !HasData(s, RecordKey(room)) then Some(RoomRecord(Some([]), Some([])))
    else
      match s.values[RecordKey(room)].content
      case RoomRecord(ms, us) => Some(RoomRecord(ms, us))
      case _ => None
  }

  /** The fallback poll: the stored users replace the list when present; the
      stored messages from others newer than ten seconds before the last
      poll are appended. Anything unreadable changes nothing. */
  function FallbackPoll(st: State, s: Store, room: string): (r: State)
    ensures r == st.(users := r.users, messages := r.messages)
    ensures !HasData(s, RecordKey(room)) || !s.values[RecordKey(room)].content.RoomRecord? ==> r == st
    ensures HasData(s, RecordKey(room)) && s.values[RecordKey(room)].content.RoomRecord? ==>
              var rec := s.values[RecordKey(room)].content;
              (rec.users.Some? ==> r.users == rec.users.value) &&
              (rec.users.None? ==> r.users == st.users) &&
              (rec.messages.None? ==> r.messages == st.messages) &&
              (rec.messages.Some? ==>
                 var incoming := FallbackFilter(rec.messages.value, st);
                 (incoming == [] ==> r.messages == st.messages) &&
                 (incoming != [] ==> r.messages == Append(st.messages, incoming)))
  {
    if !HasData(s, RecordKey(room)) then st
    else
      match s.values[RecordKey(room)].content
      case RoomRecord(ms, us) =>
        var st1 := match us case Some(list) => st.(users := list) case None => st;
        (match ms
         case Some(all) =>
           var incoming := FallbackFilter(all, st);
           if |incoming| > 0 then st1.(messages := Append(st1.messages, incoming)) else st1
         case None => st1)
      case _ => st
  }

  /** The fallback poll's message filter. */
  function FallbackFilter(ms: seq<Message>, st: State): (r: seq<Message>)
    ensures forall m :: m in r <==>
              m in ms && m.userId != Some(st.currentUser) && StampOrZero(m) > st.lastPolled - FallbackLookback
  {
    Filter(ms, (m: Message) => m.userId != Some(st.currentUser) && StampOrZero(m) > st.lastPolled - FallbackLookback)
  }

  /** `pollRoomUpdates`: the message GET, then the user GET, then the poll
      time; a GET that throws abandons the rest and runs the fallback poll
      on whatever the earlier steps already set. */
  function Poll(st: State, s: Store, room: string, now: int,
                msgs: Fetch<Entry>, users: Fetch<UserEntry>): (r: State)
    ensures msgs.Failed? ==> r == FallbackPoll(st, s, room)
    ensures !msgs.Failed? && !users.Failed? ==> r.lastPolled == now
    ensures !msgs.Failed? && users.Failed? ==> r.lastPolled == st.lastPolled
    ensures !msgs.Failed? ==>
              var st1 := if msgs.Body? then ApplyMessages(st, msgs.values) else st;
              (users.Failed? ==> r == FallbackPoll(st1, s, room)) &&
              (users.Body? ==> r == ApplyUsers(st1, users.values, now).(lastPolled := now)) &&
              (!users.Failed? && !users.Body? ==> r == st1.(lastPolled := now))
  {
    match msgs
    case Failed => FallbackPoll(st, s, room)
    case _ =>
      var st1 := match msgs case Body(entries) => ApplyMessages(st, entries) case _ => st;
      match users
      case Failed => FallbackPoll(st1, s, room)
      case _ =>
        var st2 := match users case Body(entries) => ApplyUsers(st1, entries, now) case _ => st1;
        st2.(lastPolled := now)
  }

  // ---------------------------------------------------------------------
  // Sending, joining, leaving

  datatype Step = Step(state: State, store: Store)

  /** The outcome of an async handler: it finished, or it rejected (an
      exception escaped from its fallback) keeping whatever it had set
      before the throw. */
  datatype Outcome = Done(step: Step) | Rejected(state: State, store: Store)

  /** `sendMessage`: when the POST fails, the message is appended to the
      fallback record's last 50 by a plain write; the buffer gets it unless
      that fallback threw. */
  function SendMessage(st: State, s: Store, medium: Medium, encode: Serialiser,
                       room: string, m: Message, now: int, id: string, posted: bool): (r: Outcome)
    requires Valid(s)
    ensures r.Done? ==> Valid(r.step.store)
    ensures r.Rejected? ==> r.state == st && r.store == s
    ensures var sent := Stamp(m, room, now, id).(userId := Some(st.currentUser));
            r.Done? ==> r.step.state == st.(messages := Last(st.messages, BufferKeep) + [sent])
    ensures posted ==> r.Done? && r.step.store == s
    ensures !posted && r.Done? ==> ReadRecord(s, room).Some?
    ensures !posted && ReadRecord(s, room).None? ==> r == Rejected(st, s)
    ensures !posted && ReadRecord(s, room).Some? ==>
              var rec := ReadRecord(s, room).value;
              var sent := Stamp(m, room, now, id).(userId := Some(st.currentUser));
              var kept := Last(if rec.messages.Some? then rec.messages.value else [], StoredSize) + [sent];
              var w := RawWrite(s, medium, RecordKey(room), StoredValue(encode(RoomRecord(Some(kept), rec.users)), RoomRecord(Some(kept), rec.users)));
              (w.Written? ==> r == Done(Step(st.(messages := Last(st.messages, BufferKeep) + [sent]), w.store))) &&
              (w.Threw? ==> r == Rejected(st, s))
  {
    var sent := Stamp(m, room, now, id).(userId := Some(st.currentUser));
    var st1 := st.(messages := Last(st.messages, BufferKeep) + [sent]);
    if posted then Done(Step(st1, s))
    else
      match ReadRecord(s, room)
      case None => Rejected(st, s)
      case Some(rec) =>
        var kept := Last(if rec.messages.Some? then rec.messages.value else [], StoredSize) + [sent];
        var v := StoredValue(encode(RoomRecord(Some(kept), rec.users)), RoomRecord(Some(kept), rec.users));
        match RawWrite(s, medium, RecordKey(room), v)
        case Written(t) => Done(Step(st1, t))
        case Threw(_) => Rejected(st, s)
  }

  /** `joinRoom`: with the POST accepted the user joins the list; otherwise
      the fallback record gains the user if absent and its user list
      replaces the hook's. */
  function JoinRoom(st: State, s: Store, medium: Medium, encode: Serialiser,
                    room: string, userId: string, posted: bool): (r: Outcome)
    requires Valid(s)
    ensures r.Done? ==> Valid(r.step.store)
    ensures r.Rejected? ==> r.state == st.(currentUser := userId) && r.store == s
    ensures posted ==> r == Done(Step(st.(currentUser := userId, users := AddIfAbsent(st.users, userId)), s))
    ensures !posted && r.Done? ==> ReadRecord(s, room).Some?
    ensures !posted && r.Done? && ReadRecord(s, room).Some? ==>
              var rec := ReadRecord(s, room).value;
              rec.users.Some? && r.step.state == st.(currentUser := userId, users := AddIfAbsent(rec.users.value, userId))
    ensures !posted && r.Done? && userId in ReadRecord(s, room).value.users.value ==> r.step.store == s
    ensures !posted && (ReadRecord(s, room).None? || ReadRecord(s, room).value.users.None?) ==>
              r == Rejected(st.(currentUser := userId), s)
    ensures !posted && ReadRecord(s, room).Some? && ReadRecord(s, room).value.users.Some? ==>
              var rec := ReadRecord(s, room).value;
              var us := rec.users.value;
              var rec' := RoomRecord(rec.messages, Some(us + [userId]));
              var w := RawWrite(s, medium, RecordKey(room), StoredValue(encode(rec'), rec'));
              (userId in us ==> r == Done(Step(st.(currentUser := userId, users := us), s))) &&
              (userId !in us && w.Written? ==> r == Done(Step(st.(currentUser := userId, users := us + [userId]), w.store))) &&
              (userId !in us && w.Threw? ==> r == Rejected(st.(currentUser := userId), s))
  {
    var st1 := st.(currentUser := userId);
    if posted then Done(Step(st1.(users := AddIfAbsent(st.users, userId)), s))
    else
      match ReadRecord(s, room)
      case None => Rejected(st1, s)
      case Some(rec) =>
        match rec.users
        case None => Rejected(st1, s)
        case Some(us) =>
          if userId in us then Done(Step(st1.(users := us), s))
          else
            var rec' := RoomRecord(rec.messages, Some(us + [userId]));
            match RawWrite(s, medium, RecordKey(room), StoredValue(encode(rec'), rec'))
            case Written(t) => Done(Step(st1.(users := us + [userId]), t))
            case Threw(_) => Rejected(st1, s)
  }

  /** Writing a record to the fallback key: it goes through exactly when it
      fits, and is then read back as written. */
  lemma WriteRecord(s: Store, medium: Medium, room: string, text: string, rec: Parsed)
    requires Valid(s) && rec.RoomRecord? && text != ""
    ensures var w := RawWrite(s, medium, RecordKey(room), StoredValue(text, rec));
            (w.Written? <==> medium.failure.None? && Usage(Put(s, RecordKey(room), StoredValue(text, rec))) <= medium.capacity) &&
            (w.Written? ==> ReadRecord(w.store, room) == Some(rec))
  {
    var w := RawWrite(s, medium, RecordKey(room), StoredValue(text, rec));
    if w.Written? {
      assert w.store.values[RecordKey(room)] == StoredValue(text, rec);
    }
  }

  /** A fallback send goes through exactly when the new record fits the
      medium; the record then holds the newest 50 stored messages followed
      by the sent one, with its users as they were, and the buffer ends with
      the sent message. A send that throws leaves the record as it was. */
  lemma SendFallbackRecord(st: State, s: Store, medium: Medium, encode: Serialiser,
                           room: string, m: Message, now: int, id: string)
    requires Valid(s) && ReadRecord(s, room).Some?
    ensures var rec := ReadRecord(s, room).value;
            var sent := Stamp(m, room, now, id).(userId := Some(st.currentUser));
            var kept := Last(if rec.messages.Some? then rec.messages.value else [], StoredSize) + [sent];
            var rec' := RoomRecord(Some(kept), rec.users);
            var r := SendMessage(st, s, medium, encode, room, m, now, id, false);
            (r.Done? <==> medium.failure.None? && Usage(Put(s, RecordKey(room), StoredValue(encode(rec'), rec'))) <= medium.capacity) &&
            (r.Done? ==> ReadRecord(r.step.store, room) == Some(rec') && |kept| <= StoredSize + 1 &&
                         r.step.state.messages[|r.step.state.messages| - 1] == sent) &&
            (r.Rejected? ==> ReadRecord(r.store, room) == Some(rec))
  {
    var rec := ReadRecord(s, room).value;
    var sent := Stamp(m, room, now, id).(userId := Some(st.currentUser));
    var kept := Last(if rec.messages.Some? then rec.messages.value else [], StoredSize) + [sent];
    var rec' := RoomRecord(Some(kept), rec.users);
    WriteRecord(s, medium, room, encode(rec'), rec');
  }

  /** A fallback join goes through exactly when the user is already listed
      or the record with the user appended fits the medium. The record then
      lists the user once, keeps its messages and every other user, and
      the hook takes its list; a join that throws leaves the record as it
      was. */
  lemma JoinKeepsRecordDistinct(st: State, s: Store, medium: Medium, encode: Serialiser,
                                room: string, userId: string)
    requires Valid(s)
    requires var rec := ReadRecord(s, room); rec.Some? && rec.value.users.Some? && NoDuplicates(rec.value.users.value)
    ensures var rec := ReadRecord(s, room).value;
            var us := rec.users.value;
            var rec' := RoomRecord(rec.messages, Some(AddIfAbsent(us, userId)));
            var r := JoinRoom(st, s, medium, encode, room, userId, false);
            (r.Done? <==> userId in us ||
                          (medium.failure.None? && Usage(Put(s, RecordKey(room), StoredValue(encode(rec'), rec'))) <= medium.capacity)) &&
            (r.Done? ==> ReadRecord(r.step.store, room) == Some(rec') && r.step.state.users == AddIfAbsent(us, userId) &&
                         NoDuplicates(AddIfAbsent(us, userId)) && userId in AddIfAbsent(us, userId)) &&
            (r.Rejected? ==> ReadRecord(r.store, room) == Some(rec))
  {
    var rec := ReadRecord(s, room).value;
    var us := rec.users.value;
    if userId !in us {
      var rec' := RoomRecord(rec.messages, Some(us + [userId]));
      WriteRecord(s, medium, room, encode(rec'), rec');
    }
  }

  /** `leaveRoom`: whatever happens to the notice, users and messages are
      emptied. */
  function LeaveRoom(st: State): (r: State)
    ensures r.users == [] && r.messages == []
    ensures r == st.(users := [], messages := [])
  {
    st.(users := [], messages := [])
  }

  /** The setup timer. */
  function Connect(st: State): (r: State)
    ensures r.isConnected && r.connectionError == None
    ensures r.users == st.users && r.messages == st.messages
  {
    st.(isConnected := true, connectionError := None)
  }
}
