/** `useSignaling`: signaling through the room's message log in storage,
    read back by a once-a-second poll. Each handler is a pure function of
    the hook state, the storage area, and the event's inputs (clock reading,
    random id, the storage medium and the JSON serialiser). */
module Signaling {
  import opened Basics
  import opened Signals
  import opened SafeStorage

  const MaxMessages := 50
  const CleanupThreshold := 100

  datatype State = State(isConnected: bool, users: seq<string>, messages: seq<Message>)

  const Initial := State(false, [], [])

  /** The result of a handler: the new hook state and the new storage area. */
  datatype Step = Step(state: State, store: Store)

  /** `['offer', 'answer', 'ice-candidate'].includes(msg.type)` */
  predicate Important(m: Message) {
    m.kind == Offer || m.kind == Answer || m.kind == IceCandidate
  }

  /** `cleanupMessages`: a log longer than the threshold is cut down to its
      newest important messages. */
  function CleanupMessages(ms: seq<Message>): (r: seq<Message>)
    ensures |ms| <= CleanupThreshold ==> r == ms
    ensures |ms| > CleanupThreshold ==>
              var f := Filter(ms, Important);
              |r| == Min(|f|, MaxMessages) && f == f[..|f| - |r|] + r
    ensures |ms| > CleanupThreshold ==> forall i :: 0 <= i < |r| ==> Important(r[i])
  {
    if |ms| > CleanupThreshold then Last(Filter(ms, Important), MaxMessages) else ms
  }

  /** Cleaning an already cleaned log changes nothing. */
  lemma CleanupIdempotent(ms: seq<Message>)
    ensures CleanupMessages(CleanupMessages(ms)) == CleanupMessages(ms)
  {
  }

  /** The log `sendMessage` stores: the cleaned existing log and the new
      message. */
  function SendLog(existing: seq<Message>, m: Message): (r: seq<Message>)
    ensures |r| > 0 && r[..|r| - 1] == CleanupMessages(existing) && r[|r| - 1] == m
    ensures |existing| <= CleanupThreshold + 1 ==> |r| <= CleanupThreshold + 1
  {
    CleanupMessages(existing) + [m]
  }

  /** A stored room log of at most 101 messages: any room log `sendMessage`
      has written from an empty start. */
  ghost predicate LogBounded(s: Store, room: string) {
    ReadValue(s, RoomKey(room)).MessageLog? ==>
      |ReadValue(s, RoomKey(room)).msgs| <= CleanupThreshold + 1
  }

  /** `sendMessage`: stamps the message, appends it to the cleaned stored
      log and writes that back through `SafeStorage.setItem`; the local
      buffer gets the message whether or not the write was saved. Stored text
      that does not parse, or parses to something that is not a list, makes
      the handler throw before anything changes. */
  function SendMessage(st: State, s: Store, medium: Medium, encode: Serialiser,
                       room: string, m: Message, now: int, id: string): (r: Step)
    requires Valid(s)
    ensures Valid(r.store)
    ensures !ReadValue(s, RoomKey(room)).MessageLog? ==> r == Step(st, s)
    ensures ReadValue(s, RoomKey(room)).MessageLog? ==>
              var sent := Stamp(m, room, now, id);
              var log := SendLog(ReadValue(s, RoomKey(room)).msgs, sent);
              r.state == st.(messages := st.messages + [sent]) &&
              r.store == SetItem(s, medium, RoomKey(room), StoredValue(encode(MessageLog(log)), MessageLog(log))).store
  {
    match ReadValue(s, RoomKey(room))
    case MessageLog(existing) =>
      var sent := Stamp(m, room, now, id);
      var log := SendLog(existing, sent);
      var saved := SetItem(s, medium, RoomKey(room), StoredValue(encode(MessageLog(log)), MessageLog(log)));
      Step(st.(messages := st.messages + [sent]), saved.store)
    case _ => Step(st, s)
  }

  /** However often `sendMessage` runs, the room's stored log stays within
      101 messages. */
  lemma SendKeepsLogBounded(st: State, s: Store, medium: Medium, encode: Serialiser,
                            room: string, m: Message, now: int, id: string)
    requires Valid(s) && LogBounded(s, room)
    ensures LogBounded(SendMessage(st, s, medium, encode, room, m, now, id).store, room)
  {
    var key := RoomKey(room);
    var before := ReadValue(s, key);
    if before.MessageLog? {
      var sent := Stamp(m, room, now, id);
      var log := SendLog(before.msgs, sent);
      var v := StoredValue(encode(MessageLog(log)), MessageLog(log));
      SetItemOwnKey(s, medium, key, v);
    }
  }

  /** The ids the buffer already holds (`undefined` included). */
  function IdsOf(ms: seq<Message>): set<Option<string>> {
    set m | m in ms :: m.id
  }

  /** A stored message the poll takes up: it has an id that the buffer does
      not hold yet. */
  predicate IsNew(prev: seq<Message>, m: Message) {
    Truthy(m.id) && m.id !in IdsOf(prev)
  }

  function NewMessages(prev: seq<Message>, stored: seq<Message>): (r: seq<Message>)
    ensures forall m :: m in r <==> m in stored && IsNew(prev, m)
  {
    Filter(stored, m => IsNew(prev, m))
  }

  /** The poll's updater: new messages are appended, and a merged buffer over
      100 messages is cut to its newest 50. */
  function PollMerge(prev: seq<Message>, stored: seq<Message>): (r: seq<Message>)
    ensures NewMessages(prev, stored) == [] ==> r == prev
    ensures NewMessages(prev, stored) != [] ==>
              var all := prev + NewMessages(prev, stored);
              if |all| > 2 * MaxMessages then |r| == MaxMessages && all == all[..|all| - |r|] + r
              else r == all
  {
    var incoming := NewMessages(prev, stored);
    if |incoming| > 0 then
      var all := prev + incoming;
      if |all| > MaxMessages * 2 then Last(all, MaxMessages) else all
    else prev
  }

  /** A buffer that has seen every stored id is left as it is. */
  lemma PollSeenStore(prev: seq<Message>, stored: seq<Message>)
    requires forall m :: m in stored && Truthy(m.id) ==> m.id in IdsOf(prev)
    ensures PollMerge(prev, stored) == prev
  {
    assert forall i :: 0 <= i < |stored| ==> stored[i] in stored;
    FilterNone(stored, m => IsNew(prev, m));
  }

  /** A merge that did not cut the buffer is idempotent: polling the same
      store again changes nothing. */
  lemma PollMergeIdempotent(prev: seq<Message>, stored: seq<Message>)
    requires |prev + NewMessages(prev, stored)| <= 2 * MaxMessages
    ensures PollMerge(PollMerge(prev, stored), stored) == PollMerge(prev, stored)
  {
    var r := PollMerge(prev, stored);
    forall m | m in stored && Truthy(m.id)
      ensures m.id in IdsOf(r)
    {
      if m.id !in IdsOf(prev) {
        assert m in NewMessages(prev, stored);
        assert m in r;
      } else {
        var p :| p in prev && p.id == m.id;
        assert p in r;
      }
    }
    PollSeenStore(r, stored);
  }

  /** After a cut, a stored message whose id fell out of the buffer comes
      back on the next poll: the merge is not idempotent once it trims. */
  lemma PollRedelivers(prev: seq<Message>, stored: seq<Message>, m: Message)
    requires m in stored && Truthy(m.id) && m.id !in IdsOf(PollMerge(prev, stored))
    ensures PollMerge(PollMerge(prev, stored), stored) != PollMerge(prev, stored)
  {
    var r := PollMerge(prev, stored);
    var incoming := NewMessages(r, stored);
    assert m in incoming;
    var r2 := PollMerge(r, stored);
    var all := r + incoming;
    var last := all[|all| - 1];
    assert last == incoming[|incoming| - 1] && last in incoming;
    assert last.id !in IdsOf(r);
    assert r2[|r2| - 1] == last;
    assert last !in r;
  }

  /** The poll tick: a connected hook merges the stored log into its buffer.
      Text that does not parse, or a value that is not a list, makes the
      tick throw and change nothing. */
  function Poll(st: State, s: Store, room: string): (r: State)
    ensures !st.isConnected ==> r == st
    ensures r.isConnected == st.isConnected && r.users == st.users
    ensures st.isConnected && ReadValue(s, RoomKey(room)).MessageLog? ==>
              r.messages == PollMerge(st.messages, ReadValue(s, RoomKey(room)).msgs)
    ensures !ReadValue(s, RoomKey(room)).MessageLog? ==> r == st
  {
    if !st.isConnected then st
    else
      match ReadValue(s, RoomKey(room))
      case MessageLog(ms) => st.(messages := PollMerge(st.messages, ms))
      case _ => st
  }

  /** `joinRoom`: connected, and a `join-room` message sent. When the stored
      data cannot be read the send throws after the hook is already
      connected. */
  function JoinRoom(st: State, s: Store, medium: Medium, encode: Serialiser,
                    room: string, userId: string, now: int, id: string): (r: Step)
    requires Valid(s)
    ensures Valid(r.store)
    ensures r.state.isConnected
    ensures r.state.users == st.users
    ensures var msg := Message(Kind.JoinRoom, None, None, Some(userId), None, None);
            r.store == SendMessage(st, s, medium, encode, room, msg, now, id).store
    ensures ReadValue(s, RoomKey(room)).MessageLog? ==>
              r.state.messages == st.messages + [Stamp(Message(Kind.JoinRoom, None, None, Some(userId), None, None), room, now, id)]
    ensures !ReadValue(s, RoomKey(room)).MessageLog? ==> r.state == st.(isConnected := true) && r.store == s
  {
    var msg := Message(Kind.JoinRoom, None, None, Some(userId), None, None);
    SendMessage(st.(isConnected := true), s, medium, encode, room, msg, now, id)
  }

  /** The timer `joinRoom` starts: a simulated second user. */
  function SimulatedPeerArrives(st: State, userId: string): (r: State)
    ensures r.users == ["user1", userId]
    ensures r.isConnected == st.isConnected && r.messages == st.messages
  {
    st.(users := ["user1", userId])
  }

  /** `leaveRoom`: a `leave-room` message goes to the stored log, and the
      hook ends disconnected with no users and no messages. */
  function LeaveRoom(st: State, s: Store, medium: Medium, encode: Serialiser,
                     room: string, userId: string, now: int, id: string): (r: Step)
    requires Valid(s)
    ensures Valid(r.store)
    ensures r.state == Initial
    ensures r.store == SendMessage(st, s, medium, encode, room,
                                   Message(Kind.LeaveRoom, None, None, Some(userId), None, None), now, id).store
  {
    var msg := Message(Kind.LeaveRoom, None, None, Some(userId), None, None);
    var sent := SendMessage(st, s, medium, encode, room, msg, now, id);
    Step(Initial, sent.store)
  }
}
