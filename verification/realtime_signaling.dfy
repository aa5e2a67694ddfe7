/** `useRealtimeSignaling`: signaling over a `BroadcastChannel`, with the
    room's message log in storage as a backup. Posting to the channel is an
    output of the hook and is not part of the state; what arrives on the
    channel is the input of `Receive`. */
module RealtimeSignaling {
  import opened Basics
  import opened Signals
  import opened SafeStorage

  const BufferSize := 50
  const StoredSize := 50
  const InitialLoad := 10

  /** `users` holds `Option`s: a `user-joined` event without a `userId`
      puts `undefined` on the list. */
  datatype State = State(isConnected: bool, users: seq<Option<string>>, messages: seq<Message>)

  const Initial := State(false, [], [])

  datatype Step = Step(state: State, store: Store)

  /** The buffer update `[...prev.slice(-49), message]`. */
  function Buffer(prev: seq<Message>, m: Message): (r: seq<Message>)
    ensures |r| <= BufferSize && |r| <= |prev| + 1
    ensures |r| > 0 && r[|r| - 1] == m
    ensures r[..|r| - 1] == Last(prev, BufferSize - 1)
  {
    Last(prev, BufferSize - 1) + [m]
  }

  /** Whatever was buffered before, a buffered message stays until 49 newer
      ones have arrived: the buffer is a suffix of everything received. */
  lemma BufferIsSuffix(prev: seq<Message>, m: Message)
    ensures exists dropped :: prev + [m] == dropped + Buffer(prev, m)
  {
    var kept := Last(prev, BufferSize - 1);
    var dropped := prev[..|prev| - |kept|];
    assert prev == dropped + kept;
    assert Buffer(prev, m) == kept + [m];
    assert prev + [m] == dropped + Buffer(prev, m);
  }

  /** The stored log `[...existing.slice(-50), message]`. */
  function StoredLog(existing: seq<Message>, m: Message): (r: seq<Message>)
    ensures |r| <= StoredSize + 1
    ensures |r| > 0 && r[|r| - 1] == m
    ensures r[..|r| - 1] == Last(existing, StoredSize)
  {
    Last(existing, StoredSize) + [m]
  }

  /** `sendMessage`: the stamped message is appended to the stored log by a
      plain `localStorage.setItem`; only when that write does not throw does
      the sender's own buffer get the message. A stored value that does not
      parse or is not a list also throws. */
  function SendMessage(st: State, s: Store, medium: Medium, encode: Serialiser,
                       room: string, m: Message, now: int, id: string): (r: Step)
    requires Valid(s)
    ensures Valid(r.store)
    ensures r.state.isConnected == st.isConnected && r.state.users == st.users
    ensures !ReadValue(s, RoomKey(room)).MessageLog? ==> r == Step(st, s)
    ensures ReadValue(s, RoomKey(room)).MessageLog? ==>
              var sent := Stamp(m, room, now, id);
              var log := StoredLog(ReadValue(s, RoomKey(room)).msgs, sent);
              var w := RawWrite(s, medium, RoomKey(room), StoredValue(encode(MessageLog(log)), MessageLog(log)));
              (w.Written? ==> r == Step(st.(messages := Buffer(st.messages, sent)), w.store)) &&
              (w.Threw? ==> r == Step(st, s))
  {
    match ReadValue(s, RoomKey(room))
    case MessageLog(existing) =>
      var sent := Stamp(m, room, now, id);
      var log := StoredLog(existing, sent);
      (match RawWrite(s, medium, RoomKey(room), StoredValue(encode(MessageLog(log)), MessageLog(log)))
       case Written(t) => Step(st.(messages := Buffer(st.messages, sent)), t)
       case Threw(_) => Step(st, s))
    case _ => Step(st, s)
  }

  /** A stored room log of at most 51 messages. */
  ghost predicate LogBounded(s: Store, room: string) {
    ReadValue(s, RoomKey(room)).MessageLog? ==> |ReadValue(s, RoomKey(room)).msgs| <= StoredSize + 1
  }

  /** Whatever the room held before, after a send its stored log holds at
      most 51 messages (or is as it was). */
  lemma SendKeepsLogBounded(st: State, s: Store, medium: Medium, encode: Serialiser,
                            room: string, m: Message, now: int, id: string)
    requires Valid(s) && LogBounded(s, room)
    ensures LogBounded(SendMessage(st, s, medium, encode, room, m, now, id).store, room)
  {
  }

  /** `joinRoom`'s user-list update; its join notice on the channel is an
      output. */
  function JoinRoom(st: State, userId: string): (r: State)
    ensures r == st.(users := r.users)
    ensures forall u :: u in r.users <==> u in st.users || u == Some(userId)
    ensures Some(userId) in st.users ==> r.users == st.users
    ensures Some(userId) !in st.users ==> r.users == st.users + [Some(userId)]
    ensures NoDuplicates(st.users) ==> NoDuplicates(r.users)
  {
    st.(users := AddIfAbsent(st.users, Some(userId)))
  }

  /** Joining twice is joining once. */
  lemma JoinRoomIdempotent(st: State, userId: string)
    ensures JoinRoom(JoinRoom(st, userId), userId) == JoinRoom(st, userId)
  {
  }

  /** `leaveRoom`: the user is filtered out and the buffer emptied. */
  function LeaveRoom(st: State, userId: string): (r: State)
    ensures Some(userId) !in r.users
    ensures forall u :: u != Some(userId) ==> (u in r.users <==> u in st.users)
    ensures r.messages == [] && r.isConnected == st.isConnected
  {
    st.(users := Without(st.users, Some(userId)), messages := [])
  }

  /** A join undone by a leave leaves the user list as the leave alone
      would. */
  lemma JoinThenLeaveRoom(st: State, userId: string)
    ensures LeaveRoom(JoinRoom(st, userId), userId) == LeaveRoom(st, userId)
  {
    JoinThenLeave(st.users, Some(userId));
  }

  /** `onmessage`: presence events update the user list, every other message
      goes to the buffer. */
  function Receive(st: State, m: Message): (r: State)
    ensures r.isConnected == st.isConnected
    ensures m.kind == UserJoined ==> r.users == AddIfAbsent(st.users, m.userId) && r.messages == st.messages
    ensures m.kind == UserLeft ==> r.users == Without(st.users, m.userId) && r.messages == st.messages
    ensures m.kind != UserJoined && m.kind != UserLeft ==>
              r.users == st.users && r.messages == Buffer(st.messages, m)
  {
    match m.kind
    case UserJoined => st.(users := AddIfAbsent(st.users, m.userId))
    case UserLeft => st.(users := Without(st.users, m.userId))
    case _ => st.(messages := Buffer(st.messages, m))
  }

  /** The hook's invariant: no user listed twice and at most 50 buffered
      messages. */
  predicate Consistent(st: State) {
    NoDuplicates(st.users) && |st.messages| <= BufferSize
  }

  /** Every handler keeps the invariant. */
  lemma ReceiveKeepsConsistent(st: State, m: Message)
    requires Consistent(st)
    ensures Consistent(Receive(st, m))
  {
  }

  lemma HandlersKeepConsistent(st: State, s: Store, medium: Medium, encode: Serialiser,
                               room: string, m: Message, now: int, id: string, userId: string)
    requires Valid(s) && Consistent(st)
    ensures Consistent(SendMessage(st, s, medium, encode, room, m, now, id).state)
    ensures Consistent(JoinRoom(st, userId))
    ensures Consistent(LeaveRoom(st, userId))
    ensures Consistent(Receive(st, m))
  {
    ReceiveKeepsConsistent(st, m);
  }

  /** `loadMessages`: the last ten stored messages replace the buffer; a
      missing or empty entry leaves it, unparseable or non-list data throws
      and leaves it too. */
  function LoadMessages(st: State, s: Store, room: string): (r: State)
    ensures r.users == st.users && r.isConnected == st.isConnected
    ensures |r.messages| <= InitialLoad || r.messages == st.messages
    ensures HasData(s, RoomKey(room)) && s.values[RoomKey(room)].content.MessageLog? ==>
              var ms := s.values[RoomKey(room)].content.msgs;
              |r.messages| == Min(|ms|, InitialLoad) && ms == ms[..|ms| - |r.messages|] + r.messages
    ensures !(HasData(s, RoomKey(room)) && s.values[RoomKey(room)].content.MessageLog?) ==> r == st
  {
    if HasData(s, RoomKey(room)) then
      match s.values[RoomKey(room)].content
      case MessageLog(ms) => st.(messages := Last(ms, InitialLoad))
      case _ => st
    else st
  }

  /** The setup timer: connected, then the initial load. */
  function Connect(st: State, s: Store, room: string): (r: State)
    ensures r.isConnected
    ensures r.users == st.users
    ensures r == LoadMessages(st.(isConnected := true), s, room)
  {
    LoadMessages(st.(isConnected := true), s, room)
  }
}
