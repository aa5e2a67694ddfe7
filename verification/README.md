# webrtc-video-app: storage, signaling and call-state model

A Dafny model of the core of the webrtc-video-app browser application.
The app is a two-party video call. Peers find each other through one of
four signaling hooks. Every hook keeps its room's messages in the
browser's `localStorage`, behind a quota-aware wrapper.

The model has the following modules:

- **Basics** (`basics.dfy`) and **Sorting** (`sorting.dfy`): shared
  helpers. These are option values, `slice(-n)` as `Last`, filtering,
  presence-list updates (`AddIfAbsent`, `Without`, `Dedup`) and a stable
  insertion sort with its permutation and order facts.
- **Signals** (`signals.dfy`): signaling messages and stored values.
  - A stored value pairs its raw text with the outcome of `JSON.parse` on
    that text. The outcome is a message list, a list of peer ids, a room
    record, some other array (of which only the length is kept), some
    other JSON, or unparseable.
  - Text lengths are JavaScript's `length`: UTF-16 code units, so a
    character outside the Basic Multilingual Plane counts twice
    (`Utf16Length`).
  - `JSON.stringify` is the `Serialiser` parameter of every writer. It is
    any function that never returns the empty text.
- **SafeStorage** (`safe_storage.dfy`): `src/utils/SafeStorage.ts`.
  - The storage area is a map from keys to values, plus the order in which
    `localStorage.key(i)` enumerates the keys.
  - A `Medium` decides whether a write fits. It holds a capacity, measured
    as the sum of key and value UTF-16 lengths that `getUsageInfo` counts, and the
    exception raised when a write does not fit. It may also hold a blanket
    failure, for storage that is disabled.
  - Also modelled: the retry ladder of `setItem` (write; on a quota error
    clean up old rooms and retry; for a room key delete its own data and
    write once more), `cleanupOldRooms`, `clearAllRoomData` and
    `getUsageInfo`.
- **RoomManager** (`room_manager.dfy`): `src/utils/RoomManager.ts`, the
  room-level view of the storage area.
- **Signaling**, **RealtimeSignaling**, **PeerSignaling** and
  **RoomSignaling**: the four signaling hooks. Each event handler is a pure
  function. Its inputs are the hook's state, the storage area, and the
  event's own inputs: the clock reading, a random id, the browser's or
  network's answer, and the storage medium. Its result is the new state and
  the new storage area.
  - Messages posted to a `BroadcastChannel`, sent on a PeerJS connection or
    sent in a POST are outputs. They appear only as the list of peers
    reached, where that matters.
  - In `usePeerJSSignaling` the incoming-connection handlers (lines
    233-267) do the same as the dialed connection's handlers, so `Opened`,
    `Data` and `Closed` model both.
- **WebRtcCall** (`webrtc.dfy`): `src/hooks/useWebRTC.ts`.
  - The `RTCPeerConnection` is reduced to its signaling state and the ids
    of the tracks added to it.
  - Each awaited browser call (`getUserMedia`, `createOffer`,
    `setRemoteDescription`, …) is an input that either resolves or
    rejects.
  - The signaling-state moves the browser makes follow the WebRTC 1.0
    state machine: a set local offer gives `have-local-offer`, a set
    remote offer `have-remote-offer`, a set answer `stable`, and in
    `have-local-offer` a remote offer rolls the local one back.

Five behaviours of the source come out of the proofs. They are modelled as
written:

- **`LastRungCannotRescue`**: the last rung of `setItem` can never save a
  value that the retry after cleanup could not save. Removing the key and
  writing the same value back costs exactly what overwriting it costs. So
  that rung only deletes the room's previous log.
- **The peer registry is a room key**: its key `room_peers_<room>` starts
  with `room_`. `cleanupOldRooms` may therefore evict it, and
  `getActiveRooms` lists a room named `peers_<room>`.
- **`PollRedelivers`**: once `useSignaling`'s poll has trimmed the buffer
  to 50, the next poll of an unchanged store delivers the trimmed-away
  messages again.
- **`BufferCanExceedFifty`**: `useRoomSignaling`'s poll appends every new
  message to the last 49, so its buffer exceeds 50 whenever a poll brings
  two or more messages to a buffer already holding 49 or more.
- **`StaleJoinIsBuffered`**: PeerJS data handlers test `user-joined`
  against the user list of the render that installed them. A join notice
  for an id that list already holds goes to the message buffer.

## Model

| member | source | states |
|---|---|---|
| SafeStorage.GetItem | src/utils/SafeStorage.ts:56-63 | a read yields a value exactly when the key is stored, and then the stored value |
| SafeStorage.RemoveItem | src/utils/SafeStorage.ts:68-74 | removing a key keeps the store well formed, drops that key's entry and no other |
| Signals.Utf16LengthAppend | src/utils/SafeStorage.ts:162-167 | a text's UTF-16 length, the `length` the usage sum adds up, is additive over concatenation |
| SafeStorage.QuotaErrorNames | src/utils/SafeStorage.ts:79-84 | an error counts as a quota error iff it is a DOMException named QuotaExceededError, NS_ERROR_DOM_QUOTA_REACHED or QUOTA_EXCEEDED_ERR |
| SafeStorage.GetUsageInfo | src/utils/SafeStorage.ts:160-177 | the assumed total is 5 MiB and the reported use is exactly the sum, over stored keys, of the key's and the value's UTF-16 lengths, so at least each entry's own |
| SafeStorage.UsagePut | src/utils/SafeStorage.ts:162-167 | writing a value changes the counted use by the new entry's cost less the replaced entry's cost |
| SafeStorage.Rank | src/utils/SafeStorage.ts:104-111 | a room ranks by the newest timestamp in its non-empty message list (missing timestamps count 0); an empty list, unparseable text or non-list JSON ranks 0 |
| SafeStorage.CleanupOldRooms | src/utils/SafeStorage.ts:89-131 | cleanup removes only room keys with non-empty data, leaves every other entry unchanged, removes exactly min(n, max(2, n/2)) of the n candidates, and every removed room ranks no newer than every candidate that stays |
| SafeStorage.CleanupUsage | src/utils/SafeStorage.ts:89-131 | a cleanup never increases the storage used |
| SafeStorage.ClearAllRoomData | src/utils/SafeStorage.ts:136-155 | after clearing, a key is stored iff it was stored and is not a room key, with its value unchanged |
| SafeStorage.LastRung | src/utils/SafeStorage.ts:32-43 | the last rung removes the key's own entry and then either stores the value or leaves it removed; a save means the next read returns the value |
| SafeStorage.AfterQuotaError | src/utils/SafeStorage.ts:24-43 | after a quota error: exactly one cleanup, then a retry; if the retry fails, the last rung for a room key and nothing more for any other key |
| SafeStorage.SetItem | src/utils/SafeStorage.ts:15-51 | a first write that fits saves and touches nothing else; a non-quota error saves nothing and changes nothing; a quota error leads to one cleanup, a retry and the last rung; a reported save is read back by getItem |
| SafeStorage.SetItemFrame | src/utils/SafeStorage.ts:15-51 | setItem writes no key but its own, and any key it removes is a room key |
| SafeStorage.SetItemWithinCapacity | src/utils/SafeStorage.ts:15-51 | a store within the medium's capacity stays within it through setItem, whatever the outcome |
| SafeStorage.SetItemOwnKey | src/utils/SafeStorage.ts:15-51 | after setItem the key holds the new value, its old value, or nothing |
| SafeStorage.LastRungCannotRescue | src/utils/SafeStorage.ts:32-43 | when the retry after cleanup does not fit, the last rung saves nothing and leaves the room key deleted |
| RoomManager.ClearAllRooms | src/utils/RoomManager.ts:10-30 | collecting the room keys and removing them one by one leaves exactly the entries the storage layer's own clearAllRoomData leaves |
| RoomManager.ClearRoomData | src/utils/RoomManager.ts:35-38 | clearing a room removes its `room_` key and keeps every other entry unchanged |
| RoomManager.GetActiveRooms | src/utils/RoomManager.ts:43-59 | the active rooms are listed once each, and an id is listed iff `room_` + id is stored |
| RoomManager.ClearEveryActiveRoom | src/utils/RoomManager.ts:35-59 | clearing every listed active room one at a time has the same effect as clearing all room data at once |
| RoomManager.GetStorageSummary | src/utils/RoomManager.ts:64-93 | the room count is the number of room keys, the usage is getUsageInfo's, and the lines are exactly the rooms with parseable non-empty data, each once, with its UTF-16 text length and array length (0 for a non-array), largest first |
| Signaling.CleanupMessages | src/hooks/useSignaling.ts:20-34 | a log of at most 100 messages is kept as is; a longer one becomes the newest min(50, k) of its k offer/answer/ICE messages, in order |
| Signaling.CleanupIdempotent | src/hooks/useSignaling.ts:24-34 | cleaning an already cleaned log changes nothing |
| Signaling.SendMessage | src/hooks/useSignaling.ts:38-66 | the stamped message joins the buffer and is appended to the cleaned stored log through setItem, saved or not; unreadable stored data aborts with nothing changed |
| Signaling.SendKeepsLogBounded | src/hooks/useSignaling.ts:38-66 | sending keeps the room's stored log within 101 messages |
| Signaling.NewMessages | src/hooks/useSignaling.ts:100-105 | the poll takes up exactly the stored messages with an id the buffer does not hold |
| Signaling.PollMerge | src/hooks/useSignaling.ts:100-116 | a poll with nothing new leaves the buffer; otherwise the new messages are appended and a result over 100 is cut to its newest 50 |
| Signaling.PollSeenStore | src/hooks/useSignaling.ts:100-116 | a buffer that already holds every stored id is left as it is |
| Signaling.PollMergeIdempotent | src/hooks/useSignaling.ts:100-116 | a merge that did not trim is idempotent: polling the same store again changes nothing |
| Signaling.PollRedelivers | src/hooks/useSignaling.ts:100-116 | after a trim, a stored message whose id left the buffer makes the next poll change the buffer again |
| Signaling.Poll | src/hooks/useSignaling.ts:91-124 | only a connected hook polls; it merges the stored list, and unreadable data leaves the state unchanged |
| Signaling.JoinRoom | src/hooks/useSignaling.ts:68-76 | joining connects the hook, stores a join-room message exactly as sendMessage would, buffers it when the stored log is readable, and leaves the user list to the timer; unreadable data only connects the hook |
| Signaling.SimulatedPeerArrives | src/hooks/useSignaling.ts:73-75 | the join timer sets the user list to the simulated user and the joining user |
| Signaling.LeaveRoom | src/hooks/useSignaling.ts:78-88 | leaving stores a leave-room message and resets the hook to its initial state |
| RealtimeSignaling.Buffer | src/hooks/useRealtimeSignaling.ts:55 | the buffer keeps at most 50 messages: the newest 49 before it and the new message |
| RealtimeSignaling.BufferIsSuffix | src/hooks/useRealtimeSignaling.ts:55 | the new buffer is a suffix of everything received: only the oldest messages are dropped |
| RealtimeSignaling.SendMessage | src/hooks/useRealtimeSignaling.ts:28-61 | the stored log gets the stamped message after its newest 50 by a plain write; the sender's buffer gets it only when that write succeeds; unreadable data changes nothing |
| RealtimeSignaling.SendKeepsLogBounded | src/hooks/useRealtimeSignaling.ts:44-58 | sending keeps the stored room log within 51 messages |
| RealtimeSignaling.JoinRoom | src/hooks/useRealtimeSignaling.ts:63-83 | joining appends the user to the list when absent and otherwise keeps the list, keeps it distinct, and changes nothing else in the state |
| RealtimeSignaling.JoinRoomIdempotent | src/hooks/useRealtimeSignaling.ts:63-83 | joining twice has the same effect as joining once |
| RealtimeSignaling.LeaveRoom | src/hooks/useRealtimeSignaling.ts:85-101 | leaving removes the user, keeps every other user and empties the buffer |
| RealtimeSignaling.JoinThenLeaveRoom | src/hooks/useRealtimeSignaling.ts:63-101 | a join followed by a leave has the same effect as the leave alone |
| RealtimeSignaling.Receive | src/hooks/useRealtimeSignaling.ts:113-130 | a user-joined adds its user if absent, a user-left removes it, and any other message goes to the buffer |
| RealtimeSignaling.HandlersKeepConsistent | src/hooks/useRealtimeSignaling.ts:28-130 | send, join, leave and receive each keep the users distinct and the buffer within 50 |
| RealtimeSignaling.LoadMessages | src/hooks/useRealtimeSignaling.ts:133-143 | a stored list replaces the buffer with its newest min(10, n) messages; missing, empty or unreadable data leaves the buffer |
| RealtimeSignaling.Connect | src/hooks/useRealtimeSignaling.ts:146-149 | the setup timer connects the hook and then runs the initial load |
| PeerSignaling.SetConnPeers | src/hooks/usePeerJSSignaling.ts:81-85 | storing a connection adds its peer to the map's keys if absent and otherwise keeps the keys and their order |
| PeerSignaling.DropConn | src/hooks/usePeerJSSignaling.ts:119-123 | deleting a peer removes exactly its connection and keeps the keys distinct |
| PeerSignaling.Delivered | src/hooks/usePeerJSSignaling.ts:42-51 | a message reaches exactly the open connections whose send does not throw |
| PeerSignaling.DeliveredAppend | src/hooks/usePeerJSSignaling.ts:42-51 | the fan-out treats each connection independently: it distributes over splitting the map |
| PeerSignaling.SendMessage | src/hooks/usePeerJSSignaling.ts:31-71 | the stamped message is fanned out and buffered, then appended to the stored log by a plain write; a failed or unreadable backup changes only the store, by nothing |
| PeerSignaling.ConnectToPeer | src/hooks/usePeerJSSignaling.ts:73-79 | a peer is dialed only when the hook has a peer object and no connection to that id |
| PeerSignaling.ConnectToExisting | src/hooks/usePeerJSSignaling.ts:73-79 | dialing a peer the map already holds changes nothing |
| PeerSignaling.Opened | src/hooks/usePeerJSSignaling.ts:81-99 | an opened connection, dialed or incoming, replaces any connection to its peer, its peer joins the user list if absent, and nothing else in the state changes |
| PeerSignaling.Data | src/hooks/usePeerJSSignaling.ts:101-117 | a user-joined for an id the handler's render lacked adds the id; a user-left removes its id; anything else goes to the buffer |
| PeerSignaling.StaleJoinIsBuffered | src/hooks/usePeerJSSignaling.ts:101-117 | a join notice for an id the handler's render already listed leaves the users and goes to the buffer |
| PeerSignaling.Closed | src/hooks/usePeerJSSignaling.ts:119-123 | a closed connection's peer leaves the map and the user list; every other peer and user stays |
| PeerSignaling.Errored | src/hooks/usePeerJSSignaling.ts:125-128 | a connection error removes the peer from the map only |
| PeerSignaling.PeerOpened | src/hooks/usePeerJSSignaling.ts:224-228 | the peer's open event connects the hook, clears the error and records the assigned id |
| PeerSignaling.PeerErrored | src/hooks/usePeerJSSignaling.ts:270-274 | the peer's error event disconnects the hook with the error message shown |
| PeerSignaling.PeerDisconnected | src/hooks/usePeerJSSignaling.ts:276-279 | the peer's disconnected event disconnects the hook and keeps the error |
| PeerSignaling.OpenedKeepsConsistent | src/hooks/usePeerJSSignaling.ts:81-99 | an open keeps users distinct, one connection per peer and the buffer within 50 |
| PeerSignaling.DataKeepsConsistent | src/hooks/usePeerJSSignaling.ts:101-117 | a data event keeps the same invariant |
| PeerSignaling.ClosedKeepsConsistent | src/hooks/usePeerJSSignaling.ts:119-128 | close and error events keep the same invariant |
| PeerSignaling.Dialable | src/hooks/usePeerJSSignaling.ts:160-164 | a listed id is dialable iff it is not the hook's own id and has no connection in the map |
| PeerSignaling.DialAll | src/hooks/usePeerJSSignaling.ts:160-164 | with a peer object, joining dials exactly the dialable listed ids, in list order; without one it dials nothing; nothing else changes |
| PeerSignaling.JoinRoom | src/hooks/usePeerJSSignaling.ts:134-170 | the user becomes current and joins the list; an unreadable registry changes neither the store nor the dials; a registry lacking the hook's id gets it appended, and the dialed ids are the dialable ones of the list written, or none when that write throws; otherwise the registry is not rewritten and the dialable ones of the stored list are dialed |
| PeerSignaling.JoinRegistryContents | src/hooks/usePeerJSSignaling.ts:150-157 | after a join the registry holds the hook's own id appended when it was missing and the write went through, and the registry as it was otherwise |
| PeerSignaling.JoinRegistry | src/hooks/usePeerJSSignaling.ts:150-157 | a join keeps every registered id, adds none but the hook's own, and keeps the registry free of duplicates |
| PeerSignaling.LeaveRoom | src/hooks/usePeerJSSignaling.ts:172-206 | an open connection whose leave notice throws aborts the leave with nothing changed; otherwise every open connection is notified and the map, users and messages are emptied; an unreadable registry leaves the store as it was, and a readable one is rewritten without the hook's peer id (unchanged when the hook has none) by a write that may throw |
| PeerSignaling.LeaveRegistryContents | src/hooks/usePeerJSSignaling.ts:189-195 | after a completed leave the registry lacks the hook's peer id when the write went through and is as it was when it threw; no other id is lost |
| PeerSignaling.NotifiedBeforeFailure | src/hooks/usePeerJSSignaling.ts:175-184 | an aborted leave has notified only open connections |
| RoomSignaling.RecordKeyIsNotRoomKey | src/hooks/useRoomSignaling.ts:61 | the fallback record's key is not a room key, so storage cleanup never touches it |
| RoomSignaling.PollFilter | src/hooks/useRoomSignaling.ts:143-158 | the poll takes exactly the data of message entries from other users newer than the last poll |
| RoomSignaling.Append | src/hooks/useRoomSignaling.ts:160 | the buffer becomes its newest 49 followed by all incoming messages |
| RoomSignaling.BufferCanExceedFifty | src/hooks/useRoomSignaling.ts:160 | a full buffer that receives two or more messages ends with more than 50 |
| RoomSignaling.ApplyMessages | src/hooks/useRoomSignaling.ts:143-163 | only the message buffer changes, and only when the filter takes something up |
| RoomSignaling.ActiveUsers | src/hooks/useRoomSignaling.ts:167-180 | the active users are the ids of join entries younger than five minutes, each once |
| RoomSignaling.ActiveUsersPrefix | src/hooks/useRoomSignaling.ts:172-180 | first-occurrence order: the users active in a prefix of the entries keep their places whatever entries follow |
| RoomSignaling.ActiveUsersSnoc | src/hooks/useRoomSignaling.ts:172-180 | no entries give no users, and each further entry appends its user when it is a recent join not yet listed and changes nothing otherwise |
| RoomSignaling.ActiveUsersIgnoresOthers | src/hooks/useRoomSignaling.ts:172-180 | an entry that is not a recent join, leave entries included, does not affect the active list |
| RoomSignaling.UsersChangedIff | src/hooks/useRoomSignaling.ts:181 | for duplicate-free lists the change test fires iff the two lists hold different users |
| RoomSignaling.ApplyUsers | src/hooks/useRoomSignaling.ts:167-186 | the user list is replaced by the active users exactly when the change test fires |
| RoomSignaling.ReadRecord | src/hooks/useRoomSignaling.ts:195-198 | a missing or empty record is read as empty, a stored record as itself, and any other stored content as a throw |
| RoomSignaling.FallbackFilter | src/hooks/useRoomSignaling.ts:200-205 | the fallback poll takes exactly the stored messages from others newer than ten seconds before the last poll |
| RoomSignaling.FallbackPoll | src/hooks/useRoomSignaling.ts:190-214 | stored users replace the list when present; filtered stored messages are appended; an unreadable record changes nothing |
| RoomSignaling.Poll | src/hooks/useRoomSignaling.ts:140-215 | a failed request runs the fallback poll on what the earlier steps set; otherwise answered messages are applied, then answered users, then the poll time is set, and a non-OK or non-object answer is skipped |
| RoomSignaling.SendMessage | src/hooks/useRoomSignaling.ts:30-72 | a posted message touches only the buffer; otherwise an unreadable record rejects, and a readable one gets the message after its newest 50 by a write that either completes the send, buffer included, or rejects with state and store as they were |
| RoomSignaling.WriteRecord | src/hooks/useRoomSignaling.ts:65 | a record written to the fallback key is stored exactly when it fits and is then read back as written |
| RoomSignaling.SendFallbackRecord | src/hooks/useRoomSignaling.ts:59-69 | a fallback send completes iff the new record fits; the record then holds the newest 50 stored messages and the sent one, users kept, and the buffer ends with it; a throw leaves the record |
| RoomSignaling.JoinRoom | src/hooks/useRoomSignaling.ts:74-112 | the user becomes current in every case, a rejected join included; an accepted join adds the user if absent; a fallback join rejects on an unreadable record or one without users, keeps a record already listing the user, and otherwise writes it with the user appended, completing or rejecting with the write |
| RoomSignaling.JoinKeepsRecordDistinct | src/hooks/useRoomSignaling.ts:97-109 | a fallback join completes iff the user is listed or the extended record fits; the record then lists the user once, keeps its messages and every other user, and the hook takes its list; a throw leaves the record |
| RoomSignaling.LeaveRoom | src/hooks/useRoomSignaling.ts:114-137 | leaving empties users and messages whatever happens to the notice |
| RoomSignaling.Connect | src/hooks/useRoomSignaling.ts:225-228 | the setup timer connects the hook with no error |
| WebRtcCall.Initialize | src/hooks/useWebRTC.ts:41-46 | an existing connection is kept; otherwise a new one starts in stable with no tracks |
| WebRtcCall.OnTrack | src/hooks/useWebRTC.ts:49-55 | the first stream of the event becomes the remote stream, and nothing else changes |
| WebRtcCall.OnConnectionStateChange | src/hooks/useWebRTC.ts:58-81 | connected iff the state is connected, connecting iff connecting, an error iff failed |
| WebRtcCall.ConnectionChangeStable | src/hooks/useWebRTC.ts:58-81 | the updater returns the state unchanged iff its three fields already agree, and a repeated event changes nothing |
| WebRtcCall.OnSignalingStateChange | src/hooks/useWebRTC.ts:84-94 | the hook takes the connection's signaling state, or stable when the connection is gone |
| WebRtcCall.SignalingEventMirrors | src/hooks/useWebRTC.ts:84-94 | after a signaling event the hook's signaling state matches the connection's |
| WebRtcCall.CreateOffer | src/hooks/useWebRTC.ts:176-208 | an offer is returned iff the connection is stable and the browser resolves; the connection is then in have-local-offer, the hook mirrors it and is the initiator, and nothing else changes; otherwise nothing changes or only the error is recorded |
| WebRtcCall.OfferWhileOffering | src/hooks/useWebRTC.ts:176-208 | a second createOffer while an offer is outstanding returns null and changes nothing |
| WebRtcCall.CreateAnswer | src/hooks/useWebRTC.ts:210-242 | an answer is returned iff the connection is stable or has a local offer and the browser answers; the connection and the hook are then stable and nothing else changes; a refused offer records only its error; a failed answer leaves the connection and the hook in have-remote-offer with its error |
| WebRtcCall.HandleAnswer | src/hooks/useWebRTC.ts:244-274 | only a connection with a local offer accepts an answer, which brings it back to stable; a refusal records its message |
| WebRtcCall.OfferAnswerRoundTrip | src/hooks/useWebRTC.ts:176-274 | an offer, the other side's answer and its acceptance leave both sides stable, with only the offering side the initiator |
| WebRtcCall.GlareResolvedByAnswering | src/hooks/useWebRTC.ts:210-242 | a side with an outstanding offer can still answer the other side's offer and ends stable |
| WebRtcCall.MediaErrorText | src/hooks/useWebRTC.ts:145-172 | the four getUserMedia error names get their fixed texts, other errors show their own message, and other thrown values the fallback |
| WebRtcCall.StartLocalVideo | src/hooks/useWebRTC.ts:108-174 | a stream results iff media devices exist, the context is secure and access is granted; then the stream is kept and its tracks are added to a connection; otherwise exactly the matching error is shown |
| WebRtcCall.ToggleMuteAsWritten | src/hooks/useWebRTC.ts:289-305 | as written, toggleMute leaves the audio track unchanged and only recomputes the flag from it |
| WebRtcCall.ToggleMuteNeverMutes | src/hooks/useWebRTC.ts:289-305 | with the flag agreeing with the track, toggleMute as written changes nothing |
| WebRtcCall.ToggleMute | src/hooks/useWebRTC.ts:289-305 | the corrected toggleMute flips the first audio track and leaves the flag agreeing with it |
| WebRtcCall.ToggleMuteTwice | src/hooks/useWebRTC.ts:289-305 | the corrected toggleMute changes the call and undoes itself when pressed twice |
| WebRtcCall.ToggleVideoAsWritten | src/hooks/useWebRTC.ts:307-323 | as written, toggleVideo leaves the video track unchanged and only recomputes the flag from it |
| WebRtcCall.ToggleVideoNeverTurnsOff | src/hooks/useWebRTC.ts:307-323 | with the flag agreeing with the track, toggleVideo as written changes nothing |
| WebRtcCall.ToggleVideo | src/hooks/useWebRTC.ts:307-323 | the corrected toggleVideo flips the first video track and leaves the flag agreeing with it |
| WebRtcCall.ToggleVideoTwice | src/hooks/useWebRTC.ts:307-323 | the corrected toggleVideo changes the call and undoes itself when pressed twice |
| WebRtcCall.TogglesCommute | src/hooks/useWebRTC.ts:289-323 | muting and turning off video do not interfere: the order of the two presses does not matter |
| WebRtcCall.ResetPeerConnection | src/hooks/useWebRTC.ts:325-357 | a reset clears the remote side, keeps the local stream and the button flags, and gives a stable connection holding the local tracks |
| WebRtcCall.ResetEnablesOffer | src/hooks/useWebRTC.ts:325-357 | after a reset an offer can be made, whatever state the old connection was in |
| WebRtcCall.ResetIdempotent | src/hooks/useWebRTC.ts:325-357 | resetting twice has the same effect as resetting once |
| WebRtcCall.EndCall | src/hooks/useWebRTC.ts:359-384 | ending a call drops the connection and both streams and returns every flag to its initial value |
| WebRtcCall.EndCallForgets | src/hooks/useWebRTC.ts:359-384 | any two sessions that ended are identical |
| WebRtcCall.StartDemoMode | src/hooks/useWebRTC.ts:387-395 | demo mode shows connected with the demo notice and makes a connection if none exists |
| WebRtcCall.DemoOverriddenByConnectionEvent | src/hooks/useWebRTC.ts:58-81 | whatever state the next connection-state event reports, the demo notice is gone; the hook stays connected only on connected and shows an error only on failed |

## Left out

- I/O and timers: the poll intervals, the setup timeouts and the
  join-room timer are not modelled as time. Each timer callback is an
  operation the caller applies.
- React: re-renders, `useCallback` identity, refs to video elements and
  the effect cleanups are left out. A state update is the function it
  applies.
- Outgoing traffic: what a `BroadcastChannel`, a PeerJS connection or a
  POST sends is an output, not modelled beyond who was reached or whether
  the request succeeded. Request URLs and bodies are left out.
- PeerJS lifecycle: creating and destroying the peer object, the peer
  server and `conn.close()` are left out. The events PeerJS delivers are
  inputs.
- JSON: `JSON.stringify` is an abstract `Serialiser` parameter, and a
  stored value carries its parse result. Stored JSON other than the shape
  a reader expects is treated as making the reader throw. In the source,
  a JSON array where `useRoomSignaling` expects a record would instead be
  mutated without effect, and a list of messages in the peer registry
  would be searched and rewritten. Likewise, a stored array that is not a
  message log (another array, or the peer-id list of a room named
  `peers_<room>`) would be spread and rewritten by every `sendMessage`
  (useSignaling.ts:49-51, useRealtimeSignaling.ts:46-51,
  usePeerJSSignaling.ts:61-65), and `loadMessages` would take its last
  ten; the model has these readers throw instead.
- SafeStorage.Rank: an array other than a message log ranks 0. In the
  source, objects in such an array that carry a `timestamp` would rank by
  it.
- Reads: `getItem`'s and `removeItem`'s catch paths (SafeStorage.ts:60-62,
  71-73) are left out, because the model's reads and removals do not
  throw. So is the `getUsageInfo` fallback to zeros.
- SafeStorage.CleanupOldRooms: the catch path that falls back to
  `clearAllRoomData` (SafeStorage.ts:126-130) is left out, because no step
  of the modelled cleanup throws.
- SafeStorage.GetUsageInfo: the floating-point percentage is left out.
- RoomManager: the debug global on `window` (RoomManager.ts:97-99) is left
  out.
- useWebRTC: `addIceCandidate` only logs and is left out, as are the
  `onicecandidate` handler, the data channel, the ICE server list,
  `track.stop()`, `peerConnection.close()` and assigning streams to
  video elements.
- WebRtcCall.CreateOffer: `createOffer` and `setLocalDescription` failing
  are one rejection, because either leaves the connection where it was.
- WebRtcCall.CreateAnswer: the browser's rollback of a local offer is
  assumed from the WebRTC 1.0 state machine. The hook does not perform it.
- PeerSignaling.SetConn: its own contract states only membership.
  `SetConnPeers` states the order of the keys.

## Findings

| source | as written | input that shows it | evidently intended | confidence | as-written member | corrected member |
|---|---|---|---|---|---|---|
| src/hooks/useWebRTC.ts:293-294 | `newMutedState = !audioTrack.enabled` then `audioTrack.enabled = !newMutedState`, which sets the track to the value it already has | a local stream whose first audio track is enabled, with `isMuted` false: `toggleMute` leaves the microphone live and the flag false, however often it is pressed | disable an enabled track and set `isMuted`, and the reverse | not executed | WebRtcCall.ToggleMuteNeverMutes | WebRtcCall.ToggleMuteTwice |
| src/hooks/useWebRTC.ts:311-312 | the same double negation in `toggleVideo` | a local stream whose first video track is enabled, with `isVideoOff` false: `toggleVideo` leaves the camera on | disable an enabled video track and set `isVideoOff`, and the reverse | not executed | WebRtcCall.ToggleVideoNeverTurnsOff | WebRtcCall.ToggleVideoTwice |
