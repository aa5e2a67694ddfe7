/** `useWebRTC`: the call state of one peer connection. The browser's
    `RTCPeerConnection` is reduced to its signaling state and the ids of the
    tracks added to it; what the browser answers to each asynchronous call
    (a description, or a thrown error) is an input of the handler. */
module WebRtcCall {
  import opened Basics

  /** `RTCSignalingState` */
  datatype SignalingState =
    | Stable | HaveLocalOffer | HaveRemoteOffer | HaveLocalPranswer | HaveRemotePranswer | SignalingClosed

  /** `RTCPeerConnectionState` */
  datatype ConnectionState = New | Connecting | Connected | Disconnected | Failed | Closed

  datatype Track = Track(id: nat, enabled: bool)

  /** A media stream: its audio tracks and its video tracks, in order. */
  datatype Stream = Stream(audio: seq<Track>, video: seq<Track>)

  /** `stream.getTracks()`: the audio tracks, then the video tracks. */
  function TrackIds(s: Stream): (r: seq<nat>)
    ensures |r| == |s.audio| + |s.video|
    ensures forall i :: 0 <= i < |s.audio| ==> r[i] == s.audio[i].id
    ensures forall i :: 0 <= i < |s.video| ==> r[|s.audio| + i] == s.video[i].id
  {
    seq(|s.audio|, i requires 0 <= i < |s.audio| => s.audio[i].id) +
    seq(|s.video|, i requires 0 <= i < |s.video| => s.video[i].id)
  }

  /** The hook's `WebRTCState`. */
  datatype CallState = CallState(
    localStream: Option<Stream>,
    remoteStream: Option<Stream>,
    isConnected: bool,
    isConnecting: bool,
    error: Option<string>,
    isMuted: bool,
    isVideoOff: bool,
    signalingState: SignalingState,
    isInitiator: bool)

  const Initial := CallState(None, None, false, false, None, false, false, Stable, false)

  /** The peer connection behind the `peerConnection` ref. */
  datatype PeerConn = PeerConn(signaling: SignalingState, senders: seq<nat>)

  const NewConn := PeerConn(Stable, [])

  /** The hook state together with the peer connection ref. */
  datatype Session = Session(state: CallState, pc: Option<PeerConn>)

  const Start := Session(Initial, None)

  /** What a rejected promise or a `throw` carries: an `Error` object, or
      some other value. */
  datatype Thrown = ErrorObject(name: string, message: string) | OtherValue

  /** How an awaited browser call settles. */
  datatype Reply<T> = Resolved(value: T) | Rejected(thrown: Thrown)

  /** An SDP description as the browser hands it out. */
  datatype Description = Description(sdp: string)

  /** `error instanceof Error ? error.message : fallback` */
  function ErrorText(t: Thrown, fallback: string): (r: string)
    ensures t.ErrorObject? ==> r == t.message
    ensures t.OtherValue? ==> r == fallback
  {
    match t
    case ErrorObject(_, message) => message
    case OtherValue => fallback
  }

  /** The hook's signaling state mirrors that of its peer connection, and
      is `stable` while there is none. */
  predicate Mirrors(h: Session) {
    match h.pc
    case None => h.state.signalingState == Stable
    case Some(c) => h.state.signalingState == c.signaling
  }

  // ---------------------------------------------------------------------
  // Peer connection events

  /** `initializePeerConnection`: a new connection, unless one exists. */
  function Initialize(pc: Option<PeerConn>): (r: PeerConn)
    ensures pc.Some? ==> r == pc.value
    ensures pc.None? ==> r.signaling == Stable && r.senders == []
  {
    match pc
    case Some(c) => c
    case None => NewConn
  }

  /** `ontrack`: the first stream of the event becomes the remote stream
      (`undefined` when the event carries none). */
  function OnTrack(st: CallState, streams: seq<Stream>): (r: CallState)
    ensures |streams| > 0 ==> r.remoteStream == Some(streams[0])
    ensures |streams| == 0 ==> r.remoteStream.None?
    ensures r == st.(remoteStream := r.remoteStream)
  {
    st.(remoteStream := if |streams| > 0 then Some(streams[0]) else None)
  }

  const ConnectionFailed := "Connection failed"

  /** `onconnectionstatechange`: connected and connecting follow the new
      connection state, the error is set exactly when it failed and cleared
      otherwise; a state whose three fields already agree is returned as it
      was. The argument is `None` when the ref was cleared before the
      handler ran. */
  function OnConnectionStateChange(st: CallState, cs: Option<ConnectionState>): (r: CallState)
    ensures r.isConnected <==> cs == Some(Connected)
    ensures r.isConnecting <==> cs == Some(Connecting)
    ensures r.error.Some? <==> cs == Some(Failed)
    ensures r.error.Some? ==> r.error.value == ConnectionFailed
    ensures r == st.(isConnected := r.isConnected, isConnecting := r.isConnecting, error := r.error)
  {
    var connected := cs == Some(Connected);
    var connecting := cs == Some(Connecting);
    var error := if cs == Some(Failed) then Some(ConnectionFailed) else None;
    if st.isConnected != connected || st.isConnecting != connecting || st.error != error then
      st.(isConnected := connected, isConnecting := connecting, error := error)
    else
      st
  }

  /** The updater leaves a state alone exactly when its three fields already
      match the connection state, and a repeated event changes nothing. */
  lemma ConnectionChangeStable(st: CallState, cs: Option<ConnectionState>)
    ensures OnConnectionStateChange(st, cs) == st <==>
              (st.isConnected <==> cs == Some(Connected)) &&
              (st.isConnecting <==> cs == Some(Connecting)) &&
              st.error == (if cs == Some(Failed) then Some(ConnectionFailed) else None)
    ensures OnConnectionStateChange(OnConnectionStateChange(st, cs), cs) == OnConnectionStateChange(st, cs)
  {
  }

  /** `onsignalingstatechange`: the connection's signaling state, `stable`
      when the ref was cleared. */
  function OnSignalingStateChange(st: CallState, ss: Option<SignalingState>): (r: CallState)
    ensures ss.Some? ==> r.signalingState == ss.value
    ensures ss.None? ==> r.signalingState == Stable
    ensures r == st.(signalingState := r.signalingState)
  {
    var next := match ss case Some(s) => s case None => Stable;
    if st.signalingState != next then st.(signalingState := next) else st
  }

  /** A signaling event of the hook's own connection keeps the mirror. */
  lemma SignalingEventMirrors(h: Session)
    requires h.pc.Some?
    ensures Mirrors(Session(OnSignalingStateChange(h.state, Some(h.pc.value.signaling)), h.pc))
  {
  }

  /** The browser moves its connection to `next` and fires
      `signalingstatechange`. */
  function Move(h: Session, next: SignalingState): (r: Session)
    requires h.pc.Some?
    ensures Mirrors(r)
    ensures r.pc == Some(h.pc.value.(signaling := next))
    ensures r.state == h.state.(signalingState := next)
  {
    Session(OnSignalingStateChange(h.state, Some(next)), Some(h.pc.value.(signaling := next)))
  }

  // ---------------------------------------------------------------------
  // Negotiation

  /** A handler's new session and the description it returns (`null` is
      `None`). */
  datatype Negotiated = Negotiated(session: Session, desc: Option<Description>)

  /** `createOffer`: only a connection in `stable` makes an offer. The
      browser's answer to `createOffer` and `setLocalDescription` is
      `reply`; once the local offer is set the connection is in
      `have-local-offer` and the hook is the initiator. A rejection records
      its message and returns `null`. */
  function CreateOffer(h: Session, reply: Reply<Description>): (r: Negotiated)
    ensures r.desc.Some? <==> h.pc.Some? && h.pc.value.signaling == Stable && reply.Resolved?
    ensures r.desc.Some? ==> r.desc.value == reply.value
    ensures r.desc.Some? ==> r.session.state.isInitiator && r.session.pc.Some? && r.session.pc.value.signaling == HaveLocalOffer
    ensures r.desc.Some? ==> r.session.pc.Some? && r.session.pc.value.senders == h.pc.value.senders
    ensures r.desc.Some? ==> r.session.state == h.state.(signalingState := HaveLocalOffer, isInitiator := true)
    ensures r.desc.Some? ==> r.session.pc == Some(h.pc.value.(signaling := HaveLocalOffer))
    ensures (h.pc.None? || h.pc.value.signaling != Stable) ==> r.session == h
    ensures h.pc.Some? && h.pc.value.signaling == Stable && reply.Rejected? ==>
              r.session == Session(h.state.(error := Some(ErrorText(reply.thrown, "Failed to create offer"))), h.pc)
    ensures Mirrors(h) ==> Mirrors(r.session)
  {
    match h.pc
    case None => Negotiated(h, None)
    case Some(c) =>
      if c.signaling != Stable then Negotiated(h, None)
      else
        match reply
        case Resolved(offer) =>
          var moved := Move(h, HaveLocalOffer);
          Negotiated(moved.(state := moved.state.(isInitiator := true)), Some(offer))
        case Rejected(t) =>
          Negotiated(h.(state := h.state.(error := Some(ErrorText(t, "Failed to create offer")))), None)
  }

  /** A second `createOffer` while the first offer is outstanding returns
      `null` and changes nothing. */
  lemma OfferWhileOffering(h: Session, first: Description, second: Reply<Description>)
    requires h.pc.Some? && h.pc.value.signaling == Stable
    ensures var once := CreateOffer(h, Resolved(first)).session;
            CreateOffer(once, second) == Negotiated(once, None)
  {
  }

  /** How the browser settles `createAnswer`'s three awaited calls: the remote
      offer is refused (nothing changed), or accepted and then the answer
      fails (the connection stays in `have-remote-offer`), or the answer is
      made and set. */
  datatype AnswerReply =
    | RemoteRefused(thrown: Thrown)
    | AnswerFailed(reason: Thrown)
    | Answered(answer: Description)

  /** `createAnswer`: only a connection in `stable` or `have-local-offer`
      takes the remote offer (in `have-local-offer` the browser rolls its
      own offer back first). A set answer brings the connection back to
      `stable`; `isInitiator` is left as it was. */
  function CreateAnswer(h: Session, reply: AnswerReply): (r: Negotiated)
    ensures r.desc.Some? <==>
              h.pc.Some? && (h.pc.value.signaling == Stable || h.pc.value.signaling == HaveLocalOffer) && reply.Answered?
    ensures r.desc.Some? ==> r.desc.value == reply.answer && r.session.pc.Some? && r.session.pc.value.signaling == Stable
    ensures (h.pc.None? || (h.pc.value.signaling != Stable && h.pc.value.signaling != HaveLocalOffer)) ==> r.session == h
    ensures h.pc.Some? && (h.pc.value.signaling == Stable || h.pc.value.signaling == HaveLocalOffer) ==>
              (reply.RemoteRefused? ==> r.session.pc == h.pc) &&
              (reply.AnswerFailed? ==> r.session.pc.Some? && r.session.pc.value.signaling == HaveRemoteOffer)
    ensures h.pc.Some? && (h.pc.value.signaling == Stable || h.pc.value.signaling == HaveLocalOffer) ==>
              (reply.RemoteRefused? ==>
                 r.session == Session(h.state.(error := Some(ErrorText(reply.thrown, "Failed to create answer"))), h.pc)) &&
              (reply.AnswerFailed? ==>
                 r.session == Session(h.state.(signalingState := HaveRemoteOffer,
                                               error := Some(ErrorText(reply.reason, "Failed to create answer"))),
                                      Some(h.pc.value.(signaling := HaveRemoteOffer)))) &&
              (reply.Answered? ==>
                 r.session == Session(h.state.(signalingState := Stable), Some(h.pc.value.(signaling := Stable))))
    ensures r.session.state.isInitiator == h.state.isInitiator
    ensures r.session.pc.Some? ==> h.pc.Some? && r.session.pc.value.senders == h.pc.value.senders
    ensures !reply.Answered? && r.session != h ==>
              r.session.state.error == Some(ErrorText(if reply.RemoteRefused? then reply.thrown else reply.reason,
                                                      "Failed to create answer"))
    ensures Mirrors(h) ==> Mirrors(r.session)
  {
    match h.pc
    case None => Negotiated(h, None)
    case Some(c) =>
      if c.signaling != Stable && c.signaling != HaveLocalOffer then Negotiated(h, None)
      else
        match reply
        case RemoteRefused(t) =>
          Negotiated(h.(state := h.state.(error := Some(ErrorText(t, "Failed to create answer")))), None)
        case AnswerFailed(t) =>
          var remote := Move(h, HaveRemoteOffer);
          Negotiated(remote.(state := remote.state.(error := Some(ErrorText(t, "Failed to create answer")))), None)
        case Answered(answer) =>
          Negotiated(Move(Move(h, HaveRemoteOffer), Stable), Some(answer))
  }

  /** How `setRemoteDescription(answer)` settles. */
  datatype Settled = Accepted | Refused(thrown: Thrown)

  /** `handleAnswer`: only a connection in `have-local-offer` takes a remote
      answer, which brings it back to `stable`. */
  function HandleAnswer(h: Session, reply: Settled): (r: Session)
    ensures h.pc.None? || h.pc.value.signaling != HaveLocalOffer ==> r == h
    ensures h.pc.Some? && h.pc.value.signaling == HaveLocalOffer && reply.Accepted? ==>
              r.pc == Some(h.pc.value.(signaling := Stable)) && r.state == h.state.(signalingState := Stable)
    ensures h.pc.Some? && h.pc.value.signaling == HaveLocalOffer && reply.Refused? ==>
              r == Session(h.state.(error := Some(ErrorText(reply.thrown, "Failed to handle answer"))), h.pc)
    ensures Mirrors(h) ==> Mirrors(r)
  {
    match h.pc
    case None => h
    case Some(c) =>
      if c.signaling != HaveLocalOffer then h
      else
        match reply
        case Accepted => Move(h, Stable)
        case Refused(t) => h.(state := h.state.(error := Some(ErrorText(t, "Failed to handle answer"))))
  }

  /** An offer from one side, answered by the other and handed back, leaves
      both connections in `stable` again, with the offering side marked as
      the initiator. */
  lemma OfferAnswerRoundTrip(a: Session, b: Session, offer: Description, answer: Description)
    requires a.pc.Some? && a.pc.value.signaling == Stable && Mirrors(a)
    requires b.pc.Some? && b.pc.value.signaling == Stable && Mirrors(b)
    ensures var a1 := CreateOffer(a, Resolved(offer));
            var b1 := CreateAnswer(b, Answered(answer));
            var a2 := HandleAnswer(a1.session, Accepted);
            a1.desc == Some(offer) && b1.desc == Some(answer) &&
            a2.pc.Some? && a2.pc.value.signaling == Stable && a2.state.signalingState == Stable &&
            b1.session.pc.Some? && b1.session.pc.value.signaling == Stable && b1.session.state.signalingState == Stable &&
            a2.state.isInitiator && b1.session.state.isInitiator == b.state.isInitiator
  {
  }

  /** When both sides offer at once, the side whose offer is still
      outstanding can answer the other's offer: the browser rolls its own
      offer back, and it ends in `stable`, still marked as the initiator. */
  lemma GlareResolvedByAnswering(a: Session, offer: Description, answer: Description)
    requires a.pc.Some? && a.pc.value.signaling == Stable && Mirrors(a)
    ensures var a1 := CreateOffer(a, Resolved(offer)).session;
            var a2 := CreateAnswer(a1, Answered(answer));
            a2.desc == Some(answer) && a2.session.pc.value.signaling == Stable &&
            a2.session.state.isInitiator && Mirrors(a2.session)
  {
  }

  // ---------------------------------------------------------------------
  // Media

  const Unsupported :=
    "Camera/microphone access not supported in this browser. Please use a modern browser like Chrome, Firefox, or Safari."
  const NeedsHttps :=
    "Camera access requires HTTPS. This app works best when deployed to a secure server."
  const MediaFallback := "Failed to access camera/microphone"
  const Denied :=
    "Camera/microphone access denied. Please click the camera icon in your browser's address bar and allow permissions, then refresh the page."
  const NoDevice :=
    "No camera/microphone found. Please connect a camera and microphone and refresh the page."
  const NotSupported :=
    "Camera/microphone not supported. Please use a modern browser like Chrome, Firefox, or Safari."
  const InUse :=
    "Camera/microphone is being used by another application. Please close other apps using your camera and try again."

  /** The message `startLocalVideo` shows for what it caught: a fixed text
      for the four `getUserMedia` error names, the error's own message for
      any other `Error`, and a fallback for anything else thrown. */
  function MediaErrorText(t: Thrown): (r: string)
    ensures t.OtherValue? ==> r == MediaFallback
    ensures t.ErrorObject? && t.name == "NotAllowedError" ==> r == Denied
    ensures t.ErrorObject? && t.name == "NotFoundError" ==> r == NoDevice
    ensures t.ErrorObject? && t.name == "NotSupportedError" ==> r == NotSupported
    ensures t.ErrorObject? && t.name == "NotReadableError" ==> r == InUse
    ensures t.ErrorObject? && t.name !in {"NotAllowedError", "NotFoundError", "NotSupportedError", "NotReadableError"} ==>
              r == t.message
  {
    match t
    case OtherValue => MediaFallback
    case ErrorObject(name, message) =>
      if name == "NotAllowedError" then Denied
      else if name == "NotFoundError" then NoDevice
      else if name == "NotSupportedError" then NotSupported
      else if name == "NotReadableError" then InUse
      else message
  }

  /** `startLocalVideo`'s new session and the stream it resolves with
      (`None`: it threw, with the error's text as message). */
  datatype Started = Started(session: Session, stream: Option<Stream>)

  /** `startLocalVideo`: clears the error, checks for `getUserMedia` and a
      secure context (each missing one throws an `Error` whose message is
      then shown as it is), asks for the camera and microphone (`media` is
      the browser's answer), and on success keeps the stream, makes sure a
      peer connection exists and adds the stream's tracks to it. */
  function StartLocalVideo(h: Session, hasMediaDevices: bool, secureContext: bool, media: Reply<Stream>): (r: Started)
    ensures r.stream.Some? <==> hasMediaDevices && secureContext && media.Resolved?
    ensures r.stream.None? <==> r.session.state.error.Some?
    ensures !hasMediaDevices ==> r.session.state.error == Some(Unsupported)
    ensures hasMediaDevices && !secureContext ==> r.session.state.error == Some(NeedsHttps)
    ensures hasMediaDevices && secureContext && media.Rejected? ==>
              r.session.state.error == Some(MediaErrorText(media.thrown))
    ensures r.stream.None? ==> r.session == Session(h.state.(error := r.session.state.error), h.pc)
    ensures r.stream.Some? ==>
              r.stream.value == media.value &&
              r.session.state == h.state.(error := None, localStream := Some(media.value)) &&
              r.session.pc == Some(Initialize(h.pc).(senders := Initialize(h.pc).senders + TrackIds(media.value)))
    ensures Mirrors(h) ==> Mirrors(r.session)
  {
    var cleared := h.state.(error := None);
    if !hasMediaDevices then Started(Session(cleared.(error := Some(Unsupported)), h.pc), None)
    else if !secureContext then Started(Session(cleared.(error := Some(NeedsHttps)), h.pc), None)
    else
      match media
      case Rejected(t) => Started(Session(cleared.(error := Some(MediaErrorText(t))), h.pc), None)
      case Resolved(stream) =>
        var c := Initialize(h.pc);
        Started(Session(cleared.(localStream := Some(stream)), Some(c.(senders := c.senders + TrackIds(stream)))), Some(stream))
  }

  /** The first track of a list with its `enabled` set. */
  function SetFirstEnabled(tracks: seq<Track>, enabled: bool): (r: seq<Track>)
    requires |tracks| > 0
    ensures |r| == |tracks| && r[0] == tracks[0].(enabled := enabled) && r[1..] == tracks[1..]
  {
    [tracks[0].(enabled := enabled)] + tracks[1..]
  }

  /** The muted flag agrees with the first audio track. */
  predicate AudioAgrees(st: CallState) {
    st.localStream.Some? && |st.localStream.value.audio| > 0 &&
    st.isMuted == !st.localStream.value.audio[0].enabled
  }

  /** The video-off flag agrees with the first video track. */
  predicate VideoAgrees(st: CallState) {
    st.localStream.Some? && |st.localStream.value.video| > 0 &&
    st.isVideoOff == !st.localStream.value.video[0].enabled
  }

  /** `toggleMute` as the hook has it: the new muted flag is the negation of
      the track's `enabled`, and the track is then set to the negation of
      that flag — to what it already was. */
  function ToggleMuteAsWritten(st: CallState): (r: CallState)
    ensures r.localStream == st.localStream
    ensures st.localStream.Some? && |st.localStream.value.audio| > 0 ==>
              r == st.(isMuted := !st.localStream.value.audio[0].enabled)
    ensures st.localStream.None? || |st.localStream.value.audio| == 0 ==> r == st
  {
    match st.localStream
    case None => st
    case Some(stream) =>
      if |stream.audio| == 0 then st
      else
        var muted := !stream.audio[0].enabled;
        var audio := SetFirstEnabled(stream.audio, !muted);
        assert audio == stream.audio;
        st.(localStream := Some(stream.(audio := audio)), isMuted := muted)
  }

  /** The discrepancy: with a live microphone and the button showing
      "unmuted", `toggleMute` leaves the microphone live and the button as it
      was; no number of presses mutes the call. */
  lemma ToggleMuteNeverMutes(st: CallState)
    requires AudioAgrees(st)
    ensures ToggleMuteAsWritten(st) == st
  {
  }

  lemma ToggleMuteNeverMutesExample()
    ensures var live := CallState(Some(Stream([Track(1, true)], [])), None, true, false, None, false, false, Stable, false);
            ToggleMuteAsWritten(live).localStream.value.audio[0].enabled && !ToggleMuteAsWritten(live).isMuted
  {
  }

  /** `toggleMute` as intended: an enabled track is disabled and the call
      muted, a disabled one enabled and the call unmuted. */
  function ToggleMute(st: CallState): (r: CallState)
    ensures st.localStream.None? || |st.localStream.value.audio| == 0 ==> r == st
    ensures st.localStream.Some? && |st.localStream.value.audio| > 0 ==>
              var before := st.localStream.value;
              r.localStream.Some? && |r.localStream.value.audio| == |before.audio| &&
              r.localStream.value.audio[0] == before.audio[0].(enabled := !before.audio[0].enabled) &&
              r.localStream.value.audio[1..] == before.audio[1..] &&
              r.localStream.value.video == before.video &&
              AudioAgrees(r) &&
              r == st.(localStream := r.localStream, isMuted := r.isMuted)
  {
    match st.localStream
    case None => st
    case Some(stream) =>
      if |stream.audio| == 0 then st
      else
        var muted := stream.audio[0].enabled;
        st.(localStream := Some(stream.(audio := SetFirstEnabled(stream.audio, !muted))), isMuted := muted)
  }

  /** Pressing the corrected mute button twice restores the call as it was. */
  lemma {:induction false} ToggleMuteTwice(st: CallState)
    requires AudioAgrees(st)
    ensures ToggleMute(st) != st
    ensures ToggleMute(ToggleMute(st)) == st
  {
    var s := st.localStream.value;
    var once := ToggleMute(st);
    var twice := ToggleMute(once);
    var a := twice.localStream.value.audio;
    assert a[0] == s.audio[0];
    assert a == [a[0]] + a[1..];
    assert s.audio == [s.audio[0]] + s.audio[1..];
    assert a == s.audio;
    assert twice.localStream == st.localStream;
  }

  /** `toggleVideo` as the hook has it, with the same double negation as
      `toggleMute`. */
  function ToggleVideoAsWritten(st: CallState): (r: CallState)
    ensures r.localStream == st.localStream
    ensures st.localStream.Some? && |st.localStream.value.video| > 0 ==>
              r == st.(isVideoOff := !st.localStream.value.video[0].enabled)
    ensures st.localStream.None? || |st.localStream.value.video| == 0 ==> r == st
  {
    match st.localStream
    case None => st
    case Some(stream) =>
      if |stream.video| == 0 then st
      else
        var off := !stream.video[0].enabled;
        var video := SetFirstEnabled(stream.video, !off);
        assert video == stream.video;
        st.(localStream := Some(stream.(video := video)), isVideoOff := off)
  }

  /** With the camera on, `toggleVideo` leaves it on. */
  lemma ToggleVideoNeverTurnsOff(st: CallState)
    requires VideoAgrees(st)
    ensures ToggleVideoAsWritten(st) == st
  {
  }

  /** `toggleVideo` as intended. */
  function ToggleVideo(st: CallState): (r: CallState)
    ensures st.localStream.None? || |st.localStream.value.video| == 0 ==> r == st
    ensures st.localStream.Some? && |st.localStream.value.video| > 0 ==>
              var before := st.localStream.value;
              r.localStream.Some? && |r.localStream.value.video| == |before.video| &&
              r.localStream.value.video[0] == before.video[0].(enabled := !before.video[0].enabled) &&
              r.localStream.value.video[1..] == before.video[1..] &&
              r.localStream.value.audio == before.audio &&
              VideoAgrees(r) &&
              r == st.(localStream := r.localStream, isVideoOff := r.isVideoOff)
  {
    match st.localStream
    case None => st
    case Some(stream) =>
      if |stream.video| == 0 then st
      else
        var off := stream.video[0].enabled;
        st.(localStream := Some(stream.(video := SetFirstEnabled(stream.video, !off))), isVideoOff := off)
  }

  lemma {:induction false} ToggleVideoTwice(st: CallState)
    requires VideoAgrees(st)
    ensures ToggleVideo(st) != st
    ensures ToggleVideo(ToggleVideo(st)) == st
  {
    var s := st.localStream.value;
    var twice := ToggleVideo(ToggleVideo(st));
    var v := twice.localStream.value.video;
    assert v[0] == s.video[0];
    assert v == [v[0]] + v[1..];
    assert s.video == [s.video[0]] + s.video[1..];
    assert v == s.video;
    assert twice.localStream == st.localStream;
  }

  /** The two buttons act on different tracks and flags. */
  lemma TogglesCommute(st: CallState)
    requires AudioAgrees(st) && VideoAgrees(st)
    ensures ToggleMute(ToggleVideo(st)) == ToggleVideo(ToggleMute(st))
  {
  }

  // ---------------------------------------------------------------------
  // Lifecycle

  /** `resetPeerConnection`: the old connection is closed and a new one made
      with the local tracks added again; the remote side of the call state
      is cleared while the local stream and the two button flags stay. */
  function ResetPeerConnection(h: Session): (r: Session)
    ensures r.state.remoteStream.None? && !r.state.isConnected && !r.state.isConnecting
    ensures r.state.signalingState == Stable && !r.state.isInitiator && r.state.error.None?
    ensures r.state.localStream == h.state.localStream
    ensures r.state.isMuted == h.state.isMuted && r.state.isVideoOff == h.state.isVideoOff
    ensures r.pc.Some? && r.pc.value.signaling == Stable
    ensures h.state.localStream.Some? ==> r.pc.value.senders == TrackIds(h.state.localStream.value)
    ensures h.state.localStream.None? ==> r.pc.value.senders == []
    ensures Mirrors(r)
  {
    var st := h.state.(remoteStream := None, isConnected := false, isConnecting := false,
                       signalingState := Stable, isInitiator := false, error := None);
    var c := Initialize(None);
    var senders := match h.state.localStream case Some(s) => TrackIds(s) case None => [];
    Session(st, Some(c.(senders := senders)))
  }

  /** After a reset the hook can offer again, whatever state the old
      connection was stuck in. */
  lemma ResetEnablesOffer(h: Session, offer: Description)
    ensures CreateOffer(ResetPeerConnection(h), Resolved(offer)).desc == Some(offer)
  {
  }

  /** Resetting twice is resetting once. */
  lemma ResetIdempotent(h: Session)
    ensures ResetPeerConnection(ResetPeerConnection(h)) == ResetPeerConnection(h)
  {
  }

  /** `endCall`: the tracks are stopped, the connection closed and the ref
      cleared, and the call state goes back to the hook's initial state. */
  function EndCall(h: Session): (r: Session)
    ensures r.pc.None? && r.state.localStream.None? && r.state.remoteStream.None?
    ensures !r.state.isConnected && !r.state.isConnecting && r.state.error.None?
    ensures !r.state.isMuted && !r.state.isVideoOff && !r.state.isInitiator
    ensures Mirrors(r)
  {
    Start
  }

  /** After `endCall` nothing of the earlier call is left: two sessions that
      ended behave alike from then on. */
  lemma EndCallForgets(h1: Session, h2: Session)
    ensures EndCall(h1) == EndCall(h2) == Start
  {
  }

  const DemoNotice := "Demo mode: Camera access not available. Using placeholder mode."

  /** `startDemoMode`: shown as connected, with the demo notice in the error
      field, and with a peer connection made if there was none. */
  function StartDemoMode(h: Session): (r: Session)
    ensures r.state == h.state.(error := Some(DemoNotice), isConnected := true, isConnecting := false)
    ensures r.pc.Some? && (h.pc.Some? ==> r.pc == h.pc)
    ensures h.pc.None? ==> r.pc == Some(NewConn)
    ensures Mirrors(h) ==> Mirrors(r)
  {
    Session(h.state.(error := Some(DemoNotice), isConnected := true, isConnecting := false), Some(Initialize(h.pc)))
  }

  /** The demo display is not sticky: whatever state the next
      connection-state event reports, it removes the demo notice; only a
      `connected` event leaves the hook shown as connected, and only a
      `failed` event leaves an error, the connection-failed one. */
  lemma DemoOverriddenByConnectionEvent(h: Session, cs: Option<ConnectionState>)
    ensures var e := OnConnectionStateChange(StartDemoMode(h).state, cs);
            e.error != Some(DemoNotice) &&
            (cs != Some(Connected) ==> !e.isConnected) &&
            (cs != Some(Failed) ==> e.error.None?) &&
            (cs == Some(Failed) ==> e.error == Some(ConnectionFailed))
  {
  }
}
