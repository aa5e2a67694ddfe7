/** The `SignalingMessage` record every transport hook declares (identically)
    and the values the browser's storage holds once `JSON.parse` has read
    them. */
module Signals {
  import opened Basics

  datatype Kind =
    | Offer | Answer | IceCandidate | JoinRoom | LeaveRoom | UserJoined | UserLeft

  /** All optional fields of the TypeScript interface are `Option`s; the
      payload is opaque to every hook and stands for any JSON value. */
  datatype Message = Message(
    kind: Kind,
    data: Option<string>,
    roomId: Option<string>,
    userId: Option<string>,
    timestamp: Option<int>,
    id: Option<string>)

  /** `m.timestamp || 0` */
  function StampOrZero(m: Message): int {
    match m.timestamp
    case Some(t) => t
    case None => 0
  }

  /** JavaScript truthiness of an optional string: present and non-empty. */
  predicate Truthy(s: Option<string>) {
    s.Some? && s.value != ""
  }

  /** `{ ...message, roomId, timestamp: Date.now(), id }`: the clock reading
      and the random id are inputs. */
  function Stamp(m: Message, room: string, now: int, id: string): (r: Message)
    ensures r.kind == m.kind && r.data == m.data && r.userId == m.userId
    ensures r.roomId == Some(room) && r.timestamp == Some(now) && r.id == Some(id)
  {
    m.(roomId := Some(room), timestamp := Some(now), id := Some(id))
  }

  /** What `JSON.parse` makes of a stored string. The two array shapes the
      program writes are told apart by their elements (an empty array reads
      as an empty message log); `RoomRecord` is the `{ messages, users }`
      object of the HTTP transport's fallback; `OtherArray` is any other
      array, of which only the length matters; `OtherJson` is any other valid
      JSON that is not an array; `Unparseable` is text on which `JSON.parse`
      throws. */
  datatype Parsed =
    | MessageLog(msgs: seq<Message>)
    | PeerIds(ids: seq<string>)
    | RoomRecord(messages: Option<seq<Message>>, users: Option<seq<string>>)
    | OtherArray(length: nat)
    | OtherJson
    | Unparseable

  /** A stored value: its raw text (whose length the storage accounting uses)
      and the outcome of parsing it. */
  datatype StoredValue = StoredValue(text: string, content: Parsed)

  /** `JSON.stringify`, which the model leaves abstract: any serialiser
      whose output is never the empty string. */
  type Serialiser = f: Parsed -> string | forall p :: f(p) != "" witness (p: Parsed) => "[]"

  /** `Array.isArray(v) ? v.length : 0` */
  function ArrayLength(p: Parsed): (r: nat)
    ensures p.MessageLog? ==> r == |p.msgs|
    ensures p.PeerIds? ==> r == |p.ids|
    ensures p.OtherArray? ==> r == p.length
    ensures p.RoomRecord? || p.OtherJson? || p.Unparseable? ==> r == 0
  {
    match p
    case MessageLog(ms) => |ms|
    case PeerIds(ids) => |ids|
    case OtherArray(n) => n
    case _ => 0
  }

  /** JavaScript's `length` of a string: the number of UTF-16 code units,
      two for a character outside the Basic Multilingual Plane. */
  function Utf16Length(s: string): (r: nat)
    ensures |s| <= r <= 2 * |s|
    ensures r == 0 <==> s == ""
  {
    if s == [] then 0 else (if s[0] as int >= 0x1_0000 then 2 else 1) + Utf16Length(s[1..])
  }

  /** The code units of a concatenation are those of its parts. */
  lemma {:induction false} Utf16LengthAppend(a: string, b: string)
    ensures Utf16Length(a + b) == Utf16Length(a) + Utf16Length(b)
  {
    if a == [] {
      assert a + b == b;
    } else {
      assert (a + b)[0] == a[0] && (a + b)[1..] == a[1..] + b;
      Utf16LengthAppend(a[1..], b);
    }
  }
}
