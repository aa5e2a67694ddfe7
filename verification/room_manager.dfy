/** `RoomManager`: the room-level view of the storage area — which rooms
    have stored data, clearing them, and a size summary. */
module RoomManager {
  import opened Basics
  import opened Sorting
  import opened Signals
  import opened SafeStorage

  /** A room key is the room prefix followed by the room id. */
  lemma RoomKeyShape(k: string)
    requires IsRoomKey(k)
    ensures k == RoomPrefix + k[|RoomPrefix|..]
  {
  }

  lemma PrefixedIsRoomKey(id: string)
    ensures IsRoomKey(RoomPrefix + id)
    ensures (RoomPrefix + id)[|RoomPrefix|..] == id
  {
  }

  /** `clearAllRoomData`: collects the room keys in enumeration order, then
      removes each through `SafeStorage.removeItem`. It ends where the
      storage layer's own emergency clear ends. */
  method ClearAllRooms(s: Store) returns (r: Store)
    requires Valid(s)
    ensures Valid(r)
    ensures r.values == SafeStorage.ClearAllRoomData(s).values
  {
    var toRemove: seq<string> := [];
    var i := 0;
    while i < |s.keys|
      invariant 0 <= i <= |s.keys|
      invariant forall x :: x in toRemove <==> x in s.keys[..i] && IsRoomKey(x)
    {
      assert s.keys[..i + 1] == s.keys[..i] + [s.keys[i]];
      if IsRoomKey(s.keys[i]) {
        toRemove := toRemove + [s.keys[i]];
      }
      i := i + 1;
    }
    assert s.keys[..i] == s.keys;
    r := s;
    var j := 0;
    while j < |toRemove|
      invariant 0 <= j <= |toRemove|
      invariant Valid(r)
      invariant r.values == s.values - Elements(toRemove[..j])
    {
      ElementsStep(toRemove, j);
      MinusStep(s.values, Elements(toRemove[..j]), toRemove[j]);
      r := RemoveItem(r, toRemove[j]);
      j := j + 1;
    }
    assert toRemove[..j] == toRemove;
    RoomKeysCollected(s, toRemove);
  }

  /** Taking out the collected room keys is clearing all room data. */
  lemma RoomKeysCollected(s: Store, toRemove: seq<string>)
    requires Valid(s)
    requires forall x :: x in toRemove <==> x in s.keys && IsRoomKey(x)
    ensures s.values - Elements(toRemove) == SafeStorage.ClearAllRoomData(s).values
  {
    var a := s.values - Elements(toRemove);
    var b := SafeStorage.ClearAllRoomData(s).values;
    assert a.Keys == b.Keys;
  }

  /** `clearRoomData(roomId)` */
  function ClearRoomData(s: Store, room: string): (r: Store)
    requires Valid(s)
    ensures Valid(r)
    ensures forall k :: k in r.values <==> k in s.values && k != RoomPrefix + room
    ensures forall k :: k in r.values ==> r.values[k] == s.values[k]
  {
    RemoveItem(s, RoomPrefix + room)
  }

  /** The room ids of the room keys of `keys`, in order: `key.replace('room_', '')`
      strips the first occurrence of the prefix, which for a room key is the
      prefix itself. */
  function RoomIdsOf(keys: seq<string>): (r: seq<string>)
    ensures |r| <= |keys|
    ensures forall id :: id in r <==> RoomPrefix + id in keys
  {
    if keys == [] then []
    else
      var rest := RoomIdsOf(keys[1..]);
      assert forall x :: x in keys <==> x == keys[0] || x in keys[1..];
      if IsRoomKey(keys[0]) then
        RoomKeyShape(keys[0]);
        [keys[0][|RoomPrefix|..]] + rest
      else
        assert forall id :: RoomPrefix + id != keys[0] by {
          forall id ensures RoomPrefix + id != keys[0] {
            PrefixedIsRoomKey(id);
          }
        }
        rest
  }

  /** Stripping the prefix is one-to-one on room keys, so distinct keys give
      distinct room ids. */
  lemma {:induction false} RoomIdsDistinct(keys: seq<string>)
    requires NoDuplicates(keys)
    ensures NoDuplicates(RoomIdsOf(keys))
  {
    if keys != [] {
      RoomIdsDistinct(keys[1..]);
      var rest := RoomIdsOf(keys[1..]);
      if IsRoomKey(keys[0]) {
        var id := keys[0][|RoomPrefix|..];
        RoomKeyShape(keys[0]);
        assert keys[0] !in keys[1..];
        assert id !in rest;
        var r := [id] + rest;
        forall i, j | 0 <= i < j < |r|
          ensures r[i] != r[j]
        {
          if i == 0 {
            assert r[j] == rest[j - 1] && rest[j - 1] in rest;
          } else {
            assert r[i] == rest[i - 1] && r[j] == rest[j - 1];
          }
        }
      }
    }
  }

  /** The number of room ids is the number of room keys. */
  lemma {:induction false} RoomIdsCount(keys: seq<string>)
    ensures |RoomIdsOf(keys)| == |Filter(keys, IsRoomKey)|
  {
    if keys != [] {
      RoomIdsCount(keys[1..]);
    }
  }

  /** `getActiveRooms`: the ids of all rooms with a stored key, each once. */
  function GetActiveRooms(s: Store): (r: seq<string>)
    requires Valid(s)
    ensures NoDuplicates(r)
    ensures forall id :: id in r <==> RoomPrefix + id in s.values
  {
    RoomIdsDistinct(s.keys);
    RoomIdsOf(s.keys)
  }

  /** The keys of the rooms `rooms`. */
  function KeysOfRooms(rooms: seq<string>): (r: set<string>)
    ensures forall id :: id in rooms ==> RoomPrefix + id in r
    ensures forall k :: k in r ==> exists id :: id in rooms && k == RoomPrefix + id
  {
    if rooms == [] then {} else {RoomPrefix + rooms[0]} + KeysOfRooms(rooms[1..])
  }

  /** Clearing the rooms of `rooms` one after the other. */
  function ClearRooms(s: Store, rooms: seq<string>): (r: Store)
    requires Valid(s)
    ensures Valid(r)
    ensures r.values == s.values - KeysOfRooms(rooms)
    decreases |rooms|
  {
    if rooms == [] then s
    else
      var t := ClearRoomData(s, rooms[0]);
      var r := ClearRooms(t, rooms[1..]);
      assert r.values == (s.values - {RoomPrefix + rooms[0]}) - KeysOfRooms(rooms[1..]);
      r
  }

  /** The keys of the active rooms are exactly the stored room keys. */
  lemma ActiveRoomKeys(s: Store)
    requires Valid(s)
    ensures forall k :: k in s.values ==> (k in KeysOfRooms(GetActiveRooms(s)) <==> IsRoomKey(k))
  {
    var rooms := GetActiveRooms(s);
    var cleared := KeysOfRooms(rooms);
    forall k | k in s.values
      ensures k in cleared <==> IsRoomKey(k)
    {
      if IsRoomKey(k) {
        RoomKeyShape(k);
        assert k[|RoomPrefix|..] in rooms;
      }
      if k in cleared {
        var id :| id in rooms && k == RoomPrefix + id;
        PrefixedIsRoomKey(id);
      }
    }
  }

  /** Clearing every active room one at a time leaves the store with the same
      entries as clearing all room data at once. */
  lemma ClearEveryActiveRoom(s: Store)
    requires Valid(s)
    ensures ClearRooms(s, GetActiveRooms(s)).values == SafeStorage.ClearAllRoomData(s).values
  {
    ActiveRoomKeys(s);
    var a := ClearRooms(s, GetActiveRooms(s)).values;
    var b := SafeStorage.ClearAllRoomData(s).values;
    assert a.Keys == b.Keys;
    assert forall k :: k in a ==> a[k] == b[k];
  }

  /** One line of `roomSizes`. */
  datatype RoomSize = RoomSize(roomId: string, size: nat, messageCount: nat)

  /** A room contributes a line when its text is non-empty and parses. */
  predicate Measured(s: Store, id: string) {
    HasData(s, RoomPrefix + id) && !s.values[RoomPrefix + id].content.Unparseable?
  }

  function SizeOf(s: Store, id: string): (r: RoomSize)
    requires Measured(s, id)
    ensures r.roomId == id
  {
    var v := s.values[RoomPrefix + id];
    RoomSize(id, Utf16Length(v.text), ArrayLength(v.content))
  }

  /** The lines of `roomSizes` in the order `getActiveRooms` lists the rooms;
      a room whose text does not parse is skipped. */
  function RoomSizesOf(s: Store, rooms: seq<string>): (r: seq<RoomSize>)
    ensures |r| <= |rooms|
    ensures forall x :: x in r <==> exists id :: id in rooms && Measured(s, id) && x == SizeOf(s, id)
  {
    if rooms == [] then []
    else
      var rest := RoomSizesOf(s, rooms[1..]);
      assert forall id :: id in rooms <==> id == rooms[0] || id in rooms[1..];
      if Measured(s, rooms[0]) then [SizeOf(s, rooms[0])] + rest else rest
  }

  /** Distinct rooms give distinct lines. */
  lemma {:induction false} RoomSizesDistinct(s: Store, rooms: seq<string>)
    requires NoDuplicates(rooms)
    ensures NoDuplicates(RoomSizesOf(s, rooms))
  {
    if rooms != [] {
      var rest := RoomSizesOf(s, rooms[1..]);
      RoomSizesDistinct(s, rooms[1..]);
      if Measured(s, rooms[0]) {
        var x := SizeOf(s, rooms[0]);
        forall i | 0 <= i < |rest|
          ensures rest[i] != x
        {
          assert rest[i] in rest;
          var id :| id in rooms[1..] && Measured(s, id) && rest[i] == SizeOf(s, id);
          assert rooms[0] !in rooms[1..];
        }
        NoDuplicatesCons(x, rest);
      }
    }
  }

  datatype Summary = Summary(totalRooms: nat, storageUsage: UsageInfo, roomSizes: seq<RoomSize>)

  function NegSize(x: RoomSize): int { 0 - x.size as int }

  /** `getStorageSummary`: the room count, the usage figures, and one line
      per room with parseable data, largest first. */
  function GetStorageSummary(s: Store): (r: Summary)
    requires Valid(s)
    ensures r.totalRooms == |Filter(s.keys, IsRoomKey)|
    ensures r.storageUsage == GetUsageInfo(s)
    ensures forall i, j :: 0 <= i < j < |r.roomSizes| ==> r.roomSizes[i].size >= r.roomSizes[j].size
    ensures forall i, j :: 0 <= i < j < |r.roomSizes| ==> r.roomSizes[i].roomId != r.roomSizes[j].roomId
    ensures forall x :: x in r.roomSizes <==>
              exists id :: RoomPrefix + id in s.values && Measured(s, id) && x == SizeOf(s, id)
    ensures forall x :: x in r.roomSizes ==>
              var v := s.values[RoomPrefix + x.roomId];
              Measured(s, x.roomId) && x.size == Utf16Length(v.text) && x.messageCount == ArrayLength(v.content)
  {
    var rooms := GetActiveRooms(s);
    var lines := RoomSizesOf(s, rooms);
    var sorted := SortBy(lines, NegSize);
    RoomIdsCount(s.keys);
    MultisetSameElements(sorted, lines);
    assert SortedBy(sorted, NegSize);
    forall i, j | 0 <= i < j < |sorted|
      ensures sorted[i].size >= sorted[j].size
    {
      assert NegSize(sorted[i]) <= NegSize(sorted[j]);
    }
    RoomSizesDistinct(s, rooms);
    SortNoDuplicates(lines, NegSize);
    forall i, j | 0 <= i < j < |sorted|
      ensures sorted[i].roomId != sorted[j].roomId
    {
      assert sorted[i] in lines && sorted[j] in lines;
      var a :| a in rooms && Measured(s, a) && sorted[i] == SizeOf(s, a);
      var b :| b in rooms && Measured(s, b) && sorted[j] == SizeOf(s, b);
    }
    Summary(|rooms|, GetUsageInfo(s), sorted)
  }
}
