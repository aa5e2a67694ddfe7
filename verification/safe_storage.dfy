/** `SafeStorage`: the browser's `localStorage` behind a quota-aware write
    that evicts old rooms and retries.

    The storage area is a map from keys to stored values together with the
    order in which `localStorage.key(i)` enumerates the keys. Whether a write
    fits is decided by a `Medium`: a capacity against which the total of key
    and value lengths is measured, the exception a full store raises, and an
    optional blanket failure (storage disabled, a security error). */
module SafeStorage {
  import opened Basics
  import opened Sorting
  import opened Signals

  const RoomPrefix := "room_"

  /** The capacity `getUsageInfo` assumes: 5 MiB. */
  const EstimatedTotal: nat := 5 * 1024 * 1024

  /** The exception names `isQuotaExceededError` recognises. */
  const QuotaExceededErrors := ["QuotaExceededError", "NS_ERROR_DOM_QUOTA_REACHED", "QUOTA_EXCEEDED_ERR"]

  predicate IsRoomKey(k: string) {
    StartsWith(k, RoomPrefix)
  }

  /** `room_${roomId}` */
  function RoomKey(room: string): (k: string)
    ensures IsRoomKey(k)
    ensures k[|RoomPrefix|..] == room
  {
    RoomPrefix + room
  }

  datatype Store = Store(keys: seq<string>, values: map<string, StoredValue>)

  /** `keys` enumerates each stored key exactly once. */
  ghost predicate Valid(s: Store) {
    NoDuplicates(s.keys) && (forall k :: k in s.values <==> k in s.keys)
  }

  /** `getItem(k)`; a read never fails in this model. */
  function GetItem(s: Store, k: string): (r: Option<StoredValue>)
    ensures r.Some? <==> k in s.values
    ensures r.Some? ==> r.value == s.values[k]
  {
    if k in s.values then Some(s.values[k]) else None
  }

  /** Every reader in the program treats a missing key and an empty string
      alike (`if (data)`, `data ? … : []`, `data || "[]"`). */
  predicate HasData(s: Store, k: string) {
    k in s.values && s.values[k].text != ""
  }

  /** `data ? JSON.parse(data) : []`: what a reader makes of a key, with a
      missing key or empty text read as the empty list. */
  function ReadValue(s: Store, k: string): (r: Parsed)
    ensures HasData(s, k) ==> r == s.values[k].content
    ensures !HasData(s, k) ==> r == MessageLog([])
  {
    if HasData(s, k) then s.values[k].content else MessageLog([])
  }

  /** A successful `localStorage.setItem`. Web Storage leaves the order of
      `key(i)` to the browser; the model assumes the common one, in which a
      new key is enumerated last and an existing key keeps its place. */
  function Put(s: Store, k: string, v: StoredValue): (r: Store)
    requires Valid(s)
    ensures Valid(r)
    ensures r.values == s.values[k := v]
  {
    if k in s.values then Store(s.keys, s.values[k := v])
    else Store(s.keys + [k], s.values[k := v])
  }

  /** `keys` without the members of `ks`, in the same order. */
  function DropKeys(keys: seq<string>, ks: set<string>): (r: seq<string>)
    ensures forall x :: x in r <==> x in keys && x !in ks
    ensures NoDuplicates(keys) ==> NoDuplicates(r)
  {
    if keys == [] then []
    else
      var rest := DropKeys(keys[1..], ks);
      assert NoDuplicates(keys) ==> keys[0] !in keys[1..];
      if keys[0] in ks then rest else [keys[0]] + rest
  }

  function RemoveKeys(s: Store, ks: set<string>): (r: Store)
    requires Valid(s)
    ensures Valid(r)
    ensures r.values == s.values - ks
  {
    Store(DropKeys(s.keys, ks), s.values - ks)
  }

  /** `localStorage.removeItem(k)` */
  function RemoveItem(s: Store, k: string): (r: Store)
    requires Valid(s)
    ensures Valid(r)
    ensures r.values == s.values - {k}
  {
    RemoveKeys(s, {k})
  }

  // ---------------------------------------------------------------------
  // Usage accounting

  /** `key.length + value.length`, in UTF-16 code units. */
  function Cost(k: string, v: StoredValue): nat {
    Utf16Length(k) + Utf16Length(v.text)
  }

  function UsageOf(keys: seq<string>, values: map<string, StoredValue>): nat {
    if keys == [] then 0
    else (if keys[0] in values then Cost(keys[0], values[keys[0]]) else 0) + UsageOf(keys[1..], values)
  }

  /** `used` of `getUsageInfo`: the sum over stored keys of key length plus
      value length. */
  function Usage(s: Store): nat {
    UsageOf(s.keys, s.values)
  }

  datatype UsageInfo = UsageInfo(used: nat, total: nat)

  /** `getUsageInfo` without its floating-point percentage. */
  function GetUsageInfo(s: Store): (r: UsageInfo)
    requires Valid(s)
    ensures r.total == 5 * 1024 * 1024
    ensures r.used == Usage(s)
    ensures forall k :: k in s.values ==> Cost(k, s.values[k]) <= r.used
  {
    forall k | k in s.values
      ensures Cost(k, s.values[k]) <= Usage(s)
    {
      UsageRemoveExact(s, k);
    }
    UsageInfo(Usage(s), EstimatedTotal)
  }

  lemma {:induction false} UsageOfFrame(keys: seq<string>, v1: map<string, StoredValue>, v2: map<string, StoredValue>)
    requires forall k :: k in keys ==> (k in v1 <==> k in v2) && (k in v1 ==> v1[k] == v2[k])
    ensures UsageOf(keys, v1) == UsageOf(keys, v2)
  {
    if keys != [] {
      UsageOfFrame(keys[1..], v1, v2);
    }
  }

  lemma {:induction false} UsageOfAppend(keys: seq<string>, k: string, values: map<string, StoredValue>)
    ensures UsageOf(keys + [k], values) == UsageOf(keys, values) + (if k in values then Cost(k, values[k]) else 0)
  {
    if keys == [] {
      assert keys + [k] == [k];
    } else {
      assert (keys + [k])[1..] == keys[1..] + [k];
      UsageOfAppend(keys[1..], k, values);
    }
  }

  /** Removing keys never raises usage. */
  lemma {:induction false} UsageOfRemoveKeys(keys: seq<string>, values: map<string, StoredValue>, ks: set<string>)
    ensures UsageOf(DropKeys(keys, ks), values - ks) <= UsageOf(keys, values)
  {
    if keys != [] {
      var rest := DropKeys(keys[1..], ks);
      UsageOfRemoveKeys(keys[1..], values, ks);
      if keys[0] !in ks {
        assert ([keys[0]] + rest)[1..] == rest;
      }
    }
  }

  lemma UsageRemoveKeysMonotone(s: Store, ks: set<string>)
    requires Valid(s)
    ensures Usage(RemoveKeys(s, ks)) <= Usage(s)
  {
    UsageOfRemoveKeys(s.keys, s.values, ks);
  }

  lemma {:induction false} UsageOfRemoveOne(keys: seq<string>, values: map<string, StoredValue>, k: string)
    requires NoDuplicates(keys) && k in values
    ensures UsageOf(DropKeys(keys, {k}), values - {k}) + (if k in keys then Cost(k, values[k]) else 0)
            == UsageOf(keys, values)
  {
    if keys != [] {
      var rest := DropKeys(keys[1..], {k});
      UsageOfRemoveOne(keys[1..], values, k);
      if keys[0] != k {
        assert ([keys[0]] + rest)[1..] == rest;
        assert k in keys <==> k in keys[1..];
      } else {
        assert keys[0] !in keys[1..];
      }
    }
  }

  /** Removing one stored key lowers `used` by exactly that entry's key and
      value lengths. */
  lemma UsageRemoveExact(s: Store, k: string)
    requires Valid(s) && k in s.values
    ensures Usage(RemoveItem(s, k)) + Cost(k, s.values[k]) == Usage(s)
  {
    UsageOfRemoveOne(s.keys, s.values, k);
  }

  /** Writing `v` under `k` changes `used` by the new entry's cost minus the
      old entry's cost, if there was one. */
  lemma UsagePut(s: Store, k: string, v: StoredValue)
    requires Valid(s)
    ensures Usage(Put(s, k, v)) + (if k in s.values then Cost(k, s.values[k]) else 0) == Usage(s) + Cost(k, v)
  {
    var r := Put(s, k, v);
    if k in s.values {
      var t := RemoveItem(s, k);
      var t' := RemoveItem(r, k);
      UsageRemoveExact(s, k);
      UsageRemoveExact(r, k);
      assert t'.keys == t.keys;
      UsageOfFrame(t.keys, t.values, t'.values);
    } else {
      UsageOfAppend(s.keys, k, s.values[k := v]);
      UsageOfFrame(s.keys, s.values, s.values[k := v]);
    }
  }

  // ---------------------------------------------------------------------
  // Raw writes and the retry ladder

  datatype StorageError = StorageError(isDomException: bool, name: string)

  /** The storage medium: its capacity, the exception it raises when a write
      does not fit, and an exception every write raises when storage is
      unusable. */
  datatype Medium = Medium(capacity: nat, quotaError: StorageError, failure: Option<StorageError>)

  datatype Write = Written(store: Store) | Threw(error: StorageError)

  /** `localStorage.setItem(k, v)`, which either stores or throws. */
  function RawWrite(s: Store, m: Medium, k: string, v: StoredValue): (w: Write)
    requires Valid(s)
    ensures w.Written? ==> w.store == Put(s, k, v) && Usage(w.store) <= m.capacity
    ensures w.Threw? ==> m.failure.Some? || Usage(Put(s, k, v)) > m.capacity
  {
    match m.failure
    case Some(e) => Threw(e)
    case None =>
      var t := Put(s, k, v);
      if Usage(t) <= m.capacity then Written(t) else Threw(m.quotaError)
  }

  /** `isQuotaExceededError` */
  predicate IsQuotaExceededError(e: StorageError) {
    e.isDomException && e.name in QuotaExceededErrors
  }

  /** The recognised quota errors are exactly the three names, and only
      when raised as a `DOMException`: a plain `Error` of the same name, or a
      `DOMException` under any other name, leads to no cleanup. */
  lemma QuotaErrorNames(name: string)
    ensures IsQuotaExceededError(StorageError(true, name)) <==>
              name == "QuotaExceededError" || name == "NS_ERROR_DOM_QUOTA_REACHED" || name == "QUOTA_EXCEEDED_ERR"
    ensures !IsQuotaExceededError(StorageError(false, name))
  {
  }

  datatype SetResult = SetResult(saved: bool, store: Store)

  /** The key a cleanup ranks rooms by: the newest message timestamp
      (a missing timestamp counts as 0). */
  function MaxStamp(ms: seq<Message>): (r: int)
    requires |ms| > 0
    ensures forall i :: 0 <= i < |ms| ==> StampOrZero(ms[i]) <= r
    ensures exists i :: 0 <= i < |ms| && StampOrZero(ms[i]) == r
  {
    if |ms| == 1 then StampOrZero(ms[0])
    else
      var tail := MaxStamp(ms[1..]);
      var j :| 0 <= j < |ms[1..]| && StampOrZero(ms[1..][j]) == tail;
      assert StampOrZero(ms[j + 1]) == tail;
      Max(StampOrZero(ms[0]), tail)
  }

  /** `lastTimestamp` in `cleanupOldRooms`: the newest message timestamp of
      a non-empty message log, and 0 for an empty log, for unparseable text,
      and for any JSON that is not a list of messages. */
  function Rank(v: StoredValue): (r: int)
    ensures v.content.MessageLog? && |v.content.msgs| > 0 ==>
              (forall i :: 0 <= i < |v.content.msgs| ==> StampOrZero(v.content.msgs[i]) <= r) &&
              (exists i :: 0 <= i < |v.content.msgs| && StampOrZero(v.content.msgs[i]) == r)
    ensures !(v.content.MessageLog? && |v.content.msgs| > 0) ==> r == 0
  {
    match v.content
    case MessageLog(ms) => if |ms| > 0 then MaxStamp(ms) else 0
    case _ => 0
  }

  /** A key `cleanupOldRooms` may evict: a room key holding non-empty text. */
  predicate IsCandidate(s: Store, k: string) {
    k in s.values && IsRoomKey(k) && s.values[k].text != ""
  }

  function CandidateSet(s: Store): set<string> {
    set k | k in s.values && IsCandidate(s, k)
  }

  datatype Ranked = Ranked(key: string, rank: int)

  function KeysOf(rs: seq<Ranked>): (r: seq<string>)
    ensures |r| == |rs|
    ensures forall i :: 0 <= i < |rs| ==> r[i] == rs[i].key
  {
    if rs == [] then [] else [rs[0].key] + KeysOf(rs[1..])
  }

  /** `roomData` of `cleanupOldRooms`, in enumeration order. */
  function CandidatesOf(keys: seq<string>, values: map<string, StoredValue>): (r: seq<Ranked>)
    ensures forall c :: c in r ==> c.key in keys && c.key in values && IsRoomKey(c.key)
                                   && values[c.key].text != "" && c.rank == Rank(values[c.key])
  {
    if keys == [] then []
    else
      var k := keys[0];
      var rest := CandidatesOf(keys[1..], values);
      if k in values && IsRoomKey(k) && values[k].text != "" then [Ranked(k, Rank(values[k]))] + rest
      else rest
  }

  lemma {:induction false} CandidatesComplete(keys: seq<string>, values: map<string, StoredValue>, k: string)
    requires k in keys && k in values && IsRoomKey(k) && values[k].text != ""
    ensures Ranked(k, Rank(values[k])) in CandidatesOf(keys, values)
  {
    if keys[0] != k {
      CandidatesComplete(keys[1..], values, k);
    }
  }

  lemma {:induction false} CandidateKeysDistinct(keys: seq<string>, values: map<string, StoredValue>)
    requires NoDuplicates(keys)
    ensures NoDuplicates(KeysOf(CandidatesOf(keys, values)))
  {
    if keys != [] {
      var rest := CandidatesOf(keys[1..], values);
      CandidateKeysDistinct(keys[1..], values);
      var k := keys[0];
      if k in values && IsRoomKey(k) && values[k].text != "" {
        var r := [Ranked(k, Rank(values[k]))] + rest;
        var kr := KeysOf(rest);
        assert k !in keys[1..];
        forall i | 0 <= i < |kr|
          ensures kr[i] != k
        {
          assert rest[i] in rest;
        }
        assert r[1..] == rest;
        assert KeysOf(r) == [k] + kr;
        NoDuplicatesCons(k, kr);
      }
    }
  }

  /** How many rooms a cleanup of `n` candidates evicts:
      `max(2, floor(n / 2))`, capped by the loop bound `i < roomData.length`. */
  function RemovalCount(n: nat): nat {
    Min(n, Max(2, n / 2))
  }

  /** `cleanupOldRooms`: ranks the candidate rooms by `Rank` (a stable sort,
      oldest first) and evicts the first `RemovalCount` of them. */
  function CleanupOldRooms(s: Store): (r: Store)
    requires Valid(s)
    ensures Valid(r)
    ensures forall k :: k in r.values ==> k in s.values && r.values[k] == s.values[k]
    ensures forall k :: k in s.values && k !in r.values ==> IsCandidate(s, k)
    ensures |s.values.Keys - r.values.Keys| == RemovalCount(|CandidateSet(s)|)
    ensures forall a, b :: a in s.values && a !in r.values && IsCandidate(s, b) && b in r.values ==>
                           Rank(s.values[a]) <= Rank(s.values[b])
  {
    var sorted := SortBy(CandidatesOf(s.keys, s.values), (c: Ranked) => c.rank);
    var n := RemovalCount(|sorted|);
    var prefix := KeysOf(sorted[..n]);
    CleanupFacts(s, sorted, n, prefix);
    var evicted := set k | k in prefix;
    assert s.values.Keys - (s.values - evicted).Keys == evicted;
    RemoveKeys(s, evicted)
  }

  lemma CleanupFacts(s: Store, sorted: seq<Ranked>, n: nat, prefix: seq<string>)
    requires Valid(s)
    requires SortedBy(sorted, (c: Ranked) => c.rank)
    requires multiset(sorted) == multiset(CandidatesOf(s.keys, s.values))
    requires n == RemovalCount(|sorted|)
    requires prefix == KeysOf(sorted[..n])
    ensures forall k :: k in prefix ==> IsCandidate(s, k)
    ensures |set k | k in prefix| == RemovalCount(|CandidateSet(s)|)
    ensures forall a, b :: a in prefix && IsCandidate(s, b) && b !in prefix ==>
                           IsCandidate(s, a) && Rank(s.values[a]) <= Rank(s.values[b])
  {
    var cands := CandidatesOf(s.keys, s.values);
    CandidateKeysDistinct(s.keys, s.values);
    CandidateSetSize(s, cands);
    assert |sorted| == |cands| by {
      assert |multiset(sorted)| == |multiset(cands)|;
    }
    SortedKeysDistinct(cands, sorted);
    assert prefix == KeysOf(sorted)[..n];
    DistinctCardinality(prefix);
    EvictedAreOldest(s, sorted, n, prefix);
  }

  lemma CandidateSetSize(s: Store, cands: seq<Ranked>)
    requires Valid(s)
    requires cands == CandidatesOf(s.keys, s.values)
    requires NoDuplicates(KeysOf(cands))
    ensures |CandidateSet(s)| == |cands|
  {
    DistinctCardinality(KeysOf(cands));
    CandidateSetIsKeys(s, cands);
  }

  /** The candidate set is the set of the candidates' keys. */
  lemma CandidateSetIsKeys(s: Store, cands: seq<Ranked>)
    requires Valid(s)
    requires cands == CandidatesOf(s.keys, s.values)
    ensures CandidateSet(s) == set k | k in KeysOf(cands)
  {
    var ck := KeysOf(cands);
    forall k | k in CandidateSet(s)
      ensures k in ck
    {
      CandidatesComplete(s.keys, s.values, k);
      var i :| 0 <= i < |cands| && cands[i] == Ranked(k, Rank(s.values[k]));
      assert ck[i] == k;
    }
    forall k | k in ck
      ensures k in CandidateSet(s)
    {
      var i :| 0 <= i < |ck| && ck[i] == k;
      assert cands[i] in cands;
    }
  }

  /** The candidates' keys stay distinct once sorted. */
  lemma SortedKeysDistinct(cands: seq<Ranked>, sorted: seq<Ranked>)
    requires NoDuplicates(KeysOf(cands))
    requires multiset(sorted) == multiset(cands)
    ensures NoDuplicates(KeysOf(sorted))
  {
    var ck := KeysOf(cands);
    assert NoDuplicates(cands) by {
      forall p, q | 0 <= p < q < |cands|
        ensures cands[p] != cands[q]
      {
        assert ck[p] != ck[q];
      }
    }
    forall y
      ensures multiset(sorted)[y] <= 1
    {
      DistinctCountOne(cands, y);
    }
    DistinctFromCounts(sorted);
    forall i, j | 0 <= i < j < |sorted|
      ensures KeysOf(sorted)[i] != KeysOf(sorted)[j]
    {
      SameKeySameRecord(cands, sorted, i, j);
    }
  }

  lemma SameKeySameRecord(cands: seq<Ranked>, sorted: seq<Ranked>, i: int, j: int)
    requires NoDuplicates(KeysOf(cands)) && NoDuplicates(sorted)
    requires multiset(sorted) == multiset(cands)
    requires 0 <= i < j < |sorted|
    ensures sorted[i].key != sorted[j].key
  {
    var ck := KeysOf(cands);
    assert sorted[i] in multiset(cands) && sorted[j] in multiset(cands);
    var p :| 0 <= p < |cands| && cands[p] == sorted[i];
    var q :| 0 <= q < |cands| && cands[q] == sorted[j];
    assert sorted[i] != sorted[j];
    assert p != q;
    assert ck[p] == sorted[i].key && ck[q] == sorted[j].key;
  }

  lemma PrefixMembers(sorted: seq<Ranked>, n: nat, prefix: seq<string>)
    requires n <= |sorted| && prefix == KeysOf(sorted[..n])
    ensures forall t :: 0 <= t < n ==> sorted[t].key in prefix
  {
    forall t | 0 <= t < n
      ensures sorted[t].key in prefix
    {
      assert prefix[t] == sorted[t].key;
    }
  }

  /** One evicted room against one candidate that stays. */
  lemma EvictedPairOrdered(s: Store, sorted: seq<Ranked>, n: nat, prefix: seq<string>, a: string, b: string)
    requires Valid(s)
    requires SortedBy(sorted, (c: Ranked) => c.rank)
    requires forall x :: x in sorted <==> x in CandidatesOf(s.keys, s.values)
    requires n <= |sorted| && prefix == KeysOf(sorted[..n])
    requires a in prefix && IsCandidate(s, b) && b !in prefix
    ensures IsCandidate(s, a) && Rank(s.values[a]) <= Rank(s.values[b])
  {
    var i :| 0 <= i < n && prefix[i] == a;
    assert sorted[i] in sorted;
    CandidatesComplete(s.keys, s.values, b);
    var j :| 0 <= j < |sorted| && sorted[j] == Ranked(b, Rank(s.values[b]));
    PrefixMembers(sorted, n, prefix);
    assert sorted[j].key == b;
    assert n <= j;
    assert sorted[i].rank <= sorted[j].rank;
  }

  /** Every evicted room ranks no newer than every candidate that stays. */
  lemma EvictedAreOldest(s: Store, sorted: seq<Ranked>, n: nat, prefix: seq<string>)
    requires Valid(s)
    requires SortedBy(sorted, (c: Ranked) => c.rank)
    requires multiset(sorted) == multiset(CandidatesOf(s.keys, s.values))
    requires n <= |sorted| && prefix == KeysOf(sorted[..n])
    ensures forall a :: a in prefix ==> IsCandidate(s, a)
    ensures forall a, b :: a in prefix && IsCandidate(s, b) && b !in prefix ==>
                           IsCandidate(s, a) && Rank(s.values[a]) <= Rank(s.values[b])
  {
    var cands := CandidatesOf(s.keys, s.values);
    MultisetSameElements(sorted, cands);
    forall a, b | a in prefix && IsCandidate(s, b) && b !in prefix
      ensures IsCandidate(s, a) && Rank(s.values[a]) <= Rank(s.values[b])
    {
      EvictedPairOrdered(s, sorted, n, prefix, a, b);
    }
    forall a | a in prefix
      ensures IsCandidate(s, a)
    {
      var i :| 0 <= i < n && prefix[i] == a;
      assert sorted[i] in cands;
    }
  }

  /** `clearAllRoomData`: every `room_` key goes, every other key stays. */
  function ClearAllRoomData(s: Store): (r: Store)
    requires Valid(s)
    ensures Valid(r)
    ensures forall k :: k in r.values <==> k in s.values && !IsRoomKey(k)
    ensures forall k :: k in r.values ==> r.values[k] == s.values[k]
  {
    RemoveKeys(s, set k | k in s.values && IsRoomKey(k))
  }

  /** The last rung of `setItem`: the key's own data removed, then one
      more write of the same value. */
  function LastRung(c: Store, m: Medium, k: string, v: StoredValue): (r: SetResult)
    requires Valid(c)
    ensures Valid(r.store)
    ensures r.saved ==> GetItem(r.store, k) == Some(v)
    ensures r == SetResult(false, RemoveItem(c, k)) || r == SetResult(true, Put(RemoveItem(c, k), k, v))
  {
    var d := RemoveItem(c, k);
    match RawWrite(d, m, k, v)
    case Written(t) => SetResult(true, t)
    case Threw(_) => SetResult(false, d)
  }

  /** What `setItem` does after a quota error: one cleanup of old rooms, a
      retry, and for a room key the last rung. */
  function AfterQuotaError(s: Store, m: Medium, k: string, v: StoredValue): (r: SetResult)
    requires Valid(s)
    ensures Valid(r.store)
    ensures r.saved ==> GetItem(r.store, k) == Some(v)
    ensures var c := CleanupOldRooms(s);
            if RawWrite(c, m, k, v).Written? then r == SetResult(true, Put(c, k, v))
            else if !IsRoomKey(k) then r == SetResult(false, c)
            else r == LastRung(c, m, k, v)
  {
    var c := CleanupOldRooms(s);
    match RawWrite(c, m, k, v)
    case Written(t) => SetResult(true, t)
    case Threw(_) => if IsRoomKey(k) then LastRung(c, m, k, v) else SetResult(false, c)
  }

  /** `setItem`: a plain write; on a quota error one cleanup of old rooms
      and a retry; if that fails too and the key is a room key, removal of
      the key's own data and a last write of the same value. */
  function SetItem(s: Store, m: Medium, k: string, v: StoredValue): (r: SetResult)
    requires Valid(s)
    ensures Valid(r.store)
    // a saved value is what the next getItem returns
    ensures r.saved ==> GetItem(r.store, k) == Some(v)
    // the first write succeeding touches nothing else
    ensures RawWrite(s, m, k, v).Written? ==> r.saved && r.store == Put(s, k, v)
    // any other error: no cleanup, no retry
    ensures RawWrite(s, m, k, v).Threw? && !IsQuotaExceededError(RawWrite(s, m, k, v).error) ==>
              !r.saved && r.store == s
    // a quota error: exactly one cleanup, then the retry and the last rung
    ensures RawWrite(s, m, k, v).Threw? && IsQuotaExceededError(RawWrite(s, m, k, v).error) ==>
              r == AfterQuotaError(s, m, k, v)
  {
    match RawWrite(s, m, k, v)
    case Written(t) => SetResult(true, t)
    case Threw(e) =>
      if !IsQuotaExceededError(e) then SetResult(false, s)
      else AfterQuotaError(s, m, k, v)
  }

  /** `r` differs from `s` at most in the entry for `k` and in removed room
      keys. */
  ghost predicate Framed(s: Store, r: Store, k: string) {
    (forall x :: x in r.values && x != k ==> x in s.values && r.values[x] == s.values[x]) &&
    (forall x :: x in s.values && x !in r.values ==> IsRoomKey(x))
  }

  lemma LastRungFrame(c: Store, m: Medium, k: string, v: StoredValue)
    requires Valid(c) && IsRoomKey(k)
    ensures Framed(c, LastRung(c, m, k, v).store, k)
  {
  }

  lemma CleanupFrame(s: Store, k: string)
    requires Valid(s)
    ensures Framed(s, CleanupOldRooms(s), k)
  {
  }

  lemma PutFrame(c: Store, k: string, v: StoredValue)
    requires Valid(c)
    ensures Framed(c, Put(c, k, v), k)
  {
  }

  lemma FramedTransitive(a: Store, b: Store, c: Store, k: string)
    requires Framed(a, b, k) && Framed(b, c, k)
    ensures Framed(a, c, k)
  {
  }

  lemma AfterQuotaErrorFrame(s: Store, m: Medium, k: string, v: StoredValue)
    requires Valid(s)
    ensures Framed(s, AfterQuotaError(s, m, k, v).store, k)
  {
    var c := CleanupOldRooms(s);
    CleanupFrame(s, k);
    var r := AfterQuotaError(s, m, k, v).store;
    if RawWrite(c, m, k, v).Written? {
      PutFrame(c, k, v);
    } else if IsRoomKey(k) {
      LastRungFrame(c, m, k, v);
    }
    FramedTransitive(s, c, r, k);
  }

  /** `setItem` writes no key but its own, and only room keys can be
      evicted along the way. */
  lemma SetItemFrame(s: Store, m: Medium, k: string, v: StoredValue)
    requires Valid(s)
    ensures Framed(s, SetItem(s, m, k, v).store, k)
  {
    var w := RawWrite(s, m, k, v);
    if w.Threw? && IsQuotaExceededError(w.error) {
      AfterQuotaErrorFrame(s, m, k, v);
    }
  }

  /** Cleanup never raises the usage. */
  lemma CleanupUsage(s: Store)
    requires Valid(s)
    ensures Usage(CleanupOldRooms(s)) <= Usage(s)
  {
    SubStoreUsage(s, CleanupOldRooms(s));
  }

  /** A store holding some of another's entries, unchanged, uses no more. */
  lemma SubStoreUsage(s: Store, c: Store)
    requires Valid(s) && Valid(c)
    requires forall k :: k in c.values ==> k in s.values && c.values[k] == s.values[k]
    ensures Usage(c) <= Usage(s)
  {
    var evicted := s.values.Keys - c.values.Keys;
    var t := RemoveKeys(s, evicted);
    UsageRemoveKeysMonotone(s, evicted);
    SubMapIsMinus(s.values, c.values);
    UsageOfFrameStores(t, c);
  }

  lemma LastRungWithinCapacity(c: Store, m: Medium, k: string, v: StoredValue)
    requires Valid(c) && Usage(c) <= m.capacity
    ensures Usage(LastRung(c, m, k, v).store) <= m.capacity
  {
    UsageRemoveKeysMonotone(c, {k});
  }

  /** A store within capacity stays within capacity through `setItem`. */
  lemma SetItemWithinCapacity(s: Store, m: Medium, k: string, v: StoredValue)
    requires Valid(s) && Usage(s) <= m.capacity
    ensures Usage(SetItem(s, m, k, v).store) <= m.capacity
  {
    var w := RawWrite(s, m, k, v);
    if w.Threw? && IsQuotaExceededError(w.error) {
      var c := CleanupOldRooms(s);
      CleanupUsage(s);
      if RawWrite(c, m, k, v).Threw? && IsRoomKey(k) {
        LastRungWithinCapacity(c, m, k, v);
      }
    }
  }

  /** Usage depends only on the stored entries, not on their enumeration
      order. */
  lemma UsageOfFrameStores(a: Store, b: Store)
    requires Valid(a) && Valid(b) && a.values == b.values
    ensures Usage(a) == Usage(b)
    decreases |a.values|
  {
    if a.values != map[] {
      var k :| k in a.values;
      UsageRemoveExact(a, k);
      UsageRemoveExact(b, k);
      UsageOfFrameStores(RemoveItem(a, k), RemoveItem(b, k));
    }
  }

  /** Removing a key and writing the same value back costs exactly what
      writing over it costs, so when the retry after cleanup does not fit,
      the last rung cannot fit either: the retry ladder then ends with the
      room's previous log deleted and nothing saved. */
  lemma LastRungCannotRescue(s: Store, m: Medium, k: string, v: StoredValue)
    requires Valid(s) && IsRoomKey(k)
    requires RawWrite(s, m, k, v).Threw? && IsQuotaExceededError(RawWrite(s, m, k, v).error)
    requires RawWrite(CleanupOldRooms(s), m, k, v).Threw?
    ensures !SetItem(s, m, k, v).saved
    ensures k !in SetItem(s, m, k, v).store.values
  {
    var c := CleanupOldRooms(s);
    LastRungCannotFit(c, m, k, v);
  }

  lemma LastRungCannotFit(c: Store, m: Medium, k: string, v: StoredValue)
    requires Valid(c) && RawWrite(c, m, k, v).Threw?
    ensures LastRung(c, m, k, v) == SetResult(false, RemoveItem(c, k))
  {
    var d := RemoveItem(c, k);
    UsagePut(c, k, v);
    UsagePut(d, k, v);
    if k in c.values {
      UsageRemoveExact(c, k);
    } else {
      assert d.values == c.values;
      UsageOfFrameStores(d, c);
    }
    assert Usage(Put(d, k, v)) == Usage(Put(c, k, v));
  }

  /** `k` in `r` holds either `v`, or what it held in `s`, or nothing. */
  ghost predicate OwnKeyKept(s: Store, r: Store, k: string, v: StoredValue) {
    k in r.values ==> r.values[k] == v || (k in s.values && r.values[k] == s.values[k])
  }

  lemma AfterQuotaErrorOwnKey(s: Store, m: Medium, k: string, v: StoredValue)
    requires Valid(s)
    ensures OwnKeyKept(s, AfterQuotaError(s, m, k, v).store, k, v)
  {
    var c := CleanupOldRooms(s);
    assert OwnKeyKept(s, c, k, v);
    if RawWrite(c, m, k, v).Threw? && IsRoomKey(k) {
      assert OwnKeyKept(s, LastRung(c, m, k, v).store, k, v);
    }
  }

  /** `setItem` leaves its own key holding either the new value, the old
      value, or nothing. */
  lemma SetItemOwnKey(s: Store, m: Medium, k: string, v: StoredValue)
    requires Valid(s)
    ensures OwnKeyKept(s, SetItem(s, m, k, v).store, k, v)
  {
    var w := RawWrite(s, m, k, v);
    if w.Threw? && IsQuotaExceededError(w.error) {
      AfterQuotaErrorOwnKey(s, m, k, v);
    }
  }
}
