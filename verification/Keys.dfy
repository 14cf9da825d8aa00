/** Storage keys (raftstore/keys.go) and the clean-up of a replaced range (raftstore/store.go). */
module Keys {
  import opened Bytes
  import opened Shards

  const DATA_PREFIX: Byte := 0x7a
  const DATA_PREFIX_SIZE: nat := 9
  const LOCAL_PREFIX: Byte := 0x01
  const RAFT_PREFIX: Byte := 0x02
  const LOG_SUFFIX: Byte := 0x01
  const STATE_SUFFIX: Byte := 0x02
  const APPLY_SUFFIX: Byte := 0x03

  // ---- user data

  function EncodeDataKey(group: U64, key: Key): (r: Key)
    ensures |r| == DATA_PREFIX_SIZE + |key|
  {
    [DATA_PREFIX] + BigEndian(group, 8) + key
  }

  /** `key[DataPrefixSize:]`, which the original only survives on keys of at least that length. */
  function DecodeDataKey(key: Key): (r: Key)
    requires |key| >= DATA_PREFIX_SIZE
    ensures |r| == |key| - DATA_PREFIX_SIZE
  {
    key[DATA_PREFIX_SIZE..]
  }

  /** The group is incremented in 64 bits, so the last group wraps round to zero. */
  function DataMaxKey(group: U64): Key {
    [DATA_PREFIX] + BigEndian((group + 1) % TWO_TO_64, 8)
  }

  function DataEndKey(group: U64, end: Key): Key {
    if |end| == 0 then DataMaxKey(group) else EncodeDataKey(group, end)
  }

  function EncStartKey(s: Shard): Key
    requires |s.peers| > 0
  {
    EncodeDataKey(s.group, s.start)
  }

  function EncEndKey(s: Shard): Key
    requires |s.peers| > 0
  {
    DataEndKey(s.group, s.end)
  }

  predicate InRange(key: Key, start: Key, end: Key) {
    AtMost(start, key) && Less(key, end)
  }

  lemma DataKeyRoundTrip(group: U64, key: Key)
    ensures DecodeDataKey(EncodeDataKey(group, key)) == key
  {
  }

  /** Within a group the encoding preserves the order of keys; across groups it follows the groups. */
  lemma DataKeyOrder(g: U64, a: Key, h: U64, b: Key)
    ensures Less(EncodeDataKey(g, a), EncodeDataKey(h, b)) <==> g < h || (g == h && Less(a, b))
  {
    EightBytesHoldU64();
    var ea, eb := BigEndian(g, 8) + a, BigEndian(h, 8) + b;
    assert EncodeDataKey(g, a) == [DATA_PREFIX] + ea && EncodeDataKey(h, b) == [DATA_PREFIX] + eb;
    LessUnderPrefix([DATA_PREFIX], ea, eb);
    LessIsTotalOrder();
    if g < h {
      BigEndianOrder(g, h, 8, a, b);
    } else if h < g {
      BigEndianOrder(h, g, 8, b, a);
    } else {
      LessUnderPrefix(BigEndian(g, 8), a, b);
    }
  }

  /** The upper bound of a group is above exactly the keys of the groups up to it; the last group has no upper bound. */
  lemma DataMaxKeyBounds(group: U64, g: U64, key: Key)
    ensures Less(EncodeDataKey(g, key), DataMaxKey(group)) <==> g <= group < TWO_TO_64 - 1
  {
    var next: U64 := (group + 1) % TWO_TO_64;
    assert DataMaxKey(group) == EncodeDataKey(next, []);
    DataKeyOrder(g, key, next, []);
  }

  /** Membership in a shard is membership of the encoded key in the encoded range, except in the last
      group, where a shard without an end has an empty encoded range. */
  lemma EncodedRangeIsShardRange(s: Shard, key: Key)
    requires |s.peers| > 0
    ensures InRange(EncodeDataKey(s.group, key), EncStartKey(s), EncEndKey(s))
            <==> Contains(s, key) && (s.end == [] ==> s.group < TWO_TO_64 - 1)
  {
    DataKeyOrder(s.group, key, s.group, s.start);
    DataKeyOrder(s.group, key, s.group, s.end);
    DataMaxKeyBounds(s.group, s.group, key);
  }

  lemma LastGroupLosesItsData(key: Key)
    ensures var s := EMPTY_SHARD.(group := TWO_TO_64 - 1, peers := [Peer(1, 1)]);
            Contains(s, key) && !InRange(EncodeDataKey(s.group, key), EncStartKey(s), EncEndKey(s))
  {
    var s := EMPTY_SHARD.(group := TWO_TO_64 - 1, peers := [Peer(1, 1)]);
    EncodedRangeIsShardRange(s, key);
  }

  /** Every stored data key found in a shard's encoded range belongs to that shard once decoded. */
  lemma ScannedKeyBelongsToShard(s: Shard, g: U64, key: Key)
    requires |s.peers| > 0
    requires InRange(EncodeDataKey(g, key), EncStartKey(s), EncEndKey(s))
    ensures g == s.group && Contains(s, key)
  {
    DataKeyOrder(g, key, s.group, s.start);
    DataKeyOrder(g, key, s.group, s.end);
    DataMaxKeyBounds(s.group, g, key);
  }

  // ---- raft metadata

  /** What one shard keeps under the raft prefix of the metadata storage. */
  datatype RaftKey = LogKey(index: U64) | LocalStateKey | ApplyStateKey

  /** `getIDKey`. */
  function EncodeRaftKey(shardID: U64, k: RaftKey): Key {
    [LOCAL_PREFIX, RAFT_PREFIX] + BigEndian(shardID, 8) +
    match k
    case LogKey(index) => [LOG_SUFFIX] + BigEndian(index, 8)
    case LocalStateKey => [STATE_SUFFIX]
    case ApplyStateKey => [APPLY_SUFFIX]
  }

  /** `getRaftLogIndex`; `-1` stands for its error. */
  function RaftLogIndex(key: Key): int {
    if |key| != 19 then -1 else FromBigEndian(key[11..])
  }

  lemma RaftLogIndexRoundTrip(shardID: U64, k: RaftKey)
    ensures RaftLogIndex(EncodeRaftKey(shardID, k)) == if k.LogKey? then k.index else -1
  {
    if k.LogKey? {
      EightBytesHoldU64();
      BigEndianRoundTrip(k.index, 8);
      assert EncodeRaftKey(shardID, k)[11..] == BigEndian(k.index, 8);
    }
  }

  /** Position of a key among the keys of its shard: the log by index, then the two state records. */
  function Rank(k: RaftKey): int {
    match k
    case LogKey(index) => index
    case LocalStateKey => TWO_TO_64
    case ApplyStateKey => TWO_TO_64 + 1
  }

  /** Keys sort by shard, then by rank. Hence they never collide, a scan of `[LogKey(lo), LogKey(hi))`
      meets exactly the entries `lo..hi-1` in order, and a seek past the log meets the local state. */
  lemma RaftKeyOrder(s: U64, j: RaftKey, t: U64, k: RaftKey)
    ensures Less(EncodeRaftKey(s, j), EncodeRaftKey(t, k)) <==> s < t || (s == t && Rank(j) < Rank(k))
  {
    LessIsTotalOrder();
    if s < t || (s == t && Rank(j) < Rank(k)) {
      RaftKeyBelow(s, j, t, k);
    } else if t < s || Rank(k) < Rank(j) {
      RaftKeyBelow(t, k, s, j);
    } else {
      assert j == k;
    }
  }

  lemma RaftKeyBelow(s: U64, j: RaftKey, t: U64, k: RaftKey)
    requires s < t || (s == t && Rank(j) < Rank(k))
    ensures Less(EncodeRaftKey(s, j), EncodeRaftKey(t, k))
  {
    EightBytesHoldU64();
    var p := [LOCAL_PREFIX, RAFT_PREFIX];
    var x := EncodeRaftKey(s, j)[10..];
    var y := EncodeRaftKey(t, k)[10..];
    assert EncodeRaftKey(s, j) == p + (BigEndian(s, 8) + x);
    assert EncodeRaftKey(t, k) == p + (BigEndian(t, 8) + y);
    LessUnderPrefix(p, BigEndian(s, 8) + x, BigEndian(t, 8) + y);
    if s < t {
      BigEndianOrder(s, t, 8, x, y);
    } else {
      LessUnderPrefix(BigEndian(s, 8), x, y);
      if j.LogKey? && k.LogKey? {
        assert x == [LOG_SUFFIX] + (BigEndian(j.index, 8) + []) && y == [LOG_SUFFIX] + (BigEndian(k.index, 8) + []);
        BigEndianOrder(j.index, k.index, 8, [], []);
        LessUnderPrefix([LOG_SUFFIX], BigEndian(j.index, 8) + [], BigEndian(k.index, 8) + []);
      } else {
        assert x[0] < y[0];
      }
    }
  }

  // ---- replacing a shard's range

  /** The ranges `clearExtraData` hands to `RangeDelete` when `shard` is replaced by `newShard`. */
  method ClearExtraData(shard: Shard, newShard: Shard) returns (ranges: seq<(Key, Key)>)
    requires |shard.peers| > 0 && |newShard.peers| > 0
    ensures ranges == ExtraRanges(EncStartKey(shard), EncEndKey(shard), EncStartKey(newShard), EncEndKey(newShard))
  {
    ranges := [];
    var oldStart, oldEnd := EncStartKey(shard), EncEndKey(shard);
    var newStart, newEnd := EncStartKey(newShard), EncEndKey(newShard);
    if Less(oldStart, newStart) {
      ranges := ranges + [(oldStart, newStart)];
    }
    if Less(newEnd, oldEnd) {
      ranges := ranges + [(newEnd, oldEnd)];
    }
  }

  function ExtraRanges(oldStart: Key, oldEnd: Key, newStart: Key, newEnd: Key): seq<(Key, Key)> {
    (if Less(oldStart, newStart) then [(oldStart, newStart)] else []) +
    (if Less(newEnd, oldEnd) then [(newEnd, oldEnd)] else [])
  }

  predicate Deletes(ranges: seq<(Key, Key)>, key: Key) {
    exists i :: 0 <= i < |ranges| && InRange(key, ranges[i].0, ranges[i].1)
  }

  /** The deletion is exact (the keys of the old range outside the new one, no others) if and only if
      the two ranges overlap or touch. With a gap between them the keys of the gap go too. */
  lemma ExtraDeletionIsExact(oldStart: Key, oldEnd: Key, newStart: Key, newEnd: Key)
    requires Less(oldStart, oldEnd) && Less(newStart, newEnd)
    ensures (forall key :: Deletes(ExtraRanges(oldStart, oldEnd, newStart, newEnd), key)
                           <==> InRange(key, oldStart, oldEnd) && !InRange(key, newStart, newEnd))
            <==> AtMost(newStart, oldEnd) && AtMost(oldStart, newEnd)
  {
    var ranges := ExtraRanges(oldStart, oldEnd, newStart, newEnd);
    forall key ensures Deletes(ranges, key)
        <==> InRange(key, oldStart, newStart) || InRange(key, newEnd, oldEnd) {
      DeletesUnfolded(oldStart, oldEnd, newStart, newEnd, key);
    }
    LessIsTotalOrder();
    if Less(oldEnd, newStart) {
      assert InRange(oldEnd, oldStart, newStart) && !InRange(oldEnd, oldStart, oldEnd);
    } else if Less(newEnd, oldStart) {
      assert InRange(newEnd, newEnd, oldEnd) && !InRange(newEnd, oldStart, oldEnd);
    } else {
      forall key ensures Deletes(ranges, key)
          <==> InRange(key, oldStart, oldEnd) && !InRange(key, newStart, newEnd) {
      }
    }
  }

  lemma DeletesUnfolded(oldStart: Key, oldEnd: Key, newStart: Key, newEnd: Key, key: Key)
    ensures Deletes(ExtraRanges(oldStart, oldEnd, newStart, newEnd), key)
            <==> InRange(key, oldStart, newStart) || InRange(key, newEnd, oldEnd)
  {
    LessIsTotalOrder();
    var ranges := ExtraRanges(oldStart, oldEnd, newStart, newEnd);
    if InRange(key, oldStart, newStart) {
      assert ranges[0] == (oldStart, newStart);
    }
    if InRange(key, newEnd, oldEnd) {
      assert ranges[|ranges| - 1] == (newEnd, oldEnd);
    }
  }

  /** For overlapping shards of one group the jobs remove a user key exactly when the old shard owned it
      and the new one does not. */
  lemma ReplacedShardKeepsOnlyItsKeys(shard: Shard, newShard: Shard, key: Key)
    requires |shard.peers| > 0 && |newShard.peers| > 0
    requires shard.group == newShard.group < TWO_TO_64 - 1
    requires WellFormed(shard) && WellFormed(newShard) && Overlap(shard, newShard)
    ensures Deletes(ExtraRanges(EncStartKey(shard), EncEndKey(shard), EncStartKey(newShard), EncEndKey(newShard)),
                    EncodeDataKey(shard.group, key))
            <==> Contains(shard, key) && !Contains(newShard, key)
  {
    var os, oe, ns, ne := EncStartKey(shard), EncEndKey(shard), EncStartKey(newShard), EncEndKey(newShard);
    LessIsTotalOrder();
    EncodedRangeIsShardRange(shard, shard.start);
    EncodedRangeIsShardRange(newShard, newShard.start);
    OverlapMeansSharedKey(shard, newShard);
    var both :| Contains(shard, both) && Contains(newShard, both);
    EncodedRangeIsShardRange(shard, both);
    EncodedRangeIsShardRange(newShard, both);
    ExtraDeletionIsExact(os, oe, ns, ne);
    EncodedRangeIsShardRange(shard, key);
    EncodedRangeIsShardRange(newShard, key);
  }
}
