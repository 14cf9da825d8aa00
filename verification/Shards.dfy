/** Shard metadata and the half-open key ranges it describes. */
module Shards {
  import opened Bytes

  datatype Epoch = Epoch(confVer: nat, version: nat)

  datatype Peer = Peer(id: nat, containerID: nat)

  /** `end == []` stands for positive infinity. */
  datatype Shard = Shard(
    id: nat, group: U64, start: Key, end: Key, epoch: Epoch, peers: seq<Peer>,
    unique: string, ruleGroups: seq<string>, disableSplit: bool)

  const EMPTY_SHARD: Shard := Shard(0, 0, [], [], Epoch(0, 0), [], "", [], false)

  /** A key below the upper bound `end`. */
  predicate BelowEnd(key: Key, end: Key) {
    |end| == 0 || Less(key, end)
  }

  /** `ShardItem.Contains`, and the test made by `checkKeyInShard`. */
  predicate Contains(s: Shard, key: Key) {
    AtMost(s.start, key) && BelowEnd(key, s.end)
  }

  /** The range holds at least one key. */
  predicate WellFormed(s: Shard) {
    BelowEnd(s.start, s.end)
  }

  predicate Overlap(a: Shard, b: Shard) {
    BelowEnd(a.start, b.end) && BelowEnd(b.start, a.end)
  }

  /** The comparison of bounds says what it should: some key lies in both ranges. */
  lemma OverlapMeansSharedKey(a: Shard, b: Shard)
    requires WellFormed(a) && WellFormed(b)
    ensures Overlap(a, b) <==> exists key :: Contains(a, key) && Contains(b, key)
  {
    LessIsTotalOrder();
    if Overlap(a, b) {
      var key := if Less(a.start, b.start) then b.start else a.start;
      assert Contains(a, key) && Contains(b, key);
    }
  }
}
