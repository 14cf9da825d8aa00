/** Batch split: `doExecSplit` (raftstore/peer_apply_exec.go) and the routing updates of `doApplySplit`
    (raftstore/peer_event_post_apply.go). */
module Split {
  import opened Bytes
  import opened Shards
  import opened Keys
  import opened ShardIndex
  import opened Options

  datatype SplitRequest = SplitRequest(splitKey: Key, newShardID: nat, newPeerIDs: seq<nat>)

  datatype SplitError = MissingRequests | MissingSplitKey | InvalidSplitKey | InvalidPeerCount

  datatype SplitOutcome =
    | Rejected(error: SplitError)
    | OutOfShard                                  // the last key is outside the shard: no error, no result
    | Crashed                                     // a non-empty split key too short to decode
    | Splitted(derived: Shard, shards: seq<Shard>)

  // ---- specification

  /** A request whose key can be decoded and whose peer IDs match the shard's peers. */
  predicate Decodable(shard: Shard, req: SplitRequest) {
    |req.splitKey| >= DATA_PREFIX_SIZE && |req.newPeerIDs| == |shard.peers|
  }

  predicate AllDecodable(shard: Shard, reqs: seq<SplitRequest>) {
    forall k {:trigger reqs[k]} :: 0 <= k < |reqs| ==> Decodable(shard, reqs[k])
  }

  /** The i-th boundary: the shard's start, then the decoded split keys, then the shard's end. */
  function Boundary(shard: Shard, reqs: seq<SplitRequest>, i: nat): Key
    requires i <= |reqs| + 1
    requires AllDecodable(shard, reqs)
  {
    if i == 0 then shard.start
    else if i <= |reqs| then DecodeDataKey(reqs[i - 1].splitKey)
    else shard.end
  }

  /** The requests the split accepts: decodable keys that increase from the start and stay below the end. */
  predicate Splittable(shard: Shard, reqs: seq<SplitRequest>) {
    && |reqs| > 0
    && AllDecodable(shard, reqs)
    && (forall i :: 0 <= i < |reqs| ==> Less(Boundary(shard, reqs, i), Boundary(shard, reqs, i + 1)))
    && BelowEnd(Boundary(shard, reqs, |reqs|), shard.end)
  }

  function NewPeers(peers: seq<Peer>, ids: seq<nat>): (r: seq<Peer>)
    requires |ids| == |peers|
  {
    seq(|peers|, i requires 0 <= i < |peers| => Peer(ids[i], peers[i].containerID))
  }

  function SplitEpoch(shard: Shard, n: nat): Epoch {
    shard.epoch.(version := shard.epoch.version + n)
  }

  function Derived(shard: Shard, reqs: seq<SplitRequest>): Shard
    requires Splittable(shard, reqs)
  {
    shard.(epoch := SplitEpoch(shard, |reqs|), end := Boundary(shard, reqs, 1))
  }

  function NewShard(shard: Shard, reqs: seq<SplitRequest>, i: nat): Shard
    requires Splittable(shard, reqs) && i < |reqs|
  {
    Shard(reqs[i].newShardID, shard.group, Boundary(shard, reqs, i + 1), Boundary(shard, reqs, i + 2),
          SplitEpoch(shard, |reqs|), NewPeers(shard.peers, reqs[i].newPeerIDs),
          shard.unique, shard.ruleGroups, shard.disableSplit)
  }

  function NewShards(shard: Shard, reqs: seq<SplitRequest>): (r: seq<Shard>)
    requires Splittable(shard, reqs)
    ensures |r| == |reqs|
  {
    seq(|reqs|, i requires 0 <= i < |reqs| => NewShard(shard, reqs, i))
  }

  /** The key the n-th split key must lie above. */
  function KeyBefore(shard: Shard, reqs: seq<SplitRequest>, n: nat): Key
    requires n <= |reqs|
  {
    if n == 0 then shard.start
    else if |reqs[n - 1].splitKey| < DATA_PREFIX_SIZE then []
    else DecodeDataKey(reqs[n - 1].splitKey)
  }

  /** What is wrong with the n-th request, if everything before it is in order. */
  function Fault(shard: Shard, reqs: seq<SplitRequest>, n: nat): Option<SplitOutcome>
    requires n < |reqs|
  {
    if |reqs[n].splitKey| == 0 then Some(Rejected(MissingSplitKey))
    else if |reqs[n].splitKey| < DATA_PREFIX_SIZE then Some(Crashed)
    else if AtMost(DecodeDataKey(reqs[n].splitKey), KeyBefore(shard, reqs, n)) then Some(Rejected(InvalidSplitKey))
    else if |reqs[n].newPeerIDs| != |shard.peers| then Some(Rejected(InvalidPeerCount))
    else None
  }

  ghost predicate FirstFault(shard: Shard, reqs: seq<SplitRequest>, n: nat, r: SplitOutcome)
    requires n < |reqs|
  {
    Fault(shard, reqs, n) == Some(r) && forall m :: 0 <= m < n ==> Fault(shard, reqs, m) == None
  }

  /** Why a split is refused: no requests, the first faulty one, or a last key outside the shard. */
  ghost predicate Refused(shard: Shard, reqs: seq<SplitRequest>, r: SplitOutcome) {
    || (reqs == [] && r == Rejected(MissingRequests))
    || (exists n :: 0 <= n < |reqs| && FirstFault(shard, reqs, n, r))
    || (&& reqs != [] && (forall m :: 0 <= m < |reqs| ==> Fault(shard, reqs, m) == None)
        && !Contains(shard, KeyBefore(shard, reqs, |reqs|)) && r == OutOfShard)
  }

  // ---- the code

  method ExecSplit(shard: Shard, reqs: seq<SplitRequest>) returns (r: SplitOutcome)
    ensures r.Splitted? <==> Splittable(shard, reqs)
    ensures r.Splitted? ==> r == Splitted(Derived(shard, reqs), NewShards(shard, reqs))
    ensures r.Splitted? || Refused(shard, reqs, r)
  {
    var refused, keys := CollectKeys(shard, reqs);
    if refused.Some? { return refused.value; }
    var derived := shard.(epoch := SplitEpoch(shard, |reqs|));
    keys := keys + [derived.end];
    derived := derived.(end := keys[0]);
    var shards := BuildShards(shard, derived, reqs, keys);
    r := Splitted(derived, shards);
  }

  /** Pops one key per request: its start, with the next key as its end. */
  method BuildShards(ghost shard: Shard, derived: Shard, reqs: seq<SplitRequest>, cuts: seq<Key>) returns (shards: seq<Shard>)
    requires Splittable(shard, reqs) && derived == Derived(shard, reqs) && |cuts| == |reqs| + 1
    requires forall k :: 0 <= k < |cuts| ==> cuts[k] == Boundary(shard, reqs, k + 1)
    ensures shards == NewShards(shard, reqs)
  {
    var keys := cuts;
    shards := [];
    for n := 0 to |reqs|
      invariant keys == cuts[n..]
      invariant |shards| == n && forall k :: 0 <= k < n ==> shards[k] == NewShard(shard, reqs, k)
    {
      var start := keys[0];
      keys := keys[1..];
      var peers := CopyPeers(derived.peers, reqs[n].newPeerIDs);
      shards := shards + [Shard(reqs[n].newShardID, derived.group, start, keys[0], derived.epoch, peers,
                                derived.unique, derived.ruleGroups, derived.disableSplit)];
    }
  }

  /** The keys pushed so far are those of the first requests, in increasing order. */
  ghost predicate Collected(shard: Shard, reqs: seq<SplitRequest>, keys: seq<Key>) {
    |keys| <= |reqs| && KeysOf(shard, reqs, keys) && Increasing(shard.start, keys)
  }

  ghost predicate IsKeyOf(shard: Shard, req: SplitRequest, key: Key) {
    Decodable(shard, req) && key == DecodeDataKey(req.splitKey)
  }

  ghost predicate KeysOf(shard: Shard, reqs: seq<SplitRequest>, keys: seq<Key>)
    requires |keys| <= |reqs|
  {
    forall k :: 0 <= k < |keys| ==> IsKeyOf(shard, reqs[k], keys[k])
  }

  /** Checks each key against the last one pushed on the deque, and the final one against the shard. */
  method CollectKeys(shard: Shard, reqs: seq<SplitRequest>) returns (refused: Option<SplitOutcome>, keys: seq<Key>)
    ensures refused.None? <==> Splittable(shard, reqs)
    ensures refused.Some? ==> !refused.value.Splitted? && Refused(shard, reqs, refused.value)
    ensures refused.None? ==> |keys| == |reqs| && forall k :: 0 <= k < |keys| ==> keys[k] == Boundary(shard, reqs, k + 1)
  {
    keys := [];
    if |reqs| == 0 { return Some(Rejected(MissingRequests)), keys; }
    for n := 0 to |reqs|
      invariant |keys| == n && Collected(shard, reqs, keys)
      invariant forall m :: 0 <= m < n ==> Fault(shard, reqs, m) == None
    {
      refused := CheckRequest(shard, reqs, n, keys);
      if refused.Some? {
        assert FirstFault(shard, reqs, n, refused.value);
        FaultRefuses(shard, reqs, n);
        return;
      }
      PushFaultless(shard, reqs, keys);
      keys := keys + [DecodeDataKey(reqs[n].splitKey)];
    }
    CollectedBoundaries(shard, reqs, keys);
    CollectedSplit(shard, reqs, keys);
    if !Contains(shard, keys[|keys| - 1]) { return Some(OutOfShard), keys; }
    refused := None;
  }

  method CheckRequest(shard: Shard, reqs: seq<SplitRequest>, n: nat, keys: seq<Key>) returns (fault: Option<SplitOutcome>)
    requires n < |reqs| && |keys| == n && Collected(shard, reqs, keys)
    ensures fault == Fault(shard, reqs, n)
  {
    var req := reqs[n];
    if |req.splitKey| == 0 { return Some(Rejected(MissingSplitKey)); }
    if |req.splitKey| < DATA_PREFIX_SIZE { return Some(Crashed); }
    var v := shard.start;
    if |keys| > 0 { v := keys[|keys| - 1]; }
    if AtMost(DecodeDataKey(req.splitKey), v) { return Some(Rejected(InvalidSplitKey)); }
    if |req.newPeerIDs| != |shard.peers| { return Some(Rejected(InvalidPeerCount)); }
    fault := None;
  }

  lemma FaultRefuses(shard: Shard, reqs: seq<SplitRequest>, n: nat)
    requires n < |reqs| && Fault(shard, reqs, n).Some?
    ensures !Splittable(shard, reqs)
  {
    assert AllDecodable(shard, reqs) ==>
        KeyBefore(shard, reqs, n) == Boundary(shard, reqs, n) && !Less(Boundary(shard, reqs, n), Boundary(shard, reqs, n + 1));
  }

  lemma PushFaultless(shard: Shard, reqs: seq<SplitRequest>, keys: seq<Key>)
    requires Collected(shard, reqs, keys) && |keys| < |reqs| && Fault(shard, reqs, |keys|) == None
    ensures Collected(shard, reqs, keys + [DecodeDataKey(reqs[|keys|].splitKey)])
  {
    assert KeyBefore(shard, reqs, |keys|) == PreviousKey(shard.start, keys, |keys|);
    PushCollected(shard, reqs, keys, DecodeDataKey(reqs[|keys|].splitKey));
  }

  lemma PushCollected(shard: Shard, reqs: seq<SplitRequest>, keys: seq<Key>, key: Key)
    requires Collected(shard, reqs, keys) && |keys| < |reqs| && IsKeyOf(shard, reqs[|keys|], key)
    requires Less(PreviousKey(shard.start, keys, |keys|), key)
    ensures Collected(shard, reqs, keys + [key])
  {
    PushKeyOf(shard, reqs, keys, key);
    PushIncreasing(shard.start, keys, key);
  }

  lemma PushKeyOf(shard: Shard, reqs: seq<SplitRequest>, keys: seq<Key>, key: Key)
    requires |keys| < |reqs| && KeysOf(shard, reqs, keys) && IsKeyOf(shard, reqs[|keys|], key)
    ensures KeysOf(shard, reqs, keys + [key])
  {
    var more := keys + [key];
    forall k | 0 <= k < |more| ensures IsKeyOf(shard, reqs[k], more[k]) {
      if k < |keys| { assert IsKeyOf(shard, reqs[k], keys[k]); }
    }
  }

  method CopyPeers(peers: seq<Peer>, ids: seq<nat>) returns (r: seq<Peer>)
    requires |ids| == |peers|
    ensures r == NewPeers(peers, ids)
  {
    r := [];
    for i := 0 to |peers|
      invariant |r| == i && forall k :: 0 <= k < i ==> r[k] == Peer(ids[k], peers[k].containerID)
    {
      r := r + [Peer(ids[i], peers[i].containerID)];
    }
  }

  /** The key pushed before the k-th one. */
  function PreviousKey(start: Key, keys: seq<Key>, k: nat): Key
    requires k <= |keys|
  {
    if k == 0 then start else keys[k - 1]
  }

  ghost predicate Increasing(start: Key, keys: seq<Key>) {
    forall k :: 0 <= k < |keys| ==> Less(PreviousKey(start, keys, k), keys[k])
  }

  lemma PushIncreasing(start: Key, keys: seq<Key>, key: Key)
    requires Increasing(start, keys) && Less(PreviousKey(start, keys, |keys|), key)
    ensures Increasing(start, keys + [key])
  {
    var more := keys + [key];
    forall k | 0 <= k < |more| ensures Less(PreviousKey(start, more, k), more[k]) {
      assert PreviousKey(start, more, k) == PreviousKey(start, keys, k);
      if k < |keys| {
        assert Less(PreviousKey(start, keys, k), keys[k]);
        assert more[k] == keys[k];
      }
    }
  }

  lemma CollectedBoundaries(shard: Shard, reqs: seq<SplitRequest>, keys: seq<Key>)
    requires |reqs| > 0 && |keys| == |reqs| && Collected(shard, reqs, keys)
    ensures AllDecodable(shard, reqs) && keys[|keys| - 1] == KeyBefore(shard, reqs, |reqs|)
    ensures forall k :: 0 <= k < |keys| ==> keys[k] == Boundary(shard, reqs, k + 1)
  {
    assert forall k :: 0 <= k < |keys| ==> IsKeyOf(shard, reqs[k], keys[k]);
  }

  lemma CollectedSplit(shard: Shard, reqs: seq<SplitRequest>, keys: seq<Key>)
    requires |reqs| > 0 && |keys| == |reqs| && AllDecodable(shard, reqs) && Increasing(shard.start, keys)
    requires forall k :: 0 <= k < |keys| ==> keys[k] == Boundary(shard, reqs, k + 1)
    ensures Splittable(shard, reqs) <==> Contains(shard, keys[|keys| - 1])
  {
    forall i | 0 <= i < |reqs| ensures Less(Boundary(shard, reqs, i), Boundary(shard, reqs, i + 1)) {
      assert Less(PreviousKey(shard.start, keys, i), keys[i]);
      assert keys[i] == Boundary(shard, reqs, i + 1);
    }
    LastKeyAboveStart(shard.start, keys);
    assert Boundary(shard, reqs, |reqs|) == keys[|keys| - 1];
  }

  lemma {:induction false} LastKeyAboveStart(start: Key, keys: seq<Key>)
    requires |keys| > 0 && Increasing(start, keys)
    ensures Less(start, keys[|keys| - 1]) && AtMost(start, keys[|keys| - 1])
  {
    var n := |keys|;
    assert Less(PreviousKey(start, keys, n - 1), keys[n - 1]);
    if n > 1 {
      var init := keys[..n - 1];
      forall k | 0 <= k < |init| ensures Less(PreviousKey(start, init, k), init[k]) {
        assert Less(PreviousKey(start, keys, k), keys[k]);
      }
      LastKeyAboveStart(start, init);
      LessTransitive(start, keys[n - 2], keys[n - 1]);
    }
    if Less(keys[n - 1], start) {
      LessTransitive(start, keys[n - 1], start);
      LessIrreflexive(start);
    }
  }

  /** The n-th request is the first whose key does not decode, does not lie above the one before, or whose peer IDs do
      not match. */
  ghost predicate FirstOutOfOrder(shard: Shard, reqs: seq<SplitRequest>, n: nat) {
    && n < |reqs|
    && (forall m :: 0 <= m < n ==>
          Decodable(shard, reqs[m]) && Less(KeyBefore(shard, reqs, m), DecodeDataKey(reqs[m].splitKey)))
    && !(Decodable(shard, reqs[n]) && Less(KeyBefore(shard, reqs, n), DecodeDataKey(reqs[n].splitKey)))
  }

  /** What each refusal says about the requests. */
  lemma RefusalIsExplained(shard: Shard, reqs: seq<SplitRequest>, r: SplitOutcome)
    requires Refused(shard, reqs, r)
    ensures match r
            case Rejected(MissingRequests) => reqs == []
            case Rejected(MissingSplitKey) => exists n: nat :: FirstOutOfOrder(shard, reqs, n) && reqs[n].splitKey == []
            case Crashed => exists n: nat :: FirstOutOfOrder(shard, reqs, n) && 0 < |reqs[n].splitKey| < DATA_PREFIX_SIZE
            case Rejected(InvalidSplitKey) =>
              exists n: nat :: FirstOutOfOrder(shard, reqs, n) && |reqs[n].splitKey| >= DATA_PREFIX_SIZE
                          && AtMost(DecodeDataKey(reqs[n].splitKey), KeyBefore(shard, reqs, n))
            case Rejected(InvalidPeerCount) =>
              exists n: nat :: FirstOutOfOrder(shard, reqs, n) && |reqs[n].splitKey| >= DATA_PREFIX_SIZE
                          && Less(KeyBefore(shard, reqs, n), DecodeDataKey(reqs[n].splitKey))
                          && |reqs[n].newPeerIDs| != |shard.peers|
            case OutOfShard => reqs != [] && !Contains(shard, KeyBefore(shard, reqs, |reqs|))
            case Splitted(_, _) => false
  {
    if n: nat :| n < |reqs| && FirstFault(shard, reqs, n, r) {
      FirstFaultIsOutOfOrder(shard, reqs, n, r);
    }
  }

  lemma FirstFaultIsOutOfOrder(shard: Shard, reqs: seq<SplitRequest>, n: nat, r: SplitOutcome)
    requires n < |reqs| && FirstFault(shard, reqs, n, r)
    ensures FirstOutOfOrder(shard, reqs, n)
  {
    LessIsTotalOrder();
    forall m | 0 <= m < n
      ensures Decodable(shard, reqs[m]) && Less(KeyBefore(shard, reqs, m), DecodeDataKey(reqs[m].splitKey))
    {
      assert Fault(shard, reqs, m) == None;
    }
  }

  // ---- the children partition the parent

  /** The derived shard first, then the new shards: the i-th child is `[Boundary(i), Boundary(i + 1))`. */
  function Child(shard: Shard, reqs: seq<SplitRequest>, i: nat): Shard
    requires Splittable(shard, reqs) && i <= |reqs|
  {
    if i == 0 then Derived(shard, reqs) else NewShard(shard, reqs, i - 1)
  }

  lemma {:induction false} BoundariesIncrease(shard: Shard, reqs: seq<SplitRequest>, i: nat, j: nat)
    requires Splittable(shard, reqs) && i < j <= |reqs|
    ensures Less(Boundary(shard, reqs, i), Boundary(shard, reqs, j))
    ensures |Boundary(shard, reqs, j)| > 0
  {
    assert Less(Boundary(shard, reqs, j - 1), Boundary(shard, reqs, j - 1 + 1));
    if i < j - 1 {
      BoundariesIncrease(shard, reqs, i, j - 1);
      LessTransitive(Boundary(shard, reqs, i), Boundary(shard, reqs, j - 1), Boundary(shard, reqs, j));
    }
  }

  lemma ChildrenAreWellFormed(shard: Shard, reqs: seq<SplitRequest>, i: nat)
    requires Splittable(shard, reqs) && i <= |reqs|
    ensures WellFormed(Child(shard, reqs, i))
    ensures Child(shard, reqs, i).start == Boundary(shard, reqs, i)
    ensures Child(shard, reqs, i).end == Boundary(shard, reqs, i + 1)
    ensures Child(shard, reqs, i).epoch == SplitEpoch(shard, |reqs|)
  {
    if i < |reqs| { assert Less(Boundary(shard, reqs, i), Boundary(shard, reqs, i + 1)); }
  }

  /** A new shard is the one its request asks for: its ID, its peers on the parent's stores, its start; everything else
      is the parent's, and the version has grown by the number of new shards. */
  lemma NewShardIsAsRequested(shard: Shard, reqs: seq<SplitRequest>, i: nat)
    requires Splittable(shard, reqs) && i < |reqs|
    ensures var s := NewShards(shard, reqs)[i];
            && s.id == reqs[i].newShardID && s.start == DecodeDataKey(reqs[i].splitKey)
            && s.end == (if i + 1 < |reqs| then DecodeDataKey(reqs[i + 1].splitKey) else shard.end)
            && s.group == shard.group && s.unique == shard.unique
            && s.ruleGroups == shard.ruleGroups && s.disableSplit == shard.disableSplit
            && s.epoch == Epoch(shard.epoch.confVer, shard.epoch.version + |reqs|)
            && |s.peers| == |shard.peers|
            && forall j :: 0 <= j < |s.peers| ==> s.peers[j] == Peer(reqs[i].newPeerIDs[j], shard.peers[j].containerID)
  {
  }

  /** The derived shard keeps its identity and its start, and ends at the first split key. */
  lemma DerivedIsTheSameShard(shard: Shard, reqs: seq<SplitRequest>)
    requires Splittable(shard, reqs)
    ensures Derived(shard, reqs) ==
              Shard(shard.id, shard.group, shard.start, DecodeDataKey(reqs[0].splitKey),
                    Epoch(shard.epoch.confVer, shard.epoch.version + |reqs|), shard.peers,
                    shard.unique, shard.ruleGroups, shard.disableSplit)
  {
  }

  /** Fresh IDs make distinct children. */
  lemma ChildIDsDiffer(shard: Shard, reqs: seq<SplitRequest>, i: nat, j: nat)
    requires Splittable(shard, reqs) && i < j <= |reqs|
    requires forall k :: 0 <= k < |reqs| ==> reqs[k].newShardID != shard.id
    requires forall k, l :: 0 <= k < l < |reqs| ==> reqs[k].newShardID != reqs[l].newShardID
    ensures Child(shard, reqs, i).id != Child(shard, reqs, j).id
  {
    NewShardIsAsRequested(shard, reqs, j - 1);
    if i > 0 { NewShardIsAsRequested(shard, reqs, i - 1); }
  }

  /** Which child holds a key of the parent: a scan for the last boundary at or below the key. */
  function Owner(shard: Shard, reqs: seq<SplitRequest>, key: Key, n: nat): (i: nat)
    requires Splittable(shard, reqs) && n <= |reqs|
    ensures i <= n
  {
    if n == 0 || AtMost(Boundary(shard, reqs, n), key) then n else Owner(shard, reqs, key, n - 1)
  }

  lemma {:induction false} OwnerContains(shard: Shard, reqs: seq<SplitRequest>, key: Key, n: nat)
    requires Splittable(shard, reqs) && Contains(shard, key) && n <= |reqs|
    requires n < |reqs| ==> Less(key, Boundary(shard, reqs, n + 1))
    ensures Contains(Child(shard, reqs, Owner(shard, reqs, key, n)), key)
  {
    if n > 0 && Less(key, Boundary(shard, reqs, n)) {
      OwnerContains(shard, reqs, key, n - 1);
    } else if n < |reqs| {
      BoundariesIncrease(shard, reqs, n, n + 1);
    }
  }

  lemma ChildOverlapsNoOther(shard: Shard, reqs: seq<SplitRequest>, i: nat, j: nat)
    requires Splittable(shard, reqs) && i < j <= |reqs|
    ensures !Overlap(Child(shard, reqs, i), Child(shard, reqs, j))
  {
    LessIsTotalOrder();
    ChildrenAreWellFormed(shard, reqs, i);
    ChildrenAreWellFormed(shard, reqs, j);
    BoundariesIncrease(shard, reqs, i, i + 1);
    if i + 1 < j { BoundariesIncrease(shard, reqs, i + 1, j); }
  }

  lemma ChildWithinParent(shard: Shard, reqs: seq<SplitRequest>, i: nat, key: Key)
    requires Splittable(shard, reqs) && i <= |reqs| && Contains(Child(shard, reqs, i), key)
    ensures Contains(shard, key)
  {
    LessIsTotalOrder();
    ChildrenAreWellFormed(shard, reqs, i);
    if i > 0 { BoundariesIncrease(shard, reqs, 0, i); }
    if i < |reqs| { BoundariesIncrease(shard, reqs, i, i + 1); }
    if i + 1 < |reqs| { BoundariesIncrease(shard, reqs, i + 1, |reqs|); }
  }

  /** A key of the parent lies in exactly one child, and a key outside the parent in none. */
  lemma ChildrenPartitionParent(shard: Shard, reqs: seq<SplitRequest>, key: Key)
    requires Splittable(shard, reqs)
    ensures Contains(shard, key) <==> exists i :: 0 <= i <= |reqs| && Contains(Child(shard, reqs, i), key)
    ensures forall i, j :: 0 <= i < j <= |reqs| ==>
              !(Contains(Child(shard, reqs, i), key) && Contains(Child(shard, reqs, j), key))
  {
    if Contains(shard, key) {
      OwnerContains(shard, reqs, key, |reqs|);
    }
    forall i | 0 <= i <= |reqs| && Contains(Child(shard, reqs, i), key) ensures Contains(shard, key) {
      ChildWithinParent(shard, reqs, i, key);
    }
    forall i, j | 0 <= i < j <= |reqs|
      ensures !(Contains(Child(shard, reqs, i), key) && Contains(Child(shard, reqs, j), key))
    {
      ChildOverlapsNoOther(shard, reqs, i, j);
      ChildrenAreWellFormed(shard, reqs, i);
      ChildrenAreWellFormed(shard, reqs, j);
      OverlapMeansSharedKey(Child(shard, reqs, i), Child(shard, reqs, j));
    }
  }

  // ---- routing after the split

  predicate SameRange(a: Shard, b: Shard) {
    a.start == b.start && a.end == b.end
  }

  /** The index holds the first `n` children in place of the entry for the parent. */
  ghost predicate Indexed(before: seq<Shard>, items: seq<Shard>, entry: Shard, shard: Shard, reqs: seq<SplitRequest>, n: nat)
    requires Splittable(shard, reqs) && n <= |reqs| + 1
  {
    && ValidItems(items)
    && forall x :: x in items <==> (exists j :: 0 <= j < n && x == Child(shard, reqs, j)) || (x in before && x != entry)
  }

  lemma OthersAvoidChildren(before: seq<Shard>, entry: Shard, shard: Shard, reqs: seq<SplitRequest>, x: Shard, i: nat)
    requires ValidItems(before) && entry in before && SameRange(entry, shard)
    requires Splittable(shard, reqs) && i <= |reqs|
    requires x in before && x != entry
    ensures !Overlap(x, Child(shard, reqs, i))
  {
    var c := Child(shard, reqs, i);
    ChildrenAreWellFormed(shard, reqs, i);
    OverlapMeansSharedKey(x, c);
    OverlapMeansSharedKey(x, entry);
    if Overlap(x, c) {
      var key :| Contains(x, key) && Contains(c, key);
      ChildWithinParent(shard, reqs, i, key);
      assert Contains(entry, key);
    }
  }

  /** The first update replaces the parent's entry by the derived shard. */
  lemma DerivedReplacesEntry(before: seq<Shard>, items: seq<Shard>, entry: Shard, shard: Shard, reqs: seq<SplitRequest>)
    requires ValidItems(before) && entry in before && SameRange(entry, shard) && Splittable(shard, reqs)
    requires Updated(before, items, Derived(shard, reqs))
    ensures Indexed(before, items, entry, shard, reqs, 1)
  {
    var c := Child(shard, reqs, 0);
    ChildrenAreWellFormed(shard, reqs, 0);
    assert Overlap(entry, c);
    forall x ensures x in items <==> (exists j :: 0 <= j < 1 && x == Child(shard, reqs, j)) || (x in before && x != entry) {
      if x in before && x != entry { OthersAvoidChildren(before, entry, shard, reqs, x, 0); }
    }
  }

  lemma UpdateAddsChild(before: seq<Shard>, prev: seq<Shard>, items: seq<Shard>, entry: Shard,
                        shard: Shard, reqs: seq<SplitRequest>, n: nat)
    requires ValidItems(before) && entry in before && SameRange(entry, shard) && Splittable(shard, reqs)
    requires 0 < n <= |reqs| && Indexed(before, prev, entry, shard, reqs, n)
    requires Updated(prev, items, Child(shard, reqs, n))
    ensures Indexed(before, items, entry, shard, reqs, n + 1)
  {
    var c := Child(shard, reqs, n);
    forall x ensures x in items <==>
        (exists j :: 0 <= j < n + 1 && x == Child(shard, reqs, j)) || (x in before && x != entry) {
      if x in prev {
        if x in before && x != entry {
          OthersAvoidChildren(before, entry, shard, reqs, x, n);
        } else {
          var j :| 0 <= j < n && x == Child(shard, reqs, j);
          ChildOverlapsNoOther(shard, reqs, j, n);
        }
      }
    }
  }

  /** Every key of the parent is now routed to its child, and every other key as before. */
  lemma SplitRouting(before: seq<Shard>, items: seq<Shard>, entry: Shard, shard: Shard, reqs: seq<SplitRequest>, key: Key)
    requires ValidItems(before) && entry in before && SameRange(entry, shard) && Splittable(shard, reqs)
    requires Indexed(before, items, entry, shard, reqs, |reqs| + 1)
    ensures Lookup(items, key) == if Contains(shard, key) then Child(shard, reqs, Owner(shard, reqs, key, |reqs|))
                                  else Lookup(before, key)
  {
    if Contains(shard, key) {
      OwnerContains(shard, reqs, key, |reqs|);
      LookupFinds(items, Child(shard, reqs, Owner(shard, reqs, key, |reqs|)), key);
    } else if exists x :: x in before && Contains(x, key) {
      var x :| x in before && Contains(x, key);
      LookupFinds(before, x, key);
      LookupFinds(items, x, key);
    } else {
      LookupMisses(before, key);
      forall x | x in items ensures !Contains(x, key) {
        if x !in before {
          var j :| 0 <= j < |reqs| + 1 && x == Child(shard, reqs, j);
          if Contains(x, key) { ChildWithinParent(shard, reqs, j, key); }
        }
      }
      LookupMisses(items, key);
    }
  }

  /** The index part of `doApplySplit`. `entry` is the index's own record of the parent, whose epoch and
      peers may be older than those of the shard that was split. */
  method ApplySplit(tree: ShardTree, derived: Shard, shards: seq<Shard>,
                    ghost shard: Shard, ghost reqs: seq<SplitRequest>, ghost entry: Shard)
    requires tree.Valid() && entry in tree.items && SameRange(entry, shard)
    requires Splittable(shard, reqs) && derived == Derived(shard, reqs) && shards == NewShards(shard, reqs)
    modifies tree
    ensures tree.Valid()
    ensures forall key :: Lookup(tree.items, key) ==
              if Contains(shard, key) then Child(shard, reqs, Owner(shard, reqs, key, |reqs|))
              else old(Lookup(tree.items, key))
  {
    ghost var before := tree.items;
    ChildrenAreWellFormed(shard, reqs, 0);
    tree.Update(derived);
    DerivedReplacesEntry(before, tree.items, entry, shard, reqs);
    for n := 0 to |shards|
      invariant Indexed(before, tree.items, entry, shard, reqs, n + 1)
    {
      ghost var prev := tree.items;
      ChildrenAreWellFormed(shard, reqs, n + 1);
      tree.Update(shards[n]);
      UpdateAddsChild(before, prev, tree.items, entry, shard, reqs, n + 1);
    }
    forall key ensures Lookup(tree.items, key) ==
        if Contains(shard, key) then Child(shard, reqs, Owner(shard, reqs, key, |reqs|)) else Lookup(before, key) {
      SplitRouting(before, tree.items, entry, shard, reqs, key);
    }
  }
}
