/** Choosing split keys by size (`SplitCheck` in storage/mem/storage.go) and their acceptance by the split. */
module SplitCheck {
  import opened Bytes
  import opened Shards
  import opened Keys
  import opened Split
  import opened KVStorage

  const EXPIRY_SIZE: nat := 8

  /** The value left after the expiry prefix is not empty. Expired values do not occur without a TTL. */
  predicate Live(x: Item) {
    |x.value| > EXPIRY_SIZE
  }

  /** Bytes a live item counts for. */
  function Size(x: Item): nat {
    if Live(x) then |x.key| + |x.value| - EXPIRY_SIZE else 0
  }

  function LiveItems(scan: seq<Item>): seq<Item> {
    if scan == [] then []
    else LiveItems(scan[..|scan| - 1]) + if Live(scan[|scan| - 1]) then [scan[|scan| - 1]] else []
  }

  /** The bytes of the first `n` items. */
  function Sum(live: seq<Item>, n: nat): nat
    requires n <= |live|
  {
    if n == 0 then 0 else Sum(live, n - 1) + Size(live[n - 1])
  }

  /** The items `i..j` reach `size` with their last one and not before. */
  ghost predicate Chunk(live: seq<Item>, size: nat, i: nat, j: nat) {
    i < j <= |live| && Sum(live, j) - Sum(live, i) >= size && Sum(live, j - 1) - Sum(live, i) < size
  }

  function Before(cuts: seq<nat>, i: nat): nat
    requires i <= |cuts|
  {
    if i == 0 then 0 else cuts[i - 1]
  }

  ghost predicate FullChunks(live: seq<Item>, size: nat, cuts: seq<nat>) {
    forall i {:trigger Before(cuts, i)} :: 0 <= i < |cuts| ==> cuts[i] < |live| && Chunk(live, size, Before(cuts, i), cuts[i])
  }

  /** The cuts end the chunks, and what follows the last one only reaches `size` at its very end, if at all. */
  ghost predicate Chunks(live: seq<Item>, size: nat, cuts: seq<nat>) {
    var last := Before(cuts, |cuts|);
    && FullChunks(live, size, cuts) && last <= |live|
    && (last < |live| ==> Sum(live, |live| - 1) - Sum(live, last) < size)
  }

  ghost predicate KeysAtCuts(live: seq<Item>, splitKeys: seq<Key>, cuts: seq<nat>) {
    |splitKeys| == |cuts| && forall i :: 0 <= i < |cuts| ==> cuts[i] < |live| && splitKeys[i] == live[cuts[i]].key
  }

  /** The bytes of the live pairs, one after the other, without the expiry prefix. */
  function LiveBytes(live: seq<Item>): Key {
    if live == [] then []
    else
      var x := live[|live| - 1];
      LiveBytes(live[..|live| - 1]) + x.key + x.value[if Live(x) then EXPIRY_SIZE else |x.value|..]
  }

  /** The totals count the bytes of keys and values. */
  lemma {:induction false} SumCountsBytes(live: seq<Item>)
    requires forall i :: 0 <= i < |live| ==> Live(live[i])
    ensures Sum(live, |live|) == |LiveBytes(live)|
  {
    if live == [] {
    } else {
      var init, x := live[..|live| - 1], live[|live| - 1];
      SumCountsBytes(init);
      SumPrefix(init, x, |init|);
      assert init + [x] == live;
    }
  }

  /** Every live item has at least one byte, so a size of zero cuts like a size of one. */
  function Threshold(size: nat): nat {
    if size == 0 then 1 else size
  }

  /** The live items are cut into consecutive chunks of at least `size` bytes that would be smaller without
      their last item; each split key is the first key after such a chunk, and the totals are exact. */
  method Check(scan: seq<Item>, size: nat) returns (total: nat, keys: nat, splitKeys: seq<Key>)
    ensures total == Sum(LiveItems(scan), |LiveItems(scan)|) && keys == |LiveItems(scan)|
    ensures exists cuts :: Chunks(LiveItems(scan), Threshold(size), cuts) && KeysAtCuts(LiveItems(scan), splitKeys, cuts)
  {
    total, keys, splitKeys := 0, 0, [];
    ghost var cuts: seq<nat> := [];
    ghost var limit := Threshold(size);
    var sum: nat, appendSplitKey := 0, false;
    for n := 0 to |scan|
      invariant keys == |LiveItems(scan[..n])| && total == Sum(LiveItems(scan[..n]), keys)
      invariant Scanned(LiveItems(scan[..n]), limit, splitKeys, cuts, sum, appendSplitKey)
    {
      ghost var live := LiveItems(scan[..n]);
      var x := scan[n];
      LiveStep(scan, n);
      if Live(x) {
        SumPrefix(live, x, |live|);
        if appendSplitKey {
          ScanCuts(live, x, limit, splitKeys, cuts, sum);
          splitKeys := splitKeys + [x.key];
          cuts := cuts + [|live|];
          appendSplitKey := false;
          sum := 0;
        } else {
          ScanJoins(live, x, limit, splitKeys, cuts, sum);
        }
        total := total + Size(x);
        sum := sum + Size(x);
        keys := keys + 1;
        if sum >= size { appendSplitKey := true; }
      }
    }
    assert scan[..|scan|] == scan;
  }

  lemma LiveStep(scan: seq<Item>, n: nat)
    requires n < |scan|
    ensures LiveItems(scan[..n + 1]) == LiveItems(scan[..n]) + if Live(scan[n]) then [scan[n]] else []
    ensures !Live(scan[n]) ==> LiveItems(scan[..n + 1]) == LiveItems(scan[..n])
  {
    assert scan[..n + 1][..n] == scan[..n];
  }

  /** State of the scan after the live items seen so far: `sum` is the current chunk. */
  ghost predicate Scanned(live: seq<Item>, size: nat, splitKeys: seq<Key>, cuts: seq<nat>, sum: nat, pending: bool) {
    && Chunks(live, size, cuts) && KeysAtCuts(live, splitKeys, cuts)
    && sum == Sum(live, |live|) - Sum(live, Before(cuts, |cuts|))
    && (pending <==> sum >= size)
  }

  lemma {:induction false} SumPrefix(live: seq<Item>, x: Item, n: nat)
    requires n <= |live|
    ensures Sum(live + [x], n) == Sum(live, n)
  {
    if n == 0 {
    } else {
      SumPrefix(live, x, n - 1);
    }
  }

  lemma FullChunksKept(live: seq<Item>, x: Item, size: nat, cuts: seq<nat>)
    requires FullChunks(live, size, cuts)
    ensures FullChunks(live + [x], size, cuts)
  {
    forall i | 0 <= i < |cuts| ensures cuts[i] < |live + [x]| && Chunk(live + [x], size, Before(cuts, i), cuts[i]) {
      assert Chunk(live, size, Before(cuts, i), cuts[i]);
      SumPrefix(live, x, Before(cuts, i));
      SumPrefix(live, x, cuts[i]);
      SumPrefix(live, x, cuts[i] - 1);
    }
  }

  /** One live item more joins the current chunk. */
  lemma ScanJoins(live: seq<Item>, x: Item, size: nat, splitKeys: seq<Key>, cuts: seq<nat>, sum: nat)
    requires Live(x) && Scanned(live, size, splitKeys, cuts, sum, false)
    ensures Scanned(live + [x], size, splitKeys, cuts, sum + Size(x), sum + Size(x) >= size)
  {
    FullChunksKept(live, x, size, cuts);
    SumPrefix(live, x, Before(cuts, |cuts|));
    SumPrefix(live, x, |live|);
    assert KeysAtCuts(live + [x], splitKeys, cuts);
  }

  /** After a full chunk, one live item more starts the next. */
  lemma ScanCuts(live: seq<Item>, x: Item, size: nat, splitKeys: seq<Key>, cuts: seq<nat>, sum: nat)
    requires Live(x) && size > 0 && Scanned(live, size, splitKeys, cuts, sum, true)
    ensures Scanned(live + [x], size, splitKeys + [x.key], cuts + [|live|], Size(x), Size(x) >= size)
  {
    var more, cuts', last := live + [x], cuts + [|live|], Before(cuts, |cuts|);
    FullChunksKept(live, x, size, cuts);
    SumPrefix(live, x, last);
    SumPrefix(live, x, |live|);
    SumPrefix(live, x, |live| - 1);
    CutAdded(more, size, cuts, |live|);
    assert Before(cuts', |cuts'|) == |live|;
    assert KeysAtCuts(more, splitKeys + [x.key], cuts');
  }

  lemma CutAdded(live: seq<Item>, size: nat, cuts: seq<nat>, cut: nat)
    requires FullChunks(live, size, cuts) && cut < |live| && Chunk(live, size, Before(cuts, |cuts|), cut)
    ensures FullChunks(live, size, cuts + [cut])
  {
    var cuts' := cuts + [cut];
    forall i | 0 <= i < |cuts'| ensures cuts'[i] < |live| && Chunk(live, size, Before(cuts', i), cuts'[i]) {
      assert Before(cuts', i) == Before(cuts, i);
      if i < |cuts| { assert Chunk(live, size, Before(cuts, i), cuts[i]); }
    }
  }

  // ---- the split accepts the keys

  ghost predicate DataKey(key: Key) {
    exists g: U64, k :: key == EncodeDataKey(g, k)
  }

  /** Split requests carrying the chosen keys and one peer ID for each peer of the shard. */
  ghost predicate RequestsFor(shard: Shard, splitKeys: seq<Key>, reqs: seq<SplitRequest>) {
    |reqs| == |splitKeys| && forall i {:trigger reqs[i]} :: 0 <= i < |reqs| ==>
      reqs[i].splitKey == splitKeys[i] && |reqs[i].newPeerIDs| == |shard.peers|
  }

  lemma {:induction false} LiveComesFrom(scan: seq<Item>, i: nat) returns (j: nat)
    requires i < |LiveItems(scan)|
    ensures j < |scan| && scan[j] == LiveItems(scan)[i]
  {
    var n := |scan| - 1;
    if i < |LiveItems(scan[..n])| { j := LiveComesFrom(scan[..n], i); } else { j := n; }
  }

  lemma {:induction false} LiveSorted(scan: seq<Item>)
    requires Sorted(scan)
    ensures Sorted(LiveItems(scan))
  {
    if scan == [] {
    } else {
      var n := |scan| - 1;
      LiveSorted(scan[..n]);
      var live := LiveItems(scan[..n]);
      forall i | 0 <= i < |live| ensures Less(live[i].key, scan[n].key) {
        var j := LiveComesFrom(scan[..n], i);
        assert Less(scan[j].key, scan[n].key);
      }
    }
  }

  /** A scanned data key decodes to a key of the shard. */
  lemma ScannedDecodes(shard: Shard, items: seq<Item>, i: nat)
    requires |shard.peers| > 0 && forall x :: x in items ==> DataKey(x.key)
    requires i < |LiveItems(Range(items, EncStartKey(shard), EncEndKey(shard)))|
    ensures var key := LiveItems(Range(items, EncStartKey(shard), EncEndKey(shard)))[i].key;
            && |key| >= DATA_PREFIX_SIZE && key == EncodeDataKey(shard.group, DecodeDataKey(key))
            && Contains(shard, DecodeDataKey(key))
  {
    var scan := Range(items, EncStartKey(shard), EncEndKey(shard));
    var j := LiveComesFrom(scan, i);
    RangeMembers(items, EncStartKey(shard), EncEndKey(shard), scan[j]);
    var key := scan[j].key;
    var g: U64, k :| key == EncodeDataKey(g, k);
    DataKeyRoundTrip(g, k);
    ScannedKeyBelongsToShard(shard, g, k);
  }

  /** Two scanned keys decode to keys in the same order. */
  lemma DecodedOrder(shard: Shard, items: seq<Item>, i: nat, j: nat)
    requires |shard.peers| > 0 && Sorted(items) && forall x :: x in items ==> DataKey(x.key)
    requires i < j < |LiveItems(Range(items, EncStartKey(shard), EncEndKey(shard)))|
    ensures var live := LiveItems(Range(items, EncStartKey(shard), EncEndKey(shard)));
            && |live[i].key| >= DATA_PREFIX_SIZE && |live[j].key| >= DATA_PREFIX_SIZE
            && Less(DecodeDataKey(live[i].key), DecodeDataKey(live[j].key))
  {
    var scan := Range(items, EncStartKey(shard), EncEndKey(shard));
    var live := LiveItems(scan);
    RangeSorted(items, EncStartKey(shard), EncEndKey(shard));
    LiveSorted(scan);
    ScannedDecodes(shard, items, i);
    ScannedDecodes(shard, items, j);
    assert Less(live[i].key, live[j].key);
    DataKeyOrder(shard.group, DecodeDataKey(live[i].key), shard.group, DecodeDataKey(live[j].key));
  }

  /** Whatever the check proposes for an unchanged shard, the split performs. */
  lemma ProposedKeysAreSplittable(shard: Shard, items: seq<Item>, size: nat,
                                  splitKeys: seq<Key>, cuts: seq<nat>, reqs: seq<SplitRequest>)
    requires |shard.peers| > 0 && Sorted(items) && forall x :: x in items ==> DataKey(x.key)
    requires var live := LiveItems(Range(items, EncStartKey(shard), EncEndKey(shard)));
             Chunks(live, size, cuts) && KeysAtCuts(live, splitKeys, cuts) && |cuts| > 0
    requires RequestsFor(shard, splitKeys, reqs)
    ensures Splittable(shard, reqs)
  {
    var live := LiveItems(Range(items, EncStartKey(shard), EncEndKey(shard)));
    forall k | 0 <= k < |reqs| ensures Decodable(shard, reqs[k]) && Contains(shard, DecodeDataKey(reqs[k].splitKey)) {
      assert reqs[k].splitKey == splitKeys[k];
      ScannedDecodes(shard, items, cuts[k]);
    }
    assert AllDecodable(shard, reqs);
    forall i | 0 <= i < |reqs| ensures Less(Boundary(shard, reqs, i), Boundary(shard, reqs, i + 1)) {
      var from := Before(cuts, i);
      assert Chunk(live, size, from, cuts[i]);
      assert reqs[i].splitKey == splitKeys[i];
      DecodedOrder(shard, items, from, cuts[i]);
      ScannedDecodes(shard, items, from);
      if i == 0 {
        LessIsTotalOrder();
      } else {
        assert reqs[i - 1].splitKey == splitKeys[i - 1];
      }
    }
    assert Contains(shard, DecodeDataKey(reqs[|reqs| - 1].splitKey));
  }
}
