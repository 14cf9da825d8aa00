/** The store's routing index (util/btree_shard.go): shards kept in a B-tree by descending start key. */
module ShardIndex {
  import opened Bytes
  import opened Shards
  import opened Options

  // ---- the B-tree, as the sequence of its items in tree order (`Less` puts greater starts first)

  ghost predicate Sorted(items: seq<Shard>) {
    forall i, j :: 0 <= i < j < |items| ==> Less(items[j].start, items[i].start)
  }

  ghost predicate AllWellFormed(items: seq<Shard>) {
    forall i :: 0 <= i < |items| ==> WellFormed(items[i])
  }

  ghost predicate PairwiseDisjoint(items: seq<Shard>) {
    forall i, j :: 0 <= i < j < |items| ==> !Overlap(items[i], items[j])
  }

  ghost predicate ValidItems(items: seq<Shard>) {
    Sorted(items) && AllWellFormed(items) && PairwiseDisjoint(items)
  }

  /** `BTree.Delete`: drops the item whose start equals `start`. */
  function DeleteItem(items: seq<Shard>, start: Key): seq<Shard> {
    if items == [] then []
    else if items[0].start == start then items[1..]
    else [items[0]] + DeleteItem(items[1..], start)
  }

  /** `BTree.ReplaceOrInsert`. */
  function InsertItem(items: seq<Shard>, s: Shard): seq<Shard> {
    if items == [] then [s]
    else if Less(s.start, items[0].start) then [items[0]] + InsertItem(items[1..], s)
    else if items[0].start == s.start then [s] + items[1..]
    else [s] + items
  }

  /** The plain definition of routing: the shard whose range holds the key, or the zero shard. */
  function Lookup(items: seq<Shard>, key: Key): Shard {
    if items == [] then EMPTY_SHARD
    else if Contains(items[0], key) then items[0]
    else Lookup(items[1..], key)
  }

  lemma {:induction false} DeleteItemAt(items: seq<Shard>, k: nat)
    requires k < |items| && Sorted(items)
    ensures DeleteItem(items, items[k].start) == items[..k] + items[k + 1..]
  {
    if k == 0 {
    } else {
      LessIrreflexive(items[k].start);
      assert items[0].start != items[k].start;
      DeleteItemAt(items[1..], k - 1);
      assert items[1..][..k - 1] == items[1..k] && items[1..][k..] == items[k + 1..];
      assert [items[0]] + (items[1..k] + items[k + 1..]) == items[..k] + items[k + 1..];
    }
  }

  /** Insertion goes where the order asks, after the items with greater starts. */
  lemma {:induction false} InsertItemAt(items: seq<Shard>, s: Shard, k: nat)
    requires k <= |items|
    requires forall i :: 0 <= i < k ==> Less(s.start, items[i].start)
    requires k < |items| ==> Less(items[k].start, s.start)
    ensures InsertItem(items, s) == items[..k] + [s] + items[k..]
  {
    if k == 0 {
      LessIsTotalOrder();
      assert items[..0] + [s] + items[0..] == [s] + items;
    } else {
      InsertItemAt(items[1..], s, k - 1);
      assert items[1..][..k - 1] == items[1..k] && items[1..][k - 1..] == items[k..];
      assert [items[0]] + (items[1..k] + [s] + items[k..]) == items[..k] + [s] + items[k..];
    }
  }

  /** In a valid tree a later item ends at or below the start of every earlier one. */
  lemma LaterEndsBelow(items: seq<Shard>, i: nat, j: nat)
    requires ValidItems(items) && i < j < |items|
    ensures |items[j].end| > 0 && AtMost(items[j].end, items[i].start)
  {
    LessIsTotalOrder();
    assert !Overlap(items[i], items[j]);
  }

  lemma {:induction false} LookupFinds(items: seq<Shard>, s: Shard, key: Key)
    requires PairwiseDisjoint(items) && AllWellFormed(items)
    requires s in items && Contains(s, key)
    ensures Lookup(items, key) == s
  {
    if Contains(items[0], key) {
      if s != items[0] {
        var j :| 0 <= j < |items| && items[j] == s;
        OverlapMeansSharedKey(items[0], items[j]);
      }
    } else {
      LookupFinds(items[1..], s, key);
    }
  }

  lemma {:induction false} LookupMisses(items: seq<Shard>, key: Key)
    requires forall s :: s in items ==> !Contains(s, key)
    ensures Lookup(items, key) == EMPTY_SHARD
  {
    if items == [] {
    } else {
      assert items[0] in items;
      LookupMisses(items[1..], key);
    }
  }

  /** `Update` keeps exactly the shards that do not overlap the new one. */
  ghost predicate Updated(before: seq<Shard>, after: seq<Shard>, s: Shard) {
    && ValidItems(after)
    && (forall x :: x in after <==> x == s || (x in before && !Overlap(x, s)))
  }

  /** The same without the claim of a valid tree: a shard whose range holds no key, too, drives out what it
      overlaps, and whatever has its start. */
  ghost predicate Replaced(before: seq<Shard>, after: seq<Shard>, s: Shard) {
    && Sorted(after)
    && (forall x :: x in after <==> x == s || (x in before && !Overlap(x, s) && x.start != s.start))
  }

  /** The items `lo..hi` are the ones that overlap `s`. */
  ghost predicate OverlapRun(before: seq<Shard>, s: Shard, lo: nat, hi: nat) {
    lo <= hi <= |before| && forall i :: 0 <= i < |before| ==> (Overlap(before[i], s) <==> lo <= i < hi)
  }

  /** The items `lo..hi` are the ones that overlap `s`, and `s` sorts between the two remaining parts. */
  ghost predicate SplicePoint(before: seq<Shard>, s: Shard, lo: nat, hi: nat) {
    && lo <= hi <= |before|
    && (forall i :: 0 <= i < lo ==> Less(s.start, before[i].start) && !Overlap(before[i], s))
    && (forall i :: lo <= i < hi ==> Overlap(before[i], s))
    && (forall i :: hi <= i < |before| ==> Less(before[i].start, s.start) && !Overlap(before[i], s))
  }

  lemma SpliceIsUpdate(before: seq<Shard>, s: Shard, lo: nat, hi: nat)
    requires ValidItems(before) && WellFormed(s) && SplicePoint(before, s, lo, hi)
    ensures Updated(before, before[..lo] + [s] + before[hi..], s)
  {
    var after := before[..lo] + [s] + before[hi..];
    forall x ensures x in after <==> x == s || (x in before && !Overlap(x, s)) {
      SpliceMember(before, s, lo, hi, x);
    }
    SpliceIsValid(before, s, lo, hi);
  }

  lemma SpliceMember(before: seq<Shard>, s: Shard, lo: nat, hi: nat, x: Shard)
    requires SplicePoint(before, s, lo, hi)
    ensures x in before[..lo] + [s] + before[hi..] <==> x == s || (x in before && !Overlap(x, s))
  {
    if x in before && !Overlap(x, s) {
      var i :| 0 <= i < |before| && before[i] == x;
      if i < lo { assert before[..lo][i] == x; } else { assert before[hi..][i - hi] == x; }
    }
  }

  lemma SpliceIsValid(before: seq<Shard>, s: Shard, lo: nat, hi: nat)
    requires ValidItems(before) && WellFormed(s) && SplicePoint(before, s, lo, hi)
    ensures ValidItems(before[..lo] + [s] + before[hi..])
  {
    var after := before[..lo] + [s] + before[hi..];
    forall i, j | 0 <= i < j < |after| ensures Less(after[j].start, after[i].start) && !Overlap(after[i], after[j]) {
      var i', j' := if i < lo then i else i - lo - 1 + hi, if j < lo then j else j - lo - 1 + hi;
      if i != lo && j != lo {
        assert after[i] == before[i'] && after[j] == before[j'];
      } else if i == lo {
        assert after[j] == before[j'];
      } else {
        assert after[i] == before[i'];
      }
    }
  }

  lemma InsertSplice(before: seq<Shard>, s: Shard, lo: nat, hi: nat)
    requires SplicePoint(before, s, lo, hi)
    ensures InsertItem(before[..lo] + before[hi..], s) == before[..lo] + [s] + before[hi..]
  {
    var now := before[..lo] + before[hi..];
    assert forall i :: 0 <= i < lo ==> now[i] == before[i];
    if hi < |before| { assert now[lo] == before[hi]; }
    InsertItemAt(now, s, lo);
    assert now[..lo] == before[..lo] && now[lo..] == before[hi..];
  }

  /** Insertion into a sorted list keeps it sorted, and replaces the item with the same start. */
  lemma {:induction false} InsertMembers(items: seq<Shard>, s: Shard)
    requires Sorted(items)
    ensures Sorted(InsertItem(items, s))
    ensures forall x :: x in InsertItem(items, s) <==> x == s || (x in items && x.start != s.start)
  {
    if items == [] {
    } else if Less(s.start, items[0].start) {
      InsertMembers(items[1..], s);
      InsertedBehind(items, s);
    } else {
      InsertedInFront(items, s);
    }
  }

  lemma InsertedBehind(items: seq<Shard>, s: Shard)
    requires Sorted(items) && items != [] && Less(s.start, items[0].start)
    requires Sorted(InsertItem(items[1..], s))
    requires forall x :: x in InsertItem(items[1..], s) <==> x == s || (x in items[1..] && x.start != s.start)
    ensures Sorted(InsertItem(items, s))
    ensures forall x :: x in InsertItem(items, s) <==> x == s || (x in items && x.start != s.start)
  {
    var rest := InsertItem(items[1..], s);
    LessIrreflexive(s.start);
    assert items == [items[0]] + items[1..];
    forall j | 0 <= j < |rest| ensures Less(rest[j].start, items[0].start) {
      if rest[j] != s {
        var k :| 0 <= k < |items[1..]| && items[1..][k] == rest[j];
        assert items[k + 1] == rest[j];
      }
    }
  }

  lemma InsertedInFront(items: seq<Shard>, s: Shard)
    requires Sorted(items) && items != [] && !Less(s.start, items[0].start)
    ensures Sorted(InsertItem(items, s))
    ensures forall x :: x in InsertItem(items, s) <==> x == s || (x in items && x.start != s.start)
  {
    LessTotal(items[0].start, s.start);
    LessIrreflexive(s.start);
    assert items == [items[0]] + items[1..];
    forall k | 0 < k < |items| ensures Less(items[k].start, s.start) {
      if items[0].start != s.start { LessTransitive(items[k].start, items[0].start, s.start); }
    }
  }

  lemma CutIsReplaced(before: seq<Shard>, s: Shard, lo: nat, hi: nat)
    requires Sorted(before) && OverlapRun(before, s, lo, hi)
    ensures Replaced(before, InsertItem(before[..lo] + before[hi..], s), s)
  {
    var rest := before[..lo] + before[hi..];
    CutSorted(before, lo, hi);
    InsertMembers(rest, s);
    forall x ensures x in rest <==> x in before && !Overlap(x, s) {
      if x in before && !Overlap(x, s) {
        var i :| 0 <= i < |before| && before[i] == x;
        assert rest[if i < lo then i else i - hi + lo] == x;
      }
    }
  }

  lemma CutIsOverlap(before: seq<Shard>, s: Shard, lo: nat, hi: nat, cut: seq<Shard>)
    requires OverlapRun(before, s, lo, hi)
    requires |cut| == hi - lo && forall k :: 0 <= k < |cut| ==> cut[k] == before[hi - 1 - k]
    ensures forall x :: x in cut <==> x in before && Overlap(x, s)
  {
    forall x | x in before && Overlap(x, s) ensures x in cut {
      var i :| 0 <= i < |before| && before[i] == x;
      assert cut[hi - 1 - i] == x;
    }
  }

  /** Deleting the items `lo..hi` one by one, last first. */
  lemma DeleteStep(before: seq<Shard>, hi: nat, k: nat)
    requires Sorted(before) && k < hi <= |before|
    ensures DeleteItem(before[..hi - k] + before[hi..], before[hi - 1 - k].start) == before[..hi - k - 1] + before[hi..]
  {
    var now := before[..hi - k] + before[hi..];
    var p := hi - 1 - k;
    CutSorted(before, hi - k, hi);
    DeleteItemAt(now, p);
    assert now[..p] == before[..p] && now[p + 1..] == before[hi..];
  }

  lemma CutSorted(before: seq<Shard>, a: nat, b: nat)
    requires Sorted(before) && a <= b <= |before|
    ensures Sorted(before[..a] + before[b..])
  {
    var now := before[..a] + before[b..];
    assert forall i :: 0 <= i < |now| ==> now[i] == before[if i < a then i else i - a + b];
  }

  class ShardTree {
    var items: seq<Shard>

    ghost predicate Valid()
      reads this
    {
      ValidItems(items)
    }

    constructor ()
      ensures Valid() && items == []
    {
      items := [];
    }

    /** Position of the first item at or after `key` in tree order, if its range holds the key; else -1. */
    method Find(key: Key) returns (k: int)
      requires Valid()
      ensures -1 <= k < |items|
      ensures k >= 0 ==> Contains(items[k], key)
      ensures k == -1 ==> forall i :: 0 <= i < |items| ==> !Contains(items[i], key)
    {
      LessIsTotalOrder();
      k := 0;
      while k < |items| && Less(key, items[k].start)
        invariant 0 <= k <= |items|
        invariant forall i :: 0 <= i < k ==> Less(key, items[i].start)
      {
        k := k + 1;
      }
      if k == |items| || !Contains(items[k], key) {
        ghost var m := k;
        forall i | 0 <= i < |items| ensures !Contains(items[i], key) {
          if m < i { LaterEndsBelow(items, m, i); }
        }
        k := -1;
      }
    }

    /** First position, from the end, whose start is not below `start` (`DescendLessOrEqual`). */
    method PivotPosition(start: Key) returns (hi: nat)
      requires Valid()
      ensures hi <= |items|
      ensures forall i :: 0 <= i < hi ==> AtMost(start, items[i].start)
      ensures forall i :: hi <= i < |items| ==> Less(items[i].start, start)
    {
      LessIsTotalOrder();
      hi := |items|;
      while hi > 0 && Less(items[hi - 1].start, start)
        invariant hi <= |items|
        invariant forall i :: hi <= i < |items| ==> Less(items[i].start, start)
      {
        hi := hi - 1;
      }
      forall i | 0 <= i < hi ensures AtMost(start, items[i].start) {
        if i < hi - 1 { assert Less(items[hi - 1].start, items[i].start); }
      }
    }

    /** Walks up from the pivot until an item starts at or above the shard's end. */
    method CollectOverlaps(shard: Shard) returns (overlaps: seq<Shard>, ghost lo: nat, ghost hi: nat)
      requires Valid()
      ensures OverlapRun(items, shard, lo, hi) && (WellFormed(shard) ==> SplicePoint(items, shard, lo, hi))
      ensures |overlaps| == hi - lo && forall k :: 0 <= k < |overlaps| ==> overlaps[k] == items[hi - 1 - k]
      ensures forall x :: x in overlaps <==> x in items && Overlap(x, shard)
    {
      var result := Find(shard.start);
      var pivot := if result >= 0 then items[result].start else shard.start;
      var i := PivotPosition(pivot);
      hi := i;
      overlaps := [];
      while i > 0 && !(|shard.end| > 0 && AtMost(shard.end, items[i - 1].start))
        invariant 0 <= i <= hi
        invariant |overlaps| == hi - i
        invariant forall k :: 0 <= k < |overlaps| ==> overlaps[k] == items[hi - 1 - k]
        invariant forall k :: i <= k < hi ==> BelowEnd(items[k].start, shard.end)
      {
        overlaps := overlaps + [items[i - 1]];
        i := i - 1;
      }
      lo := i;
      BelowPivotIsDisjoint(items, shard, result, pivot, hi);
      AbovePivotIsSplitByEnd(items, shard, result, pivot, lo, hi);
      CutIsOverlap(items, shard, lo, hi, overlaps);
    }

    /** Deletes the collected items one by one. */
    method DeleteAll(overlaps: seq<Shard>, ghost lo: nat, ghost hi: nat)
      requires Valid() && lo <= hi <= |items|
      requires |overlaps| == hi - lo && forall k :: 0 <= k < |overlaps| ==> overlaps[k] == items[hi - 1 - k]
      modifies this
      ensures items == old(items)[..lo] + old(items)[hi..]
    {
      ghost var before := items;
      assert before[..hi] + before[hi..] == before;
      for k := 0 to |overlaps|
        invariant items == before[..hi - k] + before[hi..]
      {
        DeleteStep(before, hi, k);
        items := DeleteItem(items, overlaps[k].start);
      }
    }

    method Update(shard: Shard)
      requires Valid()
      modifies this
      ensures Replaced(old(items), items, shard)
      ensures WellFormed(shard) ==> Updated(old(items), items, shard)
    {
      ghost var before := items;
      var overlaps, lo, hi := CollectOverlaps(shard);
      DeleteAll(overlaps, lo, hi);
      CutIsReplaced(before, shard, lo, hi);
      if WellFormed(shard) {
        InsertSplice(before, shard, lo, hi);
        SpliceIsUpdate(before, shard, lo, hi);
      }
      items := InsertItem(items, shard);
    }

    method Remove(shard: Shard) returns (removed: bool)
      requires Valid()
      modifies this
      ensures Valid()
      ensures removed == (Lookup(old(items), shard.start) in old(items)
                          && Contains(Lookup(old(items), shard.start), shard.start)
                          && Lookup(old(items), shard.start).id == shard.id)
      ensures !removed ==> items == old(items)
      ensures removed ==> forall x :: x in items <==> x in old(items) && x != Lookup(old(items), shard.start)
    {
      var k := Find(shard.start);
      if k < 0 {
        LookupMisses(items, shard.start);
        return false;
      }
      LookupFinds(items, items[k], shard.start);
      if items[k].id != shard.id { return false; }
      DeleteItemAt(items, k);
      RemovedMembers(items, k);
      items := DeleteItem(items, items[k].start);
      removed := true;
    }

    /** The zero shard when nothing contains the key. */
    method Search(key: Key) returns (s: Shard)
      requires Valid()
      ensures s == Lookup(items, key)
    {
      var k := Find(key);
      if k < 0 {
        LookupMisses(items, key);
        s := EMPTY_SHARD;
      } else {
        LookupFinds(items, items[k], key);
        s := items[k];
      }
    }

    /** The shard with the least start above `start`. */
    method NextShard(start: Key) returns (r: Option<Shard>)
      requires Valid()
      ensures r.None? ==> forall s :: s in items ==> AtMost(s.start, start)
      ensures r.Some? ==> r.value in items && Less(start, r.value.start)
      ensures r.Some? ==> forall s :: s in items && Less(start, s.start) ==> AtMost(r.value.start, s.start)
    {
      LessIsTotalOrder();
      var i := PivotPosition(start);
      while i > 0 && !Less(start, items[i - 1].start)
        invariant 0 <= i <= |items|
        invariant forall j :: i <= j < |items| ==> AtMost(items[j].start, start)
      {
        i := i - 1;
      }
      r := if i > 0 then Some(items[i - 1]) else None;
    }

    /** Visits the shards with `start <= s.start < end` in ascending order until `fn` says stop. */
    method AscendRange(start: Key, end: Key, fn: Shard -> bool) returns (visited: seq<Shard>)
      requires Valid()
      ensures forall i, j :: 0 <= i < j < |visited| ==> Less(visited[i].start, visited[j].start)
      ensures forall i :: 0 <= i < |visited| - 1 ==> fn(visited[i])
      ensures forall s :: s in visited ==> s in items && AtMost(start, s.start) && Less(s.start, end)
      ensures (visited == [] || fn(visited[|visited| - 1])) ==>
                forall s :: s in items && AtMost(start, s.start) && Less(s.start, end) ==> s in visited
      ensures forall s, v :: s in items && AtMost(start, s.start) && v in visited && Less(s.start, v.start) ==> s in visited
    {
      visited := [];
      var hi := PivotPosition(start);
      var i := hi;
      while i > 0 && Less(items[i - 1].start, end)
        invariant 0 <= i <= hi <= |items| && Walked(items, hi, i, visited)
        invariant forall k :: 0 <= k < |visited| ==> fn(visited[k]) && Less(visited[k].start, end)
      {
        visited := visited + [items[i - 1]];
        i := i - 1;
        if !fn(items[i]) { break; }
      }
      WalkAscends(items, hi, i, visited);
      if i > 0 && !Less(items[i - 1].start, end) { AboveTheEnd(items, i, end); }
    }
  }

  /** The items from `hi` down to `i`, in that order. */
  ghost predicate Walked(items: seq<Shard>, hi: nat, i: nat, visited: seq<Shard>)
    requires i <= hi <= |items|
  {
    |visited| == hi - i && forall k :: 0 <= k < |visited| ==> visited[k] == items[hi - 1 - k]
  }

  lemma WalkAscends(items: seq<Shard>, hi: nat, i: nat, visited: seq<Shard>)
    requires Sorted(items) && i <= hi <= |items| && Walked(items, hi, i, visited)
    ensures forall a, b :: 0 <= a < b < |visited| ==> Less(visited[a].start, visited[b].start)
    ensures forall j :: i <= j < hi ==> items[j] in visited
    ensures forall s :: s in visited ==> s in items
    ensures forall j, v :: 0 <= j < i && v in visited ==> !Less(items[j].start, v.start)
  {
    forall j | i <= j < hi ensures items[j] in visited { assert visited[hi - 1 - j] == items[j]; }
    forall j, v | 0 <= j < i && v in visited ensures !Less(items[j].start, v.start) {
      var k :| 0 <= k < |visited| && visited[k] == v;
      LessAsymmetric(v.start, items[j].start);
    }
  }

  lemma LessAsymmetric(a: Key, b: Key)
    requires Less(a, b)
    ensures !Less(b, a)
  {
    LessIsTotalOrder();
  }

  lemma AboveTheEnd(items: seq<Shard>, i: nat, end: Key)
    requires Sorted(items) && 0 < i <= |items| && !Less(items[i - 1].start, end)
    ensures forall j :: 0 <= j < i ==> !Less(items[j].start, end)
  {
    forall j | 0 <= j < i ensures !Less(items[j].start, end) {
      if j < i - 1 && Less(items[j].start, end) { LessTransitive(items[i - 1].start, items[j].start, end); }
    }
  }

  lemma RemovedAt(items: seq<Shard>, k: nat, i: nat)
    requires k < |items| && i < |items| - 1
    ensures (items[..k] + items[k + 1..])[i] == items[if i < k then i else i + 1]
  {
  }

  lemma RemovedMembers(items: seq<Shard>, k: nat)
    requires ValidItems(items) && k < |items|
    ensures var rest := items[..k] + items[k + 1..];
            ValidItems(rest) && forall x :: x in rest <==> x in items && x != items[k]
  {
    var rest := items[..k] + items[k + 1..];
    LessIrreflexive(items[k].start);
    forall i | 0 <= i < |rest| ensures rest[i] == items[if i < k then i else i + 1] { RemovedAt(items, k, i); }
    forall x ensures x in rest <==> x in items && x != items[k] {
      if x in items && x != items[k] {
        var i :| 0 <= i < |items| && items[i] == x;
        assert rest[if i < k then i else i - 1] == x;
      }
    }
  }

  /** Items below the pivot end at or below the new shard's start. */
  lemma BelowPivotIsDisjoint(items: seq<Shard>, s: Shard, result: int, pivot: Key, hi: nat)
    requires ValidItems(items) && -1 <= result < |items| && hi <= |items|
    requires result >= 0 ==> Contains(items[result], s.start) && pivot == items[result].start
    requires result == -1 ==> pivot == s.start && forall i :: 0 <= i < |items| ==> !Contains(items[i], s.start)
    requires forall i :: hi <= i < |items| ==> Less(items[i].start, pivot)
    ensures forall i :: hi <= i < |items| ==> Less(items[i].start, s.start) && !Overlap(items[i], s)
  {
    LessIsTotalOrder();
    forall i | hi <= i < |items| ensures Less(items[i].start, s.start) && !Overlap(items[i], s) {
      if result >= 0 {
        LaterEndsBelow(items, result, i);
      } else {
        assert !Contains(items[i], s.start);
      }
    }
  }

  /** From the pivot up, the items that start below the new shard's end are those that overlap it. */
  lemma AbovePivotIsSplitByEnd(items: seq<Shard>, s: Shard, result: int, pivot: Key, lo: nat, hi: nat)
    requires ValidItems(items) && -1 <= result < |items| && lo <= hi <= |items|
    requires result >= 0 ==> Contains(items[result], s.start) && pivot == items[result].start
    requires result == -1 ==> pivot == s.start
    requires forall i :: 0 <= i < hi ==> AtMost(pivot, items[i].start)
    requires forall i :: lo <= i < hi ==> BelowEnd(items[i].start, s.end)
    requires lo > 0 ==> |s.end| > 0 && AtMost(s.end, items[lo - 1].start)
    ensures forall i :: 0 <= i < lo ==> (WellFormed(s) ==> Less(s.start, items[i].start)) && !Overlap(items[i], s)
    ensures forall i :: lo <= i < hi ==> Overlap(items[i], s)
  {
    LessIsTotalOrder();
    forall i | lo <= i < hi ensures Overlap(items[i], s) {
      if result >= 0 && i < result { LaterEndsBelow(items, i, result); }
    }
    forall i | 0 <= i < lo ensures (WellFormed(s) ==> Less(s.start, items[i].start)) && !Overlap(items[i], s) {
      if i < lo - 1 { assert Less(items[lo - 1].start, items[i].start); }
    }
  }
}
