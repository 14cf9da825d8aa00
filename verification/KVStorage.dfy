/** The in-memory storage: an ordered tree of raw pairs (util/kv_btree.go), the size-based choice of split
    keys and the snapshot file (storage/mem/storage.go). */
module KVStorage {
  import opened Bytes
  import opened Keys

  datatype Item = Item(key: Key, value: Key)

  // ---- the tree, as the sequence of its items in key order

  ghost predicate Sorted(items: seq<Item>) {
    forall i, j :: 0 <= i < j < |items| ==> Less(items[i].key, items[j].key)
  }

  /** The map the items stand for. */
  ghost function Content(items: seq<Item>): map<Key, Key> {
    if items == [] then map[] else Content(items[..|items| - 1])[items[|items| - 1].key := items[|items| - 1].value]
  }

  lemma {:induction false} ContentAt(items: seq<Item>, i: nat)
    requires Sorted(items) && i < |items|
    ensures items[i].key in Content(items) && Content(items)[items[i].key] == items[i].value
  {
    var n := |items| - 1;
    if i == n {
    } else {
      ContentAt(items[..n], i);
      LessIrreflexive(items[n].key);
      assert Less(items[i].key, items[n].key);
    }
  }

  lemma {:induction false} ContentFrom(items: seq<Item>, key: Key) returns (i: nat)
    requires key in Content(items)
    ensures i < |items| && items[i].key == key
  {
    var n := |items| - 1;
    if items[n].key == key {
      i := n;
    } else {
      i := ContentFrom(items[..n], key);
    }
  }

  lemma {:induction false} ContentConcat(a: seq<Item>, b: seq<Item>)
    ensures Content(a + b) == Content(a) + Content(b)
  {
    if b == [] {
      assert a + b == a;
    } else {
      var n := |b| - 1;
      assert (a + b)[..|a| + n] == a + b[..n];
      ContentConcat(a, b[..n]);
    }
  }

  /** What holds of every key of the items holds of every key of the map. */
  lemma ContentKeys(items: seq<Item>, p: Key -> bool)
    requires forall i :: 0 <= i < |items| ==> p(items[i].key)
    ensures forall key :: key in Content(items) ==> p(key)
  {
    forall key | key in Content(items) ensures p(key) {
      var i := ContentFrom(items, key);
    }
  }

  /** The pairs with `start <= key < end`. */
  function Range(items: seq<Item>, start: Key, end: Key): seq<Item> {
    if items == [] then []
    else Range(items[..|items| - 1], start, end) +
         if InRange(items[|items| - 1].key, start, end) then [items[|items| - 1]] else []
  }

  lemma {:induction false} RangeMembers(items: seq<Item>, start: Key, end: Key, x: Item)
    ensures x in Range(items, start, end) <==> x in items && InRange(x.key, start, end)
  {
    if items == [] {
    } else {
      var n := |items| - 1;
      RangeMembers(items[..n], start, end, x);
      assert items == items[..n] + [items[n]];
    }
  }

  lemma {:induction false} RangeSorted(items: seq<Item>, start: Key, end: Key)
    requires Sorted(items)
    ensures Sorted(Range(items, start, end))
  {
    if items == [] {
    } else {
      var n := |items| - 1;
      var r := Range(items[..n], start, end);
      RangeSorted(items[..n], start, end);
      forall i | 0 <= i < |r| ensures Less(r[i].key, items[n].key) {
        RangeMembers(items[..n], start, end, r[i]);
        var j :| 0 <= j < n && items[..n][j] == r[i];
        assert Less(items[j].key, items[n].key);
      }
    }
  }

  datatype Verdict = Continue | Stop | Fail

  class KVTree {
    var items: seq<Item>

    ghost predicate Valid()
      reads this
    {
      Sorted(items)
    }

    constructor ()
      ensures Valid() && Content(items) == map[]
    {
      items := [];
    }

    /** First position whose key is not below `key` (`AscendGreaterOrEqual`). */
    method Position(key: Key) returns (p: nat)
      requires Valid()
      ensures p <= |items|
      ensures forall i :: 0 <= i < p ==> Less(items[i].key, key)
      ensures forall i :: p <= i < |items| ==> AtMost(key, items[i].key)
    {
      p := 0;
      while p < |items| && Less(items[p].key, key)
        invariant 0 <= p <= |items|
        invariant forall i :: 0 <= i < p ==> Less(items[i].key, key)
      {
        p := p + 1;
      }
      SortedFrom(items, p, key);
    }

    method Put(key: Key, value: Key)
      requires Valid()
      modifies this
      ensures Valid() && Content(items) == old(Content(items))[key := value]
    {
      var p := Position(key);
      LessIsTotalOrder();
      var q := if p < |items| && items[p].key == key then p + 1 else p;
      PutItem(items, p, q, key, value);
      items := items[..p] + [Item(key, value)] + items[q..];
    }

    method Delete(key: Key) returns (ok: bool)
      requires Valid()
      modifies this
      ensures Valid() && Content(items) == old(Content(items)) - {key}
      ensures ok <==> key in old(Content(items))
    {
      var p := Position(key);
      ok := p < |items| && items[p].key == key;
      KeyAtPosition(items, p, key);
      if ok {
        RemoveAt(items, p);
        items := items[..p] + items[p + 1..];
      }
    }

    method Get(key: Key) returns (found: bool, value: Key)
      requires Valid()
      ensures found <==> key in Content(items)
      ensures found ==> value == Content(items)[key]
    {
      var p := Position(key);
      found := p < |items| && items[p].key == key;
      KeyAtPosition(items, p, key);
      if found {
        ContentAt(items, p);
        value := items[p].value;
      } else {
        value := [];
      }
    }

    /** Hands the pairs of `[start, end)` to the handler, in key order, until it stops or fails. */
    method Scan(start: Key, end: Key, handler: Item -> Verdict) returns (seen: seq<Item>, failed: bool)
      requires Valid()
      ensures seen <= Range(items, start, end)
      ensures forall i :: 0 <= i < |seen| - 1 ==> handler(seen[i]) == Continue
      ensures seen == Range(items, start, end) || (seen != [] && handler(seen[|seen| - 1]) != Continue)
      ensures failed <==> seen != [] && handler(seen[|seen| - 1]) == Fail
    {
      var targets := Collect(start, end);
      seen, failed := [], false;
      for i := 0 to |targets|
        invariant seen == targets[..i] && !failed
        invariant forall k :: 0 <= k < i ==> handler(seen[k]) == Continue
      {
        seen := seen + [targets[i]];
        failed := handler(targets[i]) == Fail;
        if handler(targets[i]) != Continue { return; }
      }
    }

    /** The first half of a scan: the walk stops at the first key at or above `end`. */
    method Collect(start: Key, end: Key) returns (s: seq<Item>)
      requires Valid()
      ensures s == Range(items, start, end)
    {
      var p := Position(start);
      var i := p;
      s := [];
      RangeBelow(items, start, end, p);
      while i < |items| && Less(items[i].key, end)
        invariant p <= i <= |items|
        invariant s == Range(items[..i], start, end)
      {
        RangeStep(items, start, end, i);
        s := s + [items[i]];
        i := i + 1;
      }
      if i < |items| {
        SortedFrom(items, i, end);
        RangeAbove(items, start, end, i);
      } else {
        assert items[..i] == items;
      }
    }

    method RangeDelete(start: Key, end: Key)
      requires Valid()
      modifies this
      ensures Valid()
      ensures Content(items) == map k | k in old(Content(items)) && !InRange(k, start, end) :: old(Content(items))[k]
    {
      var p := Position(start);
      var q := p;
      while q < |items| && Less(items[q].key, end)
        invariant p <= q <= |items|
        invariant forall i :: p <= i < q ==> InRange(items[i].key, start, end)
      {
        q := q + 1;
      }
      if q < |items| { SortedFrom(items, q, end); }
      RemoveSlice(items, p, q, k => InRange(k, start, end));
      items := items[..p] + items[q..];
    }
  }

  lemma SortedFrom(items: seq<Item>, p: nat, key: Key)
    requires Sorted(items) && p <= |items| && (p < |items| ==> AtMost(key, items[p].key))
    ensures forall i :: p <= i < |items| ==> AtMost(key, items[i].key)
  {
    LessIsTotalOrder();
    forall i | p < i < |items| ensures AtMost(key, items[i].key) {
      assert Less(items[p].key, items[i].key);
    }
  }

  lemma KeyAtPosition(items: seq<Item>, p: nat, key: Key)
    requires Sorted(items) && p <= |items|
    requires forall i :: 0 <= i < p ==> Less(items[i].key, key)
    requires forall i :: p <= i < |items| ==> AtMost(key, items[i].key)
    ensures key in Content(items) <==> p < |items| && items[p].key == key
  {
    LessIrreflexive(key);
    if p < |items| && items[p].key == key { ContentAt(items, p); }
    if key in Content(items) {
      var i := ContentFrom(items, key);
    }
  }

  lemma PutItem(items: seq<Item>, p: nat, q: nat, key: Key, value: Key)
    requires Sorted(items) && p <= q <= p + 1 && q <= |items|
    requires forall i :: 0 <= i < p ==> Less(items[i].key, key)
    requires forall i :: q <= i < |items| ==> Less(key, items[i].key)
    requires p < q ==> items[p].key == key
    ensures Sorted(items[..p] + [Item(key, value)] + items[q..])
    ensures Content(items[..p] + [Item(key, value)] + items[q..]) == Content(items)[key := value]
  {
    PutSorted(items, p, q, key, value);
    var x, a, mid, b := Item(key, value), items[..p], items[p..q], items[q..];
    ContentThree(items, p, q);
    ContentConcat(a + [x], b);
    assert (a + [x])[..|a|] == a;
    LessIrreflexive(key);
    ContentKeys(b, k => k != key);
    ContentKeys(mid, k => k == key);
    PutMaps(Content(a), Content(mid), Content(b), key, value);
  }

  lemma ContentThree(items: seq<Item>, p: nat, q: nat)
    requires p <= q <= |items|
    ensures Content(items) == Content(items[..p]) + Content(items[p..q]) + Content(items[q..])
  {
    assert items == items[..p] + items[p..q] + items[q..];
    ContentConcat(items[..p] + items[p..q], items[q..]);
    ContentConcat(items[..p], items[p..q]);
  }

  lemma PutMaps(a: map<Key, Key>, mid: map<Key, Key>, b: map<Key, Key>, key: Key, value: Key)
    requires key !in b && forall k :: k in mid ==> k == key
    ensures a[key := value] + b == (a + mid + b)[key := value]
  {
  }

  lemma CutMaps(a: map<Key, Key>, mid: map<Key, Key>, b: map<Key, Key>, gone: Key -> bool)
    requires (forall k :: k in a ==> !gone(k)) && (forall k :: k in b ==> !gone(k)) && (forall k :: k in mid ==> gone(k))
    ensures a + b == map k | k in a + mid + b && !gone(k) :: (a + mid + b)[k]
  {
  }

  lemma PutSorted(items: seq<Item>, p: nat, q: nat, key: Key, value: Key)
    requires Sorted(items) && p <= q <= |items|
    requires forall i :: 0 <= i < p ==> Less(items[i].key, key)
    requires forall i :: q <= i < |items| ==> Less(key, items[i].key)
    ensures Sorted(items[..p] + [Item(key, value)] + items[q..])
  {
    var after := items[..p] + [Item(key, value)] + items[q..];
    forall i, j | 0 <= i < j < |after| ensures Less(after[i].key, after[j].key) {
      var i', j' := if i < p then i else i - p - 1 + q, if j < p then j else j - p - 1 + q;
      if i != p { assert after[i] == items[i']; }
      if j != p { assert after[j] == items[j']; }
    }
  }

  /** Cutting out the items `p..q`, those whose keys satisfy `gone`, leaves the map without such keys. */
  lemma RemoveSlice(items: seq<Item>, p: nat, q: nat, gone: Key -> bool)
    requires Sorted(items) && p <= q <= |items|
    requires forall i :: 0 <= i < |items| ==> (gone(items[i].key) <==> p <= i < q)
    ensures Sorted(items[..p] + items[q..])
    ensures Content(items[..p] + items[q..]) == map k | k in Content(items) && !gone(k) :: Content(items)[k]
  {
    var a, mid, b := items[..p], items[p..q], items[q..];
    RemoveSorted(items, p, q);
    ContentThree(items, p, q);
    ContentConcat(a, b);
    SliceKeys(items, p, q, gone);
    CutMaps(Content(a), Content(mid), Content(b), gone);
  }

  lemma SliceKeys(items: seq<Item>, p: nat, q: nat, gone: Key -> bool)
    requires p <= q <= |items|
    requires forall i :: 0 <= i < |items| ==> (gone(items[i].key) <==> p <= i < q)
    ensures forall k :: k in Content(items[..p]) ==> !gone(k)
    ensures forall k :: k in Content(items[p..q]) ==> gone(k)
    ensures forall k :: k in Content(items[q..]) ==> !gone(k)
  {
    ContentKeys(items[..p], k => !gone(k));
    ContentKeys(items[p..q], gone);
    ContentKeys(items[q..], k => !gone(k));
  }

  lemma DropKey(m: map<Key, Key>, key: Key, gone: Key -> bool)
    requires forall k :: gone(k) <==> k == key
    ensures m - {key} == map k | k in m && !gone(k) :: m[k]
  {
  }

  lemma RemoveAt(items: seq<Item>, p: nat)
    requires Sorted(items) && p < |items|
    ensures Sorted(items[..p] + items[p + 1..])
    ensures Content(items[..p] + items[p + 1..]) == Content(items) - {items[p].key}
  {
    var key := items[p].key;
    var gone := (k: Key) => k == key;
    LessIrreflexive(key);
    RemoveSlice(items, p, p + 1, gone);
    DropKey(Content(items), key, gone);
  }

  lemma RemoveSorted(items: seq<Item>, p: nat, q: nat)
    requires Sorted(items) && p <= q <= |items|
    ensures Sorted(items[..p] + items[q..])
  {
    var after := items[..p] + items[q..];
    assert forall i :: 0 <= i < |after| ==> after[i] == items[if i < p then i else i - p + q];
  }

  lemma RangeStep(items: seq<Item>, start: Key, end: Key, i: nat)
    requires i < |items|
    ensures Range(items[..i + 1], start, end) ==
              Range(items[..i], start, end) + if InRange(items[i].key, start, end) then [items[i]] else []
  {
    assert items[..i + 1][..i] == items[..i];
  }

  lemma {:induction false} RangeBelow(items: seq<Item>, start: Key, end: Key, p: nat)
    requires p <= |items| && forall i :: 0 <= i < p ==> Less(items[i].key, start)
    ensures Range(items[..p], start, end) == []
  {
    if p == 0 {
    } else {
      assert items[..p][..p - 1] == items[..p - 1];
      RangeBelow(items, start, end, p - 1);
    }
  }

  lemma {:induction false} RangeAbove(items: seq<Item>, start: Key, end: Key, p: nat)
    requires p <= |items| && forall i :: p <= i < |items| ==> AtMost(end, items[i].key)
    ensures Range(items, start, end) == Range(items[..p], start, end)
    decreases |items|
  {
    if p < |items| {
      var n := |items| - 1;
      RangeAbove(items[..n], start, end, p);
      assert items[..n][..p] == items[..p];
    } else {
      assert items[..p] == items;
    }
  }
}
