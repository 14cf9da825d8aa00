/** The length-prefixed snapshot file of the in-memory storage (storage/mem/storage.go). */
module Snapshots {
  import opened Bytes
  import opened Keys
  import opened KVStorage
  import opened Options

  type File = seq<Byte>

  // ---- format

  /** `writeBytes`: the length modulo 2^32 in four bytes, then the data. */
  function Field(data: Key): File {
    BigEndian(|data| % 0x1_0000_0000, 4) + data
  }

  function PairFields(items: seq<Item>): File {
    if items == [] then [] else Field(items[0].key) + Field(items[0].value) + PairFields(items[1..])
  }

  function SnapshotFile(items: seq<Item>, start: Key, end: Key): File {
    Field(start) + Field(end) + PairFields(Range(items, start, end))
  }

  datatype ReadOutcome = Data(bytes: Key, rest: File) | Hang

  function Zeros(n: nat): (s: Key)
    ensures |s| == n
  {
    if n == 0 then [] else [0] + Zeros(n - 1)
  }

  /** `readBytes` on the rest of the file: nothing at its end, otherwise as many bytes as announced. A size cut
      short is completed by zeros, and data cut short is waited for without end. */
  function ReadField(f: File): ReadOutcome {
    if f == [] then Data([], f)
    else
      var got := if |f| < 4 then |f| else 4;
      var total := FromBigEndian(f[..got] + Zeros(4 - got));
      if total <= |f| - got then Data(f[got..got + total], f[got + total..]) else Hang
  }

  datatype ApplyOutcome = Applied | MissingStart | MissingEnd | MissingValue | Hung

  /** What `ApplySnapshot` makes of a file: the range it deletes, if it gets that far, and the pairs it puts. */
  datatype Parsed = Parsed(outcome: ApplyOutcome, range: Option<(Key, Key)>, pairs: seq<Item>)

  function ParsePairs(f: File): (r: (ApplyOutcome, seq<Item>))
    decreases |f|
  {
    match ReadField(f)
    case Hang => (Hung, [])
    case Data(key, rest) =>
      if key == [] then (Applied, [])
      else
        match ReadField(rest)
        case Hang => (Hung, [])
        case Data(value, rest') =>
          if value == [] then (MissingValue, [])
          else
            var (o, pairs) := ParsePairs(rest');
            (o, [Item(key, value)] + pairs)
  }

  function Parse(f: File): Parsed {
    match ReadField(f)
    case Hang => Parsed(Hung, None, [])
    case Data(start, rest) =>
      if start == [] then Parsed(MissingStart, None, [])
      else
        match ReadField(rest)
        case Hang => Parsed(Hung, None, [])
        case Data(end, rest') =>
          if end == [] then Parsed(MissingEnd, None, [])
          else
            var (o, pairs) := ParsePairs(rest');
            Parsed(o, Some((start, end)), pairs)
  }

  ghost function Cut(m: map<Key, Key>, start: Key, end: Key): map<Key, Key> {
    map k | k in m && !InRange(k, start, end) :: m[k]
  }

  ghost function PutPairs(m: map<Key, Key>, pairs: seq<Item>): map<Key, Key>
    decreases pairs
  {
    if pairs == [] then m else PutPairs(m[pairs[0].key := pairs[0].value], pairs[1..])
  }

  /** The effect of a parsed file on the stored map. */
  ghost function Install(m: map<Key, Key>, p: Parsed): map<Key, Key> {
    if p.range.None? then m else PutPairs(Cut(m, p.range.value.0, p.range.value.1), p.pairs)
  }

  // ---- the code

  method CreateSnapshot(tree: KVTree, start: Key, end: Key) returns (f: File)
    requires tree.Valid()
    ensures f == SnapshotFile(tree.items, start, end)
  {
    f := Field(start) + Field(end);
    var s := tree.Collect(start, end);
    ghost var head := f;
    assert s[0..] == s;
    for n := 0 to |s|
      invariant f + PairFields(s[n..]) == head + PairFields(s)
    {
      assert s[n..][1..] == s[n + 1..];
      assert f + PairFields(s[n..]) == f + Field(s[n].key) + Field(s[n].value) + PairFields(s[n + 1..]);
      f := f + Field(s[n].key);
      f := f + Field(s[n].value);
    }
  }

  method ApplySnapshot(tree: KVTree, file: File) returns (o: ApplyOutcome)
    requires tree.Valid()
    modifies tree
    ensures tree.Valid() && o == Parse(file).outcome
    ensures Content(tree.items) == Install(old(Content(tree.items)), Parse(file))
  {
    var first := ReadField(file);
    if first.Hang? { return Hung; }
    if |first.bytes| == 0 { return MissingStart; }
    var second := ReadField(first.rest);
    if second.Hang? { return Hung; }
    if |second.bytes| == 0 { return MissingEnd; }
    ghost var before := Content(tree.items);
    tree.RangeDelete(first.bytes, second.bytes);
    assert Content(tree.items) == Cut(before, first.bytes, second.bytes);
    o := PutAll(tree, second.rest);
  }

  /** The loop of `ApplySnapshot`. */
  method PutAll(tree: KVTree, file: File) returns (o: ApplyOutcome)
    requires tree.Valid()
    modifies tree
    ensures tree.Valid() && o == ParsePairs(file).0
    ensures Content(tree.items) == PutPairs(old(Content(tree.items)), ParsePairs(file).1)
  {
    ghost var before := Content(tree.items);
    var f := file;
    while true
      invariant tree.Valid()
      invariant ParsePairs(f).0 == ParsePairs(file).0
      invariant PutPairs(Content(tree.items), ParsePairs(f).1) == PutPairs(before, ParsePairs(file).1)
      decreases |f|
    {
      var k := ReadField(f);
      if k.Hang? { return Hung; }
      if |k.bytes| == 0 { return Applied; }
      var v := ReadField(k.rest);
      if v.Hang? { return Hung; }
      if |v.bytes| == 0 { return MissingValue; }
      assert ParsePairs(f).1 == [Item(k.bytes, v.bytes)] + ParsePairs(v.rest).1;
      tree.Put(k.bytes, v.bytes);
      f := v.rest;
    }
  }

  // ---- the reader inverts the writer

  lemma ReadFieldInvertsField(data: Key, rest: File)
    requires |data| < 0x1_0000_0000
    ensures ReadField(Field(data) + rest) == Data(data, rest)
  {
    var f := Field(data) + rest;
    FourBytesHoldU32();
    BigEndianRoundTrip(|data|, 4);
    assert f[..4] + Zeros(0) == BigEndian(|data|, 4);
    assert f[4..4 + |data|] == data && f[4 + |data|..] == rest;
  }

  ghost predicate Writable(items: seq<Item>) {
    forall i :: 0 <= i < |items| ==>
      0 < |items[i].key| < 0x1_0000_0000 && 0 < |items[i].value| < 0x1_0000_0000
  }

  lemma {:induction false} ParseInvertsPairs(items: seq<Item>)
    requires Writable(items)
    ensures ParsePairs(PairFields(items)) == (Applied, items)
  {
    if items == [] {
    } else {
      var x, tail := items[0], PairFields(items[1..]);
      assert PairFields(items) == Field(x.key) + (Field(x.value) + tail);
      ReadFieldInvertsField(x.key, Field(x.value) + tail);
      ReadFieldInvertsField(x.value, tail);
      ParseInvertsPairs(items[1..]);
      assert [Item(x.key, x.value)] + items[1..] == items;
    }
  }

  lemma ParseInvertsFile(items: seq<Item>, start: Key, end: Key)
    requires |start| < 0x1_0000_0000 && |end| < 0x1_0000_0000
    requires start != [] ==> Writable(Range(items, start, end))
    ensures Parse(SnapshotFile(items, start, end)) ==
              if start == [] then Parsed(MissingStart, None, [])
              else if end == [] then Parsed(MissingEnd, None, [])
              else Parsed(Applied, Some((start, end)), Range(items, start, end))
  {
    var tail := PairFields(Range(items, start, end));
    assert SnapshotFile(items, start, end) == Field(start) + (Field(end) + tail);
    ReadFieldInvertsField(start, Field(end) + tail);
    ReadFieldInvertsField(end, tail);
    if start != [] { ParseInvertsPairs(Range(items, start, end)); }
  }

  // ---- the target becomes the source on the range

  lemma {:induction false} PutPairsIsUnion(m: map<Key, Key>, pairs: seq<Item>)
    ensures PutPairs(m, pairs) == m + Content(pairs)
    decreases pairs
  {
    if pairs == [] {
    } else {
      var x, rest := pairs[0], pairs[1..];
      PutPairsIsUnion(m[x.key := x.value], rest);
      assert [x] + rest == pairs;
      ContentConcat([x], rest);
      assert [x][..0] == [] && Content([x]) == map[x.key := x.value];
      UpdateThenUnion(m, x.key, x.value, Content(rest));
    }
  }

  lemma UpdateThenUnion(m: map<Key, Key>, key: Key, value: Key, c: map<Key, Key>)
    ensures m[key := value] + c == m + (map[key := value] + c)
  {
  }

  /** The map of a scanned range is the map restricted to the range. */
  lemma {:induction false} RangeContent(items: seq<Item>, start: Key, end: Key)
    ensures Content(Range(items, start, end)) == map k | k in Content(items) && InRange(k, start, end) :: Content(items)[k]
  {
    if items == [] {
    } else {
      var n := |items| - 1;
      RangeContent(items[..n], start, end);
      if InRange(items[n].key, start, end) {
        ContentConcat(Range(items[..n], start, end), [items[n]]);
        assert [items[n]][..0] == [] && Content([items[n]]) == map[items[n].key := items[n].value];
      } else {
        assert Range(items, start, end) == Range(items[..n], start, end);
      }
    }
  }

  lemma ScannedIsWritable(items: seq<Item>, start: Key, end: Key)
    requires start != []
    requires forall x :: x in items ==> |x.key| < 0x1_0000_0000 && 0 < |x.value| < 0x1_0000_0000
    ensures Writable(Range(items, start, end))
  {
    var r := Range(items, start, end);
    forall i | 0 <= i < |r| ensures 0 < |r[i].key| < 0x1_0000_0000 && 0 < |r[i].value| < 0x1_0000_0000 {
      RangeMembers(items, start, end, r[i]);
    }
  }

  /** Installing a snapshot of `source` succeeds exactly when both bounds are non-empty; then the target equals
      the source inside `[start, end)` and is untouched outside. Keys need not be assumed non-empty: those of a
      range with a non-empty start are. */
  lemma SnapshotTransfersRange(source: seq<Item>, target: map<Key, Key>, start: Key, end: Key, key: Key)
    requires |start| < 0x1_0000_0000 && |end| < 0x1_0000_0000
    requires forall x :: x in source ==> |x.key| < 0x1_0000_0000 && 0 < |x.value| < 0x1_0000_0000
    ensures var p := Parse(SnapshotFile(source, start, end)); var after := Install(target, p);
            && (p.outcome == Applied <==> start != [] && end != [])
            && (p.outcome != Applied ==> after == target)
            && (p.outcome == Applied ==>
                  if InRange(key, start, end)
                  then (key in after <==> key in Content(source)) && (key in after ==> after[key] == Content(source)[key])
                  else (key in after <==> key in target) && (key in after ==> after[key] == target[key]))
  {
    if start != [] { ScannedIsWritable(source, start, end); }
    ParseInvertsFile(source, start, end);
    if start != [] && end != [] {
      var pairs := Range(source, start, end);
      RangeContent(source, start, end);
      PutPairsIsUnion(Cut(target, start, end), pairs);
    }
  }
}
