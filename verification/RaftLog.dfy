/** One shard's part of the metadata storage, and the durable raft log kept in it
    (raftstore/peer_storage.go, the append half of raftstore/peer_event_raft_ready.go). */
module RaftLog {
  import opened Options

  const INIT_INDEX: nat := 5
  const INIT_TERM: nat := 5

  /** What the apply worker will do with an entry. `RemoveSelf(true)` is a configuration change that
      takes effect and removes this peer. */
  datatype Command = Empty | CompactLog(index: nat, term: nat) | RemoveSelf(effective: bool) | Other

  /** `size` is the length of the marshalled entry, `dataSize` the length of its data field. */
  datatype Entry = Entry(index: nat, term: nat, size: nat, dataSize: nat, cmd: Command)

  datatype HardState = HardState(term: nat, vote: nat, commit: nat)
  datatype LocalState = LocalState(lastIndex: nat, hard: HardState)
  datatype Truncated = Truncated(index: nat, term: nat)
  datatype ApplyState = ApplyState(applied: nat, truncated: Truncated)
  datatype PeerState = Normal | Applying | Tombstone

  type Log = map<nat, Entry>

  datatype Disk = Disk(log: Log, local: Option<LocalState>, apply: Option<ApplyState>, peer: Option<PeerState>)

  // ---- write batches

  datatype Op =
    | SetLog(entry: Entry) | DeleteLog(index: nat)
    | SetLocal(local: LocalState) | DeleteLocal
    | SetApply(apply: ApplyState) | DeleteApply
    | SetPeer(peer: PeerState) | DeletePeer

  function WriteOp(d: Disk, op: Op): Disk {
    match op
    case SetLog(e) => d.(log := d.log[e.index := e])
    case DeleteLog(i) => d.(log := d.log - {i})
    case SetLocal(l) => d.(local := Some(l))
    case DeleteLocal => d.(local := None)
    case SetApply(a) => d.(apply := Some(a))
    case DeleteApply => d.(apply := None)
    case SetPeer(p) => d.(peer := Some(p))
    case DeletePeer => d.(peer := None)
  }

  /** `Storage.Write`: the operations of a batch take effect in order. */
  function WriteBatch(d: Disk, ops: seq<Op>): Disk {
    if ops == [] then d else WriteOp(WriteBatch(d, ops[..|ops| - 1]), ops[|ops| - 1])
  }

  lemma {:induction false} WriteBatchConcat(d: Disk, a: seq<Op>, b: seq<Op>)
    ensures WriteBatch(d, a + b) == WriteBatch(WriteBatch(d, a), b)
  {
    if b == [] {
      assert a + b == a;
    } else {
      assert (a + b)[..|a + b| - 1] == a + b[..|b| - 1];
      WriteBatchConcat(d, a, b[..|b| - 1]);
    }
  }

  // ---- appending entries

  ghost predicate Contiguous(es: seq<Entry>) {
    forall k :: 0 <= k < |es| ==> es[k].index == es[0].index + k
  }

  function Last(es: seq<Entry>): Entry
    requires es != []
  {
    es[|es| - 1]
  }

  /** The log with the entries stored under their indexes. */
  function PutAll(log: Log, es: seq<Entry>): Log {
    if es == [] then log else PutAll(log, es[..|es| - 1])[Last(es).index := Last(es)]
  }

  /** The log without the indexes in `[lo, hi)`. */
  function DropRange(log: Log, lo: nat, hi: nat): Log {
    map i | i in log && !(lo <= i < hi) :: log[i]
  }

  /** The entries stored, and the old tail above them, up to `prevLast`, deleted. */
  function Appended(log: Log, es: seq<Entry>, prevLast: nat): Log {
    if es == [] then log else DropRange(PutAll(log, es), Last(es).index + 1, prevLast + 1)
  }

  lemma {:induction false} PutAllEntries(log: Log, es: seq<Entry>, i: nat)
    requires Contiguous(es)
    ensures i in PutAll(log, es) <==> i in log || (es != [] && es[0].index <= i <= Last(es).index)
    ensures i in PutAll(log, es) ==>
              PutAll(log, es)[i] == if es != [] && es[0].index <= i <= Last(es).index then es[i - es[0].index] else log[i]
  {
    if es == [] {
    } else {
      var init := es[..|es| - 1];
      assert init != [] ==> init[0] == es[0] && Last(init).index == Last(es).index - 1;
      PutAllEntries(log, init, i);
    }
  }

  /** `doAppendEntries`: one set per entry, then one delete per index of the old tail. */
  method AppendEntries(es: seq<Entry>, prevLast: nat, ghost d: Disk) returns (ops: seq<Op>)
    ensures WriteBatch(d, ops) == d.(log := Appended(d.log, es, prevLast))
  {
    ops := [];
    if |es| == 0 { return; }
    for n := 0 to |es|
      invariant WriteBatch(d, ops) == d.(log := PutAll(d.log, es[..n]))
    {
      WriteBatchConcat(d, ops, [SetLog(es[n])]);
      assert es[..n + 1][..n] == es[..n];
      ops := ops + [SetLog(es[n])];
    }
    assert es[..|es|] == es;
    ghost var put := PutAll(d.log, es);
    var lo := Last(es).index + 1;
    var deletes := DeleteEntries(lo, if prevLast + 1 > lo then prevLast + 1 else lo, d.(log := put));
    WriteBatchConcat(d, ops, deletes);
    ops := ops + deletes;
    assert prevLast + 1 <= lo ==> DropRange(put, lo, prevLast + 1) == DropRange(put, lo, lo);
  }

  /** Deletes whatever an earlier, longer log had from `lo` on. */
  method DeleteEntries(lo: nat, hi: nat, ghost d: Disk) returns (ops: seq<Op>)
    requires lo <= hi
    ensures WriteBatch(d, ops) == d.(log := DropRange(d.log, lo, hi))
  {
    ops := [];
    assert DropRange(d.log, lo, lo) == d.log;
    for index := lo to hi
      invariant WriteBatch(d, ops) == d.(log := DropRange(d.log, lo, index))
    {
      WriteBatchConcat(d, ops, [DeleteLog(index)]);
      assert DropRange(d.log, lo, index) - {index} == DropRange(d.log, lo, index + 1);
      ops := ops + [DeleteLog(index)];
    }
  }

  // ---- clearing the shard's metadata

  /** `clearMeta`: one delete per key found under the shard's two prefixes. */
  method ClearMeta(d: Disk) returns (ops: seq<Op>)
    ensures WriteBatch(d, ops) == Disk(map[], None, None, None)
  {
    ops := [];
    if d.peer.Some? {
      WriteBatchConcat(d, ops, [DeletePeer]);
      ops := ops + [DeletePeer];
    }
    var left := d.log.Keys;
    while left != {}
      invariant left <= d.log.Keys
      invariant WriteBatch(d, ops) == d.(peer := None, log := map i | i in left :: d.log[i])
      decreases left
    {
      var i :| i in left;
      WriteBatchConcat(d, ops, [DeleteLog(i)]);
      assert (map k | k in left :: d.log[k]) - {i} == map k | k in left - {i} :: d.log[k];
      ops := ops + [DeleteLog(i)];
      left := left - {i};
    }
    if d.local.Some? {
      WriteBatchConcat(d, ops, [DeleteLocal]);
      ops := ops + [DeleteLocal];
    }
    if d.apply.Some? {
      WriteBatchConcat(d, ops, [DeleteApply]);
      ops := ops + [DeleteApply];
    }
  }

  // ---- reading the log

  /** The term at an index of the window; the truncated state stands for the entry it replaced. */
  function TermAt(log: Log, tr: Truncated, i: nat): nat {
    if i == tr.index then tr.term else if i in log then log[i].term else 0
  }

  /** The log invariant: everything in `(tr.index, lastIndex]` is stored under its own index, nothing is
      stored above, and terms never decrease. Entries at or below `tr.index` may remain until collected. */
  ghost predicate Window(log: Log, tr: Truncated, lastIndex: nat) {
    && tr.index <= lastIndex
    && (forall i :: i in log ==> log[i].index == i <= lastIndex && log[i].size > 0 && log[i].term > 0)
    && (forall i :: tr.index < i <= lastIndex ==> i in log)
    && (forall i, j :: tr.index <= i <= j <= lastIndex ==> TermAt(log, tr, i) <= TermAt(log, tr, j))
  }

  datatype ReadError = LowAboveHigh | Compacted | OutOfBound | Unavailable

  datatype ReadResult<T> = Ok(value: T) | Err(error: ReadError)

  function CheckRange(tr: Truncated, lastIndex: nat, low: nat, high: nat): Option<ReadError> {
    if low > high then Some(LowAboveHigh)
    else if low <= tr.index then Some(Compacted)
    else if high > lastIndex + 1 then Some(OutOfBound)
    else None
  }

  function TotalSize(es: seq<Entry>): nat {
    if es == [] then 0 else TotalSize(es[..|es| - 1]) + Last(es).size
  }

  /** The stored entries at `low, low + 1, ...`. */
  ghost predicate Slice(log: Log, low: nat, es: seq<Entry>) {
    forall k :: 0 <= k < |es| ==> StoredAt(log, low + k, es[k])
  }

  ghost predicate StoredAt(log: Log, i: nat, e: Entry) {
    i in log && log[i] == e
  }

  /** The longest run from `low` that fits `maxSize`, but at least one entry. */
  ghost predicate Fitting(log: Log, low: nat, high: nat, maxSize: nat, es: seq<Entry>) {
    && 0 < |es| <= high - low
    && Slice(log, low, es)
    && (|es| == 1 || TotalSize(es) <= maxSize)
    && (|es| < high - low ==> low + |es| in log && TotalSize(es) + log[low + |es|].size > maxSize)
  }

  ghost predicate Stored(log: Log, low: nat, high: nat) {
    forall i :: low <= i < high ==> i in log && log[i].index == i
  }

  lemma TotalSizeAppend(es: seq<Entry>, e: Entry)
    ensures TotalSize(es + [e]) == TotalSize(es) + e.size
  {
    assert (es + [e])[..|es|] == es;
  }

  /** The size of a run is the sum of its parts. */
  lemma {:induction false} TotalSizeConcat(a: seq<Entry>, b: seq<Entry>)
    ensures TotalSize(a + b) == TotalSize(a) + TotalSize(b)
    ensures |b| == 1 ==> TotalSize(b) == b[0].size
    decreases |b|
  {
    if b == [] {
      assert a + b == a;
    } else {
      assert (a + b)[..|a + b| - 1] == a + b[..|b| - 1];
      TotalSizeConcat(a, b[..|b| - 1]);
    }
  }

  /** The scan has taken everything below `key` and not exceeded the limit. */
  ghost predicate Scanned(log: Log, low: nat, maxSize: nat, key: nat, es: seq<Entry>, totalSize: nat) {
    && low <= key && |es| == key - low && Slice(log, low, es)
    && totalSize == TotalSize(es) && (es == [] || totalSize <= maxSize)
  }

  lemma ScanTakes(log: Log, low: nat, maxSize: nat, key: nat, es: seq<Entry>, totalSize: nat)
    requires Scanned(log, low, maxSize, key, es, totalSize) && key in log && totalSize + log[key].size <= maxSize
    ensures Scanned(log, low, maxSize, key + 1, es + [log[key]], totalSize + log[key].size)
  {
    TotalSizeAppend(es, log[key]);
    var more := es + [log[key]];
    forall k | 0 <= k < |more| ensures StoredAt(log, low + k, more[k]) {
      if k < |es| { assert StoredAt(log, low + k, es[k]); }
    }
  }

  lemma ScanStops(log: Log, low: nat, high: nat, maxSize: nat, key: nat, es: seq<Entry>, totalSize: nat)
    requires Scanned(log, low, maxSize, key, es, totalSize) && key < high && Stored(log, low, high)
    requires totalSize + log[key].size > maxSize
    ensures Fitting(log, low, high, maxSize, if es == [] then es + [log[key]] else es)
  {
    if es == [] {
      TotalSizeAppend(es, log[key]);
      assert key + 1 < high ==> key + 1 in log;
    } else {
      assert low + |es| == key;
    }
  }

  /** The callback scan of `Entries`: stops at a gap, or once the size is exceeded. */
  method ScanEntries(log: Log, low: nat, high: nat, maxSize: nat) returns (ents: seq<Entry>, exceeded: bool)
    requires low < high
    ensures Stored(log, low, high) ==> Fitting(log, low, high, maxSize, ents) && (|ents| == high - low || exceeded)
  {
    ghost var ok := Stored(log, low, high);
    ents, exceeded := [], false;
    var totalSize: nat, nextIndex: nat, key: nat := 0, low, low;
    while key < high
      invariant low <= key <= high && !exceeded
      invariant ok ==> nextIndex == key && Scanned(log, low, maxSize, key, ents, totalSize)
    {
      if key in log {
        var e := log[key];
        if e.index != nextIndex { break; }
        if ok {
          if totalSize + e.size > maxSize {
            ScanStops(log, low, high, maxSize, key, ents, totalSize);
          } else {
            ScanTakes(log, low, maxSize, key, ents, totalSize);
          }
        }
        nextIndex := nextIndex + 1;
        totalSize := totalSize + e.size;
        exceeded := totalSize > maxSize;
        if !exceeded || |ents| == 0 { ents := ents + [e]; }
        if exceeded { break; }
      }
      key := key + 1;
    }
  }

  /** `Entries`: on a log that satisfies the invariant it fails only where `checkRange` does. */
  method Entries(log: Log, tr: Truncated, lastIndex: nat, low: nat, high: nat, maxSize: nat)
    returns (r: ReadResult<seq<Entry>>)
    ensures low > high ==> r == Err(LowAboveHigh)
    ensures low <= high && low <= tr.index ==> r == Err(Compacted)
    ensures tr.index < low <= high && high > lastIndex + 1 ==> r == Err(OutOfBound)
    ensures Window(log, tr, lastIndex) && tr.index < low <= high <= lastIndex + 1 ==>
              r.Ok? && if low == high then r.value == [] else Fitting(log, low, high, maxSize, r.value)
  {
    var check := CheckRange(tr, lastIndex, low, high);
    if check.Some? { return Err(check.value); }
    if low == high { return Ok([]); }
    if low + 1 == high {
      if low !in log { return Err(Unavailable); }
      return Ok([log[low]]);
    }
    var ents, exceeded := ScanEntries(log, low, high, maxSize);
    if |ents| == high - low || exceeded { return Ok(ents); }
    r := Err(Unavailable);
  }

  /** `Term`, with the shortcut taken when the truncated term equals the last term. */
  function Term(log: Log, tr: Truncated, lastIndex: nat, lastTerm: nat, idx: nat): ReadResult<nat> {
    if idx == tr.index then Ok(tr.term)
    else
      var check := CheckRange(tr, lastIndex, idx, idx + 1);
      if check.Some? then Err(check.value)
      else if tr.term == lastTerm || idx == lastIndex then Ok(lastTerm)
      else if idx in log then Ok(log[idx].term)
      else Err(Unavailable)
  }

  /** The lookup answers exactly inside the window, and then with the stored term, shortcut or not. */
  lemma TermIsStoredTerm(log: Log, tr: Truncated, lastIndex: nat, lastTerm: nat, idx: nat)
    requires Window(log, tr, lastIndex) && lastTerm == TermAt(log, tr, lastIndex)
    ensures Term(log, tr, lastIndex, lastTerm, idx) ==
              if idx < tr.index then Err(Compacted)
              else if idx > lastIndex then Err(OutOfBound)
              else Ok(TermAt(log, tr, idx))
  {
    if tr.index <= idx <= lastIndex {
      assert TermAt(log, tr, tr.index) <= TermAt(log, tr, idx) <= TermAt(log, tr, lastIndex);
    }
  }

  /** Without ordered terms the shortcut would be wrong. */
  lemma ShortcutNeedsOrderedTerms()
    ensures var log := map[6 := Entry(6, 9, 1, 0, Other), 7 := Entry(7, 5, 1, 0, Other)];
            var tr := Truncated(5, 5);
            Term(log, tr, 7, 5, 6) == Ok(5) && TermAt(log, tr, 6) == 9
  {
  }
}
