/** Crash and replay of applied commands: the data batch and the apply state are two separate writes
    (raftstore/peer_apply.go, util/write_batch.go, `Write` in storage/mem/storage.go). */
module Replay {
  import opened Bytes
  import opened Shards
  import opened Epochs
  import opened Options

  type KV = map<Key, Key>

  datatype Op = SetOp(key: Key, value: Key) | DeleteOp(key: Key)

  // ---- write batches

  function ApplyOp(m: KV, op: Op): KV {
    match op
    case SetOp(k, v) => m[k := v]
    case DeleteOp(k) => m - {k}
  }

  function ApplyOps(m: KV, ops: seq<Op>): KV {
    if ops == [] then m else ApplyOp(ApplyOps(m, ops[..|ops| - 1]), ops[|ops| - 1])
  }

  /** The parallel slices of `WriteBatch`; a delete stores an empty value. */
  class WriteBatch {
    var isSet: seq<bool>
    var keys: seq<Key>
    var values: seq<Key>

    ghost predicate Valid()
      reads this
    {
      |isSet| == |keys| == |values|
    }

    ghost function Ops(): (ops: seq<Op>)
      requires Valid()
      reads this
      ensures |ops| == |keys|
    {
      seq(|keys|, i requires 0 <= i < |keys| && Valid() reads this =>
            if isSet[i] then SetOp(keys[i], values[i]) else DeleteOp(keys[i]))
    }

    constructor ()
      ensures Valid() && Ops() == []
    {
      isSet, keys, values := [], [], [];
    }

    method Set(key: Key, value: Key)
      requires Valid()
      modifies this
      ensures Valid() && Ops() == old(Ops()) + [SetOp(key, value)]
    {
      isSet, keys, values := isSet + [true], keys + [key], values + [value];
    }

    method Delete(key: Key)
      requires Valid()
      modifies this
      ensures Valid() && Ops() == old(Ops()) + [DeleteOp(key)]
    {
      isSet, keys, values := isSet + [false], keys + [key], values + [[]];
    }

    /** `Storage.Write`: dispatches on each operation in turn. */
    method WriteTo(m: KV) returns (r: KV)
      requires Valid()
      ensures r == ApplyOps(m, Ops())
    {
      r := m;
      for i := 0 to |keys|
        invariant r == ApplyOps(m, Ops()[..i])
      {
        assert Ops()[..i + 1][..i] == Ops()[..i];
        r := if isSet[i] then r[keys[i] := values[i]] else r - {keys[i]};
      }
      assert Ops()[..|keys|] == Ops();
    }
  }

  /** The last operation on a key decides: untouched, deleted or set. */
  datatype Effect = Untouched | Deleted | SetTo(value: Key)

  function EffectOn(ops: seq<Op>, key: Key): Effect {
    if ops == [] then Untouched
    else
      var last := ops[|ops| - 1];
      if last.key == key then (if last.SetOp? then SetTo(last.value) else Deleted)
      else EffectOn(ops[..|ops| - 1], key)
  }

  lemma {:induction false} EffectDecides(m: KV, ops: seq<Op>, key: Key)
    ensures match EffectOn(ops, key)
            case Untouched => (key in ApplyOps(m, ops) <==> key in m) && (key in m ==> ApplyOps(m, ops)[key] == m[key])
            case Deleted => key !in ApplyOps(m, ops)
            case SetTo(v) => key in ApplyOps(m, ops) && ApplyOps(m, ops)[key] == v
  {
    if ops == [] {
    } else {
      EffectDecides(m, ops[..|ops| - 1], key);
    }
  }

  // ---- commands and their batches

  /** The operations a write handler puts in the batch, from the request (here its key) and the shard alone. */
  type Handler = (Shard, Key) -> seq<Op>

  function HandleAll(h: Handler, shard: Shard, keys: seq<Key>): seq<Op> {
    if keys == [] then [] else HandleAll(h, shard, keys[..|keys| - 1]) + h(shard, keys[|keys| - 1])
  }

  /** Only a write that passes the epoch check has a data batch. */
  function Batch(h: Handler, shard: Shard, c: Command): seq<Op> {
    if c.body.Write? && Fresh(shard.epoch, c) then HandleAll(h, shard, c.body.keys) else []
  }

  /** The content after `n` commands applied without interruption. */
  function ContentAfter(h: Handler, shard: Shard, log: seq<Command>, m: KV, n: nat): KV
    requires n <= |log|
  {
    if n == 0 then m
    else ApplyOps(ContentAfter(h, shard, log, m, n - 1), Batch(h, ShardAfter(shard, log, n - 1), log[n - 1]))
  }

  // ---- the machine with crashes

  /** `kv`, `applied` and `shard` are on disk; `written` counts, in memory only, the operations of the next
      command's batch that this incarnation has written. */
  datatype Node = Node(kv: KV, applied: nat, shard: Shard, written: nat)

  /** The data batch is written operation by operation, so a crash may also leave it half written. */
  datatype Event = WriteData | WriteMeta | Crash

  function NextBatch(h: Handler, log: seq<Command>, s: Node): seq<Op>
    requires s.applied < |log|
  {
    Batch(h, s.shard, log[s.applied])
  }

  predicate Enabled(h: Handler, log: seq<Command>, s: Node, ev: Event) {
    match ev
    case WriteData => s.applied < |log| && s.written < |NextBatch(h, log, s)|
    case WriteMeta => s.applied < |log| && s.written == |NextBatch(h, log, s)|
    case Crash => true
  }

  function Step(h: Handler, log: seq<Command>, s: Node, ev: Event): Node
    requires Enabled(h, log, s, ev)
  {
    match ev
    case WriteData => s.(kv := ApplyOp(s.kv, NextBatch(h, log, s)[s.written]), written := s.written + 1)
    case WriteMeta => s.(applied := s.applied + 1, shard := Exec(s.shard, log[s.applied]), written := 0)
    case Crash => s.(written := 0)
  }

  /** What is known of one key while a batch is being written over leftovers of the same batch: it has its
      value from the part written so far, or, if the whole batch leaves it alone, from before. */
  ghost predicate KeyInProgress(m: KV, ops: seq<Op>, n: nat, kv: KV, key: Key)
    requires n <= |ops|
  {
    match EffectOn(ops[..n], key)
    case Untouched => EffectOn(ops, key) == Untouched ==> (key in kv <==> key in m) && (key in m ==> kv[key] == m[key])
    case Deleted => key !in kv
    case SetTo(v) => key in kv && kv[key] == v
  }

  ghost predicate InProgress(m: KV, ops: seq<Op>, n: nat, kv: KV)
    requires n <= |ops|
  {
    forall key :: KeyInProgress(m, ops, n, kv, key)
  }

  lemma OperationProgresses(m: KV, ops: seq<Op>, n: nat, kv: KV)
    requires n < |ops| && InProgress(m, ops, n, kv)
    ensures InProgress(m, ops, n + 1, ApplyOp(kv, ops[n]))
  {
    var done, after := n + 1, ApplyOp(kv, ops[n]);
    assert ops[..done][..n] == ops[..n];
    forall key ensures KeyInProgress(m, ops, done, after, key) {
      assert KeyInProgress(m, ops, n, kv, key);
    }
  }

  /** A crash forgets how far the batch was written. */
  lemma CrashForgetsProgress(m: KV, ops: seq<Op>, n: nat, kv: KV)
    requires n <= |ops| && InProgress(m, ops, n, kv)
    ensures InProgress(m, ops, 0, kv)
  {
    forall key ensures KeyInProgress(m, ops, 0, kv, key) {
      assert KeyInProgress(m, ops, n, kv, key);
      if EffectOn(ops[..n], key) != Untouched { TouchedByPrefix(ops, n, key); }
    }
  }

  lemma {:induction false} TouchedByPrefix(ops: seq<Op>, n: nat, key: Key)
    requires n <= |ops| && EffectOn(ops[..n], key) != Untouched
    ensures EffectOn(ops, key) != Untouched
    decreases |ops|
  {
    if n == |ops| {
      assert ops[..n] == ops;
    } else {
      var init := ops[..|ops| - 1];
      assert init[..n] == ops[..n];
      TouchedByPrefix(init, n, key);
    }
  }

  /** A batch written to its end leaves what one clean write of it leaves. */
  lemma FinishedBatch(m: KV, ops: seq<Op>, kv: KV)
    requires InProgress(m, ops, |ops|, kv)
    ensures kv == ApplyOps(m, ops)
  {
    assert ops[..|ops|] == ops;
    forall key
      ensures key in kv <==> key in ApplyOps(m, ops)
      ensures key in kv ==> kv[key] == ApplyOps(m, ops)[key]
    {
      assert KeyInProgress(m, ops, |ops|, kv, key);
      EffectDecides(m, ops, key);
    }
  }

  /** The disk is the clean content at its own record of what was applied, with the next batch in progress. */
  ghost predicate Consistent(h: Handler, shard: Shard, log: seq<Command>, m: KV, s: Node) {
    && s.applied <= |log| && s.shard == ShardAfter(shard, log, s.applied)
    && (s.applied == |log| ==> s.kv == ContentAfter(h, shard, log, m, s.applied))
    && (s.applied < |log| ==>
          s.written <= |NextBatch(h, log, s)|
          && InProgress(ContentAfter(h, shard, log, m, s.applied), NextBatch(h, log, s), s.written, s.kv))
  }

  lemma StepStaysConsistent(h: Handler, shard: Shard, log: seq<Command>, m: KV, s: Node, ev: Event)
    requires Consistent(h, shard, log, m, s) && Enabled(h, log, s, ev)
    ensures Consistent(h, shard, log, m, Step(h, log, s, ev))
  {
    if s.applied < |log| {
      var content, ops := ContentAfter(h, shard, log, m, s.applied), NextBatch(h, log, s);
      match ev
      case WriteData => OperationProgresses(content, ops, s.written, s.kv);
      case Crash => CrashForgetsProgress(content, ops, s.written, s.kv);
      case WriteMeta => FinishedBatch(content, ops, s.kv);
    }
  }

  ghost predicate Admissible(h: Handler, log: seq<Command>, s: Node, evs: seq<Event>)
    decreases evs
  {
    evs == [] || (Enabled(h, log, s, evs[0]) && Admissible(h, log, Step(h, log, s, evs[0]), evs[1..]))
  }

  ghost function Run(h: Handler, log: seq<Command>, s: Node, evs: seq<Event>): Node
    requires Admissible(h, log, s, evs)
    decreases evs
  {
    if evs == [] then s else Run(h, log, Step(h, log, s, evs[0]), evs[1..])
  }

  lemma {:induction false} RunsStayConsistent(h: Handler, shard: Shard, log: seq<Command>, m: KV, s: Node, evs: seq<Event>)
    requires Consistent(h, shard, log, m, s) && Admissible(h, log, s, evs)
    ensures Consistent(h, shard, log, m, Run(h, log, s, evs))
    decreases evs
  {
    if evs == [] {
    } else {
      StepStaysConsistent(h, shard, log, m, s, evs[0]);
      RunsStayConsistent(h, shard, log, m, Step(h, log, s, evs[0]), evs[1..]);
    }
  }

  /** However often and wherever the node crashes, once it has applied the whole log its content and its shard
      are those of one uninterrupted application. */
  lemma ReplayEqualsUninterrupted(h: Handler, shard: Shard, log: seq<Command>, m: KV, evs: seq<Event>)
    requires Admissible(h, log, Node(m, 0, shard, 0), evs)
    ensures var s := Run(h, log, Node(m, 0, shard, 0), evs);
            s.applied == |log| ==> s.kv == ContentAfter(h, shard, log, m, |log|) && s.shard == ShardAfter(shard, log, |log|)
  {
    RunsStayConsistent(h, shard, log, m, Node(m, 0, shard, 0), evs);
  }

  // ---- what a command writes

  lemma {:induction false} ApplyOpsConcat(m: KV, a: seq<Op>, b: seq<Op>)
    ensures ApplyOps(m, a + b) == ApplyOps(ApplyOps(m, a), b)
    decreases |b|
  {
    if b == [] {
      assert a + b == a;
    } else {
      assert (a + b)[..|a + b| - 1] == a + b[..|b| - 1];
      ApplyOpsConcat(m, a, b[..|b| - 1]);
    }
  }

  lemma {:induction false} HandleAllConcat(h: Handler, shard: Shard, a: seq<Key>, b: seq<Key>)
    ensures HandleAll(h, shard, a + b) == HandleAll(h, shard, a) + HandleAll(h, shard, b)
    decreases |b|
  {
    if b == [] {
      assert a + b == a;
    } else {
      assert (a + b)[..|a + b| - 1] == a + b[..|b| - 1];
      HandleAllConcat(h, shard, a, b[..|b| - 1]);
    }
  }

  lemma HandleOne(h: Handler, shard: Shard, key: Key)
    ensures HandleAll(h, shard, [key]) == h(shard, key)
  {
    assert [key][..0] == [] && [] + h(shard, key) == h(shard, key);
  }

  /** A write that was stamped after `j` commands writes what its handlers put in the batch if and only if no split took
      effect since; otherwise, like every other kind of command, it writes nothing. */
  lemma WriteReachesTheStore(h: Handler, shard: Shard, log: seq<Command>, m: KV, j: nat, i: nat)
    requires j <= i < |log| && log[i].header == Some(Header(ShardAfter(shard, log, j).epoch, false))
    ensures ContentAfter(h, shard, log, m, i + 1) ==
              if log[i].body.Write? && !SplitBetween(shard, log, j, i)
              then ApplyOps(ContentAfter(h, shard, log, m, i), HandleAll(h, ShardAfter(shard, log, i), log[i].body.keys))
              else ContentAfter(h, shard, log, m, i)
  {
    CommandPassesExactlyWhen(shard, log, j, i, false);
  }

  // ---- the log can always be finished

  lemma Then(h: Handler, log: seq<Command>, s: Node, ev: Event, rest: seq<Event>)
    requires Enabled(h, log, s, ev) && Admissible(h, log, Step(h, log, s, ev), rest)
    ensures Admissible(h, log, s, [ev] + rest) && Run(h, log, s, [ev] + rest) == Run(h, log, Step(h, log, s, ev), rest)
  {
    assert ([ev] + rest)[0] == ev && ([ev] + rest)[1..] == rest;
  }

  /** From any state a run can reach, the node can apply the rest of the log. */
  lemma {:induction false} NodeCanFinish(h: Handler, log: seq<Command>, s: Node) returns (evs: seq<Event>)
    requires s.applied <= |log| && (s.applied < |log| ==> s.written <= |NextBatch(h, log, s)|)
    ensures Admissible(h, log, s, evs) && Run(h, log, s, evs).applied == |log|
    decreases |log| - s.applied, if s.applied < |log| then |NextBatch(h, log, s)| - s.written else 0
  {
    if s.applied == |log| {
      evs := [];
    } else {
      var ev := if s.written < |NextBatch(h, log, s)| then WriteData else WriteMeta;
      var rest := NodeCanFinish(h, log, Step(h, log, s, ev));
      Then(h, log, s, ev, rest);
      evs := [ev] + rest;
    }
  }
}
