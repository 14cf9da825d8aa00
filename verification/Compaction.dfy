/** What an applied entry does, and what a compaction command comes to: the start of the log, the size hint and the
    collection of old entries (raftstore/peer_apply_exec.go, peer_event_post_apply.go, `doCompactRaftLog`). */
module Compaction {
  import opened RaftLog
  import opened Pipeline
  import opened PipelineInvariant
  import opened PipelineEffects
  import opened LogRefinement
  import opened Options

  // ---- one entry

  /** The condition under which a compaction command takes effect. */
  predicate CompactsTo(d: ApplyState, e: Entry) {
    e.cmd.CompactLog? && d.truncated.index + 1 < e.cmd.index <= d.applied && e.cmd.term > 0
  }

  /** The result posted for an entry: its index, and the truncated state it leaves. */
  predicate PostedFor(d: ApplyState, e: Entry, res: ApplyResult) {
    && res.apply.applied == e.index == d.applied + 1
    && (res.gc.Some? <==> CompactsTo(d, e))
    && (CompactsTo(d, e) ==>
          && res.apply.truncated == res.gc.value.state == Truncated(e.cmd.index, e.cmd.term)
          && res.gc.value.firstIndex == d.truncated.index + 1)
    && (!CompactsTo(d, e) ==> res.apply.truncated == d.truncated)
  }

  /** An entry the worker takes up is applied: its result is posted, and stored unless it removes this peer. */
  lemma EntryTakesEffect(r: Replica, applied: bool)
    requires Live(r) && !Removed(r) && r.queue != [] && r.queue[0].ApplyEntry?
    ensures RunJob(r, applied).Next? && r.delegate.Some?
    ensures var r', n := RunJob(r, applied).replica, |r.results|;
            |r'.results| == n + 1 && r'.results[..n] == r.results && PostedFor(r.delegate.value, r.queue[0].entry, r'.results[n])
    ensures Removed(RunJob(r, applied).replica) <==> r.queue[0].entry.cmd == RemoveSelf(true)
    ensures var r' := RunJob(r, applied).replica;
            if Removed(r') then r'.delegate.None? && r'.disk.apply == r.disk.apply
            else r'.disk.peer == r.disk.peer && r'.delegate == r'.disk.apply == Some(r'.results[|r.results|].apply)
    ensures var r' := RunJob(r, applied).replica; r'.disk.log == r.disk.log && r'.disk.local == r.disk.local
  {
    WorkerStateAgrees(r);
    PopHead(r.queue);
    NextEntryIsExpected(r);
  }

  /** Polling a result makes its truncated state the start of the log. */
  lemma PollMovesBase(r: Replica)
    requires Live(r) && r.results != []
    ensures PollApply(r).Next? && Inv(PollApply(r).replica)
    ensures Abstraction(PollApply(r).replica).base == r.results[0].apply.truncated
    ensures PollApply(r).replica.apply == r.results[0].apply && PollApply(r).replica.results == r.results[1..]
  {
    PollPreserves(r);
  }

  /** A compaction command, once applied and polled, moves the start of the log to its index and term if and only if that
      index is inside what was applied and kept before it. */
  lemma CompactionReachesTheLog(r: Replica, applied: bool)
    requires Live(r) && !Removed(r) && r.results == [] && r.queue != [] && r.queue[0].ApplyEntry?
    requires r.queue[0].entry.cmd.CompactLog?
    ensures RunJob(r, applied).Next? && RunJob(r, applied).replica.results != []
    ensures PollApply(RunJob(r, applied).replica).Next? && Inv(PollApply(RunJob(r, applied).replica).replica)
    ensures var e, base := r.queue[0].entry, Abstraction(PollApply(RunJob(r, applied).replica).replica).base;
            base == if r.apply.truncated.index + 1 < e.cmd.index <= r.apply.applied && e.cmd.term > 0
                    then Truncated(e.cmd.index, e.cmd.term) else r.apply.truncated
  {
    WorkerStateAgrees(r);
    EntryTakesEffect(r, applied);
    WorkPreserves(r, applied);
    PollMovesBase(RunJob(r, applied).replica);
  }

  // ---- the size hint

  lemma {:induction false} DataSizeConcat(a: seq<Entry>, b: seq<Entry>)
    ensures DataSize(a + b) == DataSize(a) + DataSize(b)
    decreases |b|
  {
    if b == [] {
      assert a + b == a;
    } else {
      var n := |b| - 1;
      assert (a + b)[..|a + b| - 1] == a + b[..n];
      DataSizeConcat(a, b[..n]);
    }
  }

  /** The hint grows by the data handed out, and starts again with a snapshot. */
  lemma HintCountsData(r: Replica, rd: Ready)
    ensures HandleReady(r, rd).hint ==
              if !Deferred(r, rd) && rd.snap.Some? then 0 else r.hint + DataSize(HandedOut(r, ReadyEvent(rd)))
  {
  }

  lemma DataSizeOfOne(e: Entry)
    ensures DataSize([e]) == e.dataSize
  {
  }

  /** A compaction scales the hint by the share of the log that is left, rounded down. */
  lemma HintIsScaled(r: Replica)
    requires Live(r) && r.results != [] && r.results[0].gc.Some?
    ensures PollApply(r).Next?
    ensures var after := PollApply(r).replica;
            var total, left := r.lastReady - r.apply.truncated.index - 1, r.lastReady - after.apply.truncated.index - 1;
            0 <= left < total && after.hint * total <= r.hint * left < (after.hint + 1) * total
  {
    PollState(r);
    PollPreserves(r);
    var gc := r.results[0].gc.value;
    var total, left := r.lastReady - r.apply.truncated.index - 1, r.lastReady - gc.state.index - 1;
    RoundedDown(r.hint * left, total);
  }

  lemma RoundedDown(n: nat, b: nat)
    requires b > 0
    ensures n / b * b <= n < (n / b + 1) * b
  {
  }

  // ---- collection

  /** A job in the queue will remove the entry at `i`. */
  ghost predicate WillCollect(q: seq<Job>, i: nat) {
    exists k :: 0 <= k < |q| && q[k].GCJob? && q[k].start <= i < q[k].end
  }

  /** What the event loop has ordered collected is gone or about to go. */
  ghost predicate Collects(r: Replica) {
    && (r.lastCompact > 0 ==> r.lastCompact <= r.apply.truncated.index + 1)
    && forall i :: i in r.disk.log && i < r.lastCompact ==> WillCollect(r.queue, i)
  }

  lemma WillCollectStill(q: seq<Job>, tail: seq<Job>, i: nat)
    requires WillCollect(q, i)
    ensures WillCollect(q + tail, i)
  {
    var k :| 0 <= k < |q| && q[k].GCJob? && q[k].start <= i < q[k].end;
    assert (q + tail)[k] == q[k];
  }

  lemma ReadyCollects(r: Replica, rd: Ready)
    requires Inv(r) && Collects(r) && Enabled(r, ReadyEvent(rd))
    ensures Collects(HandleReady(r, rd))
  {
    if !Skipped(r, rd) {
      var r' := HandleReady(r, rd);
      forall i | i in r'.disk.log && i < r'.lastCompact ensures WillCollect(r'.queue, i) {
        NothingNewBelow(r, rd, i);
        WillCollectStill(r.queue, r'.queue[|r.queue|..], i);
        assert r'.queue == r.queue + r'.queue[|r.queue|..];
      }
    }
  }

  /** An entry below what was ordered collected was there before. */
  lemma NothingNewBelow(r: Replica, rd: Ready, i: nat)
    requires Inv(r) && Collects(r) && Enabled(r, ReadyEvent(rd)) && !Skipped(r, rd)
    requires i in HandleReady(r, rd).disk.log && i < r.lastCompact
    ensures rd.snap.None? && i in r.disk.log
  {
    var base := if rd.snap.Some? then map[] else r.disk.log;
    if rd.entries != [] { AppendedEntries(base, rd.entries, PrevLast(r, rd), i); }
  }

  lemma PollCollects(r: Replica)
    requires Live(r) && Collects(r) && r.results != []
    ensures PollApply(r).Next? && Collects(PollApply(r).replica)
    ensures r.results[0].gc.Some? ==> PollApply(r).replica.lastCompact == PollApply(r).replica.apply.truncated.index + 1
  {
    PollState(r);
    PollPreserves(r);
    if r.results[0].gc.Some? {
      var r' := PollApply(r).replica;
      var tail := [GCJob(r.lastCompact, r'.lastCompact)];
      forall i | i in r'.disk.log && i < r'.lastCompact ensures WillCollect(r'.queue, i) {
        if i < r.lastCompact {
          WillCollectStill(r.queue, tail, i);
        } else {
          assert r'.queue[|r.queue|] == tail[0];
        }
      }
    }
  }

  lemma WorkCollects(r: Replica, applied: bool)
    requires Collects(r) && r.queue != [] && RunJob(r, applied).Next?
    ensures Collects(RunJob(r, applied).replica)
  {
    var r' := RunJob(r, applied).replica;
    assert r'.queue == r.queue[1..] && r'.lastCompact == r.lastCompact && r'.apply == r.apply;
    forall i | i in r'.disk.log && i < r'.lastCompact ensures WillCollect(r'.queue, i) {
      var k :| 0 <= k < |r.queue| && r.queue[k].GCJob? && r.queue[k].start <= i < r.queue[k].end;
      assert k > 0 && r'.queue[k - 1] == r.queue[k];
    }
  }

  lemma StepCollects(r: Replica, ev: Event)
    requires Inv(r) && Collects(r) && Enabled(r, ev)
    ensures Step(r, ev).Next? && Collects(Step(r, ev).replica)
  {
    StepPreserves(r, ev);
    match ev
    case ReadyEvent(rd) => ReadyCollects(r, rd);
    case Poll => PollCollects(r);
    case Work(applied) => WorkCollects(r, applied);
    case Crash =>
  }

  /** At every point of every run, an entry below what the event loop ordered collected is still stored only while a job
      that will remove it is queued. */
  lemma {:induction false} CompactedEntriesAreCollected(r: Replica, evs: seq<Event>)
    requires Inv(r) && Collects(r) && Admissible(r, evs)
    ensures Run(r, evs).Next? && Collects(Run(r, evs).replica)
    decreases evs
  {
    if evs == [] {
    } else {
      StepPreserves(r, evs[0]);
      StepCollects(r, evs[0]);
      CompactedEntriesAreCollected(Step(r, evs[0]).replica, evs[1..]);
    }
  }

  lemma InitialCollects(r: Replica)
    requires Initial(r) && r.lastCompact == 0
    ensures Inv(r) && Collects(r)
  {
    InitialLive(r);
  }

  /** Once the jobs are done, nothing below the start of the log is left of what was compacted. */
  lemma NothingCompactedIsLeft(r: Replica, i: nat)
    requires Collects(r) && r.lastCompact == r.apply.truncated.index + 1 && i in r.disk.log
    requires forall k :: 0 <= k < |r.queue| ==> !r.queue[k].GCJob?
    ensures i > r.apply.truncated.index
  {
  }
}
