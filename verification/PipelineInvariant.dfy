/** The invariant of the ready/apply pipeline and its preservation by every step. */
module PipelineInvariant {
  import opened RaftLog
  import opened Pipeline
  import opened Options

  // ---- the job queue

  /** The entries still to be applied, in order. */
  function Pending(q: seq<Job>): seq<Entry> {
    if q == [] then [] else (if q[0].ApplyEntry? then [q[0].entry] else []) + Pending(q[1..])
  }

  predicate HasRegistration(q: seq<Job>) {
    q != [] && (q[0].Registration? || HasRegistration(q[1..]))
  }

  /** A snapshot is followed by a registration, no entry precedes a registration, and the last
      registration carries the apply state the event loop has. */
  predicate QueueShape(q: seq<Job>, a: ApplyState) {
    q == [] ||
    (&& QueueShape(q[1..], a)
     && (q[0].SnapshotJob? ==> HasRegistration(q[1..]))
     && (q[0].ApplyEntry? ==> !HasRegistration(q[1..]))
     && (q[0].Registration? ==> HasRegistration(q[1..]) || q[0].apply == a))
  }

  /** Log collection stays at or below the truncated index the event loop has seen. */
  ghost predicate CollectsBelow(q: seq<Job>, tr: Truncated) {
    forall i :: 0 <= i < |q| && q[i].GCJob? ==> q[i].end <= tr.index + 1
  }

  // ---- the result queue

  /** One applied entry after another; a compaction moves the truncated index strictly up, below the entry. */
  predicate Follows(p: ApplyState, res: ApplyResult) {
    && res.apply.applied == p.applied + 1
    && match res.gc
       case None => res.apply.truncated == p.truncated
       case Some(gc) => gc.state == res.apply.truncated && gc.firstIndex == p.truncated.index + 1
                        && gc.firstIndex < gc.state.index <= p.applied
  }

  predicate ResultChain(p: ApplyState, results: seq<ApplyResult>)
    decreases results
  {
    results == [] || (Follows(p, results[0]) && ResultChain(results[0].apply, results[1..]))
  }

  function LastState(p: ApplyState, results: seq<ApplyResult>): ApplyState
    decreases results
  {
    if results == [] then p else LastState(results[0].apply, results[1..])
  }

  ghost predicate ResultsAgree(log: Log, tr: Truncated, results: seq<ApplyResult>) {
    forall i :: 0 <= i < |results| ==>
      TermAt(log, tr, results[i].apply.truncated.index) == results[i].apply.truncated.term
  }

  // ---- the invariant

  /** A replica created by a raft message, before its first snapshot: nothing stored, nothing running. */
  ghost predicate Fresh(r: Replica) {
    && r.disk.log == map[] && r.disk.local.None? && r.disk.apply.None?
    && (r.disk.peer.None? || r.disk.peer == Some(Tombstone))
    && r.local == LocalState(0, HardState(0, 0, 0)) && r.apply == ApplyState(0, Truncated(0, 0))
    && r.lastTerm == 0 && r.lastReady == 0
    && r.delegate.None? && r.queue == [] && r.results == []
  }

  ghost predicate IndexesOrdered(r: Replica) {
    && INIT_INDEX <= r.apply.truncated.index <= r.apply.applied
    && r.apply.applied + |r.results| + |Pending(r.queue)| <= r.lastReady <= r.local.hard.commit <= r.local.lastIndex
    && (r.apply.truncated.index == INIT_INDEX ==> r.apply.truncated.term == INIT_TERM)
  }

  ghost predicate LogStored(r: Replica) {
    && Window(r.disk.log, r.apply.truncated, r.local.lastIndex)
    && r.lastTerm == TermAt(r.disk.log, r.apply.truncated, r.local.lastIndex)
    && r.disk.local == Some(r.local)
  }

  ghost predicate QueueSound(r: Replica) {
    && QueueShape(r.queue, r.apply)
    && CollectsBelow(r.queue, r.apply.truncated)
    && (HasRegistration(r.queue) ==> r.results == [])
  }

  ghost predicate ResultsSound(r: Replica) {
    && ResultChain(r.apply, r.results)
    && ResultsAgree(r.disk.log, r.apply.truncated, r.results)
  }

  /** The queued entries end at `lastReady`, so the next one is the one the delegate expects. */
  ghost predicate PendingSound(r: Replica) {
    var pend := Pending(r.queue);
    forall k :: 0 <= k < |pend| ==>
      && pend[k].index == r.lastReady - |pend| + 1 + k
      && pend[k].term > 0
      && CompactTermAgrees(r.disk.log, r.apply.truncated, pend[k])
  }

  predicate Removed(r: Replica) {
    r.disk.peer == Some(Tombstone)
  }

  /** The stored apply state is the worker's, or what it will be once registered; the entries it has yet to
      apply are exactly the queued ones. */
  ghost predicate WorkerSound(r: Replica) {
    && r.disk.peer.Some?
    && (!Removed(r) ==>
          && r.disk.apply == Some(LastState(r.apply, r.results))
          && (HasRegistration(r.queue) || r.delegate == r.disk.apply)
          && r.apply.applied + |r.results| + |Pending(r.queue)| == r.lastReady)
    && (Removed(r) ==> r.delegate.None? && !HasRegistration(r.queue))
  }

  ghost predicate Live(r: Replica) {
    && IndexesOrdered(r) && LogStored(r)
    && QueueSound(r) && ResultsSound(r) && PendingSound(r) && WorkerSound(r)
  }

  ghost predicate Inv(r: Replica) {
    Fresh(r) || Live(r)
  }

  // ---- queue lemmas

  lemma {:induction false} PendingConcat(a: seq<Job>, b: seq<Job>)
    ensures Pending(a + b) == Pending(a) + Pending(b)
  {
    if a == [] {
      assert a + b == b;
    } else {
      assert (a + b)[1..] == a[1..] + b;
      PendingConcat(a[1..], b);
      var head := if a[0].ApplyEntry? then [a[0].entry] else [];
      assert Pending(a) == head + Pending(a[1..]) && Pending(a + b) == head + Pending(a[1..] + b);
      assert head + (Pending(a[1..]) + Pending(b)) == head + Pending(a[1..]) + Pending(b);
    }
  }

  lemma {:induction false} PendingJobs(es: seq<Entry>)
    ensures Pending(Jobs(es)) == es && !HasRegistration(Jobs(es)) && SnapshotJob !in Jobs(es)
  {
    if es == [] {
    } else {
      assert Jobs(es)[1..] == Jobs(es[1..]);
      PendingJobs(es[1..]);
    }
  }

  lemma {:induction false} HasRegistrationConcat(a: seq<Job>, b: seq<Job>)
    ensures HasRegistration(a + b) == (HasRegistration(a) || HasRegistration(b))
  {
    if a == [] {
      assert a + b == b;
    } else {
      assert (a + b)[1..] == a[1..] + b;
      HasRegistrationConcat(a[1..], b);
    }
  }

  /** A queue without a registration has no snapshot either. */
  lemma {:induction false} SnapshotNeedsRegistration(q: seq<Job>, a: ApplyState)
    requires QueueShape(q, a) && SnapshotJob in q
    ensures HasRegistration(q)
  {
    if !q[0].SnapshotJob? {
      SnapshotNeedsRegistration(q[1..], a);
    }
  }

  lemma {:induction false} ShapeWithoutRegistration(q: seq<Job>, a: ApplyState, b: ApplyState)
    requires QueueShape(q, a) && !HasRegistration(q)
    ensures QueueShape(q, b)
  {
    if q == [] {
    } else {
      ShapeWithoutRegistration(q[1..], a, b);
    }
  }

  /** Jobs other than snapshots and registrations may be added at the end. */
  lemma {:induction false} ShapeAppend(q: seq<Job>, tail: seq<Job>, a: ApplyState)
    requires QueueShape(q, a) && forall i :: 0 <= i < |tail| ==> tail[i].ApplyEntry? || tail[i].GCJob?
    ensures QueueShape(q + tail, a)
    ensures HasRegistration(q + tail) == HasRegistration(q)
    decreases |q| + |tail|
  {
    if q != [] {
      assert (q + tail)[1..] == q[1..] + tail;
      ShapeAppend(q[1..], tail, a);
    } else if tail != [] {
      assert (q + tail)[1..] == tail[1..];
      ShapeAppend([], tail[1..], a);
      assert [] + tail[1..] == tail[1..];
    }
  }

  /** With no entry queued, a snapshot and its registration may be added. */
  lemma {:induction false} ShapeSnapshot(q: seq<Job>, a: ApplyState, b: ApplyState)
    requires QueueShape(q, a) && Pending(q) == []
    ensures QueueShape(q + [SnapshotJob, Registration(b)], b)
    ensures HasRegistration(q + [SnapshotJob, Registration(b)])
    ensures Pending(q + [SnapshotJob, Registration(b)]) == []
  {
    var tail := [SnapshotJob, Registration(b)];
    if q == [] {
      assert q + tail == tail && tail[1..] == [Registration(b)] && tail[1..][1..] == [];
      assert QueueShape(tail[1..], b);
      assert Pending(tail) == Pending(tail[1..]) == Pending(tail[1..][1..]);
    } else {
      assert (q + tail)[1..] == q[1..] + tail;
      ShapeSnapshot(q[1..], a, b);
    }
  }

  // ---- result lemmas

  lemma {:induction false} ChainAppend(p: ApplyState, results: seq<ApplyResult>, res: ApplyResult)
    requires ResultChain(p, results) && Follows(LastState(p, results), res)
    ensures ResultChain(p, results + [res])
    ensures LastState(p, results + [res]) == res.apply
    decreases results
  {
    if results == [] {
      assert results + [res] == [res];
    } else {
      assert (results + [res])[1..] == results[1..] + [res];
      ChainAppend(results[0].apply, results[1..], res);
    }
  }

  /** Along a chain the applied index counts the results and the truncated index never falls. */
  lemma {:induction false} ChainLast(p: ApplyState, results: seq<ApplyResult>)
    requires ResultChain(p, results) && p.truncated.index <= p.applied
    ensures LastState(p, results).applied == p.applied + |results|
    ensures p.truncated.index <= LastState(p, results).truncated.index <= LastState(p, results).applied
    ensures LastState(p, results).truncated == p.truncated ||
            exists i :: 0 <= i < |results| && LastState(p, results).truncated == results[i].apply.truncated
    decreases results
  {
    if results == [] {
    } else {
      ChainLast(results[0].apply, results[1..]);
      if LastState(p, results).truncated == results[0].apply.truncated {
      } else {
        var i :| 0 <= i < |results[1..]| && LastState(p, results).truncated == results[1..][i].apply.truncated;
        assert results[i + 1] == results[1..][i];
      }
    }
  }

  lemma {:induction false} ChainTruncated(p: ApplyState, results: seq<ApplyResult>, i: nat)
    requires ResultChain(p, results) && p.truncated.index <= p.applied && i < |results|
    ensures p.truncated.index <= results[i].apply.truncated.index <= results[i].apply.applied == p.applied + 1 + i
    decreases results
  {
    if i == 0 {
    } else {
      ChainTruncated(results[0].apply, results[1..], i - 1);
      assert results[1..][i - 1] == results[i];
    }
  }

  // ---- log lemmas

  /** Moving the truncated state up to one that agrees with the log keeps the window and every term in it. */
  lemma WindowCompacted(log: Log, tr: Truncated, to: Truncated, lastIndex: nat)
    requires Window(log, tr, lastIndex)
    requires tr.index <= to.index <= lastIndex && TermAt(log, tr, to.index) == to.term
    ensures Window(log, to, lastIndex)
    ensures forall i :: to.index <= i ==> TermAt(log, to, i) == TermAt(log, tr, i)
  {
    forall i | to.index <= i ensures TermAt(log, to, i) == TermAt(log, tr, i) {}
  }

  /** Collecting indexes up to the truncated one does not touch the window. */
  lemma WindowCollected(log: Log, tr: Truncated, lastIndex: nat, start: nat, end: nat)
    requires Window(log, tr, lastIndex) && end <= tr.index + 1
    ensures Window(DropRange(log, start, end), tr, lastIndex)
    ensures forall i :: tr.index <= i ==> TermAt(DropRange(log, start, end), tr, i) == TermAt(log, tr, i)
  {
    var after := DropRange(log, start, end);
    forall i | tr.index <= i ensures TermAt(after, tr, i) == TermAt(log, tr, i) {}
  }

  /** Content of the log after an append that starts above `low`. */
  lemma AppendedEntries(log: Log, es: seq<Entry>, prevLast: nat, i: nat)
    requires Contiguous(es) && es != []
    requires forall i :: i in log ==> i <= prevLast
    ensures i in Appended(log, es, prevLast) <==> es[0].index <= i <= Last(es).index || (i < es[0].index && i in log)
    ensures i in Appended(log, es, prevLast) ==>
              Appended(log, es, prevLast)[i] == if es[0].index <= i then es[i - es[0].index] else log[i]
  {
    PutAllEntries(log, es, i);
  }

  lemma WindowAppended(log: Log, tr: Truncated, lastIndex: nat, es: seq<Entry>)
    requires Window(log, tr, lastIndex) && Contiguous(es) && es != []
    requires tr.index < es[0].index <= lastIndex + 1
    requires TermAt(log, tr, es[0].index - 1) <= es[0].term
    requires forall k :: 0 <= k < |es| ==> es[k].size > 0 && es[k].term > 0
    requires forall j, k :: 0 <= j <= k < |es| ==> es[j].term <= es[k].term
    ensures Window(Appended(log, es, lastIndex), tr, Last(es).index)
    ensures forall i :: tr.index <= i < es[0].index ==> TermAt(Appended(log, es, lastIndex), tr, i) == TermAt(log, tr, i)
    ensures TermAt(Appended(log, es, lastIndex), tr, Last(es).index) == Last(es).term
  {
    var after := Appended(log, es, lastIndex);
    forall i ensures i in after <==> es[0].index <= i <= Last(es).index || (i < es[0].index && i in log)
      ensures i in after ==> after[i] == if es[0].index <= i then es[i - es[0].index] else log[i]
    {
      if i >= 0 { AppendedEntries(log, es, lastIndex, i); }
    }
    forall i, j | tr.index <= i <= j <= Last(es).index ensures TermAt(after, tr, i) <= TermAt(after, tr, j) {
      if i < es[0].index <= j {
        assert TermAt(log, tr, i) <= TermAt(log, tr, es[0].index - 1);
        assert es[0].term <= es[j - es[0].index].term;
      } else if es[0].index <= i {
        assert es[i - es[0].index].term <= es[j - es[0].index].term;
      } else {
        assert TermAt(log, tr, i) <= TermAt(log, tr, j);
      }
    }
  }

  /** The state the worker reaches after all posted results agrees with the log as the event loop sees it. */
  lemma WorkerStateAgrees(r: Replica)
    requires Live(r)
    ensures var w := LastState(r.apply, r.results);
            && w.applied == r.apply.applied + |r.results|
            && r.apply.truncated.index <= w.truncated.index <= w.applied
            && TermAt(r.disk.log, r.apply.truncated, w.truncated.index) == w.truncated.term
  {
    ChainLast(r.apply, r.results);
    var w := LastState(r.apply, r.results);
    if w.truncated != r.apply.truncated {
      var i :| 0 <= i < |r.results| && w.truncated == r.results[i].apply.truncated;
    }
  }

  // ---- event-loop steps

  /** A handled snapshot finds the worker idle: nothing applied is unreported, nothing is queued. */
  lemma SnapshotFindsWorkerIdle(r: Replica)
    requires Live(r) && ApplyComplete(r)
    ensures r.results == [] && Pending(r.queue) == [] && r.lastReady == r.apply.applied
  {
  }

  /** Clearing the metadata loses nothing: both state records change with a snapshot, so both are rewritten. */
  lemma SnapshotStored(r: Replica, rd: Ready)
    requires Enabled(r, ReadyEvent(rd)) && !Skipped(r, rd) && rd.snap.Some?
    ensures LogStored(HandleReady(r, rd))
    ensures HandleReady(r, rd).disk.apply == Some(NewApply(r, rd))
    ensures HandleReady(r, rd).disk.peer == Some(Applying)
  {
    var snap := rd.snap.value;
    assert Window(map[], snap, snap.index);
    if rd.entries != [] {
      WindowAppended(map[], snap, snap.index, rd.entries);
    }
    assert NewLocal(r, rd).hard.commit >= snap.index > r.local.hard.commit;
  }

  lemma ReadySnapshot(r: Replica, rd: Ready)
    requires Inv(r) && Enabled(r, ReadyEvent(rd)) && !Skipped(r, rd) && rd.snap.Some?
    ensures Live(HandleReady(r, rd))
  {
    var r' := HandleReady(r, rd);
    if Live(r) { SnapshotFindsWorkerIdle(r); }
    ShapeSnapshot(r.queue, r.apply, r'.apply);
    SnapshotStored(r, rd);
    assert QueueSound(r');
    assert ResultsSound(r') && PendingSound(r');
    assert WorkerSound(r') && IndexesOrdered(r');
  }

  /** The append half of a ready without a snapshot. */
  function SavedReady(r: Replica, rd: Ready): Replica {
    r.(disk := NewDisk(r, rd), local := NewLocal(r, rd), apply := NewApply(r, rd), lastTerm := NewLastTerm(r, rd))
  }

  lemma AppendStored(r: Replica, rd: Ready)
    requires IndexesOrdered(r) && LogStored(r) && Enabled(r, ReadyEvent(rd)) && rd.snap.None?
    ensures LogStored(SavedReady(r, rd)) && IndexesOrdered(SavedReady(r, rd))
    ensures forall i :: r.apply.truncated.index <= i <= r.local.hard.commit ==>
              TermAt(SavedReady(r, rd).disk.log, r.apply.truncated, i) == TermAt(r.disk.log, r.apply.truncated, i)
  {
    if rd.entries != [] {
      WindowAppended(r.disk.log, r.apply.truncated, r.local.lastIndex, rd.entries);
    }
  }

  lemma ReadyAppend(r: Replica, rd: Ready)
    requires Live(r) && Enabled(r, ReadyEvent(rd)) && rd.snap.None?
    ensures Live(SavedReady(r, rd))
  {
    AppendStored(r, rd);
    CommittedPartUnchanged(r, SavedReady(r, rd));
  }

  /** Results and queued entries only mention committed indexes, whose terms an append leaves alone. */
  lemma CommittedPartUnchanged(r: Replica, r': Replica)
    requires Live(r) && LogStored(r') && IndexesOrdered(r')
    requires r' == r.(disk := r.disk.(log := r'.disk.log, local := r'.disk.local), local := r'.local, lastTerm := r'.lastTerm)
    requires forall i :: r.apply.truncated.index <= i <= r.local.hard.commit ==>
              TermAt(r'.disk.log, r.apply.truncated, i) == TermAt(r.disk.log, r.apply.truncated, i)
    ensures Live(r')
  {
    forall i | 0 <= i < |r.results|
      ensures TermAt(r'.disk.log, r.apply.truncated, r.results[i].apply.truncated.index) == r.results[i].apply.truncated.term
    {
      ChainTruncated(r.apply, r.results, i);
    }
    assert ResultsSound(r') && PendingSound(r');
    assert QueueSound(r') && WorkerSound(r');
  }

  /** Handing committed entries to the worker. */
  lemma ReadyCommitted(r: Replica, committed: seq<Entry>, hint: nat)
    requires Live(r) && r.delegate.Some? && committed != [] && Contiguous(committed)
    requires committed[0].index == r.lastReady + 1 && Last(committed).index <= r.local.hard.commit
    requires forall k :: 0 <= k < |committed| ==>
               committed[k].term > 0 && CompactTermAgrees(r.disk.log, r.apply.truncated, committed[k])
    ensures Live(r.(hint := hint, lastReady := Last(committed).index, queue := r.queue + Jobs(committed)))
  {
    var r' := r.(hint := hint, lastReady := Last(committed).index, queue := r.queue + Jobs(committed));
    PendingConcat(r.queue, Jobs(committed));
    PendingJobs(committed);
    ShapeAppend(r.queue, Jobs(committed), r.apply);
    assert Pending(r'.queue) == Pending(r.queue) + committed;
  }

  lemma ReadyPreserves(r: Replica, rd: Ready)
    requires Inv(r) && Enabled(r, ReadyEvent(rd))
    ensures Inv(HandleReady(r, rd))
  {
    if !Skipped(r, rd) {
      if rd.snap.Some? {
        ReadySnapshot(r, rd);
      } else if Live(r) {
        ReadyOnLive(r, rd);
      } else {
        assert Fresh(r) && rd.entries == [];
      }
    }
  }

  lemma ReadyOnLive(r: Replica, rd: Ready)
    requires Live(r) && Enabled(r, ReadyEvent(rd)) && !Skipped(r, rd) && rd.snap.None?
    ensures Inv(HandleReady(r, rd))
  {
    ReadyAppend(r, rd);
    if r.delegate.Some? && rd.committed != [] {
      ReadyCommitted(SavedReady(r, rd), rd.committed, r.hint + DataSize(rd.committed));
    }
  }

  /** The next result follows the event loop's state; no snapshot is being applied. */
  lemma PollState(r: Replica)
    requires Live(r) && r.results != []
    ensures !ApplyingSnapshot(r) && !HasRegistration(r.queue)
    ensures Follows(r.apply, r.results[0])
    ensures r.apply.truncated.index <= r.results[0].apply.truncated.index <= r.apply.applied < r.lastReady
  {
    if ApplyingSnapshot(r) { SnapshotNeedsRegistration(r.queue, r.apply); }
  }

  /** Adopting the next result keeps the invariant. */
  lemma PollAdopts(r: Replica)
    requires Live(r) && r.results != []
    ensures Live(r.(apply := r.results[0].apply, results := r.results[1..]))
  {
    PollState(r);
    var r' := r.(apply := r.results[0].apply, results := r.results[1..]);
    var log, tr, to := r.disk.log, r.apply.truncated, r'.apply.truncated;
    WindowCompacted(log, tr, to, r.local.lastIndex);
    ShapeWithoutRegistration(r.queue, r.apply, r'.apply);
    forall i | 0 <= i < |r'.results|
      ensures TermAt(log, to, r'.results[i].apply.truncated.index) == r'.results[i].apply.truncated.term
    {
      ChainTruncated(r'.apply, r'.results, i);
      assert r'.results[i] == r.results[i + 1];
    }
    assert ResultsSound(r') && PendingSound(r') && QueueSound(r');
    assert IndexesOrdered(r') && LogStored(r') && WorkerSound(r');
  }

  lemma QueueCollection(r: Replica, hint: nat, lastCompact: nat, start: nat, end: nat)
    requires Live(r) && !HasRegistration(r.queue) && end <= r.apply.truncated.index + 1
    ensures Live(r.(hint := hint, lastCompact := lastCompact, queue := r.queue + [GCJob(start, end)]))
  {
    var tail := [GCJob(start, end)];
    ShapeAppend(r.queue, tail, r.apply);
    PendingConcat(r.queue, tail);
    assert Pending(tail) == [] by { assert tail[1..] == []; }
    assert Pending(r.queue + tail) == Pending(r.queue);
  }

  /** Neither abort nor arithmetic accident: the divisor is positive, nothing underflows, and the hint does not grow. */
  lemma PollPreserves(r: Replica)
    requires Live(r) && r.results != []
    ensures PollApply(r).Next? && Live(PollApply(r).replica)
    ensures PollApply(r).replica.hint <= r.hint
  {
    PollState(r);
    PollAdopts(r);
    var res := r.results[0];
    if res.gc.Some? {
      var r1 := r.(apply := res.apply, results := r.results[1..]);
      var total, remain := r.lastReady - res.gc.value.firstIndex, r.lastReady - res.gc.value.state.index - 1;
      assert 0 <= remain < total;
      ScaledDown(r.hint, remain, total);
      QueueCollection(r1, r.hint * remain / total, res.gc.value.state.index + 1, r.lastCompact, res.gc.value.state.index + 1);
    }
  }

  lemma ScaledDown(n: nat, a: nat, b: nat)
    requires a < b
    ensures 0 <= n * a / b <= n
  {
    assert n * a <= n * b;
    assert n * b / b == n;
  }

  // ---- apply-worker steps

  lemma PopHead(q: seq<Job>)
    requires q != []
    ensures Pending(q) == if q[0].ApplyEntry? then [q[0].entry] + Pending(q[1..]) else Pending(q[1..])
    ensures HasRegistration(q) == (q[0].Registration? || HasRegistration(q[1..]))
  {
    assert [] + Pending(q[1..]) == Pending(q[1..]);
  }

  lemma WorkSnapshotOrRegistration(r: Replica, applied: bool)
    requires Live(r) && r.queue != [] && (r.queue[0].SnapshotJob? || r.queue[0].Registration?)
    ensures RunJob(r, applied).Next? && Live(RunJob(r, applied).replica)
  {
    PopHead(r.queue);
    var r' := RunJob(r, applied).replica;
    assert QueueSound(r') && LogStored(r') && PendingSound(r');
  }

  lemma WorkCollect(r: Replica, applied: bool)
    requires Live(r) && r.queue != [] && r.queue[0].GCJob?
    ensures RunJob(r, applied).Next? && Live(RunJob(r, applied).replica)
  {
    PopHead(r.queue);
    var popped := r.(queue := r.queue[1..]);
    assert Live(popped);
    WindowCollected(r.disk.log, r.apply.truncated, r.local.lastIndex, r.queue[0].start, r.queue[0].end);
    CommittedPartUnchanged(popped, RunJob(r, applied).replica);
  }

  /** The next queued entry is the one the delegate expects. */
  lemma NextEntryIsExpected(r: Replica)
    requires Live(r) && r.queue != [] && r.queue[0].ApplyEntry? && r.delegate.Some?
    ensures r.queue[0].entry.index == r.delegate.value.applied + 1
    ensures r.queue[0].entry.term > 0
    ensures r.delegate.value == LastState(r.apply, r.results) && !Removed(r) && !HasRegistration(r.queue)
  {
    PopHead(r.queue);
    ChainLast(r.apply, r.results);
    assert Pending(r.queue)[0] == r.queue[0].entry;
  }

  /** What applying one entry posts continues the chain of results and agrees with the log. */
  lemma PostedResult(r: Replica, e: Entry)
    requires Live(r) && r.queue != [] && r.queue[0] == ApplyEntry(e) && r.delegate.Some?
    ensures var d := r.delegate.value;
            var (d1, gc) := if e.cmd.CompactLog? then ExecCompact(d, e.cmd.index, e.cmd.term) else (d, None);
            var res := ApplyResult(d1.(applied := e.index), gc);
            && ResultChain(r.apply, r.results + [res]) && LastState(r.apply, r.results + [res]) == res.apply
            && ResultsAgree(r.disk.log, r.apply.truncated, r.results + [res])
  {
    NextEntryIsExpected(r);
    WorkerStateAgrees(r);
    PopHead(r.queue);
    var d := r.delegate.value;
    var (d1, gc) := if e.cmd.CompactLog? then ExecCompact(d, e.cmd.index, e.cmd.term) else (d, None);
    var res := ApplyResult(d1.(applied := e.index), gc);
    assert Follows(d, res);
    ChainAppend(r.apply, r.results, res);
    assert CompactTermAgrees(r.disk.log, r.apply.truncated, Pending(r.queue)[0]);
  }

  /** Dropping the first queued entry leaves the others in place. */
  lemma PendingTail(r: Replica, r': Replica)
    requires PendingSound(r) && r.queue != [] && r.queue[0].ApplyEntry?
    requires r'.queue == r.queue[1..] && r'.lastReady == r.lastReady
    requires r'.disk.log == r.disk.log && r'.apply == r.apply
    ensures PendingSound(r') && |Pending(r'.queue)| == |Pending(r.queue)| - 1
  {
    PopHead(r.queue);
    assert forall k :: 0 <= k < |Pending(r'.queue)| ==> Pending(r'.queue)[k] == Pending(r.queue)[k + 1];
  }

  lemma WorkEntry(r: Replica, applied: bool)
    requires Live(r) && r.queue != [] && r.queue[0].ApplyEntry?
    ensures RunJob(r, applied).Next? && Live(RunJob(r, applied).replica)
  {
    if r.delegate.Some? {
      NextEntryIsExpected(r);
      PostedResult(r, r.queue[0].entry);
      PendingTail(r, RunJob(r, applied).replica);
      EntryApplied(r, RunJob(r, applied).replica, applied);
    } else {
      EntrySkipped(r, RunJob(r, applied).replica);
    }
  }

  /** Without a delegate the entry is dropped. */
  lemma EntrySkipped(r: Replica, r': Replica)
    requires Live(r) && r.queue != [] && r.queue[0].ApplyEntry? && r.delegate.None? && r' == r.(queue := r.queue[1..])
    ensures Live(r')
  {
    PopHead(r.queue);
    PendingTail(r, r');
  }

  /** The remaining parts of the invariant after an entry was applied. */
  lemma EntryApplied(r: Replica, r': Replica, applied: bool)
    requires Live(r) && r.queue != [] && r.queue[0].ApplyEntry? && r.delegate.Some? && !Removed(r) && !HasRegistration(r.queue)
    requires RunJob(r, applied) == Next(r')
    requires PendingSound(r') && |Pending(r'.queue)| == |Pending(r.queue)| - 1 && ResultsSound(r')
    requires LastState(r'.apply, r'.results) == r'.results[|r'.results| - 1].apply
    ensures Live(r')
  {
    PopHead(r.queue);
    assert |r'.results| == |r.results| + 1;
    assert LogStored(r') && QueueSound(r');
  }

  lemma WorkPreserves(r: Replica, applied: bool)
    requires Live(r) && r.queue != []
    ensures RunJob(r, applied).Next? && Live(RunJob(r, applied).replica)
  {
    match r.queue[0]
    case SnapshotJob => WorkSnapshotOrRegistration(r, applied);
    case Registration(_) => WorkSnapshotOrRegistration(r, applied);
    case ApplyEntry(_) => WorkEntry(r, applied);
    case GCJob(_, _) => WorkCollect(r, applied);
  }

  // ---- crashes

  /** A restart reloads the last persisted hard state, last index and apply state, derives the same last
      term, and finds the whole window. */
  lemma RestartRecovers(r: Replica)
    requires Live(r) && !Removed(r)
    ensures Restart(r.disk).Next?
    ensures var r' := Restart(r.disk).replica;
            && r'.local == r.local && r'.lastTerm == r.lastTerm
            && Some(r'.apply) == r.disk.apply
            && r.apply.truncated.index <= r'.apply.truncated.index
            && r.apply.applied <= r'.apply.applied <= r.lastReady
            && Window(r'.disk.log, r'.apply.truncated, r'.local.lastIndex)
            && r'.lastTerm == TermAt(r'.disk.log, r'.apply.truncated, r'.local.lastIndex)
  {
    WorkerStateAgrees(r);
    WindowCompacted(r.disk.log, r.apply.truncated, LastState(r.apply, r.results).truncated, r.local.lastIndex);
  }

  lemma CrashPreserves(r: Replica)
    requires Live(r) && !Removed(r)
    ensures Restart(r.disk).Next? && Live(Restart(r.disk).replica)
  {
    WorkerStateAgrees(r);
    RestartRecovers(r);
    var r' := Restart(r.disk).replica;
    var reg := [Registration(r'.apply)];
    PopHead(reg);
    PopHead([SnapshotJob] + reg);
    assert reg[1..] == [] && QueueShape(reg, r'.apply) && Pending(reg) == [];
    assert ([SnapshotJob] + reg)[1..] == reg && [] + reg == reg;
    assert QueueSound(r') && Pending(r'.queue) == [];
    assert LogStored(r') && IndexesOrdered(r') && WorkerSound(r');
  }

  // ---- every run

  /** `writeInitialState` and `mustSaveShards`. */
  const INITIAL_DISK: Disk := Disk(
    map[], Some(LocalState(INIT_INDEX, HardState(INIT_TERM, 0, INIT_INDEX))),
    Some(ApplyState(INIT_INDEX, Truncated(INIT_INDEX, INIT_TERM))), Some(Normal))

  /** A replica starts on freshly written initial state, or bare, created by a raft message. */
  ghost predicate Initial(r: Replica) {
    Fresh(r) || Restart(INITIAL_DISK) == Next(r)
  }

  lemma InitialLive(r: Replica)
    requires Initial(r)
    ensures Inv(r)
  {
    if !Fresh(r) {
      var reg := [Registration(r.apply)];
      PopHead(reg);
      assert reg[1..] == [] && QueueShape(reg, r.apply) && Pending(reg) == [];
      assert [] + reg == reg;
      assert QueueSound(r) && LogStored(r);
    }
  }

  lemma StepPreserves(r: Replica, ev: Event)
    requires Inv(r) && Enabled(r, ev)
    ensures Step(r, ev).Next? && Inv(Step(r, ev).replica)
  {
    match ev
    case ReadyEvent(rd) => ReadyPreserves(r, rd);
    case Poll => PollPreserves(r);
    case Work(applied) => WorkPreserves(r, applied);
    case Crash => CrashPreserves(r);
  }

  /** Every step of the run was enabled when it was taken. */
  ghost predicate Admissible(r: Replica, evs: seq<Event>)
    decreases evs
  {
    evs == [] || (Enabled(r, evs[0]) && (Step(r, evs[0]).Next? ==> Admissible(Step(r, evs[0]).replica, evs[1..])))
  }

  ghost function Run(r: Replica, evs: seq<Event>): Outcome
    requires Admissible(r, evs)
    decreases evs
  {
    if evs == [] then Next(r)
    else
      var o := Step(r, evs[0]);
      if o.Fatal? then o else Run(o.replica, evs[1..])
  }

  /** No interleaving of readies, polls, worker steps and crashes reaches an abort. */
  lemma {:induction false} RunsNeverAbort(r: Replica, evs: seq<Event>)
    requires Inv(r) && Admissible(r, evs)
    ensures Run(r, evs).Next? && Inv(Run(r, evs).replica)
    decreases evs
  {
    if evs == [] {
    } else {
      StepPreserves(r, evs[0]);
      RunsNeverAbort(Step(r, evs[0]).replica, evs[1..]);
    }
  }

  /** At every point of every run `lastReadyIndex` is the applied index of the delegate, registered or about
      to be, plus the number of entries still queued. */
  lemma ReadyIndexIsAppliedPlusQueued(r0: Replica, evs: seq<Event>)
    requires Initial(r0) && Admissible(r0, evs)
    ensures Run(r0, evs).Next?
    ensures var r := Run(r0, evs).replica;
            Live(r) && !Removed(r) ==>
              if HasRegistration(r.queue) then r.results == [] && r.lastReady == r.apply.applied + |Pending(r.queue)|
              else r.delegate.Some? && r.lastReady == r.delegate.value.applied + |Pending(r.queue)|
  {
    InitialLive(r0);
    RunsNeverAbort(r0, evs);
    var r := Run(r0, evs).replica;
    if Live(r) { WorkerStateAgrees(r); }
  }
}
