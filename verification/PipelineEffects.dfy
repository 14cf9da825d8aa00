/** What the steps of the pipeline must do, told from the events: keep the hard state raft asked for, apply the snapshot
    that is owed, take up the entries handed out. */
module PipelineEffects {
  import opened RaftLog
  import opened Pipeline
  import opened PipelineInvariant
  import opened Options

  /** A ready waits while a snapshot is being applied; one with a snapshot also until everything committed is applied
      and the file is here. */
  predicate Deferred(r: Replica, rd: Ready) {
    || SnapshotJob in r.queue
    || (rd.snap.Some? && (r.local.hard.commit != r.apply.applied || !rd.arrived))
  }

  // ---- term, vote and commit

  /** The hard state asked for so far, which a replica that has no log at all does not keep. */
  function AskedHard(r: Replica, ev: Event, hard: HardState): HardState {
    if && ev.ReadyEvent? && !Deferred(r, ev.ready) && ev.ready.hard.Some?
       && (r.local.lastIndex > 0 || ev.ready.snap.Some? || ev.ready.entries != [])
    then ev.ready.hard.value
    else hard
  }

  ghost function LastHard(r: Replica, evs: seq<Event>, hard: HardState): HardState
    requires Admissible(r, evs)
    decreases evs
  {
    if evs == [] || Step(r, evs[0]).Fatal? then hard
    else LastHard(Step(r, evs[0]).replica, evs[1..], AskedHard(r, evs[0], hard))
  }

  lemma StepKeepsHard(r: Replica, ev: Event)
    requires Inv(r) && Enabled(r, ev) && Step(r, ev).Next?
    ensures Step(r, ev).replica.local.hard == AskedHard(r, ev, r.local.hard)
  {
    match ev
    case ReadyEvent(rd) => ReadyKeepsHard(r, rd);
    case Poll =>
    case Work(_) =>
    case Crash => assert Live(r);
  }

  lemma ReadyKeepsHard(r: Replica, rd: Ready)
    requires SnapshotContract(r, rd) && EntriesContract(r, rd)
    ensures HandleReady(r, rd).local.hard == AskedHard(r, ReadyEvent(rd), r.local.hard)
  {
    if rd.entries != [] { assert Last(rd.entries).index > 0; }
  }

  /** At every point of every run the replica has, in memory and for a restart, the term, vote and commit index that
      raft last asked it to keep. */
  lemma {:induction false} HardStateIsKept(r: Replica, evs: seq<Event>)
    requires Inv(r) && Admissible(r, evs)
    ensures Run(r, evs).Next?
    ensures Run(r, evs).replica.local.hard == LastHard(r, evs, r.local.hard)
    ensures Live(Run(r, evs).replica) && !Removed(Run(r, evs).replica) ==>
              && Restart(Run(r, evs).replica.disk).Next?
              && Restart(Run(r, evs).replica.disk).replica.local.hard == LastHard(r, evs, r.local.hard)
    decreases evs
  {
    if evs == [] {
      if Live(r) && !Removed(r) { RestartRecovers(r); }
    } else {
      StepPreserves(r, evs[0]);
      StepKeepsHard(r, evs[0]);
      HardStateIsKept(Step(r, evs[0]).replica, evs[1..]);
    }
  }

  // ---- the snapshot that is still to be applied

  /** A stored snapshot is owed until a job has applied its data. */
  function SnapshotOwed(r: Replica, ev: Event, owed: bool): bool
    requires ev.Work? ==> r.queue != []
  {
    match ev
    case ReadyEvent(rd) => owed || (!Deferred(r, rd) && rd.snap.Some?)
    case Work(applied) => owed && !(r.queue[0].SnapshotJob? && applied)
    case _ => owed
  }

  ghost function OwedAfter(r: Replica, evs: seq<Event>, owed: bool): bool
    requires Admissible(r, evs)
    decreases evs
  {
    if evs == [] || Step(r, evs[0]).Fatal? then owed
    else OwedAfter(Step(r, evs[0]).replica, evs[1..], SnapshotOwed(r, evs[0], owed))
  }

  /** The stored peer state says whether a snapshot is owed. */
  ghost predicate OwedOnDisk(r: Replica, owed: bool) {
    !Removed(r) ==> (r.disk.peer == Some(Applying) <==> owed)
  }

  lemma StepKeepsOwed(r: Replica, ev: Event, owed: bool)
    requires Inv(r) && Enabled(r, ev) && Step(r, ev).Next? && OwedOnDisk(r, owed)
    ensures OwedOnDisk(Step(r, ev).replica, SnapshotOwed(r, ev, owed))
  {
    match ev
    case ReadyEvent(rd) => ReadyKeepsOwed(r, rd, owed);
    case Poll =>
    case Work(applied) => WorkKeepsOwed(r, applied, owed);
    case Crash =>
  }

  lemma ReadyKeepsOwed(r: Replica, rd: Ready, owed: bool)
    requires OwedOnDisk(r, owed)
    ensures OwedOnDisk(HandleReady(r, rd), SnapshotOwed(r, ReadyEvent(rd), owed))
  {
  }

  lemma WorkKeepsOwed(r: Replica, applied: bool, owed: bool)
    requires r.queue != [] && RunJob(r, applied).Next? && OwedOnDisk(r, owed)
    requires Removed(r) ==> r.delegate.None? && !r.queue[0].SnapshotJob?
    ensures OwedOnDisk(RunJob(r, applied).replica, SnapshotOwed(r, Work(applied), owed))
  {
  }

  /** At every point of every run a restart applies the last snapshot again if and only if no job has applied it. */
  lemma {:induction false} SnapshotIsRetried(r: Replica, evs: seq<Event>, owed: bool)
    requires Inv(r) && Admissible(r, evs) && OwedOnDisk(r, owed)
    ensures Run(r, evs).Next? && OwedOnDisk(Run(r, evs).replica, OwedAfter(r, evs, owed))
    ensures Live(Run(r, evs).replica) && !Removed(Run(r, evs).replica) ==>
              && Restart(Run(r, evs).replica.disk).Next?
              && (SnapshotJob in Restart(Run(r, evs).replica.disk).replica.queue <==> OwedAfter(r, evs, owed))
    decreases evs
  {
    if evs == [] {
      if Live(r) && !Removed(r) { RestartRecovers(r); }
    } else {
      StepPreserves(r, evs[0]);
      StepKeepsOwed(r, evs[0], owed);
      SnapshotIsRetried(Step(r, evs[0]).replica, evs[1..], SnapshotOwed(r, evs[0], owed));
    }
  }

  // ---- the entries handed out

  function HandedOut(r: Replica, ev: Event): seq<Entry> {
    if ev.ReadyEvent? && !Deferred(r, ev.ready) && ev.ready.snap.None? && r.delegate.Some? then ev.ready.committed else []
  }

  function TakenUp(r: Replica, ev: Event): seq<Entry>
    requires ev.Work? ==> r.queue != []
  {
    if ev.Work? && r.queue[0].ApplyEntry? then [r.queue[0].entry] else []
  }

  ghost function AllHandedOut(r: Replica, evs: seq<Event>): seq<Entry>
    requires Admissible(r, evs)
    decreases evs
  {
    if evs == [] || Step(r, evs[0]).Fatal? then []
    else HandedOut(r, evs[0]) + AllHandedOut(Step(r, evs[0]).replica, evs[1..])
  }

  ghost function AllTakenUp(r: Replica, evs: seq<Event>): seq<Entry>
    requires Admissible(r, evs)
    decreases evs
  {
    if evs == [] || Step(r, evs[0]).Fatal? then []
    else TakenUp(r, evs[0]) + AllTakenUp(Step(r, evs[0]).replica, evs[1..])
  }

  lemma ReadyConserves(r: Replica, rd: Ready)
    ensures Pending(HandleReady(r, rd).queue) == Pending(r.queue) + HandedOut(r, ReadyEvent(rd))
  {
    var q := r.queue;
    if !Deferred(r, rd) && rd.snap.Some? {
      var tail := [SnapshotJob, Registration(NewApply(r, rd))];
      PendingConcat(q, tail);
      PopHead(tail);
      PopHead(tail[1..]);
      assert HandleReady(r, rd).queue == q + tail && Pending(q) + [] == Pending(q);
    } else if !Deferred(r, rd) && r.delegate.Some? {
      PendingConcat(q, Jobs(rd.committed));
      PendingJobs(rd.committed);
      assert rd.committed == [] ==> Pending(q) + rd.committed == Pending(q);
    } else {
      assert Pending(q) + [] == Pending(q);
    }
  }

  lemma PollConserves(r: Replica)
    requires r.results != [] && PollApply(r).Next?
    ensures Pending(PollApply(r).replica.queue) == Pending(r.queue)
  {
    if r.results[0].gc.Some? {
      var tail := [GCJob(r.lastCompact, r.results[0].gc.value.state.index + 1)];
      PendingConcat(r.queue, tail);
      PopHead(tail);
    }
  }

  lemma StepConserves(r: Replica, ev: Event)
    requires Enabled(r, ev) && Step(r, ev).Next? && !ev.Crash?
    ensures Pending(r.queue) + HandedOut(r, ev) == TakenUp(r, ev) + Pending(Step(r, ev).replica.queue)
  {
    match ev
    case ReadyEvent(rd) =>
      ReadyConserves(r, rd);
      assert [] + Pending(HandleReady(r, rd).queue) == Pending(HandleReady(r, rd).queue);
    case Poll =>
      PollConserves(r);
      assert Pending(r.queue) + [] == [] + Pending(r.queue);
    case Work(_) =>
      PopHead(r.queue);
      assert Step(r, ev).replica.queue == r.queue[1..];
      assert Pending(r.queue) + [] == Pending(r.queue) == TakenUp(r, ev) + Pending(r.queue[1..]);
  }

  /** Between crashes the worker takes up exactly the entries handed out, each once and in order. */
  lemma {:induction false} EntriesAreTakenUpInOrder(r: Replica, evs: seq<Event>)
    requires Inv(r) && Admissible(r, evs) && Crash !in evs
    ensures Run(r, evs).Next?
    ensures Pending(r.queue) + AllHandedOut(r, evs) == AllTakenUp(r, evs) + Pending(Run(r, evs).replica.queue)
    decreases evs
  {
    if evs == [] {
    } else {
      StepPreserves(r, evs[0]);
      var r' := Step(r, evs[0]).replica;
      NoCrashInTail(evs);
      StepConserves(r, evs[0]);
      EntriesAreTakenUpInOrder(r', evs[1..]);
      Chained(Pending(r.queue), HandedOut(r, evs[0]), TakenUp(r, evs[0]), Pending(r'.queue),
              AllHandedOut(r', evs[1..]), AllTakenUp(r', evs[1..]), Pending(Run(r', evs[1..]).replica.queue));
    }
  }

  lemma NoCrashInTail(evs: seq<Event>)
    requires evs != [] && Crash !in evs
    ensures !evs[0].Crash? && Crash !in evs[1..]
  {
    assert evs[0] in evs && forall ev :: ev in evs[1..] ==> ev in evs;
  }

  lemma Chained(pending: seq<Entry>, handed: seq<Entry>, up: seq<Entry>, after: seq<Entry>,
                later: seq<Entry>, taken: seq<Entry>, last: seq<Entry>)
    requires pending + handed == up + after && after + later == taken + last
    ensures pending + (handed + later) == (up + taken) + last
  {
    assert pending + (handed + later) == (pending + handed) + later;
    assert (up + after) + later == up + (after + later);
    assert up + (taken + last) == (up + taken) + last;
  }
}
