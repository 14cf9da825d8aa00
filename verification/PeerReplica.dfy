/** The two processes of the pipeline as code that updates the replica in place. Each method is proved to
    perform the corresponding step of `Pipeline`. */
module PeerReplicas {
  import opened RaftLog
  import opened Pipeline
  import opened Options

  class PeerReplica {
    var disk: Disk
    var raftLocalState: LocalState
    var raftApplyState: ApplyState
    var lastTerm: nat
    var lastReadyIndex: nat
    var lastCompactIndex: nat
    var raftLogSizeHint: nat
    var delegate: Option<ApplyState>
    var queue: seq<Job>
    var applyResults: seq<ApplyResult>

    ghost function State(): Replica
      reads this
    {
      Replica(disk, raftLocalState, raftApplyState, lastTerm, lastReadyIndex, lastCompactIndex, raftLogSizeHint,
              delegate, queue, applyResults)
    }

    /** `newPeerStorage` and the jobs queued by `startShards`. */
    constructor (d: Disk)
      requires Restart(d).Next?
      ensures Next(State()) == Restart(d)
    {
      disk := d;
      raftLocalState := RecoveredLocal(d);
      var a := RecoveredApply(d);
      raftApplyState := a;
      var (_, term) := RecoveredTerm(d);
      lastTerm := term;
      lastReadyIndex := a.applied;
      lastCompactIndex, raftLogSizeHint, delegate, applyResults := 0, 0, None, [];
      queue := (if d.peer == Some(Applying) then [SnapshotJob] else []) + [Registration(a)];
    }

    /** `handleRaftReadyAppend`: builds one batch in the context, then writes it. */
    method AppendReady(rd: Ready) returns (local: LocalState, apply: ApplyState, term: nat)
      modifies this`disk
      ensures disk == NewDisk(old(State()), rd)
      ensures local == NewLocal(old(State()), rd) && apply == NewApply(old(State()), rd)
      ensures term == NewLastTerm(old(State()), rd)
    {
      ghost var d0 := disk;
      var wb: seq<Op> := [];
      var hard := raftLocalState.hard;
      local, apply, term := raftLocalState, raftApplyState, lastTerm;

      if rd.snap.Some? {
        wb := ClearMeta(disk);
        WriteBatchConcat(d0, wb, [SetPeer(Applying)]);
        wb := wb + [SetPeer(Applying)];
        var snap := rd.snap.value;
        local := local.(lastIndex := snap.index);
        apply := ApplyState(snap.index, snap);
        term := snap.term;
      }
      ghost var base := WriteBatch(d0, wb);
      if |rd.entries| > 0 {
        var sets := AppendEntries(rd.entries, local.lastIndex, base);
        WriteBatchConcat(d0, wb, sets);
        wb := wb + sets;
        local := local.(lastIndex := Last(rd.entries).index);
        term := Last(rd.entries).term;
      }
      if local.lastIndex > 0 && rd.hard.Some? {
        hard := rd.hard.value;
      }
      if local.lastIndex != raftLocalState.lastIndex || hard != raftLocalState.hard {
        var save := SetLocal(local.(hard := hard));
        WriteBatchConcat(d0, wb, [save]);
        wb := wb + [save];
      }
      local := local.(hard := hard);
      if apply != raftApplyState {
        WriteBatchConcat(d0, wb, [SetApply(apply)]);
        wb := wb + [SetApply(apply)];
      }
      disk := WriteBatch(disk, wb);
    }

    method HandleReady(rd: Ready)
      modifies this
      ensures State() == Pipeline.HandleReady(old(State()), rd)
    {
      if SnapshotJob in queue { return; }
      if rd.snap.Some? && raftLocalState.hard.commit != raftApplyState.applied { return; }
      if rd.snap.Some? && !rd.arrived { return; }

      var local, apply, term := AppendReady(rd);
      raftLocalState, raftApplyState, lastTerm := local, apply, term;
      if rd.snap.Some? {
        raftLogSizeHint := 0;
        queue := queue + [SnapshotJob];
        queue := queue + [Registration(raftApplyState)];
        lastReadyIndex := raftApplyState.truncated.index;
        assert queue == old(queue) + [SnapshotJob, Registration(raftApplyState)];
      } else if delegate.Some? {
        ApplyCommittedEntries(rd.committed);
      }
    }

    /** The queueing half of `applyCommittedEntries`. */
    method ApplyCommittedEntries(committed: seq<Entry>)
      modifies this`raftLogSizeHint, this`lastReadyIndex, this`queue
      ensures raftLogSizeHint == old(raftLogSizeHint) + DataSize(committed)
      ensures lastReadyIndex == if committed == [] then old(lastReadyIndex) else Last(committed).index
      ensures queue == old(queue) + Jobs(committed)
    {
      for n := 0 to |committed|
        invariant raftLogSizeHint == old(raftLogSizeHint) + DataSize(committed[..n])
        invariant queue == old(queue) && lastReadyIndex == old(lastReadyIndex)
      {
        assert committed[..n + 1][..n] == committed[..n];
        raftLogSizeHint := raftLogSizeHint + committed[n].dataSize;
      }
      assert committed[..|committed|] == committed;
      if |committed| > 0 {
        lastReadyIndex := Last(committed).index;
        queue := queue + Jobs(committed);
      }
    }

    /** `doPollApply`. The result is the fault that would abort the process, if any. */
    method PollApply() returns (fault: Option<Fault>)
      requires applyResults != []
      modifies this
      ensures Pipeline.PollApply(old(State())) == if fault.Some? then Fatal(fault.value) else Next(State())
    {
      if SnapshotJob in queue { return Some(PostApplyDuringSnapshot); }
      var result := applyResults[0];
      applyResults := applyResults[1..];
      raftApplyState := result.apply;
      if result.gc.None? { return None; }
      var gc := result.gc.value;
      if lastReadyIndex < gc.firstIndex || lastReadyIndex < gc.state.index + 1 { return Some(HintUnderflow); }
      var total := lastReadyIndex - gc.firstIndex;
      var remain := lastReadyIndex - gc.state.index - 1;
      if total == 0 { return Some(HintDivision); }
      raftLogSizeHint := raftLogSizeHint * remain / total;
      var startIndex := lastCompactIndex;
      var endIndex := gc.state.index + 1;
      lastCompactIndex := endIndex;
      queue := queue + [GCJob(startIndex, endIndex)];
      fault := None;
    }

    /** `doCompactRaftLog`: one batch of deletes; a zero start is replaced by the first stored index, and an
        empty log leaves nothing to do. */
    method CompactRaftLog(startIndex: nat, endIndex: nat)
      modifies this`disk
      ensures disk == old(disk).(log := DropRange(old(disk).log, startIndex, endIndex))
    {
      ghost var d0 := disk;
      var firstIndex := startIndex;
      if firstIndex == 0 {
        firstIndex := FirstStored(disk.log, endIndex);
      }
      assert DropRange(d0.log, startIndex, endIndex) == DropRange(d0.log, firstIndex, endIndex);
      if firstIndex >= endIndex {
        assert DropRange(d0.log, firstIndex, endIndex) == d0.log;
        return;
      }
      var wb: seq<Op> := [];
      assert DropRange(d0.log, firstIndex, firstIndex) == d0.log;
      for index := firstIndex to endIndex
        invariant WriteBatch(d0, wb) == d0.(log := DropRange(d0.log, firstIndex, index))
        invariant disk == d0
      {
        WriteBatchConcat(d0, wb, [DeleteLog(index)]);
        assert DropRange(d0.log, firstIndex, index) - {index} == DropRange(d0.log, firstIndex, index + 1);
        wb := wb + [DeleteLog(index)];
      }
      disk := WriteBatch(disk, wb);
    }

    /** Runs the job at the head of the queue. */
    method RunJob(applied: bool) returns (fault: Option<Fault>)
      requires queue != []
      modifies this
      ensures Pipeline.RunJob(old(State()), applied) == if fault.Some? then Fatal(fault.value) else Next(State())
    {
      var job := queue[0];
      queue := queue[1..];
      fault := None;
      match job
      case SnapshotJob => if applied { disk := disk.(peer := Some(Normal)); }
      case Registration(a) => delegate := Some(a);
      case GCJob(start, end) => CompactRaftLog(start, end);
      case ApplyEntry(e) =>
        if delegate.Some? {
          fault := ApplyEntry(delegate.value, e);
        }
    }

    /** One turn of the delegate's `applyCommittedEntries`. */
    method ApplyEntry(d: ApplyState, e: Entry) returns (fault: Option<Fault>)
      modifies this`disk, this`delegate, this`applyResults
      ensures ApplyOne(old(State()), d, e) == if fault.Some? then Fatal(fault.value) else Next(State())
    {
      var expectIndex := d.applied + 1;
      if expectIndex != e.index { return Some(IndexMismatch); }
      if e.cmd.Empty? && e.term == 0 { return Some(ZeroTerm); }
      var state, gc := d, None;
      if e.cmd.CompactLog? {
        var pair := ExecCompact(state, e.cmd.index, e.cmd.term);
        state, gc := pair.0, pair.1;
      }
      state := state.(applied := e.index);
      if e.cmd == RemoveSelf(true) {
        disk := disk.(peer := Some(Tombstone));
        delegate := None;
      } else {
        disk := disk.(apply := Some(state));
        delegate := Some(state);
      }
      applyResults := applyResults + [ApplyResult(state, gc)];
      fault := None;
    }
  }

  /** The least stored index, as `Seek` finds it, or `none` on an empty log. */
  method FirstStored(log: Log, none: nat) returns (first: nat)
    ensures log == map[] ==> first == none
    ensures log != map[] ==> first in log && forall i :: i in log ==> first <= i
  {
    first := none;
    var left, found := log.Keys, false;
    while left != {}
      invariant left <= log.Keys
      invariant found <==> left != log.Keys
      invariant found ==> first in log && forall i :: i in log && i !in left ==> first <= i
      invariant !found ==> first == none
      decreases left
    {
      var i :| i in left;
      if !found || i < first { first := i; }
      found := true;
      left := left - {i};
    }
    assert log != map[] ==> log.Keys != {} by {
      if log.Keys == {} { assert log == map[]; }
    }
  }
}
