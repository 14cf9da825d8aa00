/** The ready/apply pipeline of one replica as a state machine: an event loop that persists ready batches
    and an apply worker that runs queued jobs, sharing the metadata storage, a job queue and a result queue
    (raftstore/peer_event_raft_ready.go, peer_job.go, peer_apply.go, peer_event_post_apply.go, peer_storage.go). */
module Pipeline {
  import opened RaftLog
  import opened Options

  datatype GCResult = GCResult(state: Truncated, firstIndex: nat)

  datatype ApplyResult = ApplyResult(apply: ApplyState, gc: Option<GCResult>)

  /** A batch of committed entries is queued as one job per entry: the worker takes them one after the
      other, and a crash may fall between two of them. */
  datatype Job = SnapshotJob | Registration(apply: ApplyState) | ApplyEntry(entry: Entry) | GCJob(start: nat, end: nat)

  /** What `ReadySince(lastReadyIndex)` returns; an absent hard state is raft's empty hard state. `arrived` says
      whether the file of the snapshot is on this store. */
  datatype Ready = Ready(
    snap: Option<Truncated>, arrived: bool, entries: seq<Entry>, hard: Option<HardState>, committed: seq<Entry>)

  datatype Replica = Replica(
    disk: Disk,
    // event loop: peerStorage and the size hint
    local: LocalState, apply: ApplyState, lastTerm: nat, lastReady: nat, lastCompact: nat, hint: nat,
    // apply worker: the registered delegate's apply state
    delegate: Option<ApplyState>,
    // between them
    queue: seq<Job>, results: seq<ApplyResult>)

  /** The aborts of the original, and the two arithmetic accidents of the size hint. */
  datatype Fault =
    | IndexMismatch | ZeroTerm | PostApplyDuringSnapshot
    | HintUnderflow | HintDivision | LastIndexTooSmall | LastEntryLost

  datatype Outcome = Next(replica: Replica) | Fatal(fault: Fault)

  // ---- event loop: handleReady

  predicate ApplyingSnapshot(r: Replica) {
    SnapshotJob in r.queue
  }

  predicate ApplyComplete(r: Replica) {
    r.local.hard.commit == r.apply.applied
  }

  function PrevLast(r: Replica, rd: Ready): nat {
    if rd.snap.Some? then rd.snap.value.index else r.local.lastIndex
  }

  function NewLast(r: Replica, rd: Ready): nat {
    if rd.entries != [] then Last(rd.entries).index else PrevLast(r, rd)
  }

  function NewLastTerm(r: Replica, rd: Ready): nat {
    if rd.entries != [] then Last(rd.entries).term
    else if rd.snap.Some? then rd.snap.value.term
    else r.lastTerm
  }

  function NewLocal(r: Replica, rd: Ready): LocalState {
    LocalState(NewLast(r, rd), if NewLast(r, rd) > 0 && rd.hard.Some? then rd.hard.value else r.local.hard)
  }

  function NewApply(r: Replica, rd: Ready): ApplyState {
    if rd.snap.Some? then ApplyState(rd.snap.value.index, rd.snap.value) else r.apply
  }

  /** The metadata after the ready's single batch: a snapshot first clears everything, the entries replace
      the tail, and the two state records are written only when they changed. */
  function NewDisk(r: Replica, rd: Ready): Disk {
    var base := if rd.snap.Some? then Disk(map[], None, None, Some(Applying)) else r.disk;
    Disk(Appended(base.log, rd.entries, PrevLast(r, rd)),
         if NewLocal(r, rd) != r.local then Some(NewLocal(r, rd)) else base.local,
         if NewApply(r, rd) != r.apply then Some(NewApply(r, rd)) else base.apply,
         base.peer)
  }

  function DataSize(es: seq<Entry>): nat {
    if es == [] then 0 else DataSize(es[..|es| - 1]) + Last(es).dataSize
  }

  function Jobs(es: seq<Entry>): (jobs: seq<Job>)
    ensures |jobs| == |es|
  {
    seq(|es|, i requires 0 <= i < |es| => ApplyEntry(es[i]))
  }

  predicate Skipped(r: Replica, rd: Ready) {
    ApplyingSnapshot(r) || (rd.snap.Some? && !(ApplyComplete(r) && rd.arrived))
  }

  function HandleReady(r: Replica, rd: Ready): Replica {
    if Skipped(r, rd) then r
    else
      var saved := r.(disk := NewDisk(r, rd), local := NewLocal(r, rd), apply := NewApply(r, rd), lastTerm := NewLastTerm(r, rd));
      if rd.snap.Some? then
        saved.(hint := 0, lastReady := rd.snap.value.index,
               queue := r.queue + [SnapshotJob, Registration(NewApply(r, rd))])
      else if r.delegate.None? || rd.committed == [] then saved
      else
        saved.(hint := r.hint + DataSize(rd.committed), lastReady := Last(rd.committed).index,
               queue := r.queue + Jobs(rd.committed))
  }

  // ---- event loop: doPollApply

  function PollApply(r: Replica): Outcome
    requires r.results != []
  {
    if ApplyingSnapshot(r) then Fatal(PostApplyDuringSnapshot)
    else
      var res := r.results[0];
      var polled := r.(apply := res.apply, results := r.results[1..]);
      match res.gc
      case None => Next(polled)
      case Some(gc) => CompactRaftLog(polled, gc)
  }

  /** `doApplyCompactRaftLog`; unsigned subtraction below zero and division by zero are faults. */
  function CompactRaftLog(r: Replica, gc: GCResult): Outcome {
    if r.lastReady < gc.firstIndex || r.lastReady < gc.state.index + 1 then Fatal(HintUnderflow)
    else
      var total, remain := r.lastReady - gc.firstIndex, r.lastReady - gc.state.index - 1;
      if total == 0 then Fatal(HintDivision)
      else
        Next(r.(hint := r.hint * remain / total, lastCompact := gc.state.index + 1,
                queue := r.queue + [GCJob(r.lastCompact, gc.state.index + 1)]))
  }

  // ---- apply worker

  /** `doExecCompactRaftLog` and `compactRaftLog`, on the state before the entry. */
  function ExecCompact(d: ApplyState, index: nat, term: nat): (ApplyState, Option<GCResult>) {
    var first := d.truncated.index + 1;
    if index <= first || term == 0 || index > d.applied then (d, None)
    else (d.(truncated := Truncated(index, term)), Some(GCResult(Truncated(index, term), first)))
  }

  function ApplyOne(r: Replica, d: ApplyState, e: Entry): Outcome {
    if d.applied + 1 != e.index then Fatal(IndexMismatch)
    else if e.cmd.Empty? && e.term == 0 then Fatal(ZeroTerm)
    else
      var (d1, gc) := if e.cmd.CompactLog? then ExecCompact(d, e.cmd.index, e.cmd.term) else (d, None);
      var d2 := d1.(applied := e.index);
      var posted := r.(results := r.results + [ApplyResult(d2, gc)]);
      if e.cmd == RemoveSelf(true) then
        // the tombstone is written, the apply state is not, and the delegate is dropped
        Next(posted.(disk := r.disk.(peer := Some(Tombstone)), delegate := None))
      else
        Next(posted.(disk := r.disk.(apply := Some(d2)), delegate := Some(d2)))
  }

  /** A snapshot that fails to apply is logged: the job is over, and the stored state stays `Applying`. */
  function RunJob(r: Replica, applied: bool): Outcome
    requires r.queue != []
  {
    var rest := r.(queue := r.queue[1..]);
    match r.queue[0]
    case SnapshotJob => Next(if applied then rest.(disk := r.disk.(peer := Some(Normal))) else rest)
    case Registration(a) => Next(rest.(delegate := Some(a)))
    case ApplyEntry(e) => if r.delegate.None? then Next(rest) else ApplyOne(rest, r.delegate.value, e)
    case GCJob(start, end) => Next(rest.(disk := r.disk.(log := DropRange(r.disk.log, start, end))))
  }

  // ---- restart: newPeerStorage and startShards

  function RecoveredLocal(d: Disk): LocalState {
    if d.local.Some? then d.local.value else LocalState(INIT_INDEX, HardState(INIT_TERM, 0, INIT_INDEX))
  }

  function RecoveredApply(d: Disk): ApplyState {
    if d.apply.Some? then d.apply.value else ApplyState(INIT_INDEX, Truncated(INIT_INDEX, INIT_TERM))
  }

  /** `initLastTerm`. */
  function RecoveredTerm(d: Disk): (Option<Fault>, nat) {
    var last, tr := RecoveredLocal(d).lastIndex, RecoveredApply(d).truncated;
    if last == 0 then (None, 0)
    else if last == INIT_INDEX then (None, INIT_TERM)
    else if last == tr.index then (None, tr.term)
    else if last < INIT_INDEX then (Some(LastIndexTooSmall), 0)
    else if last !in d.log then (Some(LastEntryLost), 0)
    else (None, d.log[last].term)
  }

  function Restart(d: Disk): Outcome {
    var (fault, term) := RecoveredTerm(d);
    if fault.Some? then Fatal(fault.value)
    else
      var a := RecoveredApply(d);
      Next(Replica(d, RecoveredLocal(d), a, term, a.applied, 0, 0, None,
                   (if d.peer == Some(Applying) then [SnapshotJob] else []) + [Registration(a)], []))
  }

  // ---- runs

  datatype Event = ReadyEvent(ready: Ready) | Poll | Work(applied: bool) | Crash

  function Step(r: Replica, ev: Event): Outcome
    requires ev.Poll? ==> r.results != []
    requires ev.Work? ==> r.queue != []
  {
    match ev
    case ReadyEvent(rd) => Next(HandleReady(r, rd))
    case Poll => PollApply(r)
    case Work(applied) => RunJob(r, applied)
    case Crash => Restart(r.disk)
  }

  // ---- what raft promises

  /** The term recorded by a compaction command is the one the committed log has at that index. */
  ghost predicate CompactTermAgrees(log: Log, tr: Truncated, e: Entry) {
    e.cmd.CompactLog? && e.cmd.term != 0 && tr.index < e.cmd.index < e.index ==> TermAt(log, tr, e.cmd.index) == e.cmd.term
  }

  /** A snapshot is only accepted above the committed index, which it raises. Every log starts from the
      initial index and term. */
  ghost predicate SnapshotContract(r: Replica, rd: Ready) {
    rd.snap.Some? ==>
      && rd.snap.value.index > r.local.hard.commit
      && rd.snap.value.index >= INIT_INDEX && rd.snap.value.term > 0
      && (rd.snap.value.index == INIT_INDEX ==> rd.snap.value.term == INIT_TERM)
      && rd.hard.Some? && rd.hard.value.commit >= rd.snap.value.index
  }

  /** New entries continue the log without a gap, never replace a committed entry and never lower the term. */
  ghost predicate EntriesContract(r: Replica, rd: Ready) {
    && Contiguous(rd.entries)
    && (rd.entries != [] ==>
          && INIT_INDEX < rd.entries[0].index <= PrevLast(r, rd) + 1
          && (if rd.snap.Some? then rd.snap.value.index else r.local.hard.commit) < rd.entries[0].index
          && (if rd.snap.Some? then rd.snap.value.term
              else TermAt(r.disk.log, r.apply.truncated, rd.entries[0].index - 1)) <= rd.entries[0].term)
    && (forall k :: 0 <= k < |rd.entries| ==> rd.entries[k].size > 0 && rd.entries[k].term > 0)
    && (forall j, k :: 0 <= j <= k < |rd.entries| ==> rd.entries[j].term <= rd.entries[k].term)
  }

  ghost predicate CommitContract(r: Replica, rd: Ready) {
    rd.hard.Some? ==> r.local.hard.commit <= rd.hard.value.commit <= NewLast(r, rd)
  }

  /** Committed entries follow the last ones handed out and are covered by the commit index. */
  ghost predicate CommittedContract(r: Replica, rd: Ready) {
    rd.snap.None? ==>
      && Contiguous(rd.committed)
      && (rd.committed != [] ==>
            && rd.committed[0].index == r.lastReady + 1
            && Last(rd.committed).index <= NewLocal(r, rd).hard.commit)
      && (forall k :: 0 <= k < |rd.committed| ==>
            rd.committed[k].term > 0 && CompactTermAgrees(NewDisk(r, rd).log, r.apply.truncated, rd.committed[k]))
  }

  /** When a step may happen, and what raft guarantees about it. A destroyed replica is not restarted, nor
      one that was never initialised. */
  ghost predicate Enabled(r: Replica, ev: Event) {
    match ev
    case ReadyEvent(rd) =>
      SnapshotContract(r, rd) && EntriesContract(r, rd) && CommitContract(r, rd) && CommittedContract(r, rd)
    case Poll => r.results != []
    case Work(_) => r.queue != []
    case Crash => r.disk.peer.Some? && r.disk.peer != Some(Tombstone)
  }
}
