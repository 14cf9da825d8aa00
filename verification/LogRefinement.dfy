/** The pipeline refines a plain log that is truncated and extended at its end, compacted at its start, or
    replaced by a snapshot. */
module LogRefinement {
  import opened RaftLog
  import opened Pipeline
  import opened PipelineInvariant
  import opened Options

  /** `entries[k]` is the entry at `base.index + 1 + k`. */
  datatype AbstractLog = AbstractLog(base: Truncated, entries: seq<Entry>)

  datatype LogOp = Keep | TruncateAppend(es: seq<Entry>) | Install(base: Truncated, es: seq<Entry>) | Compact(to: Truncated)

  ghost predicate Applicable(l: AbstractLog, op: LogOp) {
    match op
    case Keep => true
    case TruncateAppend(es) => es != [] && l.base.index < es[0].index <= l.base.index + |l.entries| + 1
    case Install(_, _) => true
    case Compact(to) => l.base.index <= to.index <= l.base.index + |l.entries|
  }

  ghost function ApplyOp(l: AbstractLog, op: LogOp): AbstractLog
    requires Applicable(l, op)
  {
    match op
    case Keep => l
    case TruncateAppend(es) => AbstractLog(l.base, l.entries[..es[0].index - l.base.index - 1] + es)
    case Install(base, es) => AbstractLog(base, es)
    case Compact(to) => AbstractLog(to, l.entries[to.index - l.base.index..])
  }

  ghost predicate Covers(log: Log, lo: nat, hi: nat) {
    lo <= hi && forall i :: lo < i <= hi ==> i in log
  }

  /** The entries at `lo + 1 .. hi`. */
  ghost function Slots(log: Log, lo: nat, hi: nat): (s: seq<Entry>)
    requires Covers(log, lo, hi)
    ensures |s| == hi - lo
    ensures forall k :: 0 <= k < |s| ==> s[k] == log[lo + 1 + k]
  {
    seq(hi - lo, k requires 0 <= k < hi - lo => log[lo + 1 + k])
  }

  /** The log a replica stands for: the stored entries between the truncated and the last index. */
  ghost function Abstraction(r: Replica): AbstractLog
    requires Inv(r)
  {
    AbstractLog(r.apply.truncated, Slots(r.disk.log, r.apply.truncated.index, r.local.lastIndex))
  }

  /** What a step does to the abstract log. A restart may find a compaction the event loop had not seen yet. */
  function OpOf(r: Replica, ev: Event): LogOp
    requires ev.Poll? ==> r.results != []
    requires ev.Work? ==> r.queue != []
  {
    match ev
    case ReadyEvent(rd) =>
      if Skipped(r, rd) then Keep
      else if rd.snap.Some? then Install(rd.snap.value, rd.entries)
      else if rd.entries != [] then TruncateAppend(rd.entries)
      else Keep
    case Poll => if r.results[0].gc.Some? then Compact(r.results[0].gc.value.state) else Keep
    case Work(_) => Keep
    case Crash => Compact(RecoveredApply(r.disk).truncated)
  }

  lemma AppendedSlots(log: Log, lo: nat, hi: nat, es: seq<Entry>)
    requires Covers(log, lo, hi) && forall i :: i in log ==> i <= hi
    requires Contiguous(es) && es != [] && lo < es[0].index <= hi + 1
    ensures Covers(Appended(log, es, hi), lo, Last(es).index)
    ensures Slots(Appended(log, es, hi), lo, Last(es).index) == Slots(log, lo, hi)[..es[0].index - lo - 1] + es
  {
    var after := Appended(log, es, hi);
    forall i | lo < i <= Last(es).index
      ensures i in after && after[i] == if es[0].index <= i then es[i - es[0].index] else log[i]
    {
      AppendedEntries(log, es, hi, i);
    }
    assert Slots(after, lo, Last(es).index) == Slots(log, lo, hi)[..es[0].index - lo - 1] + es;
  }

  lemma ReadyRefines(r: Replica, rd: Ready)
    requires Inv(r) && Enabled(r, ReadyEvent(rd)) && Inv(HandleReady(r, rd))
    ensures Applicable(Abstraction(r), OpOf(r, ReadyEvent(rd)))
    ensures Abstraction(HandleReady(r, rd)) == ApplyOp(Abstraction(r), OpOf(r, ReadyEvent(rd)))
  {
    if !Skipped(r, rd) {
      if rd.snap.Some? {
        SnapshotRefines(r, rd);
      } else if rd.entries != [] {
        AppendRefines(r, rd);
      }
    }
  }

  lemma SnapshotRefines(r: Replica, rd: Ready)
    requires Inv(r) && Enabled(r, ReadyEvent(rd)) && Inv(HandleReady(r, rd)) && !Skipped(r, rd) && rd.snap.Some?
    ensures Abstraction(HandleReady(r, rd)) == AbstractLog(rd.snap.value, rd.entries)
  {
    var lo, log := rd.snap.value.index, HandleReady(r, rd).disk.log;
    if rd.entries == [] {
      assert Slots(log, lo, lo) == [];
    } else {
      AppendedSlots(map[], lo, lo, rd.entries);
      assert log == Appended(map[], rd.entries, lo);
    }
  }

  lemma AppendRefines(r: Replica, rd: Ready)
    requires Inv(r) && Enabled(r, ReadyEvent(rd)) && Inv(HandleReady(r, rd))
    requires !Skipped(r, rd) && rd.snap.None? && rd.entries != []
    ensures Applicable(Abstraction(r), TruncateAppend(rd.entries))
    ensures Abstraction(HandleReady(r, rd)) == ApplyOp(Abstraction(r), TruncateAppend(rd.entries))
  {
    ReadyFields(r, rd);
    AppendedAbstraction(r, HandleReady(r, rd), rd.entries);
  }

  lemma ReadyFields(r: Replica, rd: Ready)
    requires !Skipped(r, rd) && rd.snap.None? && rd.entries != []
    ensures var r' := HandleReady(r, rd);
            && r'.disk.log == Appended(r.disk.log, rd.entries, r.local.lastIndex)
            && r'.apply == r.apply && r'.local.lastIndex == Last(rd.entries).index
  {
  }

  lemma AppendedAbstraction(r: Replica, r': Replica, es: seq<Entry>)
    requires Inv(r) && Inv(r') && Contiguous(es) && es != [] && r.apply.truncated.index < es[0].index <= r.local.lastIndex + 1
    requires r'.disk.log == Appended(r.disk.log, es, r.local.lastIndex)
    requires r'.apply == r.apply && r'.local.lastIndex == Last(es).index
    ensures Applicable(Abstraction(r), TruncateAppend(es)) && Abstraction(r') == ApplyOp(Abstraction(r), TruncateAppend(es))
  {
    AppendedSlots(r.disk.log, r.apply.truncated.index, r.local.lastIndex, es);
  }

  lemma PollRefines(r: Replica)
    requires Live(r) && r.results != [] && PollApply(r).Next? && Inv(PollApply(r).replica)
    ensures Applicable(Abstraction(r), OpOf(r, Poll))
    ensures Abstraction(PollApply(r).replica) == ApplyOp(Abstraction(r), OpOf(r, Poll))
  {
    PollState(r);
    var r' := PollApply(r).replica;
    assert Abstraction(r').entries == ApplyOp(Abstraction(r), OpOf(r, Poll)).entries;
  }

  lemma WorkRefines(r: Replica, applied: bool)
    requires Live(r) && r.queue != [] && RunJob(r, applied).Next? && Live(RunJob(r, applied).replica)
    ensures Abstraction(RunJob(r, applied).replica) == Abstraction(r)
  {
    var r' := RunJob(r, applied).replica;
    assert r'.apply == r.apply && r'.local == r.local;
    assert forall i :: r.apply.truncated.index < i <= r.local.lastIndex ==> r'.disk.log[i] == r.disk.log[i];
    assert Abstraction(r').entries == Abstraction(r).entries;
  }

  lemma CrashRefines(r: Replica)
    requires Live(r) && !Removed(r) && Restart(r.disk).Next? && Inv(Restart(r.disk).replica)
    ensures Applicable(Abstraction(r), OpOf(r, Crash))
    ensures Abstraction(Restart(r.disk).replica) == ApplyOp(Abstraction(r), OpOf(r, Crash))
  {
    WorkerStateAgrees(r);
    var r' := Restart(r.disk).replica;
    assert Abstraction(r').entries == ApplyOp(Abstraction(r), OpOf(r, Crash)).entries;
  }

  lemma StepRefines(r: Replica, ev: Event)
    requires Inv(r) && Enabled(r, ev)
    ensures Step(r, ev).Next? && Inv(Step(r, ev).replica)
    ensures Applicable(Abstraction(r), OpOf(r, ev))
    ensures Abstraction(Step(r, ev).replica) == ApplyOp(Abstraction(r), OpOf(r, ev))
  {
    StepPreserves(r, ev);
    match ev
    case ReadyEvent(rd) => ReadyRefines(r, rd);
    case Poll => PollRefines(r);
    case Work(applied) =>
      WorkPreserves(r, applied);
      WorkRefines(r, applied);
    case Crash => CrashRefines(r);
  }

  /** The abstract operations of a run, in order. */
  ghost function OpsOf(r: Replica, evs: seq<Event>): seq<LogOp>
    requires Admissible(r, evs)
    decreases evs
  {
    if evs == [] || Step(r, evs[0]).Fatal? then [] else [OpOf(r, evs[0])] + OpsOf(Step(r, evs[0]).replica, evs[1..])
  }

  /** `l'` is reached from `l` by the operations, each applicable in its turn. */
  ghost predicate Performs(l: AbstractLog, ops: seq<LogOp>, l': AbstractLog)
    decreases ops
  {
    if ops == [] then l == l' else Applicable(l, ops[0]) && Performs(ApplyOp(l, ops[0]), ops[1..], l')
  }

  /** Any run of ready batches, snapshots, compactions, log collection and crashes is a run of the plain log. */
  lemma {:induction false} RunsRefine(r: Replica, evs: seq<Event>)
    requires Inv(r) && Admissible(r, evs)
    ensures Run(r, evs).Next? && Inv(Run(r, evs).replica)
    ensures Performs(Abstraction(r), OpsOf(r, evs), Abstraction(Run(r, evs).replica))
    decreases evs
  {
    if evs == [] {
    } else {
      StepRefines(r, evs[0]);
      RunsRefine(Step(r, evs[0]).replica, evs[1..]);
      assert OpsOf(r, evs)[1..] == OpsOf(Step(r, evs[0]).replica, evs[1..]);
    }
  }

  lemma AppendsAboveCommit(r: Replica, ev: Event)
    requires Enabled(r, ev) && !(ev.ReadyEvent? && ev.ready.snap.Some?)
    ensures !OpOf(r, ev).Install?
    ensures OpOf(r, ev).TruncateAppend? ==> OpOf(r, ev).es != [] && r.local.hard.commit < OpOf(r, ev).es[0].index
  {
  }

  /** The log has entry `e` at index `i`. */
  ghost predicate Holds(l: AbstractLog, i: nat, e: Entry) {
    l.base.index < i <= l.base.index + |l.entries| && l.entries[i - l.base.index - 1] == e
  }

  /** Appending above `i`, or compacting below it, leaves the entry at `i` where it is. */
  lemma OpKeepsEntry(l: AbstractLog, op: LogOp, i: nat, e: Entry)
    requires Applicable(l, op) && Holds(l, i, e)
    requires !op.Install? && (op.TruncateAppend? ==> i < op.es[0].index) && ApplyOp(l, op).base.index < i
    ensures Holds(ApplyOp(l, op), i, e)
  {
  }

  lemma AbstractionHolds(r: Replica, i: nat, e: Entry)
    requires Inv(r)
    ensures Holds(Abstraction(r), i, e) <==>
              (r.apply.truncated.index < i <= r.local.lastIndex && i in r.disk.log && r.disk.log[i] == e)
  {
  }

  /** Below the commit index no step short of a snapshot changes an entry that stays in the window. */
  lemma CommittedEntriesAreStable(r: Replica, ev: Event, r': Replica, i: nat)
    requires Live(r) && Enabled(r, ev) && !(ev.ReadyEvent? && ev.ready.snap.Some?) && Step(r, ev) == Next(r')
    requires r.apply.truncated.index < i <= r.local.hard.commit && r'.apply.truncated.index < i
    ensures i in r.disk.log && i in r'.disk.log && r'.disk.log[i] == r.disk.log[i]
  {
    StepRefines(r, ev);
    AppendsAboveCommit(r, ev);
    RefinedEntryIsStable(r, OpOf(r, ev), r', i);
  }

  lemma RefinedEntryIsStable(r: Replica, op: LogOp, r': Replica, i: nat)
    requires Inv(r) && Inv(r') && Applicable(Abstraction(r), op) && Abstraction(r') == ApplyOp(Abstraction(r), op)
    requires !op.Install? && (op.TruncateAppend? ==> i < op.es[0].index)
    requires r.apply.truncated.index < i <= r.local.lastIndex && r'.apply.truncated.index < i
    ensures i in r.disk.log && i in r'.disk.log && r'.disk.log[i] == r.disk.log[i]
  {
    assert i in r.disk.log;
    var e := r.disk.log[i];
    AbstractionHolds(r, i, e);
    OpKeepsEntry(Abstraction(r), op, i, e);
    AbstractionHolds(r', i, e);
  }
}
