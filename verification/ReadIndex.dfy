/** The queue of linearizable reads waiting for their read index to be applied (raftstore/batch.go). */
module ReadIndex {

  /** `readIndex == 0` means that raft has not confirmed the read yet. */
  datatype Read = Read(uuid: nat, readIndex: nat)

  // ---- specification

  predicate Servable(c: Read, applied: nat) {
    0 < c.readIndex <= applied
  }

  function Waiting(cmds: seq<Read>, applied: nat): (s: seq<Read>)
    ensures |s| <= |cmds|
  {
    if cmds == [] then []
    else Waiting(cmds[..|cmds| - 1], applied) + if Servable(cmds[|cmds| - 1], applied) then [] else [cmds[|cmds| - 1]]
  }

  function Served(cmds: seq<Read>, applied: nat): (s: seq<Read>)
    ensures |s| + |Waiting(cmds, applied)| == |cmds|
  {
    if cmds == [] then []
    else Served(cmds[..|cmds| - 1], applied) + if Servable(cmds[|cmds| - 1], applied) then [cmds[|cmds| - 1]] else []
  }

  /** The reads confirmed by raft are exactly the first `ready` ones. */
  ghost predicate ReadyPrefix(cmds: seq<Read>, ready: nat) {
    ready <= |cmds| && forall i :: 0 <= i < |cmds| ==> (cmds[i].readIndex > 0 <==> i < ready)
  }

  ghost predicate Distinct(cmds: seq<Read>) {
    forall i, j :: 0 <= i < j < |cmds| ==> cmds[i].uuid != cmds[j].uuid
  }

  lemma PrefixPush(cmds: seq<Read>, ready: nat, c: Read)
    requires ReadyPrefix(cmds, ready) && (c.readIndex > 0 ==> ready == |cmds|)
    ensures ReadyPrefix(cmds + [c], if c.readIndex > 0 then ready + 1 else ready)
  {
    var more := cmds + [c];
    forall i | 0 <= i < |more|
      ensures more[i].readIndex > 0 <==> i < if c.readIndex > 0 then ready + 1 else ready
    {
      if i < |cmds| { assert more[i] == cmds[i]; }
    }
  }

  lemma PrefixPop(cmds: seq<Read>, ready: nat)
    requires ReadyPrefix(cmds, ready) && cmds != []
    ensures ReadyPrefix(cmds[..|cmds| - 1], if ready < |cmds| then ready else |cmds| - 1)
    ensures cmds[|cmds| - 1].readIndex > 0 <==> ready == |cmds|
  {
  }

  /** Serving keeps the confirmed reads in front and the order of the rest. */
  lemma {:induction false} WaitingKeepsPrefix(cmds: seq<Read>, ready: nat, applied: nat)
    requires ReadyPrefix(cmds, ready)
    ensures |Served(cmds, applied)| <= ready
    ensures ReadyPrefix(Waiting(cmds, applied), ready - |Served(cmds, applied)|)
  {
    if cmds == [] {
    } else {
      var n := |cmds| - 1;
      var init, before := cmds[..n], if ready <= n then ready else n;
      PrefixPop(cmds, ready);
      WaitingKeepsPrefix(init, before, applied);
      if !Servable(cmds[n], applied) {
        PrefixPush(Waiting(init, applied), before - |Served(init, applied)|, cmds[n]);
      }
    }
  }

  lemma {:induction false} ServedMember(cmds: seq<Read>, applied: nat, c: Read)
    ensures c in Served(cmds, applied) <==> c in cmds && Servable(c, applied)
    ensures c in Waiting(cmds, applied) <==> c in cmds && !Servable(c, applied)
  {
    if cmds == [] {
    } else {
      var n := |cmds| - 1;
      ServedMember(cmds[..n], applied, c);
      assert c in cmds <==> c in cmds[..n] || c == cmds[n];
    }
  }

  lemma {:induction false} ServedPartition(cmds: seq<Read>, applied: nat)
    ensures multiset(Served(cmds, applied)) + multiset(Waiting(cmds, applied)) == multiset(cmds)
  {
    if cmds == [] {
    } else {
      var n := |cmds| - 1;
      ServedPartition(cmds[..n], applied);
      assert cmds == cmds[..n] + [cmds[n]];
    }
  }

  /** Every read is either served or kept, and served exactly when its read index is applied. */
  lemma ServedSound(cmds: seq<Read>, applied: nat)
    ensures forall c :: c in Served(cmds, applied) <==> c in cmds && Servable(c, applied)
    ensures forall c :: c in Waiting(cmds, applied) <==> c in cmds && !Servable(c, applied)
    ensures multiset(Served(cmds, applied)) + multiset(Waiting(cmds, applied)) == multiset(cmds)
  {
    forall c
      ensures c in Served(cmds, applied) <==> c in cmds && Servable(c, applied)
      ensures c in Waiting(cmds, applied) <==> c in cmds && !Servable(c, applied)
    {
      ServedMember(cmds, applied, c);
    }
    ServedPartition(cmds, applied);
  }

  lemma {:induction false} WaitingComesFrom(cmds: seq<Read>, applied: nat, i: nat) returns (j: nat)
    requires i < |Waiting(cmds, applied)|
    ensures j < |cmds| && cmds[j] == Waiting(cmds, applied)[i]
  {
    var n := |cmds| - 1;
    if i < |Waiting(cmds[..n], applied)| {
      j := WaitingComesFrom(cmds[..n], applied, i);
    } else {
      j := n;
    }
  }

  lemma {:induction false} WaitingDistinct(cmds: seq<Read>, applied: nat)
    requires Distinct(cmds)
    ensures Distinct(Waiting(cmds, applied))
  {
    if cmds == [] {
    } else {
      var n := |cmds| - 1;
      WaitingDistinct(cmds[..n], applied);
      var w := Waiting(cmds[..n], applied);
      forall i | 0 <= i < |w| ensures w[i].uuid != cmds[n].uuid {
        var j := WaitingComesFrom(cmds[..n], applied, i);
        assert cmds[j] == w[i];
      }
    }
  }

  /** A read served when the applied index was `applied`. */
  datatype Execution = Execution(cmd: Read, applied: nat)

  datatype Queue = Queue(cmds: seq<Read>, ready: nat, executed: seq<Execution>, staled: seq<Read>)

  datatype Event = Push(uuid: nat) | Confirm(uuid: nat, index: nat) | Serve(applied: nat) | StepDown

  function Executions(cmds: seq<Read>, applied: nat): (s: seq<Execution>)
    ensures |s| == |cmds|
  {
    seq(|cmds|, i requires 0 <= i < |cmds| => Execution(cmds[i], applied))
  }

  function Step(q: Queue, ev: Event): Queue
    requires ev.Confirm? ==> q.ready < |q.cmds|
  {
    match ev
    case Push(uuid) => q.(cmds := q.cmds + [Read(uuid, 0)])
    case Confirm(_, index) => q.(cmds := q.cmds[q.ready := q.cmds[q.ready].(readIndex := index)], ready := q.ready + 1)
    case Serve(applied) =>
      var served := Served(q.cmds, applied);
      q.(cmds := Waiting(q.cmds, applied), ready := if |served| <= q.ready then q.ready - |served| else 0,
         executed := q.executed + Executions(served, applied))
    case StepDown => q.(cmds := [], ready := 0, staled := q.staled + q.cmds)
  }

  // ---- the code

  /** The loop of `doReadLEAppliedIndex` over `newCmds := q.reads[:0]`, which shares the array it reads. */
  method FilterInPlace(buffer: array<Read>, n: nat, appliedIndex: nat) returns (kept: nat, served: seq<Read>)
    requires n <= buffer.Length
    modifies buffer
    ensures kept <= n && buffer[..kept] == Waiting(old(buffer[..n]), appliedIndex)
    ensures served == Served(old(buffer[..n]), appliedIndex)
  {
    ghost var start := buffer[..n];
    kept, served := 0, [];
    for i := 0 to n
      invariant 0 <= kept <= i
      invariant buffer[..kept] == Waiting(start[..i], appliedIndex)
      invariant served == Served(start[..i], appliedIndex)
      invariant forall k :: i <= k < n ==> buffer[k] == start[k]
    {
      assert start[..i + 1][..i] == start[..i];
      var c := buffer[i];
      if c.readIndex > 0 && c.readIndex <= appliedIndex {
        served := served + [c];
      } else {
        buffer[kept] := c;
        kept := kept + 1;
      }
    }
    assert start[..n] == start;
  }

  /** The slice is an array with a length; the filter overwrites it from the front. `executed` and `staled`
      record the callbacks that were called. */
  class ReadIndexQueue {
    var buffer: array<Read>
    var length: nat
    var readyToRead: nat
    var executed: seq<Execution>
    var staled: seq<Read>

    ghost predicate Valid()
      reads this, buffer
    {
      length <= buffer.Length && ReadyPrefix(buffer[..length], readyToRead)
    }

    ghost function Reads(): seq<Read>
      requires length <= buffer.Length
      reads this, buffer
    {
      buffer[..length]
    }

    ghost function View(): Queue
      requires length <= buffer.Length
      reads this, buffer
    {
      Queue(Reads(), readyToRead, executed, staled)
    }

    constructor ()
      ensures Valid() && fresh(buffer) && View() == Queue([], 0, [], [])
    {
      buffer := new Read[0];
      length, readyToRead, executed, staled := 0, 0, [], [];
    }

    method Enlarged() returns (bigger: array<Read>)
      requires Valid()
      ensures fresh(bigger) && bigger.Length > length && bigger[..length] == Reads()
    {
      bigger := new Read[2 * length + 1];
      forall i | 0 <= i < length { bigger[i] := buffer[i]; }
    }

    /** `append`, which may move the slice to a larger array. */
    method Push(uuid: nat)
      requires Valid()
      modifies this, buffer
      ensures Valid() && (buffer == old(buffer) || fresh(buffer))
      ensures View() == Step(old(View()), Event.Push(uuid))
    {
      if length == buffer.Length { buffer := Enlarged(); }
      buffer[length] := Read(uuid, 0);
      length := length + 1;
    }

    /** `ready`: raft confirms reads in the order they were asked for; the original aborts otherwise. */
    method Ready(requestCtx: nat, index: nat)
      requires Valid() && Distinct(Reads()) && index > 0
      requires readyToRead < length && buffer[readyToRead].uuid == requestCtx
      modifies this`readyToRead, buffer
      ensures Valid() && View() == Step(old(View()), Confirm(requestCtx, index))
    {
      var idx := 0;
      while idx < length
        invariant 0 <= idx <= readyToRead
        invariant forall i :: 0 <= i < idx ==> buffer[i].uuid != requestCtx
      {
        if buffer[idx].uuid == requestCtx {
          assert idx == readyToRead by {
            assert Reads()[idx].uuid == Reads()[readyToRead].uuid;
          }
          buffer[idx] := buffer[idx].(readIndex := index);
          readyToRead := readyToRead + 1;
          return;
        }
        idx := idx + 1;
      }
    }

    /** `doReadLEAppliedIndex`: filters the slice in place. */
    method DoReadLEAppliedIndex(appliedIndex: nat)
      requires Valid()
      modifies this, buffer
      ensures Valid() && buffer == old(buffer)
      ensures View() == Step(old(View()), Serve(appliedIndex))
    {
      ghost var q := View();
      if length == 0 || readyToRead == 0 {
        NothingToServe(q, appliedIndex);
        return;
      }
      WaitingKeepsPrefix(q.cmds, q.ready, appliedIndex);
      var kept, served := FilterInPlace(buffer, length, appliedIndex);
      executed := executed + Executions(served, appliedIndex);
      readyToRead := readyToRead - |served|;
      length := kept;
    }

    /** Losing leadership: every queued read is answered as stale, then the queue is reset. */
    method StaleAll()
      requires Valid()
      modifies this
      ensures Valid() && buffer == old(buffer) && View() == Step(old(View()), StepDown)
    {
      for i := 0 to length
        invariant length == old(length) <= buffer.Length && buffer == old(buffer) && readyToRead == old(readyToRead)
        invariant buffer[..length] == old(buffer[..length])
        invariant staled == old(staled) + old(Reads())[..i] && executed == old(executed)
      {
        staled := staled + [buffer[i]];
      }
      length, readyToRead := 0, 0;
    }
  }

  lemma {:induction false} NoneServable(cmds: seq<Read>, applied: nat)
    requires ReadyPrefix(cmds, 0)
    ensures Waiting(cmds, applied) == cmds && Served(cmds, applied) == []
  {
    if cmds == [] {
    } else {
      var n := |cmds| - 1;
      NoneServable(cmds[..n], applied);
      assert cmds == cmds[..n] + [cmds[n]];
    }
  }

  lemma NothingToServe(q: Queue, applied: nat)
    requires ReadyPrefix(q.cmds, q.ready) && (q.cmds == [] || q.ready == 0)
    ensures Step(q, Serve(applied)) == q
  {
    NoneServable(q.cmds, applied);
    assert q.executed + Executions([], applied) == q.executed;
  }

  // ---- every run

  /** Raft confirms the reads in order, with a positive index; request IDs are not reused. */
  ghost predicate Enabled(q: Queue, ev: Event) {
    match ev
    case Push(uuid) => forall i :: 0 <= i < |q.cmds| ==> q.cmds[i].uuid != uuid
    case Confirm(uuid, index) => q.ready < |q.cmds| && q.cmds[q.ready].uuid == uuid && index > 0
    case Serve(_) => true
    case StepDown => true
  }

  function Uuids(cmds: seq<Read>): (s: seq<nat>)
    ensures |s| == |cmds|
  {
    seq(|cmds|, i requires 0 <= i < |cmds| => cmds[i].uuid)
  }

  function ExecutedUuids(ex: seq<Execution>): (s: seq<nat>)
    ensures |s| == |ex|
  {
    seq(|ex|, i requires 0 <= i < |ex| => ex[i].cmd.uuid)
  }

  ghost function Accounted(q: Queue): multiset<nat> {
    multiset(Uuids(q.cmds)) + multiset(ExecutedUuids(q.executed)) + multiset(Uuids(q.staled))
  }

  ghost predicate Inv(q: Queue) {
    && ReadyPrefix(q.cmds, q.ready) && Distinct(q.cmds)
    && forall i :: 0 <= i < |q.executed| ==> Servable(q.executed[i].cmd, q.executed[i].applied)
  }

  lemma {:induction false} UuidsSplit(cmds: seq<Read>, applied: nat)
    ensures multiset(Uuids(cmds)) == multiset(Uuids(Waiting(cmds, applied))) + multiset(Uuids(Served(cmds, applied)))
  {
    if cmds == [] {
    } else {
      var n := |cmds| - 1;
      UuidsSplit(cmds[..n], applied);
      assert Uuids(cmds) == Uuids(cmds[..n]) + [cmds[n].uuid];
      if Servable(cmds[n], applied) {
        assert Uuids(Served(cmds, applied)) == Uuids(Served(cmds[..n], applied)) + [cmds[n].uuid];
        assert Waiting(cmds, applied) == Waiting(cmds[..n], applied);
      } else {
        assert Uuids(Waiting(cmds, applied)) == Uuids(Waiting(cmds[..n], applied)) + [cmds[n].uuid];
        assert Served(cmds, applied) == Served(cmds[..n], applied);
      }
    }
  }

  lemma StepKeepsInv(q: Queue, ev: Event)
    requires Inv(q) && Enabled(q, ev)
    ensures Inv(Step(q, ev))
  {
    match ev
    case Serve(_) => ServeKeepsInv(q, ev);
    case Push(_) =>
    case Confirm(_, _) => ConfirmKeepsInv(q, ev);
    case StepDown =>
  }

  lemma ServeKeepsInv(q: Queue, ev: Event)
    requires Inv(q) && ev.Serve?
    ensures Inv(Step(q, ev))
  {
    WaitingKeepsPrefix(q.cmds, q.ready, ev.applied);
    WaitingDistinct(q.cmds, ev.applied);
    ServedSound(q.cmds, ev.applied);
    var more := Executions(Served(q.cmds, ev.applied), ev.applied);
    assert forall i :: 0 <= i < |more| ==> more[i].cmd in Served(q.cmds, ev.applied);
  }

  lemma ConfirmKeepsInv(q: Queue, ev: Event)
    requires Inv(q) && ev.Confirm? && Enabled(q, ev)
    ensures Inv(Step(q, ev))
  {
  }

  lemma StepAccounts(q: Queue, ev: Event)
    requires Enabled(q, ev)
    ensures Accounted(Step(q, ev)) == Accounted(q) + multiset(if ev.Push? then [ev.uuid] else [])
  {
    match ev
    case Push(uuid) => assert Uuids(q.cmds + [Read(uuid, 0)]) == Uuids(q.cmds) + [uuid];
    case Confirm(_, index) => assert Uuids(Step(q, ev).cmds) == Uuids(q.cmds);
    case Serve(applied) =>
      UuidsSplit(q.cmds, applied);
      assert ExecutedUuids(Step(q, ev).executed) == ExecutedUuids(q.executed) + Uuids(Served(q.cmds, applied));
    case StepDown => assert Uuids(q.staled + q.cmds) == Uuids(q.staled) + Uuids(q.cmds);
  }

  ghost predicate Admissible(q: Queue, evs: seq<Event>)
    decreases evs
  {
    evs == [] || (Enabled(q, evs[0]) && Admissible(Step(q, evs[0]), evs[1..]))
  }

  ghost function Run(q: Queue, evs: seq<Event>): Queue
    requires Admissible(q, evs)
    decreases evs
  {
    if evs == [] then q else Run(Step(q, evs[0]), evs[1..])
  }

  function Pushed(evs: seq<Event>): seq<nat> {
    if evs == [] then [] else (if evs[0].Push? then [evs[0].uuid] else []) + Pushed(evs[1..])
  }

  /** Over any run the confirmed reads are the first `ready` ones, every executed read had its read index
      applied, and each pushed read is in exactly one place: queued, executed once, or answered stale once. */
  lemma {:induction false} EveryReadOnceAndNotTooEarly(q: Queue, evs: seq<Event>)
    requires Inv(q) && Admissible(q, evs)
    ensures Inv(Run(q, evs))
    ensures Accounted(Run(q, evs)) == Accounted(q) + multiset(Pushed(evs))
    decreases evs
  {
    if evs == [] {
    } else {
      StepKeepsInv(q, evs[0]);
      StepAccounts(q, evs[0]);
      EveryReadOnceAndNotTooEarly(Step(q, evs[0]), evs[1..]);
    }
  }

  // ---- the index raft confirmed

  /** Raft confirmed the read at `index`, and the queue was served at `applied` later. */
  ghost predicate ServedAfterConfirm(hist: seq<Event>, uuid: nat, index: nat, applied: nat) {
    exists p, s :: 0 <= p < s < |hist| && hist[p] == Confirm(uuid, index) && hist[s] == Serve(applied)
  }

  ghost predicate NotTooEarly(hist: seq<Event>, e: Execution) {
    exists index :: 0 < index <= e.applied && ServedAfterConfirm(hist, e.cmd.uuid, index, e.applied)
  }

  /** Recorded read indexes and executions are those of the events. */
  ghost predicate Explained(hist: seq<Event>, q: Queue) {
    && (forall c :: c in q.cmds && c.readIndex > 0 ==> Confirm(c.uuid, c.readIndex) in hist)
    && (forall e :: e in q.executed ==> NotTooEarly(hist, e))
  }

  lemma StaysNotTooEarly(hist: seq<Event>, ev: Event, e: Execution)
    requires NotTooEarly(hist, e)
    ensures NotTooEarly(hist + [ev], e)
  {
    var index :| 0 < index <= e.applied && ServedAfterConfirm(hist, e.cmd.uuid, index, e.applied);
    var p, s :| 0 <= p < s < |hist| && hist[p] == Confirm(e.cmd.uuid, index) && hist[s] == Serve(e.applied);
    assert (hist + [ev])[p] == hist[p] && (hist + [ev])[s] == hist[s];
    assert ServedAfterConfirm(hist + [ev], e.cmd.uuid, index, e.applied);
  }

  lemma ServedIsNotTooEarly(hist: seq<Event>, q: Queue, applied: nat, c: Read)
    requires Explained(hist, q) && c in Served(q.cmds, applied)
    ensures NotTooEarly(hist + [Serve(applied)], Execution(c, applied))
  {
    ServedMember(q.cmds, applied, c);
    var p :| 0 <= p < |hist| && hist[p] == Confirm(c.uuid, c.readIndex);
    var all := hist + [Serve(applied)];
    assert all[p] == hist[p] && all[|hist|] == Serve(applied);
    assert ServedAfterConfirm(all, c.uuid, c.readIndex, applied);
  }

  lemma ServeKeepsExplained(hist: seq<Event>, q: Queue, applied: nat)
    requires Explained(hist, q)
    ensures Explained(hist + [Serve(applied)], Step(q, Serve(applied)))
  {
    var all, q' := hist + [Serve(applied)], Step(q, Serve(applied));
    forall c | c in q'.cmds && c.readIndex > 0 ensures Confirm(c.uuid, c.readIndex) in all {
      ServedMember(q.cmds, applied, c);
    }
    forall e | e in q'.executed ensures NotTooEarly(all, e) {
      if e in q.executed {
        StaysNotTooEarly(hist, Serve(applied), e);
      } else {
        var served := Served(q.cmds, applied);
        var i :| 0 <= i < |served| && Executions(served, applied)[i] == e;
        assert served[i] in served;
        ServedIsNotTooEarly(hist, q, applied, served[i]);
      }
    }
  }

  lemma StepKeepsExplained(hist: seq<Event>, q: Queue, ev: Event)
    requires Explained(hist, q) && Enabled(q, ev)
    ensures Explained(hist + [ev], Step(q, ev))
  {
    if ev.Serve? {
      ServeKeepsExplained(hist, q, ev.applied);
    } else {
      var q' := Step(q, ev);
      assert (hist + [ev])[|hist|] == ev;
      forall c | c in q'.cmds && c.readIndex > 0 ensures Confirm(c.uuid, c.readIndex) in hist + [ev] {
        var i :| 0 <= i < |q'.cmds| && q'.cmds[i] == c;
        assert (ev.Confirm? && i == q.ready) || c in q.cmds;
      }
      forall e | e in q'.executed ensures NotTooEarly(hist + [ev], e) {
        StaysNotTooEarly(hist, ev, e);
      }
    }
  }

  lemma {:induction false} RunKeepsExplained(hist: seq<Event>, q: Queue, evs: seq<Event>)
    requires Explained(hist, q) && Admissible(q, evs)
    ensures Explained(hist + evs, Run(q, evs))
    decreases evs
  {
    if evs == [] {
      assert hist + evs == hist;
    } else {
      StepKeepsExplained(hist, q, evs[0]);
      RunKeepsExplained(hist + [evs[0]], Step(q, evs[0]), evs[1..]);
      assert hist + [evs[0]] + evs[1..] == hist + evs;
    }
  }

  const EMPTY_QUEUE: Queue := Queue([], 0, [], [])

  /** In every run from the empty queue, a read is executed only at an applied index that has reached the index raft
      confirmed it at, and after that confirmation. */
  lemma ReadsWaitForTheirIndex(evs: seq<Event>, e: Execution)
    requires Admissible(EMPTY_QUEUE, evs) && e in Run(EMPTY_QUEUE, evs).executed
    ensures exists index :: 0 < index <= e.applied && ServedAfterConfirm(evs, e.cmd.uuid, index, e.applied)
  {
    RunKeepsExplained([], EMPTY_QUEUE, evs);
    assert [] + evs == evs;
    assert NotTooEarly(evs, e);
  }

  /** After serving at `applied`, every read left is unconfirmed or was confirmed at a later index. */
  lemma ServingLeavesNoneBehind(evs: seq<Event>, applied: nat, c: Read)
    requires Admissible(EMPTY_QUEUE, evs) && c in Step(Run(EMPTY_QUEUE, evs), Serve(applied)).cmds
    ensures c.readIndex == 0 || (c.readIndex > applied && Confirm(c.uuid, c.readIndex) in evs)
  {
    var q := Run(EMPTY_QUEUE, evs);
    RunKeepsExplained([], EMPTY_QUEUE, evs);
    assert [] + evs == evs;
    ServedMember(q.cmds, applied, c);
  }
}
