/** The apply delegate's pending-command queue: which callback an applied entry answers, and which commands
    are declared stale (raftstore/peer_apply.go, `doPropose` in raftstore/peer_job.go). */
module Commands {
  import opened Options

  /** A proposed command: its request ID and the term it was proposed in. */
  datatype Cmd = Cmd(uuid: nat, term: nat)

  /** A committed normal entry; the empty entry of a new leader carries no request. */
  datatype LogEntry = LogEntry(term: nat, uuid: Option<nat>)

  datatype Answer = Result | Stale | ShardNotFound

  /** `at` is the number of the event during which the response was sent. */
  datatype Response = Response(cmd: Cmd, answer: Answer, at: nat)

  // ---- specification of the queue operations

  /** The pending commands `popPendingCMD(term)` would pop one after the other. */
  function Outdated(pending: seq<Cmd>, term: int): (s: seq<Cmd>)
    ensures |s| <= |pending| && s == pending[..|s|]
    ensures forall i :: 0 <= i < |s| ==> s[i].term <= term
    ensures |s| < |pending| ==> pending[|s|].term > term
  {
    if pending == [] || pending[0].term > term then []
    else [pending[0]] + Outdated(pending[1..], term)
  }

  /** How many commands `findCB` answers as stale before it stops. */
  function StaleCount(pending: seq<Cmd>, term: nat, uuid: nat): (n: nat)
    ensures n <= |pending|
    ensures forall i :: 0 <= i < n ==> pending[i].term <= term && pending[i].uuid != uuid
    ensures n < |pending| ==> pending[n].term > term || pending[n].uuid == uuid
  {
    if pending == [] || pending[0].term > term || pending[0].uuid == uuid then 0
    else 1 + StaleCount(pending[1..], term, uuid)
  }

  predicate Matches(pending: seq<Cmd>, term: nat, uuid: nat) {
    var n := StaleCount(pending, term, uuid);
    n < |pending| && pending[n].term <= term
  }

  function Respond(cmds: seq<Cmd>, answer: Answer, at: nat): (r: seq<Response>)
    ensures |r| == |cmds|
  {
    seq(|cmds|, i requires 0 <= i < |cmds| => Response(cmds[i], answer, at))
  }

  /** The worker's view of one shard: whether a delegate is registered, its pending commands, and every
      response sent so far. */
  datatype Worker = Worker(registered: bool, pending: seq<Cmd>, responses: seq<Response>)

  datatype Event =
    | Propose(cmd: Cmd)
    | Apply(entry: LogEntry)
    | Register                  // the delegate is registered, or re-registered after a snapshot
    | Destroy

  /** Answering the first `n` pending commands as stale. */
  function DropStale(w: Worker, n: nat, at: nat): Worker
    requires n <= |w.pending|
  {
    w.(pending := w.pending[n..], responses := w.responses + Respond(w.pending[..n], Stale, at))
  }

  /** Sending the first pending command its result. */
  function AnswerHead(w: Worker, at: nat): Worker
    requires w.pending != []
  {
    w.(pending := w.pending[1..], responses := w.responses + [Response(w.pending[0], Result, at)])
  }

  function ApplyNormal(w: Worker, term: nat, uuid: nat, at: nat): Worker {
    var w1 := DropStale(w, StaleCount(w.pending, term, uuid), at);
    if Matches(w.pending, term, uuid) then AnswerHead(w1, at) else w1
  }

  function Step(w: Worker, ev: Event, at: nat): Worker {
    match ev
    case Propose(c) =>
      if w.registered then w.(pending := w.pending + [c])
      else w.(responses := w.responses + [Response(c, ShardNotFound, at)])
    case Apply(e) =>
      if !w.registered then w
      else if e.uuid.Some? then ApplyNormal(w, e.term, e.uuid.value, at)
      else DropStale(w, |Outdated(w.pending, e.term - 1)|, at)
    case Register =>
      if w.registered then DropStale(w, |w.pending|, at) else w.(registered := true)
    case Destroy =>
      if !w.registered then w
      else Worker(false, [], w.responses + Respond(w.pending, ShardNotFound, at))
  }

  const IDLE: Worker := Worker(false, [], [])

  /** The worker after the first `k` events. */
  function After(tr: seq<Event>, k: nat): Worker
    requires k <= |tr|
  {
    if k == 0 then IDLE else Step(After(tr, k - 1), tr[k - 1], k - 1)
  }

  // ---- the code

  class ApplyDelegate {
    var pendingCMDs: seq<Cmd>
    var sent: seq<Response>

    /** A registered delegate as the specification sees it. */
    ghost function View(): Worker
      reads this
    {
      Worker(true, pendingCMDs, sent)
    }

    constructor (answered: seq<Response>)
      ensures View() == Worker(true, [], answered)
    {
      pendingCMDs, sent := [], answered;
    }

    /** `doPropose` for a command that is not a configuration change. */
    method AppendPending(c: Cmd, at: nat)
      modifies this
      ensures View() == Step(old(View()), Propose(c), at)
    {
      pendingCMDs := pendingCMDs + [c];
    }

    /** `applyEntry` as far as the callbacks go; a client write always has a response to send. */
    method ApplyEntry(e: LogEntry, at: nat)
      modifies this
      ensures View() == Step(old(View()), Apply(e), at)
    {
      if e.uuid.Some? {
        var c := FindCB(e.term, e.uuid.value, at);
        if c.Some? { Notify(c.value, Result, at); }
      } else {
        SweepBelow(e.term - 1, at);
      }
    }

    /** `doRegistrationJob` on a shard that already has a delegate. */
    method Reregister(at: nat)
      modifies this
      ensures View() == Step(old(View()), Register, at)
    {
      AnswerAll(Stale, at);
      assert old(pendingCMDs)[..|old(pendingCMDs)|] == old(pendingCMDs);
    }

    method PopPendingCMD(raftLogEntryTerm: int) returns (r: Option<Cmd>)
      modifies this`pendingCMDs
      ensures r.None? ==> pendingCMDs == old(pendingCMDs) && Outdated(pendingCMDs, raftLogEntryTerm) == []
      ensures r.Some? ==> |old(pendingCMDs)| > 0 && r.value == old(pendingCMDs)[0] && r.value.term <= raftLogEntryTerm
      ensures r.Some? ==> pendingCMDs == old(pendingCMDs)[1..]
    {
      if |pendingCMDs| == 0 || pendingCMDs[0].term > raftLogEntryTerm { return None; }
      r := Some(pendingCMDs[0]);
      pendingCMDs := pendingCMDs[1..];
    }

    method Notify(c: Cmd, answer: Answer, at: nat)
      modifies this`sent
      ensures sent == old(sent) + [Response(c, answer, at)]
    {
      sent := sent + [Response(c, answer, at)];
    }

    /** `findCB` for a normal entry: pops until the entry's own command, answering the others as stale. */
    method FindCB(term: nat, uuid: nat, at: nat) returns (r: Option<Cmd>)
      modifies this
      ensures var n := StaleCount(old(pendingCMDs), term, uuid);
              && sent == old(sent) + Respond(old(pendingCMDs)[..n], Stale, at)
              && if Matches(old(pendingCMDs), term, uuid)
                 then r == Some(old(pendingCMDs)[n]) && pendingCMDs == old(pendingCMDs)[n + 1..]
                 else r == None && pendingCMDs == old(pendingCMDs)[n..]
    {
      ghost var start := pendingCMDs;
      ghost var n := StaleCount(start, term, uuid);
      ghost var k := 0;
      while true
        invariant 0 <= k <= n && pendingCMDs == start[k..]
        invariant sent == old(sent) + Respond(start[..k], Stale, at)
        decreases n - k
      {
        var head := PopPendingCMD(term);
        assert k < |start| ==> start[k..][0] == start[k] && start[k..][1..] == start[k + 1..];
        if head.None? {
          assert k == n;
          return None;
        }
        if head.value.uuid == uuid {
          assert k == n;
          return head;
        }
        Notify(head.value, Stale, at);
        assert Respond(start[..k + 1], Stale, at) == Respond(start[..k], Stale, at) + [Response(start[k], Stale, at)];
        k := k + 1;
      }
    }

    /** The loop at the end of `applyEntry` for an empty entry. */
    method SweepBelow(term: int, at: nat)
      modifies this
      ensures var n := |Outdated(old(pendingCMDs), term)|;
              pendingCMDs == old(pendingCMDs)[n..] && sent == old(sent) + Respond(old(pendingCMDs)[..n], Stale, at)
    {
      ghost var start := pendingCMDs;
      ghost var n := |Outdated(start, term)|;
      ghost var k := 0;
      while true
        invariant 0 <= k <= n && pendingCMDs == start[k..]
        invariant sent == old(sent) + Respond(start[..k], Stale, at)
        decreases n - k
      {
        var head := PopPendingCMD(term);
        assert k < |start| ==> start[k..][0] == start[k] && start[k..][1..] == start[k + 1..];
        if head.None? { break; }
        Notify(head.value, Stale, at);
        assert Respond(start[..k + 1], Stale, at) == Respond(start[..k], Stale, at) + [Response(start[k], Stale, at)];
        k := k + 1;
      }
    }

    /** `clearAllCommandsAsStale` with `Stale`, `destroy` with `ShardNotFound`. */
    method AnswerAll(answer: Answer, at: nat)
      modifies this
      ensures pendingCMDs == [] && sent == old(sent) + Respond(old(pendingCMDs), answer, at)
    {
      for k := 0 to |pendingCMDs|
        invariant pendingCMDs == old(pendingCMDs)
        invariant sent == old(sent) + Respond(pendingCMDs[..k], answer, at)
      {
        Notify(pendingCMDs[k], answer, at);
        assert Respond(pendingCMDs[..k + 1], answer, at) ==
               Respond(pendingCMDs[..k], answer, at) + [Response(pendingCMDs[k], answer, at)];
      }
      assert pendingCMDs[..|pendingCMDs|] == pendingCMDs;
      pendingCMDs := [];
    }
  }

  // ---- every command is answered exactly once

  function Answered(responses: seq<Response>): (s: seq<Cmd>)
    ensures |s| == |responses|
  {
    seq(|responses|, i requires 0 <= i < |responses| => responses[i].cmd)
  }

  function Proposed(tr: seq<Event>, k: nat): multiset<Cmd>
    requires k <= |tr|
  {
    if k == 0 then multiset{} else Proposed(tr, k - 1) + ProposedBy(tr[k - 1])
  }

  function ProposedBy(ev: Event): multiset<Cmd> {
    if ev.Propose? then multiset{ev.cmd} else multiset{}
  }

  lemma AnsweredAppend(a: seq<Response>, cmds: seq<Cmd>, answer: Answer, at: nat)
    ensures multiset(Answered(a + Respond(cmds, answer, at))) == multiset(Answered(a)) + multiset(cmds)
  {
    assert Answered(a + Respond(cmds, answer, at)) == Answered(a) + cmds;
  }

  lemma SplitMultiset(s: seq<Cmd>, n: nat)
    requires n <= |s|
    ensures multiset(s) == multiset(s[..n]) + multiset(s[n..])
  {
    assert s == s[..n] + s[n..];
  }

  ghost function Settled(w: Worker): multiset<Cmd> {
    multiset(Answered(w.responses)) + multiset(w.pending)
  }

  lemma DropStaleConserves(w: Worker, n: nat, at: nat)
    requires n <= |w.pending|
    ensures Settled(DropStale(w, n, at)) == Settled(w)
  {
    AnsweredAppend(w.responses, w.pending[..n], Stale, at);
    SplitMultiset(w.pending, n);
  }

  lemma AnswerHeadConserves(w: Worker, at: nat)
    requires w.pending != []
    ensures Settled(AnswerHead(w, at)) == Settled(w)
  {
    AnsweredAppend(w.responses, [w.pending[0]], Result, at);
    assert Respond([w.pending[0]], Result, at) == [Response(w.pending[0], Result, at)];
    SplitMultiset(w.pending, 1);
    assert w.pending[..1] == [w.pending[0]];
  }

  lemma ApplyConserves(w: Worker, e: LogEntry, at: nat)
    ensures Settled(Step(w, Apply(e), at)) == Settled(w)
  {
    if w.registered {
      if e.uuid.Some? {
        var n := StaleCount(w.pending, e.term, e.uuid.value);
        DropStaleConserves(w, n, at);
        if Matches(w.pending, e.term, e.uuid.value) {
          AnswerHeadConserves(DropStale(w, n, at), at);
        }
      } else {
        DropStaleConserves(w, |Outdated(w.pending, e.term - 1)|, at);
      }
    }
  }

  lemma ProposeConserves(w: Worker, c: Cmd, at: nat)
    ensures Settled(Step(w, Propose(c), at)) == Settled(w) + multiset{c}
  {
    if !w.registered {
      AnsweredAppend(w.responses, [c], ShardNotFound, at);
      assert Respond([c], ShardNotFound, at) == [Response(c, ShardNotFound, at)];
    }
  }

  lemma EndConserves(w: Worker, ev: Event, at: nat)
    requires ev.Register? || ev.Destroy?
    ensures Settled(Step(w, ev, at)) == Settled(w)
  {
    if w.registered {
      if ev.Register? {
        DropStaleConserves(w, |w.pending|, at);
      } else {
        AnsweredAppend(w.responses, w.pending, ShardNotFound, at);
      }
    }
  }

  lemma StepConserves(w: Worker, ev: Event, at: nat)
    ensures Settled(Step(w, ev, at)) == Settled(w) + ProposedBy(ev)
  {
    match ev
    case Propose(c) => ProposeConserves(w, c, at);
    case Apply(e) => ApplyConserves(w, e, at);
    case Register => EndConserves(w, ev, at);
    case Destroy => EndConserves(w, ev, at);
  }

  /** Over any run, the commands answered and those still pending are together the commands proposed, each
      as often as it was proposed: once when request IDs are distinct. */
  lemma {:induction false} AnsweredOrPendingExactlyOnce(tr: seq<Event>, k: nat)
    requires k <= |tr|
    ensures Settled(After(tr, k)) == Proposed(tr, k)
  {
    if k == 0 {
      NothingSettled();
    } else {
      AnsweredOrPendingExactlyOnce(tr, k - 1);
      var w := After(tr, k - 1);
      StepConserves(w, tr[k - 1], k - 1);
      assert Settled(After(tr, k)) == Settled(w) + ProposedBy(tr[k - 1]);
    }
  }

  lemma NothingSettled()
    ensures Settled(IDLE) == multiset{}
  {
    assert Answered([]) == [];
  }

  /** The entry of command `c` is applied by event `j`. */
  predicate AppliedAt(tr: seq<Event>, j: nat, c: Cmd)
    requires j < |tr|
  {
    tr[j].Apply? && tr[j].entry.uuid == Some(c.uuid)
  }

  /** A successful answer goes to the command whose request was applied, at the moment it is applied. */
  ghost predicate ResultsMatch(tr: seq<Event>, responses: seq<Response>) {
    forall i :: 0 <= i < |responses| && responses[i].answer == Result ==>
      responses[i].at < |tr| && AppliedAt(tr, responses[i].at, responses[i].cmd)
  }

  /** A step answers pending commands, or the one just proposed; a result goes to the command its entry names. */
  lemma StepAnswers(w: Worker, ev: Event, at: nat)
    ensures w.responses <= Step(w, ev, at).responses
    ensures forall i :: |w.responses| <= i < |Step(w, ev, at).responses| ==>
              var r := Step(w, ev, at).responses[i];
              && r.at == at && (r.answer == ShardNotFound || r.cmd in w.pending)
              && (r.answer == Result ==> ev.Apply? && ev.entry.uuid == Some(r.cmd.uuid))
  {
  }

  lemma {:induction false} ResultsBelongToTheirEntries(tr: seq<Event>, k: nat)
    requires k <= |tr|
    ensures ResultsMatch(tr, After(tr, k).responses)
  {
    if k == 0 {
    } else {
      ResultsBelongToTheirEntries(tr, k - 1);
      var w := After(tr, k - 1);
      StepKeepsMatch(tr, w, k - 1);
      assert After(tr, k) == Step(w, tr[k - 1], k - 1);
    }
  }

  lemma StepKeepsMatch(tr: seq<Event>, w: Worker, at: nat)
    requires at < |tr| && ResultsMatch(tr, w.responses)
    ensures ResultsMatch(tr, Step(w, tr[at], at).responses)
  {
    StepAnswers(w, tr[at], at);
    var after := Step(w, tr[at], at).responses;
    assert forall i :: |w.responses| <= i < |after| && after[i].answer == Result ==>
                         after[i].at == at && AppliedAt(tr, at, after[i].cmd);
    MatchExtends(tr, w.responses, after, at);
  }

  lemma MatchExtends(tr: seq<Event>, before: seq<Response>, after: seq<Response>, at: nat)
    requires at < |tr| && before <= after && ResultsMatch(tr, before)
    requires forall i :: |before| <= i < |after| && after[i].answer == Result ==>
               after[i].at == at && AppliedAt(tr, at, after[i].cmd)
    ensures ResultsMatch(tr, after)
  {
    forall i | 0 <= i < |after| && after[i].answer == Result
      ensures after[i].at < |tr| && AppliedAt(tr, after[i].at, after[i].cmd)
    {
      if i < |before| { assert before[i] == after[i]; }
    }
  }
}
