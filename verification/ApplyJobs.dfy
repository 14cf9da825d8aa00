/** How the trace of the apply worker comes about: the event loop of a peer queues its jobs in the order of its own
    calls (raftstore/peer_event_proposal.go, peer_event_raft_ready.go, peer_job.go), and the worker runs them first
    in, first out. What raft promises is stated where it hands entries out; the rest of `Base` follows. */
module ApplyJobs {
  import opened Commands
  import opened StaleAnswers
  import opened Options

  /** `offered` is the command the event loop has given to raft and not yet queued a job for. */
  datatype System = System(offered: Option<Cmd>, queue: seq<Event>, done: seq<Event>, worker: Worker)

  const START: System := System(None, [], [], IDLE)

  /** All jobs so far, in the order they were queued. */
  function Jobs(s: System): seq<Event> {
    s.done + s.queue
  }

  datatype Action =
    | Offer(cmd: Cmd)        // `Propose` is called on raft
    | StartProposeJob        // raft appended the request
    | Refuse                 // raft failed, dropped or forwarded it: the client is told, and no job is queued
    | HandOut(entry: LogEntry)
    | StartRegistrationJob
    | StartDestroyJob        // also from outside the event loop
    | RunOldest

  // ---- promises

  /** A request ID is drawn anew for every proposal. */
  ghost predicate FreshID(jobs: seq<Event>, c: Cmd) {
    && (forall j :: 0 <= j < |jobs| ==> !AppliedAt(jobs, j, c))
    && (forall p, d :: 0 <= p < |jobs| && ProposedAt(jobs, p, d) ==> d.uuid != c.uuid)
  }

  /** Raft's term never decreases. */
  ghost predicate CurrentTerm(jobs: seq<Event>, c: Cmd) {
    forall p, d :: 0 <= p < |jobs| && ProposedAt(jobs, p, d) ==> d.term <= c.term
  }

  /** Committed entries are handed out in the order of the log, whose terms never decrease. */
  ghost predicate TermsGrow(jobs: seq<Event>, e: LogEntry) {
    forall j :: 0 <= j < |jobs| && Applies(jobs, j) ==> jobs[j].entry.term <= e.term
  }

  /** The entry of a proposal: appended once, in the term of the proposal, in the order of the proposals of that
      term, and not handed out when a snapshot covers it. */
  ghost predicate IsEntryOf(jobs: seq<Event>, e: LogEntry, p: nat, c: Cmd)
    requires p < |jobs|
  {
    && e.term == c.term
    && (forall j :: 0 <= j < |jobs| ==> !AppliedAt(jobs, j, c))
    && (forall q, d, b {:trigger ProposedAt(jobs, q, d), AppliedAt(jobs, b, d)} ::
          p < q < |jobs| && 0 <= b < |jobs| && ProposedAt(jobs, q, d) && d.term == c.term ==> !AppliedAt(jobs, b, d))
    && (Kept(jobs, p, c) ==> forall i :: p < i < |jobs| ==> !Registers(jobs, i))
  }

  ghost predicate RaftPromise(jobs: seq<Event>, e: LogEntry) {
    && TermsGrow(jobs, e)
    && forall p, c :: 0 <= p < |jobs| && ProposedAt(jobs, p, c) && e.uuid == Some(c.uuid) ==> IsEntryOf(jobs, e, p, c)
  }

  // ---- steps

  ghost predicate Enabled(s: System, a: Action) {
    match a
    case Offer(c) => s.offered.None? && FreshID(Jobs(s), c) && CurrentTerm(Jobs(s), c)
    case StartProposeJob => s.offered.Some?
    case Refuse => s.offered.Some?
    case HandOut(e) => s.offered.None? && RaftPromise(Jobs(s), e)
    case StartRegistrationJob => true
    case StartDestroyJob => true
    case RunOldest => s.queue != []
  }

  ghost function Next(s: System, a: Action): System
    requires Enabled(s, a)
  {
    match a
    case Offer(c) => s.(offered := Some(c))
    case StartProposeJob => s.(offered := None, queue := s.queue + [Propose(s.offered.value)])
    case Refuse => s.(offered := None)
    case HandOut(e) => s.(queue := s.queue + [Apply(e)])
    case StartRegistrationJob => s.(queue := s.queue + [Register])
    case StartDestroyJob => s.(queue := s.queue + [Destroy])
    case RunOldest =>
      s.(queue := s.queue[1..], done := s.done + [s.queue[0]], worker := Step(s.worker, s.queue[0], |s.done|))
  }

  ghost predicate Admissible(s: System, actions: seq<Action>)
    decreases actions
  {
    actions == [] || (Enabled(s, actions[0]) && Admissible(Next(s, actions[0]), actions[1..]))
  }

  ghost function Run(s: System, actions: seq<Action>): System
    requires Admissible(s, actions)
    decreases actions
  {
    if actions == [] then s else Run(Next(s, actions[0]), actions[1..])
  }

  // ---- one job more

  lemma {:induction false} AfterPrefix(tr: seq<Event>, more: seq<Event>, k: nat)
    requires k <= |tr|
    ensures After(tr + more, k) == After(tr, k)
  {
    if k == 0 {
    } else {
      AfterPrefix(tr, more, k - 1);
      assert (tr + more)[k - 1] == tr[k - 1];
    }
  }

  /** What holds at a position of the longer trace holds at that position of the shorter one, and back. */
  ghost predicate Agree(tr: seq<Event>, all: seq<Event>) {
    && |tr| <= |all| && all[..|tr|] == tr
    && (forall p, c :: 0 <= p < |tr| ==> (ProposedAt(all, p, c) <==> ProposedAt(tr, p, c)))
    && (forall p, c :: 0 <= p < |tr| ==> (Kept(all, p, c) <==> Kept(tr, p, c)))
    && (forall j, c :: 0 <= j < |tr| ==> (AppliedAt(all, j, c) <==> AppliedAt(tr, j, c)))
    && (forall j :: 0 <= j < |tr| ==> (Applies(all, j) <==> Applies(tr, j)))
    && (forall j :: 0 <= j < |tr| ==> (Registers(all, j) <==> Registers(tr, j)))
  }

  lemma PrefixAgrees(tr: seq<Event>, more: seq<Event>)
    ensures Agree(tr, tr + more)
  {
    var all := tr + more;
    assert forall p :: 0 <= p < |tr| ==> all[p] == tr[p];
    forall p, c | 0 <= p < |tr| ensures Kept(all, p, c) <==> Kept(tr, p, c) {
      AfterPrefix(tr, more, p);
    }
  }

  lemma BasePrefix(tr: seq<Event>, more: seq<Event>)
    requires Base(tr + more)
    ensures Base(tr)
  {
    PrefixAgrees(tr, more);
    AgreeKeepsBase(tr, tr + more);
  }

  lemma AgreeKeepsBase(tr: seq<Event>, all: seq<Event>)
    requires Agree(tr, all) && Base(all)
    ensures Base(tr)
  {
    assert forall p :: 0 <= p < |tr| ==> tr[p] == all[p];
    assert LogTermsOrdered(tr) && ProposalsOrdered(tr);
    assert OwnEntries(tr);
    assert SameTermOrder(tr);
    assert SnapshotCovers(tr);
  }

  lemma ProposeKeepsBase(jobs: seq<Event>, c: Cmd)
    requires Base(jobs) && FreshID(jobs, c) && CurrentTerm(jobs, c)
    ensures Base(jobs + [Propose(c)])
  {
    var all := jobs + [Propose(c)];
    PrefixAgrees(jobs, [Propose(c)]);
    assert forall p :: 0 <= p < |jobs| ==> all[p] == jobs[p];
    assert forall d :: !AppliedAt(all, |jobs|, d);
    assert forall d :: ProposedAt(all, |jobs|, d) ==> d == c;
    assert LogTermsOrdered(all) && ProposalsOrdered(all);
    assert OwnEntries(all);
    assert SameTermOrder(all);
    assert SnapshotCovers(all);
  }

  lemma MarkKeepsBase(jobs: seq<Event>, mark: Event)
    requires Base(jobs) && (mark == Register || mark == Destroy)
    ensures Base(jobs + [mark])
  {
    var all := jobs + [mark];
    PrefixAgrees(jobs, [mark]);
    assert forall p :: 0 <= p < |jobs| ==> all[p] == jobs[p];
    assert forall d :: !AppliedAt(all, |jobs|, d) && !ProposedAt(all, |jobs|, d);
    assert LogTermsOrdered(all) && ProposalsOrdered(all);
    assert OwnEntries(all);
    assert SameTermOrder(all);
    assert SnapshotCovers(all);
  }

  lemma ApplyKeepsBase(jobs: seq<Event>, e: LogEntry)
    requires Base(jobs) && RaftPromise(jobs, e)
    ensures Base(jobs + [Apply(e)])
  {
    var all := jobs + [Apply(e)];
    PrefixAgrees(jobs, [Apply(e)]);
    assert forall p :: 0 <= p < |jobs| ==> all[p] == jobs[p];
    assert forall d :: !ProposedAt(all, |jobs|, d);
    assert forall d :: AppliedAt(all, |jobs|, d) ==> e.uuid == Some(d.uuid);
    assert LogTermsOrdered(all) && ProposalsOrdered(all);
    assert OwnEntries(all);
    assert SameTermOrder(all);
    assert SnapshotCovers(all);
  }

  // ---- every run

  ghost predicate Inv(s: System) {
    && Base(Jobs(s))
    && s.worker == After(s.done, |s.done|)
    && (s.offered.Some? ==> FreshID(Jobs(s), s.offered.value) && CurrentTerm(Jobs(s), s.offered.value))
  }

  /** While a request is on its way from raft to the queue, only a registration or a destruction can be queued. */
  lemma MarkKeepsFresh(jobs: seq<Event>, mark: Event, c: Cmd)
    requires FreshID(jobs, c) && CurrentTerm(jobs, c) && (mark == Register || mark == Destroy)
    ensures FreshID(jobs + [mark], c) && CurrentTerm(jobs + [mark], c)
  {
    PrefixAgrees(jobs, [mark]);
  }

  lemma QueuedKeepsInv(s: System, a: Action)
    requires Inv(s) && Enabled(s, a) && !a.Offer? && !a.Refuse? && !a.RunOldest?
    ensures Inv(Next(s, a))
  {
    var jobs := Jobs(s);
    assert s.done + (s.queue + [Register]) == jobs + [Register] && s.done + (s.queue + [Destroy]) == jobs + [Destroy];
    match a
    case StartProposeJob =>
      ProposeKeepsBase(jobs, s.offered.value);
      assert Jobs(Next(s, a)) == jobs + [Propose(s.offered.value)];
    case HandOut(e) =>
      ApplyKeepsBase(jobs, e);
      assert Jobs(Next(s, a)) == jobs + [Apply(e)];
    case StartRegistrationJob =>
      MarkKeepsBase(jobs, Register);
      if s.offered.Some? { MarkKeepsFresh(jobs, Register, s.offered.value); }
    case StartDestroyJob =>
      MarkKeepsBase(jobs, Destroy);
      if s.offered.Some? { MarkKeepsFresh(jobs, Destroy, s.offered.value); }
  }

  lemma RunKeepsInv(s: System)
    requires Inv(s) && s.queue != []
    ensures Inv(Next(s, RunOldest))
  {
    var job := s.queue[0];
    assert s.done + [job] + s.queue[1..] == s.done + s.queue;
    AfterPrefix(s.done, [job], |s.done|);
    assert (s.done + [job])[|s.done|] == job;
  }

  lemma NextKeepsInv(s: System, a: Action)
    requires Inv(s) && Enabled(s, a)
    ensures Inv(Next(s, a))
  {
    match a
    case Offer(_) =>
    case Refuse =>
    case RunOldest => RunKeepsInv(s);
    case _ => QueuedKeepsInv(s, a);
  }

  lemma {:induction false} RunsKeepInv(s: System, actions: seq<Action>)
    requires Inv(s) && Admissible(s, actions)
    ensures Inv(Run(s, actions))
    decreases actions
  {
    if actions == [] {
    } else {
      NextKeepsInv(s, actions[0]);
      RunsKeepInv(Next(s, actions[0]), actions[1..]);
    }
  }

  /** In every run the worker's trace satisfies `Base`, a command's proposal before its entry included, so that its
      stale answers are true, and its results complete, exactly when no kept command was overtaken. */
  lemma WorkerAnswersRightExactlyWhen(actions: seq<Action>)
    requires Admissible(START, actions)
    ensures var s := Run(START, actions);
            && s.worker == After(s.done, |s.done|) && Base(s.done)
            && (Truthful(s.done) <==> NoneOvertaken(s.done))
            && (AllAnswered(s.done) <==> NoneOvertaken(s.done))
  {
    assert Jobs(START) == [];
    RunsKeepInv(START, actions);
    var s := Run(START, actions);
    BasePrefix(s.done, s.queue);
    AnswersAreRightExactlyWhen(s.done);
  }

  // ---- the promises do not exclude overtaking

  lemma Then(s: System, a: Action, rest: seq<Action>)
    requires Enabled(s, a) && Admissible(Next(s, a), rest)
    ensures Admissible(s, [a] + rest) && Run(s, [a] + rest) == Run(Next(s, a), rest)
  {
    assert ([a] + rest)[0] == a && ([a] + rest)[1..] == rest;
  }

  /** Left alone, the worker runs everything queued. */
  lemma {:induction false} WorkerDrains(s: System) returns (actions: seq<Action>)
    ensures Admissible(s, actions) && Run(s, actions).done == Jobs(s)
    decreases |s.queue|
  {
    if s.queue == [] {
      actions := [];
    } else {
      var s' := Next(s, RunOldest);
      assert Jobs(s') == Jobs(s);
      var rest := WorkerDrains(s');
      Then(s, RunOldest, rest);
      actions := [RunOldest] + rest;
    }
  }

  lemma ForwardedRequestOvertakes() returns (actions: seq<Action>)
    ensures Admissible(START, actions) && Run(START, actions).done == FORWARDED
    ensures !Truthful(Run(START, actions).done)
  {
    var c, foreign, own := Cmd(1, 6), LogEntry(6, Some(99)), LogEntry(6, Some(1));
    var s1 := Next(START, StartRegistrationJob);
    assert Jobs(s1) == [Register];
    var s2 := Next(s1, Offer(c));
    var s3 := Next(s2, StartProposeJob);
    assert Jobs(s3) == [Register, Propose(c)];
    assert RaftPromise(Jobs(s3), foreign);
    var s4 := Next(s3, HandOut(foreign));
    assert Jobs(s4) == [Register, Propose(c), Apply(foreign)];
    OwnEntryMayFollow();
    var s5 := Next(s4, HandOut(own));
    assert Jobs(s5) == FORWARDED;
    var drain := WorkerDrains(s5);
    Then(s4, HandOut(own), drain);
    var a4 := [HandOut(own)] + drain;
    Then(s3, HandOut(foreign), a4);
    var a3 := [HandOut(foreign)] + a4;
    Then(s2, StartProposeJob, a3);
    var a2 := [StartProposeJob] + a3;
    Then(s1, Offer(c), a2);
    var a1 := [Offer(c)] + a2;
    Then(START, StartRegistrationJob, a1);
    actions := [StartRegistrationJob] + a1;
    ForwardedProposalBreaksStaleness();
  }

  lemma OwnEntryMayFollow()
    ensures RaftPromise([Register, Propose(Cmd(1, 6)), Apply(LogEntry(6, Some(99)))], LogEntry(6, Some(1)))
  {
    var jobs, e := [Register, Propose(Cmd(1, 6)), Apply(LogEntry(6, Some(99)))], LogEntry(6, Some(1));
    forall p, c | 0 <= p < |jobs| && ProposedAt(jobs, p, c) && e.uuid == Some(c.uuid) ensures IsEntryOf(jobs, e, p, c) {
      assert p == 1;
    }
  }
}
