/** When the answer "stale command" is true (`findCB`, `popPendingCMD` and the sweeps in raftstore/peer_apply.go).
    A trace holds the jobs of one shard's apply worker in the order it runs them. */
module StaleAnswers {
  import opened Commands
  import opened Options

  predicate ProposedAt(tr: seq<Event>, p: nat, c: Cmd)
    requires p < |tr|
  {
    tr[p] == Propose(c)
  }

  /** Proposed at `p` while a delegate was there to keep it. */
  ghost predicate Kept(tr: seq<Event>, p: nat, c: Cmd)
    requires p < |tr|
  {
    ProposedAt(tr, p, c) && After(tr, p).registered
  }

  /** The entry of `c` comes at `j` and there is a delegate to apply it. */
  ghost predicate AppliedHere(tr: seq<Event>, j: nat, c: Cmd)
    requires j < |tr|
  {
    AppliedAt(tr, j, c) && After(tr, j).registered
  }

  predicate Applies(tr: seq<Event>, j: nat)
    requires j < |tr|
  {
    tr[j].Apply?
  }

  predicate Registers(tr: seq<Event>, i: nat)
    requires i < |tr|
  {
    tr[i].Register?
  }

  // ---- what is known of a trace

  /** Committed terms never decrease. */
  ghost predicate LogTermsOrdered(tr: seq<Event>) {
    forall i, j :: 0 <= i < j < |tr| && Applies(tr, i) && Applies(tr, j) ==> tr[i].entry.term <= tr[j].entry.term
  }

  /** Proposals carry distinct IDs and the current term, which never decreases. */
  ghost predicate ProposalsOrdered(tr: seq<Event>) {
    forall p, q, c, d :: 0 <= p < q < |tr| && ProposedAt(tr, p, c) && ProposedAt(tr, q, d) ==>
      c.term <= d.term && c.uuid != d.uuid
  }

  /** A command's own entry has its term, comes once, and only after the proposal. */
  ghost predicate OwnEntries(tr: seq<Event>) {
    && (forall p, j, c :: 0 <= p < |tr| && 0 <= j < |tr| && ProposedAt(tr, p, c) && AppliedAt(tr, j, c) ==>
          p < j && tr[j].entry.term == c.term)
    && (forall p, a, b, c {:trigger ProposedAt(tr, p, c), AppliedAt(tr, a, c), AppliedAt(tr, b, c)} ::
          0 <= p < |tr| && 0 <= a < b < |tr| && ProposedAt(tr, p, c) && AppliedAt(tr, a, c) ==> !AppliedAt(tr, b, c))
  }

  /** Proposals of one term sit in the log in proposal order. */
  ghost predicate SameTermOrder(tr: seq<Event>) {
    forall p, q, c, d, a, b ::
      (&& 0 <= p < q < |tr| && ProposedAt(tr, p, c) && ProposedAt(tr, q, d) && c.term == d.term
       && 0 <= a < |tr| && 0 <= b < |tr| && AppliedAt(tr, a, c) && AppliedAt(tr, b, d))
      ==> a < b
  }

  /** A snapshot covers every command kept before it. */
  ghost predicate SnapshotCovers(tr: seq<Event>) {
    forall p, i, j, c {:trigger Kept(tr, p, c), Registers(tr, i), AppliedAt(tr, j, c)} ::
      0 <= p < i < j < |tr| && Kept(tr, p, c) && Registers(tr, i) ==> !AppliedAt(tr, j, c)
  }

  ghost predicate Base(tr: seq<Event>) {
    && LogTermsOrdered(tr) && ProposalsOrdered(tr) && OwnEntries(tr) && SameTermOrder(tr) && SnapshotCovers(tr)
  }

  // ---- what is claimed

  ghost predicate NeverAppliedFrom(tr: seq<Event>, k: nat, c: Cmd) {
    forall j :: k <= j < |tr| ==> !AppliedHere(tr, j, c)
  }

  /** No command answered as stale, by `findCB`, by the sweep of an empty entry or at a re-registration, has
      its own entry applied at that moment or later. */
  ghost predicate Truthful(tr: seq<Event>) {
    var responses := After(tr, |tr|).responses;
    forall i :: 0 <= i < |responses| && responses[i].answer == Stale ==>
      NeverAppliedFrom(tr, responses[i].at, responses[i].cmd)
  }

  /** Applying the entry of a command kept here answers that very command with its result. */
  ghost predicate AllAnswered(tr: seq<Event>) {
    forall p, a, c :: 0 <= p < |tr| && 0 <= a < |tr| && Kept(tr, p, c) && AppliedHere(tr, a, c) ==>
      Response(c, Result, a) in After(tr, |tr|).responses
  }

  /** Event `j` applies a request no command kept here stands for, as one forwarded by a deposed leader. */
  ghost predicate Foreign(tr: seq<Event>, j: nat)
    requires j < |tr|
  {
    && tr[j].Apply? && tr[j].entry.uuid.Some?
    && forall q, d :: 0 <= q < j && Kept(tr, q, d) ==> !AppliedAt(tr, j, d)
  }

  /** A foreign request of `c`'s term comes between the proposal of `c` and its entry. */
  ghost predicate Overtaken(tr: seq<Event>, p: nat, j: nat, a: nat, c: Cmd) {
    && p < j < a < |tr| && Kept(tr, p, c) && AppliedHere(tr, a, c)
    && Foreign(tr, j) && tr[j].entry.term == c.term
  }

  ghost predicate NoneOvertaken(tr: seq<Event>) {
    forall p, j, a, c :: !Overtaken(tr, p, j, a, c)
  }

  // ---- the queue is in proposal order, whatever happens

  ghost predicate KeptBefore(tr: seq<Event>, k: nat, c: Cmd) {
    exists p :: 0 <= p < k && p < |tr| && Kept(tr, p, c)
  }

  /** `c` was proposed before `d`. */
  ghost predicate Precedes(tr: seq<Event>, c: Cmd, d: Cmd) {
    exists p, q :: 0 <= p < q < |tr| && ProposedAt(tr, p, c) && ProposedAt(tr, q, d)
  }

  ghost predicate QueueOrdered(tr: seq<Event>, k: nat, pending: seq<Cmd>) {
    && (forall i {:trigger KeptBefore(tr, k, pending[i])} :: 0 <= i < |pending| ==> KeptBefore(tr, k, pending[i]))
    && (forall i, j {:trigger Precedes(tr, pending[i], pending[j])} ::
          0 <= i < j < |pending| ==> Precedes(tr, pending[i], pending[j]))
  }

  lemma DropKeepsOrder(tr: seq<Event>, k: nat, pending: seq<Cmd>, n: nat)
    requires n <= |pending| && QueueOrdered(tr, k, pending)
    ensures QueueOrdered(tr, k + 1, pending[n..])
  {
    var rest := pending[n..];
    forall i | 0 <= i < |rest| ensures KeptBefore(tr, k + 1, rest[i]) {
      assert KeptBefore(tr, k, pending[i + n]);
    }
    forall i, j | 0 <= i < j < |rest| ensures Precedes(tr, rest[i], rest[j]) {
      assert Precedes(tr, pending[i + n], pending[j + n]);
    }
  }

  lemma ProposeKeepsOrder(tr: seq<Event>, k: nat, pending: seq<Cmd>, c: Cmd)
    requires k < |tr| && Kept(tr, k, c) && QueueOrdered(tr, k, pending)
    ensures QueueOrdered(tr, k + 1, pending + [c])
  {
    var more := pending + [c];
    forall i | 0 <= i < |more| ensures KeptBefore(tr, k + 1, more[i]) {
      if i < |pending| { assert KeptBefore(tr, k, pending[i]); }
    }
    forall i, j | 0 <= i < j < |more| ensures Precedes(tr, more[i], more[j]) {
      if j == |pending| {
        assert KeptBefore(tr, k, pending[i]);
        assert ProposedAt(tr, k, c);
      } else {
        assert Precedes(tr, pending[i], pending[j]);
      }
    }
  }

  /** Every step drops a prefix of the queue, and a proposal adds its command at the end. */
  lemma StepPending(w: Worker, ev: Event, at: nat) returns (n: nat)
    requires !w.registered ==> w.pending == []
    ensures n <= |w.pending|
    ensures Step(w, ev, at).pending == w.pending[n..] + if ev.Propose? && w.registered then [ev.cmd] else []
    ensures ev.Propose? ==> n == 0
    ensures !Step(w, ev, at).registered ==> Step(w, ev, at).pending == []
  {
    match ev
    case Propose(_) => n := 0;
    case Destroy => n := |w.pending|;
    case Register => n := |w.pending|;
    case Apply(e) => n := ApplyPending(w, e, at);
  }

  lemma ApplyPending(w: Worker, e: LogEntry, at: nat) returns (n: nat)
    ensures n <= |w.pending| && Step(w, Apply(e), at).pending == w.pending[n..]
    ensures Step(w, Apply(e), at).registered == w.registered
  {
    if !w.registered {
      n := 0;
    } else if e.uuid.Some? {
      NormalPending(w, e.term, e.uuid.value, at);
      n := StaleCount(w.pending, e.term, e.uuid.value);
      if Matches(w.pending, e.term, e.uuid.value) { n := n + 1; }
    } else {
      n := |Outdated(w.pending, e.term - 1)|;
    }
  }

  lemma StepAddsOnlyProposed(w: Worker, ev: Event, at: nat, c: Cmd)
    requires (!w.registered ==> w.pending == []) && c !in w.pending && ev != Propose(c)
    ensures c !in Step(w, ev, at).pending
  {
    var n := StepPending(w, ev, at);
  }

  lemma ProposeOnlyAdds(w: Worker, c: Cmd, at: nat)
    requires w.registered
    ensures Step(w, Propose(c), at).pending == w.pending + [c]
    ensures forall d :: d in w.pending || d == c ==> d in Step(w, Propose(c), at).pending
  {
    var after := w.pending + [c];
    assert after[|w.pending|] == c;
    forall d | d in w.pending ensures d in after {
      var i :| 0 <= i < |w.pending| && w.pending[i] == d;
      assert after[i] == d;
    }
  }

  lemma NormalPending(w: Worker, term: nat, uuid: nat, at: nat)
    ensures var n := StaleCount(w.pending, term, uuid);
            ApplyNormal(w, term, uuid, at).pending == w.pending[if Matches(w.pending, term, uuid) then n + 1 else n..]
  {
    var n := StaleCount(w.pending, term, uuid);
    if n < |w.pending| { assert w.pending[n..][1..] == w.pending[n + 1..]; }
  }

  lemma {:induction false} QueueStaysOrdered(tr: seq<Event>, k: nat)
    requires k <= |tr|
    ensures QueueOrdered(tr, k, After(tr, k).pending)
    ensures !After(tr, k).registered ==> After(tr, k).pending == []
  {
    if k == 0 {
    } else {
      var w := After(tr, k - 1);
      QueueStaysOrdered(tr, k - 1);
      StepKeepsOrder(tr, k - 1, w);
      assert After(tr, k) == Step(w, tr[k - 1], k - 1);
    }
  }

  lemma StepKeepsOrder(tr: seq<Event>, k: nat, w: Worker)
    requires k < |tr| && w == After(tr, k) && QueueOrdered(tr, k, w.pending) && (!w.registered ==> w.pending == [])
    ensures QueueOrdered(tr, k + 1, Step(w, tr[k], k).pending)
    ensures !Step(w, tr[k], k).registered ==> Step(w, tr[k], k).pending == []
  {
    var n := StepPending(w, tr[k], k);
    if tr[k].Propose? && w.registered {
      assert Kept(tr, k, tr[k].cmd) && w.pending[0..] == w.pending;
      ProposeKeepsOrder(tr, k, w.pending, tr[k].cmd);
    } else {
      assert w.pending[n..] + [] == w.pending[n..];
      DropKeepsOrder(tr, k, w.pending, n);
    }
  }

  lemma EarlierTerm(tr: seq<Event>, c: Cmd, d: Cmd)
    requires ProposalsOrdered(tr) && Precedes(tr, c, d)
    ensures c.term <= d.term && c.uuid != d.uuid
  {
  }

  // ---- without overtaking, whatever has left the queue is over

  ghost predicate NothingElseToCome(tr: seq<Event>, k: nat, pending: seq<Cmd>) {
    forall p, c :: 0 <= p < k && p < |tr| && Kept(tr, p, c) && c !in pending ==> NeverAppliedFrom(tr, k, c)
  }

  /** A command older than the applied entry's term cannot be applied any more. */
  lemma OlderTermIsOver(tr: seq<Event>, k: nat, p: nat, c: Cmd)
    requires LogTermsOrdered(tr) && OwnEntries(tr) && p < k < |tr| && ProposedAt(tr, p, c)
    requires tr[k].Apply? && c.term < tr[k].entry.term
    ensures NeverAppliedFrom(tr, k, c)
  {
    assert Applies(tr, k);
    forall j | k <= j < |tr| ensures !AppliedHere(tr, j, c) {
      assert AppliedAt(tr, j, c) ==> Applies(tr, j);
    }
  }

  /** Of two commands of one term, the earlier is applied first. */
  lemma EarlierIsNotLater(tr: seq<Event>, c: Cmd, d: Cmd, k: nat)
    requires SameTermOrder(tr) && Precedes(tr, c, d) && c.term == d.term
    requires k < |tr| && AppliedAt(tr, k, d)
    ensures NeverAppliedFrom(tr, k, c)
  {
    var p, q :| 0 <= p < q < |tr| && ProposedAt(tr, p, c) && ProposedAt(tr, q, d);
  }

  /** Unless the entry is foreign, its command is in the queue, behind whatever the search passes over. */
  lemma OwnerIsBehind(tr: seq<Event>, k: nat, pending: seq<Cmd>, i: nat) returns (m: nat)
    requires Base(tr) && k < |tr| && After(tr, k).registered && NothingElseToCome(tr, k, pending)
    requires tr[k].Apply? && tr[k].entry.uuid.Some? && !Foreign(tr, k)
    requires i < StaleCount(pending, tr[k].entry.term, tr[k].entry.uuid.value)
    ensures i < m < |pending| && AppliedAt(tr, k, pending[m]) && pending[m].term == tr[k].entry.term
  {
    var q, d :| 0 <= q < k && Kept(tr, q, d) && AppliedAt(tr, k, d);
    assert AppliedHere(tr, k, d);
    assert d !in pending ==> NeverAppliedFrom(tr, k, d);
    m :| 0 <= m < |pending| && pending[m] == d;
  }

  /** The commands `findCB` passes over have no entry from here on. */
  lemma PassedOverIsOver(tr: seq<Event>, k: nat, pending: seq<Cmd>, i: nat)
    requires Base(tr) && NoneOvertaken(tr) && k < |tr| && After(tr, k).registered
    requires QueueOrdered(tr, k, pending) && NothingElseToCome(tr, k, pending)
    requires tr[k].Apply? && tr[k].entry.uuid.Some?
    requires i < StaleCount(pending, tr[k].entry.term, tr[k].entry.uuid.value)
    ensures NeverAppliedFrom(tr, k, pending[i])
  {
    var e, c := tr[k].entry, pending[i];
    assert KeptBefore(tr, k, c);
    var p :| 0 <= p < k && p < |tr| && Kept(tr, p, c);
    if c.term < e.term {
      OlderTermIsOver(tr, k, p, c);
    } else if Foreign(tr, k) {
      forall j | k <= j < |tr| ensures !AppliedHere(tr, j, c) {
        assert !Overtaken(tr, p, k, j, c);
      }
    } else {
      var m := OwnerIsBehind(tr, k, pending, i);
      assert Precedes(tr, c, pending[m]);
      EarlierIsNotLater(tr, c, pending[m], k);
    }
  }

  lemma EmptyEntryEndsOlderTerms(tr: seq<Event>, k: nat, pending: seq<Cmd>, i: nat)
    requires Base(tr) && k < |tr| && QueueOrdered(tr, k, pending)
    requires tr[k].Apply? && i < |Outdated(pending, tr[k].entry.term - 1)|
    ensures NeverAppliedFrom(tr, k, pending[i])
  {
    assert KeptBefore(tr, k, pending[i]);
    var p :| 0 <= p < k && p < |tr| && Kept(tr, p, pending[i]);
    OlderTermIsOver(tr, k, p, pending[i]);
  }

  lemma RegisterEndsKept(tr: seq<Event>, k: nat, c: Cmd)
    requires SnapshotCovers(tr) && k < |tr| && tr[k].Register? && KeptBefore(tr, k, c)
    ensures NeverAppliedFrom(tr, k, c)
  {
    assert Registers(tr, k);
  }

  lemma AppliedOnce(tr: seq<Event>, k: nat, p: nat, c: Cmd)
    requires OwnEntries(tr) && p < k < |tr| && ProposedAt(tr, p, c) && AppliedAt(tr, k, c)
    ensures NeverAppliedFrom(tr, k + 1, c)
  {
  }

  /** The command an applied entry finds is the entry's own. */
  lemma MatchedIsOver(tr: seq<Event>, k: nat, pending: seq<Cmd>)
    requires Base(tr) && k < |tr| && QueueOrdered(tr, k, pending)
    requires tr[k].Apply? && tr[k].entry.uuid.Some?
    requires Matches(pending, tr[k].entry.term, tr[k].entry.uuid.value)
    ensures NeverAppliedFrom(tr, k + 1, pending[StaleCount(pending, tr[k].entry.term, tr[k].entry.uuid.value)])
  {
    var c := pending[StaleCount(pending, tr[k].entry.term, tr[k].entry.uuid.value)];
    assert KeptBefore(tr, k, c);
    var p :| 0 <= p < k && p < |tr| && Kept(tr, p, c);
    AppliedOnce(tr, k, p, c);
  }

  /** A command that leaves the queue at `k`, other than by the end of the delegate, has no entry after `k`. */
  lemma LeavingIsOver(tr: seq<Event>, k: nat, c: Cmd)
    requires Base(tr) && NoneOvertaken(tr) && k < |tr| && After(tr, k).registered && !tr[k].Destroy?
    requires NothingElseToCome(tr, k, After(tr, k).pending)
    requires c in After(tr, k).pending && c !in Step(After(tr, k), tr[k], k).pending
    ensures NeverAppliedFrom(tr, k + 1, c)
  {
    var w := After(tr, k);
    QueueStaysOrdered(tr, k);
    var i :| 0 <= i < |w.pending| && w.pending[i] == c;
    match tr[k]
    case Propose(d) => ProposeOnlyAdds(w, d, k);
    case Register =>
      assert KeptBefore(tr, k, w.pending[i]);
      RegisterEndsKept(tr, k, c);
    case Apply(e) =>
      if e.uuid.None? {
        SweepLeavingIsOver(tr, k, w, i);
      } else {
        NormalLeavingIsOver(tr, k, w, i);
      }
  }

  lemma SweepLeavingIsOver(tr: seq<Event>, k: nat, w: Worker, i: nat)
    requires Base(tr) && k < |tr| && w.registered && QueueOrdered(tr, k, w.pending)
    requires tr[k].Apply? && tr[k].entry.uuid.None?
    requires i < |w.pending| && w.pending[i] !in Step(w, tr[k], k).pending
    ensures NeverAppliedFrom(tr, k + 1, w.pending[i])
  {
    var n := |Outdated(w.pending, tr[k].entry.term - 1)|;
    assert Step(w, tr[k], k).pending == w.pending[n..];
    EmptyEntryEndsOlderTerms(tr, k, w.pending, i);
  }

  lemma NormalLeavingIsOver(tr: seq<Event>, k: nat, w: Worker, i: nat)
    requires Base(tr) && NoneOvertaken(tr) && k < |tr| && w == After(tr, k) && w.registered
    requires QueueOrdered(tr, k, w.pending) && NothingElseToCome(tr, k, w.pending)
    requires tr[k].Apply? && tr[k].entry.uuid.Some?
    requires i < |w.pending| && w.pending[i] !in Step(w, tr[k], k).pending
    ensures NeverAppliedFrom(tr, k + 1, w.pending[i])
  {
    var e := tr[k].entry;
    var n := StaleCount(w.pending, e.term, e.uuid.value);
    NormalPending(w, e.term, e.uuid.value, k);
    if i < n {
      PassedOverIsOver(tr, k, w.pending, i);
    } else if i == n && Matches(w.pending, e.term, e.uuid.value) {
      MatchedIsOver(tr, k, w.pending);
    }
  }

  lemma StepKeepsNothingElse(tr: seq<Event>, k: nat)
    requires Base(tr) && NoneOvertaken(tr) && k < |tr| && !tr[k].Destroy?
    requires After(tr, k).registered && NothingElseToCome(tr, k, After(tr, k).pending)
    ensures NothingElseToCome(tr, k + 1, Step(After(tr, k), tr[k], k).pending)
  {
    var w := After(tr, k);
    var after := Step(w, tr[k], k).pending;
    forall p, c | 0 <= p < k + 1 && p < |tr| && Kept(tr, p, c) && c !in after ensures NeverAppliedFrom(tr, k + 1, c) {
      if p == k {
        ProposeOnlyAdds(w, c, k);
      } else if c in w.pending {
        LeavingIsOver(tr, k, c);
      } else {
        assert NeverAppliedFrom(tr, k, c);
      }
    }
  }

  lemma RegisterStartsTracking(tr: seq<Event>, k: nat)
    requires SnapshotCovers(tr) && k < |tr| && tr[k].Register?
    ensures NothingElseToCome(tr, k + 1, Step(After(tr, k), tr[k], k).pending)
  {
    forall p, c | 0 <= p < k + 1 && p < |tr| && Kept(tr, p, c) ensures NeverAppliedFrom(tr, k + 1, c) {
      assert KeptBefore(tr, k, c);
      RegisterEndsKept(tr, k, c);
    }
  }

  /** While a delegate is registered, every kept command that is not pending has no entry to come. */
  lemma {:induction false} TrackingHolds(tr: seq<Event>, k: nat)
    requires Base(tr) && NoneOvertaken(tr) && k <= |tr|
    ensures After(tr, k).registered ==> NothingElseToCome(tr, k, After(tr, k).pending)
  {
    if k == 0 {
    } else {
      TrackingHolds(tr, k - 1);
      if tr[k - 1].Register? {
        RegisterStartsTracking(tr, k - 1);
      } else if After(tr, k - 1).registered && !tr[k - 1].Destroy? {
        StepKeepsNothingElse(tr, k - 1);
      }
    }
  }

  // ---- truthful, and answered, if nothing is overtaken

  /** A command answered as stale was pending, and passed over for one of three reasons. */
  lemma StaleWasPending(w: Worker, ev: Event, at: nat, i: nat)
    requires |w.responses| <= i < |Step(w, ev, at).responses| && Step(w, ev, at).responses[i].answer == Stale
    ensures w.registered && i - |w.responses| < |w.pending|
    ensures Step(w, ev, at).responses[i].cmd == w.pending[i - |w.responses|]
    ensures match ev
            case Apply(e) =>
              if e.uuid.Some? then i - |w.responses| < StaleCount(w.pending, e.term, e.uuid.value)
              else i - |w.responses| < |Outdated(w.pending, e.term - 1)|
            case Register => true
            case _ => false
  {
  }

  lemma StaleNow(tr: seq<Event>, k: nat, i: nat)
    requires Base(tr) && NoneOvertaken(tr) && k < |tr|
    requires |After(tr, k).responses| <= i < |Step(After(tr, k), tr[k], k).responses|
    requires Step(After(tr, k), tr[k], k).responses[i].answer == Stale
    ensures NeverAppliedFrom(tr, k, Step(After(tr, k), tr[k], k).responses[i].cmd)
  {
    TrackingHolds(tr, k);
    QueueStaysOrdered(tr, k);
    var w := After(tr, k);
    var j := i - |w.responses|;
    StaleWasPending(w, tr[k], k, i);
    if tr[k].Register? {
      assert KeptBefore(tr, k, w.pending[j]);
      RegisterEndsKept(tr, k, w.pending[j]);
    } else if tr[k].entry.uuid.Some? {
      PassedOverIsOver(tr, k, w.pending, j);
    } else {
      EmptyEntryEndsOlderTerms(tr, k, w.pending, j);
    }
  }

  lemma {:induction false} StaleAnswersAreTrue(tr: seq<Event>, k: nat, i: nat)
    requires Base(tr) && NoneOvertaken(tr) && k <= |tr|
    requires i < |After(tr, k).responses| && After(tr, k).responses[i].answer == Stale
    ensures NeverAppliedFrom(tr, After(tr, k).responses[i].at, After(tr, k).responses[i].cmd)
  {
    var w := After(tr, k - 1);
    StepAnswers(w, tr[k - 1], k - 1);
    if i < |w.responses| {
      StaleAnswersAreTrue(tr, k - 1, i);
    } else {
      StaleNow(tr, k - 1, i);
    }
  }

  /** The entry of a pending command stops the search at that command. */
  lemma SearchStopsAt(tr: seq<Event>, k: nat, pending: seq<Cmd>, m: nat)
    requires ProposalsOrdered(tr) && m < |pending| && QueueOrdered(tr, k, pending)
    ensures StaleCount(pending, pending[m].term, pending[m].uuid) == m
  {
    var n := StaleCount(pending, pending[m].term, pending[m].uuid);
    if n < m {
      assert Precedes(tr, pending[n], pending[m]);
      EarlierTerm(tr, pending[n], pending[m]);
    }
  }

  lemma PendingIsAnswered(w: Worker, term: nat, uuid: nat, at: nat, m: nat)
    requires m < |w.pending| && StaleCount(w.pending, term, uuid) == m && w.pending[m].term <= term
    ensures Response(w.pending[m], Result, at) in ApplyNormal(w, term, uuid, at).responses
  {
    var w1 := DropStale(w, m, at);
    assert w1.pending[0] == w.pending[m];
    assert AnswerHead(w1, at).responses[|w1.responses|] == Response(w.pending[m], Result, at);
  }

  /** Without overtaking, applying the entry of a kept command answers that command. */
  lemma AppliedEntryAnswersItsCommand(tr: seq<Event>, p: nat, a: nat, c: Cmd)
    requires Base(tr) && NoneOvertaken(tr) && p < |tr| && a < |tr| && Kept(tr, p, c) && AppliedHere(tr, a, c)
    ensures Response(c, Result, a) in Step(After(tr, a), tr[a], a).responses
  {
    var w := After(tr, a);
    TrackingHolds(tr, a);
    QueueStaysOrdered(tr, a);
    assert c !in w.pending ==> NeverAppliedFrom(tr, a, c);
    var m :| 0 <= m < |w.pending| && w.pending[m] == c;
    SearchStopsAt(tr, a, w.pending, m);
    PendingIsAnswered(w, tr[a].entry.term, c.uuid, a, m);
  }

  lemma {:induction false} ResponsesGrow(tr: seq<Event>, k: nat, n: nat)
    requires k <= n <= |tr|
    ensures After(tr, k).responses <= After(tr, n).responses
  {
    if k == n {
    } else {
      ResponsesGrow(tr, k, n - 1);
      StepAnswers(After(tr, n - 1), tr[n - 1], n - 1);
    }
  }

  lemma NotOvertakenSuffices(tr: seq<Event>)
    requires Base(tr) && NoneOvertaken(tr)
    ensures Truthful(tr) && AllAnswered(tr)
  {
    var responses := After(tr, |tr|).responses;
    forall i | 0 <= i < |responses| && responses[i].answer == Stale
      ensures NeverAppliedFrom(tr, responses[i].at, responses[i].cmd)
    {
      StaleAnswersAreTrue(tr, |tr|, i);
    }
    forall p, a, c | 0 <= p < |tr| && 0 <= a < |tr| && Kept(tr, p, c) && AppliedHere(tr, a, c)
      ensures Response(c, Result, a) in responses
    {
      AppliedEntryAnswersItsCommand(tr, p, a, c);
      assert After(tr, a + 1) == Step(After(tr, a), tr[a], a);
      ResponsesGrow(tr, a + 1, |tr|);
    }
  }

  // ---- and only then

  /** Between a kept proposal and its applied entry the delegate stays registered. */
  lemma {:induction false} StaysRegistered(tr: seq<Event>, p: nat, m: nat, a: nat, c: Cmd)
    requires SnapshotCovers(tr) && p < m <= a < |tr| && Kept(tr, p, c) && AppliedHere(tr, a, c)
    ensures After(tr, m).registered
    decreases a - m
  {
    if m == a {
    } else {
      StaysRegistered(tr, p, m + 1, a, c);
      assert After(tr, m + 1) == Step(After(tr, m), tr[m], m);
      if tr[m].Register? { assert Registers(tr, m); }
    }
  }

  /** Once out of the queue, a command does not come back. */
  lemma {:induction false} GoneStaysGone(tr: seq<Event>, p: nat, m: nat, n: nat, c: Cmd)
    requires ProposalsOrdered(tr) && p < m <= n <= |tr| && ProposedAt(tr, p, c) && c !in After(tr, m).pending
    ensures c !in After(tr, n).pending
  {
    if m == n {
    } else {
      GoneStaysGone(tr, p, m, n - 1, c);
      QueueStaysOrdered(tr, n - 1);
      var w := After(tr, n - 1);
      assert !ProposedAt(tr, n - 1, c);
      StepAddsOnlyProposed(w, tr[n - 1], n - 1, c);
      assert After(tr, n) == Step(w, tr[n - 1], n - 1);
    }
  }

  lemma {:induction false} ResultNeedsPending(tr: seq<Event>, k: nat, c: Cmd, a: nat)
    requires k <= |tr| && Response(c, Result, a) in After(tr, k).responses
    ensures a < k && c in After(tr, a).pending
  {
    var w := After(tr, k - 1);
    assert After(tr, k) == Step(w, tr[k - 1], k - 1);
    if Response(c, Result, a) in w.responses {
      ResultNeedsPending(tr, k - 1, c, a);
    } else {
      NewResultIsPending(w, tr[k - 1], k - 1, c, a);
    }
  }

  lemma NewResultIsPending(w: Worker, ev: Event, at: nat, c: Cmd, a: nat)
    requires Response(c, Result, a) in Step(w, ev, at).responses && Response(c, Result, a) !in w.responses
    ensures a == at && c in w.pending
  {
    StepAnswers(w, ev, at);
    var after := Step(w, ev, at).responses;
    assert after[..|w.responses|] == w.responses;
    var i :| 0 <= i < |after| && after[i] == Response(c, Result, a);
  }

  /** A foreign entry answers every pending command of its term as stale. */
  lemma ForeignSweeps(tr: seq<Event>, j: nat, c: Cmd)
    requires ProposalsOrdered(tr) && j < |tr| && After(tr, j).registered && Foreign(tr, j)
    requires c in After(tr, j).pending && c.term == tr[j].entry.term
    ensures Response(c, Stale, j) in After(tr, j + 1).responses
    ensures c !in After(tr, j + 1).pending
  {
    var w, e := After(tr, j), tr[j].entry;
    QueueStaysOrdered(tr, j);
    var n := StaleCount(w.pending, e.term, e.uuid.value);
    forall x | 0 <= x < |w.pending| && w.pending[x] == c ensures x < n {
      ForeignPassesOver(tr, j, w.pending, x);
    }
    ForeignDoesNotMatch(tr, j, w.pending);
    var x :| 0 <= x < |w.pending| && w.pending[x] == c;
    assert After(tr, j + 1) == Step(w, tr[j], j) == DropStale(w, n, j);
    assert DropStale(w, n, j).responses[|w.responses| + x] == Response(c, Stale, j);
  }

  lemma ForeignPassesOver(tr: seq<Event>, j: nat, pending: seq<Cmd>, x: nat)
    requires ProposalsOrdered(tr) && j < |tr| && Foreign(tr, j) && QueueOrdered(tr, j, pending)
    requires x < |pending| && pending[x].term == tr[j].entry.term
    ensures x < StaleCount(pending, tr[j].entry.term, tr[j].entry.uuid.value)
  {
    var n := StaleCount(pending, tr[j].entry.term, tr[j].entry.uuid.value);
    if n <= x {
      assert KeptBefore(tr, j, pending[n]);
      if n < x {
        assert Precedes(tr, pending[n], pending[x]);
        EarlierTerm(tr, pending[n], pending[x]);
      }
    }
  }

  lemma ForeignDoesNotMatch(tr: seq<Event>, j: nat, pending: seq<Cmd>)
    requires j < |tr| && Foreign(tr, j) && QueueOrdered(tr, j, pending)
    ensures !Matches(pending, tr[j].entry.term, tr[j].entry.uuid.value)
  {
    var n := StaleCount(pending, tr[j].entry.term, tr[j].entry.uuid.value);
    if n < |pending| { assert KeptBefore(tr, j, pending[n]); }
  }

  lemma OvertakenIsGone(tr: seq<Event>, p: nat, j: nat, a: nat, c: Cmd)
    requires ProposalsOrdered(tr) && SnapshotCovers(tr) && Overtaken(tr, p, j, a, c)
    ensures c !in After(tr, a).pending
  {
    if c in After(tr, j).pending {
      StaysRegistered(tr, p, j, a, c);
      SweptStaysGone(tr, p, j, a, c);
    } else {
      GoneStaysGone(tr, p, j, a, c);
    }
  }

  lemma SweptStaysGone(tr: seq<Event>, p: nat, j: nat, a: nat, c: Cmd)
    requires ProposalsOrdered(tr) && p < j < a < |tr| && ProposedAt(tr, p, c)
    requires After(tr, j).registered && Foreign(tr, j) && c in After(tr, j).pending && c.term == tr[j].entry.term
    ensures c !in After(tr, a).pending
  {
    var m := ForeignRemoves(tr, j, c);
    GoneStaysGone(tr, p, m, a, c);
  }

  lemma ForeignRemoves(tr: seq<Event>, j: nat, c: Cmd) returns (m: nat)
    requires ProposalsOrdered(tr) && j < |tr| && After(tr, j).registered && Foreign(tr, j)
    requires c in After(tr, j).pending && c.term == tr[j].entry.term
    ensures m == j + 1 && c !in After(tr, m).pending
  {
    ForeignSweeps(tr, j, c);
    m := j + 1;
  }

  lemma AnsweredSoNotOvertaken(tr: seq<Event>, p: nat, j: nat, a: nat, c: Cmd)
    requires Base(tr) && AllAnswered(tr)
    ensures !Overtaken(tr, p, j, a, c)
  {
    if Overtaken(tr, p, j, a, c) {
      OvertakenIsGone(tr, p, j, a, c);
      ResultNeedsPending(tr, |tr|, c, a);
    }
  }

  /** `c` was answered, by a result or as stale, after `p` and before `m`. */
  ghost predicate AnsweredBetween(tr: seq<Event>, p: nat, m: nat, c: Cmd)
    requires m <= |tr|
  {
    exists r :: r in After(tr, m).responses && r.cmd == c && p < r.at < m && r.answer != ShardNotFound
  }

  /** An applied entry leaves a pending command pending, or answers it. */
  lemma ApplyMoves(w: Worker, ev: Event, at: nat, c: Cmd) returns (r: Response)
    requires w.registered && c in w.pending && ev.Apply? && c !in Step(w, ev, at).pending
    ensures r in Step(w, ev, at).responses && r.cmd == c && r.at == at && r.answer != ShardNotFound
  {
    var x :| 0 <= x < |w.pending| && w.pending[x] == c;
    var after := Step(w, ev, at).responses;
    assert x < |after| - |w.responses|;
    r := after[|w.responses| + x];
  }

  lemma {:induction false} PendingOrAnswered(tr: seq<Event>, p: nat, m: nat, a: nat, c: Cmd)
    requires SnapshotCovers(tr) && p < m <= a < |tr| && Kept(tr, p, c) && AppliedHere(tr, a, c)
    ensures c in After(tr, m).pending || AnsweredBetween(tr, p, m, c)
  {
    var w := After(tr, m - 1);
    assert After(tr, m) == Step(w, tr[m - 1], m - 1);
    StepAnswers(w, tr[m - 1], m - 1);
    if m == p + 1 {
      assert After(tr, m).pending[|w.pending|] == c;
    } else {
      PendingOrAnswered(tr, p, m - 1, a, c);
      StaysRegistered(tr, p, m, a, c);
      StaysRegistered(tr, p, m - 1, a, c);
      if c in w.pending && c !in After(tr, m).pending { PendingMoves(tr, p, m - 1, a, c); }
    }
  }

  lemma PendingMoves(tr: seq<Event>, p: nat, m: nat, a: nat, c: Cmd)
    requires SnapshotCovers(tr) && p < m < a < |tr| && Kept(tr, p, c) && AppliedHere(tr, a, c)
    requires After(tr, m).registered && After(tr, m + 1).registered
    requires c in After(tr, m).pending && c !in After(tr, m + 1).pending
    ensures AnsweredBetween(tr, p, m + 1, c)
  {
    var w := After(tr, m);
    assert After(tr, m + 1) == Step(w, tr[m], m);
    assert !Registers(tr, m);
    if tr[m].Apply? {
      var r := ApplyMoves(w, tr[m], m, c);
    }
  }

  /** With truthful answers, a command whose entry is still to come is still pending. */
  lemma NotYetAnswered(tr: seq<Event>, p: nat, m: nat, a: nat, c: Cmd)
    requires Base(tr) && Truthful(tr) && p < m <= a < |tr| && Kept(tr, p, c) && AppliedHere(tr, a, c)
    ensures c in After(tr, m).pending
  {
    PendingOrAnswered(tr, p, m, a, c);
    if AnsweredBetween(tr, p, m, c) {
      var r :| r in After(tr, m).responses && r.cmd == c && p < r.at < m && r.answer != ShardNotFound;
      if r.answer == Stale {
        StaleIsFinal(tr, m, a, r);
      } else {
        ResultsBelongToTheirEntries(tr, m);
      }
    }
  }

  lemma StaleIsFinal(tr: seq<Event>, m: nat, a: nat, r: Response)
    requires Truthful(tr) && m <= |tr| && r in After(tr, m).responses && r.answer == Stale && r.at <= a < |tr|
    ensures !AppliedHere(tr, a, r.cmd)
  {
    ResponsesGrow(tr, m, |tr|);
    var i :| 0 <= i < |After(tr, m).responses| && After(tr, m).responses[i] == r;
    assert After(tr, |tr|).responses[i] == r;
    assert NeverAppliedFrom(tr, r.at, r.cmd);
  }

  lemma TruthfulSoNotOvertaken(tr: seq<Event>, p: nat, j: nat, a: nat, c: Cmd)
    requires Base(tr) && Truthful(tr)
    ensures !Overtaken(tr, p, j, a, c)
  {
    if Overtaken(tr, p, j, a, c) {
      NotYetAnswered(tr, p, j, a, c);
      StaysRegistered(tr, p, j, a, c);
      ForeignSweeps(tr, j, c);
      StaleIsFinal(tr, j + 1, a, Response(c, Stale, j));
    }
  }

  /** Stale answers are true, and every applied command gets its result, exactly in the traces in which no foreign
      request of a term comes between the proposal of a command in that term and its entry. */
  lemma AnswersAreRightExactlyWhen(tr: seq<Event>)
    requires Base(tr)
    ensures Truthful(tr) <==> NoneOvertaken(tr)
    ensures AllAnswered(tr) <==> NoneOvertaken(tr)
  {
    if NoneOvertaken(tr) { NotOvertakenSuffices(tr); }
    if Truthful(tr) {
      forall p, j, a, c ensures !Overtaken(tr, p, j, a, c) { TruthfulSoNotOvertaken(tr, p, j, a, c); }
    }
    if AllAnswered(tr) {
      forall p, j, a, c ensures !Overtaken(tr, p, j, a, c) { AnsweredSoNotOvertaken(tr, p, j, a, c); }
    }
  }

  // ---- when requests are never forwarded

  /** Once this peer has proposed in a term, the requests applied with that term were kept here. */
  ghost predicate SoleProposer(tr: seq<Event>) {
    forall p, j, c ::
      (&& 0 <= p < j < |tr| && Kept(tr, p, c)
       && Applies(tr, j) && tr[j].entry.uuid.Some? && tr[j].entry.term == c.term)
      ==> exists q, d :: 0 <= q < j && Kept(tr, q, d) && AppliedAt(tr, j, d)
  }

  lemma SoleProposerSuffices(tr: seq<Event>)
    requires Base(tr) && SoleProposer(tr)
    ensures Truthful(tr) && AllAnswered(tr)
  {
    forall p, j, a, c ensures !Overtaken(tr, p, j, a, c) {
      if Overtaken(tr, p, j, a, c) { assert Applies(tr, j); }
    }
    AnswersAreRightExactlyWhen(tr);
  }

  /** The leader of term 6 proposes a request, and one forwarded by the deposed leader is committed before it. */
  const FORWARDED: seq<Event> :=
    [Register, Propose(Cmd(1, 6)), Apply(LogEntry(6, Some(99))), Apply(LogEntry(6, Some(1)))]

  lemma ForwardedIsPossible()
    ensures Base(FORWARDED)
  {
    var tr := FORWARDED;
    assert LogTermsOrdered(tr) && ProposalsOrdered(tr);
    assert forall p, c :: 0 <= p < |tr| && ProposedAt(tr, p, c) ==> p == 1 && c == Cmd(1, 6);
    assert forall j :: 0 <= j < |tr| && AppliedAt(tr, j, Cmd(1, 6)) ==> j == 3;
    assert OwnEntries(tr) && SameTermOrder(tr);
    assert forall i :: 0 <= i < |tr| && Registers(tr, i) ==> i == 0;
  }

  lemma ForwardedRun()
    ensures After(FORWARDED, 1) == Worker(true, [], [])
    ensures After(FORWARDED, 2) == Worker(true, [Cmd(1, 6)], [])
    ensures After(FORWARDED, 3) == Worker(true, [], [Response(Cmd(1, 6), Stale, 2)])
  {
    var w1, w2 := Worker(true, [], []), Worker(true, [Cmd(1, 6)], []);
    assert After(FORWARDED, 1) == Step(IDLE, Register, 0) == w1;
    assert After(FORWARDED, 2) == Step(w1, Propose(Cmd(1, 6)), 1) == w2;
    assert StaleCount(w2.pending, 6, 99) == 1;
    assert After(FORWARDED, 3) == Step(w2, Apply(LogEntry(6, Some(99))), 2);
  }

  /** The waiting command is declared stale, and then applied. */
  lemma ForwardedProposalBreaksStaleness()
    ensures Base(FORWARDED) && Overtaken(FORWARDED, 1, 2, 3, Cmd(1, 6)) && !Truthful(FORWARDED)
    ensures After(FORWARDED, 3).responses == [Response(Cmd(1, 6), Stale, 2)]
  {
    ForwardedIsPossible();
    ForwardedRun();
    var tr := FORWARDED;
    assert Kept(tr, 1, Cmd(1, 6)) && AppliedHere(tr, 3, Cmd(1, 6));
    forall q, d | 0 <= q < 2 && Kept(tr, q, d) ensures !AppliedAt(tr, 2, d) {
      assert q == 1;
    }
    assert Overtaken(tr, 1, 2, 3, Cmd(1, 6));
    AnswersAreRightExactlyWhen(tr);
  }

  // ---- nobody is left waiting

  /** Queued terms never decrease. */
  lemma QueuedTermsOrdered(tr: seq<Event>, k: nat, pending: seq<Cmd>, x: nat, y: nat)
    requires ProposalsOrdered(tr) && QueueOrdered(tr, k, pending) && x <= y < |pending|
    ensures pending[x].term <= pending[y].term
  {
    if x < y {
      assert Precedes(tr, pending[x], pending[y]);
      EarlierTerm(tr, pending[x], pending[y]);
    }
  }

  /** Answering the first `n` commands as stale, where the rest has at least the term: all of an older term are answered. */
  lemma DroppedAreAnswered(w: Worker, n: nat, at: nat, c: Cmd)
    requires n <= |w.pending| && c in w.pending[..n]
    ensures Response(c, Stale, at) in DropStale(w, n, at).responses
  {
    var x :| 0 <= x < n && w.pending[..n][x] == c;
    assert DropStale(w, n, at).responses[|w.responses| + x] == Response(c, Stale, at);
  }

  /** The empty entry of a new leader answers every command of an older term as stale, and leaves no such command. */
  lemma EmptyEntrySweeps(tr: seq<Event>, k: nat)
    requires ProposalsOrdered(tr) && k < |tr| && After(tr, k).registered && tr[k].Apply? && tr[k].entry.uuid.None?
    ensures forall c :: c in After(tr, k).pending && c.term < tr[k].entry.term ==>
              Response(c, Stale, k) in After(tr, k + 1).responses
    ensures forall c :: c in After(tr, k + 1).pending ==> c.term >= tr[k].entry.term
  {
    var w := After(tr, k);
    QueueStaysOrdered(tr, k);
    SweepEndsAtTheTerm(tr, k, w.pending, tr[k].entry.term);
    DropSweeps(w, |Outdated(w.pending, tr[k].entry.term - 1)|, k, tr[k].entry.term);
    assert After(tr, k + 1) == Step(w, tr[k], k);
  }

  lemma SweepEndsAtTheTerm(tr: seq<Event>, k: nat, pending: seq<Cmd>, term: nat)
    requires ProposalsOrdered(tr) && QueueOrdered(tr, k, pending)
    ensures forall x :: |Outdated(pending, term - 1)| <= x < |pending| ==> pending[x].term >= term
  {
    var n := |Outdated(pending, (term as int) - 1)|;
    forall x | n <= x < |pending| ensures pending[x].term >= term { QueuedTermsOrdered(tr, k, pending, n, x); }
  }

  /** Dropping a prefix behind which no term is older answers all of an older term. */
  lemma DropSweeps(w: Worker, n: nat, at: nat, term: nat)
    requires n <= |w.pending| && forall x :: n <= x < |w.pending| ==> w.pending[x].term >= term
    ensures forall c :: c in w.pending && c.term < term ==> Response(c, Stale, at) in DropStale(w, n, at).responses
    ensures forall c :: c in DropStale(w, n, at).pending ==> c.term >= term
  {
    forall c | c in w.pending && c.term < term ensures Response(c, Stale, at) in DropStale(w, n, at).responses {
      var x :| 0 <= x < |w.pending| && w.pending[x] == c;
      assert w.pending[..n][x] == c;
      DroppedAreAnswered(w, n, at, c);
    }
  }

  /** So does any other entry of a later term. */
  lemma NormalEntrySweeps(tr: seq<Event>, k: nat)
    requires ProposalsOrdered(tr) && OwnEntries(tr)
    requires k < |tr| && After(tr, k).registered && tr[k].Apply? && tr[k].entry.uuid.Some?
    ensures forall c :: c in After(tr, k).pending && c.term < tr[k].entry.term ==>
              Response(c, Stale, k) in After(tr, k + 1).responses
    ensures forall c :: c in After(tr, k + 1).pending ==> c.term >= tr[k].entry.term
  {
    var w, e := After(tr, k), tr[k].entry;
    var n := StaleCount(w.pending, e.term, e.uuid.value);
    SearchStopsAtTheTerm(tr, k);
    NormalPending(w, e.term, e.uuid.value, k);
    assert After(tr, k + 1) == Step(w, tr[k], k) == ApplyNormal(w, e.term, e.uuid.value, k);
    DropSweeps(w, n, k, e.term);
    assert DropStale(w, n, k).responses <= After(tr, k + 1).responses;
  }

  lemma SearchStopsAtTheTerm(tr: seq<Event>, k: nat)
    requires ProposalsOrdered(tr) && OwnEntries(tr) && k < |tr| && tr[k].Apply? && tr[k].entry.uuid.Some?
    ensures var pending, e := After(tr, k).pending, tr[k].entry;
            forall x :: StaleCount(pending, e.term, e.uuid.value) <= x < |pending| ==> pending[x].term >= e.term
  {
    var pending, e := After(tr, k).pending, tr[k].entry;
    var n := StaleCount(pending, e.term, e.uuid.value);
    QueueStaysOrdered(tr, k);
    if n < |pending| {
      assert KeptBefore(tr, k, pending[n]);
      assert pending[n].uuid == e.uuid.value ==> AppliedAt(tr, k, pending[n]);
      forall x | n <= x < |pending| ensures pending[x].term >= e.term { QueuedTermsOrdered(tr, k, pending, n, x); }
    }
  }

  /** A new registration answers everything pending as stale, the end of the delegate as not found, and a proposal that
      finds no delegate is not found either. */
  lemma EndsAnswerEverything(tr: seq<Event>, k: nat, c: Cmd)
    requires k < |tr|
    ensures c in After(tr, k).pending && tr[k].Register? ==> Response(c, Stale, k) in After(tr, k + 1).responses
    ensures c in After(tr, k).pending && tr[k].Destroy? ==> Response(c, ShardNotFound, k) in After(tr, k + 1).responses
    ensures tr[k] == Propose(c) && !After(tr, k).registered ==> Response(c, ShardNotFound, k) in After(tr, k + 1).responses
    ensures tr[k].Register? || tr[k].Destroy? ==> After(tr, k + 1).pending == []
  {
    QueueStaysOrdered(tr, k);
    var w := After(tr, k);
    assert After(tr, k + 1) == Step(w, tr[k], k);
    if c in w.pending && (tr[k].Register? || tr[k].Destroy?) {
      var x :| 0 <= x < |w.pending| && w.pending[x] == c;
      var answer := if tr[k].Register? then Stale else ShardNotFound;
      assert Step(w, tr[k], k).responses[|w.responses| + x] == Response(c, answer, k);
    }
    if tr[k] == Propose(c) && !w.registered {
      assert Step(w, tr[k], k).responses[|w.responses|] == Response(c, ShardNotFound, k);
    }
  }
}
