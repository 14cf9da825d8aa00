/** What every run of the shard pool keeps: the counters, the names, the answers and the ranges. */
module ShardPoolInvariant {
  import opened Bytes
  import opened Shards
  import opened ShardPool
  import opened Options

  // ---- the registry

  ghost predicate Names(reg: Registry, g: U64, unique: string, id: nat) {
    Resource(id, unique, g, true) in reg || Resource(id, unique, g, false) in reg
  }

  ghost predicate Registered(reg: Registry, g: U64, unique: string) {
    exists id :: Names(reg, g, unique, id)
  }

  /** IDs are positive and distinct, and a name of the pool stays in its group. Names may repeat. */
  ghost predicate RegistryOk(job: nat, reg: Registry) {
    && (forall i :: 0 <= i < |reg| ==> reg[i].id > 0)
    && (forall i, j :: 0 <= i < j < |reg| ==> reg[i].id != reg[j].id)
    && (forall i, g: U64, n: nat {:trigger reg[i], Unique(job, g, n)} ::
          0 <= i < |reg| && reg[i].unique == Unique(job, g, n) ==> reg[i].group == g)
  }

  lemma IDHasOneName(job: nat, reg: Registry, g: U64, u: string, g': U64, u': string, id: nat)
    requires RegistryOk(job, reg) && Names(reg, g, u, id) && Names(reg, g', u', id)
    ensures u == u'
  {
    var i :| 0 <= i < |reg| && reg[i].id == id && reg[i].unique == u;
    var j :| 0 <= j < |reg| && reg[j].id == id && reg[j].unique == u';
    assert i == j || i < j || j < i;
  }

  lemma {:induction false} VisitFinds(reg: Registry, u: string, waiting: bool, g: U64)
    ensures VisitedID(reg, u, waiting, g) != 0 ==>
              exists i :: 0 <= i < |reg| && reg[i].unique == u && reg[i].id == VisitedID(reg, u, waiting, g)
    ensures (exists i :: 0 <= i < |reg| && reg[i].unique == u && Visited(reg[i], waiting, g)) ==>
              exists i :: 0 <= i < |reg| && reg[i].unique == u && reg[i].id == VisitedID(reg, u, waiting, g)
  {
    if reg == [] {
    } else {
      var n := |reg| - 1;
      var init := reg[..n];
      VisitFinds(init, u, waiting, g);
      assert forall i :: 0 <= i < n ==> init[i] == reg[i];
      assert VisitedID(reg, u, waiting, g) in {reg[n].id, VisitedID(init, u, waiting, g)};
    }
  }

  /** If any shard of the group bears the name, the two visits find one that does. */
  lemma ResourceIDFinds(job: nat, reg: Registry, g: U64, n: nat)
    requires RegistryOk(job, reg) && Registered(reg, g, Unique(job, g, n))
    ensures ResourceID(reg, Unique(job, g, n), g) > 0
    ensures Names(reg, g, Unique(job, g, n), ResourceID(reg, Unique(job, g, n), g))
  {
    var u := Unique(job, g, n);
    var id :| Names(reg, g, u, id);
    var i :| 0 <= i < |reg| && reg[i].id == id && reg[i].unique == u && reg[i].group == g;
    assert Visited(reg[i], true, g) || Visited(reg[i], false, g);
    VisitFinds(reg, u, true, g);
    VisitFinds(reg, u, false, g);
    var j :| 0 <= j < |reg| && reg[j].unique == u && reg[j].id == ResourceID(reg, u, g);
    assert reg[j].group == g;
  }

  /** Shards of the pool, by name. */
  ghost predicate HasPoolName(job: nat, c: Shard) {
    exists n :: c.unique == Unique(job, c.group, n)
  }

  ghost predicate PoolNames(job: nat, creates: seq<Shard>) {
    forall k :: 0 <= k < |creates| ==> HasPoolName(job, creates[k])
  }

  ghost predicate IDsFrom(before: Registry, ids: seq<nat>, reg: Registry) {
    forall i :: 0 <= i < |reg| ==> (exists k :: 0 <= k < |before| && before[k].id == reg[i].id) || reg[i].id in ids
  }

  lemma NewNameIsOk(job: nat, reg: Registry, r: Resource, n: nat)
    requires RegistryOk(job, reg) && r.id > 0 && r.unique == Unique(job, r.group, n)
    requires forall i :: 0 <= i < |reg| ==> reg[i].id != r.id
    ensures RegistryOk(job, reg + [r])
  {
    forall g: U64, m: nat | r.unique == Unique(job, g, m) ensures r.group == g {
      UniqueInjective(job, r.group, n, g, m);
    }
  }

  ghost predicate AllRegistered(reg: Registry, creates: seq<Shard>) {
    forall c :: c in creates ==> Registered(reg, c.group, c.unique)
  }

  /** `all` is `before` with the shards added, under some of the IDs. */
  ghost predicate AddedOk(job: nat, before: Registry, creates: seq<Shard>, ids: seq<nat>, all: Registry) {
    RegistryOk(job, all) && before <= all && IDsFrom(before, ids, all) && AllRegistered(all, creates)
  }

  lemma AddedOne(job: nat, before: Registry, creates: seq<Shard>, ids: seq<nat>, r: Registry, c: Shard, id: nat)
    requires AddedOk(job, before, creates, ids, r) && HasPoolName(job, c) && !Known(r, c.unique)
    requires id > 0 && forall i :: 0 <= i < |r| ==> r[i].id != id
    ensures AddedOk(job, before, creates + [c], ids + [id], r + [Resource(id, c.unique, c.group, true)])
  {
    var n :| c.unique == Unique(job, c.group, n);
    var new' := Resource(id, c.unique, c.group, true);
    NewNameIsOk(job, r, new', n);
    var all := r + [new'];
    assert all[|r|] == new' && (ids + [id])[|ids|] == id;
    assert Names(all, c.group, c.unique, id);
    forall x | x in creates + [c] ensures Registered(all, x.group, x.unique) {
      if x in creates { StaysRegistered(r, all, x.group, x.unique); }
    }
  }

  lemma SkippedOne(job: nat, before: Registry, creates: seq<Shard>, ids: seq<nat>, r: Registry, c: Shard, id: nat)
    requires AddedOk(job, before, creates, ids, r) && HasPoolName(job, c) && Known(r, c.unique)
    ensures AddedOk(job, before, creates + [c], ids + [id], r)
  {
    var n :| c.unique == Unique(job, c.group, n);
    KnownIsRegistered(job, r, c.group, n);
  }

  lemma AddResourceOk(job: nat, before: Registry, creates: seq<Shard>, ids: seq<nat>, r: Registry, c: Shard, id: nat)
    requires AddedOk(job, before, creates, ids, r) && HasPoolName(job, c)
    requires id > 0 && forall i :: 0 <= i < |r| ==> r[i].id != id
    ensures AddedOk(job, before, creates + [c], ids + [id], AddResource(r, c, id))
  {
    if Known(r, c.unique) {
      SkippedOne(job, before, creates, ids, r, c, id);
    } else {
      AddedOne(job, before, creates, ids, r, c, id);
    }
  }

  lemma NothingAdded(job: nat, reg: Registry, ids: seq<nat>)
    requires RegistryOk(job, reg)
    ensures AddedOk(job, reg, [], ids, reg)
  {
    forall i | 0 <= i < |reg| ensures exists k :: 0 <= k < |reg| && reg[k].id == reg[i].id {
      assert reg[i].id == reg[i].id;
    }
  }

  /** A shorter request is as good. */
  lemma FewerAreFine(job: nat, reg: Registry, creates: seq<Shard>, ids: seq<nat>, n: nat)
    requires n < |creates| == |ids| && PoolNames(job, creates) && FreshIDs(reg, ids)
    ensures PoolNames(job, creates[..n]) && FreshIDs(reg, ids[..n])
    ensures HasPoolName(job, creates[n]) && ids[n] > 0
  {
    forall k | 0 <= k < n ensures HasPoolName(job, creates[..n][k]) {
      assert HasPoolName(job, creates[k]);
    }
  }

  lemma {:induction false} AddedAreRegistered(job: nat, reg: Registry, creates: seq<Shard>, ids: seq<nat>)
    requires RegistryOk(job, reg) && PoolNames(job, creates)
    requires |ids| == |creates| && FreshIDs(reg, ids)
    ensures AddedOk(job, reg, creates, ids, AddResources(reg, creates, ids))
  {
    if creates == [] {
      NothingAdded(job, reg, ids);
    } else {
      var n := |creates| - 1;
      var fewer, fewerIDs := creates[..n], ids[..n];
      FewerAreFine(job, reg, creates, ids, n);
      AddedAreRegistered(job, reg, fewer, fewerIDs);
      var r := AddResources(reg, fewer, fewerIDs);
      NewIDIsFresh(reg, ids, n, r);
      AddResourceOk(job, reg, fewer, fewerIDs, r, creates[n], ids[n]);
      InitsAndLasts(creates, ids);
    }
  }

  lemma InitsAndLasts(creates: seq<Shard>, ids: seq<nat>)
    requires creates != [] && ids != []
    ensures creates[..|creates| - 1] + [creates[|creates| - 1]] == creates
    ensures ids[..|ids| - 1] + [ids[|ids| - 1]] == ids
  {
  }

  lemma KnownIsRegistered(job: nat, reg: Registry, g: U64, n: nat)
    requires RegistryOk(job, reg) && Known(reg, Unique(job, g, n))
    ensures Registered(reg, g, Unique(job, g, n))
  {
    var i :| 0 <= i < |reg| && reg[i].unique == Unique(job, g, n);
    assert Names(reg, g, Unique(job, g, n), reg[i].id);
  }

  lemma NewIDIsFresh(reg: Registry, ids: seq<nat>, n: nat, r: Registry)
    requires n < |ids| && FreshIDs(reg, ids) && IDsFrom(reg, ids[..n], r)
    ensures forall i :: 0 <= i < |r| ==> r[i].id != ids[n]
  {
    forall i | 0 <= i < |r| ensures r[i].id != ids[n] {
      if r[i].id in ids[..n] {
        var k :| 0 <= k < n && ids[..n][k] == r[i].id;
        assert ids[k] != ids[n];
      }
    }
  }

  /** Nothing is forgotten. */
  ghost predicate Keeps(reg: Registry, reg': Registry) {
    forall g, u, id :: Names(reg, g, u, id) ==> Names(reg', g, u, id)
  }

  lemma StaysRegistered(reg: Registry, reg': Registry, g: U64, u: string)
    requires reg <= reg' && Registered(reg, g, u)
    ensures Registered(reg', g, u)
  {
    var id :| Names(reg, g, u, id);
    assert Names(reg', g, u, id);
  }

  lemma ActivateKeeps(job: nat, reg: Registry, i: nat)
    requires i < |reg| && RegistryOk(job, reg)
    ensures Keeps(reg, reg[i := reg[i].(waiting := false)])
    ensures RegistryOk(job, reg[i := reg[i].(waiting := false)])
  {
    var after := reg[i := reg[i].(waiting := false)];
    forall g, u, id | Names(reg, g, u, id) ensures Names(after, g, u, id) {
      var k :| 0 <= k < |reg| && reg[k].id == id && reg[k].unique == u && reg[k].group == g;
      assert after[k] == if k == i then Resource(id, u, g, false) else reg[k];
      assert after[k] in after;
    }
  }

  // ---- one pool

  function Max(a: nat, b: nat): nat {
    if a < b then b else a
  }

  ghost predicate PoolOk(job: nat, reg: Registry, g: U64, p: Pool) {
    && p.allocatedOffset <= p.seqNo <= p.allocatedOffset + Max(1, p.capacity)
    && |p.entries| == p.allocatedOffset
    && (forall i :: 0 <= i < |p.entries| ==> EntryOk(job, reg, g, p.entries[i], i + 1))
    && (forall i, j :: 0 <= i < j < |p.entries| ==> p.entries[i].purpose != p.entries[j].purpose)
    && (forall n :: 1 <= n <= p.seqNo ==> Registered(reg, g, Unique(job, g, n)))
  }

  ghost predicate EntryOk(job: nat, reg: Registry, g: U64, a: Allocated, n: nat) {
    a.allocatedAt == n && Names(reg, g, Unique(job, g, n), a.shardID)
  }

  lemma PoolOkKept(job: nat, reg: Registry, reg': Registry, g: U64, p: Pool)
    requires PoolOk(job, reg, g, p) && Keeps(reg, reg')
    ensures PoolOk(job, reg', g, p)
  {
    forall n | 1 <= n <= p.seqNo ensures Registered(reg', g, Unique(job, g, n)) {
      assert Registered(reg, g, Unique(job, g, n));
    }
  }

  lemma IdleIsDifference(job: nat, reg: Registry, g: U64, p: Pool)
    requires PoolOk(job, reg, g, p)
    ensures Idle(p) == p.seqNo - p.allocatedOffset
  {
  }

  lemma GrownIsOk(job: nat, reg: Registry, g: U64, p: Pool)
    requires PoolOk(job, reg, g, p) && WantsShard(p, 0)
    requires Registered(reg, g, Unique(job, g, p.seqNo + 1))
    ensures PoolOk(job, reg, g, Grown(p))
  {
    IdleIsDifference(job, reg, g, p);
  }

  /** A pool with an idle shard finds it, so the abort for a missing shard is never reached. */
  lemma NextShardIsRegistered(job: nat, reg: Registry, g: U64, p: Pool, purpose: Key)
    requires RegistryOk(job, reg) && PoolOk(job, reg, g, p) && Idle(p) > 0
    ensures var a := NextAllocated(job, reg, g, p, purpose);
            a.shardID > 0 && EntryOk(job, reg, g, a, p.allocatedOffset + 1)
  {
    IdleIsDifference(job, reg, g, p);
    var u := Unique(job, g, p.allocatedOffset + 1);
    assert Registered(reg, g, u);
    ResourceIDFinds(job, reg, g, p.allocatedOffset + 1);
  }

  lemma TakenIsOk(job: nat, reg: Registry, g: U64, p: Pool, purpose: Key)
    requires RegistryOk(job, reg) && PoolOk(job, reg, g, p) && Idle(p) > 0
    requires FindPurpose(p.entries, purpose).None?
    ensures PoolOk(job, reg, g, Taken(p, NextAllocated(job, reg, g, p, purpose)))
  {
    IdleIsDifference(job, reg, g, p);
    NextShardIsRegistered(job, reg, g, p, purpose);
    forall i | 0 <= i < |p.entries| ensures p.entries[i].purpose != purpose {
      assert p.entries[i] in p.entries;
    }
  }

  // ---- all pools

  ghost predicate PoolsOk(job: nat, reg: Registry, pools: Pools) {
    forall g :: g in pools ==> PoolOk(job, reg, g, pools[g])
  }

  /** Groups, capacities and prefixes are those of the job. */
  ghost predicate SameShape(content: Pools, pools: Pools) {
    && pools.Keys == content.Keys
    && forall g :: g in content ==> pools[g].capacity == content[g].capacity && pools[g].rangePrefix == content[g].rangePrefix
  }

  ghost predicate IsSent(job: nat, content: Pools, shard: Shard, n: nat) {
    n + 1 < TWO_TO_64 && shard.group in content && shard == PoolShard(job, shard.group, content[shard.group].rangePrefix, n)
  }

  ghost predicate WasSent(job: nat, content: Pools, shard: Shard) {
    exists n :: IsSent(job, content, shard, n)
  }

  ghost predicate SentOk(job: nat, content: Pools, sent: seq<Shard>) {
    forall i :: 0 <= i < |sent| ==> WasSent(job, content, sent[i])
  }

  ghost predicate Inv(job: nat, content: Pools, s: State) {
    && RegistryOk(job, s.registry)
    && PoolsOk(job, s.registry, s.pools)
    && SameShape(content, s.pools)
    && SentOk(job, content, s.sent)
    && s.pools == (if s.saved.Some? then s.saved.value else content)
  }

  // ---- creation

  /** What the walk over the pools made of one of them. */
  ghost predicate GrownFrom(job: nat, g: U64, p: Pool, p': Pool, creates: seq<Shard>) {
    p' == p || (p' == Grown(p) && WantsShard(p, 0) && PoolShard(job, g, p.rangePrefix, p.seqNo + 1) in creates)
  }

  ghost predicate IsNextShard(job: nat, pools: Pools, c: Shard) {
    c.group in pools && c == PoolShard(job, c.group, pools[c.group].rangePrefix, pools[c.group].seqNo + 1)
  }

  ghost predicate NextShards(job: nat, pools: Pools, creates: seq<Shard>) {
    forall k :: 0 <= k < |creates| ==> IsNextShard(job, pools, creates[k])
  }

  /** The walk has made at most one step with each pool, for the shard announced. */
  ghost predicate WalkOk(job: nat, pools: Pools, order: seq<U64>, d: Draft) {
    && d.pools.Keys == pools.Keys
    && NextShards(job, pools, d.creates)
    && (forall g :: g in pools ==> GrownFrom(job, g, pools[g], d.pools[g], d.creates))
    && (forall g :: g in pools && g !in order ==> d.pools[g] == pools[g])
    && (d.creates == [] ==> d.pools == pools)
  }

  lemma WalkStep(job: nat, pools: Pools, order: seq<U64>, d: Draft, g: U64)
    requires WalkOk(job, pools, order, d) && g !in order
    ensures WalkOk(job, pools, order + [g], GrowOne(job, d, g))
  {
    var d' := GrowOne(job, d, g);
    if d' != d {
      var c := PoolShard(job, g, pools[g].rangePrefix, pools[g].seqNo + 1);
      assert d'.creates == d.creates + [c] && IsNextShard(job, pools, c);
      forall x | x in pools ensures GrownFrom(job, x, pools[x], d'.pools[x], d'.creates) {
        assert GrownFrom(job, x, pools[x], d.pools[x], d.creates);
        if x == g { assert d'.creates[|d.creates|] == c; }
      }
    }
  }

  lemma {:induction false} GrowWalk(job: nat, pools: Pools, order: seq<U64>)
    requires Distinct(order)
    ensures WalkOk(job, pools, order, Grow(job, Draft(pools, []), order))
  {
    if order == [] {
    } else {
      var n := |order| - 1;
      GrowWalk(job, pools, order[..n]);
      WalkStep(job, pools, order[..n], Grow(job, Draft(pools, []), order[..n]), order[n]);
      assert order[..n] + [order[n]] == order;
    }
  }

  // ---- pools do grow, and answers are given

  lemma {:induction false} WalkGrows(job: nat, pools: Pools, order: seq<U64>, g: U64)
    requires Distinct(order) && |order| <= 8 && g in order && g in pools
    ensures var d := Grow(job, Draft(pools, []), order);
            && |d.creates| <= |order| && g in d.pools
            && d.pools[g] == if pools[g].seqNo == 0 || AsInt(Idle(pools[g])) < AsInt(pools[g].capacity)
                             then Grown(pools[g]) else pools[g]
  {
    var n := |order| - 1;
    var init := order[..n];
    GrowWalk(job, pools, init);
    CreatesBounded(job, pools, init);
    CreatesBounded(job, pools, order);
    if g in init {
      WalkGrows(job, pools, init, g);
      assert order[n] != g;
    }
  }

  /** With at most eight pools on the walk, each grows exactly when it has never had a shard or has fewer idle ones than
      its capacity; a capacity beyond the signed range counts only for as many idle shards. */
  lemma GrowsExactlyWhen(job: nat, reg: Registry, pools: Pools, order: seq<U64>, g: U64)
    requires Distinct(order) && |order| <= 8 && g in order && g in pools && PoolOk(job, reg, g, pools[g])
    ensures var d, p := Grow(job, Draft(pools, []), order), pools[g];
            var idle := p.seqNo - p.allocatedOffset;
            && g in d.pools
            && d.pools[g] == if p.seqNo == 0 || (idle < p.capacity && (p.capacity < TWO_TO_63 || TWO_TO_63 <= idle))
                             then p.(seqNo := p.seqNo + 1) else p
  {
    WalkGrows(job, pools, order, g);
    IdleIsDifference(job, reg, g, pools[g]);
  }

  const TWO_TO_63: nat := 0x8000_0000_0000_0000

  lemma {:induction false} CreatesBounded(job: nat, pools: Pools, order: seq<U64>)
    ensures |Grow(job, Draft(pools, []), order).creates| <= |order|
  {
    if order == [] {
    } else {
      CreatesBounded(job, pools, order[..|order| - 1]);
    }
  }

  /** Pools that already have shards never ask for more than eight at a time. */
  lemma {:induction false} AtMostEight(job: nat, pools: Pools, order: seq<U64>)
    requires Distinct(order) && forall g :: g in pools ==> pools[g].seqNo > 0
    ensures |Grow(job, Draft(pools, []), order).creates| <= 8
  {
    if order == [] {
    } else {
      var n := |order| - 1;
      GrowWalk(job, pools, order[..n]);
      AtMostEight(job, pools, order[..n]);
      assert order[n] !in order[..n];
    }
  }

  /** A pool is answered from exactly when it has an idle shard and either knows the purpose or can save. */
  lemma AllocAnswersExactlyWhen(job: nat, reg: Registry, pools: Pools, g: U64, purpose: Key, saveOk: bool)
    requires RegistryOk(job, reg) && PoolsOk(job, reg, pools) && g in pools
    ensures AllocReply(job, reg, pools, g, purpose, saveOk).Answer? <==>
              && pools[g].allocatedOffset < pools[g].seqNo
              && (saveOk || exists i :: 0 <= i < |pools[g].entries| && pools[g].entries[i].purpose == purpose)
  {
    var p := pools[g];
    assert PoolOk(job, reg, g, p);
    IdleIsDifference(job, reg, g, p);
    if Idle(p) > 0 { NextShardIsRegistered(job, reg, g, p, purpose); }
    if FindPurpose(p.entries, purpose).Some? {
      var a := FindPurpose(p.entries, purpose).value;
      var i :| 0 <= i < |p.entries| && p.entries[i] == a;
    } else {
      assert forall i :: 0 <= i < |p.entries| ==> p.entries[i] in p.entries;
    }
  }

  /** The first request to a pool, once shards were created for it, is answered with the pool's first shard. */
  lemma FirstRequestIsAnswered(job: nat, content: Pools, s: State, ev: Event, g: U64, purpose: Key)
    requires Inv(job, content, s) && ev.Create? && Enabled(job, s, ev) && ev.addOk && ev.saveOk
    requires g in s.pools && g in ev.order && |ev.order| <= 8 && s.pools[g].seqNo == 0
    ensures var s' := Step(job, content, s, ev);
            && g in s'.pools
            && var r := AllocReply(job, s'.registry, s'.pools, g, purpose, true);
            r.Answer? && r.value.purpose == purpose && r.value.allocatedAt == 1
            && Names(s'.registry, g, Unique(job, g, 1), r.value.shardID)
  {
    var s' := Step(job, content, s, ev);
    StepKeepsInv(job, content, s, ev);
    GrowsExactlyWhen(job, s.registry, s.pools, ev.order, g);
    assert PoolOk(job, s.registry, g, s.pools[g]);
    FirstAnswer(job, s'.registry, s'.pools, g, purpose);
  }

  lemma FirstAnswer(job: nat, reg: Registry, pools: Pools, g: U64, purpose: Key)
    requires RegistryOk(job, reg) && PoolsOk(job, reg, pools) && g in pools
    requires pools[g].seqNo == 1 && pools[g].allocatedOffset == 0
    ensures var r := AllocReply(job, reg, pools, g, purpose, true);
            && r.Answer? && r.value.purpose == purpose && r.value.allocatedAt == 1
            && Names(reg, g, Unique(job, g, 1), r.value.shardID)
  {
    assert PoolOk(job, reg, g, pools[g]);
    IdleIsDifference(job, reg, g, pools[g]);
    NextShardIsRegistered(job, reg, g, pools[g], purpose);
  }

  lemma NextShardsHavePoolNames(job: nat, pools: Pools, creates: seq<Shard>)
    requires NextShards(job, pools, creates)
    ensures PoolNames(job, creates)
  {
    forall k | 0 <= k < |creates| ensures HasPoolName(job, creates[k]) {
      assert IsNextShard(job, pools, creates[k]);
      assert creates[k].unique == Unique(job, creates[k].group, pools[creates[k].group].seqNo + 1);
    }
  }

  lemma SentStaysOk(job: nat, content: Pools, pools: Pools, before: seq<Shard>, creates: seq<Shard>)
    requires SameShape(content, pools) && SentOk(job, content, before) && NextShards(job, pools, creates)
    requires forall g :: g in pools ==> pools[g].seqNo + 2 < TWO_TO_64
    ensures SentOk(job, content, before + creates)
  {
    var sent := before + creates;
    forall i | 0 <= i < |sent| ensures WasSent(job, content, sent[i]) {
      if i < |before| {
        assert sent[i] == before[i];
      } else {
        var c := creates[i - |before|];
        assert IsNextShard(job, pools, c);
        assert IsSent(job, content, c, pools[c.group].seqNo + 1);
      }
    }
  }

  lemma GrownPoolsOk(job: nat, reg: Registry, reg': Registry, pools: Pools, order: seq<U64>)
    requires PoolsOk(job, reg, pools) && reg <= reg'
    requires Distinct(order)
    requires AllRegistered(reg', Grow(job, Draft(pools, []), order).creates)
    ensures PoolsOk(job, reg', pools)
    ensures PoolsOk(job, reg', Grow(job, Draft(pools, []), order).pools)
  {
    var d := Grow(job, Draft(pools, []), order);
    GrowWalk(job, pools, order);
    forall g | g in pools ensures PoolOk(job, reg', g, pools[g]) && PoolOk(job, reg', g, d.pools[g]) {
      PoolOkKept(job, reg, reg', g, pools[g]);
      if d.pools[g] != pools[g] {
        assert GrownFrom(job, g, pools[g], d.pools[g], d.creates);
        GrownIsOk(job, reg', g, pools[g]);
      }
    }
  }

  lemma CreateRegisters(job: nat, s: State, ev: Event)
    requires RegistryOk(job, s.registry) && PoolsOk(job, s.registry, s.pools)
    requires ev.Create? && ev.added && Enabled(job, s, ev)
    ensures var d := Created(job, s, ev.order);
            var reg := AddResources(s.registry, d.creates, ev.ids);
            RegistryOk(job, reg) && PoolsOk(job, reg, s.pools) && PoolsOk(job, reg, d.pools)
  {
    var d := Created(job, s, ev.order);
    GrowWalk(job, s.pools, ev.order);
    NextShardsHavePoolNames(job, s.pools, d.creates);
    AddedAreRegistered(job, s.registry, d.creates, ev.ids);
    var reg := AddResources(s.registry, d.creates, ev.ids);
    GrownPoolsOk(job, s.registry, reg, s.pools, ev.order);
  }

  lemma CreateKeepsInv(job: nat, content: Pools, s: State, ev: Event)
    requires Inv(job, content, s) && ev.Create? && Enabled(job, s, ev)
    ensures Inv(job, content, Step(job, content, s, ev))
  {
    CreateSends(job, content, s, ev);
    if ev.added { CreateRegisters(job, s, ev); }
    GrownShape(job, content, s.pools, ev.order);
  }

  lemma CreateSends(job: nat, content: Pools, s: State, ev: Event)
    requires SameShape(content, s.pools) && SentOk(job, content, s.sent) && ev.Create? && Enabled(job, s, ev)
    ensures SentOk(job, content, s.sent + Created(job, s, ev.order).creates)
  {
    GrowWalk(job, s.pools, ev.order);
    SentStaysOk(job, content, s.pools, s.sent, Created(job, s, ev.order).creates);
  }

  lemma GrownShape(job: nat, content: Pools, pools: Pools, order: seq<U64>)
    requires SameShape(content, pools)
    requires Distinct(order)
    ensures SameShape(content, Grow(job, Draft(pools, []), order).pools)
    ensures Grow(job, Draft(pools, []), order).creates == [] ==> Grow(job, Draft(pools, []), order).pools == pools
  {
    var d := Grow(job, Draft(pools, []), order);
    GrowWalk(job, pools, order);
    assert forall g :: g in pools ==> GrownFrom(job, g, pools[g], d.pools[g], d.creates);
  }

  lemma AllocatedPoolsOk(job: nat, reg: Registry, pools: Pools, g: U64, purpose: Key, saveOk: bool)
    requires RegistryOk(job, reg) && PoolsOk(job, reg, pools)
    ensures PoolsOk(job, reg, AllocPools(job, reg, pools, g, purpose, saveOk))
    ensures AllocReply(job, reg, pools, g, purpose, saveOk) != MissingShard
  {
    if g in pools {
      var p := pools[g];
      assert PoolOk(job, reg, g, p);
      if Idle(p) > 0 && FindPurpose(p.entries, purpose).None? {
        NextShardIsRegistered(job, reg, g, p, purpose);
        TakenIsOk(job, reg, g, p, purpose);
      }
    }
  }

  lemma AllocKeepsInv(job: nat, content: Pools, s: State, ev: Event)
    requires Inv(job, content, s) && ev.Alloc?
    ensures Inv(job, content, Step(job, content, s, ev))
  {
    AllocatedPoolsOk(job, s.registry, s.pools, ev.group, ev.purpose, ev.saveOk);
    AllocatedShape(job, s.registry, content, s.pools, ev.group, ev.purpose, ev.saveOk);
  }

  lemma AllocatedShape(job: nat, reg: Registry, content: Pools, pools: Pools, g: U64, purpose: Key, saveOk: bool)
    requires SameShape(content, pools)
    ensures SameShape(content, AllocPools(job, reg, pools, g, purpose, saveOk))
  {
  }

  lemma StepKeepsInv(job: nat, content: Pools, s: State, ev: Event)
    requires Inv(job, content, s)
    ensures Inv(job, content, Step(job, content, s, ev))
  {
    if Enabled(job, s, ev) {
      match ev
      case Alloc(_, _, _) => AllocKeepsInv(job, content, s, ev);
      case Create(_, _, _, _, _) => CreateKeepsInv(job, content, s, ev);
      case Activate(i) =>
        ActivateKeeps(job, s.registry, i);
        forall g | g in s.pools ensures PoolOk(job, Step(job, content, s, ev).registry, g, s.pools[g]) {
          PoolOkKept(job, s.registry, Step(job, content, s, ev).registry, g, s.pools[g]);
        }
      case Register(r) => RegisterKeepsInv(job, content, s, r);
      case Reload =>
    }
  }

  lemma RegisterKeepsInv(job: nat, content: Pools, s: State, r: Resource)
    requires Inv(job, content, s) && MayRegister(job, s.registry, r)
    ensures Inv(job, content, s.(registry := s.registry + [r]))
  {
    var after := s.registry + [r];
    RegisteredIsOk(job, s.registry, r);
    forall g | g in s.pools ensures PoolOk(job, after, g, s.pools[g]) {
      PoolOkKept(job, s.registry, after, g, s.pools[g]);
    }
  }

  lemma RegisteredIsOk(job: nat, reg: Registry, r: Resource)
    requires RegistryOk(job, reg) && MayRegister(job, reg, r)
    ensures RegistryOk(job, reg + [r]) && Keeps(reg, reg + [r])
  {
    assert [r.id][0] == r.id;
    forall g: U64, n: nat | r.unique == Unique(job, g, n) ensures r.group == g {
      assert IsPoolName(job, r.unique);
    }
  }

  // ---- whole runs

  predicate Initial(content: Pools, s: State) {
    && s.pools == content && s.saved == None && s.sent == []
    && forall g :: g in content ==> content[g].seqNo == content[g].allocatedOffset == |content[g].entries| == 0
  }

  lemma {:induction false} RunsKeepInv(job: nat, content: Pools, s: State, evs: seq<Event>, k: nat)
    requires Initial(content, s) && RegistryOk(job, s.registry) && k <= |evs|
    ensures Inv(job, content, StateAt(job, content, s, evs, k))
  {
    if k == 0 {
    } else {
      RunsKeepInv(job, content, s, evs, k - 1);
      StepKeepsInv(job, content, StateAt(job, content, s, evs, k - 1), evs[k - 1]);
    }
  }

  /** The pool invariant, in every reachable state. */
  lemma PoolInvariant(job: nat, content: Pools, s: State, evs: seq<Event>, k: nat, g: U64)
    requires Initial(content, s) && RegistryOk(job, s.registry) && k <= |evs| && g in content
    ensures var pools := StateAt(job, content, s, evs, k).pools;
            && g in pools
            && 0 <= pools[g].seqNo - pools[g].allocatedOffset <= Max(1, content[g].capacity)
            && |pools[g].entries| == pools[g].allocatedOffset
            && (forall i :: 0 <= i < |pools[g].entries| ==> pools[g].entries[i].allocatedAt == i + 1)
            && (forall i, j :: 0 <= i < j < |pools[g].entries| ==>
                  pools[g].entries[i].purpose != pools[g].entries[j].purpose)
  {
    RunsKeepInv(job, content, s, evs, k);
  }

  /** A change of leader, after any failures, resumes with the pools as they were. */
  lemma ReloadLosesNothing(job: nat, content: Pools, s: State, evs: seq<Event>, k: nat)
    requires Initial(content, s) && RegistryOk(job, s.registry) && k <= |evs|
    ensures Step(job, content, StateAt(job, content, s, evs, k), Reload) == StateAt(job, content, s, evs, k)
  {
    RunsKeepInv(job, content, s, evs, k);
  }

  lemma ShardIsNeverMissing(job: nat, content: Pools, s: State, evs: seq<Event>, k: nat)
    requires Initial(content, s) && RegistryOk(job, s.registry) && k < |evs| && evs[k].Alloc?
    ensures ReplyAt(job, content, s, evs, k) != MissingShard
  {
    RunsKeepInv(job, content, s, evs, k);
    var now := StateAt(job, content, s, evs, k);
    AllocatedPoolsOk(job, now.registry, now.pools, evs[k].group, evs[k].purpose, evs[k].saveOk);
  }

  /** Shards ever created in one group are one and the same or do not overlap. */
  lemma CreatedRangesAreDisjoint(job: nat, content: Pools, s: State, evs: seq<Event>, k: nat, i: nat, j: nat)
    requires Initial(content, s) && RegistryOk(job, s.registry) && k <= |evs|
    requires i < |StateAt(job, content, s, evs, k).sent| && j < |StateAt(job, content, s, evs, k).sent|
    ensures var a, b := StateAt(job, content, s, evs, k).sent[i], StateAt(job, content, s, evs, k).sent[j];
            a.group == b.group && a.unique != b.unique ==> !Overlap(a, b)
  {
    RunsKeepInv(job, content, s, evs, k);
    var sent := StateAt(job, content, s, evs, k).sent;
    assert WasSent(job, content, sent[i]) && WasSent(job, content, sent[j]);
    SentDisjoint(job, content, sent[i], sent[j]);
  }

  lemma SentDisjoint(job: nat, content: Pools, a: Shard, b: Shard)
    requires WasSent(job, content, a) && WasSent(job, content, b)
    ensures a.group == b.group && a.unique != b.unique ==> !Overlap(a, b)
  {
    var n :| IsSent(job, content, a, n);
    var m :| IsSent(job, content, b, m);
    if a.group == b.group && a.unique != b.unique {
      var prefix := content[a.group].rangePrefix;
      if n < m { PoolRangesDisjoint(job, a.group, prefix, n, m); }
      else { PoolRangesDisjoint(job, a.group, prefix, m, n); }
    }
  }

  // ---- answers

  ghost predicate Extends(a: Pools, b: Pools) {
    forall g :: g in a ==> g in b && a[g].entries <= b[g].entries
  }

  lemma StepExtends(job: nat, content: Pools, s: State, ev: Event)
    requires Inv(job, content, s)
    ensures Extends(s.pools, Step(job, content, s, ev).pools)
  {
    if ev.Create? && Enabled(job, s, ev) {
      GrownExtends(job, s.pools, ev.order);
    } else if ev.Alloc? {
      AllocExtends(job, s.registry, s.pools, ev.group, ev.purpose, ev.saveOk);
    }
  }

  lemma GrownExtends(job: nat, pools: Pools, order: seq<U64>)
    requires Distinct(order)
    ensures Extends(pools, Grow(job, Draft(pools, []), order).pools)
  {
    var d := Grow(job, Draft(pools, []), order);
    GrowWalk(job, pools, order);
    assert forall g :: g in pools ==> GrownFrom(job, g, pools[g], d.pools[g], d.creates);
  }

  lemma AllocExtends(job: nat, reg: Registry, pools: Pools, g: U64, purpose: Key, saveOk: bool)
    ensures Extends(pools, AllocPools(job, reg, pools, g, purpose, saveOk))
  {
  }

  lemma {:induction false} RunExtends(job: nat, content: Pools, s: State, evs: seq<Event>, i: nat, k: nat)
    requires Initial(content, s) && RegistryOk(job, s.registry) && i <= k <= |evs|
    ensures Extends(StateAt(job, content, s, evs, i).pools, StateAt(job, content, s, evs, k).pools)
  {
    if i == k {
    } else {
      RunExtends(job, content, s, evs, i, k - 1);
      RunsKeepInv(job, content, s, evs, k - 1);
      StepExtends(job, content, StateAt(job, content, s, evs, k - 1), evs[k - 1]);
    }
  }

  /** An answer stays on its group's list from then on. */
  lemma AnswerIsRecorded(job: nat, content: Pools, s: State, evs: seq<Event>, i: nat, k: nat)
    requires Initial(content, s) && RegistryOk(job, s.registry) && i < k <= |evs|
    requires evs[i].Alloc? && ReplyAt(job, content, s, evs, i).Answer?
    ensures var a := ReplyAt(job, content, s, evs, i).value;
            var pools := StateAt(job, content, s, evs, k).pools;
            a.purpose == evs[i].purpose && evs[i].group in pools && a in pools[evs[i].group].entries
  {
    var a := ReplyAt(job, content, s, evs, i).value;
    var g := evs[i].group;
    assert a in StateAt(job, content, s, evs, i + 1).pools[g].entries;
    RunExtends(job, content, s, evs, i + 1, k);
    var now, then' := StateAt(job, content, s, evs, i + 1).pools[g].entries, StateAt(job, content, s, evs, k).pools[g].entries;
    assert now <= then';
  }

  /** Two answers name the same shard exactly when they are for the same group and purpose. */
  lemma SameShardIffSamePurpose(job: nat, content: Pools, s: State, evs: seq<Event>, i: nat, j: nat)
    requires Initial(content, s) && RegistryOk(job, s.registry) && i < |evs| && j < |evs|
    requires evs[i].Alloc? && ReplyAt(job, content, s, evs, i).Answer?
    requires evs[j].Alloc? && ReplyAt(job, content, s, evs, j).Answer?
    ensures ReplyAt(job, content, s, evs, i).value.shardID == ReplyAt(job, content, s, evs, j).value.shardID
            <==> (evs[i].group == evs[j].group && evs[i].purpose == evs[j].purpose)
    ensures evs[i].group == evs[j].group && evs[i].purpose == evs[j].purpose ==>
              ReplyAt(job, content, s, evs, i) == ReplyAt(job, content, s, evs, j)
  {
    var k := |evs|;
    RunsKeepInv(job, content, s, evs, k);
    AnswerIsRecorded(job, content, s, evs, i, k);
    AnswerIsRecorded(job, content, s, evs, j, k);
    EntriesDiffer(job, StateAt(job, content, s, evs, k), evs[i].group, ReplyAt(job, content, s, evs, i).value,
                  evs[j].group, ReplyAt(job, content, s, evs, j).value);
  }

  lemma EntriesDiffer(job: nat, s: State, g: U64, a: Allocated, g': U64, b: Allocated)
    requires RegistryOk(job, s.registry) && PoolsOk(job, s.registry, s.pools)
    requires g in s.pools && a in s.pools[g].entries && g' in s.pools && b in s.pools[g'].entries
    ensures a.shardID == b.shardID <==> (g == g' && a.purpose == b.purpose)
    ensures g == g' && a.purpose == b.purpose ==> a == b
  {
    var x :| 0 <= x < |s.pools[g].entries| && s.pools[g].entries[x] == a;
    var y :| 0 <= y < |s.pools[g'].entries| && s.pools[g'].entries[y] == b;
    assert EntryOk(job, s.registry, g, a, x + 1) && EntryOk(job, s.registry, g', b, y + 1);
    if a.shardID == b.shardID { SameEntry(job, s.registry, g, a, x + 1, g', b, y + 1); }
    assert g == g' && a.purpose == b.purpose ==> x == y;
  }

  lemma SameEntry(job: nat, reg: Registry, g: U64, a: Allocated, n: nat, g': U64, b: Allocated, m: nat)
    requires RegistryOk(job, reg) && EntryOk(job, reg, g, a, n) && EntryOk(job, reg, g', b, m) && a.shardID == b.shardID
    ensures g == g' && n == m
  {
    IDHasOneName(job, reg, g, Unique(job, g, n), g', Unique(job, g', m), a.shardID);
    UniqueInjective(job, g, n, g', m);
  }
}
