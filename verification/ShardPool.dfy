/** The pool of shards created ahead of their use (raftstore/store_shards_pool.go). */
module ShardPool {
  import opened Bytes
  import opened Shards
  import opened Options

  datatype Allocated = Allocated(shardID: nat, allocatedAt: nat, purpose: Key)

  datatype Pool = Pool(capacity: U64, rangePrefix: Key, seqNo: nat, allocatedOffset: nat, entries: seq<Allocated>)

  type Pools = map<U64, Pool>

  /** A shard the scheduler knows: waiting to be created, or created. */
  datatype Resource = Resource(id: nat, unique: string, group: U64, waiting: bool)

  type Registry = seq<Resource>

  // ---- names: "%d-%d-%d"

  function Digit(d: nat): (c: char)
    requires d < 10
    ensures c != '-'
  {
    (48 + d) as char
  }

  function Decimal(n: nat): (s: string)
    ensures |s| > 0 && '-' !in s
  {
    if n < 10 then [Digit(n)] else Decimal(n / 10) + [Digit(n % 10)]
  }

  lemma {:induction false} DecimalInjective(a: nat, b: nat)
    requires Decimal(a) == Decimal(b)
    ensures a == b
  {
    var s, t := Decimal(a), Decimal(b);
    if a >= 10 && b >= 10 {
      assert s[..|s| - 1] == Decimal(a / 10) && t[..|t| - 1] == Decimal(b / 10);
      DecimalInjective(a / 10, b / 10);
      assert s[|s| - 1] == Digit(a % 10) && t[|t| - 1] == Digit(b % 10);
    } else {
      assert s[|s| - 1] == Digit(a % 10) && t[|t| - 1] == Digit(b % 10);
    }
  }

  function Unique(job: nat, g: nat, n: nat): string {
    Decimal(job) + (['-'] + (Decimal(g) + (['-'] + Decimal(n))))
  }

  /** Text before the first dash is determined. */
  lemma CutAtDash(a: string, x: string, b: string, y: string)
    requires '-' !in a && '-' !in b && a + (['-'] + x) == b + (['-'] + y)
    ensures a == b && x == y
  {
    var s, t := a + (['-'] + x), b + (['-'] + y);
    assert s[|a|] == '-' && t[|b|] == '-';
    assert a == s[..|a|] && b == t[..|b|];
    assert x == s[|a| + 1..] && y == t[|b| + 1..];
  }

  /** Names of different jobs differ too. */
  lemma UniqueTellsJob(job: nat, g: nat, n: nat, job': nat, g': nat, n': nat)
    requires Unique(job, g, n) == Unique(job', g', n')
    ensures job == job'
  {
    CutAtDash(Decimal(job), Decimal(g) + (['-'] + Decimal(n)), Decimal(job'), Decimal(g') + (['-'] + Decimal(n')));
    DecimalInjective(job, job');
  }

  lemma UniqueInjective(job: nat, g: nat, n: nat, g': nat, n': nat)
    requires Unique(job, g, n) == Unique(job, g', n')
    ensures g == g' && n == n'
  {
    CutAtDash(Decimal(job), Decimal(g) + (['-'] + Decimal(n)), Decimal(job), Decimal(g') + (['-'] + Decimal(n')));
    CutAtDash(Decimal(g), Decimal(n), Decimal(g'), Decimal(n'));
    DecimalInjective(g, g');
    DecimalInjective(n, n');
  }

  // ---- ranges

  function AddPrefix(prefix: Key, v: nat): Key {
    prefix + BigEndian(v, 8)
  }

  function PoolShard(job: nat, g: U64, prefix: Key, n: nat): Shard {
    EMPTY_SHARD.(group := g, start := AddPrefix(prefix, n), end := AddPrefix(prefix, n + 1), unique := Unique(job, g, n))
  }

  lemma PoolRangesDisjoint(job: nat, g: U64, prefix: Key, n: nat, m: nat)
    requires n < m && m + 1 < TWO_TO_64
    ensures !Overlap(PoolShard(job, g, prefix, n), PoolShard(job, g, prefix, m))
    ensures WellFormed(PoolShard(job, g, prefix, n))
  {
    EightBytesHoldU64();
    var lo, mid, hi := BigEndian(n, 8), BigEndian(n + 1, 8), BigEndian(m, 8);
    assert lo + [] == lo && mid + [] == mid && hi + [] == hi;
    BigEndianOrder(n, n + 1, 8, [], []);
    LessUnderPrefix(prefix, lo, mid);
    if n + 1 < m {
      BigEndianOrder(n + 1, m, 8, [], []);
      LessUnderPrefix(prefix, mid, hi);
      LessIsTotalOrder();
    } else {
      LessIrreflexive(AddPrefix(prefix, m));
    }
  }

  /** Every key of a pool shard has the pool's prefix. */
  lemma {:induction false} BetweenSharesPrefix(prefix: Key, a: Key, b: Key, key: Key)
    requires AtMost(prefix + a, key) && Less(key, prefix + b)
    ensures prefix <= key
  {
    if prefix == [] {
    } else {
      assert (prefix + a)[1..] == prefix[1..] + a && (prefix + b)[1..] == prefix[1..] + b;
      assert key != [] && key[0] == prefix[0];
      BetweenSharesPrefix(prefix[1..], a, b, key[1..]);
      assert key == [key[0]] + key[1..];
    }
  }

  /** A pool shard holds only keys with the pool's prefix, and of the keys numbered after it exactly those with its own
      number. */
  lemma PoolShardHoldsItsNumber(job: nat, g: U64, prefix: Key, n: nat, v: nat, rest: Key, key: Key)
    requires n + 1 < TWO_TO_64 && v < TWO_TO_64
    ensures Contains(PoolShard(job, g, prefix, n), prefix + BigEndian(v, 8) + rest) <==> v == n
    ensures Contains(PoolShard(job, g, prefix, n), key) ==> prefix <= key
    ensures PoolShard(job, g, prefix, n).group == g
  {
    var lo, hi, numbered := BigEndian(n, 8), BigEndian(n + 1, 8), BigEndian(v, 8) + rest;
    EightBytesHoldU64();
    NumberedKeyInRange(n, v, rest);
    assert prefix + BigEndian(v, 8) + rest == prefix + numbered;
    LessUnderPrefix(prefix, numbered, lo);
    LessUnderPrefix(prefix, numbered, hi);
    assert |prefix + hi| > 0;
    if Contains(PoolShard(job, g, prefix, n), key) { BetweenSharesPrefix(prefix, lo, hi, key); }
  }

  lemma NumberedKeyInRange(n: nat, v: nat, rest: Key)
    requires n + 1 < Pow256(8) && v < Pow256(8)
    ensures (!Less(BigEndian(v, 8) + rest, BigEndian(n, 8)) && Less(BigEndian(v, 8) + rest, BigEndian(n + 1, 8))) <==> v == n
  {
    var lo, hi, key := BigEndian(n, 8), BigEndian(n + 1, 8), BigEndian(v, 8) + rest;
    assert lo + [] == lo && hi + [] == hi;
    if v < n {
      BigEndianOrder(v, n, 8, rest, []);
    } else if v == n {
      BigEndianOrder(v, n + 1, 8, rest, []);
      LessThanExtension(lo, rest);
      NotLessThanPrefix(lo, rest);
    } else {
      if v == n + 1 {
        NotLessThanPrefix(hi, rest);
      } else {
        BigEndianOrder(n + 1, v, 8, [], rest);
        LessIsTotalOrder();
      }
    }
  }

  lemma NotLessThanPrefix(a: Key, rest: Key)
    ensures !Less(a + rest, a)
  {
    LessThanExtension(a, rest);
    LessIrreflexive(a);
    if rest == [] {
      assert a + rest == a;
    } else if Less(a + rest, a) {
      LessTransitive(a, a + rest, a);
    }
  }

  // ---- creating shards

  /** A uint64 read as a 64-bit `int`. */
  function AsInt(n: nat): int {
    if n < TWO_TO_64 / 2 then n else n - TWO_TO_64
  }

  const MAX_CREATES := 8

  datatype Draft = Draft(pools: Pools, creates: seq<Shard>)

  predicate WantsShard(p: Pool, creates: nat) {
    p.seqNo == 0 || (AsInt(Idle(p)) < AsInt(p.capacity) && creates < MAX_CREATES)
  }

  /** `Seq - AllocatedOffset`, in unsigned arithmetic. */
  function Idle(p: Pool): nat {
    (p.seqNo - p.allocatedOffset) % TWO_TO_64
  }

  function Grown(p: Pool): Pool {
    p.(seqNo := p.seqNo + 1)
  }

  function GrowOne(job: nat, d: Draft, g: U64): Draft {
    if g !in d.pools || !WantsShard(d.pools[g], |d.creates|) then d
    else Draft(d.pools[g := Grown(d.pools[g])],
               d.creates + [PoolShard(job, g, d.pools[g].rangePrefix, d.pools[g].seqNo + 1)])
  }

  function Grow(job: nat, d: Draft, order: seq<U64>): Draft {
    if order == [] then d else GrowOne(job, Grow(job, d, order[..|order| - 1]), order[|order| - 1])
  }

  // ---- allocating a shard

  datatype Reply = Answer(value: Allocated) | NoIdle | SaveFailed | NoPool | MissingShard

  function FindPurpose(list: seq<Allocated>, purpose: Key): (r: Option<Allocated>)
    ensures r.Some? ==> r.value in list && r.value.purpose == purpose
    ensures r.None? ==> forall a :: a in list ==> a.purpose != purpose
  {
    if list == [] then None
    else if list[0].purpose == purpose then Some(list[0])
    else FindPurpose(list[1..], purpose)
  }

  /** The ID of the last resource visited that bears the name, 0 if none does. */
  function VisitedID(reg: Registry, unique: string, waiting: bool, g: U64): nat {
    if reg == [] then 0
    else if Visited(reg[|reg| - 1], waiting, g) && reg[|reg| - 1].unique == unique then reg[|reg| - 1].id
    else VisitedID(reg[..|reg| - 1], unique, waiting, g)
  }

  /** Waiting resources are visited whatever their group, created ones within the group. */
  predicate Visited(r: Resource, waiting: bool, g: U64) {
    r.waiting == waiting && (waiting || r.group == g)
  }

  function ResourceID(reg: Registry, unique: string, g: U64): nat {
    if VisitedID(reg, unique, true, g) != 0 then VisitedID(reg, unique, true, g) else VisitedID(reg, unique, false, g)
  }

  function NextAllocated(job: nat, reg: Registry, g: U64, p: Pool, purpose: Key): Allocated {
    Allocated(ResourceID(reg, Unique(job, g, p.allocatedOffset + 1), g), p.allocatedOffset + 1, purpose)
  }

  function Taken(p: Pool, a: Allocated): Pool {
    p.(allocatedOffset := p.allocatedOffset + 1, entries := p.entries + [a])
  }

  function AllocReply(job: nat, reg: Registry, pools: Pools, g: U64, purpose: Key, saveOk: bool): Reply {
    if g !in pools then NoPool
    else if Idle(pools[g]) == 0 then NoIdle
    else if FindPurpose(pools[g].entries, purpose).Some? then Answer(FindPurpose(pools[g].entries, purpose).value)
    else if NextAllocated(job, reg, g, pools[g], purpose).shardID == 0 then MissingShard
    else if !saveOk then SaveFailed
    else Answer(NextAllocated(job, reg, g, pools[g], purpose))
  }

  /** Only an answer that is not already on the list changes the pools. */
  function AllocPools(job: nat, reg: Registry, pools: Pools, g: U64, purpose: Key, saveOk: bool): Pools {
    var r := AllocReply(job, reg, pools, g, purpose, saveOk);
    if r.Answer? && FindPurpose(pools[g].entries, purpose).None? then pools[g := Taken(pools[g], r.value)] else pools
  }

  method FindID(reg: Registry, unique: string, waiting: bool, g: U64) returns (id: nat)
    ensures id == VisitedID(reg, unique, waiting, g)
  {
    id := 0;
    for i := 0 to |reg|
      invariant id == VisitedID(reg[..i], unique, waiting, g)
    {
      assert reg[..i + 1][..i] == reg[..i];
      if Visited(reg[i], waiting, g) && reg[i].unique == unique { id := reg[i].id; }
    }
    assert reg[..|reg|] == reg;
  }

  /** The job processor; `saved` is its data in the job storage. Whether the storage and the scheduler fail, and
      the order in which the map of pools is walked, are parameters. */
  class DynamicShardsPool {
    const job: nat
    var pools: Pools
    var saved: Option<Pools>

    constructor (job: nat, content: Pools)
      ensures this.job == job && pools == content && saved == None
    {
      this.job := job;
      pools, saved := content, None;
    }

    method SaveLocked(saveOk: bool)
      modifies `saved
      ensures saved == if saveOk then Some(pools) else old(saved)
    {
      if saveOk { saved := Some(pools); }
    }

    method DoAlloc(g: U64, purpose: Key, reg: Registry, saveOk: bool) returns (r: Reply)
      modifies this
      ensures r == AllocReply(job, reg, old(pools), g, purpose, saveOk)
      ensures pools == AllocPools(job, reg, old(pools), g, purpose, saveOk)
      ensures saved == if pools == old(pools) then old(saved) else Some(pools)
    {
      if g !in pools { return NoPool; }
      var p := pools[g];
      if Idle(p) == 0 { return NoIdle; }
      for i := 0 to |p.entries|
        invariant FindPurpose(p.entries, purpose) == FindPurpose(p.entries[i..], purpose)
      {
        if p.entries[i].purpose == purpose { return Answer(p.entries[i]); }
        assert p.entries[i..][1..] == p.entries[i + 1..];
      }
      var before := pools;
      p := p.(allocatedOffset := p.allocatedOffset + 1);
      var unique := Unique(job, g, p.allocatedOffset);
      var id := FindID(reg, unique, true, g);
      if id == 0 { id := FindID(reg, unique, false, g); }
      if id == 0 { return MissingShard; }
      var entry := Allocated(id, p.allocatedOffset, purpose);
      p := p.(entries := p.entries + [entry]);
      pools := pools[g := p];
      SaveLocked(saveOk);
      if !saveOk {
        pools := before;
        return SaveFailed;
      }
      r := Answer(entry);
    }

    /** The loop over the pools. */
    method GrowPools(order: seq<U64>) returns (creates: seq<Shard>)
      modifies `pools
      ensures Draft(pools, creates) == Grow(job, Draft(old(pools), []), order)
      ensures creates == [] ==> pools == old(pools)
    {
      ghost var before := pools;
      creates := [];
      for i := 0 to |order|
        invariant Draft(pools, creates) == Grow(job, Draft(before, []), order[..i])
        invariant creates == [] ==> pools == before
      {
        assert order[..i + 1][..i] == order[..i];
        var g := order[i];
        if g in pools && WantsShard(pools[g], |creates|) {
          var p := Grown(pools[g]);
          pools := pools[g := p];
          creates := creates + [PoolShard(job, g, p.rangePrefix, p.seqNo)];
        }
      }
      assert order[..|order|] == order;
    }

    method MaybeCreate(order: seq<U64>, addOk: bool, saveOk: bool) returns (creates: seq<Shard>)
      modifies this
      ensures creates == Grow(job, Draft(old(pools), []), order).creates
      ensures pools == if addOk && saveOk then Grow(job, Draft(old(pools), []), order).pools else old(pools)
      ensures saved == if creates != [] && addOk && saveOk then Some(pools) else old(saved)
    {
      var before := pools;
      creates := GrowPools(order);
      if |creates| > 0 {
        if !addOk {
          pools := before;
          return;
        }
        SaveLocked(saveOk);
        if !saveOk { pools := before; }
      }
    }

    method Reload(content: Pools)
      modifies `pools
      ensures pools == if saved.Some? then saved.value else content
    {
      pools := if saved.Some? then saved.value else content;
    }
  }

  // ---- runs

  /** `sent` are all the shards ever handed to the scheduler. */
  datatype State = State(pools: Pools, saved: Option<Pools>, registry: Registry, sent: seq<Shard>)

  /** A failed request to the scheduler may still have been carried out; a resource is activated when its
      replicas report; shards are registered for other reasons too; a reload is a change of leader. */
  datatype Event =
    | Alloc(group: U64, purpose: Key, saveOk: bool)
    | Create(order: seq<U64>, added: bool, addOk: bool, saveOk: bool, ids: seq<nat>)
    | Activate(index: nat)
    | Register(resource: Resource)
    | Reload

  /** The scheduler skips a name it already has. */
  function AddResources(reg: Registry, creates: seq<Shard>, ids: seq<nat>): Registry
    requires |ids| == |creates|
  {
    if creates == [] then reg
    else
      var n := |creates| - 1;
      AddResource(AddResources(reg, creates[..n], ids[..n]), creates[n], ids[n])
  }

  function AddResource(reg: Registry, c: Shard, id: nat): Registry {
    if Known(reg, c.unique) then reg else reg + [Resource(id, c.unique, c.group, true)]
  }

  predicate Known(reg: Registry, unique: string) {
    exists i :: 0 <= i < |reg| && reg[i].unique == unique
  }

  function Created(job: nat, s: State, order: seq<U64>): Draft {
    Grow(job, Draft(s.pools, []), order)
  }

  ghost predicate IsPoolName(job: nat, unique: string) {
    exists g: U64, n: nat :: unique == Unique(job, g, n)
  }

  /** Ordinary shards have no name, or one of their own. The shards split off a shard of the pool bear its name
      and stay in its group. */
  ghost predicate MayRegister(job: nat, reg: Registry, r: Resource) {
    && FreshIDs(reg, [r.id])
    && (IsPoolName(job, r.unique) ==> exists i :: 0 <= i < |reg| && reg[i].unique == r.unique && reg[i].group == r.group)
  }

  /** IDs come from the scheduler's allocator; sequence numbers have not wrapped. */
  ghost predicate Enabled(job: nat, s: State, ev: Event) {
    match ev
    case Alloc(_, _, _) => true
    case Create(order, added, addOk, _, ids) =>
      && (addOk ==> added)
      && Distinct(order)
      && (forall g :: g in s.pools ==> s.pools[g].seqNo + 2 < TWO_TO_64)
      && |ids| == |Created(job, s, order).creates|
      && FreshIDs(s.registry, ids)
    case Activate(i) => i < |s.registry|
    case Register(r) => MayRegister(job, s.registry, r)
    case Reload => true
  }

  predicate Distinct(order: seq<U64>) {
    forall i, j :: 0 <= i < j < |order| ==> order[i] != order[j]
  }

  predicate FreshIDs(reg: Registry, ids: seq<nat>) {
    && (forall i :: 0 <= i < |ids| ==> ids[i] > 0)
    && (forall i, j :: 0 <= i < j < |ids| ==> ids[i] != ids[j])
    && (forall i, j :: 0 <= i < |reg| && 0 <= j < |ids| ==> reg[i].id != ids[j])
  }

  /** A disabled event changes nothing. */
  ghost function Step(job: nat, content: Pools, s: State, ev: Event): State {
    if !Enabled(job, s, ev) then s
    else
      match ev
      case Alloc(g, purpose, saveOk) =>
        var pools := AllocPools(job, s.registry, s.pools, g, purpose, saveOk);
        s.(pools := pools, saved := if pools == s.pools then s.saved else Some(pools))
      case Create(order, added, addOk, saveOk, ids) =>
        var d := Created(job, s, order);
        State(if addOk && saveOk then d.pools else s.pools,
              if d.creates != [] && addOk && saveOk then Some(d.pools) else s.saved,
              if added then AddResources(s.registry, d.creates, ids) else s.registry,
              s.sent + d.creates)
      case Activate(i) => s.(registry := s.registry[i := s.registry[i].(waiting := false)])
      case Register(r) => s.(registry := s.registry + [r])
      case Reload => s.(pools := if s.saved.Some? then s.saved.value else content)
  }

  ghost function StateAt(job: nat, content: Pools, s: State, evs: seq<Event>, k: nat): State
    requires k <= |evs|
  {
    if k == 0 then s else Step(job, content, StateAt(job, content, s, evs, k - 1), evs[k - 1])
  }

  ghost function ReplyAt(job: nat, content: Pools, s: State, evs: seq<Event>, k: nat): Reply
    requires k < |evs| && evs[k].Alloc?
  {
    var now := StateAt(job, content, s, evs, k);
    AllocReply(job, now.registry, now.pools, evs[k].group, evs[k].purpose, evs[k].saveOk)
  }
}
