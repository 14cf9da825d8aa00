/** Epoch checks (`checkEpoch` in raftstore/store.go) over a run of applied commands
    (raftstore/peer_apply.go, raftstore/peer_apply_exec.go). */
module Epochs {
  import opened Bytes
  import opened Shards
  import opened Keys
  import opened Split
  import opened Options

  datatype Header = Header(epoch: Epoch, ignoreEpochCheck: bool)

  /** A configuration change is opaque: when it takes effect it replaces the peers and raises the
      configuration version, and touches neither the range nor the version. */
  datatype Body =
    | Write(keys: seq<Key>)
    | BatchSplit(reqs: seq<SplitRequest>)
    | ChangePeer(v2: bool, effective: bool, raise: nat, peers: seq<Peer>)
    | TransferLeader
    | CompactLog

  datatype Command = Command(header: Option<Header>, body: Body)

  // ---- checkEpoch

  predicate ChecksVersion(b: Body) {
    b.Write? || b.BatchSplit? || b.TransferLeader?
  }

  predicate ChecksConfVer(b: Body) {
    (b.ChangePeer? && !b.v2) || b.TransferLeader?
  }

  /** The command is not older than the shard in what its kind depends on. */
  predicate Fresh(epoch: Epoch, c: Command) {
    || !(ChecksVersion(c.body) || ChecksConfVer(c.body))
    || (&& c.header.Some?
        && (ChecksConfVer(c.body) ==> epoch.confVer <= c.header.value.epoch.confVer)
        && (ChecksVersion(c.body) ==> c.header.value.ignoreEpochCheck || epoch.version <= c.header.value.epoch.version))
  }

  method CheckEpoch(shard: Shard, c: Command) returns (ok: bool)
    ensures ok == Fresh(shard.epoch, c)
  {
    var checkVer, checkConfVer := false, false;
    match c.body {
      case BatchSplit(_) => checkVer := true;
      case ChangePeer(v2, _, _, _) => checkConfVer := !v2;
      case TransferLeader => checkVer, checkConfVer := true, true;
      case CompactLog =>
      case Write(_) => checkVer := true;
    }
    if !checkConfVer && !checkVer { return true; }
    if c.header.None? { return false; }
    var from := c.header.value.epoch;
    if c.header.value.ignoreEpochCheck { checkVer := false; }
    ok := !((checkConfVer && from.confVer < shard.epoch.confVer) || (checkVer && from.version < shard.epoch.version));
  }

  // ---- runs

  /** The delegate's shard after one command (`doApplyRaftCMD`). */
  function Exec(shard: Shard, c: Command): Shard {
    if !Fresh(shard.epoch, c) then shard
    else
      match c.body
      case BatchSplit(reqs) => if Splittable(shard, reqs) then Derived(shard, reqs) else shard
      case ChangePeer(_, effective, raise, peers) =>
        if effective then shard.(peers := peers, epoch := shard.epoch.(confVer := shard.epoch.confVer + raise)) else shard
      case _ => shard
  }

  function ShardAfter(shard: Shard, log: seq<Command>, k: nat): Shard
    requires k <= |log|
  {
    if k == 0 then shard else Exec(ShardAfter(shard, log, k - 1), log[k - 1])
  }

  /** Command `c` splits the shard. */
  predicate Splits(shard: Shard, c: Command) {
    Fresh(shard.epoch, c) && c.body.BatchSplit? && Splittable(shard, c.body.reqs)
  }

  lemma OnlySplitsMoveTheVersion(shard: Shard, c: Command)
    ensures shard.epoch.version <= Exec(shard, c).epoch.version
    ensures shard.epoch.version == Exec(shard, c).epoch.version <==> !Splits(shard, c)
    ensures !Splits(shard, c) ==> SameRange(Exec(shard, c), shard)
    ensures shard.epoch.confVer <= Exec(shard, c).epoch.confVer
  {
  }

  ghost predicate SplitBetween(shard: Shard, log: seq<Command>, j: nat, i: nat)
    requires j <= i <= |log|
  {
    exists k :: j <= k < i && Splits(ShardAfter(shard, log, k), log[k])
  }

  /** In every run the version never decreases, and it stays exactly as long as no split takes effect. */
  lemma {:induction false} VersionCountsSplits(shard: Shard, log: seq<Command>, j: nat, i: nat)
    requires j <= i <= |log|
    ensures ShardAfter(shard, log, j).epoch.version <= ShardAfter(shard, log, i).epoch.version
    ensures ShardAfter(shard, log, j).epoch.version == ShardAfter(shard, log, i).epoch.version
            <==> !SplitBetween(shard, log, j, i)
  {
    if j == i {
    } else {
      VersionCountsSplits(shard, log, j, i - 1);
      OnlySplitsMoveTheVersion(ShardAfter(shard, log, i - 1), log[i - 1]);
      SplitBetweenStep(shard, log, j, i);
    }
  }

  /** The range changes only when the version grows. */
  lemma {:induction false} VersionNamesTheRange(shard: Shard, log: seq<Command>, j: nat, i: nat)
    requires j <= i <= |log|
    ensures ShardAfter(shard, log, j).epoch.version == ShardAfter(shard, log, i).epoch.version ==>
              SameRange(ShardAfter(shard, log, j), ShardAfter(shard, log, i))
  {
    if j == i {
    } else {
      var before := ShardAfter(shard, log, i - 1);
      VersionNamesTheRange(shard, log, j, i - 1);
      VersionCountsSplits(shard, log, j, i - 1);
      OnlySplitsMoveTheVersion(before, log[i - 1]);
      assert ShardAfter(shard, log, i) == Exec(before, log[i - 1]);
    }
  }

  lemma SplitBetweenStep(shard: Shard, log: seq<Command>, j: nat, i: nat)
    requires j < i <= |log|
    ensures SplitBetween(shard, log, j, i) <==>
              (SplitBetween(shard, log, j, i - 1) || Splits(ShardAfter(shard, log, i - 1), log[i - 1]))
  {
    if SplitBetween(shard, log, j, i) {
      var k :| j <= k < i && Splits(ShardAfter(shard, log, k), log[k]);
      assert k == i - 1 || k < i - 1;
    }
  }

  /** A write stamped with the epoch the leader had after `j` commands, and applied as command `i`, executes
      exactly when no split took effect in between; then the shard holds the keys it held when it was stamped. */
  lemma WriteExecutesUnderItsVersion(shard: Shard, log: seq<Command>, j: nat, i: nat, key: Key)
    requires j <= i < |log| && log[i].body.Write?
    requires log[i].header == Some(Header(ShardAfter(shard, log, j).epoch, false))
    ensures Fresh(ShardAfter(shard, log, i).epoch, log[i]) <==> !SplitBetween(shard, log, j, i)
    ensures Fresh(ShardAfter(shard, log, i).epoch, log[i]) ==>
              (Contains(ShardAfter(shard, log, i), key) <==> Contains(ShardAfter(shard, log, j), key))
  {
    VersionCountsSplits(shard, log, j, i);
    VersionNamesTheRange(shard, log, j, i);
  }

  // ---- every kind of command

  /** Command `c` raises the configuration version. */
  predicate RaisesConfVer(shard: Shard, c: Command) {
    Fresh(shard.epoch, c) && c.body.ChangePeer? && c.body.effective && c.body.raise > 0
  }

  lemma OnlyChangesMoveConfVer(shard: Shard, c: Command)
    ensures shard.epoch.confVer <= Exec(shard, c).epoch.confVer
    ensures shard.epoch.confVer == Exec(shard, c).epoch.confVer <==> !RaisesConfVer(shard, c)
    ensures RaisesConfVer(shard, c) ==>
              Exec(shard, c).epoch.confVer == shard.epoch.confVer + c.body.raise && Exec(shard, c).peers == c.body.peers
  {
  }

  ghost predicate ChangeBetween(shard: Shard, log: seq<Command>, j: nat, i: nat)
    requires j <= i <= |log|
  {
    exists k :: j <= k < i && RaisesConfVer(ShardAfter(shard, log, k), log[k])
  }

  lemma ChangeBetweenStep(shard: Shard, log: seq<Command>, j: nat, i: nat)
    requires j < i <= |log|
    ensures ChangeBetween(shard, log, j, i) <==>
              (ChangeBetween(shard, log, j, i - 1) || RaisesConfVer(ShardAfter(shard, log, i - 1), log[i - 1]))
  {
    if ChangeBetween(shard, log, j, i) {
      var k :| j <= k < i && RaisesConfVer(ShardAfter(shard, log, k), log[k]);
      assert k == i - 1 || k < i - 1;
    }
  }

  /** In every run the configuration version never decreases, and stays exactly as long as no change raises it. */
  lemma {:induction false} ConfVerCountsChanges(shard: Shard, log: seq<Command>, j: nat, i: nat)
    requires j <= i <= |log|
    ensures ShardAfter(shard, log, j).epoch.confVer <= ShardAfter(shard, log, i).epoch.confVer
    ensures ShardAfter(shard, log, j).epoch.confVer == ShardAfter(shard, log, i).epoch.confVer
            <==> !ChangeBetween(shard, log, j, i)
  {
    if j == i {
    } else {
      var before := ShardAfter(shard, log, i - 1);
      ConfVerCountsChanges(shard, log, j, i - 1);
      OnlyChangesMoveConfVer(before, log[i - 1]);
      ChangeBetweenStep(shard, log, j, i);
      assert ShardAfter(shard, log, i) == Exec(before, log[i - 1]);
    }
  }

  /** A command stamped after `j` commands and applied as command `i` passes the check exactly when what its kind depends
      on has not changed in between: splits for writes, splits and transfers of leadership, configuration changes for
      single-step changes and transfers, nothing for the others. Without a header only the others pass. */
  lemma CommandPassesExactlyWhen(shard: Shard, log: seq<Command>, j: nat, i: nat, ignoring: bool)
    requires j <= i < |log|
    requires log[i].header == None || log[i].header == Some(Header(ShardAfter(shard, log, j).epoch, ignoring))
    ensures var stamped := log[i].header != None;
            var sameVersion := stamped && (ignoring || !SplitBetween(shard, log, j, i));
            var sameConf := stamped && !ChangeBetween(shard, log, j, i);
            Fresh(ShardAfter(shard, log, i).epoch, log[i]) <==>
              match log[i].body
              case Write(_) => sameVersion
              case BatchSplit(_) => sameVersion
              case ChangePeer(v2, _, _, _) => v2 || sameConf
              case TransferLeader => sameVersion && sameConf
              case CompactLog => true
  {
    VersionCountsSplits(shard, log, j, i);
    ConfVerCountsChanges(shard, log, j, i);
  }

  // ---- keys

  /** Command `c` splits `key` off the shard: the derived shard ends at the first split key. */
  predicate SplitsOff(shard: Shard, c: Command, key: Key) {
    Splits(shard, c) && AtMost(Boundary(shard, c.body.reqs, 1), key)
  }

  lemma ExecKeepsKey(shard: Shard, c: Command, key: Key)
    ensures Contains(Exec(shard, c), key) <==> Contains(shard, key) && !SplitsOff(shard, c, key)
  {
    if Splits(shard, c) {
      BoundariesIncrease(shard, c.body.reqs, 0, 1);
      if Contains(Child(shard, c.body.reqs, 0), key) { ChildWithinParent(shard, c.body.reqs, 0, key); }
    } else {
      OnlySplitsMoveTheVersion(shard, c);
    }
  }

  ghost predicate CutAway(shard: Shard, log: seq<Command>, j: nat, i: nat, key: Key)
    requires j <= i <= |log|
  {
    exists k :: j <= k < i && SplitsOff(ShardAfter(shard, log, k), log[k], key)
  }

  lemma CutAwayStep(shard: Shard, log: seq<Command>, j: nat, i: nat, key: Key)
    requires j < i <= |log|
    ensures CutAway(shard, log, j, i, key) <==>
              (CutAway(shard, log, j, i - 1, key) || SplitsOff(ShardAfter(shard, log, i - 1), log[i - 1], key))
  {
    if CutAway(shard, log, j, i, key) {
      var k :| j <= k < i && SplitsOff(ShardAfter(shard, log, k), log[k], key);
      assert k == i - 1 || k < i - 1;
    }
  }

  /** A key stays in the shard exactly until an effective split cuts it away. */
  lemma {:induction false} KeyStaysUnlessCutAway(shard: Shard, log: seq<Command>, j: nat, i: nat, key: Key)
    requires j <= i <= |log| && Contains(ShardAfter(shard, log, j), key)
    ensures Contains(ShardAfter(shard, log, i), key) <==> !CutAway(shard, log, j, i, key)
  {
    if j == i {
    } else {
      KeyStaysUnlessCutAway(shard, log, j, i - 1, key);
      ExecKeepsKey(ShardAfter(shard, log, i - 1), log[i - 1], key);
      CutAwayStep(shard, log, j, i, key);
    }
  }

  /** A write whose key was in the shard when it was stamped executes outside the shard exactly when it ignores
      the check and a split has cut its key away since. */
  lemma WriteMissesTheShardExactlyWhen(shard: Shard, log: seq<Command>, j: nat, i: nat, ignoring: bool, key: Key)
    requires j <= i < |log| && log[i].body.Write?
    requires log[i].header == Some(Header(ShardAfter(shard, log, j).epoch, ignoring))
    requires Contains(ShardAfter(shard, log, j), key)
    ensures Fresh(ShardAfter(shard, log, i).epoch, log[i]) && !Contains(ShardAfter(shard, log, i), key)
            <==> ignoring && CutAway(shard, log, j, i, key)
  {
    KeyStaysUnlessCutAway(shard, log, j, i, key);
    if !ignoring { WriteExecutesUnderItsVersion(shard, log, j, i, key); }
  }

  /** The shortest such run. */
  lemma IgnoredCheckMissesTheShard()
    ensures var s := EMPTY_SHARD.(peers := [Peer(1, 1)]);
            var split := SplitRequest(EncodeDataKey(0, [5]), 2, [3]);
            var log := [Command(Some(Header(s.epoch, false)), BatchSplit([split])),
                        Command(Some(Header(s.epoch, true)), Write([[7]]))];
            && Fresh(ShardAfter(s, log, 1).epoch, log[1])
            && Contains(s, [7]) && !Contains(ShardAfter(s, log, 1), [7])
  {
    var s := EMPTY_SHARD.(peers := [Peer(1, 1)]);
    var reqs := [SplitRequest(EncodeDataKey(0, [5]), 2, [3])];
    DataKeyRoundTrip(0, [5]);
    assert Boundary(s, reqs, 1) == [5] && Boundary(s, reqs, 0) == [];
    assert Splittable(s, reqs);
  }
}
