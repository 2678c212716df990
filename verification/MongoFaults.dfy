/** Two runs of a MongoDB store whose chains verify as continuous and whose
    restores are not what they should be: one lost entries between an increment's
    gap check and its read, the other the data of a backup to a stopped prune. */
module MongoFaults {
  import opened Schema
  import opened StableSort
  import opened Chain
  import opened ChainStore
  import opened Pitr
  import opened LateCapture
  import opened PrunePlan
  import opened PruneLaws
  import opened PruneExec
  import opened MongoRuns

  const E1: Entry := Entry(OplogTimestamp(1, 0), 1)
  const E2: Entry := Entry(OplogTimestamp(2, 0), 2)
  const E3: Entry := Entry(OplogTimestamp(3, 0), 3)

  const FULL: BackupManifest :=
    BackupManifest(0, Some(0), Full, None, MongoArchive, false, Some(OplogRange(E1.ts, E1.ts)), None, false, Complete)

  const FULL_TIP: BaseSelection := BaseSelection(0, 0, E1.ts)

  const SLICE: BackupManifest := IncrementManifest(1, Some(0), FULL_TIP, [E3], E3.ts)

  /** Entries 2 and 3 follow a full backup.  An increment checks for a gap and sees
      none, the server drops entry 2, and the increment reads entry 3. */
  function LateRun(): seq<State> {
    var s0 := State([], 0, None, [], map[], map[], {}, 0);
    var s1 := s0.(log := [E1]);
    var s2 := s1.(store := [FULL], nextId := 1);
    var s3 := s2.(log := [E1, E2, E3]);
    var s4 := s3.(pending := Some(FULL_TIP));
    var s5 := s4.(oldest := 2);
    var s6 := s5.(pending := None, store := [FULL, SLICE], data := map[1 := [E3]], since := map[1 := 2], nextId := 2);
    [s0, s1, s2, s3, s4, s5, s6]
  }

  lemma FullIsTip()
    ensures NewestTip([FULL], [FULL]) == Some(FULL) && SelectionOf(FULL) == FULL_TIP
  {
  }

  lemma LateSlice()
    ensures SliceEntries([E1, E2, E3][2..], E1.ts, E3.ts) == [E3]
  {
    assert [E1, E2, E3][2..] == [E3];
    assert [E3][1..] == [] && Captured([], E1.ts, E3.ts) == [];
    assert Captured([E3], E1.ts, E3.ts) == [E3];
  }

  lemma LateSteps(i: nat)
    requires i < 6
    ensures Next(LateRun()[i], LateRun()[i + 1])
  {
    var run := LateRun();
    FullIsTip();
    if i == 0 {
      assert ServerWrites(run[0], run[1], [E1]);
    } else if i == 1 {
      assert TakesFull(run[1], run[2], FULL);
    } else if i == 2 {
      assert ServerWrites(run[2], run[3], [E2, E3]);
    } else if i == 3 {
      assert StartsIncrement(run[3], run[4]);
    } else if i == 4 {
      assert ServerDrops(run[4], run[5], 2);
    } else {
      LateSlice();
      assert TakesIncrement(run[5], run[6], Some(0), E3.ts);
    }
  }

  lemma LateRunIsRun()
    ensures IsRun(LateRun())
  {
    var run := LateRun();
    forall i, j | 0 <= i < |run| && j == i + 1 < |run| ensures Next(run[i], run[j]) {
      LateSteps(i);
    }
  }

  lemma IncrementsOfPair(f: ChainNode, n: ChainNode)
    requires f.backupType == Full && n.backupType == Incremental && n.baseId == Some(f.id)
    ensures IncrementsOf([f, n], f.id) == [n] && SortNodes([n]) == [n]
  {
    assert [] + [f] == [f] && [f] + [n] == [f, n] && [] + [n] == [n] && [n][1..] == [];
    FilterAppend(Pointing(f.id), [], f);
    FilterAppend(Pointing(f.id), [f], n);
  }

  /** The plan for a full backup that one increment follows. */
  lemma PlanOfOne(s: State, f: BackupManifest, m: BackupManifest, target: int)
    requires s.store == [f, m] && f.backupType == Full && f.oplogRange.Some?
    requires m.backupType == Incremental && m.baseId == Some(f.id) && m.oplogCount != Some(0)
    requires m.oplogRange.Some? && m.oplogRange.value.end.t <= target
    ensures NodeOf(f) in NodesOf(s.store) && IncrementsOf(NodesOf(s.store), f.id) == [NodeOf(m)]
    ensures PlanFor(s, NodeOf(f), target).replayIds == [m.id]
  {
    assert NodesOf(s.store) == [NodeOf(f), NodeOf(m)] && NodesOf(s.store)[0] == NodeOf(f);
    IncrementsOfPair(NodeOf(f), NodeOf(m));
    assert [NodeOf(m)][1..] == [];
    assert EndMappingFrom(m.oplogRange.value.end, [], target).replayIds == [];
  }

  lemma LateWindow()
    ensures Window([E1, E2, E3][..2], E1.ts, E3.ts, 3) == [E2]
  {
    assert [E1, E2, E3][..2] == [E1, E2] && [E1, E2][1..] == [E2] && [E2][1..] == [];
    assert Window([E2], E1.ts, E3.ts, 3) == [E2] + [];
  }

  ghost predicate Verifies(s: State, f: ChainNode) {
    f in NodesOf(s.store) && CanCarry(f) && ChainReportOf(NodesOf(s.store), f.id).IsContinuous()
  }

  /** The restore finds all its data and does not give the server's history. */
  ghost predicate RestoresWrongly(s: State, f: ChainNode, target: int) {
    f.oplogRange.Some?
    && HasData(s.data, PlanFor(s, f, target).replayIds)
    && Replayed(s.data, PlanFor(s, f, target)) != HistoryFor(s, f, target)
  }

  ghost predicate HasMissed(s: State, m: BackupManifest, target: int) {
    Missed(s.log, s.since, NodeOf(m), target) != []
  }

  lemma MissedIsWrong(run: seq<State>, s: State, f: ChainNode, n: ChainNode, target: int)
    requires IsRun(run) && s == run[|run| - 1] && f in NodesOf(s.store) && CanCarry(f)
    requires n in IncrementsOf(NodesOf(s.store), f.id) && Missed(s.log, s.since, n, target) != []
    requires PlanFor(s, f, target).replayIds == [n.id] && n.id in s.data
    ensures RestoresWrongly(s, f, target)
  {
    assert n.id in [n.id];
    EveryRestoreIsExact(run, f, target);
  }

  lemma MissedMeansWrong(run: seq<State>, s: State, f: BackupManifest, m: BackupManifest, target: int)
    requires IsRun(run) && s == run[|run| - 1] && s.store == [f, m] && CanCarry(NodeOf(f))
    requires m.backupType == Incremental && m.baseId == Some(f.id) && m.oplogCount != Some(0)
    requires m.oplogRange.Some? && m.oplogRange.value.end.t <= target
    requires m.id in s.data && HasMissed(s, m, target)
    ensures Verifies(s, NodeOf(f)) && RestoresWrongly(s, NodeOf(f), target)
  {
    PlanOfOne(s, f, m, target);
    EveryChainVerifies(run, NodeOf(f), NodeOf(f));
    MissedIsWrong(run, s, NodeOf(f), NodeOf(m), target);
  }

  lemma LateSliceMissed()
    ensures HasMissed(LateRun()[6], SLICE, 3)
  {
    LateWindow();
  }

  /** Its chain verifies, its data is there, and its restore lacks an entry. */
  lemma LateDropLosesEntries()
    ensures IsRun(LateRun()) && |LateRun()| == 7
    ensures Verifies(LateRun()[6], NodeOf(FULL)) && RestoresWrongly(LateRun()[6], NodeOf(FULL), 3)
  {
    LateRunIsRun();
    LateSliceMissed();
    MissedMeansWrong(LateRun(), LateRun()[6], FULL, SLICE, 3);
  }

  // ----- a prune that stops after one deletion -----

  const NEXT_SLICE: BackupManifest := IncrementManifest(1, Some(0), FULL_TIP, [E2], E2.ts)

  const ONE_DAY: RetentionPolicy := RetentionPolicy(None, Some(1), None, None, None)

  const TEN_DAYS: int := 864_000

  /** A full backup and an increment; ten days later a prune deletes the data of the
      increment and stops. */
  function StoppedRun(): seq<State> {
    var s0 := State([], 0, None, [], map[], map[], {}, 0);
    var s1 := s0.(log := [E1]);
    var s2 := s1.(store := [FULL], nextId := 1);
    var s3 := s2.(log := [E1, E2]);
    var s4 := s3.(pending := Some(FULL_TIP));
    var s5 := s4.(pending := None, store := [FULL, NEXT_SLICE], data := map[1 := [E2]], since := map[1 := 0],
                  nextId := 2);
    var s6 := s5.(data := map[], lost := {1});
    [s0, s1, s2, s3, s4, s5, s6]
  }

  lemma StoppedSlice()
    ensures SliceEntries([E1, E2][0..], E1.ts, E2.ts) == [E2]
  {
    assert [E1, E2][0..] == [E1, E2] && [E1, E2][1..] == [E2] && [E2][1..] == [];
    assert Captured([], E1.ts, E2.ts) == [] && Captured([E2], E1.ts, E2.ts) == [E2];
  }

  lemma StoppedCapture()
    ensures TakesIncrement(StoppedRun()[4], StoppedRun()[5], Some(0), E2.ts)
  {
    StoppedSlice();
  }

  /** A store of a full backup and its one increment, of the same age. */
  ghost predicate IsPair(ms: seq<BackupManifest>, f: BackupManifest, n: BackupManifest) {
    && ms == [f, n] && IsChainBase(f) && f.id < n.id && f.createdAt.Some? && n.createdAt == f.createdAt
    && n.backupType == Incremental && n.baseId == Some(f.id) && n.status == Complete
  }

  lemma PairIncrements(ms: seq<BackupManifest>, f: BackupManifest, n: BackupManifest)
    requires IsPair(ms, f, n)
    ensures SortNodes(IncrementsOf(NodesOf(ms), f.id)) == [NodeOf(n)]
  {
    assert NodesOf(ms) == [NodeOf(f), NodeOf(n)];
    IncrementsOfPair(NodeOf(f), NodeOf(n));
  }

  lemma MembersOfPair(ms: seq<BackupManifest>, f: BackupManifest, n: BackupManifest)
    requires IsPair(ms, f, n)
    ensures GroupOf(ms, f).memberIds == [f.id] + [n.id]
  {
    PairIncrements(ms, f, n);
    assert ms[0] == f && ms[1] == n && DistinctManifests(ms);
    GroupMembers(ms, f);
    assert IdsOf([NodeOf(n)]) == [n.id];
  }

  lemma CreatedOfPair(ms: seq<BackupManifest>, f: BackupManifest, n: BackupManifest)
    requires IsPair(ms, f, n)
    ensures NewestCreated(ms, [f.id] + [n.id]) == f.createdAt
  {
    var ids := [f.id] + [n.id];
    assert ms[1..] == [n] && ids[1..] == [n.id] && [n.id][1..] == [];
    assert FindManifest(ms, f.id) == Some(f) && FindManifest(ms, n.id) == Some(n);
    assert NewestCreated(ms, [n.id]) == f.createdAt;
  }

  lemma SortOne(g: ChainGroup)
    ensures SortBy(Newer, [g]) == [g]
  {
    assert [g][1..] == [];
  }

  lemma GroupsOfBase(ms: seq<BackupManifest>, bases: seq<BackupManifest>, f: BackupManifest, n: BackupManifest)
    requires bases == [f, n] && IsChainBase(f) && !IsChainBase(n)
    ensures Groups(ms, bases) == [GroupOf(ms, f)]
  {
    var g := GroupOf(ms, f);
    assert bases[..1] == [f] && [f][..0] == [];
    assert Groups(ms, []) == [] && Groups(ms, [f]) == [g];
    assert [g] + [] == [g];
  }

  lemma DroppedOne(policy: RetentionPolicy, now: int, g: ChainGroup)
    requires !PrunePlan.Keeps(policy, now, g, 0, 0, false)
    ensures Dropped(policy, now, [g], 0, 0, false) == [g]
  {
    assert [g][1..] == [];
  }

  lemma {:induction false} NoIncomplete(ms: seq<BackupManifest>, members: set<Id>)
    requires forall m :: m in ms ==> m.status == Complete
    ensures IncompleteTargets(ms, members) == []
  {
    if ms != [] {
      FrontLast(ms);
      NoIncomplete(ms[..|ms| - 1], members);
    }
  }

  lemma DeletedPair(b: Id, i: Id)
    ensures DeleteIds([PruneTarget(ChainUnit, b, [b, i])], false) == [i, b]
  {
    var ts := [PruneTarget(ChainUnit, b, [b, i])];
    assert ts[..0] == [] && DeleteOrder([b, i]) == [i, b];
    assert DeleteIds(ts, false) == [] + [i, b];
  }

  lemma PlanOfGroup(ms: seq<BackupManifest>, g: ChainGroup, policy: RetentionPolicy, now: int)
    requires SortedGroups(ms) == [g] && !PrunePlan.Keeps(policy, now, g, 0, 0, false)
    requires forall m :: m in ms ==> m.status == Complete
    ensures PlanOf(ms, [], policy, now).targets == ChainTargets([g])
  {
    DroppedOne(policy, now, g);
    NoIncomplete(ms, MemberSet([g]));
    assert OrphanTargets([]) == [] && ChainTargets([g]) + [] + [] == ChainTargets([g]);
  }

  lemma TargetOfGroup(g: ChainGroup, b: Id, i: Id)
    requires g.baseId == b && g.memberIds == [b] + [i]
    ensures ChainTargets([g]) == [PruneTarget(ChainUnit, b, [b, i])]
  {
    assert [b] + [i] == [b, i];
  }

  lemma PlanOfPair(ms: seq<BackupManifest>, f: BackupManifest, n: BackupManifest, policy: RetentionPolicy, now: int)
    requires IsPair(ms, f, n) && !PrunePlan.Keeps(policy, now, GroupOf(ms, f), 0, 0, false)
    ensures PlanOf(ms, [], policy, now).targets == [PruneTarget(ChainUnit, f.id, [f.id, n.id])]
  {
    var g := GroupOf(ms, f);
    GroupsOfBase(ms, ms, f, n);
    SortOne(g);
    MembersOfPair(ms, f, n);
    PlanOfGroup(ms, g, policy, now);
    TargetOfGroup(g, f.id, n.id);
  }

  /** A prune that drops the pair deletes the increment first. */
  lemma RunOfPair(ms: seq<BackupManifest>, f: BackupManifest, n: BackupManifest, policy: RetentionPolicy, now: int)
    requires IsPair(ms, f, n) && !PrunePlan.Keeps(policy, now, GroupOf(ms, f), 0, 0, false)
    ensures RunIds(ms, [], policy, now, false) == [n.id, f.id]
  {
    PlanOfPair(ms, f, n, policy, now);
    DeletedPair(f.id, n.id);
  }

  lemma FirstDeletion(i: Id, b: Id)
    ensures DeletedAfter([i, b], 1) == {File(i, DataFile)} && Gone([i, b], 1) == {}
  {
    assert Call([i, b], 0) == File(i, DataFile);
  }

  lemma PairIsOld(ms: seq<BackupManifest>)
    requires ms == [FULL, NEXT_SLICE]
    ensures IsPair(ms, FULL, NEXT_SLICE) && !PrunePlan.Keeps(ONE_DAY, TEN_DAYS, GroupOf(ms, FULL), 0, 0, false)
  {
    MembersOfPair(ms, FULL, NEXT_SLICE);
    CreatedOfPair(ms, FULL, NEXT_SLICE);
  }

  lemma OneDataGone(s: State, i: Id, b: Id)
    requires i in s.data
    ensures DataGone(s, [i, b], 1) == {i}
  {
    FirstDeletion(i, b);
    assert i in s.data.Keys;
  }

  lemma StopsAfterOne(s: State, s': State, f: BackupManifest, n: BackupManifest, policy: RetentionPolicy, now: int)
    requires IsPair(s.store, f, n) && !PrunePlan.Keeps(policy, now, GroupOf(s.store, f), 0, 0, false)
    requires s.pending == None && n.id in s.data
    requires s' == s.(data := s.data - {n.id}, lost := s.lost + {n.id})
    ensures Prunes(s, s', [], policy, now, false, 1)
  {
    RunOfPair(s.store, f, n, policy, now);
    FirstDeletion(n.id, f.id);
    OneDataGone(s, n.id, f.id);
    FilterAll(ManifestSurvives({}), s.store);
  }

  lemma OldPairStops(s: State, s': State)
    requires s.store == [FULL, NEXT_SLICE] && s.pending == None && NEXT_SLICE.id in s.data
    requires s' == s.(data := s.data - {NEXT_SLICE.id}, lost := s.lost + {NEXT_SLICE.id})
    ensures Prunes(s, s', [], ONE_DAY, TEN_DAYS, false, 1)
  {
    PairIsOld(s.store);
    StopsAfterOne(s, s', FULL, NEXT_SLICE, ONE_DAY, TEN_DAYS);
  }

  lemma StoppedStates()
    ensures var s, s' := StoppedRun()[5], StoppedRun()[6];
            && s.store == [FULL, NEXT_SLICE] && s.pending == None && NEXT_SLICE.id in s.data
            && s' == s.(data := s.data - {NEXT_SLICE.id}, lost := s.lost + {NEXT_SLICE.id})
  {
    assert StoppedRun()[5].data - {1} == map[];
  }

  lemma PruneStops()
    ensures Prunes(StoppedRun()[5], StoppedRun()[6], [], ONE_DAY, TEN_DAYS, false, 1)
  {
    StoppedStates();
    OldPairStops(StoppedRun()[5], StoppedRun()[6]);
  }

  lemma StoppedSteps(i: nat)
    requires i < 6
    ensures Next(StoppedRun()[i], StoppedRun()[i + 1])
  {
    var run := StoppedRun();
    FullIsTip();
    if i == 0 {
      assert ServerWrites(run[0], run[1], [E1]);
    } else if i == 1 {
      assert TakesFull(run[1], run[2], FULL);
    } else if i == 2 {
      assert ServerWrites(run[2], run[3], [E2]);
    } else if i == 3 {
      assert StartsIncrement(run[3], run[4]);
    } else if i == 4 {
      StoppedCapture();
    } else {
      PruneStops();
    }
  }

  lemma StoppedRunIsRun()
    ensures IsRun(StoppedRun())
  {
    var run := StoppedRun();
    forall i, j | 0 <= i < |run| && j == i + 1 < |run| ensures Next(run[i], run[j]) {
      StoppedSteps(i);
    }
  }

  lemma LostMeansNoData(run: seq<State>, s: State, f: BackupManifest, m: BackupManifest, target: int)
    requires IsRun(run) && s == run[|run| - 1] && s.store == [f, m] && CanCarry(NodeOf(f))
    requires m.backupType == Incremental && m.baseId == Some(f.id) && m.oplogCount != Some(0)
    requires m.oplogRange.Some? && m.oplogRange.value.end.t <= target && m.id !in s.data
    ensures Verifies(s, NodeOf(f)) && !HasData(s.data, PlanFor(s, NodeOf(f), target).replayIds)
  {
    PlanOfOne(s, f, m, target);
    EveryChainVerifies(run, NodeOf(f), NodeOf(f));
  }

  /** Its chain verifies, and what a restore to its end needs is gone. */
  lemma StoppedPruneLosesTheEnd()
    ensures IsRun(StoppedRun()) && |StoppedRun()| == 7
    ensures var s, f := StoppedRun()[6], NodeOf(FULL);
            Verifies(s, f) && !HasData(s.data, PlanFor(s, f, 2).replayIds)
  {
    StoppedRunIsRun();
    LostMeansNoData(StoppedRun(), StoppedRun()[6], FULL, NEXT_SLICE, 2);
  }
}
