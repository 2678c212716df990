/** Retention: which chains a policy keeps and which it deletes.  A chain is a
    complete full backup with every increment that names it, and is kept or
    deleted as a whole. */
module PrunePlan {
  import opened Schema
  import opened StableSort
  import opened Chain

  datatype RetentionPolicy = RetentionPolicy(
    keepFull: Option<u32>,
    keepDays: Option<u32>,
    keepLast: Option<u32>,
    recoveryWindowDays: Option<u32>,
    minRedundancy: Option<u32>)
  {
    predicate IsUnspecified() {
      keepFull.None? && keepDays.None? && keepLast.None? && recoveryWindowDays.None? && minRedundancy.None?
    }
  }

  datatype PruneKind = ChainUnit | OrphanData | IncompleteBackup

  datatype PruneTarget = PruneTarget(kind: PruneKind, baseId: Id, memberIds: seq<Id>)

  datatype Plan = Plan(targets: seq<PruneTarget>, keptBaseIds: seq<Id>)

  datatype ChainGroup = ChainGroup(baseId: Id, memberIds: seq<Id>, baseCreated: i64, newestCreated: i64)

  // ----- grouping -----

  function FindManifest(ms: seq<BackupManifest>, id: Id): (r: Option<BackupManifest>)
    ensures r.Some? ==> r.value in ms && r.value.id == id
    ensures r.None? ==> forall m :: m in ms ==> m.id != id
  {
    if ms == [] then None
    else if ms[0].id == id then Some(ms[0])
    else FindManifest(ms[1..], id)
  }

  /** The latest creation time among the ids that have a manifest with a readable time. */
  function NewestCreated(ms: seq<BackupManifest>, ids: seq<Id>): (r: Option<i64>)
    ensures forall id :: id in ids && FindManifest(ms, id).Some? && FindManifest(ms, id).value.createdAt.Some?
                         ==> r.Some? && FindManifest(ms, id).value.createdAt.value <= r.value
  {
    if ids == [] then None
    else
      assert ids == [ids[0]] + ids[1..];
      var rest := NewestCreated(ms, ids[1..]);
      var m := FindManifest(ms, ids[0]);
      if m.None? || m.value.createdAt.None? then rest
      else if rest.Some? && m.value.createdAt.value <= rest.value then rest
      else m.value.createdAt
  }

  predicate IsChainBase(m: BackupManifest) {
    m.backupType == Full && m.status == Complete
  }

  function GroupOf(ms: seq<BackupManifest>, m: BackupManifest): ChainGroup {
    var members := [m.id] + VerifierReportOf(NodesOf(ms), m.id).incrementalIds;
    var baseCreated := if m.createdAt.Some? then m.createdAt.value else I64_MIN;
    var newest := NewestCreated(ms, members);
    ChainGroup(m.id, members, baseCreated, if newest.Some? then newest.value else baseCreated)
  }

  /** The groups of the bases among `bases`, in list order. */
  function Groups(ms: seq<BackupManifest>, bases: seq<BackupManifest>): seq<ChainGroup> {
    if bases == [] then []
    else
      Groups(ms, bases[..|bases| - 1])
      + (if IsChainBase(bases[|bases| - 1]) then [GroupOf(ms, bases[|bases| - 1])] else [])
  }

  predicate Newer(a: ChainGroup, b: ChainGroup) {
    a.baseCreated > b.baseCreated || (a.baseCreated == b.baseCreated && a.baseId < b.baseId)
  }

  function SortedGroups(ms: seq<BackupManifest>): seq<ChainGroup> {
    SortBy(Newer, Groups(ms, ms))
  }

  // ----- keeping -----

  function Cutoff(days: u32, now: int): int {
    now - days * 86_400
  }

  /** The program computes every cutoff in 64 bits; it must not overflow there. */
  predicate NoOverflow(policy: RetentionPolicy, now: int) {
    && (policy.keepDays.Some? ==> I64_MIN <= Cutoff(policy.keepDays.value, now))
    && (policy.recoveryWindowDays.Some? ==> I64_MIN <= Cutoff(policy.recoveryWindowDays.value, now))
  }

  /** Is the chain the first, newest first, whose base is no younger than the window? */
  predicate IsBoundary(policy: RetentionPolicy, now: int, c: ChainGroup, seen: bool) {
    policy.recoveryWindowDays.Some? && !seen && c.baseCreated <= Cutoff(policy.recoveryWindowDays.value, now)
  }

  /** `idx` chains holding `before` backups come first; `seen` says the boundary is among them. */
  predicate Keeps(policy: RetentionPolicy, now: int, c: ChainGroup, idx: nat, before: nat, seen: bool) {
    || policy.IsUnspecified()
    || (policy.keepFull.Some? && idx < policy.keepFull.value)
    || (policy.keepDays.Some? && c.newestCreated >= Cutoff(policy.keepDays.value, now))
    || (policy.keepLast.Some? && before < policy.keepLast.value)
    || (policy.recoveryWindowDays.Some? && c.newestCreated >= Cutoff(policy.recoveryWindowDays.value, now))
    || IsBoundary(policy, now, c, seen)
    || (policy.minRedundancy.Some? && idx < policy.minRedundancy.value)
  }

  function Kept(policy: RetentionPolicy, now: int, chains: seq<ChainGroup>, idx: nat, before: nat, seen: bool)
    : seq<ChainGroup>
  {
    if chains == [] then []
    else
      (if Keeps(policy, now, chains[0], idx, before, seen) then [chains[0]] else [])
      + Kept(policy, now, chains[1..], idx + 1, before + |chains[0].memberIds|,
             seen || IsBoundary(policy, now, chains[0], seen))
  }

  function Dropped(policy: RetentionPolicy, now: int, chains: seq<ChainGroup>, idx: nat, before: nat, seen: bool)
    : seq<ChainGroup>
  {
    if chains == [] then []
    else
      (if Keeps(policy, now, chains[0], idx, before, seen) then [] else [chains[0]])
      + Dropped(policy, now, chains[1..], idx + 1, before + |chains[0].memberIds|,
                seen || IsBoundary(policy, now, chains[0], seen))
  }

  function KeptGroups(ms: seq<BackupManifest>, policy: RetentionPolicy, now: int): seq<ChainGroup> {
    Kept(policy, now, SortedGroups(ms), 0, 0, false)
  }

  function DroppedGroups(ms: seq<BackupManifest>, policy: RetentionPolicy, now: int): seq<ChainGroup> {
    Dropped(policy, now, SortedGroups(ms), 0, 0, false)
  }

  function BaseIds(s: seq<ChainGroup>): (r: seq<Id>)
    ensures |r| == |s|
    ensures forall i :: 0 <= i < |s| ==> r[i] == s[i].baseId
  {
    seq(|s|, i requires 0 <= i < |s| => s[i].baseId)
  }

  function ChainTargets(s: seq<ChainGroup>): (r: seq<PruneTarget>)
    ensures |r| == |s|
    ensures forall i :: 0 <= i < |s| ==> r[i] == PruneTarget(ChainUnit, s[i].baseId, s[i].memberIds)
  {
    seq(|s|, i requires 0 <= i < |s| => PruneTarget(ChainUnit, s[i].baseId, s[i].memberIds))
  }

  function MemberSet(s: seq<ChainGroup>): (r: set<Id>)
    ensures forall id :: id in r <==> exists i :: 0 <= i < |s| && id in s[i].memberIds
  {
    set i, id | 0 <= i < |s| && id in s[i].memberIds :: id
  }

  function IncompleteTargets(ms: seq<BackupManifest>, members: set<Id>): seq<PruneTarget> {
    if ms == [] then []
    else
      var m := ms[|ms| - 1];
      IncompleteTargets(ms[..|ms| - 1], members)
      + (if m.status == Incomplete && m.id !in members then [PruneTarget(IncompleteBackup, m.id, [m.id])] else [])
  }

  function OrphanTargets(ids: seq<Id>): (r: seq<PruneTarget>)
    ensures |r| == |ids|
    ensures forall i :: 0 <= i < |ids| ==> r[i] == PruneTarget(OrphanData, ids[i], [ids[i]])
  {
    seq(|ids|, i requires 0 <= i < |ids| => PruneTarget(OrphanData, ids[i], [ids[i]]))
  }

  function PlanOf(ms: seq<BackupManifest>, orphans: seq<Id>, policy: RetentionPolicy, now: int): Plan {
    Plan(
      ChainTargets(DroppedGroups(ms, policy, now))
      + IncompleteTargets(ms, MemberSet(SortedGroups(ms)))
      + OrphanTargets(orphans),
      BaseIds(KeptGroups(ms, policy, now)))
  }

  // ----- the planner -----

  method CollectGroups(ms: seq<BackupManifest>) returns (chains: seq<ChainGroup>)
    ensures chains == Groups(ms, ms)
  {
    chains := [];
    var verifier := new ChainVerifier(NodesOf(ms));
    for k := 0 to |ms|
      invariant fresh(verifier) && verifier.Valid() && verifier.nodes == NodesOf(ms)
      invariant chains == Groups(ms, ms[..k])
    {
      assert ms[..k + 1][..k] == ms[..k];
      var m := ms[k];
      if m.backupType != Full || m.status == Incomplete {
        continue;
      }
      var report := verifier.Verify(m.id);
      var members := [m.id] + report.incrementalIds;
      var baseCreated: i64 := if m.createdAt.Some? then m.createdAt.value else I64_MIN;
      var newest := NewestCreated(ms, members);
      chains := chains
      + [ChainGroup(m.id, members, baseCreated, if newest.Some? then newest.value else baseCreated)];
    }
    assert ms[..|ms|] == ms;
  }

  /** The position of the first chain whose base is no younger than the cutoff. */
  method BoundaryIndex(chains: seq<ChainGroup>, cut: int) returns (idx: Option<nat>)
    ensures idx.None? ==> forall i :: 0 <= i < |chains| ==> chains[i].baseCreated > cut
    ensures idx.Some? ==> idx.value < |chains| && chains[idx.value].baseCreated <= cut
                          && forall i :: 0 <= i < idx.value ==> chains[i].baseCreated > cut
  {
    for i := 0 to |chains|
      invariant forall j :: 0 <= j < i ==> chains[j].baseCreated > cut
    {
      if chains[i].baseCreated <= cut {
        return Some(i);
      }
    }
    return None;
  }

  /** `kept` and `dropped` are what the first `idx` chains, of `before` members, add. */
  ghost predicate IsSplit(
      policy: RetentionPolicy, now: int, chains: seq<ChainGroup>, idx: nat, before: nat, seen: bool,
      kept: seq<ChainGroup>, dropped: seq<ChainGroup>)
    requires idx <= |chains|
  {
    && Kept(policy, now, chains, 0, 0, false) == kept + Kept(policy, now, chains[idx..], idx, before, seen)
    && Dropped(policy, now, chains, 0, 0, false) == dropped + Dropped(policy, now, chains[idx..], idx, before, seen)
  }

  lemma SplitStep(
      policy: RetentionPolicy, now: int, chains: seq<ChainGroup>, idx: nat, before: nat, seen: bool,
      kept: seq<ChainGroup>, dropped: seq<ChainGroup>)
    requires idx < |chains| && IsSplit(policy, now, chains, idx, before, seen, kept, dropped)
    ensures var c := chains[idx];
            var keeps := Keeps(policy, now, c, idx, before, seen);
            IsSplit(policy, now, chains, idx + 1, before + |c.memberIds|, seen || IsBoundary(policy, now, c, seen),
                    if keeps then kept + [c] else kept, if keeps then dropped else dropped + [c])
  {
    var c, rest := chains[idx], chains[idx + 1..];
    var seen1, before1 := seen || IsBoundary(policy, now, c, seen), before + |c.memberIds|;
    assert chains[idx..][1..] == rest;
    Assoc(kept, [c], Kept(policy, now, rest, idx + 1, before1, seen1));
    Assoc(dropped, [c], Dropped(policy, now, rest, idx + 1, before1, seen1));
    assert [] + Kept(policy, now, rest, idx + 1, before1, seen1) == Kept(policy, now, rest, idx + 1, before1, seen1);
    assert [] + Dropped(policy, now, rest, idx + 1, before1, seen1)
           == Dropped(policy, now, rest, idx + 1, before1, seen1);
  }

  lemma BaseIdsAppend(s: seq<ChainGroup>, c: ChainGroup)
    ensures BaseIds(s + [c]) == BaseIds(s) + [c.baseId]
  {
  }

  lemma ChainTargetsAppend(s: seq<ChainGroup>, c: ChainGroup)
    ensures ChainTargets(s + [c]) == ChainTargets(s) + [PruneTarget(ChainUnit, c.baseId, c.memberIds)]
  {
  }

  /** Splits the sorted chains, counting members as it goes. */
  method SplitChains(chains: seq<ChainGroup>, policy: RetentionPolicy, now: int)
    returns (targets: seq<PruneTarget>, keptBaseIds: seq<Id>)
    ensures targets == ChainTargets(Dropped(policy, now, chains, 0, 0, false))
    ensures keptBaseIds == BaseIds(Kept(policy, now, chains, 0, 0, false))
  {
    targets, keptBaseIds := [], [];
    var boundary: Option<nat> := None;
    if policy.recoveryWindowDays.Some? {
      boundary := BoundaryIndex(chains, Cutoff(policy.recoveryWindowDays.value, now));
    }
    var membersBefore: nat := 0;
    ghost var dropped: seq<ChainGroup>, kept: seq<ChainGroup> := [], [];
    for idx := 0 to |chains|
      invariant targets == ChainTargets(dropped) && keptBaseIds == BaseIds(kept)
      invariant IsSplit(policy, now, chains, idx, membersBefore, boundary.Some? && boundary.value < idx, kept, dropped)
    {
      var chain := chains[idx];
      ghost var seen := boundary.Some? && boundary.value < idx;
      assert IsBoundary(policy, now, chain, seen) <==> boundary == Some(idx);
      SplitStep(policy, now, chains, idx, membersBefore, seen, kept, dropped);
      var keptByFull := policy.keepFull.Some? && idx < policy.keepFull.value;
      var keptByDays := policy.keepDays.Some? && chain.newestCreated >= Cutoff(policy.keepDays.value, now);
      var keptByLast := policy.keepLast.Some? && membersBefore < policy.keepLast.value;
      membersBefore := membersBefore + |chain.memberIds|;
      var keptByWindow := (policy.recoveryWindowDays.Some?
                           && chain.newestCreated >= Cutoff(policy.recoveryWindowDays.value, now))
                          || boundary == Some(idx);
      var keptByRedundancy := policy.minRedundancy.Some? && idx < policy.minRedundancy.value;
      if policy.IsUnspecified()
         || keptByFull || keptByDays || keptByLast || keptByWindow || keptByRedundancy {
        keptBaseIds := keptBaseIds + [chain.baseId];
        BaseIdsAppend(kept, chain);
        kept := kept + [chain];
      } else {
        targets := targets + [PruneTarget(ChainUnit, chain.baseId, chain.memberIds)];
        ChainTargetsAppend(dropped, chain);
        dropped := dropped + [chain];
      }
    }
    assert chains[|chains|..] == [];
    assert dropped == Dropped(policy, now, chains, 0, 0, false);
    assert kept == Kept(policy, now, chains, 0, 0, false);
  }

  /** Incomplete backups that no chain has absorbed. */
  method AddIncomplete(ms: seq<BackupManifest>, members: set<Id>, before: seq<PruneTarget>)
    returns (targets: seq<PruneTarget>)
    ensures targets == before + IncompleteTargets(ms, members)
  {
    targets := before;
    for k := 0 to |ms|
      invariant targets == before + IncompleteTargets(ms[..k], members)
    {
      assert ms[..k + 1][..k] == ms[..k];
      if ms[k].status != Incomplete || ms[k].id in members {
        continue;
      }
      targets := targets + [PruneTarget(IncompleteBackup, ms[k].id, [ms[k].id])];
    }
    assert ms[..|ms|] == ms;
  }

  method AddOrphans(orphans: seq<Id>, before: seq<PruneTarget>) returns (targets: seq<PruneTarget>)
    ensures targets == before + OrphanTargets(orphans)
  {
    targets := before;
    for k := 0 to |orphans|
      invariant targets == before + OrphanTargets(orphans[..k])
    {
      targets := targets + [PruneTarget(OrphanData, orphans[k], [orphans[k]])];
    }
    assert orphans[..|orphans|] == orphans;
  }

  method PlanPrune(ms: seq<BackupManifest>, orphans: seq<Id>, policy: RetentionPolicy, now: int)
    returns (plan: Plan)
    requires NoOverflow(policy, now)
    ensures plan == PlanOf(ms, orphans, policy, now)
  {
    var groups := CollectGroups(ms);
    var chains := SortBy(Newer, groups);
    var targets, keptBaseIds := SplitChains(chains, policy, now);
    targets := AddIncomplete(ms, MemberSet(chains), targets);
    targets := AddOrphans(orphans, targets);
    plan := Plan(targets, keptBaseIds);
  }
}
