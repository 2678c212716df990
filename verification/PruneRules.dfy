/** What each retention rule keeps, in terms of the position of a chain among the
    chains, newest first, of the backups before it and of creation times. */
module PruneRules {
  import opened Schema
  import opened StableSort
  import opened Chain
  import opened PrunePlan
  import opened PruneLaws

  const SECONDS_PER_DAY := 86_400

  // ----- the rules by position -----

  /** Created at or after the instant `days` before now. */
  predicate IsWithin(created: int, days: u32, now: int) {
    created >= now - days * SECONDS_PER_DAY
  }

  /** The first chain whose base is not within the window: it covers its beginning. */
  ghost predicate CoversBeginning(chains: seq<ChainGroup>, i: nat, days: u32, now: int)
    requires i < |chains|
  {
    && chains[i].baseCreated <= now - days * SECONDS_PER_DAY
    && forall j :: 0 <= j < i ==> chains[j].baseCreated > now - days * SECONDS_PER_DAY
  }

  /** At least one rule asks for chain `i`, or no rule was given. */
  ghost predicate IsWanted(policy: RetentionPolicy, now: int, chains: seq<ChainGroup>, i: nat)
    requires i < |chains|
  {
    || policy == RetentionPolicy(None, None, None, None, None)
    || (policy.keepFull.Some? && i < policy.keepFull.value)
    || (policy.keepDays.Some? && IsWithin(chains[i].newestCreated, policy.keepDays.value, now))
    || (policy.keepLast.Some? && Total(chains[..i]) < policy.keepLast.value)
    || (policy.recoveryWindowDays.Some?
        && (IsWithin(chains[i].newestCreated, policy.recoveryWindowDays.value, now)
            || CoversBeginning(chains, i, policy.recoveryWindowDays.value, now)))
    || (policy.minRedundancy.Some? && i < policy.minRedundancy.value)
  }

  /** The chains among the first `n` that are wanted, or those that are not. */
  ghost function Picked(policy: RetentionPolicy, now: int, chains: seq<ChainGroup>, n: nat, wanted: bool): seq<ChainGroup>
    requires n <= |chains|
  {
    if n == 0 then []
    else
      Picked(policy, now, chains, n - 1, wanted)
      + (if IsWanted(policy, now, chains, n - 1) == wanted then [chains[n - 1]] else [])
  }

  /** Whether one of the first `n` chains covers the beginning of the window. */
  ghost predicate SeenBefore(policy: RetentionPolicy, now: int, chains: seq<ChainGroup>, n: nat)
    requires n <= |chains|
  {
    policy.recoveryWindowDays.Some?
    && exists j :: 0 <= j < n && chains[j].baseCreated <= now - policy.recoveryWindowDays.value * SECONDS_PER_DAY
  }

  lemma TotalOneMore(chains: seq<ChainGroup>, i: nat)
    requires i < |chains|
    ensures Total(chains[..i + 1]) == Total(chains[..i]) + |chains[i].memberIds|
  {
    assert chains[..i + 1] == chains[..i] + [chains[i]];
    TotalAppend(chains[..i], chains[i]);
  }

  lemma {:induction false} TotalAppend(chains: seq<ChainGroup>, c: ChainGroup)
    ensures Total(chains + [c]) == Total(chains) + |c.memberIds|
    decreases chains
  {
    if chains == [] {
      assert chains + [c] == [c] && [c][1..] == [];
    } else {
      assert (chains + [c])[1..] == chains[1..] + [c];
      TotalAppend(chains[1..], c);
    }
  }

  lemma WantedIsKept(policy: RetentionPolicy, now: int, chains: seq<ChainGroup>, i: nat)
    requires i < |chains|
    ensures var seen := SeenBefore(policy, now, chains, i);
            && Keeps(policy, now, chains[i], i, Total(chains[..i]), seen) == IsWanted(policy, now, chains, i)
            && (seen || IsBoundary(policy, now, chains[i], seen)) == SeenBefore(policy, now, chains, i + 1)
  {
  }

  lemma PickedStep(policy: RetentionPolicy, now: int, chains: seq<ChainGroup>, n: nat, wanted: bool)
    requires n < |chains|
    ensures var before := Picked(policy, now, chains, n, wanted);
            Picked(policy, now, chains, n + 1, wanted)
            == if IsWanted(policy, now, chains, n) == wanted then before + [chains[n]] else before
  {
  }

  lemma {:induction false} SplitByRules(policy: RetentionPolicy, now: int, chains: seq<ChainGroup>, n: nat)
    requires n <= |chains|
    ensures IsSplitAt(policy, now, chains, n)
  {
    if n == 0 {
      assert chains[0..] == chains;
    } else {
      SplitByRules(policy, now, chains, n - 1);
      SplitOneMore(policy, now, chains, n - 1);
    }
  }

  ghost predicate IsSplitAt(policy: RetentionPolicy, now: int, chains: seq<ChainGroup>, n: nat)
    requires n <= |chains|
  {
    IsSplit(policy, now, chains, n, Total(chains[..n]), SeenBefore(policy, now, chains, n),
            Picked(policy, now, chains, n, true), Picked(policy, now, chains, n, false))
  }

  lemma SplitNext(
      policy: RetentionPolicy, now: int, chains: seq<ChainGroup>, k: nat, before: nat, seen: bool,
      kept: seq<ChainGroup>, dropped: seq<ChainGroup>, wanted: bool, seen': bool)
    requires k < |chains| && IsSplit(policy, now, chains, k, before, seen, kept, dropped)
    requires Keeps(policy, now, chains[k], k, before, seen) == wanted
    requires (seen || IsBoundary(policy, now, chains[k], seen)) == seen'
    ensures IsSplit(policy, now, chains, k + 1, before + |chains[k].memberIds|, seen',
                    if wanted then kept + [chains[k]] else kept, if wanted then dropped else dropped + [chains[k]])
  {
    SplitStep(policy, now, chains, k, before, seen, kept, dropped);
  }

  lemma SplitOneMore(policy: RetentionPolicy, now: int, chains: seq<ChainGroup>, k: nat)
    requires k < |chains| && IsSplitAt(policy, now, chains, k)
    ensures IsSplitAt(policy, now, chains, k + 1)
  {
    WantedIsKept(policy, now, chains, k);
    SplitNext(policy, now, chains, k, Total(chains[..k]), SeenBefore(policy, now, chains, k),
              Picked(policy, now, chains, k, true), Picked(policy, now, chains, k, false),
              IsWanted(policy, now, chains, k), SeenBefore(policy, now, chains, k + 1));
    TotalOneMore(chains, k);
    PickedStep(policy, now, chains, k, true);
    PickedStep(policy, now, chains, k, false);
  }

  /** The split keeps the chains that a rule asks for, in order, and drops the others. */
  lemma SplitIsByRules(policy: RetentionPolicy, now: int, chains: seq<ChainGroup>)
    ensures Kept(policy, now, chains, 0, 0, false) == Picked(policy, now, chains, |chains|, true)
    ensures Dropped(policy, now, chains, 0, 0, false) == Picked(policy, now, chains, |chains|, false)
  {
    SplitByRules(policy, now, chains, |chains|);
    assert chains[|chains|..] == [];
  }

  // ----- one rule at a time -----

  function OnlyKeepFull(n: u32): RetentionPolicy {
    RetentionPolicy(Some(n), None, None, None, None)
  }

  function OnlyKeepDays(days: u32): RetentionPolicy {
    RetentionPolicy(None, Some(days), None, None, None)
  }

  /** Every chain before position `k` is wanted, and none from there on. */
  lemma {:induction false} PickedPrefix(policy: RetentionPolicy, now: int, chains: seq<ChainGroup>, n: nat, k: nat)
    requires n <= |chains| && k <= |chains| && forall i :: 0 <= i < |chains| ==> (IsWanted(policy, now, chains, i) <==> i < k)
    ensures Picked(policy, now, chains, n, true) == chains[..if n <= k then n else k]
  {
    if n > 0 {
      PickedPrefix(policy, now, chains, n - 1, k);
      if n <= k {
        assert chains[..n] == chains[..n - 1] + [chains[n - 1]];
      }
    }
  }

  /** keep-full keeps the newest `n` chains, or all of them; alone, nothing else. */
  lemma KeepFullKeepsNewest(policy: RetentionPolicy, now: int, chains: seq<ChainGroup>, i: nat)
    requires policy.keepFull.Some? && i < |chains|
    ensures i < policy.keepFull.value ==> chains[i] in Kept(policy, now, chains, 0, 0, false)
    ensures policy == OnlyKeepFull(policy.keepFull.value) ==>
              Kept(policy, now, chains, 0, 0, false)
              == chains[..if policy.keepFull.value <= |chains| then policy.keepFull.value else |chains|]
  {
    SplitIsByRules(policy, now, chains);
    PickedMembers(policy, now, chains, |chains|, true);
    if policy == OnlyKeepFull(policy.keepFull.value) {
      var k := if policy.keepFull.value <= |chains| then policy.keepFull.value else |chains|;
      PickedPrefix(policy, now, chains, |chains|, k);
    }
  }

  lemma {:induction false} PickedMembers(policy: RetentionPolicy, now: int, chains: seq<ChainGroup>, n: nat, wanted: bool)
    requires n <= |chains|
    ensures forall i :: 0 <= i < n && IsWanted(policy, now, chains, i) == wanted ==>
              chains[i] in Picked(policy, now, chains, n, wanted)
    ensures forall c :: c in Picked(policy, now, chains, n, wanted) ==>
              exists i :: 0 <= i < n && chains[i] == c && IsWanted(policy, now, chains, i) == wanted
  {
    if n > 0 {
      PickedMembers(policy, now, chains, n - 1, wanted);
    }
  }

  // ----- rules for a plan -----

  /** A member of the chain was created within the last `days` days.  A chain of which
      no creation time can be read counts as created at the beginning of time. */
  ghost predicate HasMemberWithin(ms: seq<BackupManifest>, c: ChainGroup, days: u32, now: int) {
    || (exists id :: id in c.memberIds && WasCreatedWithin(ms, id, days, now))
    || ((forall id :: id in c.memberIds ==> !HasTime(ms, id)) && IsWithin(I64_MIN, days, now))
  }

  predicate HasTime(ms: seq<BackupManifest>, id: Id) {
    var m := FindManifest(ms, id);
    m.Some? && m.value.createdAt.Some?
  }

  predicate WasCreatedWithin(ms: seq<BackupManifest>, id: Id, days: u32, now: int) {
    HasTime(ms, id) && IsWithin(FindManifest(ms, id).value.createdAt.value, days, now)
  }

  lemma {:induction false} NewestIsOfAMember(ms: seq<BackupManifest>, ids: seq<Id>)
    ensures NewestCreated(ms, ids).Some? ==>
              exists id :: id in ids && HasTime(ms, id)
                           && FindManifest(ms, id).value.createdAt == NewestCreated(ms, ids)
    ensures NewestCreated(ms, ids).None? <==> forall id :: id in ids ==> !HasTime(ms, id)
  {
    if ids != [] {
      HeadTail(ids);
      NewestIsOfAMember(ms, ids[1..]);
    }
  }

  /** The newest time of a chain is within the days exactly when that of a member is. */
  lemma NewestWithin(ms: seq<BackupManifest>, c: ChainGroup, days: u32, now: int)
    requires var newest := NewestCreated(ms, c.memberIds);
             c.newestCreated == if newest.Some? then newest.value else I64_MIN
    ensures IsWithin(c.newestCreated, days, now) <==> HasMemberWithin(ms, c, days, now)
  {
    var newest := NewestCreated(ms, c.memberIds);
    NewestIsOfAMember(ms, c.memberIds);
    if newest.Some? {
      var id :| id in c.memberIds && HasTime(ms, id) && FindManifest(ms, id).value.createdAt == newest;
      if IsWithin(newest.value, days, now) {
        assert WasCreatedWithin(ms, id, days, now);
      }
    }
  }

  /** The base is a member, so a chain without times has a base without time. */
  lemma NewestOfChain(ms: seq<BackupManifest>, m: BackupManifest)
    requires DistinctManifests(ms) && m in ms && IsChainBase(m)
    ensures var c := GroupOf(ms, m);
            var newest := NewestCreated(ms, c.memberIds);
            c.newestCreated == if newest.Some? then newest.value else I64_MIN
  {
    FindInDistinct(ms, m);
    assert GroupOf(ms, m).memberIds[0] == m.id && m.id in GroupOf(ms, m).memberIds;
  }

  /** keep-days keeps the chains with a member created within the days; alone, nothing else. */
  lemma KeepDaysKeepsRecent(ms: seq<BackupManifest>, policy: RetentionPolicy, now: int, c: ChainGroup)
    requires DistinctManifests(ms) && policy.keepDays.Some? && c in SortedGroups(ms)
    ensures HasMemberWithin(ms, c, policy.keepDays.value, now) ==> c in KeptGroups(ms, policy, now)
    ensures policy == OnlyKeepDays(policy.keepDays.value) ==>
              (c in KeptGroups(ms, policy, now) <==> HasMemberWithin(ms, c, policy.keepDays.value, now))
  {
    var chains := SortedGroups(ms);
    SortedGroupsAre(ms);
    var m :| m in ms && IsChainBase(m) && c == GroupOf(ms, m);
    NewestOfChain(ms, m);
    NewestWithin(ms, c, policy.keepDays.value, now);
    SplitIsByRules(policy, now, chains);
    PickedMembers(policy, now, chains, |chains|, true);
    var i :| 0 <= i < |chains| && chains[i] == c;
    if policy == OnlyKeepDays(policy.keepDays.value) && c in KeptGroups(ms, policy, now) {
      var j :| 0 <= j < |chains| && chains[j] == c && IsWanted(policy, now, chains, j);
    }
  }

  /** There is a chain for each complete full backup, and for nothing else; it holds
      the backup and the increments that name it. */
  lemma ChainsAre(ms: seq<BackupManifest>, b: Id)
    requires DistinctManifests(ms)
    ensures (exists c :: c in SortedGroups(ms) && c.baseId == b) <==>
            (exists m :: m in ms && m.id == b && m.backupType == Full && m.status == Complete)
    ensures forall c, id :: c in SortedGroups(ms) && c.baseId == b ==>
              (id in c.memberIds <==>
                 id == b || exists m :: m in ms && m.id == id && m.backupType == Incremental && m.baseId == Some(b))
  {
    SortedGroupsAre(ms);
    if m :| m in ms && m.id == b && m.backupType == Full && m.status == Complete {
      assert GroupOf(ms, m) in SortedGroups(ms) && GroupOf(ms, m).baseId == b;
    }
    forall c, id | c in SortedGroups(ms) && c.baseId == b
      ensures id in c.memberIds <==>
              id == b || exists m :: m in ms && m.id == id && m.backupType == Incremental && m.baseId == Some(b)
    {
      var m :| m in ms && IsChainBase(m) && c == GroupOf(ms, m);
      GroupHoldsItsChain(ms, m);
      assert id in c.memberIds <==> BelongsTo(ms, id, b);
    }
  }

  /** The chains come newest base first; of bases of the same time, smaller ids first. */
  lemma NewestFirst(ms: seq<BackupManifest>, i: nat, j: nat)
    requires i < j < |SortedGroups(ms)|
    ensures var a, b := SortedGroups(ms)[i], SortedGroups(ms)[j];
            a.baseCreated > b.baseCreated || (a.baseCreated == b.baseCreated && a.baseId <= b.baseId)
  {
    NewerIsComparison();
    SortOrdered(Newer, Groups(ms, ms));
  }

  /** A chain has the times of its base and of its newest member. */
  lemma TimesOfChain(ms: seq<BackupManifest>, m: BackupManifest)
    requires DistinctManifests(ms) && m in ms && IsChainBase(m)
    ensures var c := GroupOf(ms, m);
            && c.baseId == m.id && c.baseCreated == (if m.createdAt.Some? then m.createdAt.value else I64_MIN)
            && (forall id :: id in c.memberIds && HasTime(ms, id) ==>
                  FindManifest(ms, id).value.createdAt.value <= c.newestCreated)
            && (if exists id :: id in c.memberIds && HasTime(ms, id)
                then exists id :: id in c.memberIds && HasTime(ms, id)
                                  && FindManifest(ms, id).value.createdAt == Some(c.newestCreated)
                else c.newestCreated == I64_MIN)
  {
    var ids := GroupOf(ms, m).memberIds;
    NewestIsOfAMember(ms, ids);
    FindInDistinct(ms, m);
    assert ids[0] == m.id && m.id in ids;
  }

  lemma {:induction false} SamePlace(ms: seq<BackupManifest>, i: nat, j: nat)
    requires DistinctManifests(ms) && i < |SortedGroups(ms)| && j < |SortedGroups(ms)|
    requires SortedGroups(ms)[i] == SortedGroups(ms)[j]
    ensures i == j
  {
    var s := SortedGroups(ms);
    EachGroupOnce(ms, ms);
    assert multiset(s) == multiset(Groups(ms, ms));
    if i < j {
      TwiceInMultiset(s, i, j);
    } else if j < i {
      TwiceInMultiset(s, j, i);
    }
  }

  lemma GroupByBase(ms: seq<BackupManifest>, g: ChainGroup, h: ChainGroup)
    requires DistinctManifests(ms) && g in SortedGroups(ms) && h in SortedGroups(ms) && g.baseId == h.baseId
    ensures g == h
  {
    SortedGroupsAre(ms);
    assert g.memberIds[0] == g.baseId && h.memberIds[0] == h.baseId;
    ChainsAreDisjoint(ms, g, h, g.baseId);
  }

  /** A plan deletes a chain exactly when no rule asks for it, and keeps it otherwise. */
  lemma DeletedMeansUnwanted(ms: seq<BackupManifest>, orphans: seq<Id>, policy: RetentionPolicy, now: int, i: nat)
    requires DistinctManifests(ms) && i < |SortedGroups(ms)|
    ensures var c, plan := SortedGroups(ms)[i], PlanOf(ms, orphans, policy, now);
            && (PruneTarget(ChainUnit, c.baseId, c.memberIds) in plan.targets
                <==> !IsWanted(policy, now, SortedGroups(ms), i))
            && (c.baseId in plan.keptBaseIds <==> IsWanted(policy, now, SortedGroups(ms), i))
  {
    var chains := SortedGroups(ms);
    var c := chains[i];
    SplitIsByRules(policy, now, chains);
    PickedMembers(policy, now, chains, |chains|, true);
    PickedMembers(policy, now, chains, |chains|, false);
    forall j | 0 <= j < |chains| && chains[j] == c ensures j == i {
      SamePlace(ms, i, j);
    }
    UnwantedIsTarget(ms, orphans, policy, now, c);
    WantedIsKeptBase(ms, policy, now, c);
  }

  lemma UnwantedIsTarget(ms: seq<BackupManifest>, orphans: seq<Id>, policy: RetentionPolicy, now: int, c: ChainGroup)
    requires DistinctManifests(ms) && c in SortedGroups(ms)
    ensures PruneTarget(ChainUnit, c.baseId, c.memberIds) in PlanOf(ms, orphans, policy, now).targets
            <==> c in DroppedGroups(ms, policy, now)
  {
    var dropped, t := DroppedGroups(ms, policy, now), PruneTarget(ChainUnit, c.baseId, c.memberIds);
    var a, b := ChainTargets(dropped), IncompleteTargets(ms, MemberSet(SortedGroups(ms)));
    IncompleteKind(ms, MemberSet(SortedGroups(ms)));
    KeptOrDropped(ms, policy, now);
    assert t in PlanOf(ms, orphans, policy, now).targets <==> t in a;
    if t in a {
      var k :| 0 <= k < |a| && a[k] == t;
      assert dropped[k] in dropped;
      GroupByBase(ms, dropped[k], c);
    }
    if c in dropped {
      var k :| 0 <= k < |dropped| && dropped[k] == c;
      assert a[k] == t;
    }
  }

  lemma WantedIsKeptBase(ms: seq<BackupManifest>, policy: RetentionPolicy, now: int, c: ChainGroup)
    requires DistinctManifests(ms) && c in SortedGroups(ms)
    ensures c.baseId in BaseIds(KeptGroups(ms, policy, now)) <==> c in KeptGroups(ms, policy, now)
  {
    var kept := KeptGroups(ms, policy, now);
    KeptOrDropped(ms, policy, now);
    if c in kept {
      var k :| 0 <= k < |kept| && kept[k] == c;
      assert BaseIds(kept)[k] == c.baseId;
    }
    if c.baseId in BaseIds(kept) {
      var k :| 0 <= k < |kept| && BaseIds(kept)[k] == c.baseId;
      assert kept[k] in kept;
      GroupByBase(ms, kept[k], c);
    }
  }

  lemma {:induction false} IncompleteAre(ms: seq<BackupManifest>, members: set<Id>, id: Id)
    ensures PruneTarget(IncompleteBackup, id, [id]) in IncompleteTargets(ms, members)
            <==> exists m :: m in ms && m.id == id && m.status == Incomplete && id !in members
  {
    if ms != [] {
      FrontLast(ms);
      IncompleteAre(ms[..|ms| - 1], members, id);
    }
  }

  /** Besides chains a plan names the incomplete backups that are in no chain, and
      every id that has data and no manifest. */
  lemma OtherTargets(ms: seq<BackupManifest>, orphans: seq<Id>, policy: RetentionPolicy, now: int, id: Id)
    ensures var targets := PlanOf(ms, orphans, policy, now).targets;
            && (PruneTarget(IncompleteBackup, id, [id]) in targets <==>
                  (exists m :: m in ms && m.id == id && m.status == Incomplete)
                  && forall c :: c in SortedGroups(ms) ==> id !in c.memberIds)
            && (PruneTarget(OrphanData, id, [id]) in targets <==> id in orphans)
            && forall t :: t in targets && t.kind != ChainUnit ==> t.memberIds == [t.baseId]
  {
    var members := MemberSet(SortedGroups(ms));
    var b, c := IncompleteTargets(ms, members), OrphanTargets(orphans);
    IncompleteAre(ms, members, id);
    IncompleteKind(ms, members);
    InSomeGroup(SortedGroups(ms), id);
    OrphansAre(orphans, id);
  }

  lemma OrphansAre(orphans: seq<Id>, id: Id)
    ensures PruneTarget(OrphanData, id, [id]) in OrphanTargets(orphans) <==> id in orphans
    ensures forall t :: t in OrphanTargets(orphans) ==> t.kind == OrphanData && t.memberIds == [t.baseId]
  {
    var c := OrphanTargets(orphans);
    if id in orphans {
      var k :| 0 <= k < |orphans| && orphans[k] == id;
      assert c[k] == PruneTarget(OrphanData, id, [id]);
    }
  }

  lemma InSomeGroup(s: seq<ChainGroup>, id: Id)
    ensures id in MemberSet(s) <==> exists g :: g in s && id in g.memberIds
  {
    if g :| g in s && id in g.memberIds {
      var k :| 0 <= k < |s| && s[k] == g;
    }
    if id in MemberSet(s) {
      var k :| 0 <= k < |s| && id in s[k].memberIds;
      assert s[k] in s;
    }
  }

  lemma NoRuleKeepsAll(chains: seq<ChainGroup>, now: int)
    ensures var policy := RetentionPolicy(None, None, None, None, None);
            Kept(policy, now, chains, 0, 0, false) == chains && Dropped(policy, now, chains, 0, 0, false) == []
  {
    var policy := RetentionPolicy(None, None, None, None, None);
    SplitIsByRules(policy, now, chains);
    PickedPrefix(policy, now, chains, |chains|, |chains|);
    assert chains[..|chains|] == chains;
    PickedMembers(policy, now, chains, |chains|, false);
    HasMember(Picked(policy, now, chains, |chains|, false));
  }

  /** With no rule at all, a plan deletes no chain. */
  lemma NoRuleNoTarget(ms: seq<BackupManifest>, orphans: seq<Id>, now: int)
    ensures var plan := PlanOf(ms, orphans, RetentionPolicy(None, None, None, None, None), now);
            && (forall t :: t in plan.targets ==> t.kind != ChainUnit)
            && plan.keptBaseIds == BaseIds(SortedGroups(ms))
  {
    NoRuleKeepsAll(SortedGroups(ms), now);
    IncompleteKind(ms, MemberSet(SortedGroups(ms)));
    forall t | t in OrphanTargets(orphans) ensures t.kind == OrphanData {}
  }

}
