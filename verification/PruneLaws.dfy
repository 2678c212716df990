/** What the retention planner promises: keeping and deleting split the chains,
    pruning twice is pruning once, a larger policy never keeps less, and each rule
    keeps what it is for. */
module PruneLaws {
  import opened Schema
  import opened StableSort
  import opened Chain
  import ChainStore
  import opened PrunePlan

  // ----- laws of the split, on any list of chains -----

  lemma SplitCons<T>(s: seq<T>, kept: seq<T>, dropped: seq<T>, keep: bool)
    requires s != [] && multiset(kept) + multiset(dropped) == multiset(s[1..])
    ensures multiset((if keep then [s[0]] else []) + kept) + multiset((if keep then [] else [s[0]]) + dropped)
            == multiset(s)
  {
    assert s == [s[0]] + s[1..];
    if keep {
      assert [] + dropped == dropped;
    } else {
      assert [] + kept == kept;
    }
  }

  lemma {:induction false} KeptAndDroppedSplit(
      policy: RetentionPolicy, now: int, chains: seq<ChainGroup>, idx: nat, before: nat, seen: bool)
    ensures multiset(Kept(policy, now, chains, idx, before, seen))
            + multiset(Dropped(policy, now, chains, idx, before, seen)) == multiset(chains)
    decreases chains
  {
    if chains == [] {
      assert Kept(policy, now, chains, idx, before, seen) == [];
      assert Dropped(policy, now, chains, idx, before, seen) == [];
    } else {
      var seen1, before1 := seen || IsBoundary(policy, now, chains[0], seen), before + |chains[0].memberIds|;
      KeptAndDroppedSplit(policy, now, chains[1..], idx + 1, before1, seen1);
      SplitCons(chains, Kept(policy, now, chains[1..], idx + 1, before1, seen1),
                Dropped(policy, now, chains[1..], idx + 1, before1, seen1), Keeps(policy, now, chains[0], idx, before, seen));
    }
  }

  /** A kept chain is still kept when it comes earlier and after fewer backups. */
  lemma {:induction false} KeptStaysKept(
      policy: RetentionPolicy, now: int, chains: seq<ChainGroup>,
      idx: nat, before: nat, seen: bool, idx': nat, before': nat)
    requires idx' <= idx && before' <= before
    ensures var kept := Kept(policy, now, chains, idx, before, seen);
            && Kept(policy, now, kept, idx', before', seen) == kept
            && Dropped(policy, now, kept, idx', before', seen) == []
  {
    if chains == [] {
      assert Kept(policy, now, chains, idx, before, seen) == [];
    } else {
      var c := chains[0];
      var seen1, before1 := seen || IsBoundary(policy, now, c, seen), before + |c.memberIds|;
      var rest := Kept(policy, now, chains[1..], idx + 1, before1, seen1);
      if Keeps(policy, now, c, idx, before, seen) {
        KeptStaysKept(policy, now, chains[1..], idx + 1, before1, seen1, idx' + 1, before' + |c.memberIds|);
        SplitOfCons(policy, now, c, rest, idx', before', seen);
      } else {
        KeptStaysKept(policy, now, chains[1..], idx + 1, before1, seen1, idx', before');
        assert Kept(policy, now, chains, idx, before, seen) == rest;
      }
    }
  }

  lemma SplitOfCons(policy: RetentionPolicy, now: int, c: ChainGroup, rest: seq<ChainGroup>, idx: nat, before: nat, seen: bool)
    requires Keeps(policy, now, c, idx, before, seen)
    ensures var before1, seen1 := before + |c.memberIds|, seen || IsBoundary(policy, now, c, seen);
            && Kept(policy, now, [c] + rest, idx, before, seen) == [c] + Kept(policy, now, rest, idx + 1, before1, seen1)
            && Dropped(policy, now, [c] + rest, idx, before, seen) == Dropped(policy, now, rest, idx + 1, before1, seen1)
  {
    assert ([c] + rest)[1..] == rest;
  }

  predicate RuleAtMost(a: Option<u32>, b: Option<u32>) {
    a.Some? ==> b.Some? && a.value <= b.value
  }

  /** Every rule of `p` is also in `q`, with a number at least as large. */
  predicate AtMost(p: RetentionPolicy, q: RetentionPolicy) {
    && RuleAtMost(p.keepFull, q.keepFull) && RuleAtMost(p.keepDays, q.keepDays)
    && RuleAtMost(p.keepLast, q.keepLast) && RuleAtMost(p.recoveryWindowDays, q.recoveryWindowDays)
    && RuleAtMost(p.minRedundancy, q.minRedundancy)
  }

  ghost predicate BasesAreNotNewest(chains: seq<ChainGroup>) {
    forall c :: c in chains ==> c.baseCreated <= c.newestCreated
  }

  lemma {:induction false} LargerPolicyKeepsMore(
      p: RetentionPolicy, q: RetentionPolicy, now: int, chains: seq<ChainGroup>,
      idx: nat, before: nat, seenP: bool, seenQ: bool)
    requires !p.IsUnspecified() && AtMost(p, q) && BasesAreNotNewest(chains)
    requires p.recoveryWindowDays.Some? && seenQ ==> seenP
    ensures forall c :: c in Kept(p, now, chains, idx, before, seenP) ==> c in Kept(q, now, chains, idx, before, seenQ)
    decreases chains
  {
    if chains != [] {
      var c := chains[0];
      assert c in chains;
      forall d | d in chains[1..] ensures d in chains {}
      LargerPolicyKeepsMore(p, q, now, chains[1..], idx + 1, before + |c.memberIds|,
                            seenP || IsBoundary(p, now, c, seenP), seenQ || IsBoundary(q, now, c, seenQ));
      assert Keeps(p, now, c, idx, before, seenP) ==> Keeps(q, now, c, idx, before, seenQ);
    }
  }

  function Total(chains: seq<ChainGroup>): nat {
    if chains == [] then 0 else |chains[0].memberIds| + Total(chains[1..])
  }

  /** How many chains it takes to hold `n` backups when `before` are already held. */
  function ChainsToHold(chains: seq<ChainGroup>, before: nat, n: nat): (k: nat)
    ensures k <= |chains|
  {
    if chains == [] || before >= n then 0
    else 1 + ChainsToHold(chains[1..], before + |chains[0].memberIds|, n)
  }

  /** `ChainsToHold` is the shortest prefix that holds `n` backups, or all the chains. */
  lemma {:induction false} ChainsToHoldIsShortest(chains: seq<ChainGroup>, before: nat, n: nat)
    ensures var k := ChainsToHold(chains, before, n);
            && (k == |chains| || before + Total(chains[..k]) >= n)
            && (forall j :: 0 <= j < k ==> before + Total(chains[..j]) < n)
    decreases chains
  {
    if chains != [] && before < n {
      var rest, before1 := chains[1..], before + |chains[0].memberIds|;
      ChainsToHoldIsShortest(rest, before1, n);
      var k := ChainsToHold(chains, before, n);
      assert chains[..k][1..] == rest[..k - 1];
      forall j | 0 <= j < k ensures before + Total(chains[..j]) < n {
        if j > 0 {
          assert chains[..j][1..] == rest[..j - 1];
          assert before1 + Total(rest[..j - 1]) < n;
        }
      }
    }
  }

  /** keep-last keeps that prefix; alone, it keeps nothing else. */
  lemma {:induction false} KeepLastKeepsPrefix(
      policy: RetentionPolicy, now: int, chains: seq<ChainGroup>, idx: nat, before: nat, seen: bool)
    requires policy.keepLast.Some?
    ensures var k := ChainsToHold(chains, before, policy.keepLast.value);
            && chains[..k] <= Kept(policy, now, chains, idx, before, seen)
            && (policy == RetentionPolicy(None, None, policy.keepLast, None, None) ==>
                  Kept(policy, now, chains, idx, before, seen) == chains[..k])
    decreases chains
  {
    if chains != [] {
      var n, before1 := policy.keepLast.value, before + |chains[0].memberIds|;
      var k := ChainsToHold(chains, before, n);
      KeepLastKeepsPrefix(policy, now, chains[1..], idx + 1, before1,
                          seen || IsBoundary(policy, now, chains[0], seen));
      if before < n {
        assert chains[..k] == [chains[0]] + chains[1..][..k - 1];
      } else {
        assert ChainsToHold(chains[1..], before1, n) == 0;
      }
    }
  }

  /** min-redundancy keeps the newest `m` chains, or all of them. */
  lemma {:induction false} RedundancyKeepsNewest(
      policy: RetentionPolicy, now: int, chains: seq<ChainGroup>, idx: nat, before: nat, seen: bool, k: nat)
    requires policy.minRedundancy.Some? && k <= |chains| && idx + k <= policy.minRedundancy.value
    ensures chains[..k] <= Kept(policy, now, chains, idx, before, seen)
    decreases chains
  {
    if k > 0 {
      RedundancyKeepsNewest(policy, now, chains[1..], idx + 1, before + |chains[0].memberIds|,
                            seen || IsBoundary(policy, now, chains[0], seen), k - 1);
      assert chains[..k] == [chains[0]] + chains[1..][..k - 1];
    }
  }

  /** The first chain, newest first, whose base existed at instant `at`. */
  function FirstAt(chains: seq<ChainGroup>, at: int): Option<ChainGroup> {
    if chains == [] then None
    else if chains[0].baseCreated <= at then Some(chains[0])
    else FirstAt(chains[1..], at)
  }

  /** The recovery window keeps the chain that covers any instant inside it. */
  lemma {:induction false} WindowKeepsCover(
      policy: RetentionPolicy, now: int, chains: seq<ChainGroup>, idx: nat, before: nat, at: int)
    requires policy.recoveryWindowDays.Some? && Cutoff(policy.recoveryWindowDays.value, now) <= at
    requires BasesAreNotNewest(chains)
    ensures FirstAt(chains, at).Some? ==>
              FirstAt(chains, at).value in Kept(policy, now, chains, idx, before, false)
    decreases chains
  {
    if chains != [] {
      assert chains[0] in chains;
      if chains[0].baseCreated > at {
        forall d | d in chains[1..] ensures d in chains {}
        WindowKeepsCover(policy, now, chains[1..], idx + 1, before + |chains[0].memberIds|, at);
      }
    }
  }

  // ----- chains of a store -----

  ghost predicate DistinctManifests(ms: seq<BackupManifest>) {
    forall i, j :: 0 <= i < j < |ms| ==> ms[i].id != ms[j].id
  }

  lemma FindInDistinct(ms: seq<BackupManifest>, m: BackupManifest)
    requires DistinctManifests(ms) && m in ms
    ensures FindManifest(ms, m.id) == Some(m)
    ensures DistinctIds(NodesOf(ms)) && NodeOf(m) in NodesOf(ms)
    ensures FindLast(NodesOf(ms), m.id) == Some(NodeOf(m))
  {
    var i :| 0 <= i < |ms| && ms[i] == m;
    assert NodesOf(ms)[i] == NodeOf(m);
    FindDistinct(NodesOf(ms), NodeOf(m));
  }

  ghost predicate IsIncrementOf(ms: seq<BackupManifest>, id: Id, b: Id) {
    exists m :: m in ms && m.id == id && m.backupType == Incremental && m.baseId == Some(b)
  }

  ghost predicate BelongsTo(ms: seq<BackupManifest>, id: Id, b: Id) {
    id == b || IsIncrementOf(ms, id, b)
  }

  lemma IncrementIds(ms: seq<BackupManifest>, b: Id, id: Id)
    ensures id in IdsOf(SortNodes(IncrementsOf(NodesOf(ms), b))) <==> IsIncrementOf(ms, id, b)
  {
    var nodes := NodesOf(ms);
    var incs := SortNodes(IncrementsOf(nodes, b));
    SortLength(IncrementsOf(nodes, b));
    if id in IdsOf(incs) {
      var i :| 0 <= i < |incs| && incs[i].id == id;
      assert incs[i] in incs;
      var k :| 0 <= k < |nodes| && nodes[k] == incs[i];
      assert ms[k] in ms;
    }
    if IsIncrementOf(ms, id, b) {
      var n :| n in ms && n.id == id && n.backupType == Incremental && n.baseId == Some(b);
      var k :| 0 <= k < |ms| && ms[k] == n;
      assert nodes[k] in nodes && nodes[k] in incs;
      var i :| 0 <= i < |incs| && incs[i] == nodes[k];
      assert IdsOf(incs)[i] == id;
    }
  }

  lemma GroupMembers(ms: seq<BackupManifest>, m: BackupManifest)
    requires DistinctManifests(ms) && m in ms && IsChainBase(m)
    ensures GroupOf(ms, m).memberIds == [m.id] + IdsOf(SortNodes(IncrementsOf(NodesOf(ms), m.id)))
  {
    FindInDistinct(ms, m);
  }

  /** A group holds its base, first, and exactly the increments that name it. */
  lemma GroupHoldsItsChain(ms: seq<BackupManifest>, m: BackupManifest)
    requires DistinctManifests(ms) && m in ms && IsChainBase(m)
    ensures GroupOf(ms, m).memberIds == [m.id] + IdsOf(SortNodes(IncrementsOf(NodesOf(ms), m.id)))
    ensures forall id :: id in GroupOf(ms, m).memberIds <==> BelongsTo(ms, id, m.id)
  {
    GroupMembers(ms, m);
    var incIds := IdsOf(SortNodes(IncrementsOf(NodesOf(ms), m.id)));
    forall id ensures id in [m.id] + incIds <==> BelongsTo(ms, id, m.id) {
      IncrementIds(ms, m.id, id);
    }
  }

  lemma {:induction false} GroupsAre(ms: seq<BackupManifest>, bases: seq<BackupManifest>)
    ensures forall g :: g in Groups(ms, bases) <==> exists m :: m in bases && IsChainBase(m) && g == GroupOf(ms, m)
  {
    if bases != [] {
      GroupsAre(ms, bases[..|bases| - 1]);
      assert bases == bases[..|bases| - 1] + [bases[|bases| - 1]];
    }
  }

  lemma SortedGroupsAre(ms: seq<BackupManifest>)
    ensures forall g :: g in SortedGroups(ms) <==> exists m :: m in ms && IsChainBase(m) && g == GroupOf(ms, m)
  {
    GroupsAre(ms, ms);
    forall g ensures g in SortedGroups(ms) <==> g in Groups(ms, ms) {
      assert g in multiset(SortedGroups(ms)) <==> g in multiset(Groups(ms, ms));
    }
  }

  lemma NewestIsNotBeforeBase(ms: seq<BackupManifest>)
    requires DistinctManifests(ms)
    ensures BasesAreNotNewest(SortedGroups(ms))
  {
    SortedGroupsAre(ms);
    forall g | g in SortedGroups(ms) ensures g.baseCreated <= g.newestCreated {
      var m :| m in ms && IsChainBase(m) && g == GroupOf(ms, m);
      FindInDistinct(ms, m);
      assert g.memberIds[0] == m.id && m.id in g.memberIds;
    }
  }

  lemma {:induction false} EachGroupOnce(ms: seq<BackupManifest>, bases: seq<BackupManifest>)
    requires DistinctManifests(bases)
    ensures forall g :: multiset(Groups(ms, bases))[g] <= 1
  {
    if bases != [] {
      var rest, last := bases[..|bases| - 1], bases[|bases| - 1];
      EachGroupOnce(ms, rest);
      GroupsAre(ms, rest);
      if IsChainBase(last) {
        assert GroupOf(ms, last) !in Groups(ms, rest);
        assert GroupOf(ms, last) !in multiset(Groups(ms, rest));
      }
    }
  }

  /** Each chain is either kept or dropped, not both. */
  lemma KeptOrDropped(ms: seq<BackupManifest>, policy: RetentionPolicy, now: int)
    requires DistinctManifests(ms)
    ensures forall g :: g in SortedGroups(ms) <==> g in KeptGroups(ms, policy, now) || g in DroppedGroups(ms, policy, now)
    ensures forall g :: !(g in KeptGroups(ms, policy, now) && g in DroppedGroups(ms, policy, now))
    ensures forall g :: multiset(DroppedGroups(ms, policy, now))[g] <= 1
  {
    EachGroupOnce(ms, ms);
    var kept, dropped, all := KeptGroups(ms, policy, now), DroppedGroups(ms, policy, now), SortedGroups(ms);
    KeptAndDroppedSplit(policy, now, all, 0, 0, false);
    forall g
      ensures g in all <==> g in kept || g in dropped
      ensures !(g in kept && g in dropped)
      ensures multiset(dropped)[g] <= 1
    {
      assert multiset(all)[g] <= 1;
      assert multiset(all)[g] == multiset(kept)[g] + multiset(dropped)[g];
      assert g in kept <==> multiset(kept)[g] > 0;
      assert g in dropped <==> multiset(dropped)[g] > 0;
      assert g in all <==> multiset(all)[g] > 0;
    }
  }

  /** No backup belongs to two chains. */
  lemma ChainsAreDisjoint(ms: seq<BackupManifest>, g: ChainGroup, h: ChainGroup, id: Id)
    requires DistinctManifests(ms) && g in SortedGroups(ms) && h in SortedGroups(ms)
    requires id in g.memberIds && id in h.memberIds
    ensures g == h
  {
    SortedGroupsAre(ms);
    var m :| m in ms && IsChainBase(m) && g == GroupOf(ms, m);
    var n :| n in ms && IsChainBase(n) && h == GroupOf(ms, n);
    GroupHoldsItsChain(ms, m);
    GroupHoldsItsChain(ms, n);
    FindInDistinct(ms, m);
    FindInDistinct(ms, n);
    if IsIncrementOf(ms, id, m.id) {
      var i :| i in ms && i.id == id && i.backupType == Incremental && i.baseId == Some(m.id);
      FindInDistinct(ms, i);
    }
    if IsIncrementOf(ms, id, n.id) {
      var j :| j in ms && j.id == id && j.backupType == Incremental && j.baseId == Some(n.id);
      FindInDistinct(ms, j);
    }
  }

  // ----- pruning twice is pruning once -----

  function ManifestSurvives(gone: set<Id>): BackupManifest -> bool {
    (m: BackupManifest) => m.id !in gone
  }

  function WithoutManifests(ms: seq<BackupManifest>, gone: set<Id>): (r: seq<BackupManifest>)
    ensures forall m :: m in r <==> m in ms && m.id !in gone
  {
    Filter(ManifestSurvives(gone), ms)
  }

  function GroupSurvives(gone: set<Id>): ChainGroup -> bool {
    (g: ChainGroup) => g.baseId !in gone
  }

  function WithoutGroups(gs: seq<ChainGroup>, gone: set<Id>): (r: seq<ChainGroup>)
    ensures forall g :: g in r <==> g in gs && g.baseId !in gone
  {
    Filter(GroupSurvives(gone), gs)
  }

  lemma {:induction false} WithoutKeepsDistinct(ms: seq<BackupManifest>, gone: set<Id>)
    requires DistinctManifests(ms)
    ensures DistinctManifests(WithoutManifests(ms, gone))
  {
    if ms != [] {
      var rest := WithoutManifests(ms[..|ms| - 1], gone);
      WithoutKeepsDistinct(ms[..|ms| - 1], gone);
      forall i | 0 <= i < |rest| ensures rest[i].id != ms[|ms| - 1].id {
        assert rest[i] in rest;
      }
    }
  }

  lemma NodesOfAppend(ms: seq<BackupManifest>, m: BackupManifest)
    ensures NodesOf(ms + [m]) == NodesOf(ms) + [NodeOf(m)]
  {
  }

  lemma {:induction false} NodesWithout(ms: seq<BackupManifest>, gone: set<Id>)
    ensures NodesOf(WithoutManifests(ms, gone)) == ChainStore.Without(NodesOf(ms), gone)
  {
    if ms != [] {
      var last, rest := ms[|ms| - 1], ms[..|ms| - 1];
      NodesWithout(rest, gone);
      assert NodesOf(ms)[..|ms| - 1] == NodesOf(rest);
      var left := WithoutManifests(rest, gone);
      if last.id in gone {
        assert WithoutManifests(ms, gone) == left;
      } else {
        NodesOfAppend(left, last);
      }
    }
  }

  lemma FindWithout(ms: seq<BackupManifest>, gone: set<Id>, id: Id)
    requires DistinctManifests(ms) && id !in gone
    ensures FindManifest(WithoutManifests(ms, gone), id) == FindManifest(ms, id)
  {
    WithoutKeepsDistinct(ms, gone);
    var left := WithoutManifests(ms, gone);
    if FindManifest(ms, id).Some? {
      FindInDistinct(left, FindManifest(ms, id).value);
    }
  }

  lemma {:induction false} NewestWithout(ms: seq<BackupManifest>, gone: set<Id>, ids: seq<Id>)
    requires DistinctManifests(ms) && forall id :: id in ids ==> id !in gone
    ensures NewestCreated(WithoutManifests(ms, gone), ids) == NewestCreated(ms, ids)
  {
    if ids != [] {
      assert ids[0] in ids;
      FindWithout(ms, gone, ids[0]);
      NewestWithout(ms, gone, ids[1..]);
    }
  }

  /** A chain none of whose members is deleted is the same chain afterwards. */
  lemma GroupWithout(ms: seq<BackupManifest>, gone: set<Id>, m: BackupManifest)
    requires DistinctManifests(ms) && m in ms && IsChainBase(m)
    requires forall id :: id in GroupOf(ms, m).memberIds ==> id !in gone
    ensures GroupOf(WithoutManifests(ms, gone), m) == GroupOf(ms, m)
  {
    var left, nodes := WithoutManifests(ms, gone), NodesOf(ms);
    var incs := IncrementsOf(nodes, m.id);
    GroupHoldsItsChain(ms, m);
    WithoutKeepsDistinct(ms, gone);
    assert m.id in GroupOf(ms, m).memberIds;
    SortLength(incs);
    forall n | n in incs ensures n.id !in gone {
      var s := SortNodes(incs);
      var i :| 0 <= i < |s| && s[i] == n;
      assert IdsOf(s)[i] == n.id;
    }
    NodesWithout(ms, gone);
    ChainStore.ChainWithout(nodes, gone, m.id);
    ChainStore.NothingGone(incs, gone);
    GroupHoldsItsChain(left, m);
    NewestWithout(ms, gone, GroupOf(ms, m).memberIds);
  }

  lemma {:induction false} GroupsWithout(ms: seq<BackupManifest>, bases: seq<BackupManifest>, gone: set<Id>)
    requires DistinctManifests(ms) && forall m :: m in bases ==> m in ms
    requires forall m :: m in bases && IsChainBase(m) && m.id !in gone ==>
               forall id :: id in GroupOf(ms, m).memberIds ==> id !in gone
    ensures Groups(WithoutManifests(ms, gone), WithoutManifests(bases, gone)) == WithoutGroups(Groups(ms, bases), gone)
  {
    if bases != [] {
      var last, rest := bases[|bases| - 1], bases[..|bases| - 1];
      forall m | m in rest ensures m in bases {}
      assert last in bases;
      GroupsWithout(ms, rest, gone);
      var left := WithoutManifests(rest, gone);
      if last.id !in gone {
        assert (left + [last])[..|left|] == left;
      } else {
        assert WithoutManifests(bases, gone) == left;
      }
      if IsChainBase(last) {
        if last.id !in gone { GroupWithout(ms, gone, last); }
        FilterAppend(GroupSurvives(gone), Groups(ms, rest), GroupOf(ms, last));
      } else {
        assert Groups(ms, bases) == Groups(ms, rest);
      }
    }
  }

  lemma NewerIsComparison()
    ensures IsComparison(Newer)
  {
  }

  lemma {:induction false} KeptIsWithoutDropped(
      policy: RetentionPolicy, now: int, chains: seq<ChainGroup>, idx: nat, before: nat, seen: bool, gone: set<Id>)
    requires forall g :: g in Kept(policy, now, chains, idx, before, seen) ==> g.baseId !in gone
    requires forall g :: g in Dropped(policy, now, chains, idx, before, seen) ==> g.baseId in gone
    ensures Kept(policy, now, chains, idx, before, seen) == WithoutGroups(chains, gone)
  {
    if chains != [] {
      var seen1, before1 := seen || IsBoundary(policy, now, chains[0], seen), before + |chains[0].memberIds|;
      assert Keeps(policy, now, chains[0], idx, before, seen) ==>
               chains[0] in Kept(policy, now, chains, idx, before, seen);
      assert !Keeps(policy, now, chains[0], idx, before, seen) ==>
               chains[0] in Dropped(policy, now, chains, idx, before, seen);
      KeptIsWithoutDropped(policy, now, chains[1..], idx + 1, before1, seen1, gone);
      HeadTail(chains);
      FilterCons(GroupSurvives(gone), chains[0], chains[1..]);
    }
  }

  function Doomed(ms: seq<BackupManifest>, policy: RetentionPolicy, now: int): set<Id> {
    MemberSet(DroppedGroups(ms, policy, now))
  }

  /** Nothing of a kept chain is deleted; everything of a dropped one is. */
  lemma DoomedIsDropped(ms: seq<BackupManifest>, policy: RetentionPolicy, now: int)
    requires DistinctManifests(ms)
    ensures forall g, id :: g in KeptGroups(ms, policy, now) && id in g.memberIds ==> id !in Doomed(ms, policy, now)
    ensures forall g, id :: g in DroppedGroups(ms, policy, now) && id in g.memberIds ==> id in Doomed(ms, policy, now)
  {
    KeptOrDropped(ms, policy, now);
    var dropped := DroppedGroups(ms, policy, now);
    forall g, id | g in KeptGroups(ms, policy, now) && id in g.memberIds ensures id !in Doomed(ms, policy, now) {
      if id in Doomed(ms, policy, now) {
        var i :| 0 <= i < |dropped| && id in dropped[i].memberIds;
        assert dropped[i] in dropped;
        ChainsAreDisjoint(ms, g, dropped[i], id);
      }
    }
  }

  lemma GroupsAfterPrune(ms: seq<BackupManifest>, policy: RetentionPolicy, now: int)
    requires DistinctManifests(ms)
    ensures SortedGroups(WithoutManifests(ms, Doomed(ms, policy, now))) == KeptGroups(ms, policy, now)
  {
    var gone := Doomed(ms, policy, now);
    KeptOrDropped(ms, policy, now);
    DoomedIsDropped(ms, policy, now);
    SortedGroupsAre(ms);
    forall m | m in ms && IsChainBase(m) && m.id !in gone
      ensures forall id :: id in GroupOf(ms, m).memberIds ==> id !in gone
    {
      var g := GroupOf(ms, m);
      assert g in SortedGroups(ms);
      assert g.memberIds[0] == m.id && m.id in g.memberIds;
    }
    GroupsWithout(ms, ms, gone);
    NewerIsComparison();
    SortThenFilter(Newer, GroupSurvives(gone), Groups(ms, ms));
    forall g | g in SortedGroups(ms) ensures g.baseId in g.memberIds {
      assert g.memberIds[0] == g.baseId;
    }
    KeptIsWithoutDropped(policy, now, SortedGroups(ms), 0, 0, false, gone);
  }

  /** Planning again after the chain targets are gone finds no chain target and keeps the same chains. */
  lemma PruneIsAFixpoint(ms: seq<BackupManifest>, orphans: seq<Id>, policy: RetentionPolicy, now: int)
    requires DistinctManifests(ms)
    ensures var again := PlanOf(WithoutManifests(ms, Doomed(ms, policy, now)), orphans, policy, now);
            && (forall t :: t in again.targets ==> t.kind != ChainUnit)
            && again.keptBaseIds == PlanOf(ms, orphans, policy, now).keptBaseIds
  {
    var left := WithoutManifests(ms, Doomed(ms, policy, now));
    GroupsAfterPrune(ms, policy, now);
    KeptStaysKept(policy, now, SortedGroups(ms), 0, 0, false, 0, 0);
    IncompleteKind(left, MemberSet(SortedGroups(left)));
    assert ChainTargets(DroppedGroups(left, policy, now)) == [];
    forall t | t in OrphanTargets(orphans) ensures t.kind == OrphanData {}
  }

  lemma {:induction false} IncompleteKind(ms: seq<BackupManifest>, members: set<Id>)
    ensures forall t :: t in IncompleteTargets(ms, members) ==>
              t.kind == IncompleteBackup && t.memberIds == [t.baseId]
              && exists m :: m in ms && m.id == t.baseId && m.status == Incomplete && m.id !in members
  {
    if ms != [] {
      IncompleteKind(ms[..|ms| - 1], members);
      assert ms == ms[..|ms| - 1] + [ms[|ms| - 1]];
    }
  }

  /** Enlarging a rule of a specified policy keeps every chain it kept. */
  lemma LargerPolicyPlansKeepMore(ms: seq<BackupManifest>, p: RetentionPolicy, q: RetentionPolicy, now: int)
    requires DistinctManifests(ms) && !p.IsUnspecified() && AtMost(p, q)
    ensures forall g :: g in KeptGroups(ms, p, now) ==> g in KeptGroups(ms, q, now)
  {
    NewestIsNotBeforeBase(ms);
    LargerPolicyKeepsMore(p, q, now, SortedGroups(ms), 0, 0, false, false);
  }

  lemma {:induction false} FirstAtExists(chains: seq<ChainGroup>, at: int, c: ChainGroup)
    requires c in chains && c.baseCreated <= at
    ensures FirstAt(chains, at).Some?
  {
    if chains[0] != c { FirstAtExists(chains[1..], at, c); }
  }

  /** For every instant inside the window at which some complete full backup
      existed, the newest chain whose base existed then is kept whole. */
  lemma WindowIsRecoverable(ms: seq<BackupManifest>, policy: RetentionPolicy, now: int, at: int, m: BackupManifest)
    requires DistinctManifests(ms) && policy.recoveryWindowDays.Some?
    requires Cutoff(policy.recoveryWindowDays.value, now) <= at
    requires m in ms && IsChainBase(m) && m.createdAt.Some? && m.createdAt.value <= at
    ensures var cover := FirstAt(SortedGroups(ms), at);
            && cover.Some? && cover.value in KeptGroups(ms, policy, now)
            && forall id :: id in cover.value.memberIds ==> id !in Doomed(ms, policy, now)
  {
    SortedGroupsAre(ms);
    NewestIsNotBeforeBase(ms);
    FirstAtExists(SortedGroups(ms), at, GroupOf(ms, m));
    WindowKeepsCover(policy, now, SortedGroups(ms), 0, 0, at);
    DoomedIsDropped(ms, policy, now);
  }

  // ----- a chain is deleted whole, and nothing else with it -----

  ghost predicate OrphansAreStrays(ms: seq<BackupManifest>, orphans: seq<Id>) {
    && (forall i, j :: 0 <= i < j < |orphans| ==> orphans[i] != orphans[j])
    && (forall m, id :: m in ms && id in orphans ==> m.id != id)
  }

  /** Every id of a target is that target's alone. */
  ghost predicate DisjointTargets(targets: seq<PruneTarget>) {
    forall i, j, id :: 0 <= i < j < |targets| && id in targets[i].memberIds ==> id !in targets[j].memberIds
  }

  lemma ChainTargetsDisjoint(ms: seq<BackupManifest>, policy: RetentionPolicy, now: int)
    requires DistinctManifests(ms)
    ensures DisjointTargets(ChainTargets(DroppedGroups(ms, policy, now)))
  {
    var dropped := DroppedGroups(ms, policy, now);
    KeptOrDropped(ms, policy, now);
    forall i, j, id | 0 <= i < j < |dropped| && id in dropped[i].memberIds ensures id !in dropped[j].memberIds {
      if id in dropped[j].memberIds {
        assert dropped[i] in dropped && dropped[j] in dropped;
        ChainsAreDisjoint(ms, dropped[i], dropped[j], id);
        TwiceInMultiset(dropped, i, j);
      }
    }
  }

  lemma TwiceInMultiset<T>(s: seq<T>, i: nat, j: nat)
    requires i < j < |s| && s[i] == s[j]
    ensures multiset(s)[s[i]] >= 2
  {
    assert s == s[..j] + s[j..];
    assert s[..j][i] == s[i] && s[j..][0] == s[i];
    assert s[i] in multiset(s[..j]) && s[i] in multiset(s[j..]);
  }

  lemma {:induction false} IncompleteTargetsDisjoint(ms: seq<BackupManifest>, members: set<Id>)
    requires DistinctManifests(ms)
    ensures DisjointTargets(IncompleteTargets(ms, members))
  {
    if ms != [] {
      var rest, last := ms[..|ms| - 1], ms[|ms| - 1];
      IncompleteTargetsDisjoint(rest, members);
      IncompleteKind(rest, members);
      var ts := IncompleteTargets(rest, members);
      forall i | 0 <= i < |ts| ensures last.id !in ts[i].memberIds {
        assert ts[i] in ts;
      }
    }
  }

  function TargetIds(ts: seq<PruneTarget>): (r: set<Id>)
    ensures forall id :: id in r <==> exists i :: 0 <= i < |ts| && id in ts[i].memberIds
  {
    set i, id | 0 <= i < |ts| && id in ts[i].memberIds :: id
  }

  function ManifestIds(ms: seq<BackupManifest>): set<Id> {
    set m | m in ms :: m.id
  }

  lemma DisjointAppend(a: seq<PruneTarget>, b: seq<PruneTarget>)
    requires DisjointTargets(a) && DisjointTargets(b) && TargetIds(a) !! TargetIds(b)
    ensures DisjointTargets(a + b)
    ensures TargetIds(a + b) == TargetIds(a) + TargetIds(b)
  {
    var ts := a + b;
    forall i, j, id | 0 <= i < j < |ts| && id in ts[i].memberIds ensures id !in ts[j].memberIds {
      if i < |a| <= j {
        assert id in TargetIds(a) && id !in TargetIds(b) && ts[j] == b[j - |a|];
      } else if i >= |a| {
        assert ts[i] == b[i - |a|] && ts[j] == b[j - |a|];
      }
    }
    forall id ensures id in TargetIds(ts) <==> id in TargetIds(a) + TargetIds(b) {
      if id in TargetIds(a) {
        var i :| 0 <= i < |a| && id in a[i].memberIds;
        assert ts[i] == a[i];
      }
      if id in TargetIds(b) {
        var i :| 0 <= i < |b| && id in b[i].memberIds;
        assert ts[|a| + i] == b[i];
      }
    }
  }

  /** Every member of a chain has a manifest. */
  lemma MembersHaveManifests(ms: seq<BackupManifest>)
    requires DistinctManifests(ms)
    ensures MemberSet(SortedGroups(ms)) <= ManifestIds(ms)
  {
    var s := SortedGroups(ms);
    SortedGroupsAre(ms);
    forall id | id in MemberSet(s) ensures id in ManifestIds(ms) {
      var i :| 0 <= i < |s| && id in s[i].memberIds;
      assert s[i] in s;
      var m :| m in ms && IsChainBase(m) && s[i] == GroupOf(ms, m);
      GroupHoldsItsChain(ms, m);
    }
  }

  lemma SubgroupsMembers(sub: seq<ChainGroup>, all: seq<ChainGroup>)
    requires forall g :: g in sub ==> g in all
    ensures MemberSet(sub) <= MemberSet(all)
  {
    forall id | id in MemberSet(sub) ensures id in MemberSet(all) {
      var i :| 0 <= i < |sub| && id in sub[i].memberIds;
      assert sub[i] in sub;
      var j :| 0 <= j < |all| && all[j] == sub[i];
    }
  }

  lemma DoomedAreMembers(ms: seq<BackupManifest>, policy: RetentionPolicy, now: int)
    requires DistinctManifests(ms)
    ensures Doomed(ms, policy, now) <= MemberSet(SortedGroups(ms))
    ensures Doomed(ms, policy, now) !! MemberSet(KeptGroups(ms, policy, now))
  {
    KeptOrDropped(ms, policy, now);
    SubgroupsMembers(DroppedGroups(ms, policy, now), SortedGroups(ms));
    DoomedIsDropped(ms, policy, now);
    var kept := KeptGroups(ms, policy, now);
    forall id | id in MemberSet(kept) ensures id !in Doomed(ms, policy, now) {
      var i :| 0 <= i < |kept| && id in kept[i].memberIds;
      assert kept[i] in kept;
    }
  }

  lemma IncompleteIds(ms: seq<BackupManifest>, members: set<Id>)
    ensures TargetIds(IncompleteTargets(ms, members)) <= ManifestIds(ms) - members
  {
    var ts := IncompleteTargets(ms, members);
    IncompleteKind(ms, members);
    forall id | id in TargetIds(ts) ensures id in ManifestIds(ms) - members {
      var i :| 0 <= i < |ts| && id in ts[i].memberIds;
      assert ts[i] in ts;
    }
  }

  lemma OrphanIds(ms: seq<BackupManifest>, orphans: seq<Id>)
    requires OrphansAreStrays(ms, orphans)
    ensures DisjointTargets(OrphanTargets(orphans))
    ensures TargetIds(OrphanTargets(orphans)) !! ManifestIds(ms)
  {
    forall id | id in TargetIds(OrphanTargets(orphans)) ensures id in orphans {
      var i :| 0 <= i < |orphans| && id in OrphanTargets(orphans)[i].memberIds;
      assert orphans[i] == id;
    }
  }

  /** The targets of a plan share no backup with each other or with a kept chain. */
  lemma TargetsAreDisjoint(ms: seq<BackupManifest>, orphans: seq<Id>, policy: RetentionPolicy, now: int)
    requires DistinctManifests(ms) && OrphansAreStrays(ms, orphans)
    ensures DisjointTargets(PlanOf(ms, orphans, policy, now).targets)
    ensures TargetIds(PlanOf(ms, orphans, policy, now).targets) !! MemberSet(KeptGroups(ms, policy, now))
  {
    var dropped, members := DroppedGroups(ms, policy, now), MemberSet(SortedGroups(ms));
    var a, b, c := ChainTargets(dropped), IncompleteTargets(ms, members), OrphanTargets(orphans);
    ChainTargetsDisjoint(ms, policy, now);
    IncompleteTargetsDisjoint(ms, members);
    MembersHaveManifests(ms);
    DoomedAreMembers(ms, policy, now);
    IncompleteIds(ms, members);
    assert TargetIds(a) == Doomed(ms, policy, now);
    DisjointAppend(a, b);
    OrphanIds(ms, orphans);
    DisjointAppend(a + b, c);
    KeptOrDropped(ms, policy, now);
    SubgroupsMembers(KeptGroups(ms, policy, now), SortedGroups(ms));
  }

  ghost predicate HasCompleteBase(ms: seq<BackupManifest>, n: BackupManifest) {
    n.baseId.Some? && exists m :: m in ms && m.id == n.baseId.value && IsChainBase(m)
  }

  ghost predicate BasesAreComplete(ms: seq<BackupManifest>) {
    forall n :: n in ms && n.backupType == Incremental && n.baseId.Some? ==> HasCompleteBase(ms, n)
  }

  lemma TargetOf(ms: seq<BackupManifest>, orphans: seq<Id>, policy: RetentionPolicy, now: int, t: PruneTarget, id: Id)
    requires DistinctManifests(ms) && OrphansAreStrays(ms, orphans)
    requires t in PlanOf(ms, orphans, policy, now).targets && id in t.memberIds
    requires id in MemberSet(SortedGroups(ms))
    ensures exists g :: g in DroppedGroups(ms, policy, now) && t == PruneTarget(ChainUnit, g.baseId, g.memberIds)
  {
    var dropped, members := DroppedGroups(ms, policy, now), MemberSet(SortedGroups(ms));
    var a, b, c := ChainTargets(dropped), IncompleteTargets(ms, members), OrphanTargets(orphans);
    IncompleteIds(ms, members);
    OrphanIds(ms, orphans);
    MembersHaveManifests(ms);
    assert t in b ==> id in TargetIds(b);
    assert t in c ==> id in TargetIds(c);
    assert t in a + b + c;
    assert t in a;
    var i :| 0 <= i < |a| && a[i] == t;
    assert dropped[i] in dropped;
  }

  lemma OwnGroup(ms: seq<BackupManifest>, base: BackupManifest, n: BackupManifest)
    requires DistinctManifests(ms) && base in ms && IsChainBase(base)
    requires n in ms && n.backupType == Incremental && n.baseId == Some(base.id)
    ensures var own := GroupOf(ms, base);
            && own in SortedGroups(ms) && base.id in own.memberIds && n.id in own.memberIds
            && base.id in MemberSet(SortedGroups(ms))
  {
    var own, s := GroupOf(ms, base), SortedGroups(ms);
    assert own in s by { SortedGroupsAre(ms); }
    assert base.id in own.memberIds && n.id in own.memberIds by {
      GroupHoldsItsChain(ms, base);
      assert IsIncrementOf(ms, n.id, base.id);
    }
    var k :| 0 <= k < |s| && s[k] == own;
    assert base.id in s[k].memberIds;
  }

  lemma CompleteBaseKeepsIncrement(
      ms: seq<BackupManifest>, orphans: seq<Id>, policy: RetentionPolicy, now: int, t: PruneTarget, n: BackupManifest)
    requires DistinctManifests(ms) && OrphansAreStrays(ms, orphans)
    requires t in PlanOf(ms, orphans, policy, now).targets
    requires n in ms && n.backupType == Incremental && n.baseId.Some? && n.baseId.value in t.memberIds
    requires HasCompleteBase(ms, n)
    ensures t.kind == ChainUnit && n.id in t.memberIds
  {
    var base :| base in ms && base.id == n.baseId.value && IsChainBase(base);
    var own := GroupOf(ms, base);
    OwnGroup(ms, base, n);
    TargetOf(ms, orphans, policy, now, t, base.id);
    KeptOrDropped(ms, policy, now);
    var g :| g in DroppedGroups(ms, policy, now) && t == PruneTarget(ChainUnit, g.baseId, g.memberIds);
    ChainsAreDisjoint(ms, g, own, base.id);
  }

  /** A target of several members is the chain of a complete full backup. */
  lemma MembersOfTarget(ms: seq<BackupManifest>, orphans: seq<Id>, policy: RetentionPolicy, now: int, t: PruneTarget)
    requires DistinctManifests(ms) && t in PlanOf(ms, orphans, policy, now).targets
    ensures || |t.memberIds| == 1
            || exists m :: m in ms && IsChainBase(m) && t.memberIds == GroupOf(ms, m).memberIds
  {
    var dropped, members := DroppedGroups(ms, policy, now), MemberSet(SortedGroups(ms));
    var a, b, c := ChainTargets(dropped), IncompleteTargets(ms, members), OrphanTargets(orphans);
    IncompleteKind(ms, members);
    assert t in a || t in b || t in c;
    if t in a {
      var i :| 0 <= i < |a| && a[i] == t;
      KeptOrDropped(ms, policy, now);
      assert dropped[i] in dropped;
      SortedGroupsAre(ms);
    }
  }

  lemma GroupMemberNames(ms: seq<BackupManifest>, m: BackupManifest, n: BackupManifest)
    requires DistinctManifests(ms) && m in ms && IsChainBase(m) && n in ms && n.backupType == Incremental
    requires n.id in GroupOf(ms, m).memberIds
    ensures HasCompleteBase(ms, n)
  {
    GroupHoldsItsChain(ms, m);
    FindInDistinct(ms, n);
    FindInDistinct(ms, m);
    assert n.id != m.id;
    var x :| x in ms && x.id == n.id && x.backupType == Incremental && x.baseId == Some(m.id);
    FindInDistinct(ms, x);
  }

  lemma TwoMembers(s: seq<Id>, a: Id, b: Id)
    requires a in s && b in s && a != b
    ensures |s| != 1
  {
  }

  lemma TakenMeansCompleteBase(
      ms: seq<BackupManifest>, orphans: seq<Id>, policy: RetentionPolicy, now: int, t: PruneTarget, n: BackupManifest)
    requires DistinctManifests(ms) && t in PlanOf(ms, orphans, policy, now).targets
    requires n in ms && n.backupType == Incremental && n.baseId.Some? && n.baseId.value in t.memberIds
    requires n.id in t.memberIds && n.id != n.baseId.value
    ensures HasCompleteBase(ms, n)
  {
    MembersOfTarget(ms, orphans, policy, now, t);
    TwoMembers(t.memberIds, n.id, n.baseId.value);
    var m :| m in ms && IsChainBase(m) && t.memberIds == GroupOf(ms, m).memberIds;
    GroupMemberNames(ms, m, n);
  }

  /** When a target takes the base of an increment, it takes the increment exactly
      when that base is a complete full backup (or the increment names itself). */
  lemma NoIncrementIsAbandoned(
      ms: seq<BackupManifest>, orphans: seq<Id>, policy: RetentionPolicy, now: int, t: PruneTarget, n: BackupManifest)
    requires DistinctManifests(ms) && OrphansAreStrays(ms, orphans)
    requires t in PlanOf(ms, orphans, policy, now).targets
    requires n in ms && n.backupType == Incremental && n.baseId.Some? && n.baseId.value in t.memberIds
    ensures n.id in t.memberIds <==> HasCompleteBase(ms, n) || n.baseId == Some(n.id)
  {
    if HasCompleteBase(ms, n) {
      CompleteBaseKeepsIncrement(ms, orphans, policy, now, t, n);
    } else if n.id in t.memberIds && n.baseId != Some(n.id) {
      TakenMeansCompleteBase(ms, orphans, policy, now, t, n);
    }
  }
}
