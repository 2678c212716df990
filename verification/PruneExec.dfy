/** Deleting what a plan chose, one file at a time, and what is left when that
    stops after any number of deletions. */
module PruneExec {
  import opened Schema
  import opened StableSort
  import opened Chain
  import opened ChainStore
  import opened PrunePlan
  import opened PruneLaws

  datatype FileKind = DataFile | ManifestSidecar | FileIndex | ManifestFile

  datatype File = File(id: Id, kind: FileKind)

  // ----- the order of deletion -----

  /** Newest increment first, the base, which leads the list, last. */
  function DeleteOrder(ids: seq<Id>): (r: seq<Id>)
    ensures |r| == |ids|
    ensures forall k :: 0 <= k < |ids| ==> r[k] == ids[|ids| - 1 - k]
  {
    if |ids| <= 1 then ids
    else seq(|ids| - 1, k requires 0 <= k < |ids| - 1 => ids[|ids| - 1 - k]) + [ids[0]]
  }

  predicate Selected(t: PruneTarget, force: bool) {
    force || t.kind == ChainUnit
  }

  function DeleteIds(targets: seq<PruneTarget>, force: bool): seq<Id> {
    if targets == [] then []
    else
      DeleteIds(targets[..|targets| - 1], force)
      + (if Selected(targets[|targets| - 1], force) then DeleteOrder(targets[|targets| - 1].memberIds) else [])
  }

  /** Within a backup the manifest goes last. */
  function FileAt(r: nat): FileKind
    requires r < 4
  {
    if r == 0 then DataFile else if r == 1 then ManifestSidecar else if r == 2 then FileIndex else ManifestFile
  }

  /** The `j`-th deletion of a run over `ids`. */
  function Call(ids: seq<Id>, j: nat): File
    requires j < 4 * |ids|
  {
    File(ids[j / 4], FileAt(j % 4))
  }

  function DeletedAfter(ids: seq<Id>, k: nat): (r: set<File>)
    requires k <= 4 * |ids|
    ensures forall f :: f in r <==> exists j :: 0 <= j < k && Call(ids, j) == f
  {
    set j | 0 <= j < k :: Call(ids, j)
  }

  // ----- storage that may fail at any deletion -----

  datatype DeleteResult = Deleted | NotFound | Failed

  class Storage {
    var files: set<File>

    constructor (files: set<File>)
      ensures this.files == files
    {
      this.files := files;
    }

    /** A failed deletion may or may not have taken effect. */
    method Delete(f: File) returns (r: DeleteResult)
      modifies this
      ensures r == Deleted ==> f in old(files) && files == old(files) - {f}
      ensures r == NotFound ==> f !in old(files) && files == old(files)
      ensures r == Failed ==> files == old(files) || files == old(files) - {f}
    {
      var reached: bool, acknowledged: bool := *, *;
      if !reached {
        return Failed;
      }
      if f !in files {
        return if acknowledged then NotFound else Failed;
      }
      files := files - {f};
      return if acknowledged then Deleted else Failed;
    }

    /** A file that is already gone counts as deleted. */
    method DeleteIfExists(f: File) returns (ok: bool)
      modifies this
      ensures ok ==> files == old(files) - {f}
      ensures !ok ==> files == old(files) || files == old(files) - {f}
    {
      var r := Delete(f);
      ok := r != Failed;
    }
  }

  datatype PruneOutcome = PruneOutcome(deletedBackups: nat, deletedChains: nat)

  datatype PruneError = DeleteFailed

  lemma CallAt(ids: seq<Id>, q: nat, r: nat)
    requires q < |ids| && r < 4
    ensures Call(ids, 4 * q + r) == File(ids[q], FileAt(r))
    ensures DeletedAfter(ids, 4 * q + r + 1) == DeletedAfter(ids, 4 * q + r) + {File(ids[q], FileAt(r))}
  {
    assert (4 * q + r) / 4 == q && (4 * q + r) % 4 == r;
  }

  /** Deletes the files of `ids[q]`; `n` counts the deletions that took effect in all. */
  method DeleteOneBackup(storage: Storage, id: Id, ghost all: set<File>, ghost ids: seq<Id>, ghost q: nat)
    returns (ok: bool, ghost n: nat)
    requires q < |ids| && ids[q] == id
    requires storage.files == all - DeletedAfter(ids, 4 * q)
    modifies storage
    ensures 4 * q <= n <= 4 * q + 4 && (ok ==> n == 4 * q + 4)
    ensures storage.files == all - DeletedAfter(ids, n)
  {
    var r := 0;
    while r < 4
      invariant 0 <= r <= 4
      invariant storage.files == all - DeletedAfter(ids, 4 * q + r)
    {
      CallAt(ids, q, r);
      ok := storage.DeleteIfExists(File(id, FileAt(r)));
      if !ok {
        n := if storage.files == all - DeletedAfter(ids, 4 * q + r) then 4 * q + r else 4 * q + r + 1;
        return;
      }
      r := r + 1;
    }
    return true, 4 * q + 4;
  }

  lemma DeleteIdsStep(targets: seq<PruneTarget>, force: bool, i: nat)
    requires i < |targets|
    ensures DeleteIds(targets[..i + 1], force)
            == DeleteIds(targets[..i], force)
               + (if Selected(targets[i], force) then DeleteOrder(targets[i].memberIds) else [])
  {
    assert targets[..i + 1][..i] == targets[..i];
  }

  lemma {:induction false} DeleteIdsPrefix(targets: seq<PruneTarget>, force: bool, i: nat)
    requires i <= |targets|
    ensures DeleteIds(targets[..i], force) <= DeleteIds(targets, force)
    decreases |targets| - i
  {
    if i == |targets| {
      assert targets[..i] == targets;
    } else {
      DeleteIdsStep(targets, force, i);
      DeleteIdsPrefix(targets, force, i + 1);
    }
  }

  ghost predicate ComesAt<T>(part: seq<T>, whole: seq<T>, start: nat) {
    start + |part| <= |whole| && forall k :: 0 <= k < |part| ==> part[k] == whole[start + k]
  }

  /** How many backups the run deletes before target `i`. */
  function StartOf(targets: seq<PruneTarget>, force: bool, i: nat): nat
    requires i <= |targets|
  {
    |DeleteIds(targets[..i], force)|
  }

  /** The order of a selected target is the next part of the run. */
  lemma OrderIsNext(targets: seq<PruneTarget>, force: bool, i: nat)
    requires i < |targets| && Selected(targets[i], force)
    ensures ComesAt(DeleteOrder(targets[i].memberIds), DeleteIds(targets, force), StartOf(targets, force, i))
  {
    DeleteIdsStep(targets, force, i);
    DeleteIdsPrefix(targets, force, i + 1);
    PrefixIndex(DeleteIds(targets[..i], force), DeleteOrder(targets[i].memberIds), DeleteIds(targets, force));
  }

  lemma PrefixIndex<T>(a: seq<T>, b: seq<T>, whole: seq<T>)
    requires a + b <= whole
    ensures ComesAt(b, whole, |a|)
  {
    forall k | 0 <= k < |b| ensures b[k] == whole[|a| + k] {
      assert (a + b)[|a| + k] == b[k];
    }
  }

  function ChainCount(targets: seq<PruneTarget>): nat {
    if targets == [] then 0
    else ChainCount(targets[..|targets| - 1]) + (if targets[|targets| - 1].kind == ChainUnit then 1 else 0)
  }

  function ChainPositions(targets: seq<PruneTarget>): set<int> {
    set i | 0 <= i < |targets| && targets[i].kind == ChainUnit
  }

  lemma PositionsOneMore(front: seq<PruneTarget>, last: PruneTarget)
    ensures ChainPositions(front + [last])
            == if last.kind == ChainUnit then ChainPositions(front) + {|front|} else ChainPositions(front)
  {
  }

  /** The count is that of the positions that hold a chain. */
  lemma {:induction false} ChainCountIs(targets: seq<PruneTarget>)
    ensures ChainCount(targets) == |ChainPositions(targets)|
  {
    if targets != [] {
      ChainCountIs(targets[..|targets| - 1]);
      FrontLast(targets);
      PositionsOneMore(targets[..|targets| - 1], targets[|targets| - 1]);
    }
  }

  /** Deletes one target's backups, which are `ids[start..start + |order|]`. */
  method DeleteMembers(storage: Storage, order: seq<Id>, ghost all: set<File>, ghost ids: seq<Id>, ghost start: nat)
    returns (ok: bool, ghost n: nat)
    requires ComesAt(order, ids, start)
    requires storage.files == all - DeletedAfter(ids, 4 * start)
    modifies storage
    ensures n <= 4 * (start + |order|) && (ok ==> n == 4 * (start + |order|))
    ensures storage.files == all - DeletedAfter(ids, n)
  {
    n := 4 * start;
    for k := 0 to |order|
      invariant n == 4 * (start + k)
      invariant storage.files == all - DeletedAfter(ids, n)
    {
      ok, n := DeleteOneBackup(storage, order[k], all, ids, start + k);
      if !ok {
        return;
      }
    }
    ok := true;
  }

  // ----- what a run may delete -----

  /** The backup is in a chain of the plan, or with force in any target of it. */
  ghost predicate MayGo(targets: seq<PruneTarget>, force: bool, id: Id) {
    exists t :: t in targets && (force || t.kind == ChainUnit) && id in t.memberIds
  }

  /** The members of the chains of a plan, or with force of all its targets. */
  function MemberCount(targets: seq<PruneTarget>, force: bool): nat {
    if targets == [] then 0
    else
      var last := targets[|targets| - 1];
      MemberCount(targets[..|targets| - 1], force) + (if force || last.kind == ChainUnit then |last.memberIds| else 0)
  }

  lemma OrderMembers(ids: seq<Id>)
    ensures forall id :: id in DeleteOrder(ids) <==> id in ids
  {
    forall id | id in ids ensures id in DeleteOrder(ids) {
      var i :| 0 <= i < |ids| && ids[i] == id;
      assert DeleteOrder(ids)[|ids| - 1 - i] == id;
    }
  }

  lemma {:induction false} RunHolds(targets: seq<PruneTarget>, force: bool, id: Id)
    ensures id in DeleteIds(targets, force) <==> MayGo(targets, force, id)
    ensures |DeleteIds(targets, force)| == MemberCount(targets, force)
  {
    if targets != [] {
      var front, last := targets[..|targets| - 1], targets[|targets| - 1];
      FrontLast(targets);
      RunHolds(front, force, id);
      OrderMembers(last.memberIds);
      if MayGo(front, force, id) {
        var t :| t in front && (force || t.kind == ChainUnit) && id in t.memberIds;
        assert t in targets;
      }
      assert last in targets;
    }
  }

  lemma OnlyTheRunGoes(ids: seq<Id>, n: nat, f: File)
    requires n <= 4 * |ids|
    ensures f in DeletedAfter(ids, n) ==> f.id in ids
    ensures n == 4 * |ids| && f.id in ids ==> f in DeletedAfter(ids, n)
  {
    if f.id in ids && n == 4 * |ids| {
      var q :| 0 <= q < |ids| && ids[q] == f.id;
      var r := match f.kind case DataFile => 0 case ManifestSidecar => 1 case FileIndex => 2 case ManifestFile => 3;
      CallAt(ids, q, r);
    }
  }

  /** Deletes of what there was only what the plan allows, and on success all of that. */
  ghost predicate DeletesOnly(before: set<File>, after: set<File>, targets: seq<PruneTarget>, force: bool, all: bool) {
    && after <= before
    && (forall f :: f in before && f !in after ==> MayGo(targets, force, f.id))
    && (all ==> forall f :: f in before && MayGo(targets, force, f.id) ==> f !in after)
  }

  lemma RunDeletesOnly(before: set<File>, targets: seq<PruneTarget>, force: bool, n: nat)
    requires n <= 4 * |DeleteIds(targets, force)|
    ensures DeletesOnly(before, before - DeletedAfter(DeleteIds(targets, force), n), targets, force,
                        n == 4 * |DeleteIds(targets, force)|)
    ensures |DeleteIds(targets, force)| == MemberCount(targets, force)
  {
    var ids := DeleteIds(targets, force);
    RunHolds(targets, force, 0);
    forall f | f in before && f in DeletedAfter(ids, n) ensures MayGo(targets, force, f.id) {
      OnlyTheRunGoes(ids, n, f);
      RunHolds(targets, force, f.id);
    }
    if n == 4 * |ids| {
      forall f | f in before && MayGo(targets, force, f.id) ensures f in DeletedAfter(ids, n) {
        OnlyTheRunGoes(ids, n, f);
        RunHolds(targets, force, f.id);
      }
    }
  }

  lemma TargetDone(targets: seq<PruneTarget>, force: bool, i: nat)
    requires i < |targets|
    ensures StartOf(targets, force, i + 1)
            == StartOf(targets, force, i) + if Selected(targets[i], force) then |targets[i].memberIds| else 0
    ensures ChainCount(targets[..i + 1]) == ChainCount(targets[..i]) + if targets[i].kind == ChainUnit then 1 else 0
    ensures StartOf(targets, force, i + 1) <= |DeleteIds(targets, force)|
  {
    assert targets[..i + 1][..i] == targets[..i];
    DeleteIdsStep(targets, force, i);
    DeleteIdsPrefix(targets, force, i + 1);
  }

  /** Runs a plan.  Whatever fails, the files left are those before the first
      `n` deletions of the run; on success all of them were done.  Without force
      only members of chains are deleted. */
  method ExecutePrune(storage: Storage, plan: Plan, force: bool)
    returns (r: Result<PruneOutcome, PruneError>, ghost n: nat)
    modifies storage
    ensures n <= 4 * |DeleteIds(plan.targets, force)|
    ensures storage.files == old(storage.files) - DeletedAfter(DeleteIds(plan.targets, force), n)
    ensures r.Ok? ==>
              && n == 4 * |DeleteIds(plan.targets, force)|
              && r.value == PruneOutcome(MemberCount(plan.targets, force), ChainCount(plan.targets))
    ensures DeletesOnly(old(storage.files), storage.files, plan.targets, force, r.Ok?)
  {
    ghost var all, ids := storage.files, DeleteIds(plan.targets, force);
    var deletedBackups, deletedChains := 0, 0;
    for i := 0 to |plan.targets|
      invariant deletedBackups == StartOf(plan.targets, force, i)
      invariant deletedBackups <= |ids|
      invariant deletedChains == ChainCount(plan.targets[..i])
      invariant storage.files == all - DeletedAfter(ids, 4 * deletedBackups)
    {
      var target := plan.targets[i];
      TargetDone(plan.targets, force, i);
      if !force && target.kind != ChainUnit {
        continue;
      }
      var order := DeleteOrder(target.memberIds);
      OrderIsNext(plan.targets, force, i);
      var ok: bool;
      ok, n := DeleteMembers(storage, order, all, ids, deletedBackups);
      if !ok {
        RunDeletesOnly(all, plan.targets, force, n);
        return Err(DeleteFailed), n;
      }
      deletedBackups := deletedBackups + |order|;
      if target.kind == ChainUnit {
        deletedChains := deletedChains + 1;
      }
    }
    assert plan.targets[..|plan.targets|] == plan.targets;
    RunDeletesOnly(all, plan.targets, force, 4 * deletedBackups);
    return Ok(PruneOutcome(deletedBackups, deletedChains)), 4 * deletedBackups;
  }

  // ----- what is left after any number of deletions -----

  /** The backups whose manifest is among the first `k` deletions. */
  function Gone(ids: seq<Id>, k: nat): (r: set<Id>)
    requires k <= 4 * |ids|
    ensures forall id :: id in r <==> exists q :: 0 <= q < k / 4 && ids[q] == id
  {
    set q | 0 <= q < k / 4 :: ids[q]
  }

  /** A backup's manifest is deleted exactly when its whole block of deletions
      is done; any file of it, only when the block has begun. */
  lemma GoneMeansManifest(ids: seq<Id>, k: nat, id: Id)
    requires k <= 4 * |ids|
    ensures File(id, ManifestFile) in DeletedAfter(ids, k) <==> id in Gone(ids, k)
    ensures forall kind :: File(id, kind) in DeletedAfter(ids, k) ==>
              exists q :: 0 <= q < |ids| && ids[q] == id && 4 * q < k
  {
    if id in Gone(ids, k) {
      var q :| 0 <= q < k / 4 && ids[q] == id;
      CallAt(ids, q, 3);
    }
    forall kind | File(id, kind) in DeletedAfter(ids, k)
      ensures exists q :: 0 <= q < |ids| && ids[q] == id && 4 * q < k
      ensures kind == ManifestFile ==> id in Gone(ids, k)
    {
      var j :| 0 <= j < k && Call(ids, j) == File(id, kind);
      assert ids[j / 4] == id;
    }
  }

  ghost predicate IsDamaged(ids: seq<Id>, k: nat, id: Id)
    requires k <= 4 * |ids|
  {
    id !in Gone(ids, k) && exists kind :: File(id, kind) in DeletedAfter(ids, k)
  }

  /** At most one surviving manifest has lost a file: that of the backup being deleted. */
  lemma AtMostOneDamaged(ids: seq<Id>, k: nat, a: Id, b: Id)
    requires k <= 4 * |ids| && IsDamaged(ids, k, a) && IsDamaged(ids, k, b)
    ensures a == b
  {
    GoneMeansManifest(ids, k, a);
    GoneMeansManifest(ids, k, b);
    var p :| 0 <= p < |ids| && ids[p] == a && 4 * p < k;
    var q :| 0 <= q < |ids| && ids[q] == b && 4 * q < k;
    assert p >= k / 4 && q >= k / 4;
  }

  // ----- where a chain sits in the run -----

  ghost predicate NoRepeats(s: seq<Id>) {
    forall i, j :: 0 <= i < j < |s| ==> s[i] != s[j]
  }

  lemma OrderNoRepeats(s: seq<Id>)
    requires NoRepeats(s)
    ensures NoRepeats(DeleteOrder(s))
    ensures forall id :: id in DeleteOrder(s) <==> id in s
  {
    forall id ensures id in DeleteOrder(s) <==> id in s {
      if id in s {
        var i :| 0 <= i < |s| && s[i] == id;
        assert DeleteOrder(s)[|s| - 1 - i] == id;
      }
      if id in DeleteOrder(s) {
        var k :| 0 <= k < |s| && DeleteOrder(s)[k] == id;
        assert s[|s| - 1 - k] == id;
      }
    }
  }

  lemma {:induction false} RunCovers(targets: seq<PruneTarget>, force: bool)
    ensures forall id :: id in DeleteIds(targets, force) ==> exists i :: 0 <= i < |targets| && id in targets[i].memberIds
  {
    if targets != [] {
      var k := |targets| - 1;
      RunCovers(targets[..k], force);
      forall id | id in DeleteIds(targets, force) ensures exists i :: 0 <= i < |targets| && id in targets[i].memberIds {
        if id in DeleteIds(targets[..k], force) {
          var i :| 0 <= i < k && id in targets[..k][i].memberIds;
          assert targets[i] == targets[..k][i];
        } else {
          assert id in DeleteOrder(targets[k].memberIds);
          var q :| 0 <= q < |targets[k].memberIds| && DeleteOrder(targets[k].memberIds)[q] == id;
        }
      }
    }
  }

  lemma NoRepeatsAppend(a: seq<Id>, b: seq<Id>)
    requires NoRepeats(a) && NoRepeats(b) && forall id :: id in a ==> id !in b
    ensures NoRepeats(a + b)
  {
    forall i, j | 0 <= i < j < |a + b| ensures (a + b)[i] != (a + b)[j] {
      if i < |a| <= j {
        assert a[i] in a && b[j - |a|] in b;
      }
    }
  }

  lemma RestAvoidsLast(targets: seq<PruneTarget>, force: bool, id: Id)
    requires DisjointTargets(targets) && targets != [] && id in DeleteIds(targets[..|targets| - 1], force)
    ensures id !in targets[|targets| - 1].memberIds
  {
    var rest := targets[..|targets| - 1];
    RunCovers(rest, force);
    var i :| 0 <= i < |rest| && id in rest[i].memberIds;
    assert targets[i] == rest[i];
  }

  lemma {:induction false} RunNoRepeats(targets: seq<PruneTarget>, force: bool)
    requires DisjointTargets(targets)
    requires forall t :: t in targets ==> NoRepeats(t.memberIds)
    ensures NoRepeats(DeleteIds(targets, force))
  {
    if targets != [] {
      var k := |targets| - 1;
      var last, rest := targets[k], targets[..k];
      forall t | t in rest ensures t in targets {}
      RunNoRepeats(rest, force);
      assert last in targets;
      OrderNoRepeats(last.memberIds);
      forall id | id in DeleteIds(rest, force) ensures id !in last.memberIds {
        RestAvoidsLast(targets, force, id);
      }
      NoRepeatsAppend(DeleteIds(rest, force), DeleteOrder(last.memberIds));
      assert DeleteIds(rest, force) + [] == DeleteIds(rest, force);
    }
  }

  /** Member `m` of the selected target `i` is number `PlaceOf(..)` of the run. */
  function PlaceOf(targets: seq<PruneTarget>, force: bool, i: nat, m: nat): nat
    requires i < |targets| && m < |targets[i].memberIds|
  {
    StartOf(targets, force, i) + (|targets[i].memberIds| - 1 - m)
  }

  lemma PlaceInRun(targets: seq<PruneTarget>, force: bool, i: nat, m: nat)
    requires i < |targets| && Selected(targets[i], force) && m < |targets[i].memberIds|
    ensures IsAt(DeleteIds(targets, force), PlaceOf(targets, force, i, m), targets[i].memberIds[m])
  {
    OrderIsNext(targets, force, i);
    PlaceInPart(targets[i].memberIds, DeleteIds(targets, force), StartOf(targets, force, i), m);
  }

  predicate IsAt(ids: seq<Id>, p: nat, id: Id) {
    p < |ids| && ids[p] == id
  }

  lemma PlaceInPart(members: seq<Id>, ids: seq<Id>, start: nat, m: nat)
    requires ComesAt(DeleteOrder(members), ids, start) && m < |members|
    ensures IsAt(ids, start + (|members| - 1 - m), members[m])
  {
    var k := |members| - 1 - m;
    assert DeleteOrder(members)[k] == ids[start + k];
  }

  /** With no id twice in the run, a member is gone exactly when its place has been passed. */
  lemma GoneByPlace(targets: seq<PruneTarget>, force: bool, i: nat, m: nat, k: nat)
    requires NoRepeats(DeleteIds(targets, force)) && k <= 4 * |DeleteIds(targets, force)|
    requires i < |targets| && Selected(targets[i], force) && m < |targets[i].memberIds|
    ensures targets[i].memberIds[m] in Gone(DeleteIds(targets, force), k) <==> PlaceOf(targets, force, i, m) < k / 4
    ensures forall kind :: File(targets[i].memberIds[m], kind) in DeletedAfter(DeleteIds(targets, force), k) ==>
              4 * PlaceOf(targets, force, i, m) < k
  {
    PlaceInRun(targets, force, i, m);
    GoneMeansManifest(DeleteIds(targets, force), k, targets[i].memberIds[m]);
  }

  // ----- crash safety of a plan -----

  ghost predicate GoodStore(ms: seq<BackupManifest>, orphans: seq<Id>) {
    DistinctManifests(ms) && OrphansAreStrays(ms, orphans) && BasesAreComplete(ms)
  }

  lemma IncrementsNoRepeats(nodes: seq<ChainNode>, b: Id)
    requires DistinctIds(nodes)
    ensures NoRepeats(IdsOf(SortNodes(IncrementsOf(nodes, b))))
  {
    ChainStore.FilterDistinct(Pointing(b), nodes);
    SortDistinct(IncrementsOf(nodes, b));
  }

  /** The backups that running the planned targets deletes, in order. */
  function RunIds(ms: seq<BackupManifest>, orphans: seq<Id>, policy: RetentionPolicy, now: int, force: bool): seq<Id> {
    DeleteIds(PlanOf(ms, orphans, policy, now).targets, force)
  }

  lemma GroupNoRepeats(ms: seq<BackupManifest>, m: BackupManifest)
    requires DistinctManifests(ms) && m in ms && IsChainBase(m)
    ensures NoRepeats(GroupOf(ms, m).memberIds)
  {
    var incIds := IdsOf(SortNodes(IncrementsOf(NodesOf(ms), m.id)));
    assert GroupOf(ms, m).memberIds == [m.id] + incIds by { GroupHoldsItsChain(ms, m); }
    assert NoRepeats(incIds) by {
      FindInDistinct(ms, m);
      IncrementsNoRepeats(NodesOf(ms), m.id);
    }
    if m.id in incIds {
      IncrementIds(ms, m.id, m.id);
      var n :| n in ms && n.id == m.id && n.backupType == Incremental && n.baseId == Some(m.id);
      FindInDistinct(ms, n);
      FindInDistinct(ms, m);
    }
  }

  lemma SortDistinct(s: seq<ChainNode>)
    requires DistinctIds(s)
    ensures DistinctIds(SortNodes(s))
  {
    var r := SortNodes(s);
    forall i, j | 0 <= i < j < |r| ensures r[i].id != r[j].id {
      SortLength(s);
      assert r[i] in r && r[j] in r;
      if r[i].id == r[j].id {
        FindDistinct(s, r[i]);
        FindDistinct(s, r[j]);
        TwiceInMultiset(r, i, j);
        OnceInMultiset(s, r[i]);
      }
    }
  }

  lemma {:induction false} OnceInMultiset(s: seq<ChainNode>, n: ChainNode)
    requires DistinctIds(s)
    ensures multiset(s)[n] <= 1
  {
    if s != [] {
      OnceInMultiset(s[1..], n);
      HeadTail(s);
      if s[0] == n {
        assert n !in s[1..];
        assert n !in multiset(s[1..]);
      }
    }
  }

  lemma PlanNoRepeats(ms: seq<BackupManifest>, orphans: seq<Id>, policy: RetentionPolicy, now: int, force: bool)
    requires GoodStore(ms, orphans)
    ensures NoRepeats(RunIds(ms, orphans, policy, now, force))
    ensures forall id :: id in RunIds(ms, orphans, policy, now, force) ==>
              exists i :: 0 <= i < |PlanOf(ms, orphans, policy, now).targets|
                          && id in PlanOf(ms, orphans, policy, now).targets[i].memberIds
  {
    var targets := PlanOf(ms, orphans, policy, now).targets;
    TargetsAreDisjoint(ms, orphans, policy, now);
    forall t | t in targets ensures NoRepeats(t.memberIds) {
      TargetNoRepeats(ms, orphans, policy, now, t);
    }
    RunNoRepeats(targets, force);
    RunCovers(targets, force);
  }

  lemma TargetNoRepeats(ms: seq<BackupManifest>, orphans: seq<Id>, policy: RetentionPolicy, now: int, t: PruneTarget)
    requires GoodStore(ms, orphans) && t in PlanOf(ms, orphans, policy, now).targets
    ensures NoRepeats(t.memberIds)
  {
    var dropped := DroppedGroups(ms, policy, now);
    var a, b := ChainTargets(dropped), IncompleteTargets(ms, MemberSet(SortedGroups(ms)));
    var c := OrphanTargets(orphans);
    assert t in a || t in b || t in c;
    IncompleteKind(ms, MemberSet(SortedGroups(ms)));
    if t in a {
      var i :| 0 <= i < |a| && a[i] == t;
      KeptOrDropped(ms, policy, now);
      assert dropped[i] in dropped;
      SortedGroupsAre(ms);
      var m :| m in ms && IsChainBase(m) && dropped[i] == GroupOf(ms, m);
      GroupNoRepeats(ms, m);
    }
  }

  /** If any member of a chain is in the run, the chain is a target of it. */
  lemma ChainInRun(
      ms: seq<BackupManifest>, orphans: seq<Id>, policy: RetentionPolicy, now: int, force: bool,
      base: BackupManifest, id: Id)
    returns (i: nat)
    requires GoodStore(ms, orphans) && base in ms && IsChainBase(base)
    requires id in GroupOf(ms, base).memberIds && id in RunIds(ms, orphans, policy, now, force)
    ensures var targets := PlanOf(ms, orphans, policy, now).targets;
            i < |targets| && targets[i].kind == ChainUnit && targets[i].memberIds == GroupOf(ms, base).memberIds
  {
    var targets, own, s := PlanOf(ms, orphans, policy, now).targets, GroupOf(ms, base), SortedGroups(ms);
    PlanNoRepeats(ms, orphans, policy, now, force);
    i :| 0 <= i < |targets| && id in targets[i].memberIds;
    assert own in s by { SortedGroupsAre(ms); }
    var k :| 0 <= k < |s| && s[k] == own;
    TargetOf(ms, orphans, policy, now, targets[i], id);
    var g :| g in DroppedGroups(ms, policy, now) && targets[i] == PruneTarget(ChainUnit, g.baseId, g.memberIds);
    KeptOrDropped(ms, policy, now);
    ChainsAreDisjoint(ms, g, own, id);
  }

  lemma TargetLosesItsEnd(targets: seq<PruneTarget>, force: bool, t: nat, k: nat, p: nat, q: nat)
    requires NoRepeats(DeleteIds(targets, force)) && k <= 4 * |DeleteIds(targets, force)|
    requires t < |targets| && Selected(targets[t], force) && p <= q < |targets[t].memberIds|
    requires targets[t].memberIds[p] in Gone(DeleteIds(targets, force), k)
    ensures targets[t].memberIds[q] in Gone(DeleteIds(targets, force), k)
  {
    GoneByPlace(targets, force, t, p, k);
    GoneByPlace(targets, force, t, q, k);
  }

  lemma MemberIsShifted(members: seq<Id>, b: Id, s: seq<ChainNode>, i: nat)
    requires members == [b] + IdsOf(s) && i < |s|
    ensures |members| == |s| + 1 && members[i + 1] == s[i].id
  {
  }

  /** The target that a chain is, once any increment of it is in the run. */
  lemma TargetOfChain(
      ms: seq<BackupManifest>, orphans: seq<Id>, policy: RetentionPolicy, now: int, force: bool,
      b: Id, s: seq<ChainNode>, i: nat)
    returns (t: nat)
    requires GoodStore(ms, orphans) && s == SortNodes(IncrementsOf(NodesOf(ms), b)) && i < |s|
    requires s[i].id in RunIds(ms, orphans, policy, now, force)
    ensures var targets := PlanOf(ms, orphans, policy, now).targets;
            t < |targets| && targets[t].kind == ChainUnit && targets[t].memberIds == [b] + IdsOf(s)
  {
    var base := BaseOfChain(ms, orphans, b, s[i]);
    GroupHoldsItsChain(ms, base);
    MemberIsShifted([b] + IdsOf(s), b, s, i);
    t := ChainInRun(ms, orphans, policy, now, force, base, s[i].id);
  }

  lemma ChainTargetLosesItsEnd(
      targets: seq<PruneTarget>, force: bool, t: nat, k: nat, b: Id, s: seq<ChainNode>, i: nat, j: nat)
    requires NoRepeats(DeleteIds(targets, force)) && k <= 4 * |DeleteIds(targets, force)|
    requires t < |targets| && Selected(targets[t], force) && targets[t].memberIds == [b] + IdsOf(s)
    requires i < j < |s| && s[i].id in Gone(DeleteIds(targets, force), k)
    ensures s[j].id in Gone(DeleteIds(targets, force), k)
  {
    MemberIsShifted(targets[t].memberIds, b, s, i);
    MemberIsShifted(targets[t].memberIds, b, s, j);
    TargetLosesItsEnd(targets, force, t, k, i + 1, j + 1);
  }

  lemma GoneWasInRun(ids: seq<Id>, k: nat, id: Id)
    requires k <= 4 * |ids| && id in Gone(ids, k)
    ensures id in ids
  {
  }

  lemma LaterIsGoneToo(
      ms: seq<BackupManifest>, orphans: seq<Id>, policy: RetentionPolicy, now: int, force: bool, k: nat, b: Id,
      s: seq<ChainNode>, i: nat, j: nat)
    requires GoodStore(ms, orphans) && k <= 4 * |RunIds(ms, orphans, policy, now, force)|
    requires s == SortNodes(IncrementsOf(NodesOf(ms), b)) && i < j < |s|
    requires s[i].id in Gone(RunIds(ms, orphans, policy, now, force), k)
    ensures s[j].id in Gone(RunIds(ms, orphans, policy, now, force), k)
  {
    GoneWasInRun(RunIds(ms, orphans, policy, now, force), k, s[i].id);
    PlanNoRepeats(ms, orphans, policy, now, force);
    var t := TargetOfChain(ms, orphans, policy, now, force, b, s, i);
    ChainTargetLosesItsEnd(PlanOf(ms, orphans, policy, now).targets, force, t, k, b, s, i, j);
  }

  /** Of each chain, what is left when the run stops is a beginning of it. */
  lemma ChainLosesItsEnd(
      ms: seq<BackupManifest>, orphans: seq<Id>, policy: RetentionPolicy, now: int, force: bool, k: nat, b: Id)
    requires GoodStore(ms, orphans) && k <= 4 * |RunIds(ms, orphans, policy, now, force)|
    ensures ChainStore.GoneFromSomewhere(
              SortNodes(IncrementsOf(NodesOf(ms), b)), Gone(RunIds(ms, orphans, policy, now, force), k))
  {
    var s, gone := SortNodes(IncrementsOf(NodesOf(ms), b)), Gone(RunIds(ms, orphans, policy, now, force), k);
    forall i, j | 0 <= i < j < |s| && s[i].id in gone ensures s[j].id in gone {
      LaterIsGoneToo(ms, orphans, policy, now, force, k, b, s, i, j);
    }
  }

  lemma BaseOfChain(ms: seq<BackupManifest>, orphans: seq<Id>, b: Id, n: ChainNode) returns (base: BackupManifest)
    requires GoodStore(ms, orphans) && n in SortNodes(IncrementsOf(NodesOf(ms), b))
    ensures base in ms && IsChainBase(base) && base.id == b
  {
    var nodes := NodesOf(ms);
    SortLength(IncrementsOf(nodes, b));
    var q :| 0 <= q < |nodes| && nodes[q] == n;
    assert ms[q] in ms && ms[q].backupType == Incremental && ms[q].baseId == Some(b);
    base :| base in ms && base.id == b && IsChainBase(base);
  }

  /** While an increment's manifest is left, no file of its base has been deleted. */
  lemma BaseOutlivesIncrements(
      ms: seq<BackupManifest>, orphans: seq<Id>, policy: RetentionPolicy, now: int, force: bool, k: nat,
      n: BackupManifest)
    requires GoodStore(ms, orphans) && k <= 4 * |RunIds(ms, orphans, policy, now, force)|
    requires n in ms && n.backupType == Incremental && n.baseId.Some?
    ensures var ids := RunIds(ms, orphans, policy, now, force);
            n.id !in Gone(ids, k) ==> forall kind :: File(n.baseId.value, kind) !in DeletedAfter(ids, k)
  {
    var targets := PlanOf(ms, orphans, policy, now).targets;
    var ids := DeleteIds(targets, force);
    forall kind | n.id !in Gone(ids, k) ensures File(n.baseId.value, kind) !in DeletedAfter(ids, k) {
      if File(n.baseId.value, kind) in DeletedAfter(ids, k) {
        var base :| base in ms && base.id == n.baseId.value && IsChainBase(base);
        OwnGroup(ms, base, n);
        GroupHoldsItsChain(ms, base);
        GoneMeansManifest(ids, k, base.id);
        var t := ChainInRun(ms, orphans, policy, now, force, base, base.id);
        PlanNoRepeats(ms, orphans, policy, now, force);
        var m :| 0 <= m < |targets[t].memberIds| && targets[t].memberIds[m] == n.id;
        FindInDistinct(ms, n);
        FindInDistinct(ms, base);
        assert m > 0 && targets[t].memberIds[0] == base.id;
        GoneByPlace(targets, force, t, 0, k);
        GoneByPlace(targets, force, t, m, k);
      }
    }
  }

  /** Stopped anywhere, a run has taken ends of chains, each base only with its whole chain. */
  lemma PruneTakesEnds(
      ms: seq<BackupManifest>, orphans: seq<Id>, policy: RetentionPolicy, now: int, force: bool, k: nat)
    requires GoodStore(ms, orphans) && k <= 4 * |RunIds(ms, orphans, policy, now, force)|
    ensures ChainStore.TakesEnds(NodesOf(ms), Gone(RunIds(ms, orphans, policy, now, force), k))
  {
    var nodes, ids := NodesOf(ms), RunIds(ms, orphans, policy, now, force);
    forall b { ChainLosesItsEnd(ms, orphans, policy, now, force, k, b); }
    forall n | n in nodes && n.backupType == Incremental && n.baseId.Some? && n.baseId.value in Gone(ids, k)
      ensures n.id in Gone(ids, k)
    {
      var q :| 0 <= q < |nodes| && nodes[q] == n;
      assert ms[q] in ms;
      BaseOutlivesIncrements(ms, orphans, policy, now, force, k, ms[q]);
      GoneMeansManifest(ids, k, n.baseId.value);
    }
  }

  /** So a continuous chain stays continuous: the manifests left of it are a
      beginning of it, in chain order, as long as its base is left. */
  lemma PruneKeepsContinuity(
      ms: seq<BackupManifest>, orphans: seq<Id>, policy: RetentionPolicy, now: int, force: bool, k: nat, base: BackupManifest)
    requires GoodStore(ms, orphans) && k <= 4 * |RunIds(ms, orphans, policy, now, force)|
    requires base in ms && base.backupType == Full
    ensures var nodes, gone := NodesOf(ms), Gone(RunIds(ms, orphans, policy, now, force), k);
            var left := ChainStore.Without(nodes, gone);
            && SortNodes(IncrementsOf(left, base.id)) <= SortNodes(IncrementsOf(nodes, base.id))
            && (base.id !in gone && ChainReportOf(nodes, base.id).IsContinuous()
                ==> ChainReportOf(left, base.id).IsContinuous())
  {
    PruneTakesEnds(ms, orphans, policy, now, force, k);
    FindInDistinct(ms, base);
    FindDistinct(NodesOf(ms), NodeOf(base));
    ChainStore.DeleteLeavesPrefixes(
      NodesOf(ms), Gone(RunIds(ms, orphans, policy, now, force), k), base.id);
  }

  // ----- what a well-chained store gives -----

  lemma AddManifest(ms: seq<BackupManifest>, m: BackupManifest, nextId: Id)
    requires m.id == nextId && forall x :: x in ms ==> x.id < nextId
    ensures NodesOf(ms + [m]) == NodesOf(ms) + [NodeOf(m)]
    ensures IsFresh(NodesOf(ms), m.id)
  {
    NodesOfAppend(ms, m);
    var nodes := NodesOf(ms);
    forall n | n in nodes ensures n.id < m.id {
      var i :| 0 <= i < |nodes| && nodes[i] == n;
      assert ms[i] in ms;
    }
  }

  lemma StoreIsDistinct(ms: seq<BackupManifest>)
    requires IdsIncrease(NodesOf(ms))
    ensures DistinctManifests(ms)
  {
    forall i, j | 0 <= i < j < |ms| ensures ms[i].id != ms[j].id {
      assert NodesOf(ms)[i].id < NodesOf(ms)[j].id;
    }
  }

  lemma StoreIsGood(ms: seq<BackupManifest>, orphans: seq<Id>)
    requires WellChained(NodesOf(ms)) && OrphansAreStrays(ms, orphans)
    ensures GoodStore(ms, orphans)
  {
    var nodes := NodesOf(ms);
    StoreIsDistinct(ms);
    forall n | n in ms && n.backupType == Incremental && n.baseId.Some?
      ensures exists m :: m in ms && m.id == n.baseId.value && IsChainBase(m)
    {
      FindInDistinct(ms, n);
      assert HasBase(nodes, NodeOf(n));
      var f :| f in nodes && f.id == n.baseId.value && CanCarry(f) && f.id < n.id;
      var i :| 0 <= i < |nodes| && nodes[i] == f;
      assert ms[i] in ms;
    }
  }
}
