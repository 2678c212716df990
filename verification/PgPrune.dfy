/** The prune of a PostgreSQL store, as it is planned and run: stopped after any
    number of deletions, it is a prune of the runs. */
module PgPrune {
  import opened Schema
  import opened StableSort
  import opened Chain
  import opened PrunePlan
  import opened PruneLaws
  import opened PruneExec
  import ChainStore
  import PgCapture
  import PgRuns

  /** A prune that stops after `k` deletions. */
  ghost predicate StopsAfter(
      s: PgRuns.State, s': PgRuns.State, orphans: seq<Id>, policy: RetentionPolicy, now: int, force: bool, k: nat)
  {
    && OrphansAreStrays(s.store, orphans)
    && var ids := RunIds(s.store, orphans, policy, now, force);
    && k <= 4 * |ids|
    && s' == s.(store := WithoutManifests(s.store, Gone(ids, k)), lost := s.lost + LostAfter(s, ids, k))
  }

  /** The data that the first `k` deletions take. */
  ghost function LostAfter(s: PgRuns.State, ids: seq<Id>, k: nat): set<Id>
    requires k <= 4 * |ids|
  {
    set id | id in s.data && File(id, DataFile) in DeletedAfter(ids, k)
  }

  lemma PgStoreIsGood(ms: seq<BackupManifest>, orphans: seq<Id>)
    requires PgCapture.IdsAscend(ms) && PgRuns.BasesStored(ms) && OrphansAreStrays(ms, orphans)
    ensures GoodStore(ms, orphans)
  {
    forall n | n in ms && n.backupType == Incremental && n.baseId.Some?
      ensures exists m :: m in ms && m.id == n.baseId.value && IsChainBase(m)
    {
      assert PgRuns.HasBase(ms, n);
      var f :| f in ms && PgCapture.IsPgFull(f) && f.id == n.baseId.value;
      assert IsChainBase(f);
    }
  }

  ghost predicate AreSlices(ms: seq<BackupManifest>) {
    forall m :: m in ms && m.backupType == Incremental ==> PgRuns.IsPgSlice(m)
  }

  lemma {:induction false} ChainNodes(ms: seq<BackupManifest>, b: Id)
    requires AreSlices(ms)
    ensures IncrementsOf(NodesOf(ms), b) == NodesOf(Filter(PgCapture.Chained(b), ms))
  {
    if ms != [] {
      var front, last := ms[..|ms| - 1], ms[|ms| - 1];
      FrontLast(ms);
      assert last in ms && forall m :: m in front ==> m in ms;
      ChainNodes(front, b);
      NodesOfAppend(front, last);
      IncrementsAppend(NodesOf(front), NodeOf(last), b);
      NodesOfAppend(Filter(PgCapture.Chained(b), front), last);
    }
  }

  /** Chain order is id order. */
  lemma SortedChain(ms: seq<BackupManifest>, b: Id)
    requires AreSlices(ms) && PgCapture.IdsAscend(ms)
    ensures SortNodes(IncrementsOf(NodesOf(ms), b)) == NodesOf(Filter(PgCapture.Chained(b), ms))
  {
    var chain := Filter(PgCapture.Chained(b), ms);
    ChainNodes(ms, b);
    PgRuns.FilterAscends(PgCapture.Chained(b), ms);
    forall i | 0 <= i < |chain| ensures NodesOf(chain)[i].oplogRange.None? {
      assert chain[i] in ms;
    }
    SortOfOrdered(Before, NodesOf(chain));
  }

  lemma ChainLosesEnd(ms: seq<BackupManifest>, gone: set<Id>, b: Id)
    requires AreSlices(ms) && PgCapture.IdsAscend(ms) && ChainStore.TakesEnds(NodesOf(ms), gone)
    ensures PgRuns.GoneFromSomewhere(Filter(PgCapture.Chained(b), ms), gone)
  {
    SortedChain(ms, b);
    var chain, nodes := Filter(PgCapture.Chained(b), ms), SortNodes(IncrementsOf(NodesOf(ms), b));
    assert ChainStore.GoneFromSomewhere(nodes, gone);
    forall i, j | 0 <= i < j < |chain| && chain[i].id in gone ensures chain[j].id in gone {
      assert nodes[i].id == chain[i].id && nodes[j].id == chain[j].id;
    }
  }

  lemma BasesGoLast(ms: seq<BackupManifest>, gone: set<Id>, m: BackupManifest)
    requires ChainStore.TakesEnds(NodesOf(ms), gone) && m in ms && m.backupType == Incremental
    requires m.baseId.Some? && m.baseId.value in gone
    ensures m.id in gone
  {
    var i :| 0 <= i < |ms| && ms[i] == m;
    assert NodesOf(ms)[i] == NodeOf(m) && NodeOf(m) in NodesOf(ms);
  }

  lemma {:induction false} SameFilter(ms: seq<BackupManifest>, gone: set<Id>)
    ensures Filter(PgRuns.Stays(gone), ms) == WithoutManifests(ms, gone)
  {
    if ms != [] {
      SameFilter(ms[..|ms| - 1], gone);
    }
  }

  lemma SlicesInStore(ms: seq<BackupManifest>)
    requires PgRuns.BasesStored(ms)
    ensures AreSlices(ms)
  {
    forall m | m in ms && m.backupType == Incremental ensures PgRuns.IsPgSlice(m) {
      assert PgRuns.HasBase(ms, m);
    }
  }

  lemma EndsAreTaken(ms: seq<BackupManifest>, gone: set<Id>)
    requires AreSlices(ms) && PgCapture.IdsAscend(ms) && ChainStore.TakesEnds(NodesOf(ms), gone)
    ensures PgRuns.TakesChainEnds(ms, gone)
  {
    forall b: Id ensures PgRuns.GoneFromSomewhere(Filter(PgCapture.Chained(b), ms), gone) {
      ChainLosesEnd(ms, gone, b);
    }
    forall m | m in ms && m.backupType == Incremental && m.baseId.Some? && m.baseId.value in gone
      ensures m.id in gone
    {
      BasesGoLast(ms, gone, m);
    }
  }

  /** A prune as it is planned, stopped anywhere, is a prune of the runs: it takes ends
      of chains, and a base only with its whole chain. */
  lemma StoppedPruneIsAStep(
      s: PgRuns.State, s': PgRuns.State, orphans: seq<Id>, policy: RetentionPolicy, now: int, force: bool, k: nat)
    requires PgRuns.Inv(s) && StopsAfter(s, s', orphans, policy, now, force, k)
    ensures var ids := RunIds(s.store, orphans, policy, now, force);
            PgRuns.Prunes(s, s', Gone(ids, k), LostAfter(s, ids, k))
  {
    var gone := Gone(RunIds(s.store, orphans, policy, now, force), k);
    PgStoreIsGood(s.store, orphans);
    PruneTakesEnds(s.store, orphans, policy, now, force, k);
    SlicesInStore(s.store);
    EndsAreTaken(s.store, gone);
    SameFilter(s.store, gone);
  }
}
