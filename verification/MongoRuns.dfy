/** Runs of a MongoDB store: full and incremental backups, empty slices,
    promotions, abandoned uploads and prunes that may stop anywhere, against an
    oplog that grows and whose oldest entries are dropped at any time, also
    between an increment's gap check and its read.  Every run keeps every chain
    continuous; a restore is exact exactly when the slices that it replays are
    still there and missed nothing. */
module MongoRuns {
  import opened Schema
  import opened StableSort
  import opened Chain
  import opened ChainStore
  import opened Pitr
  import opened LateCapture
  import opened PrunePlan
  import opened PruneLaws
  import opened PruneExec

  // ----- where the next increment attaches -----

  datatype BaseSelection = BaseSelection(fullBaseId: Id, tipId: Id, lastBackupTs: OplogTimestamp)

  datatype NoBase = NoBackups | OnlySelective | OnlyIncomplete | NoOplogRange

  /** A manifest whose end the next increment may start from. */
  predicate IsUsableTip(ms: seq<BackupManifest>, m: BackupManifest) {
    && m.status == Complete && !m.selective && m.oplogRange.Some?
    && (m.backupType == Full
        || (m.baseId.Some?
            && var b := FindManifest(ms, m.baseId.value); b.Some? && IsChainBase(b.value) && !b.value.selective))
  }

  function SelectionOf(m: BackupManifest): BaseSelection
    requires m.oplogRange.Some? && (m.backupType == Full || m.baseId.Some?)
  {
    BaseSelection(if m.backupType == Full then m.id else m.baseId.value, m.id, m.oplogRange.value.end)
  }

  /** The newest usable manifest of a list in id order. */
  function NewestTip(all: seq<BackupManifest>, ms: seq<BackupManifest>): (r: Option<BackupManifest>)
    ensures r.Some? ==> r.value in ms && IsUsableTip(all, r.value)
  {
    if ms == [] then None
    else if IsUsableTip(all, ms[|ms| - 1]) then Some(ms[|ms| - 1])
    else NewestTip(all, ms[..|ms| - 1])
  }

  /** A complete, non-selective manifest with a range, whose full backup is there,
      complete and not selective. */
  ghost predicate CanBeExtended(ms: seq<BackupManifest>, m: BackupManifest) {
    && m.status == Complete && !m.selective && m.oplogRange.Some?
    && (m.backupType == Incremental ==>
          && m.baseId.Some?
          && var b := FindManifest(ms, m.baseId.value);
          b.Some? && b.value.backupType == Full && b.value.status == Complete && !b.value.selective)
  }

  /** The selection names the manifest at `i`, which no later one can replace. */
  ghost predicate IsSelected(ms: seq<BackupManifest>, i: nat, sel: BaseSelection) {
    && i < |ms| && CanBeExtended(ms, ms[i]) && (forall j :: i < j < |ms| ==> !CanBeExtended(ms, ms[j]))
    && sel.tipId == ms[i].id && sel.lastBackupTs == ms[i].oplogRange.value.end
    && Some(sel.fullBaseId) == if ms[i].backupType == Full then Some(ms[i].id) else ms[i].baseId
  }

  ghost predicate NamesNewest(ms: seq<BackupManifest>, sel: BaseSelection) {
    exists i :: IsSelected(ms, i, sel)
  }

  ghost predicate NoneExtended(ms: seq<BackupManifest>) {
    forall m :: m in ms ==> !CanBeExtended(ms, m)
  }

  ghost predicate IsNewest(all: seq<BackupManifest>, ms: seq<BackupManifest>, i: nat) {
    i < |ms| && CanBeExtended(all, ms[i]) && forall j :: i < j < |ms| ==> !CanBeExtended(all, ms[j])
  }

  lemma {:induction false} NewestIs(all: seq<BackupManifest>, ms: seq<BackupManifest>)
    ensures NewestTip(all, ms).None? ==> forall m :: m in ms ==> !CanBeExtended(all, m)
    ensures NewestTip(all, ms).Some? ==> exists i: nat :: IsNewest(all, ms, i) && NewestTip(all, ms) == Some(ms[i])
  {
    if ms != [] {
      var k := |ms| - 1;
      FrontLast(ms);
      NewestIs(all, ms[..k]);
      if CanBeExtended(all, ms[k]) {
        assert IsNewest(all, ms, k) && NewestTip(all, ms) == Some(ms[k]);
      } else if NewestTip(all, ms).Some? {
        var i: nat :| IsNewest(all, ms[..k], i) && NewestTip(all, ms[..k]) == Some(ms[..k][i]);
        NewestOfLonger(all, ms, i);
      }
    }
  }

  lemma NewestOfLonger(all: seq<BackupManifest>, ms: seq<BackupManifest>, i: nat)
    requires ms != [] && IsNewest(all, ms[..|ms| - 1], i) && !CanBeExtended(all, ms[|ms| - 1])
    ensures IsNewest(all, ms, i) && ms[..|ms| - 1][i] == ms[i]
  {
    forall j | i < j < |ms| ensures !CanBeExtended(all, ms[j]) {
      assert j < |ms| - 1 ==> ms[..|ms| - 1][j] == ms[j];
    }
  }

  lemma NoneIsSelected(ms: seq<BackupManifest>)
    requires NewestTip(ms, ms).None?
    ensures NoneExtended(ms)
  {
    NewestIs(ms, ms);
  }

  lemma SelectionIs(ms: seq<BackupManifest>)
    requires NewestTip(ms, ms).Some?
    ensures NamesNewest(ms, SelectionOf(NewestTip(ms, ms).value))
  {
    NewestIs(ms, ms);
    var i: nat :| IsNewest(ms, ms, i) && NewestTip(ms, ms) == Some(ms[i]);
    assert IsSelected(ms, i, SelectionOf(ms[i]));
  }

  /** `ms` lists the store in id order; the scan goes from the newest down. */
  method SelectBase(ms: seq<BackupManifest>) returns (r: Result<BaseSelection, NoBase>)
    ensures r.Ok? <==> NewestTip(ms, ms).Some?
    ensures r.Ok? ==> r.value == SelectionOf(NewestTip(ms, ms).value)
    ensures r.Ok? ==> NamesNewest(ms, r.value)
    ensures r.Err? ==> NoneExtended(ms)
    ensures r.Err? ==> r.error ==
                       if ms == [] then NoBackups
                       else if exists m :: m in ms && m.status == Complete && m.selective then OnlySelective
                       else if exists m :: m in ms && m.status == Incomplete then OnlyIncomplete
                       else NoOplogRange
  {
    var sawIncomplete, sawSelective := false, false;
    var k := |ms|;
    while k > 0
      invariant 0 <= k <= |ms|
      invariant NewestTip(ms, ms[..k]) == NewestTip(ms, ms[..|ms|])
      invariant sawSelective <==> exists i :: k <= i < |ms| && ms[i].status == Complete && ms[i].selective
      invariant sawIncomplete <==> exists i :: k <= i < |ms| && ms[i].status == Incomplete
    {
      assert ms[..k][..k - 1] == ms[..k - 1];
      k := k - 1;
      var m := ms[k];
      if m.status != Complete {
        sawIncomplete := true;
        continue;
      }
      if m.selective {
        sawSelective := true;
        continue;
      }
      if m.oplogRange.None? {
        continue;
      }
      if m.backupType == Incremental {
        if m.baseId.None? {
          continue;
        }
        var base := FindManifest(ms, m.baseId.value);
        if base.None? || !IsChainBase(base.value) || base.value.selective {
          continue;
        }
      }
      assert ms[..|ms|] == ms;
      SelectionIs(ms);
      return Ok(SelectionOf(m));
    }
    assert ms[..|ms|] == ms;
    NoneIsSelected(ms);
    if |ms| == 0 {
      return Err(NoBackups);
    } else if sawSelective {
      return Err(OnlySelective);
    } else if sawIncomplete {
      return Err(OnlyIncomplete);
    }
    return Err(NoOplogRange);
  }

  // ----- states and steps -----

  /** `log` is the whole history; the server retains `log[oldest..]`.  `pending` is
      what an increment has selected and checked, and not yet read.  `since` says
      where the retained log began when each slice was read.  `lost` holds the
      manifests whose data a stopped prune has deleted. */
  datatype State = State(
    log: seq<Entry>, oldest: nat, pending: Option<BaseSelection>, store: seq<BackupManifest>,
    data: map<Id, seq<Entry>>, since: map<Id, nat>, lost: set<Id>, nextId: Id)

  ghost predicate Init(s: State) {
    && s.log == [] && s.oldest == 0 && s.pending == None
    && s.store == [] && s.data == map[] && s.since == map[] && s.lost == {}
  }

  function LastTs(log: seq<Entry>): OplogTimestamp
    requires log != []
  {
    log[|log| - 1].ts
  }

  ghost predicate ServerWrites(s: State, s': State, entries: seq<Entry>) {
    Increasing(s.log + entries) && s' == s.(log := s.log + entries)
  }

  ghost predicate ServerDrops(s: State, s': State, oldest: nat) {
    s.oldest <= oldest <= |s.log| && s' == s.(oldest := oldest)
  }

  /** What a full backup records: a selective one, or one of a server without
      an oplog, records no range. */
  ghost predicate IsFullManifest(s: State, m: BackupManifest) {
    && m.id == s.nextId && m.backupType == Full && m.baseId == None && m.format == MongoArchive
    && m.oplogCount == None && m.status == Complete
    && (m.oplogRange.Some? ==>
          && !m.selective && s.log != []
          && m.oplogRange.value.start.Le(m.oplogRange.value.end) && m.oplogRange.value.end == LastTs(s.log))
  }

  /** A full backup, asked for or promoted from an increment. */
  ghost predicate TakesFull(s: State, s': State, m: BackupManifest) {
    s.pending == None && IsFullManifest(s, m) && s' == s.(store := s.store + [m], nextId := s.nextId + 1)
  }

  datatype GapCheck = NoGap | OplogEmpty | Gap

  function DetectGap(retained: seq<Entry>, last: OplogTimestamp): GapCheck {
    if retained == [] then OplogEmpty
    else if last.Lt(retained[0].ts) then Gap
    else NoGap
  }

  /** An increment may start exactly when the oldest entry that the server retains
      is not after the end of the last backup. */
  lemma GapCheckIs(retained: seq<Entry>, last: OplogTimestamp)
    ensures DetectGap(retained, last) == NoGap <==> retained != [] && retained[0].ts.Le(last)
    ensures DetectGap(retained, last) == OplogEmpty <==> retained == []
  {
  }

  /** The entries an increment captures; none when the bound is not past the last end. */
  function SliceEntries(retained: seq<Entry>, last: OplogTimestamp, upper: OplogTimestamp): seq<Entry> {
    if upper.Le(last) then [] else Captured(retained, last, upper)
  }

  function IncrementManifest(
      id: Id, created: Option<i64>, sel: BaseSelection, entries: seq<Entry>, upper: OplogTimestamp): BackupManifest
  {
    var end := if entries == [] then sel.lastBackupTs else upper;
    BackupManifest(id, created, Incremental, Some(sel.fullBaseId), MongoArchive, false,
                   Some(OplogRange(sel.lastBackupTs, end)), Some(|entries|), false, Complete)
  }

  /** The manifest of an increment spans from the last end to the bound, or nothing
      when nothing was captured, and counts what was. */
  lemma IncrementIs(id: Id, created: Option<i64>, sel: BaseSelection, entries: seq<Entry>, upper: OplogTimestamp)
    ensures var m := IncrementManifest(id, created, sel, entries, upper);
            && m.id == id && m.backupType == Incremental && m.baseId == Some(sel.fullBaseId) && m.format == MongoArchive
            && m.status == Complete && !m.selective && !m.promotedFromGap && m.oplogCount == Some(|entries|)
            && m.oplogRange.Some? && m.oplogRange.value.start == sel.lastBackupTs
            && (if |entries| > 0 then m.oplogRange.value.end == upper else m.oplogRange.value.end == sel.lastBackupTs)
  {
  }

  /** An increment selects its base and sees no gap. */
  ghost predicate StartsIncrement(s: State, s': State) {
    && s.pending == None && s.oldest <= |s.log|
    && var tip := NewestTip(s.store, s.store);
    && tip.Some?
    && DetectGap(s.log[s.oldest..], SelectionOf(tip.value).lastBackupTs) == NoGap
    && s' == s.(pending := Some(SelectionOf(tip.value)))
  }

  function PendingSlice(s: State, upper: OplogTimestamp): seq<Entry>
    requires s.pending.Some? && s.oldest <= |s.log|
  {
    SliceEntries(s.log[s.oldest..], s.pending.value.lastBackupTs, upper)
  }

  function IncrementOf(s: State, created: Option<i64>, upper: OplogTimestamp): BackupManifest
    requires s.pending.Some? && s.oldest <= |s.log|
  {
    IncrementManifest(s.nextId, created, s.pending.value, PendingSlice(s, upper), upper)
  }

  /** The increment then fixes its upper bound, reads what the server retains by
      now, and records it.  A bound fixed earlier is still no later than the last
      entry.  Data is written only when there is some. */
  ghost predicate TakesIncrement(s: State, s': State, created: Option<i64>, upper: OplogTimestamp) {
    && s.pending.Some? && s.oldest <= |s.log| && s.log != [] && upper.Le(LastTs(s.log))
    && var entries := PendingSlice(s, upper);
    && s' == s.(pending := None,
                store := s.store + [IncrementOf(s, created, upper)],
                data := if entries == [] then s.data else s.data[s.nextId := entries],
                since := s.since[s.nextId := s.oldest],
                nextId := s.nextId + 1)
  }

  /** An increment that fails, or whose cursor is lost, leaves nothing. */
  ghost predicate GivesUp(s: State, s': State) {
    s.pending.Some? && s' == s.(pending := None)
  }

  /** A backup that failed after its upload began and could not clean up. */
  ghost predicate AbandonsUpload(s: State, s': State, leftover: seq<Entry>) {
    s' == s.(pending := None, data := s.data[s.nextId := leftover], nextId := s.nextId + 1)
  }

  /** The manifests whose data file is among the first `k` deletions of a prune. */
  function DataGone(s: State, ids: seq<Id>, k: nat): set<Id>
    requires k <= 4 * |ids|
  {
    set id | id in s.data.Keys + s.lost + ManifestIds(s.store) && File(id, DataFile) in DeletedAfter(ids, k) :: id
  }

  /** A prune that stops after `k` deletions. */
  ghost predicate Prunes(
      s: State, s': State, orphans: seq<Id>, policy: RetentionPolicy, now: int, force: bool, k: nat)
  {
    && s.pending == None && OrphansAreStrays(s.store, orphans)
    && var ids := RunIds(s.store, orphans, policy, now, force);
    && k <= 4 * |ids|
    && var gone := Gone(ids, k);
    && var dataGone := DataGone(s, ids, k);
    && s' == s.(store := WithoutManifests(s.store, gone),
                data := s.data - dataGone,
                lost := s.lost + dataGone)
  }

  ghost predicate Next(s: State, s': State) {
    || (exists entries :: ServerWrites(s, s', entries))
    || (exists oldest :: ServerDrops(s, s', oldest))
    || (exists m :: TakesFull(s, s', m))
    || StartsIncrement(s, s')
    || GivesUp(s, s')
    || (exists created, upper :: TakesIncrement(s, s', created, upper))
    || (exists leftover :: AbandonsUpload(s, s', leftover))
    || (exists orphans, policy, now, force, k :: Prunes(s, s', orphans, policy, now, force, k))
  }

  ghost predicate IsRun(run: seq<State>) {
    && run != [] && Init(run[0])
    && forall i, j :: 0 <= i < |run| && j == i + 1 < |run| ==> Next(run[i], run[j])
  }

  // ----- the invariant -----

  /** A slice holds what the server retained when it was read, unless a prune took it. */
  ghost predicate SliceHolds(s: State, m: BackupManifest) {
    && m.oplogRange.Some? && m.id in s.since && s.since[m.id] <= |s.log|
    && var range := m.oplogRange.value;
       if m.oplogCount == Some(0) then range.start == range.end
       else
         && s.since[m.id] < |s.log|
         && (m.id !in s.lost ==> m.id in s.data)
         && (m.id in s.data ==> s.data[m.id] == Captured(s.log[s.since[m.id]..], range.start, range.end))
  }

  ghost predicate RangesArePast(s: State) {
    forall m :: m in s.store && m.oplogRange.Some? ==> s.log != [] && m.oplogRange.value.end.Le(LastTs(s.log))
  }

  ghost predicate SlicesHold(s: State) {
    forall m {:trigger SliceHolds(s, m)} :: m in s.store && m.backupType == Incremental ==> SliceHolds(s, m)
  }

  /** While an increment is under way nothing else changes the store. */
  ghost predicate PendingIsTip(s: State) {
    s.pending.Some? ==>
      NewestTip(s.store, s.store).Some? && s.pending == Some(SelectionOf(NewestTip(s.store, s.store).value))
  }

  ghost predicate DataIsKnown(s: State) {
    && (forall id :: id in s.data || id in s.lost ==> id < s.nextId)
    && (forall id :: id in s.data ==> id !in s.lost)
  }

  ghost predicate Inv(s: State) {
    && Increasing(s.log) && s.oldest <= |s.log|
    && (forall m :: m in s.store ==> m.id < s.nextId)
    && WellChained(NodesOf(s.store))
    && RangesArePast(s)
    && SlicesHold(s)
    && PendingIsTip(s)
    && DataIsKnown(s)
  }

  // ----- steps keep the invariant -----

  lemma {:induction false} WindowOfLonger(
      log: seq<Entry>, more: seq<Entry>, lo: OplogTimestamp, hi: OplogTimestamp, target: int)
    requires Increasing(log + more) && log != [] && hi.Le(LastTs(log))
    ensures Window(log + more, lo, hi, target) == Window(log, lo, hi, target)
    decreases |log|
  {
    if |log| == 1 {
      assert (log + more)[1..] == more && log[1..] == [];
      assert forall e :: e in more ==> log[0].ts.Lt(e.ts) by {
        assert (log + more)[1..] == more;
        LaterEntries(log + more);
      }
      WindowMembers(more, lo, hi, target);
      HasMember(Window(more, lo, hi, target));
    } else {
      assert (log + more)[1..] == log[1..] + more;
      IncreasingTail(log + more);
      WindowOfLonger(log[1..], more, lo, hi, target);
    }
  }

  lemma IncreasingTail(log: seq<Entry>)
    requires Increasing(log) && log != []
    ensures Increasing(log[1..])
  {
  }

  /** If the gap check would still pass when the slice is read, the slice is whole. */
  lemma CaptureFromRetained(log: seq<Entry>, oldest: nat, lo: OplogTimestamp, hi: OplogTimestamp)
    requires Increasing(log) && oldest <= |log| && DetectGap(log[oldest..], lo) == NoGap
    ensures Captured(log[oldest..], lo, hi) == Captured(log, lo, hi)
  {
    CaptureIsWhole(log, oldest, lo, hi);
    forall e | e in log[..oldest] ensures !lo.Lt(e.ts) {
      assert e.ts.Lt(log[oldest].ts);
    }
  }

  lemma SliceGrows(s: State, s': State, entries: seq<Entry>, m: BackupManifest)
    requires SliceHolds(s, m) && ServerWrites(s, s', entries)
    requires Increasing(s.log) && s.log != [] && m.oplogRange.value.end.Le(LastTs(s.log))
    ensures SliceHolds(s', m)
  {
    if m.oplogCount != Some(0) {
      var k := s.since[m.id];
      assert s'.log[k..] == s.log[k..] + entries;
      assert LastTs(s.log[k..]) == LastTs(s.log);
      WindowOfLonger(s.log[k..], entries, m.oplogRange.value.start, m.oplogRange.value.end, U32_MAX);
    }
  }

  lemma WritesKeepInv(s: State, s': State, entries: seq<Entry>)
    requires Inv(s) && ServerWrites(s, s', entries)
    ensures Inv(s')
  {
    forall m | m in s.store && m.backupType == Incremental ensures SliceHolds(s', m) {
      assert SliceHolds(s, m);
      SliceGrows(s, s', entries, m);
    }
    if s.log != [] {
      assert s'.log[|s.log| - 1] == s.log[|s.log| - 1];
      assert LastTs(s.log).Le(LastTs(s'.log));
    }
  }

  ghost predicate KeepsSlice(s: State, s': State, id: Id) {
    && (id in s.since ==> id in s'.since && s'.since[id] == s.since[id])
    && (id in s.data ==> id in s'.data && s'.data[id] == s.data[id])
    && (id !in s.data ==> id !in s'.data)
    && (id in s.lost <==> id in s'.lost)
  }

  lemma SliceStays(s: State, s': State, m: BackupManifest)
    requires SliceHolds(s, m) && s'.log == s.log && KeepsSlice(s, s', m.id)
    ensures SliceHolds(s', m)
  {
  }

  /** A step that leaves the store and its data as they are. */
  lemma QuietStepKeepsSlices(s: State, s': State)
    requires SlicesHold(s) && s'.log == s.log && s'.store == s.store
    requires forall m :: m in s.store ==> KeepsSlice(s, s', m.id)
    ensures SlicesHold(s')
  {
    forall m | m in s'.store && m.backupType == Incremental ensures SliceHolds(s', m) {
      assert SliceHolds(s, m);
      SliceStays(s, s', m);
    }
  }

  /** A new manifest that leaves the store well chained, and whose slice holds. */
  lemma AppendKeepsInv(s: State, s': State, m: BackupManifest)
    requires Inv(s) && s'.log == s.log && s'.oldest == s.oldest && s'.lost == s.lost && s'.pending == None
    requires m.id == s.nextId && s'.nextId == s.nextId + 1 && s'.store == s.store + [m]
    requires forall id :: id != m.id ==> KeepsSlice(s, s', id)
    requires WellChained(NodesOf(s.store) + [NodeOf(m)])
    requires m.oplogRange.Some? ==> s.log != [] && m.oplogRange.value.end.Le(LastTs(s.log))
    requires m.backupType == Incremental ==> SliceHolds(s', m)
    ensures Inv(s')
  {
    NodesOfAppend(s.store, m);
    assert RangesArePast(s');
    forall x | x in s'.store && x.backupType == Incremental ensures SliceHolds(s', x) {
      if x in s.store {
        assert SliceHolds(s, x);
        SliceStays(s, s', x);
      }
    }
    forall id | id in s'.data || id in s'.lost ensures id < s'.nextId && (id in s'.data ==> id !in s'.lost) {
      assert id != m.id ==> KeepsSlice(s, s', id);
      assert m.id !in s.lost;
    }
  }

  lemma FullKeepsInv(s: State, s': State, m: BackupManifest)
    requires Inv(s) && TakesFull(s, s', m)
    ensures Inv(s')
  {
    AddManifest(s.store, m, s.nextId);
    AppendFull(NodesOf(s.store), NodeOf(m));
    AppendKeepsInv(s, s', m);
  }

  /** In a well-chained store a manifest is a usable tip unless it is selective or has no range. */
  lemma UsableWhenRanged(ms: seq<BackupManifest>, m: BackupManifest)
    requires WellChained(NodesOf(ms)) && m in ms && !m.selective && m.oplogRange.Some?
    ensures IsUsableTip(ms, m)
  {
    var nodes := NodesOf(ms);
    StoreIsDistinct(ms);
    FindInDistinct(ms, m);
    if m.backupType == Incremental {
      assert HasBase(nodes, NodeOf(m));
      var f :| f in nodes && f.id == m.baseId.value && CanCarry(f) && f.id < m.id;
      var i :| 0 <= i < |nodes| && nodes[i] == f;
      FindInDistinct(ms, ms[i]);
    }
  }

  lemma {:induction false} NewestTipIsLast(all: seq<BackupManifest>, ms: seq<BackupManifest>)
    requires IdsIncrease(NodesOf(ms)) && NewestTip(all, ms).Some?
    ensures forall m :: m in ms && m.id > NewestTip(all, ms).value.id ==> !IsUsableTip(all, m)
  {
    var last, rest := ms[|ms| - 1], ms[..|ms| - 1];
    FrontLast(ms);
    forall m | m in rest ensures m.id < last.id {
      var i :| 0 <= i < |rest| && rest[i] == m;
      assert NodesOf(ms)[i].id < NodesOf(ms)[|ms| - 1].id;
    }
    if !IsUsableTip(all, last) {
      assert NodesOf(rest) == NodesOf(ms)[..|ms| - 1];
      NewestTipIsLast(all, rest);
    }
  }

  lemma LaterIsUnusable(ms: seq<BackupManifest>, m: BackupManifest)
    requires WellChained(NodesOf(ms)) && NewestTip(ms, ms).Some?
    requires m in ms && m.id > NewestTip(ms, ms).value.id
    ensures m.selective || m.oplogRange.None?
  {
    NewestTipIsLast(ms, ms);
    if !m.selective && m.oplogRange.Some? {
      UsableWhenRanged(ms, m);
    }
  }

  lemma SelectedIsTip(ms: seq<BackupManifest>)
    requires WellChained(NodesOf(ms)) && NewestTip(ms, ms).Some?
    ensures IsTip(NodesOf(ms), NodeOf(NewestTip(ms, ms).value))
  {
    var tip, nodes := NewestTip(ms, ms).value, NodesOf(ms);
    assert NodeOf(tip) in nodes by {
      StoreIsDistinct(ms);
      FindInDistinct(ms, tip);
    }
    forall n | n in nodes && n.id > tip.id ensures n.selective || n.oplogRange.None? {
      var i :| 0 <= i < |nodes| && nodes[i] == n;
      LaterIsUnusable(ms, ms[i]);
    }
  }

  /** The new increment starts where its chain ends. */
  lemma NextContinues(s: State, m: BackupManifest, sel: BaseSelection) returns (base: ChainNode)
    requires Inv(s) && NewestTip(s.store, s.store).Some? && sel == SelectionOf(NewestTip(s.store, s.store).value)
    requires m.id == s.nextId && IsProperIncrement(NodeOf(m)) && m.baseId == Some(sel.fullBaseId)
    requires m.oplogRange.value.start == sel.lastBackupTs
    ensures Continues(NodesOf(s.store), NodeOf(m), base) && base.id == sel.fullBaseId
  {
    var nodes, tip := NodesOf(s.store), NodeOf(NewestTip(s.store, s.store).value);
    SelectedIsTip(s.store);
    TipHasBase(nodes, tip);
    base :| base in nodes && base.id == BaseIdOf(tip) && CanCarry(base);
    TipIsHead(nodes, tip, base);
    AddManifest(s.store, m, s.nextId);
  }

  lemma IncrementAppends(s: State, s': State, created: Option<i64>, upper: OplogTimestamp)
    requires TakesIncrement(s, s', created, upper)
    ensures s.log != [] && s'.log == s.log && s'.oldest == s.oldest && s'.lost == s.lost && s'.nextId == s.nextId + 1
    ensures s'.store == s.store + [IncrementOf(s, created, upper)] && s'.pending == None
    ensures forall id :: id != s.nextId ==> KeepsSlice(s, s', id)
  {
  }

  lemma IncrementHolds(s: State, s': State, created: Option<i64>, upper: OplogTimestamp)
    requires TakesIncrement(s, s', created, upper) && DataIsKnown(s)
    requires s.pending.value.lastBackupTs.Le(LastTs(s.log))
    ensures var m := IncrementOf(s, created, upper);
            m.oplogRange.Some? && m.oplogRange.value.start.Le(m.oplogRange.value.end)
            && m.oplogRange.value.end.Le(LastTs(s.log)) && SliceHolds(s', m)
  {
    assert s.oldest == |s.log| ==> s.log[s.oldest..] == [];
  }

  /** The increment that a step takes, and the base it continues. */
  lemma IncrementTaken(s: State, s': State, created: Option<i64>, upper: OplogTimestamp)
    returns (m: BackupManifest, base: ChainNode)
    requires Inv(s) && TakesIncrement(s, s', created, upper)
    ensures m == IncrementOf(s, created, upper)
    ensures m.id == s.nextId && m.baseId == Some(base.id) && m.oplogRange.Some?
    ensures Continues(NodesOf(s.store), NodeOf(m), base)
    ensures s.log != [] && m.oplogRange.value.end.Le(LastTs(s.log)) && SliceHolds(s', m)
  {
    IncrementAppends(s, s', created, upper);
    IncrementHolds(s, s', created, upper);
    m := IncrementOf(s, created, upper);
    base := NextContinues(s, m, s.pending.value);
  }

  lemma IncrementKeepsInv(s: State, s': State, created: Option<i64>, upper: OplogTimestamp)
    requires Inv(s) && TakesIncrement(s, s', created, upper)
    ensures Inv(s')
  {
    IncrementAppends(s, s', created, upper);
    var m, base := IncrementTaken(s, s', created, upper);
    AddManifest(s.store, m, s.nextId);
    AppendIncrement(NodesOf(s.store), NodeOf(m), base);
    AppendKeepsInv(s, s', m);
  }

  /** A captured increment is the last of its chain in chain order. */
  lemma IncrementSortsLast(s: State, s': State, created: Option<i64>, upper: OplogTimestamp)
    requires Inv(s) && TakesIncrement(s, s', created, upper)
    ensures var m := s'.store[|s'.store| - 1];
            && m.id == s.nextId && m.baseId.Some?
            && SortNodes(IncrementsOf(NodesOf(s'.store), m.baseId.value))
               == SortNodes(IncrementsOf(NodesOf(s.store), m.baseId.value)) + [NodeOf(m)]
  {
    IncrementAppends(s, s', created, upper);
    var m, base := IncrementTaken(s, s', created, upper);
    AddManifest(s.store, m, s.nextId);
    AppendIncrement(NodesOf(s.store), NodeOf(m), base);
  }

  lemma DropsKeepInv(s: State, s': State, oldest: nat)
    requires Inv(s) && ServerDrops(s, s', oldest)
    ensures Inv(s')
  {
    QuietStepKeepsSlices(s, s');
  }

  lemma StartKeepsInv(s: State, s': State)
    requires Inv(s) && StartsIncrement(s, s')
    ensures Inv(s')
  {
    QuietStepKeepsSlices(s, s');
  }

  lemma GivingUpKeepsInv(s: State, s': State)
    requires Inv(s) && GivesUp(s, s')
    ensures Inv(s')
  {
    QuietStepKeepsSlices(s, s');
  }

  lemma UploadKeepsInv(s: State, s': State, leftover: seq<Entry>)
    requires Inv(s) && AbandonsUpload(s, s', leftover)
    ensures Inv(s')
  {
    QuietStepKeepsSlices(s, s');
  }

  lemma PruneKeepsSlices(s: State, s': State, gone: set<Id>)
    requires SlicesHold(s) && DataIsKnown(s) && s'.log == s.log && s'.since == s.since
    requires forall m :: m in s'.store ==> m in s.store
    requires s'.data == s.data - gone && s'.lost == s.lost + gone
    ensures SlicesHold(s')
  {
    forall m | m in s'.store && m.backupType == Incremental ensures SliceHolds(s', m) {
      assert SliceHolds(s, m);
    }
  }

  lemma PruneKeepsData(s: State, s': State, ids: seq<Id>, k: nat)
    requires DataIsKnown(s) && k <= 4 * |ids| && s'.nextId == s.nextId
    requires forall m :: m in s.store ==> m.id < s.nextId
    requires s'.data == s.data - DataGone(s, ids, k) && s'.lost == s.lost + DataGone(s, ids, k)
    ensures DataIsKnown(s')
  {
    assert forall id :: id in ManifestIds(s.store) ==> id < s.nextId;
  }

  lemma PruneKeepsInv(
      s: State, s': State, orphans: seq<Id>, policy: RetentionPolicy, now: int, force: bool, k: nat)
    requires Inv(s) && Prunes(s, s', orphans, policy, now, force, k)
    ensures Inv(s')
  {
    StoreIsGood(s.store, orphans);
    PruneTakesEnds(s.store, orphans, policy, now, force, k);
    var ids := RunIds(s.store, orphans, policy, now, force);
    DeleteEnds(NodesOf(s.store), Gone(ids, k));
    NodesWithout(s.store, Gone(ids, k));
    PruneKeepsSlices(s, s', DataGone(s, ids, k));
    PruneKeepsData(s, s', ids, k);
  }

  lemma NextKeepsInv(s: State, s': State)
    requires Inv(s) && Next(s, s')
    ensures Inv(s')
  {
    if entries :| ServerWrites(s, s', entries) {
      WritesKeepInv(s, s', entries);
    } else if oldest :| ServerDrops(s, s', oldest) {
      DropsKeepInv(s, s', oldest);
    } else if m :| TakesFull(s, s', m) {
      FullKeepsInv(s, s', m);
    } else if StartsIncrement(s, s') {
      StartKeepsInv(s, s');
    } else if GivesUp(s, s') {
      GivingUpKeepsInv(s, s');
    } else if created, upper :| TakesIncrement(s, s', created, upper) {
      IncrementKeepsInv(s, s', created, upper);
    } else if leftover :| AbandonsUpload(s, s', leftover) {
      UploadKeepsInv(s, s', leftover);
    } else {
      var orphans, policy, now, force, k :| Prunes(s, s', orphans, policy, now, force, k);
      PruneKeepsInv(s, s', orphans, policy, now, force, k);
    }
  }

  lemma RunBefore(run: seq<State>)
    requires IsRun(run) && |run| > 1
    ensures IsRun(run[..|run| - 1])
    ensures Next(run[|run| - 2], run[|run| - 1])
  {
  }

  lemma {:induction false} RunKeepsInv(run: seq<State>)
    requires IsRun(run)
    ensures Inv(run[|run| - 1])
    decreases |run|
  {
    if |run| > 1 {
      var k := |run| - 1;
      RunBefore(run);
      RunKeepsInv(run[..k]);
      NextKeepsInv(run[k - 1], run[k]);
    }
  }

  // ----- what every run gives -----

  /** After any run, every full backup with a range verifies as continuous, and
      every increment's base is a full backup in the store. */
  lemma EveryChainVerifies(run: seq<State>, f: ChainNode, n: ChainNode)
    requires IsRun(run)
    ensures var nodes := NodesOf(run[|run| - 1].store);
            && (f in nodes && CanCarry(f) ==> ChainReportOf(nodes, f.id).IsContinuous())
            && (n in nodes && n.backupType == Incremental ==>
                  n.baseId.Some? && exists b :: b in nodes && b.id == n.baseId.value && b.backupType == Full)
  {
    RunKeepsInv(run);
    var nodes := NodesOf(run[|run| - 1].store);
    if f in nodes && CanCarry(f) {
      WellChainedVerifies(nodes, f);
    }
    if n in nodes && n.backupType == Incremental {
      assert HasBase(nodes, n);
    }
  }

  lemma SlicesOfChain(s: State, f: ChainNode)
    requires Inv(s) && f in NodesOf(s.store) && CanCarry(f)
    ensures AllHoldSince(s.data, s.log, s.since, IncrementsOf(NodesOf(s.store), f.id))
    ensures forall n :: n in IncrementsOf(NodesOf(s.store), f.id) && !n.isEmptySlice ==> (n.id in s.data <==> n.id !in s.lost)
  {
    var nodes := NodesOf(s.store);
    forall n | n in IncrementsOf(nodes, f.id)
      ensures HoldsSince(s.data, s.log, s.since, n)
      ensures !n.isEmptySlice ==> (n.id in s.data <==> n.id !in s.lost)
    {
      assert IsProperIncrement(n);
      var i :| 0 <= i < |nodes| && nodes[i] == n;
      assert SliceHolds(s, s.store[i]);
      WindowEmpty(s.log, n.oplogRange.value.start, n.oplogRange.value.start, U32_MAX);
    }
  }

  /** The plan of a restore from base `f`. */
  function PlanFor(s: State, f: ChainNode, target: int): EndMapping
    requires f.oplogRange.Some?
  {
    EndMappingFrom(f.oplogRange.value.end, SortNodes(IncrementsOf(NodesOf(s.store), f.id)), target)
  }

  /** What the server did after base `f`, up to the end of its chain, in seconds
      at or before the target. */
  function HistoryFor(s: State, f: ChainNode, target: int): seq<Entry>
    requires f.oplogRange.Some?
  {
    var end := f.oplogRange.value.end;
    Window(s.log, end, ChainEnd(end, SortNodes(IncrementsOf(NodesOf(s.store), f.id))), target)
  }

  /** After any run, and for every base and target: the data to replay is there
      exactly when no slice that the plan replays is lost, and replaying it gives
      the server's history exactly when none of these slices missed an entry up to
      the target. */
  lemma EveryRestoreIsExact(run: seq<State>, f: ChainNode, target: int)
    requires IsRun(run) && f in NodesOf(run[|run| - 1].store) && CanCarry(f)
    ensures var s := run[|run| - 1];
            var m := PlanFor(s, f, target);
            && (HasData(s.data, m.replayIds) <==> forall id :: id in m.replayIds ==> id !in s.lost)
            && (HasData(s.data, m.replayIds) ==>
                  (Replayed(s.data, m) == HistoryFor(s, f, target)
                   <==> forall n :: n in IncrementsOf(NodesOf(s.store), f.id) && n.id in m.replayIds ==>
                          Missed(s.log, s.since, n, target) == []))
  {
    RunKeepsInv(run);
    var s := run[|run| - 1];
    var nodes := NodesOf(s.store);
    var incs, end, m := IncrementsOf(nodes, f.id), f.oplogRange.value.end, PlanFor(s, f, target);
    WellChainedVerifies(nodes, f);
    SlicesOfChain(s, f);
    WellChainedDistinct(nodes);
    FilterDistinct(Pointing(f.id), nodes);
    forall id | id in m.replayIds ensures id in s.data <==> id !in s.lost {
      var n := ReplayedNode(end, incs, target, id);
    }
    if HasData(s.data, m.replayIds) {
      ReplayIsExactMeansNothingMissed(s.data, s.log, s.since, end, incs, target);
    }
  }

  /** A stopped prune leaves at most one more manifest without its data. */
  lemma PruneLosesAtMostOne(
      s: State, s': State, orphans: seq<Id>, policy: RetentionPolicy, now: int, force: bool, k: nat,
      a: BackupManifest, b: BackupManifest)
    requires Prunes(s, s', orphans, policy, now, force, k)
    requires a in s'.store && b in s'.store && a.id in s'.lost - s.lost && b.id in s'.lost - s.lost
    ensures a.id == b.id
  {
    AtMostOneDamaged(RunIds(s.store, orphans, policy, now, force), k, a.id, b.id);
  }

  // ----- when every slice is whole -----

  /** Had it looked again, the increment would have seen no gap when it read its slice. */
  ghost predicate ReadsInTime(s: State, s': State) {
    s.pending.Some? && s'.store != s.store ==>
      s.oldest <= |s.log| && DetectGap(s.log[s.oldest..], s.pending.value.lastBackupTs) == NoGap
  }

  ghost predicate AlwaysReadsInTime(run: seq<State>) {
    forall i, j :: 0 <= i < |run| && j == i + 1 < |run| ==> ReadsInTime(run[i], run[j])
  }

  ghost predicate NothingMissed(s: State) {
    forall m :: m in s.store && m.backupType == Incremental ==> Missed(s.log, s.since, NodeOf(m), U32_MAX) == []
  }

  lemma NothingMissedStays(s: State, s': State)
    requires SlicesHold(s) && NothingMissed(s) && s.log <= s'.log && s'.since == s.since
    requires forall m :: m in s'.store && m.backupType == Incremental ==> m in s.store
    ensures NothingMissed(s')
  {
    forall m | m in s'.store && m.backupType == Incremental ensures Missed(s'.log, s'.since, NodeOf(m), U32_MAX) == [] {
      assert SliceHolds(s, m);
      assert s'.log[..s.since[m.id]] == s.log[..s.since[m.id]];
    }
  }

  lemma TakenInTime(s: State, s': State, created: Option<i64>, upper: OplogTimestamp)
    requires Inv(s) && NothingMissed(s) && TakesIncrement(s, s', created, upper) && ReadsInTime(s, s')
    ensures NothingMissed(s')
  {
    var last := s.pending.value.lastBackupTs;
    forall m | m in s'.store && m.backupType == Incremental ensures Missed(s'.log, s'.since, NodeOf(m), U32_MAX) == [] {
      if m in s.store {
        assert m.id < s.nextId;
        assert SliceHolds(s, m);
      } else {
        var end := m.oplogRange.value.end;
        CaptureFromRetained(s.log, s.oldest, last, end);
        WindowParts(s.log, s.oldest, last, end, U32_MAX);
        SameAfter(Captured(s.log[..s.oldest], last, end), Captured(s.log[s.oldest..], last, end));
      }
    }
  }

  lemma OtherStepsAddNoSlice(s: State, s': State)
    requires Next(s, s') && !exists created, upper :: TakesIncrement(s, s', created, upper)
    ensures s.log <= s'.log && s'.since == s.since
    ensures forall m :: m in s'.store && m.backupType == Incremental ==> m in s.store
  {
  }

  lemma StepInTime(s: State, s': State)
    requires Inv(s) && NothingMissed(s) && Next(s, s') && ReadsInTime(s, s')
    ensures NothingMissed(s')
  {
    if created, upper :| TakesIncrement(s, s', created, upper) {
      TakenInTime(s, s', created, upper);
    } else {
      OtherStepsAddNoSlice(s, s');
      NothingMissedStays(s, s');
    }
  }

  lemma {:induction false} RunInTime(run: seq<State>)
    requires IsRun(run) && AlwaysReadsInTime(run)
    ensures NothingMissed(run[|run| - 1])
    decreases |run|
  {
    if |run| > 1 {
      var k := |run| - 1;
      RunBefore(run);
      RunKeepsInv(run[..k]);
      RunInTime(run[..k]);
      StepInTime(run[k - 1], run[k]);
    }
  }

  /** When every increment reads before its gap check would fail, a restore is
      exact whenever the data that it replays is there. */
  lemma ReadInTimeRestoresExactly(run: seq<State>, f: ChainNode, target: int)
    requires IsRun(run) && AlwaysReadsInTime(run) && f in NodesOf(run[|run| - 1].store) && CanCarry(f)
    ensures var s, m := run[|run| - 1], PlanFor(run[|run| - 1], f, target);
            (forall id :: id in m.replayIds ==> id !in s.lost) ==>
              HasData(s.data, m.replayIds) && Replayed(s.data, m) == HistoryFor(s, f, target)
  {
    var s := run[|run| - 1];
    var nodes := NodesOf(s.store);
    RunInTime(run);
    EveryRestoreIsExact(run, f, target);
    forall n | n in IncrementsOf(nodes, f.id) ensures Missed(s.log, s.since, n, target) == [] {
      var i :| 0 <= i < |nodes| && nodes[i] == n;
      assert Missed(s.log, s.since, NodeOf(s.store[i]), U32_MAX) == [];
      MissedEarlier(s.log, s.since, n, target);
    }
  }

  lemma MissedEarlier(log: seq<Entry>, since: map<Id, nat>, n: ChainNode, target: int)
    requires Missed(log, since, n, U32_MAX) == []
    ensures Missed(log, since, n, target) == []
  {
    if n.id in since && since[n.id] <= |log| && n.oplogRange.Some? {
      var early, range := log[..since[n.id]], n.oplogRange.value;
      WindowMembers(early, range.start, range.end, target);
      WindowMembers(early, range.start, range.end, U32_MAX);
      HasMember(Window(early, range.start, range.end, target));
    }
  }
}
