/** File backups: each increment stores what changed against the index of the
    chain head, and a restore replays base and increments.  After any run, restoring
    any backup into an empty target gives the tree that was backed up, up to the
    times that unpacking does not keep. */
module FileChain {
  import opened Schema
  import opened StableSort
  import opened Chain
  import opened ChainStore
  import opened PrunePlan
  import opened PruneLaws
  import opened PruneExec

  // ----- trees, indexes and slices -----

  datatype EntryKind = RegularFile | Directory | Symlink

  /** What the index keeps of an entry; times are in nanoseconds. */
  datatype IndexEntry = IndexEntry(kind: EntryKind, size: nat, mtime: int, mode: nat, link: Option<string>)

  datatype TreeEntry = TreeEntry(meta: IndexEntry, content: seq<int>)

  type Path = string
  type Tree = map<Path, TreeEntry>
  type Index = map<Path, IndexEntry>

  function IndexOf(t: Tree): Index {
    map p | p in t :: t[p].meta
  }

  datatype IndexDiff = IndexDiff(changed: set<Path>, deleted: set<Path>) {
    predicate IsEmpty() { changed == {} && deleted == {} }
    function Count(): nat { |changed| + |deleted| }
  }

  function DiffFrom(cur: Index, prev: Index): IndexDiff {
    var changed := set p | p in cur && (p !in prev || prev[p] != cur[p]);
    IndexDiff(changed, prev.Keys - cur.Keys)
  }

  /** An archive: its tombstones come before its entries. */
  datatype Archive = Archive(deleted: set<Path>, entries: Tree)

  function FullArchive(t: Tree): Archive {
    Archive({}, t)
  }

  function SliceArchive(t: Tree, diff: IndexDiff): Archive {
    Archive(diff.deleted, map p | p in t && p in diff.changed :: t[p])
  }

  /** `q` is `p` or lies below it. */
  predicate IsUnder(q: Path, p: Path) {
    q == p || (p <= q && |p| < |q| && q[|p|] == '/')
  }

  const NANOSECONDS := 1_000_000_000

  /** A header holds the time of a file in whole seconds.  The times of restored
      directories and links are not kept track of: writing into a directory
      changes its time, and the entries of a directory are unpacked after it. */
  function UnpackedTime(meta: IndexEntry): int {
    if meta.kind == RegularFile then meta.mtime / NANOSECONDS * NANOSECONDS else 0
  }

  /** What unpacking leaves of an archived tree. */
  function Unpacked(t: Tree): Tree {
    map p | p in t :: t[p].(meta := t[p].meta.(mtime := UnpackedTime(t[p].meta)))
  }

  /** A tombstone removes a whole directory; an entry overwrites what is there. */
  function Unpack(target: Tree, a: Archive): Tree {
    (map q | q in target && (forall p :: p in a.deleted ==> !IsUnder(q, p)) :: target[q]) + Unpacked(a.entries)
  }

  /** The directories above an entry are entries too. */
  ghost predicate IsProperTree(t: Tree) {
    forall q, p :: q in t && IsUnder(q, p) ==> p in t
  }

  /** No entry keeps its metadata while its content changes. */
  ghost predicate NoForgedMetadata(prev: Tree, cur: Tree) {
    forall q :: SameMeta(prev, cur, q) ==> prev[q].content == cur[q].content
  }

  function Delta(prev: Tree, cur: Tree): Archive {
    SliceArchive(cur, DiffFrom(IndexOf(cur), IndexOf(prev)))
  }

  predicate SameMeta(prev: Tree, cur: Tree, q: Path) {
    q in prev && q in cur && prev[q].meta == cur[q].meta
  }

  lemma DeltaAt(prev: Tree, cur: Tree, q: Path)
    requires IsProperTree(cur)
    ensures var got := Unpack(Unpacked(prev), Delta(prev, cur));
            && (q in got <==> q in cur)
            && (q in cur ==> got[q] == if SameMeta(prev, cur, q) then Unpacked(prev)[q] else Unpacked(cur)[q])
  {
    var a := Delta(prev, cur);
    assert q in a.entries <==> q in cur && !SameMeta(prev, cur, q);
    if q in prev && q !in cur {
      assert q in a.deleted && IsUnder(q, q);
    }
  }

  lemma UnpackedAt(t: Tree, q: Path)
    requires q in t
    ensures q in Unpacked(t) && Unpacked(t)[q].content == t[q].content
  {
  }

  lemma DeltaRestores(prev: Tree, cur: Tree)
    requires IsProperTree(cur) && NoForgedMetadata(prev, cur)
    ensures Unpack(Unpacked(prev), Delta(prev, cur)) == Unpacked(cur)
  {
    var got := Unpack(Unpacked(prev), Delta(prev, cur));
    forall q ensures q in got <==> q in Unpacked(cur) {
      DeltaAt(prev, cur, q);
    }
    forall q | q in Unpacked(cur) ensures got[q] == Unpacked(cur)[q] {
      DeltaAt(prev, cur, q);
      if SameMeta(prev, cur, q) {
        assert prev[q] == cur[q];
      }
    }
  }

  lemma ForgedStaysOld(prev: Tree, cur: Tree, q: Path)
    requires IsProperTree(cur) && SameMeta(prev, cur, q) && prev[q].content != cur[q].content
    ensures Unpack(Unpacked(prev), Delta(prev, cur)) != Unpacked(cur)
  {
    DeltaAt(prev, cur, q);
    UnpackedAt(prev, q);
    UnpackedAt(cur, q);
  }

  /** A delta over what was restored of the previous tree gives what a restore of
      the current one gives, exactly when no content changed under unchanged metadata. */
  lemma DeltaIsExact(prev: Tree, cur: Tree)
    requires IsProperTree(cur)
    ensures Unpack(Unpacked(prev), Delta(prev, cur)) == Unpacked(cur) <==> NoForgedMetadata(prev, cur)
  {
    if NoForgedMetadata(prev, cur) {
      DeltaRestores(prev, cur);
    } else {
      var q :| SameMeta(prev, cur, q) && prev[q].content != cur[q].content;
      ForgedStaysOld(prev, cur, q);
    }
  }

  /** An empty difference means equal trees, under the same condition. */
  lemma EmptyDiffIsSameTree(prev: Tree, cur: Tree)
    requires DiffFrom(IndexOf(cur), IndexOf(prev)).IsEmpty() && NoForgedMetadata(prev, cur)
    ensures prev == cur
  {
    var diff := DiffFrom(IndexOf(cur), IndexOf(prev));
    forall q ensures q in prev <==> q in cur {
      assert q !in diff.changed && q !in diff.deleted;
    }
    forall q | q in cur ensures prev[q] == cur[q] {
      assert q !in diff.changed && SameMeta(prev, cur, q);
    }
  }

  // ----- the head of the chain -----

  const CHAIN_START: OplogTimestamp := OplogTimestamp(1, 0)

  predicate IsFileFull(m: BackupManifest) {
    m.backupType == Full && m.status == Complete && m.format == FileTar
  }

  predicate InChain(m: BackupManifest, baseId: Id) {
    && m.backupType == Incremental && m.status == Complete && m.baseId == Some(baseId)
    && m.format == FileIncr && m.oplogRange.Some?
  }

  datatype FileChainHead = FileChainHead(baseId: Id, headId: Id, headGen: u32)

  predicate IsAhead(gen: u32, id: Id, head: FileChainHead) {
    gen > head.headGen || (gen == head.headGen && id > head.headId)
  }

  ghost predicate IsHead(ms: seq<BackupManifest>, head: FileChainHead) {
    && (exists b :: b in ms && IsFileFull(b) && b.id == head.baseId)
    && (forall b :: b in ms && IsFileFull(b) ==> b.id <= head.baseId)
    && (|| (head.headId == head.baseId && head.headGen == CHAIN_START.t)
        || (exists m :: m in ms && InChain(m, head.baseId) && m.id == head.headId
                        && m.oplogRange.value.end.t == head.headGen))
    && (forall m :: m in ms && InChain(m, head.baseId) ==> !IsAhead(m.oplogRange.value.end.t, m.id, head))
  }

  method NewestFileFull(ms: seq<BackupManifest>) returns (base: Option<BackupManifest>)
    ensures base.None? <==> forall m :: m in ms ==> m.backupType != Full || m.status != Complete || m.format != FileTar
    ensures base.Some? ==>
              && base.value in ms && base.value.backupType == Full && base.value.status == Complete
              && base.value.format == FileTar
              && forall m :: (m in ms && m.backupType == Full && m.status == Complete && m.format == FileTar) ==>
                   m.id <= base.value.id
  {
    base := None;
    for k := 0 to |ms|
      invariant base.None? ==> forall i :: 0 <= i < k ==> !IsFileFull(ms[i])
      invariant base.Some? ==> base.value in ms && IsFileFull(base.value)
      invariant base.Some? ==> forall i :: 0 <= i < k && IsFileFull(ms[i]) ==> ms[i].id <= base.value.id
    {
      if IsFileFull(ms[k]) && (base.None? || ms[k].id > base.value.id) {
        base := Some(ms[k]);
      }
    }
  }

  /** A complete file increment of `b`, with a range. */
  ghost predicate IsSliceOf(m: BackupManifest, b: Id) {
    && m.backupType == Incremental && m.status == Complete && m.format == FileIncr
    && m.baseId == Some(b) && m.oplogRange.Some?
  }

  method CollectFileChain(ms: seq<BackupManifest>) returns (head: Option<FileChainHead>)
    ensures head.None? <==> forall m :: m in ms ==> m.backupType != Full || m.status != Complete || m.format != FileTar
    ensures head.Some? ==> IsHead(ms, head.value)
    ensures head.Some? ==>
              exists b :: b in ms && b.backupType == Full && b.status == Complete && b.format == FileTar
                          && b.id == head.value.baseId
    ensures head.Some? ==>
              forall b :: (b in ms && b.backupType == Full && b.status == Complete && b.format == FileTar) ==>
                            b.id <= head.value.baseId
    ensures head.Some? ==>
              forall m :: m in ms && IsSliceOf(m, head.value.baseId) ==>
                            var gen := m.oplogRange.value.end.t;
                            gen < head.value.headGen || (gen == head.value.headGen && m.id <= head.value.headId)
    ensures head.Some? ==>
              || (head.value.headId == head.value.baseId && head.value.headGen == 1)
              || (exists m :: m in ms && IsSliceOf(m, head.value.baseId) && m.id == head.value.headId
                              && m.oplogRange.value.end.t == head.value.headGen)
  {
    var base := NewestFileFull(ms);
    if base.None? {
      return None;
    }
    var baseId := base.value.id;
    var h := FileChainHead(baseId, baseId, CHAIN_START.t);
    for k := 0 to |ms|
      invariant h.baseId == baseId
      invariant (h.headId == baseId && h.headGen == CHAIN_START.t)
                || (exists m :: m in ms && InChain(m, baseId) && m.id == h.headId && m.oplogRange.value.end.t == h.headGen)
      invariant forall i :: 0 <= i < k && InChain(ms[i], baseId) ==> !IsAhead(ms[i].oplogRange.value.end.t, ms[i].id, h)
    {
      var m := ms[k];
      if InChain(m, baseId) {
        var gen := m.oplogRange.value.end.t;
        if gen > h.headGen || (gen == h.headGen && m.id > h.headId) {
          assert m in ms;
          h := FileChainHead(baseId, m.id, gen);
        }
      }
    }
    return Some(h);
  }

  // ----- restoring -----

  datatype RestoreError = NoSuchBackup | NamesNoBase | ChainNotContinuous | NotInChain | DataMissing

  function RestoreIds(ms: seq<BackupManifest>, archives: map<Id, Archive>, ids: seq<Id>): Result<Tree, RestoreError> {
    if ids == [] then Ok(map[])
    else
      var before := RestoreIds(ms, archives, ids[..|ids| - 1]);
      var id := ids[|ids| - 1];
      var m := FindManifest(ms, id);
      if before.Err? then before
      else if m.None? then Err(NoSuchBackup)
      else if m.value.oplogCount == Some(0) then before
      else if id !in archives then Err(DataMissing)
      else Ok(Unpack(before.value, archives[id]))
  }

  function IsFileManifest(): BackupManifest -> bool {
    (m: BackupManifest) => m.format == FileTar || m.format == FileIncr
  }

  function PositionOf(ids: seq<Id>, id: Id): (r: Option<nat>)
    ensures r.Some? ==> r.value < |ids| && ids[r.value] == id
    ensures r.None? ==> id !in ids
  {
    if ids == [] then None
    else if ids[|ids| - 1] == id && PositionOf(ids[..|ids| - 1], id).None? then Some(|ids| - 1)
    else PositionOf(ids[..|ids| - 1], id)
  }

  function PathInReport(report: ChainReport, b: Id, id: Id): Result<seq<Id>, RestoreError> {
    if !report.IsContinuous() then Err(ChainNotContinuous)
    else
      var pos := PositionOf(report.incrementalIds, id);
      if pos.None? then Err(NotInChain)
      else Ok([b] + report.incrementalIds[..pos.value + 1])
  }

  /** The backups that restoring `id` replays, in order. */
  function RestorePath(ms: seq<BackupManifest>, id: Id): Result<seq<Id>, RestoreError> {
    var m := FindManifest(ms, id);
    if m.None? then Err(NoSuchBackup)
    else if m.value.backupType == Full then Ok([id])
    else if m.value.baseId.None? then Err(NamesNoBase)
    else
      var b := m.value.baseId.value;
      PathInReport(ChainReportOf(FileNodes(ms), b), b, id)
  }

  function RestoreOf(ms: seq<BackupManifest>, archives: map<Id, Archive>, id: Id): Result<Tree, RestoreError> {
    match RestorePath(ms, id)
    case Ok(ids) => RestoreIds(ms, archives, ids)
    case Err(e) => Err(e)
  }

  // ----- what is refused -----

  /** The nodes of the file backups of a store. */
  function FileNodes(ms: seq<BackupManifest>): seq<ChainNode> {
    NodesOf(Filter(IsFileManifest(), ms))
  }

  /** Backups of other engines do not count. */
  lemma FileNodesAre(ms: seq<BackupManifest>, n: ChainNode)
    ensures n in FileNodes(ms) <==> exists m :: m in ms && (m.format == FileTar || m.format == FileIncr) && NodeOf(m) == n
  {
    var files := Filter(IsFileManifest(), ms);
    if n in FileNodes(ms) {
      var i :| 0 <= i < |files| && FileNodes(ms)[i] == n;
      assert files[i] in files;
    }
    if m :| m in ms && (m.format == FileTar || m.format == FileIncr) && NodeOf(m) == n {
      assert m in files;
      var i :| 0 <= i < |files| && files[i] == m;
      assert FileNodes(ms)[i] == n;
    }
  }

  /** The full backup that `b` leads to: itself, or the base that it names. */
  function BaseNode(nodes: seq<ChainNode>, b: Id): Option<ChainNode> {
    var t := FindNode(nodes, b);
    if t.None? || t.value.backupType == Full then t
    else if t.value.baseId.None? then None
    else FindNode(nodes, t.value.baseId.value)
  }

  function ChainOf(nodes: seq<ChainNode>, base: ChainNode): seq<ChainNode> {
    SortNodes(IncrementsOf(nodes, base.id))
  }

  /** The increments may be replayed: their base is there and they form its chain. */
  ghost predicate IsReplayable(nodes: seq<ChainNode>, b: Id) {
    var base := BaseNode(nodes, b);
    base.Some? && IsChain(base.value, ChainOf(nodes, base.value))
  }

  ghost predicate IsListed(nodes: seq<ChainNode>, b: Id, id: Id) {
    var base := BaseNode(nodes, b);
    base.Some? && exists n :: n in ChainOf(nodes, base.value) && n.id == id
  }

  /** When restoring `id` is refused, and why. */
  ghost predicate IsRefused(ms: seq<BackupManifest>, id: Id, e: RestoreError) {
    var m := FindManifest(ms, id);
    if m.None? then e == NoSuchBackup
    else if m.value.backupType == Full then false
    else if m.value.baseId.None? then e == NamesNoBase
    else if !IsReplayable(FileNodes(ms), m.value.baseId.value) then e == ChainNotContinuous
    else if !IsListed(FileNodes(ms), m.value.baseId.value, id) then e == NotInChain
    else false
  }

  /** `path` is the base `b` and the chain up to its first node of the id. */
  ghost predicate IsChainPath(b: Id, chain: seq<ChainNode>, id: Id, path: seq<Id>) {
    && 2 <= |path| <= |chain| + 1 && path[0] == b && path[|path| - 1] == id
    && (forall i :: 0 <= i < |path| - 1 ==> path[i + 1] == chain[i].id)
    && (forall i :: 0 <= i < |path| - 2 ==> chain[i].id != id)
  }

  /** A full backup alone, or the base and the chain up to the first node of the id. */
  ghost predicate IsPathTo(ms: seq<BackupManifest>, id: Id, path: seq<Id>) {
    var m := FindManifest(ms, id);
    && m.Some?
    && if m.value.backupType == Full then path == [id]
       else
         && m.value.baseId.Some?
         && var b, nodes := m.value.baseId.value, FileNodes(ms);
         && IsReplayable(nodes, b)
         && IsChainPath(b, ChainOf(nodes, BaseNode(nodes, b).value), id, path)
  }

  lemma {:induction false} FirstPosition(ids: seq<Id>, id: Id)
    ensures PositionOf(ids, id).None? <==> id !in ids
    ensures PositionOf(ids, id).Some? ==> forall i :: 0 <= i < PositionOf(ids, id).value ==> ids[i] != id
  {
    if ids != [] {
      FrontLast(ids);
      FirstPosition(ids[..|ids| - 1], id);
    }
  }

  lemma IdsListed(s: seq<ChainNode>, id: Id)
    ensures id in IdsOf(s) <==> exists n :: n in s && n.id == id
  {
    if n :| n in s && n.id == id {
      var i :| 0 <= i < |s| && s[i] == n;
      assert IdsOf(s)[i] == id;
    }
    if id in IdsOf(s) {
      var i :| 0 <= i < |s| && IdsOf(s)[i] == id;
      assert s[i] in s;
    }
  }

  lemma LeadsToBase(nodes: seq<ChainNode>, b: Id)
    ensures var r, base := ResolveBase(FindNode(nodes, b)), BaseNode(nodes, b);
            if base.Some? then r == Base(base.value.id) && FindNode(nodes, base.value.id) == base
            else !r.Base? || FindNode(nodes, r.id).None?
  {
  }

  /** A report is continuous exactly when the increments may be replayed, and lists them. */
  lemma ReportOfChain(nodes: seq<ChainNode>, b: Id)
    ensures ChainReportOf(nodes, b).IsContinuous() == IsReplayable(nodes, b)
    ensures BaseNode(nodes, b).Some? ==>
              ChainReportOf(nodes, b).incrementalIds == IdsOf(ChainOf(nodes, BaseNode(nodes, b).value))
  {
    ContinuousMeansTiled(nodes, b);
    LeadsToBase(nodes, b);
  }

  lemma PathOfReport(report: ChainReport, b: Id, chain: seq<ChainNode>, id: Id)
    requires report.IsContinuous() && report.incrementalIds == IdsOf(chain)
    ensures var r := PathInReport(report, b, id);
            if exists n :: n in chain && n.id == id then r.Ok? && IsChainPath(b, chain, id, r.value)
            else r == Err(NotInChain)
  {
    FirstPosition(IdsOf(chain), id);
    IdsListed(chain, id);
  }

  lemma BrokenReport(report: ChainReport, b: Id, id: Id)
    requires !report.IsContinuous()
    ensures PathInReport(report, b, id) == Err(ChainNotContinuous)
  {
  }

  /** An increment whose base is named: the path in its report, or the refusal. */
  lemma IncrementPath(nodes: seq<ChainNode>, b: Id, id: Id)
    ensures var r := PathInReport(ChainReportOf(nodes, b), b, id);
            if !IsReplayable(nodes, b) then r == Err(ChainNotContinuous)
            else if !IsListed(nodes, b, id) then r == Err(NotInChain)
            else r.Ok? && IsChainPath(b, ChainOf(nodes, BaseNode(nodes, b).value), id, r.value)
  {
    ReportOfChain(nodes, b);
    if ChainReportOf(nodes, b).IsContinuous() {
      PathOfReport(ChainReportOf(nodes, b), b, ChainOf(nodes, BaseNode(nodes, b).value), id);
    } else {
      BrokenReport(ChainReportOf(nodes, b), b, id);
    }
  }

  /** What the search for a path gives, on any list of manifests. */
  lemma PathOrRefusal(ms: seq<BackupManifest>, id: Id)
    ensures RestorePath(ms, id).Ok? ==> IsPathTo(ms, id, RestorePath(ms, id).value)
    ensures forall e :: IsRefused(ms, id, e) == (RestorePath(ms, id) == Err(e))
  {
    var m := FindManifest(ms, id);
    if m.Some? && m.value.backupType == Incremental && m.value.baseId.Some? {
      IncrementPath(FileNodes(ms), m.value.baseId.value, id);
    }
  }

  /** The path of an increment is found exactly when its base is there, the file
      backups that name it form its chain, and the increment is one of them. */
  method FindPath(ms: seq<BackupManifest>, id: Id) returns (r: Result<seq<Id>, RestoreError>)
    ensures r == RestorePath(ms, id)
    ensures r.Ok? ==> IsPathTo(ms, id, r.value)
    ensures forall e :: r == Err(e) <==> IsRefused(ms, id, e)
  {
    PathOrRefusal(ms, id);
    var m := FindManifest(ms, id);
    if m.None? {
      return Err(NoSuchBackup);
    }
    if m.value.backupType == Full {
      return Ok([id]);
    }
    if m.value.baseId.None? {
      return Err(NamesNoBase);
    }
    var report := VerifyChain(FileNodes(ms), m.value.baseId.value);
    r := PathInReport(report, m.value.baseId.value, id);
  }

  /** Replays base and increments into an empty target. */
  method FileChainRestore(ms: seq<BackupManifest>, archives: map<Id, Archive>, id: Id)
    returns (r: Result<Tree, RestoreError>)
    ensures r == RestoreOf(ms, archives, id)
    ensures forall e :: IsRefused(ms, id, e) ==> r == Err(e)
  {
    var path := FindPath(ms, id);
    if path.Err? {
      return Err(path.error);
    }
    r := ApplyAll(ms, archives, path.value);
  }

  method ApplyAll(ms: seq<BackupManifest>, archives: map<Id, Archive>, ids: seq<Id>)
    returns (r: Result<Tree, RestoreError>)
    ensures r == RestoreIds(ms, archives, ids)
  {
    var target: Tree := map[];
    for k := 0 to |ids|
      invariant RestoreIds(ms, archives, ids[..k]) == Ok(target)
    {
      assert ids[..k + 1][..k] == ids[..k];
      RestoreFails(ms, archives, ids, k + 1);
      var m := FindManifest(ms, ids[k]);
      if m.None? {
        return Err(NoSuchBackup);
      }
      if m.value.oplogCount == Some(0) {
        continue;
      }
      if ids[k] !in archives {
        return Err(DataMissing);
      }
      target := Unpack(target, archives[ids[k]]);
    }
    assert ids[..|ids|] == ids;
    r := Ok(target);
  }

  lemma {:induction false} RestoreFails(ms: seq<BackupManifest>, archives: map<Id, Archive>, ids: seq<Id>, k: nat)
    requires k <= |ids|
    ensures RestoreIds(ms, archives, ids[..k]).Err? ==> RestoreIds(ms, archives, ids) == RestoreIds(ms, archives, ids[..k])
  {
    if k == |ids| {
      assert ids[..k] == ids;
    } else {
      RestoreFails(ms, archives, ids[..|ids| - 1], k);
      assert ids[..|ids| - 1][..k] == ids[..k];
    }
  }

  // ----- states and steps -----

  /** `written` holds every archive ever stored, `lost` the backups whose archive
      a prune has deleted.  `trees` remembers what each backup saw; only the
      theorem reads it. */
  datatype State = State(
    store: seq<BackupManifest>, written: map<Id, Archive>, lost: set<Id>, indexes: map<Id, Index>, nextId: Id,
    trees: map<Id, Tree>)
  {
    function Archives(): map<Id, Archive> { written - lost }
  }

  ghost predicate Init(s: State) {
    s.store == [] && s.written == map[] && s.lost == {} && s.indexes == map[] && s.trees == map[]
  }

  function FullManifest(id: Id, created: Option<i64>, promoted: bool): BackupManifest {
    BackupManifest(id, created, Full, None, FileTar, false, Some(OplogRange(CHAIN_START, CHAIN_START)), None,
                   promoted, Complete)
  }

  function TakeFull(s: State, created: Option<i64>, tree: Tree, promoted: bool): State {
    s.(store := s.store + [FullManifest(s.nextId, created, promoted)],
       written := s.written[s.nextId := FullArchive(tree)],
       indexes := s.indexes[s.nextId := IndexOf(tree)],
       nextId := s.nextId + 1,
       trees := s.trees[s.nextId := tree])
  }

  function SliceManifest(id: Id, created: Option<i64>, head: FileChainHead, diff: IndexDiff): BackupManifest
    requires head.headGen < U32_MAX
  {
    var start := OplogTimestamp(head.headGen, 0);
    var end := if diff.IsEmpty() then start else OplogTimestamp(head.headGen + 1, 0);
    BackupManifest(id, created, Incremental, Some(head.baseId), FileIncr, false, Some(OplogRange(start, end)),
                   Some(diff.Count()), false, Complete)
  }

  /** An increment over the head's index; without that index, a promoted full backup. */
  function TakeIncrement(s: State, created: Option<i64>, tree: Tree, head: FileChainHead): State
    requires head.headGen < U32_MAX
  {
    if head.headId !in s.indexes then TakeFull(s, created, tree, true)
    else
      var diff := DiffFrom(IndexOf(tree), s.indexes[head.headId]);
      s.(store := s.store + [SliceManifest(s.nextId, created, head, diff)],
         written := if diff.IsEmpty() then s.written else s.written[s.nextId := SliceArchive(tree, diff)],
         indexes := s.indexes[s.nextId := IndexOf(tree)],
         nextId := s.nextId + 1,
         trees := s.trees[s.nextId := tree])
  }

  ghost predicate TakesIncrement(s: State, s': State, created: Option<i64>, tree: Tree, head: FileChainHead) {
    && IsHead(s.store, head) && head.headGen < U32_MAX
    && IsProperTree(tree)
    && (head.headId in s.trees ==> NoForgedMetadata(s.trees[head.headId], tree))
    && s' == TakeIncrement(s, created, tree, head)
  }

  /** An index that can no longer be read. */
  ghost predicate LosesIndex(s: State, s': State, id: Id) {
    s' == s.(indexes := s.indexes - {id})
  }

  /** A prune that stops after `k` deletions. */
  ghost predicate Prunes(
      s: State, s': State, orphans: seq<Id>, policy: RetentionPolicy, now: int, force: bool, k: nat)
  {
    && OrphansAreStrays(s.store, orphans)
    && var ids := RunIds(s.store, orphans, policy, now, force);
    && k <= 4 * |ids|
    && var lost := set id | id in s.written && File(id, DataFile) in DeletedAfter(ids, k);
    && var unindexed := set id | id in s.indexes && File(id, FileIndex) in DeletedAfter(ids, k);
    && s' == s.(store := WithoutManifests(s.store, Gone(ids, k)),
                lost := s.lost + lost,
                indexes := s.indexes - unindexed)
  }

  ghost predicate Next(s: State, s': State) {
    || (exists created, tree :: s' == TakeFull(s, created, tree, false))
    || (exists created, tree, head :: TakesIncrement(s, s', created, tree, head))
    || (exists id :: LosesIndex(s, s', id))
    || (exists orphans, policy, now, force, k :: Prunes(s, s', orphans, policy, now, force, k))
  }

  ghost predicate IsRun(run: seq<State>) {
    && run != [] && Init(run[0])
    && forall i, j :: 0 <= i < |run| && j == i + 1 < |run| ==> Next(run[i], run[j])
  }

  // ----- the invariant -----

  /** The ids of a chain up to and including its increment number `k - 1`. */
  function ChainIds(nodes: seq<ChainNode>, f: ChainNode, k: nat): (r: seq<Id>)
    requires k <= |IncrementsOf(nodes, f.id)|
    ensures |r| == k + 1 && r[0] == f.id
  {
    [f.id] + IdsOf(IncrementsOf(nodes, f.id)[..k])
  }

  /** With every archive ever written, the chain up to `k` gives what
      unpacking leaves of the tree that its last member saw. */
  ghost predicate ChainRestores(s: State, f: ChainNode, k: nat)
    requires k <= |IncrementsOf(NodesOf(s.store), f.id)|
  {
    var ids := ChainIds(NodesOf(s.store), f, k);
    ids[k] in s.trees && RestoreIds(s.store, s.written, ids) == Ok(Unpacked(s.trees[ids[k]]))
  }

  ghost predicate AllRestore(s: State) {
    forall f, k: nat {:trigger ChainRestores(s, f, k)} ::
      f in NodesOf(s.store) && CanCarry(f) && k <= |IncrementsOf(NodesOf(s.store), f.id)| ==>
        ChainRestores(s, f, k)
  }

  lemma ChainIsRestorable(s: State, f: ChainNode, k: nat)
    requires AllRestore(s) && f in NodesOf(s.store) && CanCarry(f) && k <= |IncrementsOf(NodesOf(s.store), f.id)|
    ensures ChainRestores(s, f, k)
  {
  }

  /** The shape of a manifest that the file engine writes. */
  predicate IsFileShaped(m: BackupManifest) {
    && m.status == Complete && !m.selective && m.oplogRange.Some? && m.oplogRange.value.end.i == 0
    && (if m.backupType == Full
        then m.format == FileTar && m.oplogRange.value == OplogRange(CHAIN_START, CHAIN_START)
        else m.format == FileIncr && m.baseId.Some?)
  }

  ghost predicate Inv(s: State) {
    && WellChained(NodesOf(s.store))
    && (forall m :: m in s.store ==> m.id < s.nextId && IsFileShaped(m))
    && (forall id :: id in s.indexes ==> id in s.trees && s.indexes[id] == IndexOf(s.trees[id]))
    && AllRestore(s)
  }

  // ----- the head is the last member -----

  lemma NodeIn(ms: seq<BackupManifest>, n: ChainNode) returns (m: BackupManifest)
    requires n in NodesOf(ms)
    ensures m in ms && NodeOf(m) == n
  {
    var i :| 0 <= i < |ms| && NodesOf(ms)[i] == n;
    m := ms[i];
  }

  lemma {:induction false} TiledEndsGrow(from: OplogTimestamp, incs: seq<ChainNode>, i: nat)
    requires Tiled(from, incs) && i < |incs| && forall n :: n in incs ==> IsProperIncrement(n)
    ensures incs[i].oplogRange.Some? && from.Le(incs[i].oplogRange.value.start)
    ensures incs[i].oplogRange.value.end.Le(ChainEnd(from, incs))
  {
    TiledStartsGrow(from, incs, 0, i);
    TiledStartsGrow(from, incs, i, |incs| - 1);
    assert incs[i] in incs && incs[|incs| - 1] in incs;
    if i < |incs| - 1 {
      TiledStartsGrow(from, incs, i + 1, |incs| - 1);
      assert Meets(incs[i], incs[i + 1]);
    }
  }

  lemma BaseOfHead(s: State, head: FileChainHead) returns (f: ChainNode)
    requires Inv(s) && IsHead(s.store, head)
    ensures f in NodesOf(s.store) && CanCarry(f) && f.id == head.baseId
    ensures f.oplogRange.value.end == CHAIN_START
  {
    StoreIsDistinct(s.store);
    var b :| b in s.store && IsFileFull(b) && b.id == head.baseId;
    f := NodeOf(b);
    FindInDistinct(s.store, b);
  }

  lemma ChainMembers(ms: seq<BackupManifest>, f: ChainNode, m: BackupManifest)
    requires IdsIncrease(NodesOf(ms)) && m in ms && IsFileShaped(m)
    ensures NodeOf(m) in IncrementsOf(NodesOf(ms), f.id) <==> InChain(m, f.id)
  {
    StoreIsDistinct(ms);
    FindInDistinct(ms, m);
  }

  /** The head that the search finds is the last member in chain order, and its
      generation is the end of the chain. */
  lemma HeadIsLast(s: State, head: FileChainHead) returns (f: ChainNode)
    requires Inv(s) && IsHead(s.store, head)
    ensures var nodes := NodesOf(s.store);
            && f in nodes && CanCarry(f) && f.id == head.baseId
            && var incs := SortNodes(IncrementsOf(nodes, f.id));
               && incs == IncrementsOf(nodes, f.id) && head.headId == LastId(nodes, f)
               && HeadEnd(nodes, f) == OplogTimestamp(head.headGen, 0)
  {
    f := BaseOfHead(s, head);
    var incs := IncrementsOf(NodesOf(s.store), f.id);
    WellChainedVerifies(NodesOf(s.store), f);
    if incs != [] {
      LastIsAhead(s, head, f);
    } else {
      forall m | m in s.store ensures !InChain(m, f.id) {
        ChainMembers(s.store, f, m);
      }
    }
  }

  lemma LastIsAhead(s: State, head: FileChainHead, f: ChainNode)
    requires Inv(s) && IsHead(s.store, head)
    requires f in NodesOf(s.store) && CanCarry(f) && f.id == head.baseId && f.oplogRange.value.end == CHAIN_START
    requires IncrementsOf(NodesOf(s.store), f.id) != []
    ensures var incs := IncrementsOf(NodesOf(s.store), f.id);
            && head.headId == incs[|incs| - 1].id
            && HeadEnd(NodesOf(s.store), f) == OplogTimestamp(head.headGen, 0)
  {
    var m := LastMember(s, f);
    if !(head.headId == f.id && head.headGen == CHAIN_START.t) {
      var h :| h in s.store && InChain(h, head.baseId) && h.id == head.headId
               && h.oplogRange.value.end.t == head.headGen;
      MembersEndBefore(s, f, h);
      MembersAreOlder(s, f, h);
    }
  }

  lemma LastMember(s: State, f: ChainNode) returns (m: BackupManifest)
    requires Inv(s) && f in NodesOf(s.store) && CanCarry(f) && f.oplogRange.value.end == CHAIN_START
    requires IncrementsOf(NodesOf(s.store), f.id) != []
    ensures m in s.store && InChain(m, f.id) && f.id < m.id
    ensures m.oplogRange.value.end == HeadEnd(NodesOf(s.store), f) && m.oplogRange.value.end.i == 0
    ensures CHAIN_START.Le(m.oplogRange.value.end)
    ensures var incs := IncrementsOf(NodesOf(s.store), f.id); incs[|incs| - 1].id == m.id
  {
    var nodes := NodesOf(s.store);
    var incs := IncrementsOf(nodes, f.id);
    assert incs[|incs| - 1] in incs;
    m := NodeIn(s.store, incs[|incs| - 1]);
    ChainMembers(s.store, f, m);
    assert ChainTiles(nodes, f);
    TiledEndsGrow(CHAIN_START, incs, |incs| - 1);
    BaseIsOlder(nodes, f, incs[|incs| - 1]);
  }

  lemma MembersEndBefore(s: State, f: ChainNode, h: BackupManifest)
    requires Inv(s) && f in NodesOf(s.store) && CanCarry(f) && f.oplogRange.value.end == CHAIN_START
    requires h in s.store && InChain(h, f.id)
    ensures h.oplogRange.value.end.Le(HeadEnd(NodesOf(s.store), f)) && h.oplogRange.value.end.i == 0
  {
    var nodes := NodesOf(s.store);
    ChainMembers(s.store, f, h);
    assert ChainTiles(nodes, f);
    MemberEndsBefore(IncrementsOf(nodes, f.id), NodeOf(h));
  }

  lemma MembersAreOlder(s: State, f: ChainNode, h: BackupManifest)
    requires Inv(s) && h in s.store && InChain(h, f.id)
    ensures var incs := IncrementsOf(NodesOf(s.store), f.id); incs != [] && h.id <= incs[|incs| - 1].id
  {
    ChainMembers(s.store, f, h);
    MemberIsOlder(NodesOf(s.store), f.id, NodeOf(h));
  }

  lemma MemberIsOlder(nodes: seq<ChainNode>, b: Id, n: ChainNode)
    requires IdsIncrease(nodes) && n in IncrementsOf(nodes, b)
    ensures var incs := IncrementsOf(nodes, b); incs != [] && n.id <= incs[|incs| - 1].id
  {
    LastIncrement(nodes, b);
  }

  lemma MemberEndsBefore(incs: seq<ChainNode>, n: ChainNode)
    requires Tiled(CHAIN_START, incs) && n in incs && forall x :: x in incs ==> IsProperIncrement(x)
    ensures n.oplogRange.Some? && n.oplogRange.value.end.Le(ChainEnd(CHAIN_START, incs))
  {
    var i :| 0 <= i < |incs| && incs[i] == n;
    TiledEndsGrow(CHAIN_START, incs, i);
  }

  lemma BaseIsOlder(nodes: seq<ChainNode>, f: ChainNode, n: ChainNode)
    requires WellChained(nodes) && n in IncrementsOf(nodes, f.id)
    ensures f.id < n.id
  {
    assert HasBase(nodes, n);
  }

  // ----- restores do not change under the steps -----

  function LastId(nodes: seq<ChainNode>, f: ChainNode): Id {
    var incs := IncrementsOf(nodes, f.id);
    if incs == [] then f.id else incs[|incs| - 1].id
  }

  lemma LastIdIsLast(nodes: seq<ChainNode>, f: ChainNode)
    ensures var k := |IncrementsOf(nodes, f.id)|;
            ChainIds(nodes, f, k)[k] == LastId(nodes, f) && LastId(nodes, f) in ChainIds(nodes, f, k)
  {
    var incs := IncrementsOf(nodes, f.id);
    assert incs[..|incs|] == incs;
  }

  ghost predicate SameBackup(s: State, s': State, id: Id) {
    && FindManifest(s'.store, id) == FindManifest(s.store, id)
    && (id in s.written <==> id in s'.written) && (id in s.written ==> s'.written[id] == s.written[id])
    && (id in s.trees ==> id in s'.trees && s'.trees[id] == s.trees[id])
  }

  lemma {:induction false} RestoreStays(s: State, s': State, ids: seq<Id>)
    requires forall id :: id in ids ==> SameBackup(s, s', id)
    ensures RestoreIds(s'.store, s'.written, ids) == RestoreIds(s.store, s.written, ids)
  {
    if ids != [] {
      RestoreStays(s, s', ids[..|ids| - 1]);
      assert SameBackup(s, s', ids[|ids| - 1]);
    }
  }

  lemma ChainStays(s: State, s': State, f: ChainNode, k: nat)
    requires k <= |IncrementsOf(NodesOf(s.store), f.id)| && k <= |IncrementsOf(NodesOf(s'.store), f.id)|
    requires ChainIds(NodesOf(s'.store), f, k) == ChainIds(NodesOf(s.store), f, k)
    requires forall id :: id in ChainIds(NodesOf(s.store), f, k) ==> SameBackup(s, s', id)
    requires ChainRestores(s, f, k)
    ensures ChainRestores(s', f, k)
  {
    var ids := ChainIds(NodesOf(s.store), f, k);
    RestoreStays(s, s', ids);
    assert ids[k] in ids && SameBackup(s, s', ids[k]);
  }

  lemma ChainIdsStored(ms: seq<BackupManifest>, f: ChainNode, k: nat, id: Id)
    requires f in NodesOf(ms) && k <= |IncrementsOf(NodesOf(ms), f.id)|
    requires id in ChainIds(NodesOf(ms), f, k)
    ensures exists m :: m in ms && m.id == id
  {
    var nodes := NodesOf(ms);
    var j :| 0 <= j <= k && ChainIds(nodes, f, k)[j] == id;
    var n := if j == 0 then f else IncrementsOf(nodes, f.id)[j - 1];
    assert n in nodes && n.id == id;
    var m := NodeIn(ms, n);
  }

  /** A step that appends one backup. */
  ghost predicate Appends(s: State, s': State, m: BackupManifest) {
    && m.id == s.nextId && s'.nextId == s.nextId + 1 && s'.store == s.store + [m] && s.nextId in s'.trees
    && IsFileShaped(m)
    && (forall id :: id != m.id ==> (id in s.written <==> id in s'.written))
    && (forall id :: id != m.id && id in s.written ==> s'.written[id] == s.written[id])
    && s'.trees == s.trees[m.id := s'.trees[m.id]]
    && s'.indexes == s.indexes[m.id := IndexOf(s'.trees[m.id])]
  }

  lemma {:induction false} FindAppend(ms: seq<BackupManifest>, m: BackupManifest, id: Id)
    requires FindManifest(ms, id).Some?
    ensures FindManifest(ms + [m], id) == FindManifest(ms, id)
    decreases |ms|
  {
    if ms[0].id != id {
      assert (ms + [m])[1..] == ms[1..] + [m];
      FindAppend(ms[1..], m, id);
    }
  }

  lemma OldBackupStays(s: State, s': State, m: BackupManifest, id: Id)
    requires Appends(s, s', m) && (forall x :: x in s.store ==> x.id < m.id)
    requires exists x :: x in s.store && x.id == id
    ensures SameBackup(s, s', id) && id != m.id
  {
    FindAppend(s.store, m, id);
  }

  lemma SamePrefix(ms: seq<BackupManifest>, m: BackupManifest, f: ChainNode, k: nat)
    requires k <= |IncrementsOf(NodesOf(ms), f.id)|
    ensures k <= |IncrementsOf(NodesOf(ms + [m]), f.id)|
    ensures ChainIds(NodesOf(ms + [m]), f, k) == ChainIds(NodesOf(ms), f, k)
  {
    NodesOfAppend(ms, m);
    IncrementsAppend(NodesOf(ms), NodeOf(m), f.id);
    var incs, longer := IncrementsOf(NodesOf(ms), f.id), IncrementsOf(NodesOf(ms + [m]), f.id);
    assert longer[..k] == incs[..k];
  }

  lemma OldStays(s: State, s': State, m: BackupManifest, f: ChainNode, k: nat)
    requires Appends(s, s', m) && (forall x :: x in s.store ==> x.id < m.id)
    requires f in NodesOf(s.store) && k <= |IncrementsOf(NodesOf(s.store), f.id)| && ChainRestores(s, f, k)
    ensures k <= |IncrementsOf(NodesOf(s'.store), f.id)| && ChainRestores(s', f, k)
    ensures ChainIds(NodesOf(s'.store), f, k) == ChainIds(NodesOf(s.store), f, k)
  {
    SamePrefix(s.store, m, f, k);
    forall id | id in ChainIds(NodesOf(s.store), f, k) ensures SameBackup(s, s', id) {
      ChainIdsStored(s.store, f, k, id);
      OldBackupStays(s, s', m, id);
    }
    ChainStays(s, s', f, k);
  }

  /** The part of a chain that was not there before the step. */
  ghost predicate IsNewChain(s: State, s': State, f: ChainNode, k: nat) {
    && f in NodesOf(s'.store) && CanCarry(f) && k <= |IncrementsOf(NodesOf(s'.store), f.id)|
    && (f !in NodesOf(s.store) || k > |IncrementsOf(NodesOf(s.store), f.id)|)
  }

  lemma AppendKeepsInv(s: State, s': State, m: BackupManifest)
    requires Inv(s) && Appends(s, s', m)
    requires WellChained(NodesOf(s.store) + [NodeOf(m)])
    requires forall f, k: nat {:trigger ChainRestores(s', f, k)} :: IsNewChain(s, s', f, k) ==> ChainRestores(s', f, k)
    ensures Inv(s')
  {
    NodesOfAppend(s.store, m);
    forall f, k: nat | f in NodesOf(s'.store) && CanCarry(f) && k <= |IncrementsOf(NodesOf(s'.store), f.id)|
      ensures ChainRestores(s', f, k)
    {
      if f in NodesOf(s.store) && k <= |IncrementsOf(NodesOf(s.store), f.id)| {
        ChainIsRestorable(s, f, k);
        OldStays(s, s', m, f, k);
      }
    }
  }

  // ----- full backups -----

  lemma FullRestores(s: State, s': State, created: Option<i64>, tree: Tree, promoted: bool)
    requires Inv(s) && s' == TakeFull(s, created, tree, promoted)
    ensures var f := NodeOf(FullManifest(s.nextId, created, promoted));
            IncrementsOf(NodesOf(s'.store), f.id) == [] && ChainRestores(s', f, 0)
  {
    var m := FullManifest(s.nextId, created, promoted);
    var f := NodeOf(m);
    AddManifest(s.store, m, s.nextId);
    NoIncrementsYet(NodesOf(s.store), f.id);
    IncrementsAppend(NodesOf(s.store), f, f.id);
    FindNew(s.store, m);
    var ids := ChainIds(NodesOf(s'.store), f, 0);
    assert ids == [m.id] && ids[..0] == [];
    FullUnpacks(tree);
  }

  lemma FullUnpacks(tree: Tree)
    ensures Unpack(map[], FullArchive(tree)) == Unpacked(tree)
  {
  }

  lemma {:induction false} FindNew(ms: seq<BackupManifest>, m: BackupManifest)
    requires forall x :: x in ms ==> x.id < m.id
    ensures FindManifest(ms + [m], m.id) == Some(m)
    decreases |ms|
  {
    if ms == [] {
      assert ms + [m] == [m];
    } else {
      assert ms[0] in ms;
      assert (ms + [m])[1..] == ms[1..] + [m];
      FindNew(ms[1..], m);
    }
  }

  lemma FullKeepsInv(s: State, s': State, created: Option<i64>, tree: Tree, promoted: bool)
    requires Inv(s) && s' == TakeFull(s, created, tree, promoted)
    ensures Inv(s')
  {
    var m := FullManifest(s.nextId, created, promoted);
    AddManifest(s.store, m, s.nextId);
    AppendFull(NodesOf(s.store), NodeOf(m));
    FullRestores(s, s', created, tree, promoted);
    forall f, k: nat | IsNewChain(s, s', f, k) ensures ChainRestores(s', f, k) {
      IncrementsAppend(NodesOf(s.store), NodeOf(m), f.id);
      assert f == NodeOf(m) && k == 0;
    }
    AppendKeepsInv(s, s', m);
  }

  // ----- increments -----

  function SliceOf(s: State, created: Option<i64>, tree: Tree, head: FileChainHead): BackupManifest
    requires head.headGen < U32_MAX && head.headId in s.indexes
  {
    SliceManifest(s.nextId, created, head, DiffFrom(IndexOf(tree), s.indexes[head.headId]))
  }

  lemma SliceAppends(s: State, s': State, created: Option<i64>, tree: Tree, head: FileChainHead)
    requires TakesIncrement(s, s', created, tree, head) && head.headId in s.indexes
    ensures var m := SliceOf(s, created, tree, head);
            Appends(s, s', m) && s'.trees[m.id] == tree
  {
  }

  lemma SliceIsStored(s: State, s': State, created: Option<i64>, tree: Tree, head: FileChainHead)
    requires TakesIncrement(s, s', created, tree, head) && head.headId in s.indexes
    ensures var m, diff := SliceOf(s, created, tree, head), DiffFrom(IndexOf(tree), s.indexes[head.headId]);
            if diff.IsEmpty() then m.oplogCount == Some(0)
            else m.oplogCount != Some(0) && m.id in s'.written && s'.written[m.id] == SliceArchive(tree, diff)
  {
    var diff := DiffFrom(IndexOf(tree), s.indexes[head.headId]);
    if diff.changed == {} && diff.deleted != {} {
      assert |diff.deleted| > 0;
    }
  }

  /** The new slice starts where its chain ends. */
  lemma SliceContinues(s: State, created: Option<i64>, tree: Tree, head: FileChainHead) returns (f: ChainNode)
    requires Inv(s) && IsHead(s.store, head) && head.headGen < U32_MAX && head.headId in s.indexes
    ensures Continues(NodesOf(s.store), NodeOf(SliceOf(s, created, tree, head)), f) && f.id == head.baseId
    ensures head.headId == LastId(NodesOf(s.store), f)
  {
    f := HeadIsLast(s, head);
    AddManifest(s.store, SliceOf(s, created, tree, head), s.nextId);
  }

  /** Over the restored tree of the head, the new slice gives the current tree restored. */
  lemma SliceRestores(s: State, s': State, created: Option<i64>, tree: Tree, head: FileChainHead)
    requires TakesIncrement(s, s', created, tree, head) && head.headId in s.indexes
    requires head.headId in s.trees && s.indexes[head.headId] == IndexOf(s.trees[head.headId])
    ensures var diff := DiffFrom(IndexOf(tree), s.indexes[head.headId]);
            if diff.IsEmpty() then s.trees[head.headId] == tree
            else Unpack(Unpacked(s.trees[head.headId]), SliceArchive(tree, diff)) == Unpacked(tree)
  {
    var prev := s.trees[head.headId];
    if DiffFrom(IndexOf(tree), IndexOf(prev)).IsEmpty() {
      EmptyDiffIsSameTree(prev, tree);
    } else {
      DeltaIsExact(prev, tree);
    }
  }

  /** Replaying one more slice. */
  lemma OneMore(ms: seq<BackupManifest>, archives: map<Id, Archive>, before: seq<Id>, m: BackupManifest, t: Tree)
    requires RestoreIds(ms, archives, before) == Ok(t) && FindManifest(ms, m.id) == Some(m)
    ensures RestoreIds(ms, archives, before + [m.id])
            == if m.oplogCount == Some(0) then Ok(t)
               else if m.id !in archives then Err(DataMissing)
               else Ok(Unpack(t, archives[m.id]))
  {
    assert (before + [m.id])[..|before|] == before;
  }

  /** What the step found stays restorable under its old ids. */
  lemma HeadRestores(s: State, s': State, m: BackupManifest, f: ChainNode, headId: Id) returns (before: seq<Id>)
    requires Appends(s, s', m) && (forall x :: x in s.store ==> x.id < m.id)
    requires f in NodesOf(s.store) && headId == LastId(NodesOf(s.store), f)
    requires ChainRestores(s, f, |IncrementsOf(NodesOf(s.store), f.id)|)
    ensures headId in s.trees && headId != m.id
    ensures var k := |IncrementsOf(NodesOf(s.store), f.id)|;
            k <= |IncrementsOf(NodesOf(s'.store), f.id)| && before == ChainIds(NodesOf(s'.store), f, k)
    ensures RestoreIds(s'.store, s'.written, before) == Ok(Unpacked(s.trees[headId]))
  {
    var k := |IncrementsOf(NodesOf(s.store), f.id)|;
    OldStays(s, s', m, f, k);
    before := ChainIds(NodesOf(s'.store), f, k);
    LastIdIsLast(NodesOf(s.store), f);
    ChainIdsStored(s.store, f, k, headId);
    OldBackupStays(s, s', m, headId);
  }

  lemma NewChainRestores(s: State, s': State, created: Option<i64>, tree: Tree, head: FileChainHead, f: ChainNode)
    requires TakesIncrement(s, s', created, tree, head) && head.headId in s.indexes
    requires forall x :: x in s.store ==> x.id < s.nextId
    requires forall id :: id in s.indexes ==> id in s.trees && s.indexes[id] == IndexOf(s.trees[id])
    requires f in NodesOf(s.store) && f.id == head.baseId && head.headId == LastId(NodesOf(s.store), f)
    requires ChainRestores(s, f, |IncrementsOf(NodesOf(s.store), f.id)|)
    ensures var k := |IncrementsOf(NodesOf(s.store), f.id)| + 1;
            k == |IncrementsOf(NodesOf(s'.store), f.id)| && ChainRestores(s', f, k)
  {
    var m := SliceOf(s, created, tree, head);
    SliceAppends(s, s', created, tree, head);
    SliceIsStored(s, s', created, tree, head);
    var before := HeadRestores(s, s', m, f, head.headId);
    FindNew(s.store, m);
    SliceRestores(s, s', created, tree, head);
    OneMore(s'.store, s'.written, before, m, Unpacked(s.trees[head.headId]));
    LongerIds(s.store, m, f);
  }

  lemma LongerIds(ms: seq<BackupManifest>, m: BackupManifest, f: ChainNode)
    requires m.backupType == Incremental && m.baseId == Some(f.id)
    ensures var k := |IncrementsOf(NodesOf(ms), f.id)|;
            && k + 1 == |IncrementsOf(NodesOf(ms + [m]), f.id)|
            && ChainIds(NodesOf(ms + [m]), f, k + 1) == ChainIds(NodesOf(ms + [m]), f, k) + [m.id]
  {
    NodesOfAppend(ms, m);
    IncrementsAppend(NodesOf(ms), NodeOf(m), f.id);
    var incs, k := IncrementsOf(NodesOf(ms + [m]), f.id), |IncrementsOf(NodesOf(ms), f.id)|;
    assert incs[..k + 1] == incs[..k] + [NodeOf(m)];
  }

  lemma OnlyItsChainGrows(ms: seq<BackupManifest>, m: BackupManifest, base: ChainNode, f: ChainNode)
    requires WellChained(NodesOf(ms)) && m.backupType == Incremental && m.baseId == Some(base.id)
    requires base in NodesOf(ms) && f in NodesOf(ms + [m]) && CanCarry(f)
    ensures f in NodesOf(ms)
    ensures f != base ==> IncrementsOf(NodesOf(ms + [m]), f.id) == IncrementsOf(NodesOf(ms), f.id)
  {
    NodesOfAppend(ms, m);
    IncrementsAppend(NodesOf(ms), NodeOf(m), f.id);
    WellChainedDistinct(NodesOf(ms));
    FindDistinct(NodesOf(ms), base);
    FindDistinct(NodesOf(ms), f);
  }

  lemma SliceKeepsInv(s: State, s': State, created: Option<i64>, tree: Tree, head: FileChainHead)
    requires Inv(s) && TakesIncrement(s, s', created, tree, head) && head.headId in s.indexes
    ensures Inv(s')
  {
    var m := SliceOf(s, created, tree, head);
    var base := SliceContinues(s, created, tree, head);
    SliceAppends(s, s', created, tree, head);
    AppendKeepsWellChained(NodesOf(s.store), NodeOf(m), base);
    ChainIsRestorable(s, base, |IncrementsOf(NodesOf(s.store), base.id)|);
    NewChainRestores(s, s', created, tree, head, base);
    OnlyTheHeadIsNew(s, s', m, base);
    AppendKeepsInv(s, s', m);
  }

  lemma NewChainIsHead(s: State, s': State, m: BackupManifest, base: ChainNode, f: ChainNode, k: nat)
    requires WellChained(NodesOf(s.store)) && m.backupType == Incremental && m.baseId == Some(base.id)
    requires base in NodesOf(s.store) && s'.store == s.store + [m] && IsNewChain(s, s', f, k)
    requires |IncrementsOf(NodesOf(s'.store), base.id)| == |IncrementsOf(NodesOf(s.store), base.id)| + 1
    ensures f == base && k == |IncrementsOf(NodesOf(s'.store), base.id)|
  {
    OnlyItsChainGrows(s.store, m, base, f);
  }

  lemma OnlyTheHeadIsNew(s: State, s': State, m: BackupManifest, base: ChainNode)
    requires WellChained(NodesOf(s.store)) && m.backupType == Incremental && m.baseId == Some(base.id)
    requires base in NodesOf(s.store) && s'.store == s.store + [m]
    requires var k := |IncrementsOf(NodesOf(s.store), base.id)| + 1;
             k == |IncrementsOf(NodesOf(s'.store), base.id)| && ChainRestores(s', base, k)
    ensures forall f, k: nat {:trigger ChainRestores(s', f, k)} :: IsNewChain(s, s', f, k) ==> ChainRestores(s', f, k)
  {
    forall f, k: nat | IsNewChain(s, s', f, k) ensures ChainRestores(s', f, k) {
      NewChainIsHead(s, s', m, base, f, k);
    }
  }

  lemma IncrementKeepsInv(s: State, s': State, created: Option<i64>, tree: Tree, head: FileChainHead)
    requires Inv(s) && TakesIncrement(s, s', created, tree, head)
    ensures Inv(s')
  {
    if head.headId !in s.indexes {
      FullKeepsInv(s, s', created, tree, true);
    } else {
      SliceKeepsInv(s, s', created, tree, head);
    }
  }

  // ----- prunes -----

  lemma ShorterPrefix<T>(p: seq<T>, q: seq<T>, k: nat)
    requires p <= q && k <= |p|
    ensures k <= |q| && p[..k] == q[..k]
  {
  }

  lemma ChainAfterPrune(ms: seq<BackupManifest>, gone: set<Id>, f: ChainNode, k: nat)
    requires WellChained(NodesOf(ms)) && TakesEnds(NodesOf(ms), gone)
    requires var left := NodesOf(WithoutManifests(ms, gone));
             f in left && CanCarry(f) && k <= |IncrementsOf(left, f.id)|
    ensures var left := NodesOf(WithoutManifests(ms, gone));
            && f in NodesOf(ms) && k <= |IncrementsOf(NodesOf(ms), f.id)|
            && ChainIds(left, f, k) == ChainIds(NodesOf(ms), f, k)
  {
    var nodes := NodesOf(ms);
    NodesWithout(ms, gone);
    WellChainedVerifies(nodes, f);
    ChainWithout(nodes, gone, f.id);
    WithoutIsPrefix(SortNodes(IncrementsOf(nodes, f.id)), gone);
    ShorterPrefix(IncrementsOf(Without(nodes, gone), f.id), IncrementsOf(nodes, f.id), k);
  }

  /** What a prune by `gone` leaves in the store, and what it does not touch. */
  ghost predicate Deletes(s: State, s': State, gone: set<Id>) {
    && s'.store == WithoutManifests(s.store, gone) && s'.written == s.written && s'.trees == s.trees
    && s'.nextId == s.nextId && s'.indexes.Keys <= s.indexes.Keys
    && (forall id :: id in s'.indexes ==> s'.indexes[id] == s.indexes[id])
  }

  lemma LeftChainRestores(s: State, s': State, gone: set<Id>, f: ChainNode, k: nat)
    requires WellChained(NodesOf(s.store)) && TakesEnds(NodesOf(s.store), gone) && Deletes(s, s', gone)
    requires AllRestore(s)
    requires f in NodesOf(s'.store) && CanCarry(f) && k <= |IncrementsOf(NodesOf(s'.store), f.id)|
    ensures ChainRestores(s', f, k)
  {
    ChainAfterPrune(s.store, gone, f, k);
    ChainIsRestorable(s, f, k);
    StoreIsDistinct(s.store);
    forall id | id in ChainIds(NodesOf(s.store), f, k) ensures SameBackup(s, s', id) {
      ChainIdsStored(s'.store, f, k, id);
      FindWithout(s.store, gone, id);
    }
    ChainStays(s, s', f, k);
  }

  lemma DeletesKeepsInv(s: State, s': State, gone: set<Id>)
    requires Inv(s) && TakesEnds(NodesOf(s.store), gone) && Deletes(s, s', gone)
    ensures Inv(s')
  {
    DeleteEnds(NodesOf(s.store), gone);
    NodesWithout(s.store, gone);
    forall f, k: nat | f in NodesOf(s'.store) && CanCarry(f) && k <= |IncrementsOf(NodesOf(s'.store), f.id)|
      ensures ChainRestores(s', f, k)
    {
      LeftChainRestores(s, s', gone, f, k);
    }
  }

  lemma PruneKeepsInv(
      s: State, s': State, orphans: seq<Id>, policy: RetentionPolicy, now: int, force: bool, k: nat)
    requires Inv(s) && Prunes(s, s', orphans, policy, now, force, k)
    ensures Inv(s')
  {
    StoreIsGood(s.store, orphans);
    PruneTakesEnds(s.store, orphans, policy, now, force, k);
    DeletesKeepsInv(s, s', Gone(RunIds(s.store, orphans, policy, now, force), k));
  }

  // ----- every run -----

  lemma LossKeepsInv(s: State, s': State, id: Id)
    requires Inv(s) && LosesIndex(s, s', id)
    ensures Inv(s')
  {
    forall f, k: nat | f in NodesOf(s'.store) && CanCarry(f) && k <= |IncrementsOf(NodesOf(s'.store), f.id)|
      ensures ChainRestores(s', f, k)
    {
      ChainIsRestorable(s, f, k);
    }
  }

  lemma NextKeepsInv(s: State, s': State)
    requires Inv(s) && Next(s, s')
    ensures Inv(s')
  {
    if created, tree :| s' == TakeFull(s, created, tree, false) {
      FullKeepsInv(s, s', created, tree, false);
    } else if created, tree, head :| TakesIncrement(s, s', created, tree, head) {
      IncrementKeepsInv(s, s', created, tree, head);
    } else if id :| LosesIndex(s, s', id) {
      LossKeepsInv(s, s', id);
    } else {
      var orphans, policy, now, force, k :| Prunes(s, s', orphans, policy, now, force, k);
      PruneKeepsInv(s, s', orphans, policy, now, force, k);
    }
  }

  lemma RunBefore(run: seq<State>)
    requires IsRun(run) && |run| > 1
    ensures IsRun(run[..|run| - 1])
    ensures Next(run[|run| - 2], run[|run| - 1])
  {
  }

  lemma {:induction false} RunKeepsInv(run: seq<State>)
    requires IsRun(run)
    ensures Inv(run[|run| - 1])
    decreases |run|
  {
    if |run| > 1 {
      var k := |run| - 1;
      RunBefore(run);
      RunKeepsInv(run[..k]);
      NextKeepsInv(run[k - 1], run[k]);
    }
  }

  // ----- what every run gives -----

  /** One of the backups has changes, and they have been deleted. */
  ghost predicate MissesData(ms: seq<BackupManifest>, lost: set<Id>, ids: seq<Id>) {
    exists id :: id in ids && id in lost && FindManifest(ms, id).Some?
                 && FindManifest(ms, id).value.oplogCount != Some(0)
  }

  lemma {:induction false} RestoreWithLost(ms: seq<BackupManifest>, written: map<Id, Archive>, lost: set<Id>, ids: seq<Id>)
    requires RestoreIds(ms, written, ids).Ok?
    ensures RestoreIds(ms, written - lost, ids)
            == if MissesData(ms, lost, ids) then Err(DataMissing) else RestoreIds(ms, written, ids)
  {
    if ids != [] {
      var rest, last := ids[..|ids| - 1], ids[|ids| - 1];
      RestoreWithLost(ms, written, lost, rest);
      MissesLast(ms, lost, ids);
      assert last in written - lost <==> last in written && last !in lost;
    }
  }

  lemma MissesLast(ms: seq<BackupManifest>, lost: set<Id>, ids: seq<Id>)
    requires ids != []
    ensures var last := ids[|ids| - 1];
            MissesData(ms, lost, ids)
            <==> MissesData(ms, lost, ids[..|ids| - 1])
                 || (last in lost && FindManifest(ms, last).Some? && FindManifest(ms, last).value.oplogCount != Some(0))
  {
    FrontLast(ids);
  }

  /** The position of an id that is listed. */
  lemma {:induction false} PositionExists(ids: seq<Id>, id: Id)
    requires id in ids
    ensures PositionOf(ids, id).Some?
  {
  }

  lemma ReportLists(nodes: seq<ChainNode>, f: ChainNode)
    requires WellChained(nodes) && f in nodes && CanCarry(f)
    ensures ChainReportOf(nodes, f.id).IsContinuous()
    ensures ChainReportOf(nodes, f.id).incrementalIds == IdsOf(IncrementsOf(nodes, f.id))
  {
    WellChainedVerifies(nodes, f);
    WellChainedDistinct(nodes);
    FindDistinct(nodes, f);
  }

  lemma PlaceInChain(f: ChainNode, incs: seq<ChainNode>, n: ChainNode) returns (k: nat)
    requires n in incs
    ensures 0 < k <= |incs| && PositionOf(IdsOf(incs), n.id) == Some(k - 1)
    ensures [f.id] + IdsOf(incs[..k]) == [f.id] + IdsOf(incs)[..k]
    ensures incs[k - 1].id == n.id
  {
    var ids := IdsOf(incs);
    var i :| 0 <= i < |incs| && incs[i] == n;
    assert ids[i] == n.id;
    PositionExists(ids, n.id);
    k := PositionOf(ids, n.id).value + 1;
    IdsOfPrefix(incs, k);
  }

  lemma IdsOfPrefix(incs: seq<ChainNode>, k: nat)
    requires k <= |incs|
    ensures IdsOf(incs)[..k] == IdsOf(incs[..k])
  {
  }

  lemma OnlyFileManifests(ms: seq<BackupManifest>)
    requires forall m :: m in ms ==> IsFileShaped(m)
    ensures Filter(IsFileManifest(), ms) == ms
  {
    FilterAll(IsFileManifest(), ms);
  }

  lemma ChainIdsAt(nodes: seq<ChainNode>, f: ChainNode, k: nat)
    requires 0 < k <= |IncrementsOf(nodes, f.id)|
    ensures ChainIds(nodes, f, k)[k] == IncrementsOf(nodes, f.id)[k - 1].id
  {
    var part := IncrementsOf(nodes, f.id)[..k];
    assert part[k - 1] == IncrementsOf(nodes, f.id)[k - 1];
  }

  lemma PathFromReport(report: ChainReport, f: ChainNode, incs: seq<ChainNode>, id: Id, k: nat)
    requires report.IsContinuous() && report.incrementalIds == IdsOf(incs)
    requires 0 < k <= |incs| && PositionOf(IdsOf(incs), id) == Some(k - 1)
    requires [f.id] + IdsOf(incs[..k]) == [f.id] + IdsOf(incs)[..k]
    ensures PathInReport(report, f.id, id) == Ok([f.id] + IdsOf(incs[..k]))
  {
  }

  lemma PathOfIncrement(s: State, m: BackupManifest) returns (f: ChainNode, k: nat)
    requires Inv(s) && m in s.store && m.backupType == Incremental
    ensures f in NodesOf(s.store) && CanCarry(f) && k <= |IncrementsOf(NodesOf(s.store), f.id)|
    ensures ChainIds(NodesOf(s.store), f, k)[k] == m.id
    ensures RestorePath(s.store, m.id) == Ok(ChainIds(NodesOf(s.store), f, k))
  {
    var nodes := NodesOf(s.store);
    StoreIsDistinct(s.store);
    FindInDistinct(s.store, m);
    assert HasBase(nodes, NodeOf(m));
    f :| f in nodes && f.id == m.baseId.value && CanCarry(f);
    OnlyFileManifests(s.store);
    ReportLists(nodes, f);
    k := PlaceInChain(f, IncrementsOf(nodes, f.id), NodeOf(m));
    ChainIdsAt(nodes, f, k);
    PathFromReport(ChainReportOf(nodes, f.id), f, IncrementsOf(nodes, f.id), m.id, k);
  }

  lemma PathOf(s: State, m: BackupManifest) returns (f: ChainNode, k: nat)
    requires Inv(s) && m in s.store
    ensures f in NodesOf(s.store) && CanCarry(f) && k <= |IncrementsOf(NodesOf(s.store), f.id)|
    ensures ChainIds(NodesOf(s.store), f, k)[k] == m.id
    ensures RestorePath(s.store, m.id) == Ok(ChainIds(NodesOf(s.store), f, k))
  {
    if m.backupType == Incremental {
      f, k := PathOfIncrement(s, m);
    } else {
      StoreIsDistinct(s.store);
      FindInDistinct(s.store, m);
      f, k := NodeOf(m), 0;
      assert ChainIds(NodesOf(s.store), f, 0) == [m.id];
    }
  }

  /** After any run, restoring any stored backup into an empty target gives
      exactly what unpacking keeps of the tree that the backup saw, or says that data is missing; the
      latter only when a prune deleted changes on its path. */
  lemma EveryBackupRestores(run: seq<State>, m: BackupManifest)
    requires IsRun(run) && m in run[|run| - 1].store
    ensures var s := run[|run| - 1];
            && m.id in s.trees
            && RestorePath(s.store, m.id).Ok?
            && RestoreOf(s.store, s.Archives(), m.id)
               == if MissesData(s.store, s.lost, RestorePath(s.store, m.id).value) then Err(DataMissing)
                  else Ok(Unpacked(s.trees[m.id]))
  {
    RunKeepsInv(run);
    var s := run[|run| - 1];
    var f, k := PathOf(s, m);
    ChainIsRestorable(s, f, k);
    RestoreWithLost(s.store, s.written, s.lost, ChainIds(NodesOf(s.store), f, k));
  }

  /** After any run, the increments of every full backup tile its generations,
      and the head that the search finds is the last of them. */
  lemma GenerationsTile(run: seq<State>, f: ChainNode, head: FileChainHead)
    requires IsRun(run) && f in NodesOf(run[|run| - 1].store) && f.backupType == Full
    ensures var nodes := NodesOf(run[|run| - 1].store);
            && ChainReportOf(nodes, f.id).IsContinuous()
            && Tiled(CHAIN_START, SortNodes(IncrementsOf(nodes, f.id)))
            && (IsHead(run[|run| - 1].store, head) && head.baseId == f.id ==>
                  var incs := SortNodes(IncrementsOf(nodes, f.id));
                  && head.headId == (if incs == [] then f.id else incs[|incs| - 1].id)
                  && ChainEnd(CHAIN_START, incs) == OplogTimestamp(head.headGen, 0))
  {
    RunKeepsInv(run);
    var s := run[|run| - 1];
    var nodes := NodesOf(s.store);
    var m := NodeIn(s.store, f);
    WellChainedVerifies(nodes, f);
    assert ChainTiles(nodes, f);
    if IsHead(s.store, head) && head.baseId == f.id {
      var g := HeadIsLast(s, head);
      WellChainedDistinct(nodes);
      FindDistinct(nodes, f);
      FindDistinct(nodes, g);
    }
  }
}
