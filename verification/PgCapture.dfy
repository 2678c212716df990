/** PostgreSQL increments peek a replication slot, store what they saw, write the
    manifest and only then advance the slot.  A failure after the manifest makes
    the next slice overlap the one before, and a full backup's snapshot is taken
    after its slot was created, so a replay repeats changes.  It absorbs them:
    after any run in which each full backup that recreated the slot was recorded,
    base and slices give the server's state at the last captured position. */
module PgCapture {
  import opened Schema
  import opened StableSort
  import opened PgReplay

  // ----- what a capture reads -----

  const MAX_CHANGES_PER_CAPTURE: nat := 50_000

  /** A peek returns whole transactions until it has enough messages. */
  function PeekFrom(log: seq<Txn>, at: nat, count: nat): (end: nat)
    requires at <= |log|
    ensures at <= end <= |log|
    decreases |log| - at
  {
    if at == |log| || count >= MAX_CHANGES_PER_CAPTURE then at
    else PeekFrom(log, at + 1, count + log[at].messages)
  }

  function PeekEnd(log: seq<Txn>, from: nat): (end: nat)
    requires from <= |log|
    ensures from <= end <= |log|
  {
    PeekFrom(log, from, 0)
  }

  lemma {:induction false} FewerReachesFurther(log: seq<Txn>, at: nat, more: nat, fewer: nat)
    requires at <= |log| && fewer <= more
    ensures PeekFrom(log, at, more) <= PeekFrom(log, at, fewer)
    decreases |log| - at
  {
    if at < |log| && more < MAX_CHANGES_PER_CAPTURE {
      FewerReachesFurther(log, at + 1, more + log[at].messages, fewer + log[at].messages);
    }
  }

  lemma {:induction false} LaterStartReachesFurther(log: seq<Txn>, at: nat, count: nat, p: nat)
    requires at <= |log| && at <= p <= PeekFrom(log, at, count)
    ensures PeekFrom(log, at, count) <= PeekEnd(log, p)
    decreases |log| - at
  {
    if at == p {
      FewerReachesFurther(log, at, count, 0);
    } else {
      LaterStartReachesFurther(log, at + 1, count + log[at].messages, p);
    }
  }

  lemma {:induction false} LongerLogReachesFurther(log: seq<Txn>, more: seq<Txn>, at: nat, count: nat)
    requires at <= |log|
    ensures PeekFrom(log, at, count) <= PeekFrom(log + more, at, count)
    decreases |log| - at
  {
    if at < |log| && count < MAX_CHANGES_PER_CAPTURE {
      assert (log + more)[at] == log[at];
      LongerLogReachesFurther(log, more, at + 1, count + log[at].messages);
    }
  }

  // ----- which backups a restore uses -----

  predicate IsPgFull(m: BackupManifest) {
    m.backupType == Full && m.status == Complete && !m.selective && m.format == PgArchive
  }

  predicate IsPgIncrement(m: BackupManifest, baseId: Id) {
    m.backupType == Incremental && m.status == Complete && m.baseId == Some(baseId) && m.format == PgIncr
  }

  function Chained(baseId: Id): BackupManifest -> bool {
    (m: BackupManifest) => IsPgIncrement(m, baseId)
  }

  ghost predicate IdsAscend(ms: seq<BackupManifest>) {
    forall i, j :: 0 <= i < j < |ms| ==> ms[i].id < ms[j].id
  }

  /** The newest eligible full backup of a list in id order. */
  function LatestFull(ms: seq<BackupManifest>): (r: Option<BackupManifest>)
    ensures r.Some? ==> r.value in ms && IsPgFull(r.value)
    ensures r.None? ==> forall m :: m in ms ==> !IsPgFull(m)
  {
    if ms == [] then None
    else if IsPgFull(ms[|ms| - 1]) then Some(ms[|ms| - 1])
    else LatestFull(ms[..|ms| - 1])
  }

  /** The last manifest of a complete full backup in the archive format that is not
      selective; there is none exactly when no manifest is like that. */
  lemma {:induction false} LatestFullIs(ms: seq<BackupManifest>)
    ensures LatestFull(ms).None? <==>
              forall m :: m in ms ==> m.backupType != Full || m.status != Complete || m.selective || m.format != PgArchive
    ensures LatestFull(ms).Some? ==>
              exists k :: 0 <= k < |ms| && ms[k] == LatestFull(ms).value
                && ms[k].backupType == Full && ms[k].status == Complete && !ms[k].selective && ms[k].format == PgArchive
                && forall j :: k < j < |ms| ==>
                     ms[j].backupType != Full || ms[j].status != Complete || ms[j].selective || ms[j].format != PgArchive
  {
    if ms != [] {
      var front, last := ms[..|ms| - 1], ms[|ms| - 1];
      FrontLast(ms);
      LatestFullIs(front);
      if IsPgFull(last) {
        assert ms[|ms| - 1] == last;
      } else if LatestFull(front).Some? {
        var k :| 0 <= k < |front| && front[k] == LatestFull(front).value
                 && front[k].backupType == Full && front[k].status == Complete && !front[k].selective
                 && front[k].format == PgArchive
                 && forall j :: k < j < |front| ==>
                      front[j].backupType != Full || front[j].status != Complete || front[j].selective
                      || front[j].format != PgArchive;
        assert ms[k] == front[k];
        assert forall j :: k < j < |front| ==> ms[j] == front[j];
      }
    }
  }

  /** The base of an increment: of the complete full backups in the archive format
      that are not selective, the one with the largest id. */
  method SelectPgFullBase(ms: seq<BackupManifest>) returns (r: Option<BackupManifest>)
    ensures r == LatestFull(ms)
    ensures r.None? <==>
              forall m :: m in ms ==> m.backupType != Full || m.status != Complete || m.selective || m.format != PgArchive
    ensures r.Some? ==>
              && r.value in ms && r.value.backupType == Full && r.value.status == Complete && !r.value.selective
              && r.value.format == PgArchive
    ensures r.Some? && IdsAscend(ms) ==>
              forall m :: (m in ms && m.backupType == Full && m.status == Complete && !m.selective
                           && m.format == PgArchive) ==> m.id <= r.value.id
  {
    LatestFullIs(ms);
    var k := |ms|;
    while k > 0
      invariant 0 <= k <= |ms|
      invariant LatestFull(ms[..k]) == LatestFull(ms[..|ms|])
    {
      assert ms[..k][..k - 1] == ms[..k - 1];
      k := k - 1;
      if IsPgFull(ms[k]) {
        assert ms[..|ms|] == ms;
        return Some(ms[k]);
      }
    }
    assert ms[..|ms|] == ms;
    r := None;
  }

  method CollectPgIncrements(ms: seq<BackupManifest>, baseId: Id) returns (incs: seq<BackupManifest>)
    ensures incs == Filter(Chained(baseId), ms)
    ensures forall m :: m in incs <==>
              m in ms && m.backupType == Incremental && m.status == Complete && m.baseId == Some(baseId)
              && m.format == PgIncr
  {
    incs := [];
    for k := 0 to |ms|
      invariant incs == Filter(Chained(baseId), ms[..k])
    {
      assert ms[..k + 1] == ms[..k] + [ms[k]];
      FilterAppend(Chained(baseId), ms[..k], ms[k]);
      if IsPgIncrement(ms[k], baseId) {
        incs := incs + [ms[k]];
      }
    }
    assert ms[..|ms|] == ms;
  }

  datatype RestoreError = NoData(id: Id) | ApplyFailed

  /** A base's state and its increments, up to the commit time `upTo` if there is one. */
  function RestoreOf(catalog: Catalog, data: map<Id, seq<Captured>>, incs: seq<BackupManifest>, upTo: Option<int>, db: Db)
    : Result<Db, RestoreError>
  {
    if incs == [] then Ok(db)
    else
      var m := incs[|incs| - 1];
      var before := RestoreOf(catalog, data, incs[..|incs| - 1], upTo, db);
      if before.Err? then before
      else if m.oplogCount == Some(0) then before
      else if m.id !in data then Err(NoData(m.id))
      else
        var r := ApplySlice(catalog, data[m.id], upTo, before.value);
        if r.Ok? then Ok(r.value) else Err(ApplyFailed)
  }

  method ReplayIncrements(
      catalog: Catalog, data: map<Id, seq<Captured>>, incs: seq<BackupManifest>, upTo: Option<int>, db: Db)
    returns (r: Result<Db, RestoreError>)
    ensures r == RestoreOf(catalog, data, incs, upTo, db)
  {
    var target := db;
    for i := 0 to |incs|
      invariant RestoreOf(catalog, data, incs[..i], upTo, db) == Ok(target)
    {
      assert incs[..i + 1][..i] == incs[..i];
      RestoreFails(catalog, data, incs, i + 1, upTo, db);
      var m := incs[i];
      if m.oplogCount == Some(0) {
        continue;
      }
      if m.id !in data {
        return Err(NoData(m.id));
      }
      var next := Apply(catalog, data[m.id], upTo, target);
      if next.Err? {
        return Err(ApplyFailed);
      }
      target := next.value;
    }
    assert incs[..|incs|] == incs;
    r := Ok(target);
  }

  lemma {:induction false} RestoreFails(
      catalog: Catalog, data: map<Id, seq<Captured>>, incs: seq<BackupManifest>, k: nat, upTo: Option<int>, db: Db)
    requires k <= |incs|
    ensures RestoreOf(catalog, data, incs[..k], upTo, db).Err? ==>
              RestoreOf(catalog, data, incs, upTo, db) == RestoreOf(catalog, data, incs[..k], upTo, db)
  {
    if k == |incs| {
      assert incs[..k] == incs;
    } else {
      RestoreFails(catalog, data, incs[..|incs| - 1], k, upTo, db);
      assert incs[..|incs| - 1][..k] == incs[..k];
    }
  }

  // ----- stretches of the log -----

  function ChangesOf(t: Txn): seq<Captured> {
    seq(|t.changes|, i requires 0 <= i < |t.changes| => Captured(t.changes[i], t.commit))
  }

  function Flat(log: seq<Txn>): seq<Captured> {
    if log == [] then [] else Flat(log[..|log| - 1]) + ChangesOf(log[|log| - 1])
  }

  function Stretch(log: seq<Txn>, from: nat, to: nat): seq<Captured>
    requires from <= to <= |log|
  {
    Flat(log[from..to])
  }

  lemma FlatAppend(log: seq<Txn>, t: Txn)
    ensures Flat(log + [t]) == Flat(log) + ChangesOf(t)
  {
    assert (log + [t])[..|log|] == log;
  }

  lemma {:induction false} FlatConcat(a: seq<Txn>, b: seq<Txn>)
    ensures Flat(a + b) == Flat(a) + Flat(b)
    decreases |b|
  {
    if b == [] {
      assert a + b == a && Flat(a) + [] == Flat(a);
    } else {
      var front, last := b[..|b| - 1], b[|b| - 1];
      FrontLast(b);
      FlatConcat(a, front);
      Assoc(a, front, [last]);
      FlatAppend(a + front, last);
      Assoc(Flat(a), Flat(front), ChangesOf(last));
    }
  }

  lemma Stretches(log: seq<Txn>, i: nat, j: nat, k: nat)
    requires i <= j <= k <= |log|
    ensures Stretch(log, i, k) == Stretch(log, i, j) + Stretch(log, j, k)
  {
    assert log[i..k] == log[i..j] + log[j..k];
    FlatConcat(log[i..j], log[j..k]);
  }

  /** The server's state after the first `p` transactions. */
  function StateAt(log: seq<Txn>, p: nat): Db
    requires p <= |log|
  {
    StateAfter(Stretch(log, 0, p), map[])
  }

  /** The server executed the log from an empty database, and no update changed a key. */
  ghost predicate IsServerLog(catalog: Catalog, log: seq<Txn>) {
    AllLegal(catalog, Stretch(log, 0, |log|), map[]) && KeysKept(Stretch(log, 0, |log|))
  }

  /** What holds of the decoded changes whether or not anything was dropped. */
  ghost predicate KeepsKeys(catalog: Catalog, log: seq<Txn>) {
    KeysKept(Stretch(log, 0, |log|)) && AllTyped(catalog, Stretch(log, 0, |log|))
  }

  lemma KeptStretch(catalog: Catalog, log: seq<Txn>, i: nat, j: nat)
    requires KeepsKeys(catalog, log) && i <= j <= |log|
    ensures KeysKept(Stretch(log, i, j)) && AllTyped(catalog, Stretch(log, i, j))
  {
    Stretches(log, 0, j, |log|);
    Stretches(log, 0, i, j);
    var a, w, b := Stretch(log, 0, i), Stretch(log, i, j), Stretch(log, j, |log|);
    forall c | c in w ensures c in a + w + b {}
  }

  lemma ServerLogKeepsKeys(catalog: Catalog, log: seq<Txn>)
    requires IsServerLog(catalog, log)
    ensures KeepsKeys(catalog, log)
  {
    LegalReplay(catalog, Stretch(log, 0, |log|), map[]);
  }

  lemma LogParts(catalog: Catalog, log: seq<Txn>, i: nat, j: nat)
    requires IsServerLog(catalog, log) && i <= j <= |log|
    ensures ApplyAll(catalog, Stretch(log, i, j), StateAt(log, i)) == Ok(StateAt(log, j))
  {
    Stretches(log, 0, j, |log|);
    Stretches(log, 0, i, j);
    var a, w, b := Stretch(log, 0, i), Stretch(log, i, j), Stretch(log, j, |log|);
    LegalConcat(catalog, a + w, b, map[]);
    LegalConcat(catalog, a, w, map[]);
    LegalReplay(catalog, w, StateAt(log, i));
    StateConcat(a, w, map[]);
  }

  lemma StretchApplies(catalog: Catalog, log: seq<Txn>, i: nat, j: nat, db: Db)
    requires KeepsKeys(catalog, log) && i <= j <= |log|
    ensures ApplyAll(catalog, Stretch(log, i, j), db).Ok?
  {
    KeptStretch(catalog, log, i, j);
    ApplyByRow(catalog, Stretch(log, i, j), db);
  }

  function Replayed(catalog: Catalog, log: seq<Txn>, i: nat, j: nat, db: Db): Result<Db, ApplyError>
    requires i <= j <= |log|
  {
    ApplyAll(catalog, Stretch(log, i, j), db)
  }

  /** A slice that starts inside the stretch already replayed extends it. */
  lemma SliceExtends(catalog: Catalog, log: seq<Txn>, s: nat, f: nat, r: nat, t: nat, db: Db)
    requires KeepsKeys(catalog, log) && s <= f <= r <= t <= |log|
    ensures Replayed(catalog, log, s, r, db).Ok?
    ensures Replayed(catalog, log, f, t, Replayed(catalog, log, s, r, db).value) == Replayed(catalog, log, s, t, db)
  {
    Stretches(log, s, f, r);
    Stretches(log, f, r, t);
    Stretches(log, s, r, t);
    KeptStretch(catalog, log, s, t);
    KeptStretch(catalog, log, f, r);
    OverlapIsAbsorbed(catalog, Stretch(log, s, f), Stretch(log, f, r), Stretch(log, r, t), db);
  }

  /** From the snapshot at `b`, replaying from an earlier `s` to `t` gives the
      server's state at `t`, if `t` is not before the snapshot. */
  lemma SnapshotAbsorbs(catalog: Catalog, log: seq<Txn>, s: nat, b: nat, t: nat)
    requires IsServerLog(catalog, log) && s <= b <= t <= |log|
    ensures Replayed(catalog, log, s, t, StateAt(log, b)) == Ok(StateAt(log, t))
  {
    ServerLogKeepsKeys(catalog, log);
    LogParts(catalog, log, s, b);
    LogParts(catalog, log, b, t);
    SliceExtends(catalog, log, s, s, b, t, StateAt(log, s));
    Stretches(log, s, b, t);
    ApplyConcat(catalog, Stretch(log, s, b), Stretch(log, b, t), StateAt(log, s));
  }
}
