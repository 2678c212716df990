/** Runs of a PostgreSQL store: full backups that recreate the slot, and may fail
    after that, increments that may overlap, prunes, and a log that grows.  The slices
    of a base give the last captured state exactly when each starts at or before the
    end of the one before it; whenever each full backup that recreated the slot was
    recorded, and prunes leave the newest one alone, they do. */
module PgRuns {
  import opened Schema
  import opened StableSort
  import opened PgReplay
  import opened PgCapture

  // ----- a snapshot and an earlier start -----

  ghost predicate LandsOnAState(catalog: Catalog, log: seq<Txn>, s: nat, b: nat, t: nat)
    requires s <= t <= |log| && b <= |log|
  {
    exists p: nat :: p <= |log| && Replayed(catalog, log, s, t, StateAt(log, b)) == Ok(StateAt(log, p))
  }

  ghost predicate AlwaysLands(n: nat, s: nat, b: nat, t: nat)
    requires s <= t <= n && b <= n
  {
    forall catalog, log :: |log| == n && IsServerLog(catalog, log) ==> LandsOnAState(catalog, log, s, b, t)
  }

  /** A replay that began before the snapshot gives a state that the server had,
      on every log, exactly when it reaches the snapshot or replays nothing. */
  lemma ReachesSnapshotMeansState(n: nat, s: nat, b: nat, t: nat)
    requires s <= b <= n && s <= t <= n
    ensures AlwaysLands(n, s, b, t) <==> t >= b || t == s
  {
    if t >= b {
      forall catalog, log | |log| == n && IsServerLog(catalog, log) ensures LandsOnAState(catalog, log, s, b, t) {
        SnapshotAbsorbs(catalog, log, s, b, t);
      }
    } else if t == s {
      forall catalog, log | |log| == n && IsServerLog(catalog, log) ensures LandsOnAState(catalog, log, s, b, t) {
        assert log[s..s] == [];
        assert Replayed(catalog, log, s, t, StateAt(log, b)) == Ok(StateAt(log, b));
      }
    } else {
      HalfwayIsNoState(n, s, b, t);
      assert !LandsOnAState(HalfwayCatalog(), HalfwayLog(n, s, t), s, b, t);
    }
  }

  function HalfwayCatalog(): Catalog {
    (table: string) => TableShape(1, {"v"}, {})
  }

  const FIRST: Key := Key("t", ["1"])
  const SECOND: Key := Key("t", ["2"])
  const OLD_ROW: Row := map["v" := None]
  const NEW_ROW: Row := map["v" := Some("")]

  /** A row appears at `s`; at `t` it changes and a second row appears. */
  function HalfwayLog(n: nat, s: nat, t: nat): seq<Txn> {
    seq(n, i => if i == s then Txn(0, [Insert(FIRST, OLD_ROW)], 3)
                else if i == t then Txn(0, [Update(FIRST, FIRST, NEW_ROW), Insert(SECOND, OLD_ROW)], 4)
                else Txn(0, [], 2))
  }

  lemma {:induction false} QuietStretch(log: seq<Txn>, i: nat, j: nat)
    requires i <= j <= |log| && forall k :: i <= k < j ==> log[k].changes == []
    ensures Stretch(log, i, j) == []
    decreases j
  {
    if i < j {
      QuietStretch(log, i, j - 1);
      assert log[i..j][..j - i - 1] == log[i..j - 1];
    }
  }

  lemma OneTxn(log: seq<Txn>, i: nat)
    requires i < |log|
    ensures Stretch(log, i, i + 1) == ChangesOf(log[i])
  {
    assert log[i..i + 1] == [log[i]] && [log[i]][..0] == [];
    assert Flat([log[i]]) == [] + ChangesOf(log[i]);
  }

  lemma OnlyTxn(log: seq<Txn>, i: nat, k: nat, j: nat)
    requires i <= k < j <= |log| && forall x :: i <= x < j && x != k ==> log[x].changes == []
    ensures Stretch(log, i, j) == ChangesOf(log[k])
  {
    Stretches(log, i, k, j);
    Stretches(log, k, k + 1, j);
    QuietStretch(log, i, k);
    OneTxn(log, k);
    QuietStretch(log, k + 1, j);
  }

  const APPEARS: Captured := Captured(Insert(FIRST, OLD_ROW), 0)
  const CHANGES: Captured := Captured(Update(FIRST, FIRST, NEW_ROW), 0)
  const JOINS: Captured := Captured(Insert(SECOND, OLD_ROW), 0)

  lemma HalfwayStretches(n: nat, s: nat, t: nat, p: nat)
    requires s < t < n && p <= n
    ensures var log := HalfwayLog(n, s, t);
            && Stretch(log, s, t) == [APPEARS]
            && Stretch(log, 0, p) == if p <= s then [] else if p <= t then [APPEARS] else [APPEARS, CHANGES, JOINS]
  {
    var log := HalfwayLog(n, s, t);
    assert ChangesOf(log[s]) == [APPEARS] && ChangesOf(log[t]) == [CHANGES, JOINS];
    OnlyTxn(log, s, s, t);
    if p <= s {
      QuietStretch(log, 0, p);
    } else if p <= t {
      OnlyTxn(log, 0, s, p);
    } else {
      OnlyTxn(log, 0, s, t);
      OnlyTxn(log, t, t, p);
      Stretches(log, 0, t, p);
    }
  }

  lemma ThreeChanges()
    ensures StateAfter([], map[]) == map[] && StateAfter([APPEARS], map[]) == map[FIRST := OLD_ROW]
    ensures StateAfter([APPEARS, CHANGES, JOINS], map[]) == map[FIRST := NEW_ROW, SECOND := OLD_ROW]
    ensures AllLegal(HalfwayCatalog(), [APPEARS, CHANGES, JOINS], map[])
  {
    var two, three := [APPEARS, CHANGES], [APPEARS, CHANGES, JOINS];
    assert [APPEARS][..0] == [] && two[..1] == [APPEARS] && three[..2] == two;
    assert StateAfter([APPEARS], map[]) == map[FIRST := OLD_ROW];
    assert AllLegal(HalfwayCatalog(), [APPEARS], map[]);
    assert OLD_ROW + NEW_ROW == NEW_ROW;
    assert StateAfter(two, map[]) == map[FIRST := NEW_ROW];
    assert AllLegal(HalfwayCatalog(), two, map[]);
  }

  lemma OldOntoNew()
    ensures ApplyAll(HalfwayCatalog(), [APPEARS], map[FIRST := NEW_ROW, SECOND := OLD_ROW])
            == Ok(map[FIRST := OLD_ROW, SECOND := OLD_ROW])
  {
    var snapshot: Db := map[FIRST := NEW_ROW, SECOND := OLD_ROW];
    assert [APPEARS][..0] == [];
    assert NEW_ROW + (OLD_ROW - {}) == OLD_ROW;
    assert snapshot[FIRST := OLD_ROW] == map[FIRST := OLD_ROW, SECOND := OLD_ROW];
    assert Applied(HalfwayCatalog(), snapshot, APPEARS.change) == Ok(snapshot[FIRST := OLD_ROW]);
  }

  lemma HalfwayIsNoState(n: nat, s: nat, b: nat, t: nat)
    requires s < t < b <= n
    ensures IsServerLog(HalfwayCatalog(), HalfwayLog(n, s, t))
    ensures !LandsOnAState(HalfwayCatalog(), HalfwayLog(n, s, t), s, b, t)
  {
    var catalog, log := HalfwayCatalog(), HalfwayLog(n, s, t);
    ThreeChanges();
    HalfwayStretches(n, s, t, n);
    HalfwayStretches(n, s, t, b);
    var snapshot: Db := map[FIRST := NEW_ROW, SECOND := OLD_ROW];
    var mixed: Db := map[FIRST := OLD_ROW, SECOND := OLD_ROW];
    OldOntoNew();
    assert Replayed(catalog, log, s, t, snapshot) == Ok(mixed);
    forall p: nat | p <= n ensures StateAt(log, p) != mixed {
      HalfwayStretches(n, s, t, p);
      assert SECOND in mixed && mixed[FIRST] == OLD_ROW && OLD_ROW["v"] != NEW_ROW["v"];
    }
  }

  // ----- a commit time to stop at -----

  ghost predicate CommitsInOrder(log: seq<Txn>) {
    forall i, j :: 0 <= i < j < |log| ==> log[i].commit <= log[j].commit
  }

  predicate IsTaken(t: Txn, upTo: Option<int>) {
    upTo.Some? ==> t.commit <= upTo.value
  }

  /** How many of the transactions a replay up to `upTo` takes. */
  function CutAt(log: seq<Txn>, upTo: Option<int>): (q: nat)
    ensures q <= |log|
  {
    if log == [] || IsTaken(log[|log| - 1], upTo) then |log| else CutAt(log[..|log| - 1], upTo)
  }

  lemma {:induction false} CutSplits(log: seq<Txn>, upTo: Option<int>)
    requires upTo.Some? ==> CommitsInOrder(log)
    ensures forall i :: 0 <= i < |log| ==> (i < CutAt(log, upTo) <==> IsTaken(log[i], upTo))
  {
    if log != [] {
      var front, last := log[..|log| - 1], log[|log| - 1];
      if !IsTaken(last, upTo) {
        CutSplits(front, upTo);
      }
      forall i | 0 <= i < |log| ensures i < CutAt(log, upTo) <==> IsTaken(log[i], upTo) {
        assert i < |front| ==> front[i] == log[i] && (upTo.Some? ==> log[i].commit <= last.commit);
      }
    }
  }

  function Min(a: nat, b: nat): nat { if a <= b then a else b }

  lemma {:induction false} FilterNone(keep: Captured -> bool, cs: seq<Captured>)
    requires forall c :: c in cs ==> !keep(c)
    ensures Filter(keep, cs) == []
  {
    if cs != [] {
      FrontLast(cs);
      FilterNone(keep, cs[..|cs| - 1]);
    }
  }

  lemma {:induction false} StretchCommits(log: seq<Txn>, i: nat, j: nat, c: Captured)
    requires i <= j <= |log| && c in Stretch(log, i, j)
    ensures exists k :: i <= k < j && log[k].commit == c.commit
    decreases j
  {
    if i < j {
      assert log[i..j][..j - i - 1] == log[i..j - 1];
      if c in Stretch(log, i, j - 1) {
        StretchCommits(log, i, j - 1, c);
      }
    }
  }

  lemma TakenStretch(log: seq<Txn>, i: nat, j: nat, upTo: Option<int>)
    requires i <= j <= |log| && forall k :: i <= k < j ==> IsTaken(log[k], upTo)
    ensures Filter(UpTo(upTo), Stretch(log, i, j)) == Stretch(log, i, j)
  {
    forall c | c in Stretch(log, i, j) ensures Reaches(c, upTo) {
      StretchCommits(log, i, j, c);
    }
    FilterAll(UpTo(upTo), Stretch(log, i, j));
  }

  lemma SkippedStretch(log: seq<Txn>, i: nat, j: nat, upTo: Option<int>)
    requires i <= j <= |log| && forall k :: i <= k < j ==> !IsTaken(log[k], upTo)
    ensures Filter(UpTo(upTo), Stretch(log, i, j)) == []
  {
    forall c | c in Stretch(log, i, j) ensures !Reaches(c, upTo) {
      StretchCommits(log, i, j, c);
    }
    FilterNone(UpTo(upTo), Stretch(log, i, j));
  }

  lemma NoStretch(log: seq<Txn>, i: nat)
    requires i <= |log|
    ensures Stretch(log, i, i) == []
  {
    assert log[i..i] == [];
  }

  /** Skipping the changes after a commit time cuts each stretch at one position. */
  lemma CutStretch(log: seq<Txn>, i: nat, j: nat, upTo: Option<int>)
    requires i <= j <= |log| && (upTo.Some? ==> CommitsInOrder(log))
    ensures var q := CutAt(log, upTo);
            Filter(UpTo(upTo), Stretch(log, i, j)) == Stretch(log, Min(i, q), Min(j, q))
  {
    var q := CutAt(log, upTo);
    CutSplits(log, upTo);
    if j <= q {
      TakenStretch(log, i, j, upTo);
    } else if q <= i {
      SkippedStretch(log, i, j, upTo);
      NoStretch(log, q);
    } else {
      Stretches(log, i, q, j);
      FilterConcat(UpTo(upTo), Stretch(log, i, q), Stretch(log, q, j));
      TakenStretch(log, i, q, upTo);
      SkippedStretch(log, q, j, upTo);
    }
  }

  // ----- slices and the transactions they hold -----

  /** The transactions that a slice holds. */
  datatype Span = Span(from: nat, to: nat)

  function SpanOf(spans: map<Id, Span>, m: BackupManifest): Span {
    if m.id in spans then spans[m.id] else Span(0, 0)
  }

  function SpansOf(spans: map<Id, Span>, incs: seq<BackupManifest>): (ss: seq<Span>)
    ensures |ss| == |incs|
    ensures forall i :: 0 <= i < |incs| ==> ss[i] == SpanOf(spans, incs[i])
  {
    seq(|incs|, i requires 0 <= i < |incs| => SpanOf(spans, incs[i]))
  }

  ghost predicate Within(n: nat, ss: seq<Span>) {
    forall i :: 0 <= i < |ss| ==> ss[i].from <= ss[i].to <= n
  }

  /** The slot only moves forward. */
  predicate Grows(prev: Span, next: Span) {
    prev.from <= next.from && prev.to <= next.to
  }

  ghost predicate AllGrow(ss: seq<Span>) {
    forall i, j :: 0 <= i < |ss| && j == i + 1 < |ss| ==> Grows(ss[i], ss[j])
  }

  /** A capture reads on as long as there is something to read. */
  ghost predicate ReadsOn(b: nat, ss: seq<Span>) {
    forall i :: 0 <= i < |ss| ==> ss[i].to < b ==> ss[i].from < ss[i].to
  }

  /** The spans that the slices of a base with snapshot `b` can have. */
  ghost predicate IsHistory(n: nat, b: nat, ss: seq<Span>) {
    b <= n && Within(n, ss) && AllGrow(ss) && ReadsOn(b, ss)
  }

  /** The first slice starts at or before the snapshot, each later one at or
      before the end of the one before it. */
  ghost predicate IsCovered(b: nat, ss: seq<Span>) {
    ss != [] ==>
      && ss[0].from <= b
      && forall i, j :: 0 <= i < |ss| && j == i + 1 < |ss| ==> ss[j].from <= ss[i].to
  }

  /** Replays stretch after stretch, each cut at position `q`. */
  function ReplaySpans(catalog: Catalog, log: seq<Txn>, ss: seq<Span>, q: nat, db: Db): Result<Db, ApplyError>
    requires Within(|log|, ss) && q <= |log|
  {
    if ss == [] then Ok(db)
    else
      var before, last := ReplaySpans(catalog, log, ss[..|ss| - 1], q, db), ss[|ss| - 1];
      if before.Err? then before else Replayed(catalog, log, Min(last.from, q), Min(last.to, q), before.value)
  }

  /** Replaying slices that cover each other is one replay, from where the first
      starts to where the last ends, both cut at the target. */
  lemma {:induction false} SlicesAreOneStretch(catalog: Catalog, log: seq<Txn>, b: nat, ss: seq<Span>, q: nat, db: Db)
    requires KeepsKeys(catalog, log) && IsHistory(|log|, b, ss) && IsCovered(b, ss) && ss != [] && q <= |log|
    ensures ss[0].from <= ss[|ss| - 1].from
    ensures var r := Replayed(catalog, log, Min(ss[0].from, q), Min(ss[|ss| - 1].to, q), db);
            r.Ok? && ReplaySpans(catalog, log, ss, q, db) == r
    decreases |ss|
  {
    var front, first, last := ss[..|ss| - 1], ss[0], ss[|ss| - 1];
    StretchApplies(catalog, log, Min(last.from, q), Min(last.to, q), db);
    if front == [] {
      assert ReplaySpans(catalog, log, front, q, db) == Ok(db);
    } else {
      SlicesAreOneStretch(catalog, log, b, front, q, db);
      var prev := front[|front| - 1];
      assert Grows(prev, last) && last.from <= prev.to;
      SliceExtends(catalog, log, Min(first.from, q), Min(last.from, q), Min(prev.to, q), Min(last.to, q), db);
      StretchApplies(catalog, log, Min(first.from, q), Min(last.to, q), db);
    }
  }

  lemma CoveredIsExact(catalog: Catalog, log: seq<Txn>, b: nat, ss: seq<Span>, q: nat)
    requires IsServerLog(catalog, log) && IsHistory(|log|, b, ss) && IsCovered(b, ss) && ss != []
    requires b <= q <= |log| && b <= ss[|ss| - 1].to
    ensures ReplaySpans(catalog, log, ss, q, StateAt(log, b)) == Ok(StateAt(log, Min(ss[|ss| - 1].to, q)))
  {
    ServerLogKeepsKeys(catalog, log);
    SlicesAreOneStretch(catalog, log, b, ss, q, StateAt(log, b));
    SnapshotAbsorbs(catalog, log, Min(ss[0].from, q), b, Min(ss[|ss| - 1].to, q));
  }

  // ----- which slices give the last captured state on every log -----

  ghost predicate AlwaysExact(n: nat, b: nat, ss: seq<Span>)
    requires b <= n && Within(n, ss) && ss != []
  {
    forall catalog, log :: |log| == n && IsServerLog(catalog, log) ==>
      ReplaySpans(catalog, log, ss, n, StateAt(log, b)) == Ok(StateAt(log, ss[|ss| - 1].to))
  }

  predicate Spans(s: Span, g: nat) {
    s.from <= g < s.to
  }

  ghost predicate SomeSpans(ss: seq<Span>, g: nat) {
    exists i :: 0 <= i < |ss| && Spans(ss[i], g)
  }

  lemma {:induction false} SpansGrow(ss: seq<Span>, i: nat, j: nat)
    requires AllGrow(ss) && i <= j < |ss|
    ensures ss[i].from <= ss[j].from && ss[i].to <= ss[j].to
    decreases j
  {
    if i < j {
      SpansGrow(ss, i, j - 1);
      assert Grows(ss[j - 1], ss[j]);
    }
  }

  /** One row appears, at `g`. */
  function OneInsertLog(n: nat, g: nat): seq<Txn> {
    seq(n, i => if i == g then Txn(0, [Insert(FIRST, OLD_ROW)], 3) else Txn(0, [], 2))
  }

  const NO_ROW: Db := map[]
  const ONE_ROW: Db := map[FIRST := OLD_ROW]

  lemma OneInsertStretch(n: nat, g: nat, i: nat, j: nat)
    requires g < n && i <= j <= n
    ensures Stretch(OneInsertLog(n, g), i, j) == if Spans(Span(i, j), g) then [APPEARS] else []
  {
    var log := OneInsertLog(n, g);
    assert ChangesOf(log[g]) == [APPEARS];
    if Spans(Span(i, j), g) {
      OnlyTxn(log, i, g, j);
    } else {
      QuietStretch(log, i, j);
    }
  }

  lemma OneInsertState(n: nat, g: nat, p: nat)
    requires g < n && p <= n
    ensures StateAt(OneInsertLog(n, g), p) == if p <= g then NO_ROW else ONE_ROW
    ensures IsServerLog(HalfwayCatalog(), OneInsertLog(n, g))
  {
    OneInsertStretch(n, g, 0, p);
    OneInsertStretch(n, g, 0, n);
    ThreeChanges();
    assert [APPEARS][..0] == [];
    assert AllLegal(HalfwayCatalog(), [APPEARS], map[]);
  }

  lemma {:induction false} SkippedInsert(n: nat, g: nat, ss: seq<Span>, db: Db)
    requires g < n && Within(n, ss) && !SomeSpans(ss, g)
    ensures ReplaySpans(HalfwayCatalog(), OneInsertLog(n, g), ss, n, db) == Ok(db)
  {
    if ss != [] {
      var front, last := ss[..|ss| - 1], ss[|ss| - 1];
      assert forall i :: 0 <= i < |front| ==> front[i] == ss[i];
      assert !Spans(ss[|ss| - 1], g);
      SkippedInsert(n, g, front, db);
      OneInsertStretch(n, g, last.from, last.to);
    }
  }

  /** A change at a position that no slice holds is lost if it lies between the
      snapshot and the last captured position, either way. */
  lemma SkippedIsWrong(n: nat, b: nat, ss: seq<Span>, g: nat)
    requires g < n && b <= n && Within(n, ss) && ss != [] && !SomeSpans(ss, g)
    requires b <= g <==> g < ss[|ss| - 1].to
    ensures !AlwaysExact(n, b, ss)
  {
    var log, last := OneInsertLog(n, g), ss[|ss| - 1].to;
    OneInsertState(n, g, b);
    OneInsertState(n, g, last);
    SkippedInsert(n, g, ss, StateAt(log, b));
    assert FIRST in ONE_ROW && FIRST !in NO_ROW;
    assert StateAt(log, b) != StateAt(log, last);
  }

  const SNAPSHOT: Db := map[FIRST := NEW_ROW, SECOND := OLD_ROW]
  const MIXED: Db := map[FIRST := OLD_ROW, SECOND := OLD_ROW]

  lemma OldOntoOld()
    ensures ApplyAll(HalfwayCatalog(), [APPEARS], MIXED) == Ok(MIXED)
  {
    assert [APPEARS][..0] == [];
    assert OLD_ROW + (OLD_ROW - {}) == OLD_ROW && MIXED[FIRST := OLD_ROW] == MIXED;
    assert Applied(HalfwayCatalog(), MIXED, APPEARS.change) == Ok(MIXED);
  }

  lemma HalfwayStretch(n: nat, s: nat, t: nat, i: nat, j: nat)
    requires s < t < n && i <= j <= n && !Spans(Span(i, j), t)
    ensures Stretch(HalfwayLog(n, s, t), i, j) == if Spans(Span(i, j), s) then [APPEARS] else []
  {
    var log := HalfwayLog(n, s, t);
    assert ChangesOf(log[s]) == [APPEARS];
    if Spans(Span(i, j), s) {
      OnlyTxn(log, i, s, j);
    } else {
      QuietStretch(log, i, j);
    }
  }

  /** The row's old value comes back, and its new value is in no slice. */
  lemma {:induction false} OldRowComesBack(n: nat, s: nat, t: nat, ss: seq<Span>)
    requires s < t < n && Within(n, ss) && !SomeSpans(ss, t)
    ensures ReplaySpans(HalfwayCatalog(), HalfwayLog(n, s, t), ss, n, SNAPSHOT)
            == Ok(if SomeSpans(ss, s) then MIXED else SNAPSHOT)
  {
    if ss != [] {
      var front, last := ss[..|ss| - 1], ss[|ss| - 1];
      assert forall i :: 0 <= i < |front| ==> front[i] == ss[i];
      assert !Spans(ss[|ss| - 1], t);
      assert SomeSpans(ss, s) <==> SomeSpans(front, s) || Spans(last, s) by {
        if SomeSpans(ss, s) && !Spans(last, s) {
          var i :| 0 <= i < |ss| && Spans(ss[i], s);
          assert Spans(front[i], s);
        }
      }
      OldRowComesBack(n, s, t, front);
      HalfwayStretch(n, s, t, last.from, last.to);
      OldOntoNew();
      OldOntoOld();
    }
  }

  lemma HalfwayEnds(n: nat, s: nat, t: nat, p: nat)
    requires s < t < p <= n
    ensures StateAt(HalfwayLog(n, s, t), p) == SNAPSHOT && IsServerLog(HalfwayCatalog(), HalfwayLog(n, s, t))
  {
    HalfwayStretches(n, s, t, n);
    HalfwayStretches(n, s, t, p);
    ThreeChanges();
  }

  lemma MixedIsOther()
    ensures MIXED != SNAPSHOT
  {
    assert MIXED[FIRST] == OLD_ROW && SNAPSHOT[FIRST] == NEW_ROW && OLD_ROW["v"] != NEW_ROW["v"];
  }

  lemma GapEnds(n: nat, b: nat, ss: seq<Span>, i: nat)
    requires IsHistory(n, b, ss) && i < |ss| - 1 && ss[i].to < ss[i + 1].from && ss[i].to < b <= ss[|ss| - 1].to
    ensures ss[i].from < ss[i].to && ss[|ss| - 1].to <= n
    ensures SomeSpans(ss, ss[i].from) && !SomeSpans(ss, ss[i].to)
  {
    GapIsInNoSlice(ss, i);
    assert Spans(ss[i], ss[i].from);
  }

  /** A gap that begins before the snapshot: an older value is replayed over it. */
  lemma GapBeforeSnapshot(n: nat, b: nat, ss: seq<Span>, i: nat)
    requires IsHistory(n, b, ss) && i < |ss| - 1 && ss[i].to < ss[i + 1].from && ss[i].to < b <= ss[|ss| - 1].to
    ensures !AlwaysExact(n, b, ss)
  {
    var s, t, last := ss[i].from, ss[i].to, ss[|ss| - 1].to;
    GapEnds(n, b, ss, i);
    OldRowComesBack(n, s, t, ss);
    HalfwayEnds(n, s, t, b);
    HalfwayEnds(n, s, t, last);
    MixedIsOther();
    assert IsServerLog(HalfwayCatalog(), HalfwayLog(n, s, t));
  }

  lemma GapIsInNoSlice(ss: seq<Span>, i: nat)
    requires AllGrow(ss) && i < |ss| - 1 && ss[i].to < ss[i + 1].from
    ensures !SomeSpans(ss, ss[i].to)
  {
    forall k | 0 <= k < |ss| ensures !Spans(ss[k], ss[i].to) {
      if k <= i {
        SpansGrow(ss, k, i);
      } else {
        SpansGrow(ss, i + 1, k);
      }
    }
  }

  lemma GapIsWrong(n: nat, b: nat, ss: seq<Span>, i: nat)
    requires IsHistory(n, b, ss) && i < |ss| - 1 && ss[i].to < ss[i + 1].from && b <= ss[|ss| - 1].to
    ensures !AlwaysExact(n, b, ss)
  {
    GapIsInNoSlice(ss, i);
    if b <= ss[i].to {
      SpansGrow(ss, i + 1, |ss| - 1);
      SkippedIsWrong(n, b, ss, ss[i].to);
    } else {
      GapBeforeSnapshot(n, b, ss, i);
    }
  }

  lemma LateStartIsWrong(n: nat, b: nat, ss: seq<Span>)
    requires IsHistory(n, b, ss) && ss != [] && b < ss[0].from
    ensures !AlwaysExact(n, b, ss)
  {
    forall k | 0 <= k < |ss| ensures !Spans(ss[k], b) {
      SpansGrow(ss, 0, k);
    }
    SpansGrow(ss, 0, |ss| - 1);
    SkippedIsWrong(n, b, ss, b);
  }

  lemma EarlyEndIsWrong(n: nat, b: nat, ss: seq<Span>)
    requires IsHistory(n, b, ss) && ss != [] && ss[|ss| - 1].to < b
    ensures !AlwaysExact(n, b, ss)
  {
    var last := ss[|ss| - 1].to;
    forall k | 0 <= k < |ss| ensures !Spans(ss[k], last) {
      SpansGrow(ss, k, |ss| - 1);
    }
    SkippedIsWrong(n, b, ss, last);
  }

  /** The slices of a base give the state at the last captured position, on every
      log, exactly when they cover it: the first starts at or before the snapshot,
      each later one at or before the end of the one before, and the last does not
      end before the snapshot. */
  lemma ExactMeansCovered(n: nat, b: nat, ss: seq<Span>)
    requires IsHistory(n, b, ss) && ss != []
    ensures AlwaysExact(n, b, ss) <==> IsCovered(b, ss) && b <= ss[|ss| - 1].to
  {
    if ss[0].from > b {
      LateStartIsWrong(n, b, ss);
    } else if ss[|ss| - 1].to < b {
      EarlyEndIsWrong(n, b, ss);
    } else if i, j :| 0 <= i < |ss| && j == i + 1 < |ss| && ss[i].to < ss[j].from {
      GapIsWrong(n, b, ss, i);
    } else {
      forall catalog, log | |log| == n && IsServerLog(catalog, log)
        ensures ReplaySpans(catalog, log, ss, n, StateAt(log, b)) == Ok(StateAt(log, ss[|ss| - 1].to))
      {
        CoveredIsExact(catalog, log, b, ss, n);
      }
    }
  }

  // ----- what a restore replays -----

  ghost predicate Holds(log: seq<Txn>, data: map<Id, seq<Captured>>, spans: map<Id, Span>, m: BackupManifest) {
    && m.id in spans && spans[m.id].from <= spans[m.id].to <= |log|
    && var cs := Stretch(log, SpanOf(spans, m).from, SpanOf(spans, m).to);
       && m.oplogCount == Some(|cs|)
       && (cs != [] ==> m.id in data && data[m.id] == cs)
  }

  ghost predicate AllHold(log: seq<Txn>, data: map<Id, seq<Captured>>, spans: map<Id, Span>, incs: seq<BackupManifest>) {
    forall m {:trigger Holds(log, data, spans, m)} :: m in incs ==> Holds(log, data, spans, m)
  }

  lemma SpansWithin(log: seq<Txn>, data: map<Id, seq<Captured>>, spans: map<Id, Span>, incs: seq<BackupManifest>)
    requires AllHold(log, data, spans, incs)
    ensures Within(|log|, SpansOf(spans, incs))
  {
    forall i | 0 <= i < |incs| ensures SpanOf(spans, incs[i]).from <= SpanOf(spans, incs[i]).to <= |log| {
      assert Holds(log, data, spans, incs[i]);
    }
  }

  lemma SliceApplies(
      catalog: Catalog, log: seq<Txn>, data: map<Id, seq<Captured>>, spans: map<Id, Span>, incs: seq<BackupManifest>,
      upTo: Option<int>, db: Db, before: Db)
    requires incs != [] && Holds(log, data, spans, incs[|incs| - 1])
    requires upTo.Some? ==> CommitsInOrder(log)
    requires RestoreOf(catalog, data, incs[..|incs| - 1], upTo, db) == Ok(before)
    ensures var q, span := CutAt(log, upTo), SpanOf(spans, incs[|incs| - 1]);
            var r := Replayed(catalog, log, Min(span.from, q), Min(span.to, q), before);
            RestoreOf(catalog, data, incs, upTo, db) == if r.Ok? then Ok(r.value) else Err(ApplyFailed)
  {
    var span := SpanOf(spans, incs[|incs| - 1]);
    CutStretch(log, span.from, span.to, upTo);
  }

  function AsRestore(r: Result<Db, ApplyError>): Result<Db, RestoreError> {
    if r.Ok? then Ok(r.value) else Err(ApplyFailed)
  }

  lemma FrontHolds(log: seq<Txn>, data: map<Id, seq<Captured>>, spans: map<Id, Span>, incs: seq<BackupManifest>)
    requires AllHold(log, data, spans, incs) && incs != []
    ensures AllHold(log, data, spans, incs[..|incs| - 1]) && Holds(log, data, spans, incs[|incs| - 1])
    ensures SpansOf(spans, incs)[..|incs| - 1] == SpansOf(spans, incs[..|incs| - 1])
  {
    FrontLast(incs);
    forall m | m in incs[..|incs| - 1] ensures Holds(log, data, spans, m) {
      assert m in incs;
    }
    assert incs[|incs| - 1] in incs && Holds(log, data, spans, incs[|incs| - 1]);
  }

  /** A restore replays the stretches of its slices, cut at the target. */
  lemma {:induction false} RestoreIsReplay(
      catalog: Catalog, log: seq<Txn>, data: map<Id, seq<Captured>>, spans: map<Id, Span>, incs: seq<BackupManifest>,
      upTo: Option<int>, db: Db)
    requires AllHold(log, data, spans, incs) && (upTo.Some? ==> CommitsInOrder(log))
    ensures Within(|log|, SpansOf(spans, incs))
    ensures RestoreOf(catalog, data, incs, upTo, db)
            == AsRestore(ReplaySpans(catalog, log, SpansOf(spans, incs), CutAt(log, upTo), db))
    decreases |incs|
  {
    SpansWithin(log, data, spans, incs);
    if incs != [] {
      var front := incs[..|incs| - 1];
      FrontHolds(log, data, spans, incs);
      RestoreIsReplay(catalog, log, data, spans, front, upTo, db);
      var before := RestoreOf(catalog, data, front, upTo, db);
      if before.Ok? {
        SliceApplies(catalog, log, data, spans, incs, upTo, db, before.value);
      }
    }
  }

  // ----- states and steps -----

  /** `slot` is where the replication slot stands, `opening` whether a full backup
      has recreated it and not yet recorded its manifest.  `snaps` and `spans` say
      which positions the backups saw; `data` is everything that was ever stored,
      `lost` what prunes have deleted of it. */
  datatype State = State(
    log: seq<Txn>, slot: Option<nat>, opening: bool, store: seq<BackupManifest>, snaps: map<Id, nat>,
    spans: map<Id, Span>, data: map<Id, seq<Captured>>, lost: set<Id>, nextId: Id)
  {
    function Archives(): map<Id, seq<Captured>> { data - lost }
  }

  ghost predicate Init(s: State) {
    && s.log == [] && s.slot == None && !s.opening && s.store == []
    && s.snaps == map[] && s.spans == map[] && s.data == map[] && s.lost == {}
  }

  ghost predicate ServerCommits(s: State, s': State, txns: seq<Txn>) {
    s' == s.(log := s.log + txns)
  }

  ghost predicate RecreatesSlot(s: State, s': State) {
    !s.opening && s' == s.(slot := Some(|s.log|), opening := true)
  }

  function FullManifest(id: Id, created: Option<i64>): BackupManifest {
    BackupManifest(id, created, Full, None, PgArchive, false, None, None, false, Complete)
  }

  /** A full backup ends; its snapshot `b` was taken after the slot was where it is. */
  ghost predicate RecordsFull(s: State, s': State, created: Option<i64>, b: nat) {
    && b <= |s.log| && (s.slot.Some? ==> s.slot.value <= b)
    && s' == s.(store := s.store + [FullManifest(s.nextId, created)], snaps := s.snaps[s.nextId := b],
                opening := false, nextId := s.nextId + 1)
  }

  /** A full backup that recreated the slot fails before its manifest. */
  ghost predicate AbandonsFull(s: State, s': State) {
    s.opening && s' == s.(opening := false)
  }

  function IncrementManifest(id: Id, created: Option<i64>, baseId: Id, count: nat): BackupManifest {
    BackupManifest(id, created, Incremental, Some(baseId), PgIncr, false, None, Some(count), false, Complete)
  }

  /** A slice is captured, stored and recorded.  The advance may fail, fully or
      in part: the slot ends anywhere from where it was to the end of the slice. */
  ghost predicate TakesIncrement(s: State, s': State, created: Option<i64>, p: nat) {
    && !s.opening && s.slot.Some? && s.slot.value <= |s.log|
    && var base := LatestFull(s.store);
    && base.Some?
    && var span := Span(s.slot.value, PeekEnd(s.log, s.slot.value));
    && span.from <= p <= span.to
    && var cs := Stretch(s.log, span.from, span.to);
    && s' == s.(store := s.store + [IncrementManifest(s.nextId, created, base.value.id, |cs|)],
                spans := s.spans[s.nextId := span],
                data := if cs == [] then s.data else s.data[s.nextId := cs],
                slot := Some(p), nextId := s.nextId + 1)
  }

  /** A capture that failed before its manifest, with or without leftovers. */
  ghost predicate AbandonsUpload(s: State, s': State, leftover: seq<Captured>) {
    s' == s.(data := s.data[s.nextId := leftover], nextId := s.nextId + 1)
  }

  /** A full backup that no increment may continue: one that is selective, not
      complete, or of another format. */
  ghost predicate RecordsOther(s: State, s': State, m: BackupManifest) {
    && m.id == s.nextId && m.backupType == Full && (m.selective || m.status != Complete || m.format != PgArchive)
    && s' == s.(store := s.store + [m], nextId := s.nextId + 1)
  }

  function Stays(gone: set<Id>): BackupManifest -> bool {
    (m: BackupManifest) => m.id !in gone
  }

  /** From the first deleted slice on, everything is deleted. */
  ghost predicate GoneFromSomewhere(chain: seq<BackupManifest>, gone: set<Id>) {
    forall i, j :: 0 <= i < j < |chain| && chain[i].id in gone ==> chain[j].id in gone
  }

  /** A deletion takes an end of each chain, and a base only with its whole chain. */
  ghost predicate TakesChainEnds(ms: seq<BackupManifest>, gone: set<Id>) {
    && (forall b: Id :: GoneFromSomewhere(Filter(Chained(b), ms), gone))
    && (forall m :: m in ms && m.backupType == Incremental && m.baseId.Some? && m.baseId.value in gone ==> m.id in gone)
  }

  /** A prune, complete or stopped: what is left of the manifests, and the data it deleted. */
  ghost predicate Prunes(s: State, s': State, gone: set<Id>, lost: set<Id>) {
    && TakesChainEnds(s.store, gone) && lost <= s.data.Keys
    && s' == s.(store := Filter(Stays(gone), s.store), lost := s.lost + lost)
  }

  /** The newest full backup stays, with all its slices. */
  ghost predicate SparesNewest(s: State, gone: set<Id>) {
    var f := LatestFull(s.store);
    f.Some? ==> f.value.id !in gone && forall m :: m in Filter(Chained(f.value.id), s.store) ==> m.id !in gone
  }

  ghost predicate Next(s: State, s': State) {
    || (exists txns :: ServerCommits(s, s', txns))
    || RecreatesSlot(s, s')
    || (exists created, b :: RecordsFull(s, s', created, b))
    || (exists created, p :: TakesIncrement(s, s', created, p))
    || (exists leftover :: AbandonsUpload(s, s', leftover))
    || (exists m :: RecordsOther(s, s', m))
    || (exists gone, lost :: Prunes(s, s', gone, lost) && SparesNewest(s, gone))
  }

  ghost predicate NextOrFault(s: State, s': State) {
    Next(s, s') || AbandonsFull(s, s') || (exists gone, lost :: Prunes(s, s', gone, lost))
  }

  /** Full backups may also recreate the slot and then fail, and prunes may take from
      the newest full backup. */
  ghost predicate IsFaultyRun(run: seq<State>) {
    && run != [] && Init(run[0])
    && forall i, j :: 0 <= i < |run| && j == i + 1 < |run| ==> NextOrFault(run[i], run[j])
  }

  /** Each full backup that recreates the slot also records its manifest, and prunes
      leave the newest one alone. */
  ghost predicate IsRun(run: seq<State>) {
    && run != [] && Init(run[0])
    && forall i, j :: 0 <= i < |run| && j == i + 1 < |run| ==> Next(run[i], run[j])
  }

  // ----- the invariant -----

  function ChainOf(s: State, baseId: Id): seq<BackupManifest> {
    Filter(Chained(baseId), s.store)
  }

  function ChainSpans(s: State, baseId: Id): seq<Span> {
    SpansOf(s.spans, ChainOf(s, baseId))
  }

  ghost predicate ChainHolds(s: State, f: BackupManifest) {
    && f.id in s.snaps
    && AllHold(s.log, s.data, s.spans, ChainOf(s, f.id))
    && IsHistory(|s.log|, s.snaps[f.id], ChainSpans(s, f.id))
  }

  /** Where the slot stands after the last slice `last` of a base. */
  predicate SlotFits(log: seq<Txn>, slot: nat, last: Span) {
    slot <= |log| && last.from <= slot && last.to <= PeekEnd(log, slot)
  }

  ghost predicate NextSliceFits(s: State, f: BackupManifest) {
    var ss := ChainSpans(s, f.id);
    s.slot.Some? && ss != [] ==> SlotFits(s.log, s.slot.value, ss[|ss| - 1])
  }

  ghost predicate ChainsHold(s: State) {
    forall f {:trigger ChainHolds(s, f)} :: f in s.store && IsPgFull(f) ==> ChainHolds(s, f) && NextSliceFits(s, f)
  }

  ghost predicate IdsBelow(ms: seq<BackupManifest>, nextId: Id) {
    forall m :: m in ms ==> m.id < nextId
  }

  ghost predicate HasBase(ms: seq<BackupManifest>, m: BackupManifest) {
    m.baseId.Some? && exists f :: f in ms && IsPgFull(f) && f.id == m.baseId.value
  }

  predicate IsPgSlice(m: BackupManifest) {
    m.status == Complete && m.format == PgIncr && m.oplogRange.None?
  }

  ghost predicate BasesStored(ms: seq<BackupManifest>) {
    forall m {:trigger HasBase(ms, m)} :: m in ms && m.backupType == Incremental ==> HasBase(ms, m) && IsPgSlice(m)
  }

  ghost predicate Inv(s: State) {
    && IdsBelow(s.store, s.nextId) && IdsAscend(s.store)
    && (forall id :: id in s.data || id in s.lost ==> id < s.nextId)
    && BasesStored(s.store)
    && (s.slot.Some? ==> s.slot.value <= |s.log|)
    && ChainsHold(s)
  }

  // ----- chains that a step leaves alone -----

  ghost predicate Keeps(s: State, s': State, id: Id) {
    && (id in s.spans ==> id in s'.spans && s'.spans[id] == s.spans[id])
    && (id in s.data ==> id in s'.data && s'.data[id] == s.data[id])
  }

  ghost predicate SameChain(s: State, s': State, f: BackupManifest) {
    && ChainOf(s', f.id) == ChainOf(s, f.id)
    && ChainSpans(s', f.id) == ChainSpans(s, f.id)
    && f.id in s.snaps && f.id in s'.snaps && s'.snaps[f.id] == s.snaps[f.id]
  }

  lemma HoldsStays(s: State, s': State, m: BackupManifest)
    requires Holds(s.log, s.data, s.spans, m) && s.log <= s'.log && Keeps(s, s', m.id)
    ensures Holds(s'.log, s'.data, s'.spans, m) && SpanOf(s'.spans, m) == SpanOf(s.spans, m)
  {
    var span := SpanOf(s.spans, m);
    assert s'.log[span.from..span.to] == s.log[span.from..span.to];
  }

  lemma SlicesStay(s: State, s': State, incs: seq<BackupManifest>)
    requires AllHold(s.log, s.data, s.spans, incs) && s.log <= s'.log
    requires forall m :: m in incs ==> Keeps(s, s', m.id)
    ensures AllHold(s'.log, s'.data, s'.spans, incs) && SpansOf(s'.spans, incs) == SpansOf(s.spans, incs)
  {
    forall m | m in incs
      ensures Holds(s'.log, s'.data, s'.spans, m) && SpanOf(s'.spans, m) == SpanOf(s.spans, m)
    {
      HoldsStays(s, s', m);
    }
  }

  lemma ChainStays(s: State, s': State, f: BackupManifest)
    requires ChainHolds(s, f) && s.log <= s'.log && ChainOf(s', f.id) == ChainOf(s, f.id)
    requires f.id in s'.snaps && s'.snaps[f.id] == s.snaps[f.id]
    requires forall m :: m in ChainOf(s, f.id) ==> Keeps(s, s', m.id)
    ensures ChainHolds(s', f) && SameChain(s, s', f)
  {
    SlicesStay(s, s', ChainOf(s, f.id));
  }

  lemma AllHolding(s: State, f: BackupManifest)
    requires ChainsHold(s) && f in s.store && IsPgFull(f)
    ensures ChainHolds(s, f) && NextSliceFits(s, f)
  {
  }

  lemma LatestAfter(ms: seq<BackupManifest>, m: BackupManifest)
    ensures LatestFull(ms + [m]) == if IsPgFull(m) then Some(m) else LatestFull(ms)
  {
    assert (ms + [m])[..|ms|] == ms;
  }

  lemma NoChainYet(ms: seq<BackupManifest>, nextId: Id, id: Id)
    requires IdsBelow(ms, nextId) && BasesStored(ms) && id >= nextId
    ensures Filter(Chained(id), ms) == []
  {
    forall m | m in ms && m.backupType == Incremental ensures m.baseId.Some? && m.baseId.value < nextId {
      assert HasBase(ms, m);
    }
    HasMember(Filter(Chained(id), ms));
  }

  lemma BasesStay(ms: seq<BackupManifest>, m: BackupManifest)
    requires BasesStored(ms) && (m.backupType == Incremental ==> HasBase(ms, m) && IsPgSlice(m))
    ensures BasesStored(ms + [m])
  {
    forall x | x in ms + [m] && x.backupType == Incremental ensures HasBase(ms + [m], x) && IsPgSlice(x) {
      assert HasBase(ms, x);
      var f :| f in ms && IsPgFull(f) && f.id == x.baseId.value;
      assert f in ms + [m];
    }
  }

  /** A step that adds nothing to any chain. */
  ghost predicate IsQuiet(s: State, s': State) {
    && s.log <= s'.log && s'.store == s.store && s'.snaps == s.snaps && s'.spans == s.spans && s'.nextId >= s.nextId
    && forall m :: m in s.store ==> Keeps(s, s', m.id)
  }

  lemma QuietStepsAreQuiet(s: State, s': State, txns: seq<Txn>, leftover: seq<Captured>)
    requires IdsBelow(s.store, s.nextId)
    requires ServerCommits(s, s', txns) || RecreatesSlot(s, s') || AbandonsFull(s, s') || AbandonsUpload(s, s', leftover)
    ensures IsQuiet(s, s') && SlotGoesOn(s, s') && s'.lost == s.lost
    ensures forall id :: id in s'.data ==> id in s.data || id < s'.nextId
  {
  }

  lemma QuietChain(s: State, s': State, f: BackupManifest)
    requires ChainsHold(s) && IsQuiet(s, s') && f in s.store && IsPgFull(f)
    ensures ChainHolds(s', f) && SameChain(s, s', f)
  {
    AllHolding(s, f);
    ChainStays(s, s', f);
  }

  /** The slot stays, or goes on as far as the next capture reads, or to the end of the log. */
  ghost predicate SlotGoesOn(s: State, s': State) {
    || s'.slot == s.slot
    || s'.slot == Some(|s.log|)
    || (s.slot.Some? && s'.slot.Some? && s.slot.value <= |s.log|
        && s.slot.value <= s'.slot.value <= PeekEnd(s.log, s.slot.value))
  }

  lemma SlotStillFits(log: seq<Txn>, more: seq<Txn>, slot: nat, slot': nat, last: Span)
    requires SlotFits(log, slot, last) && slot <= slot' <= PeekEnd(log, slot)
    ensures SlotFits(log + more, slot', last)
  {
    LaterStartReachesFurther(log, slot, 0, slot');
    LongerLogReachesFurther(log, more, slot', 0);
  }

  /** A slice still fits when the slot has gone on. */
  lemma FitStays(s: State, s': State, f: BackupManifest)
    requires ChainHolds(s, f) && NextSliceFits(s, f) && SameChain(s, s', f) && s.log <= s'.log && SlotGoesOn(s, s')
    requires s.slot.Some? ==> s.slot.value <= |s.log|
    ensures NextSliceFits(s', f)
  {
    var ss := ChainSpans(s, f.id);
    if s'.slot.Some? && ss != [] {
      var more := s'.log[|s.log|..];
      assert s'.log == s.log + more;
      if s'.slot == Some(|s.log|) {
        assert SlotFits(s'.log, |s.log|, ss[|ss| - 1]);
      } else {
        SlotStillFits(s.log, more, s.slot.value, s'.slot.value, ss[|ss| - 1]);
      }
    }
  }

  lemma QuietStepKeepsInv(s: State, s': State)
    requires Inv(s) && IsQuiet(s, s') && SlotGoesOn(s, s')
    requires forall id :: id in s'.data || id in s'.lost ==> id < s'.nextId
    ensures Inv(s')
  {
    forall f | f in s'.store && IsPgFull(f) ensures ChainHolds(s', f) && NextSliceFits(s', f) {
      AllHolding(s, f);
      QuietChain(s, s', f);
      FitStays(s, s', f);
    }
  }

  /** A step that appends a full backup. */
  ghost predicate AddsFull(s: State, s': State, m: BackupManifest) {
    && m.id == s.nextId && m.backupType == Full && s'.store == s.store + [m]
    && s'.log == s.log && s'.spans == s.spans && s'.data == s.data && s'.lost == s.lost && s'.slot == s.slot
    && s'.nextId == s.nextId + 1
    && (forall id :: id != m.id && id in s.snaps ==> id in s'.snaps && s'.snaps[id] == s.snaps[id])
  }

  lemma OldChainsStay(s: State, s': State, m: BackupManifest, f: BackupManifest)
    requires IdsBelow(s.store, s.nextId) && ChainsHold(s) && AddsFull(s, s', m) && f in s.store && IsPgFull(f)
    ensures ChainHolds(s', f) && SameChain(s, s', f)
  {
    AllHolding(s, f);
    FilterAppend(Chained(f.id), s.store, m);
    ChainStays(s, s', f);
  }

  /** A full backup starts with an empty chain. */
  lemma NewChainHolds(s: State, s': State, m: BackupManifest)
    requires IdsBelow(s.store, s.nextId) && BasesStored(s.store) && AddsFull(s, s', m)
    requires m.id in s'.snaps && s'.snaps[m.id] <= |s'.log|
    ensures ChainOf(s', m.id) == [] && ChainHolds(s', m)
  {
    NoChainYet(s.store, s.nextId, m.id);
    FilterAppend(Chained(m.id), s.store, m);
  }

  lemma FullKeepsInv(s: State, s': State, created: Option<i64>, b: nat)
    requires Inv(s) && RecordsFull(s, s', created, b)
    ensures Inv(s')
  {
    var m := FullManifest(s.nextId, created);
    NewChainHolds(s, s', m);
    BasesStay(s.store, m);
    forall f | f in s'.store && IsPgFull(f) ensures ChainHolds(s', f) && NextSliceFits(s', f) {
      if f in s.store {
        AllHolding(s, f);
        OldChainsStay(s, s', m, f);
        FitStays(s, s', f);
      }
    }
  }

  lemma OtherKeepsInv(s: State, s': State, m: BackupManifest)
    requires Inv(s) && RecordsOther(s, s', m)
    ensures Inv(s')
  {
    BasesStay(s.store, m);
    forall f | f in s'.store && IsPgFull(f) ensures ChainHolds(s', f) && NextSliceFits(s', f) {
      AllHolding(s, f);
      OldChainsStay(s, s', m, f);
      FitStays(s, s', f);
    }
  }

  // ----- a new slice -----

  function SliceOf(s: State, created: Option<i64>, f: BackupManifest): BackupManifest
    requires s.slot.Some? && s.slot.value <= |s.log|
  {
    IncrementManifest(s.nextId, created, f.id, |Stretch(s.log, s.slot.value, PeekEnd(s.log, s.slot.value))|)
  }

  function NewSpan(s: State): Span
    requires s.slot.Some? && s.slot.value <= |s.log|
  {
    Span(s.slot.value, PeekEnd(s.log, s.slot.value))
  }

  lemma SliceIsStored(s: State, s': State, created: Option<i64>, p: nat)
    requires TakesIncrement(s, s', created, p) && IdsBelow(s.store, s.nextId)
    ensures var m := SliceOf(s, created, LatestFull(s.store).value);
            && s'.store == s.store + [m] && Holds(s'.log, s'.data, s'.spans, m)
            && SpanOf(s'.spans, m) == NewSpan(s)
    ensures s'.log == s.log && s'.snaps == s.snaps
    ensures forall x :: x in s.store ==> Keeps(s, s', x.id)
  {
  }

  /** A chain that the new slice does not belong to. */
  lemma OtherChainStays(s: State, s': State, created: Option<i64>, p: nat, f: BackupManifest)
    requires TakesIncrement(s, s', created, p) && IdsBelow(s.store, s.nextId)
    requires ChainHolds(s, f) && LatestFull(s.store).value.id != f.id
    ensures ChainHolds(s', f) && SameChain(s, s', f)
  {
    SliceIsStored(s, s', created, p);
    FilterAppend(Chained(f.id), s.store, SliceOf(s, created, LatestFull(s.store).value));
    ChainStays(s, s', f);
  }

  lemma ChainGrowsByOne(s: State, s': State, created: Option<i64>, p: nat, f: BackupManifest)
    requires TakesIncrement(s, s', created, p) && LatestFull(s.store).value.id == f.id
    ensures ChainOf(s', f.id) == ChainOf(s, f.id) + [SliceOf(s, created, LatestFull(s.store).value)]
  {
    FilterAppend(Chained(f.id), s.store, SliceOf(s, created, LatestFull(s.store).value));
  }

  lemma SpansOfMore(spans: map<Id, Span>, incs: seq<BackupManifest>, m: BackupManifest)
    ensures SpansOf(spans, incs + [m]) == SpansOf(spans, incs) + [SpanOf(spans, m)]
  {
  }

  /** The chain of the newest full backup, with the new slice. */
  lemma ChainGrows(s: State, s': State, created: Option<i64>, p: nat, f: BackupManifest)
    requires TakesIncrement(s, s', created, p) && IdsBelow(s.store, s.nextId)
    requires LatestFull(s.store).value.id == f.id && ChainHolds(s, f)
    ensures AllHold(s'.log, s'.data, s'.spans, ChainOf(s', f.id))
    ensures ChainSpans(s', f.id) == ChainSpans(s, f.id) + [NewSpan(s)]
    ensures f.id in s'.snaps && s'.snaps[f.id] == s.snaps[f.id]
  {
    var incs, m := ChainOf(s, f.id), SliceOf(s, created, LatestFull(s.store).value);
    SliceIsStored(s, s', created, p);
    ChainGrowsByOne(s, s', created, p, f);
    SlicesStay(s, s', incs);
    SpansOfMore(s'.spans, incs, m);
  }

  lemma PeekReads(log: seq<Txn>, slot: nat)
    requires slot < |log|
    ensures slot < PeekEnd(log, slot)
  {
    assert PeekFrom(log, slot + 1, log[slot].messages) >= slot + 1;
  }

  lemma HistoryGrows(log: seq<Txn>, b: nat, ss: seq<Span>, slot: nat)
    requires IsHistory(|log|, b, ss) && slot <= |log|
    requires ss != [] ==> SlotFits(log, slot, ss[|ss| - 1])
    ensures IsHistory(|log|, b, ss + [Span(slot, PeekEnd(log, slot))])
  {
    var all := ss + [Span(slot, PeekEnd(log, slot))];
    if slot < |log| {
      PeekReads(log, slot);
    }
    forall i, j | 0 <= i < |all| && j == i + 1 < |all| ensures Grows(all[i], all[j]) {
      if j < |ss| {
        assert Grows(ss[i], ss[j]);
      }
    }
  }

  lemma GrownChainHolds(s: State, s': State, created: Option<i64>, p: nat, f: BackupManifest)
    requires TakesIncrement(s, s', created, p) && IdsBelow(s.store, s.nextId)
    requires LatestFull(s.store).value.id == f.id && ChainHolds(s, f) && NextSliceFits(s, f)
    ensures ChainHolds(s', f) && NextSliceFits(s', f)
  {
    ChainGrows(s, s', created, p, f);
    SliceIsStored(s, s', created, p);
    HistoryGrows(s.log, s.snaps[f.id], ChainSpans(s, f.id), s.slot.value);
    LaterStartReachesFurther(s.log, s.slot.value, 0, p);
  }

  lemma SliceKeepsStore(s: State, s': State, created: Option<i64>, p: nat)
    requires IdsBelow(s.store, s.nextId) && IdsAscend(s.store) && BasesStored(s.store)
    requires forall id :: id in s.data || id in s.lost ==> id < s.nextId
    requires TakesIncrement(s, s', created, p)
    ensures IdsBelow(s'.store, s'.nextId) && IdsAscend(s'.store) && BasesStored(s'.store)
    ensures forall id :: id in s'.data || id in s'.lost ==> id < s'.nextId
  {
    var base := LatestFull(s.store).value;
    assert HasBase(s.store, SliceOf(s, created, base));
    BasesStay(s.store, SliceOf(s, created, base));
  }

  lemma SliceKeepsChains(s: State, s': State, created: Option<i64>, p: nat, f: BackupManifest)
    requires Inv(s) && TakesIncrement(s, s', created, p) && f in s.store && IsPgFull(f)
    ensures ChainHolds(s', f) && NextSliceFits(s', f)
  {
    var base := LatestFull(s.store).value;
    if f.id == base.id {
      AllHolding(s, base);
      GrownChainHolds(s, s', created, p, base);
      SameIdHolds(s', base, f);
    } else {
      OtherChainHolds(s, s', created, p, f);
    }
  }

  lemma IncrementKeepsInv(s: State, s': State, created: Option<i64>, p: nat)
    requires Inv(s) && TakesIncrement(s, s', created, p)
    ensures Inv(s')
  {
    SliceKeepsStore(s, s', created, p);
    SliceIsStored(s, s', created, p);
    forall f | f in s'.store && IsPgFull(f) ensures ChainHolds(s', f) && NextSliceFits(s', f) {
      SliceKeepsChains(s, s', created, p, f);
    }
  }

  lemma OtherChainHolds(s: State, s': State, created: Option<i64>, p: nat, f: BackupManifest)
    requires Inv(s) && TakesIncrement(s, s', created, p) && f in s.store && IsPgFull(f)
    requires LatestFull(s.store).value.id != f.id
    ensures ChainHolds(s', f) && NextSliceFits(s', f)
  {
    AllHolding(s, f);
    OtherChainStays(s, s', created, p, f);
    FitStays(s, s', f);
  }

  lemma SameIdHolds(s: State, f: BackupManifest, g: BackupManifest)
    requires ChainHolds(s, f) && NextSliceFits(s, f) && g.id == f.id
    ensures ChainHolds(s, g) && NextSliceFits(s, g)
  {
  }

  // ----- prunes -----

  lemma {:induction false} FilterIsPrefix(chain: seq<BackupManifest>, gone: set<Id>)
    requires GoneFromSomewhere(chain, gone)
    ensures var left := Filter(Stays(gone), chain); |left| <= |chain| && left == chain[..|left|]
  {
    if chain == [] {
    } else {
      var front, last := chain[..|chain| - 1], chain[|chain| - 1];
      FilterIsPrefix(front, gone);
      FrontLast(chain);
      FilterAppend(Stays(gone), front, last);
      if last.id !in gone {
        FilterAll(Stays(gone), front);
      }
    }
  }

  /** What a prune leaves of a chain is a beginning of it. */
  lemma PrunedChain(s: State, s': State, gone: set<Id>, lost: set<Id>, id: Id)
    requires Prunes(s, s', gone, lost)
    ensures ChainOf(s', id) == Filter(Stays(gone), ChainOf(s, id))
    ensures |ChainOf(s', id)| <= |ChainOf(s, id)| && ChainOf(s', id) == ChainOf(s, id)[..|ChainOf(s', id)|]
  {
    FilterCommutes(Chained(id), Stays(gone), s.store);
    FilterIsPrefix(ChainOf(s, id), gone);
  }

  lemma HistoryBegins(n: nat, b: nat, ss: seq<Span>, k: nat)
    requires IsHistory(n, b, ss) && k <= |ss|
    ensures IsHistory(n, b, ss[..k])
    ensures 0 < k ==> ss[k - 1].from <= ss[|ss| - 1].from && ss[k - 1].to <= ss[|ss| - 1].to
  {
    if 0 < k {
      SpansGrow(ss, k - 1, |ss| - 1);
    }
    forall i, j | 0 <= i < k && j == i + 1 < k ensures Grows(ss[..k][i], ss[..k][j]) {
      assert Grows(ss[i], ss[j]);
    }
  }

  lemma SpansOfBeginning(spans: map<Id, Span>, incs: seq<BackupManifest>, k: nat)
    requires k <= |incs|
    ensures SpansOf(spans, incs[..k]) == SpansOf(spans, incs)[..k]
  {
  }

  lemma BeginningHolds(
      log: seq<Txn>, data: map<Id, seq<Captured>>, spans: map<Id, Span>, incs: seq<BackupManifest>, k: nat)
    requires AllHold(log, data, spans, incs) && k <= |incs|
    ensures AllHold(log, data, spans, incs[..k])
  {
    forall m | m in incs[..k] ensures Holds(log, data, spans, m) {
      assert m in incs;
    }
  }

  lemma ShorterChainHolds(s: State, s': State, f: BackupManifest, k: nat)
    requires ChainHolds(s, f) && NextSliceFits(s, f) && k <= |ChainOf(s, f.id)|
    requires s'.log == s.log && s'.data == s.data && s'.spans == s.spans && s'.snaps == s.snaps && s'.slot == s.slot
    requires ChainOf(s', f.id) == ChainOf(s, f.id)[..k]
    ensures ChainHolds(s', f) && NextSliceFits(s', f)
  {
    BeginningHolds(s.log, s.data, s.spans, ChainOf(s, f.id), k);
    SpansOfBeginning(s.spans, ChainOf(s, f.id), k);
    HistoryBegins(|s.log|, s.snaps[f.id], ChainSpans(s, f.id), k);
  }

  lemma PrunedChainHolds(s: State, s': State, gone: set<Id>, lost: set<Id>, f: BackupManifest)
    requires Prunes(s, s', gone, lost) && ChainHolds(s, f) && NextSliceFits(s, f)
    ensures ChainHolds(s', f) && NextSliceFits(s', f)
  {
    PrunedChain(s, s', gone, lost, f.id);
    ShorterChainHolds(s, s', f, |ChainOf(s', f.id)|);
  }

  lemma {:induction false} FilterAscends(keep: BackupManifest -> bool, ms: seq<BackupManifest>)
    requires IdsAscend(ms)
    ensures IdsAscend(Filter(keep, ms))
  {
    if ms != [] {
      FilterAscends(keep, ms[..|ms| - 1]);
      FrontLast(ms);
      forall m | m in Filter(keep, ms[..|ms| - 1]) ensures m.id < ms[|ms| - 1].id {
        assert m in ms[..|ms| - 1];
      }
    }
  }

  lemma LeftHaveBases(ms: seq<BackupManifest>, gone: set<Id>)
    requires BasesStored(ms) && TakesChainEnds(ms, gone)
    ensures BasesStored(Filter(Stays(gone), ms))
  {
    var left := Filter(Stays(gone), ms);
    forall m | m in left && m.backupType == Incremental ensures HasBase(left, m) && IsPgSlice(m) {
      assert HasBase(ms, m);
      var f :| f in ms && IsPgFull(f) && f.id == m.baseId.value;
      assert f in left;
    }
  }

  lemma PruneKeepsInv(s: State, s': State, gone: set<Id>, lost: set<Id>)
    requires Inv(s) && Prunes(s, s', gone, lost)
    ensures Inv(s')
  {
    FilterAscends(Stays(gone), s.store);
    LeftHaveBases(s.store, gone);
    forall f | f in s'.store && IsPgFull(f) ensures ChainHolds(s', f) && NextSliceFits(s', f) {
      AllHolding(s, f);
      PrunedChainHolds(s, s', gone, lost, f);
    }
  }

  // ----- runs -----

  lemma NextKeepsInv(s: State, s': State)
    requires Inv(s) && NextOrFault(s, s')
    ensures Inv(s')
  {
    if created, b :| RecordsFull(s, s', created, b) {
      FullKeepsInv(s, s', created, b);
    } else if created, p :| TakesIncrement(s, s', created, p) {
      IncrementKeepsInv(s, s', created, p);
    } else if m :| RecordsOther(s, s', m) {
      OtherKeepsInv(s, s', m);
    } else if txns :| ServerCommits(s, s', txns) {
      QuietStepsAreQuiet(s, s', txns, []);
      QuietStepKeepsInv(s, s');
    } else if leftover :| AbandonsUpload(s, s', leftover) {
      QuietStepsAreQuiet(s, s', [], leftover);
      QuietStepKeepsInv(s, s');
    } else if gone, lost :| Prunes(s, s', gone, lost) {
      PruneKeepsInv(s, s', gone, lost);
    } else {
      QuietStepsAreQuiet(s, s', [], []);
      QuietStepKeepsInv(s, s');
    }
  }

  lemma RunBefore(run: seq<State>)
    requires IsFaultyRun(run) && |run| > 1
    ensures IsFaultyRun(run[..|run| - 1])
    ensures NextOrFault(run[|run| - 2], run[|run| - 1])
  {
  }

  lemma {:induction false} RunKeepsInv(run: seq<State>)
    requires IsFaultyRun(run)
    ensures Inv(run[|run| - 1])
    decreases |run|
  {
    if |run| > 1 {
      var k := |run| - 1;
      RunBefore(run);
      RunKeepsInv(run[..k]);
      NextKeepsInv(run[k - 1], run[k]);
    }
  }

  // ----- what every run gives -----

  /** The last position that a chain of increments has captured. */
  function Reached(s: State, f: BackupManifest): nat {
    var ss := ChainSpans(s, f.id);
    if ss != [] then ss[|ss| - 1].to else if f.id in s.snaps then s.snaps[f.id] else 0
  }

  ghost predicate ChainCovered(s: State, f: BackupManifest) {
    f.id in s.snaps && IsCovered(s.snaps[f.id], ChainSpans(s, f.id))
  }

  lemma CoveredChainIsExact(s: State, catalog: Catalog, f: BackupManifest, upTo: Option<int>)
    requires ChainHolds(s, f) && ChainCovered(s, f)
    requires IsServerLog(catalog, s.log) && (upTo.Some? ==> CommitsInOrder(s.log))
    requires s.snaps[f.id] <= Reached(s, f) && s.snaps[f.id] <= CutAt(s.log, upTo)
    ensures Reached(s, f) <= |s.log|
    ensures RestoreOf(catalog, s.data, ChainOf(s, f.id), upTo, StateAt(s.log, s.snaps[f.id]))
            == Ok(StateAt(s.log, Min(Reached(s, f), CutAt(s.log, upTo))))
  {
    var ss, b, q := ChainSpans(s, f.id), s.snaps[f.id], CutAt(s.log, upTo);
    RestoreIsReplay(catalog, s.log, s.data, s.spans, ChainOf(s, f.id), upTo, StateAt(s.log, b));
    if ss != [] {
      CoveredIsExact(catalog, s.log, b, ss, q);
    }
  }

  // ----- when the slices cover a base -----

  lemma CoveredMore(b: nat, ss: seq<Span>, next: Span)
    ensures IsCovered(b, ss + [next])
            <==> IsCovered(b, ss) && next.from <= (if ss == [] then b else ss[|ss| - 1].to)
  {
    var all := ss + [next];
    if IsCovered(b, all) {
      assert ss != [] ==> all[|ss|].from <= all[|ss| - 1].to;
      forall i, j | 0 <= i < |ss| && j == i + 1 < |ss| ensures ss[j].from <= ss[i].to {
        assert all[j].from <= all[i].to;
      }
    }
  }

  /** A new slice covers what the old ones did exactly when the slot had not passed
      the last captured position. */
  lemma IncrementCovers(s: State, s': State, created: Option<i64>, p: nat, f: BackupManifest)
    requires Inv(s) && TakesIncrement(s, s', created, p)
    requires f in s.store && IsPgFull(f) && LatestFull(s.store).value.id == f.id
    ensures ChainCovered(s', f) <==> ChainCovered(s, f) && s.slot.value <= Reached(s, f)
    ensures p <= Reached(s', f)
  {
    AllHolding(s, f);
    ChainGrows(s, s', created, p, f);
    CoveredMore(s.snaps[f.id], ChainSpans(s, f.id), NewSpan(s));
  }

  /** What an operator can check before the next increment: when the slot was
      recreated, for a full backup that was then abandoned, the log had nothing
      past the last captured position. */
  lemma AbandonedFullIsHarmless(
      before: State, recreated: State, later: State, after: State, created: Option<i64>, p: nat, f: BackupManifest)
    requires Inv(before) && RecreatesSlot(before, recreated)
    requires Inv(later) && later.slot == recreated.slot
    requires later.store == before.store && later.snaps == before.snaps && later.spans == before.spans
    requires TakesIncrement(later, after, created, p) && LatestFull(later.store) == Some(f)
    ensures ChainCovered(after, f) <==> ChainCovered(before, f) && |before.log| <= Reached(before, f)
  {
    IncrementCovers(later, after, created, p, f);
  }

  /** An increment of base `f` that is among `kept` starts at or before the last
      captured position. */
  ghost predicate StartsInTime(s: State, s': State, f: BackupManifest, kept: set<Id>) {
    forall created, p ::
      TakesIncrement(s, s', created, p) && LatestFull(s.store).value.id == f.id && s.nextId in kept ==>
        s.slot.value <= Reached(s, f)
  }

  ghost predicate InTime(run: seq<State>, f: BackupManifest, kept: set<Id>) {
    |run| > 1 ==>
      InTime(run[..|run| - 1], f, kept) && StartsInTime(run[|run| - 2], run[|run| - 1], f, kept)
  }

  function StoredIds(s: State): set<Id> {
    set m | m in s.store :: m.id
  }

  /** So does every increment of it that is still stored in the end. */
  ghost predicate AlwaysInTime(run: seq<State>, f: BackupManifest) {
    run != [] ==> InTime(run, f, StoredIds(run[|run| - 1]))
  }

  lemma CoverStays(s: State, s': State, f: BackupManifest)
    requires SameChain(s, s', f)
    ensures ChainCovered(s', f) <==> ChainCovered(s, f)
    ensures Reached(s', f) == Reached(s, f)
  {
  }

  // ----- what is still there in the end -----

  /** What a step may do to the store. */
  ghost predicate AddsOther(s: State, s': State) {
    exists m: BackupManifest :: m.id == s.nextId && !IsPgFull(m) && s'.store == s.store + [m]
  }

  ghost predicate ChangesStore(s: State, s': State) {
    || s'.store == s.store
    || (exists created, b :: RecordsFull(s, s', created, b))
    || AddsOther(s, s')
    || (exists gone, lost :: Prunes(s, s', gone, lost))
  }

  lemma IncrementAddsOther(s: State, s': State, created: Option<i64>, p: nat)
    requires TakesIncrement(s, s', created, p)
    ensures AddsOther(s, s')
  {
    var m := SliceOf(s, created, LatestFull(s.store).value);
    assert m.id == s.nextId && !IsPgFull(m) && s'.store == s.store + [m];
  }

  lemma StepChangesStore(s: State, s': State)
    requires NextOrFault(s, s')
    ensures ChangesStore(s, s') && s.nextId <= s'.nextId
  {
    if created, p :| TakesIncrement(s, s', created, p) {
      IncrementAddsOther(s, s', created, p);
    } else if m :| RecordsOther(s, s', m) {
      assert AddsOther(s, s');
    }
  }

  lemma StepIds(s: State, s': State)
    requires ChangesStore(s, s')
    ensures forall m :: m in s'.store ==> m in s.store || m.id == s.nextId
  {
    if created, b :| RecordsFull(s, s', created, b) {
      assert s'.store == s.store + [FullManifest(s.nextId, created)];
    } else if gone, lost :| Prunes(s, s', gone, lost) {
      assert s'.store == Filter(Stays(gone), s.store);
    }
  }

  lemma StepInStore(run: seq<State>, j: nat)
    requires IsFaultyRun(run) && j + 1 < |run|
    ensures ChangesStore(run[j], run[j + 1]) && run[j].nextId <= run[j + 1].nextId
  {
    RunStep(run, j);
    StepChangesStore(run[j], run[j + 1]);
  }

  /** What is there in the end was there since it was recorded. */
  lemma {:induction false} KeptWasThere(run: seq<State>, j: nat, id: Id)
    requires IsFaultyRun(run) && j < |run| && id in StoredIds(run[|run| - 1]) && id < run[j].nextId
    ensures id in StoredIds(run[j])
    decreases |run| - j
  {
    if j + 1 < |run| {
      StepInStore(run, j);
      StepIds(run[j], run[j + 1]);
      KeptWasThere(run, j + 1, id);
    }
  }

  lemma RunStep(run: seq<State>, j: nat)
    requires IsFaultyRun(run) && j + 1 < |run|
    ensures NextOrFault(run[j], run[j + 1])
  {
  }

  ghost predicate NextIdsGrow(run: seq<State>) {
    forall i, j :: 0 <= i < |run| && j == i + 1 < |run| ==> run[i].nextId <= run[j].nextId
  }

  lemma RunNextIdsGrow(run: seq<State>)
    requires IsFaultyRun(run)
    ensures NextIdsGrow(run)
  {
    forall i, j | 0 <= i < |run| && j == i + 1 < |run| ensures run[i].nextId <= run[j].nextId {
      StepInStore(run, i);
    }
  }

  lemma {:induction false} NextIdGrows(run: seq<State>, i: nat, j: nat)
    requires NextIdsGrow(run) && i <= j < |run|
    ensures run[i].nextId <= run[j].nextId
    decreases j
  {
    if i < j {
      NextIdGrows(run, i, j - 1);
    }
  }

  lemma StateKeepsInv(run: seq<State>, j: nat)
    requires IsFaultyRun(run) && j < |run|
    ensures Inv(run[j])
  {
    RunKeepsInv(run[..j + 1]);
  }

  /** A step that appends at most one manifest. */
  ghost predicate AddsAtMostOne(s: State, s': State) {
    s'.store == s.store || exists m :: s'.store == s.store + [m]
  }

  lemma StepAddsOrPrunes(s: State, s': State)
    requires ChangesStore(s, s')
    ensures AddsAtMostOne(s, s') || exists gone, lost :: Prunes(s, s', gone, lost)
  {
    if created, b :| RecordsFull(s, s', created, b) {
      assert s'.store == s.store + [FullManifest(s.nextId, created)];
    }
  }

  lemma StartStays(chain: seq<BackupManifest>, gone: set<Id>, start: seq<BackupManifest>)
    requires GoneFromSomewhere(chain, gone) && start != [] && start <= chain && start[|start| - 1].id !in gone
    ensures forall m :: m in start ==> m.id !in gone
  {
    forall m | m in start ensures m.id !in gone {
      var i :| 0 <= i < |start| && start[i] == m;
      assert chain[i] == m && chain[|start| - 1] == start[|start| - 1];
    }
  }

  lemma BeginningIsLeft(chain: seq<BackupManifest>, gone: set<Id>, start: seq<BackupManifest>)
    requires start <= chain && forall m :: m in start ==> m.id !in gone
    ensures start <= Filter(Stays(gone), chain)
  {
    FilterAll(Stays(gone), start);
    RestOf(start, chain);
    FilterConcat(Stays(gone), start, chain[|start|..]);
  }

  lemma RestOf(start: seq<BackupManifest>, chain: seq<BackupManifest>)
    requires start <= chain
    ensures chain == start + chain[|start|..]
  {
  }

  lemma PruneLeavesBeginning(
      s: State, s': State, gone: set<Id>, lost: set<Id>, id: Id, start: seq<BackupManifest>)
    requires Prunes(s, s', gone, lost) && start != [] && start <= ChainOf(s, id)
    requires start[|start| - 1].id in StoredIds(s')
    ensures start <= ChainOf(s', id)
  {
    PrunedChain(s, s', gone, lost, id);
    StartStays(ChainOf(s, id), gone, start);
    BeginningIsLeft(ChainOf(s, id), gone, start);
  }

  lemma AppendLeavesBeginning(s: State, s': State, id: Id, start: seq<BackupManifest>)
    requires AddsAtMostOne(s, s') && start <= ChainOf(s, id)
    ensures start <= ChainOf(s', id)
  {
    if s'.store != s.store {
      var m :| s'.store == s.store + [m];
      FilterAppend(Chained(id), s.store, m);
    }
  }

  /** The beginning of a chain stays as long as its last slice does. */
  lemma BeginningStays(s: State, s': State, id: Id, start: seq<BackupManifest>)
    requires ChangesStore(s, s') && start != [] && start <= ChainOf(s, id)
    requires start[|start| - 1].id in StoredIds(s')
    ensures start <= ChainOf(s', id)
  {
    StepAddsOrPrunes(s, s');
    if AddsAtMostOne(s, s') {
      AppendLeavesBeginning(s, s', id, start);
    } else {
      var gone, lost :| Prunes(s, s', gone, lost);
      PruneLeavesBeginning(s, s', gone, lost, id, start);
    }
  }

  lemma StoredIsBelow(run: seq<State>, j: nat, m: BackupManifest)
    requires IsFaultyRun(run) && j + 1 < |run| && m in run[j].store && m.id in StoredIds(run[|run| - 1])
    ensures m.id in StoredIds(run[j + 1])
  {
    StateKeepsInv(run, j);
    StepInStore(run, j);
    KeptWasThere(run, j + 1, m.id);
  }

  lemma LastIsMember(start: seq<BackupManifest>, chain: seq<BackupManifest>)
    requires start != [] && start <= chain
    ensures start[|start| - 1] in chain
  {
    assert chain[|start| - 1] == start[|start| - 1];
  }

  lemma BeginningStaysInRun(run: seq<State>, j: nat, id: Id, start: seq<BackupManifest>)
    requires IsFaultyRun(run) && j + 1 < |run| && start != [] && start <= ChainOf(run[j], id)
    requires start[|start| - 1].id in StoredIds(run[|run| - 1])
    ensures start <= ChainOf(run[j + 1], id)
  {
    LastIsMember(start, ChainOf(run[j], id));
    StoredIsBelow(run, j, start[|start| - 1]);
    StepInStore(run, j);
    BeginningStays(run[j], run[j + 1], id, start);
  }

  ghost predicate Carries(run: seq<State>, j: nat, id: Id, start: seq<BackupManifest>) {
    j + 1 < |run| && start <= ChainOf(run[j], id) ==> start <= ChainOf(run[j + 1], id)
  }

  lemma {:induction false} IsCarried(run: seq<State>, i: nat, j: nat, id: Id, start: seq<BackupManifest>)
    requires i <= j < |run| && start <= ChainOf(run[i], id) && forall k: nat :: Carries(run, k, id, start)
    ensures start <= ChainOf(run[j], id)
    decreases j
  {
    if i < j {
      IsCarried(run, i, j - 1, id, start);
      assert Carries(run, j - 1, id, start);
    }
  }

  /** When a slice is kept to the end, so is all of its chain before it. */
  lemma BeforeKeptIsKept(run: seq<State>, i: nat, id: Id, start: seq<BackupManifest>)
    requires IsFaultyRun(run) && i < |run| && start != [] && start == ChainOf(run[i], id)
    requires start[|start| - 1].id in StoredIds(run[|run| - 1])
    ensures forall m :: m in start ==> m.id in StoredIds(run[|run| - 1])
  {
    forall k: nat ensures Carries(run, k, id, start) {
      if k + 1 < |run| && start <= ChainOf(run[k], id) {
        BeginningStaysInRun(run, k, id, start);
      }
    }
    IsCarried(run, i, |run| - 1, id, start);
    MembersAreStored(run[|run| - 1], id, start);
  }

  lemma MembersAreStored(s: State, id: Id, start: seq<BackupManifest>)
    requires start <= ChainOf(s, id)
    ensures forall m :: m in start ==> m.id in StoredIds(s)
  {
    forall m | m in start ensures m.id in StoredIds(s) {
      assert m in ChainOf(s, id);
    }
  }

  function IsIn(kept: set<Id>): BackupManifest -> bool {
    (m: BackupManifest) => m.id in kept
  }

  function KeptSpans(s: State, f: BackupManifest, kept: set<Id>): seq<Span> {
    SpansOf(s.spans, Filter(IsIn(kept), ChainOf(s, f.id)))
  }

  /** The slices that are kept to the end cover the base. */
  ghost predicate KeptCovered(s: State, f: BackupManifest, kept: set<Id>) {
    f.id in s.snaps && IsCovered(s.snaps[f.id], KeptSpans(s, f, kept))
  }

  lemma KeptStep(front: seq<BackupManifest>, last: BackupManifest, gone: set<Id>, kept: set<Id>)
    requires Filter(IsIn(kept), Filter(Stays(gone), front)) == Filter(IsIn(kept), front)
    requires last.id in gone ==> last.id !in kept
    ensures Filter(IsIn(kept), Filter(Stays(gone), front + [last])) == Filter(IsIn(kept), front + [last])
  {
    FilterAppend(Stays(gone), front, last);
    FilterAppend(IsIn(kept), front, last);
    if last.id !in gone {
      FilterAppend(IsIn(kept), Filter(Stays(gone), front), last);
    } else {
      assert Filter(Stays(gone), front) + [] == Filter(Stays(gone), front);
      assert Filter(IsIn(kept), front) + [] == Filter(IsIn(kept), front);
    }
  }

  lemma {:induction false} KeptAfterPrune(chain: seq<BackupManifest>, gone: set<Id>, kept: set<Id>)
    requires forall m :: m in chain && m.id in gone ==> m.id !in kept
    ensures Filter(IsIn(kept), Filter(Stays(gone), chain)) == Filter(IsIn(kept), chain)
  {
    if chain != [] {
      var front, last := chain[..|chain| - 1], chain[|chain| - 1];
      FrontLast(chain);
      KeptAfterPrune(front, gone, kept);
      KeptStep(front, last, gone, kept);
    }
  }

  /** A prune does not change what is kept to the end. */
  lemma PruneKeepsKept(s: State, s': State, gone: set<Id>, lost: set<Id>, f: BackupManifest, kept: set<Id>)
    requires Prunes(s, s', gone, lost)
    requires forall m :: m in s.store && m.id in kept ==> m.id in StoredIds(s')
    ensures KeptCovered(s', f, kept) <==> KeptCovered(s, f, kept)
  {
    PrunedChain(s, s', gone, lost, f.id);
    KeptAfterPrune(ChainOf(s, f.id), gone, kept);
  }

  lemma SameKeptSpans(s: State, s': State, f: BackupManifest, kept: set<Id>)
    requires ChainHolds(s, f) && forall m :: m in ChainOf(s, f.id) ==> Keeps(s, s', m.id)
    ensures SpansOf(s'.spans, Filter(IsIn(kept), ChainOf(s, f.id))) == KeptSpans(s, f, kept)
  {
    var chain := Filter(IsIn(kept), ChainOf(s, f.id));
    forall i | 0 <= i < |chain| ensures SpanOf(s'.spans, chain[i]) == SpanOf(s.spans, chain[i]) {
      assert chain[i] in ChainOf(s, f.id);
      assert Holds(s.log, s.data, s.spans, chain[i]);
    }
  }

  lemma SameChainKeepsKept(s: State, s': State, f: BackupManifest, kept: set<Id>)
    requires ChainHolds(s, f) && ChainOf(s', f.id) == ChainOf(s, f.id)
    requires f.id in s'.snaps && s'.snaps[f.id] == s.snaps[f.id]
    requires forall m :: m in ChainOf(s, f.id) ==> Keeps(s, s', m.id)
    ensures KeptCovered(s', f, kept) <==> KeptCovered(s, f, kept)
  {
    SameKeptSpans(s, s', f, kept);
  }

  /** A new slice that is kept. */
  lemma KeptIncrementCovers(s: State, s': State, created: Option<i64>, p: nat, f: BackupManifest, kept: set<Id>)
    requires Inv(s) && TakesIncrement(s, s', created, p)
    requires f in s.store && IsPgFull(f) && LatestFull(s.store).value.id == f.id
    requires s.nextId in kept && forall m :: m in ChainOf(s, f.id) ==> m.id in kept
    ensures KeptCovered(s', f, kept) <==> KeptCovered(s, f, kept) && s.slot.value <= Reached(s, f)
  {
    IncrementCovers(s, s', created, p, f);
    ChainGrowsByOne(s, s', created, p, f);
    FilterAll(IsIn(kept), ChainOf(s, f.id));
    FilterAll(IsIn(kept), ChainOf(s', f.id));
  }

  /** A new slice that is not kept. */
  lemma DroppedIncrement(s: State, s': State, created: Option<i64>, p: nat, f: BackupManifest, kept: set<Id>)
    requires Inv(s) && TakesIncrement(s, s', created, p)
    requires f in s.store && IsPgFull(f) && LatestFull(s.store).value.id == f.id && s.nextId !in kept
    ensures KeptCovered(s', f, kept) <==> KeptCovered(s, f, kept)
  {
    AllHolding(s, f);
    ChainGrowsByOne(s, s', created, p, f);
    FilterAppend(IsIn(kept), ChainOf(s, f.id), SliceOf(s, created, LatestFull(s.store).value));
    SliceIsStored(s, s', created, p);
    SameKeptSpans(s, s', f, kept);
    assert Filter(IsIn(kept), ChainOf(s, f.id)) + [] == Filter(IsIn(kept), ChainOf(s, f.id));
  }

  /** Any other step than an increment or a prune leaves a recorded chain as it is. */
  lemma OtherStepsKeepChain(s: State, s': State, f: BackupManifest)
    requires Inv(s) && NextOrFault(s, s') && !exists created, p :: TakesIncrement(s, s', created, p)
    requires !exists gone, lost :: Prunes(s, s', gone, lost)
    requires f in s.store && IsPgFull(f)
    ensures SameChain(s, s', f) && forall m :: m in ChainOf(s, f.id) ==> Keeps(s, s', m.id)
  {
    if created, b :| RecordsFull(s, s', created, b) {
      OldChainsStay(s, s', FullManifest(s.nextId, created), f);
    } else if m :| RecordsOther(s, s', m) {
      OldChainsStay(s, s', m, f);
    } else if txns :| ServerCommits(s, s', txns) {
      QuietStepsAreQuiet(s, s', txns, []);
      QuietChain(s, s', f);
    } else if leftover :| AbandonsUpload(s, s', leftover) {
      QuietStepsAreQuiet(s, s', [], leftover);
      QuietChain(s, s', f);
    } else {
      QuietStepsAreQuiet(s, s', [], []);
      QuietChain(s, s', f);
    }
  }

  lemma IncrementStepCovers(
      s: State, s': State, created: Option<i64>, p: nat, f: BackupManifest, kept: set<Id>)
    requires Inv(s) && TakesIncrement(s, s', created, p) && f in s.store && IsPgFull(f)
    requires (LatestFull(s.store).value.id == f.id && s.nextId in kept) ==>
               (forall m :: m in ChainOf(s, f.id) ==> m.id in kept)
    ensures KeptCovered(s', f, kept) <==> KeptCovered(s, f, kept) && StartsInTime(s, s', f, kept)
  {
    if LatestFull(s.store).value.id != f.id {
      AllHolding(s, f);
      OtherChainStays(s, s', created, p, f);
      SliceIsStored(s, s', created, p);
      SameChainKeepsKept(s, s', f, kept);
    } else if s.nextId in kept {
      KeptIncrementCovers(s, s', created, p, f, kept);
    } else {
      DroppedIncrement(s, s', created, p, f, kept);
    }
  }

  lemma NotAnIncrement(s: State, s': State, f: BackupManifest, kept: set<Id>)
    requires !exists created, p :: TakesIncrement(s, s', created, p)
    ensures StartsInTime(s, s', f, kept)
  {
  }

  lemma StepCovers(s: State, s': State, f: BackupManifest, kept: set<Id>)
    requires Inv(s) && NextOrFault(s, s') && f in s.store && IsPgFull(f)
    requires forall m :: m in s.store && m.id in kept ==> m.id in StoredIds(s')
    requires forall created, p ::
               (TakesIncrement(s, s', created, p) && LatestFull(s.store).value.id == f.id && s.nextId in kept) ==>
                 (forall m :: m in ChainOf(s, f.id) ==> m.id in kept)
    ensures KeptCovered(s', f, kept) <==> KeptCovered(s, f, kept) && StartsInTime(s, s', f, kept)
  {
    if created, p :| TakesIncrement(s, s', created, p) {
      IncrementStepCovers(s, s', created, p, f, kept);
    } else {
      NotAnIncrement(s, s', f, kept);
      if gone, lost :| Prunes(s, s', gone, lost) {
        PruneKeepsKept(s, s', gone, lost, f, kept);
      } else {
        OtherStepsKeepChain(s, s', f);
        AllHolding(s, f);
        SameChainKeepsKept(s, s', f, kept);
      }
    }
  }

  lemma OnlyFullsAddBases(s: State, s': State, f: BackupManifest) returns (created: Option<i64>, b: nat)
    requires ChangesStore(s, s') && f in s'.store && f !in s.store && IsPgFull(f)
    ensures RecordsFull(s, s', created, b) && f == FullManifest(s.nextId, created)
  {
    created, b :| RecordsFull(s, s', created, b);
  }

  /** A base that was just recorded has no slices. */
  lemma NewBaseIsEmpty(s: State, s': State, f: BackupManifest, kept: set<Id>)
    requires Inv(s) && ChangesStore(s, s') && f in s'.store && f !in s.store && IsPgFull(f)
    ensures f.id == s.nextId && KeptCovered(s', f, kept)
  {
    var created, b := OnlyFullsAddBases(s, s', f);
    NewChainHolds(s, s', f);
  }

  /** A base that is newer than what a run began its steps with got no slice in it. */
  lemma {:induction false} NewBaseInTime(run: seq<State>, f: BackupManifest, kept: set<Id>)
    requires forall i :: 0 <= i < |run| - 1 ==> IdsBelow(run[i].store, f.id)
    ensures InTime(run, f, kept)
  {
    if |run| > 1 {
      NewBaseInTime(run[..|run| - 1], f, kept);
      assert IdsBelow(run[|run| - 2].store, f.id);
    }
  }

  lemma StepInRun(run: seq<State>, j: nat, f: BackupManifest)
    requires IsFaultyRun(run) && j + 1 < |run| && f in run[j].store && IsPgFull(f)
    ensures var kept := StoredIds(run[|run| - 1]);
            KeptCovered(run[j + 1], f, kept) <==> KeptCovered(run[j], f, kept) && StartsInTime(run[j], run[j + 1], f, kept)
  {
    var s, s', kept := run[j], run[j + 1], StoredIds(run[|run| - 1]);
    StateKeepsInv(run, j);
    RunStep(run, j);
    forall m | m in s.store && m.id in kept ensures m.id in StoredIds(s') {
      StoredIsBelow(run, j, m);
    }
    forall created, p | TakesIncrement(s, s', created, p) && LatestFull(s.store).value.id == f.id && s.nextId in kept
      ensures forall m :: m in ChainOf(s, f.id) ==> m.id in kept
    {
      ChainGrowsByOne(s, s', created, p, f);
      BeforeKeptIsKept(run, j + 1, f.id, ChainOf(s', f.id));
    }
    StepCovers(s, s', f, kept);
  }

  lemma RecordedInTime(run: seq<State>, j: nat, f: BackupManifest)
    requires IsFaultyRun(run) && 0 < j < |run| && f in run[j].store && f !in run[j - 1].store && IsPgFull(f)
    ensures var kept := StoredIds(run[|run| - 1]); KeptCovered(run[j], f, kept) && InTime(run[..j + 1], f, kept)
  {
    var kept := StoredIds(run[|run| - 1]);
    StateKeepsInv(run, j - 1);
    StepInStore(run, j - 1);
    NewBaseIsEmpty(run[j - 1], run[j], f, kept);
    RunNextIdsGrow(run);
    forall i | 0 <= i < j ensures IdsBelow(run[i].store, f.id) {
      StateKeepsInv(run, i);
      NextIdGrows(run, i, j - 1);
    }
    NewBaseInTime(run[..j + 1], f, kept);
  }

  lemma {:induction false} KeptCoveredMeansInTime(run: seq<State>, j: nat, f: BackupManifest)
    requires IsFaultyRun(run) && j < |run| && f in run[j].store && IsPgFull(f)
    ensures var kept := StoredIds(run[|run| - 1]); KeptCovered(run[j], f, kept) <==> InTime(run[..j + 1], f, kept)
  {
    if j > 0 {
      if f in run[j - 1].store {
        KeptCoveredMeansInTime(run, j - 1, f);
        StepInRun(run, j - 1, f);
        assert run[..j + 1][..j] == run[..j];
      } else {
        RecordedInTime(run, j, f);
      }
    }
  }

  /** After any run, faults included, a base is covered exactly when each of the
      increments it still has started at or before its last captured position. */
  lemma CoveredMeansInTime(run: seq<State>, f: BackupManifest)
    requires IsFaultyRun(run) && f in run[|run| - 1].store && IsPgFull(f)
    ensures ChainCovered(run[|run| - 1], f) <==> AlwaysInTime(run, f)
  {
    var k := |run| - 1;
    KeptCoveredMeansInTime(run, k, f);
    FilterAll(IsIn(StoredIds(run[k])), ChainOf(run[k], f.id));
    assert run[..k + 1] == run;
  }

  /** After any run, faults included: on every log of that length the slices of a
      base give the state at the last captured position exactly when each of them
      started at or before the position captured until then, and the last did not
      end before the snapshot. */
  lemma FaultyRestoreIsExact(run: seq<State>, f: BackupManifest)
    requires IsFaultyRun(run) && f in run[|run| - 1].store && IsPgFull(f)
    requires ChainOf(run[|run| - 1], f.id) != []
    ensures var s := run[|run| - 1];
            && f.id in s.snaps && s.snaps[f.id] <= |s.log| && Within(|s.log|, ChainSpans(s, f.id))
            && (AlwaysExact(|s.log|, s.snaps[f.id], ChainSpans(s, f.id))
                <==> AlwaysInTime(run, f) && s.snaps[f.id] <= Reached(s, f))
  {
    RunKeepsInv(run);
    var s := run[|run| - 1];
    AllHolding(s, f);
    ExactMeansCovered(|s.log|, s.snaps[f.id], ChainSpans(s, f.id));
    CoveredMeansInTime(run, f);
  }

  /** One of the slices has changes, and they have been deleted. */
  ghost predicate Misses(incs: seq<BackupManifest>, lost: set<Id>) {
    exists m :: m in incs && m.id in lost && m.oplogCount != Some(0)
  }

  ghost predicate MissesData(s: State, f: BackupManifest) {
    Misses(ChainOf(s, f.id), s.lost)
  }

  lemma MissesLast(incs: seq<BackupManifest>, lost: set<Id>)
    requires incs != []
    ensures var last := incs[|incs| - 1];
            Misses(incs, lost) <==> Misses(incs[..|incs| - 1], lost) || (last.id in lost && last.oplogCount != Some(0))
  {
    FrontLast(incs);
  }

  lemma {:induction false} RestoreWithLost(
      catalog: Catalog, data: map<Id, seq<Captured>>, lost: set<Id>, incs: seq<BackupManifest>, upTo: Option<int>, db: Db)
    ensures var all, r := RestoreOf(catalog, data, incs, upTo, db), RestoreOf(catalog, data - lost, incs, upTo, db);
            if Misses(incs, lost) then all.Ok? ==> r.Err? && r.error.NoData? else r == all
  {
    if incs != [] {
      var last := incs[|incs| - 1];
      RestoreWithLost(catalog, data, lost, incs[..|incs| - 1], upTo, db);
      MissesLast(incs, lost);
      assert last.id in data - lost <==> last.id in data && last.id !in lost;
    }
  }

  /** What `AlwaysExact` speaks of is what a restore does that has its data. */
  lemma RestoreReplaysChain(run: seq<State>, catalog: Catalog, f: BackupManifest, db: Db)
    requires IsFaultyRun(run) && f in run[|run| - 1].store && IsPgFull(f)
    ensures var s := run[|run| - 1];
            && Within(|s.log|, ChainSpans(s, f.id))
            && (!MissesData(s, f) ==>
                  RestoreOf(catalog, s.Archives(), ChainOf(s, f.id), None, db)
                  == AsRestore(ReplaySpans(catalog, s.log, ChainSpans(s, f.id), |s.log|, db)))
  {
    RunKeepsInv(run);
    var s := run[|run| - 1];
    AllHolding(s, f);
    RestoreIsReplay(catalog, s.log, s.data, s.spans, ChainOf(s, f.id), None, db);
    RestoreWithLost(catalog, s.data, s.lost, ChainOf(s, f.id), None, db);
  }

  // ----- when no fault happened -----

  ghost predicate AllCovered(s: State) {
    && (forall f {:trigger ChainCovered(s, f)} :: f in s.store && IsPgFull(f) ==> ChainCovered(s, f))
    && (!s.opening && s.slot.Some? && LatestFull(s.store).Some? ==>
          s.slot.value <= Reached(s, LatestFull(s.store).value))
  }

  lemma QuietStepKeepsCover(s: State, s': State)
    requires Inv(s) && AllCovered(s) && IsQuiet(s, s')
    requires (s'.slot == s.slot && s'.opening == s.opening) || s'.opening
    ensures AllCovered(s')
  {
    forall f | f in s'.store && IsPgFull(f) ensures ChainCovered(s', f) {
      assert ChainCovered(s, f);
      QuietChain(s, s', f);
      CoverStays(s, s', f);
    }
    if LatestFull(s'.store).Some? {
      QuietChain(s, s', LatestFull(s'.store).value);
      CoverStays(s, s', LatestFull(s'.store).value);
    }
  }

  lemma OldCoverStays(s: State, s': State, m: BackupManifest, f: BackupManifest)
    requires Inv(s) && AllCovered(s) && AddsFull(s, s', m) && f in s.store && IsPgFull(f)
    ensures ChainCovered(s', f) && Reached(s', f) == Reached(s, f)
  {
    assert ChainCovered(s, f);
    OldChainsStay(s, s', m, f);
    CoverStays(s, s', f);
  }

  lemma FullKeepsCover(s: State, s': State, created: Option<i64>, b: nat)
    requires Inv(s) && AllCovered(s) && RecordsFull(s, s', created, b)
    ensures AllCovered(s')
  {
    var m := FullManifest(s.nextId, created);
    NewChainHolds(s, s', m);
    LatestAfter(s.store, m);
    forall f | f in s'.store && IsPgFull(f) ensures ChainCovered(s', f) {
      if f in s.store {
        OldCoverStays(s, s', m, f);
      }
    }
  }

  lemma OtherKeepsCover(s: State, s': State, m: BackupManifest)
    requires Inv(s) && AllCovered(s) && RecordsOther(s, s', m)
    ensures AllCovered(s')
  {
    LatestAfter(s.store, m);
    forall f | f in s'.store && IsPgFull(f) ensures ChainCovered(s', f) && Reached(s', f) == Reached(s, f) {
      OldCoverStays(s, s', m, f);
    }
  }

  lemma IncrementKeepsCover(s: State, s': State, created: Option<i64>, p: nat)
    requires Inv(s) && AllCovered(s) && TakesIncrement(s, s', created, p)
    ensures AllCovered(s')
  {
    var base := LatestFull(s.store).value;
    SliceIsStored(s, s', created, p);
    LatestAfter(s.store, SliceOf(s, created, base));
    assert ChainCovered(s, base);
    IncrementCovers(s, s', created, p, base);
    forall f | f in s'.store && IsPgFull(f) ensures ChainCovered(s', f) {
      if f.id != base.id {
        assert ChainCovered(s, f);
        AllHolding(s, f);
        OtherChainStays(s, s', created, p, f);
        CoverStays(s, s', f);
      }
    }
  }

  lemma {:induction false} LatestIsLeft(ms: seq<BackupManifest>, gone: set<Id>)
    requires LatestFull(ms).Some? && LatestFull(ms).value.id !in gone
    ensures LatestFull(Filter(Stays(gone), ms)) == LatestFull(ms)
  {
    var front, last := ms[..|ms| - 1], ms[|ms| - 1];
    FrontLast(ms);
    FilterAppend(Stays(gone), front, last);
    if IsPgFull(last) {
      LatestAfter(Filter(Stays(gone), front), last);
    } else {
      LatestIsLeft(front, gone);
      if last.id !in gone {
        LatestAfter(Filter(Stays(gone), front), last);
      } else {
        assert Filter(Stays(gone), front) + [] == Filter(Stays(gone), front);
      }
    }
  }

  lemma BeginningIsCovered(b: nat, ss: seq<Span>, k: nat)
    requires IsCovered(b, ss) && k <= |ss|
    ensures IsCovered(b, ss[..k])
  {
  }

  lemma PrunedChainCovered(s: State, s': State, gone: set<Id>, lost: set<Id>, f: BackupManifest)
    requires Prunes(s, s', gone, lost) && ChainCovered(s, f)
    ensures ChainCovered(s', f)
  {
    PrunedChain(s, s', gone, lost, f.id);
    SpansOfBeginning(s.spans, ChainOf(s, f.id), |ChainOf(s', f.id)|);
    BeginningIsCovered(s.snaps[f.id], ChainSpans(s, f.id), |ChainOf(s', f.id)|);
  }

  lemma NewestIsSpared(s: State, s': State, gone: set<Id>, lost: set<Id>)
    requires Prunes(s, s', gone, lost) && SparesNewest(s, gone) && LatestFull(s.store).Some?
    ensures LatestFull(s'.store) == LatestFull(s.store)
    ensures Reached(s', LatestFull(s.store).value) == Reached(s, LatestFull(s.store).value)
  {
    var f := LatestFull(s.store).value;
    LatestIsLeft(s.store, gone);
    PrunedChain(s, s', gone, lost, f.id);
    FilterAll(Stays(gone), ChainOf(s, f.id));
  }

  lemma PruneKeepsCover(s: State, s': State, gone: set<Id>, lost: set<Id>)
    requires AllCovered(s) && Prunes(s, s', gone, lost) && SparesNewest(s, gone)
    ensures AllCovered(s')
  {
    forall f | f in s'.store && IsPgFull(f) ensures ChainCovered(s', f) {
      assert ChainCovered(s, f);
      PrunedChainCovered(s, s', gone, lost, f);
    }
    if LatestFull(s'.store).Some? {
      assert LatestFull(s'.store).value in s.store;
      NewestIsSpared(s, s', gone, lost);
    }
  }

  lemma NextKeepsCover(s: State, s': State)
    requires Inv(s) && AllCovered(s) && Next(s, s')
    ensures AllCovered(s')
  {
    if created, b :| RecordsFull(s, s', created, b) {
      FullKeepsCover(s, s', created, b);
    } else if created, p :| TakesIncrement(s, s', created, p) {
      IncrementKeepsCover(s, s', created, p);
    } else if m :| RecordsOther(s, s', m) {
      OtherKeepsCover(s, s', m);
    } else if txns :| ServerCommits(s, s', txns) {
      QuietStepsAreQuiet(s, s', txns, []);
      QuietStepKeepsCover(s, s');
    } else if leftover :| AbandonsUpload(s, s', leftover) {
      QuietStepsAreQuiet(s, s', [], leftover);
      QuietStepKeepsCover(s, s');
    } else if gone, lost :| Prunes(s, s', gone, lost) && SparesNewest(s, gone) {
      PruneKeepsCover(s, s', gone, lost);
    } else {
      QuietStepsAreQuiet(s, s', [], []);
      QuietStepKeepsCover(s, s');
    }
  }

  lemma RunIsFaulty(run: seq<State>)
    requires IsRun(run)
    ensures IsFaultyRun(run)
    ensures |run| > 1 ==> IsRun(run[..|run| - 1]) && Next(run[|run| - 2], run[|run| - 1])
  {
  }

  lemma {:induction false} RunKeepsCover(run: seq<State>)
    requires IsRun(run)
    ensures AllCovered(run[|run| - 1])
    decreases |run|
  {
    if |run| > 1 {
      var k := |run| - 1;
      RunIsFaulty(run);
      RunIsFaulty(run[..k]);
      RunKeepsInv(run[..k]);
      RunKeepsCover(run[..k]);
      NextKeepsCover(run[k - 1], run[k]);
    }
  }

  /** After any run in which each full backup that recreated the slot was recorded,
      and prunes left the newest one alone: a full backup's snapshot and its
      increments, replayed in id order with all their overlaps, give the server's
      state at the last captured position, or at the commit time asked for (both
      must not lie before the snapshot); or the restore says that data is missing,
      the latter exactly when a prune deleted changes that it replays. */
  lemma EveryPgRestoreIsExact(run: seq<State>, catalog: Catalog, f: BackupManifest, upTo: Option<int>)
    requires IsRun(run) && f in run[|run| - 1].store && IsPgFull(f)
    requires var s := run[|run| - 1]; IsServerLog(catalog, s.log) && (upTo.Some? ==> CommitsInOrder(s.log))
    requires var s := run[|run| - 1];
             f.id in s.snaps ==> s.snaps[f.id] <= Reached(s, f) && s.snaps[f.id] <= CutAt(s.log, upTo)
    ensures var s := run[|run| - 1];
            && f.id in s.snaps && s.snaps[f.id] <= |s.log| && Reached(s, f) <= |s.log|
            && var r := RestoreOf(catalog, s.Archives(), ChainOf(s, f.id), upTo, StateAt(s.log, s.snaps[f.id]));
               if MissesData(s, f) then r.Err? && r.error.NoData?
               else r == Ok(StateAt(s.log, Min(Reached(s, f), CutAt(s.log, upTo))))
  {
    RunIsFaulty(run);
    RunKeepsInv(run);
    RunKeepsCover(run);
    var s := run[|run| - 1];
    AllHolding(s, f);
    assert ChainCovered(s, f);
    CoveredChainIsExact(s, catalog, f, upTo);
    RestoreWithLost(catalog, s.data, s.lost, ChainOf(s, f.id), upTo, StateAt(s.log, s.snaps[f.id]));
  }

  // ----- a full backup that recreated the slot and failed -----

  const FIRST_TXN: Txn := Txn(0, [Insert(FIRST, OLD_ROW)], 3)
  const SECOND_TXN: Txn := Txn(0, [Insert(SECOND, OLD_ROW)], 3)

  const BASE: BackupManifest := FullManifest(0, None)
  const SLICE: BackupManifest := IncrementManifest(1, None, 0, 1)

  /** A full backup; a change; the slot is recreated for a second full backup,
      which fails; another change; an increment. */
  function LossyRun(): seq<State> {
    var s0 := State([], None, false, [], map[], map[], map[], {}, 0);
    var s1 := s0.(slot := Some(0), opening := true);
    var s2 := s1.(store := [BASE], snaps := map[0 := 0], opening := false, nextId := 1);
    var s3 := s2.(log := [FIRST_TXN]);
    var s4 := s3.(slot := Some(1), opening := true);
    var s5 := s4.(opening := false);
    var s6 := s5.(log := LOSSY_LOG);
    var s7 := s6.(store := [BASE, SLICE], spans := map[1 := Span(1, 2)], data := map[1 := [JOINS]],
                  slot := Some(2), nextId := 2);
    [s0, s1, s2, s3, s4, s5, s6, s7]
  }

  const LOSSY_LOG: seq<Txn> := [FIRST_TXN, SECOND_TXN]

  lemma LossyStretches()
    ensures Stretch(LOSSY_LOG, 0, 0) == [] && Stretch(LOSSY_LOG, 0, 1) == [APPEARS]
    ensures Stretch(LOSSY_LOG, 1, 2) == [JOINS] && Stretch(LOSSY_LOG, 0, 2) == [APPEARS, JOINS]
  {
    NoStretch(LOSSY_LOG, 0);
    OneTxn(LOSSY_LOG, 0);
    OneTxn(LOSSY_LOG, 1);
    Stretches(LOSSY_LOG, 0, 1, 2);
    assert ChangesOf(FIRST_TXN) == [APPEARS] && ChangesOf(SECOND_TXN) == [JOINS];
  }

  const BOTH_ROWS: Db := map[FIRST := OLD_ROW, SECOND := OLD_ROW]

  lemma TwoInserts()
    ensures StateAfter([APPEARS], NO_ROW) == ONE_ROW && StateAfter([APPEARS, JOINS], NO_ROW) == BOTH_ROWS
  {
    var both := [APPEARS, JOINS];
    assert both[..1] == [APPEARS] && [APPEARS][..0] == [];
    assert ONE_ROW[SECOND := OLD_ROW] == BOTH_ROWS;
  }

  lemma LossyStates(p: nat)
    requires p <= 2
    ensures StateAt(LOSSY_LOG, p) == (if p == 0 then NO_ROW else if p == 1 then ONE_ROW else BOTH_ROWS)
  {
    LossyStretches();
    TwoInserts();
  }

  lemma LossyLogIsLegal()
    ensures IsServerLog(HalfwayCatalog(), LOSSY_LOG)
  {
    LossyStretches();
    var both := [APPEARS, JOINS];
    assert both[..1] == [APPEARS] && [APPEARS][..0] == [];
    assert StateAfter([APPEARS], map[]) == map[FIRST := OLD_ROW];
    assert AllLegal(HalfwayCatalog(), [APPEARS], map[]);
  }

  lemma LossyPeek()
    ensures PeekEnd(LOSSY_LOG, 1) == 2
  {
    assert PeekFrom(LOSSY_LOG, 2, 3) == 2;
  }

  lemma LossyIncrement()
    ensures TakesIncrement(LossyRun()[6], LossyRun()[7], None, 2)
  {
    LossyStretches();
    LossyPeek();
    assert LatestFull([BASE]) == Some(BASE);
  }

  lemma LossySteps(i: nat)
    requires i < 7
    ensures NextOrFault(LossyRun()[i], LossyRun()[i + 1])
  {
    var run := LossyRun();
    if i == 0 {
      assert RecreatesSlot(run[0], run[1]);
    } else if i == 1 {
      assert RecordsFull(run[1], run[2], None, 0);
    } else if i == 2 {
      assert ServerCommits(run[2], run[3], [FIRST_TXN]);
    } else if i == 3 {
      assert RecreatesSlot(run[3], run[4]);
    } else if i == 4 {
      assert AbandonsFull(run[4], run[5]);
    } else if i == 5 {
      assert ServerCommits(run[5], run[6], [SECOND_TXN]);
    } else {
      LossyIncrement();
    }
  }

  lemma LossyRunIsFaulty()
    ensures IsFaultyRun(LossyRun())
  {
    var run := LossyRun();
    forall i, j | 0 <= i < |run| && j == i + 1 < |run| ensures NextOrFault(run[i], run[j]) {
      LossySteps(i);
    }
  }

  function LossyEnd(): State {
    State(LOSSY_LOG, Some(2), false, [BASE, SLICE], map[0 := 0], map[1 := Span(1, 2)], map[1 := [JOINS]], {}, 2)
  }

  /** In the end the change at position 0 is in no slice. */
  lemma LossyEndIs()
    ensures ChainOf(LossyEnd(), 0) == [SLICE] && Reached(LossyEnd(), BASE) == 2
    ensures LossyEnd().Archives() == map[1 := [JOINS]] && !MissesData(LossyEnd(), BASE)
  {
    LossyChain();
    assert ChainSpans(LossyEnd(), 0) == [Span(1, 2)];
  }

  lemma LossyRestoreIsNoState()
    ensures var s := LossyEnd();
            var r := RestoreOf(HalfwayCatalog(), s.Archives(), ChainOf(s, 0), None, StateAt(s.log, 0));
            r.Ok? && forall p: nat :: p <= |s.log| ==> r != Ok(StateAt(s.log, p))
  {
    LossyEndRestores();
    forall p: nat | p <= 2 ensures StateAt(LOSSY_LOG, p) != map[SECOND := OLD_ROW] {
      OtherStates(p);
    }
  }

  lemma LossyEndRestores()
    ensures var s := LossyEnd();
            RestoreOf(HalfwayCatalog(), s.Archives(), ChainOf(s, 0), None, StateAt(s.log, 0)) == Ok(map[SECOND := OLD_ROW])
  {
    LossyEndIs();
    LossyRestore();
    LossyStates(0);
  }

  /** Without that hypothesis a change can be lost: a run with one abandoned full
      backup whose restore, with no error, is no state the server ever had. */
  lemma AbandonedFullLosesChanges()
    ensures var run, catalog := LossyRun(), HalfwayCatalog();
            var s := run[|run| - 1];
            && IsFaultyRun(run)
            && BASE in s.store && IsPgFull(BASE) && IsServerLog(catalog, s.log)
            && BASE.id in s.snaps && s.snaps[BASE.id] <= Reached(s, BASE) == |s.log|
            && var r := RestoreOf(catalog, s.Archives(), ChainOf(s, BASE.id), None, StateAt(s.log, s.snaps[BASE.id]));
               r.Ok? && forall p: nat :: p <= |s.log| ==> r != Ok(StateAt(s.log, p))
  {
    LossyRunIsFaulty();
    LossyLogIsLegal();
    LossyEndIs();
    LossyRestoreIsNoState();
    assert LossyRun()[7] == LossyEnd();
  }

  lemma OtherStates(p: nat)
    requires p <= 2
    ensures StateAt(LOSSY_LOG, p) != map[SECOND := OLD_ROW]
  {
    LossyStates(p);
    var lone: Db := map[SECOND := OLD_ROW];
    assert SECOND in lone && FIRST !in lone;
  }

  lemma LossyRestore()
    ensures var chain := Filter(Chained(0), [BASE, SLICE]);
            && chain == [SLICE]
            && RestoreOf(HalfwayCatalog(), map[1 := [JOINS]], chain, None, map[]) == Ok(map[SECOND := OLD_ROW])
  {
    LossyChain();
    JoinsAlone();
    assert [SLICE][..0] == [];
  }

  lemma LossyChain()
    ensures Filter(Chained(0), [BASE, SLICE]) == [SLICE]
  {
    FilterAppend(Chained(0), [], BASE);
    FilterAppend(Chained(0), [BASE], SLICE);
    assert [] + [BASE] == [BASE] && [BASE] + [SLICE] == [BASE, SLICE];
  }

  lemma JoinsAlone()
    ensures ApplySlice(HalfwayCatalog(), [JOINS], None, map[]) == Ok(map[SECOND := OLD_ROW])
  {
    FilterAll(UpTo(None), [JOINS]);
    assert [] + [JOINS] == [JOINS];
    ApplyOneMore(HalfwayCatalog(), [], JOINS, map[]);
  }
}
