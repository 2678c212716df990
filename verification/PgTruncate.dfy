/** Truncations of tables.  The server sends them, the decoder drops them without
    an error; this says exactly when a replay of the rest still gives the server's
    state. */
module PgTruncate {
  import opened Schema
  import opened StableSort
  import opened PgReplay

  datatype Event = Changed(captured: Captured) | Truncated(table: string)

  /** What the decoder keeps of an event. */
  function Kept(e: Event): seq<Captured> {
    if e.Changed? then [e.captured] else []
  }

  function Decoded(es: seq<Event>): seq<Captured> {
    if es == [] then [] else Decoded(es[..|es| - 1]) + Kept(es[|es| - 1])
  }

  // ----- the server -----

  function Executes(db: Db, e: Event): Db {
    match e
    case Changed(c) => Executed(db, c.change)
    case Truncated(table) => map k | k in db && k.table != table :: db[k]
  }

  function ServerAfter(es: seq<Event>, db: Db): Db {
    if es == [] then db else Executes(ServerAfter(es[..|es| - 1], db), es[|es| - 1])
  }

  /** A run of the server in which no update changes a key. */
  ghost predicate IsServerRun(catalog: Catalog, es: seq<Event>, db: Db) {
    es != [] ==>
      && IsServerRun(catalog, es[..|es| - 1], db)
      && (es[|es| - 1].Changed? ==>
            var c := es[|es| - 1].captured.change;
            IsLegal(catalog, ServerAfter(es[..|es| - 1], db), c) && KeepsKey(c))
  }

  ghost predicate HasColumns(catalog: Catalog, db: Db) {
    forall k :: k in db ==> db[k].Keys == catalog(k.table).columns
  }

  // ----- around the last truncation of a table -----

  predicate IsTruncated(es: seq<Event>, table: string) {
    Truncated(table) in es
  }

  /** What a replay has at `k` when it passes the last truncation of its table. */
  function Surviving(catalog: Catalog, es: seq<Event>, k: Key, row: Option<Row>): Option<Row> {
    if es == [] then None
    else if es[|es| - 1] == Truncated(k.table) then RunRow(catalog, Decoded(es[..|es| - 1]), k, row)
    else Surviving(catalog, es[..|es| - 1], k, row)
  }

  /** The changes after the last truncation of a table, or all of them. */
  function Since(es: seq<Event>, table: string): seq<Captured> {
    if es == [] then []
    else if es[|es| - 1] == Truncated(table) then []
    else Since(es[..|es| - 1], table) + Kept(es[|es| - 1])
  }

  lemma RunOneMore(catalog: Catalog, cs: seq<Captured>, c: Captured, k: Key, row: Option<Row>)
    ensures RunRow(catalog, cs + [c], k, row)
            == if c.change.key == k then RowAfter(catalog, c.change, RunRow(catalog, cs, k, row))
               else RunRow(catalog, cs, k, row)
  {
    assert (cs + [c])[..|cs|] == cs;
  }

  /** The row that the changes since the last truncation start from. */
  function StartsFrom(catalog: Catalog, es: seq<Event>, k: Key, row: Option<Row>): Option<Row> {
    if IsTruncated(es, k.table) then Surviving(catalog, es, k, row) else row
  }

  ghost predicate RunsSince(catalog: Catalog, es: seq<Event>, k: Key, row: Option<Row>) {
    RunRow(catalog, Decoded(es), k, row)
    == RunRow(catalog, Since(es, k.table), k, StartsFrom(catalog, es, k, row))
  }

  lemma SinceChange(catalog: Catalog, rest: seq<Event>, c: Captured, k: Key, row: Option<Row>)
    requires RunsSince(catalog, rest, k, row)
    ensures RunsSince(catalog, rest + [Changed(c)], k, row)
  {
    var es := rest + [Changed(c)];
    assert es[..|rest|] == rest;
    assert StartsFrom(catalog, es, k, row) == StartsFrom(catalog, rest, k, row);
    RunOneMore(catalog, Decoded(rest), c, k, row);
    RunOneMore(catalog, Since(rest, k.table), c, k, StartsFrom(catalog, rest, k, row));
  }

  lemma SinceTruncation(catalog: Catalog, rest: seq<Event>, table: string, k: Key, row: Option<Row>)
    requires RunsSince(catalog, rest, k, row)
    ensures RunsSince(catalog, rest + [Truncated(table)], k, row)
  {
    var es := rest + [Truncated(table)];
    assert es[..|rest|] == rest && Decoded(es) == Decoded(rest);
    if table != k.table {
      assert Since(es, k.table) == Since(rest, k.table);
      assert StartsFrom(catalog, es, k, row) == StartsFrom(catalog, rest, k, row);
    } else {
      assert Truncated(table) == es[|rest|];
    }
  }

  /** A replay knows of no truncation, but may be looked at from the last one on. */
  lemma {:induction false} ReplayedSince(catalog: Catalog, es: seq<Event>, k: Key, row: Option<Row>)
    ensures RunsSince(catalog, es, k, row)
  {
    if es != [] {
      var rest, last := es[..|es| - 1], es[|es| - 1];
      FrontLast(es);
      ReplayedSince(catalog, rest, k, row);
      if last.Changed? {
        SinceChange(catalog, rest, last.captured, k, row);
      } else {
        SinceTruncation(catalog, rest, last.table, k, row);
      }
    }
  }

  /** What a legal change that keeps its key does on the server, row by row. */
  lemma LegalRow(catalog: Catalog, db: Db, c: Change, k: Key)
    requires IsLegal(catalog, db, c) && KeepsKey(c)
    ensures RowAt(Executed(db, c), k) == if c.key == k then RowAfter(catalog, c, RowAt(db, k)) else RowAt(db, k)
  {
    LegalIsApplied(catalog, db, c);
  }

  lemma {:induction false} ServerSince(catalog: Catalog, es: seq<Event>, k: Key, db: Db)
    requires IsServerRun(catalog, es, db)
    ensures RowAt(ServerAfter(es, db), k)
            == RunRow(catalog, Since(es, k.table), k, if IsTruncated(es, k.table) then None else RowAt(db, k))
  {
    if es != [] {
      var rest, last := es[..|es| - 1], es[|es| - 1];
      FrontLast(es);
      ServerSince(catalog, rest, k, db);
      if last.Changed? {
        var from := if IsTruncated(rest, k.table) then None else RowAt(db, k);
        LegalRow(catalog, ServerAfter(rest, db), last.captured.change, k);
        RunOneMore(catalog, Since(rest, k.table), last.captured, k, from);
      } else if last.table != k.table {
        assert Since(es, k.table) == Since(rest, k.table);
      }
    }
  }

  lemma {:induction false} DecodedIsTyped(catalog: Catalog, es: seq<Event>, table: string, db: Db)
    requires IsServerRun(catalog, es, db)
    ensures AllTyped(catalog, Decoded(es)) && KeysKept(Decoded(es)) && AllTyped(catalog, Since(es, table))
  {
    if es != [] {
      DecodedIsTyped(catalog, es[..|es| - 1], table, db);
    }
  }

  // ----- rows that come back -----

  lemma {:induction false} RunKeepsColumns(catalog: Catalog, cs: seq<Captured>, k: Key, row: Option<Row>)
    requires AllTyped(catalog, cs) && (row.Some? ==> row.value.Keys == catalog(k.table).columns)
    ensures var r := RunRow(catalog, cs, k, row); r.Some? ==> r.value.Keys == catalog(k.table).columns
  {
    if cs != [] {
      var rest, last := cs[..|cs| - 1], cs[|cs| - 1];
      FrontLast(cs);
      assert forall c :: c in rest ==> c in cs;
      assert last in cs && IsTyped(catalog, last.change);
      RunKeepsColumns(catalog, rest, k, row);
    }
  }

  /** A row that was created holds nothing else but what is overwritten and what is fixed. */
  lemma {:induction false} CreatedOverwrites(catalog: Catalog, cs: seq<Captured>, k: Key)
    requires !Deletes(cs, k) && RunRow(catalog, cs, k, None).Some?
    ensures RunRow(catalog, cs, k, None).value.Keys - catalog(k.table).fixed <= Overwrites(catalog, cs, k).Keys
  {
    var rest, last := cs[..|cs| - 1], cs[|cs| - 1];
    FrontLast(cs);
    assert forall c :: c in rest ==> c in cs;
    if RunRow(catalog, rest, k, None).Some? {
      CreatedOverwrites(catalog, rest, k);
    }
  }

  ghost predicate SameFixed(shape: TableShape, a: Row, b: Row) {
    forall col :: col in shape.fixed && col in a && col in b ==> a[col] == b[col]
  }

  /** A row that survives becomes the new one exactly when its fixed columns are the same. */
  lemma SurvivorBecomes(shape: TableShape, before: Row, over: Row, after: Row)
    requires before.Keys == shape.columns && after.Keys == shape.columns
    requires IsPart(over, after) && over.Keys <= shape.columns - shape.fixed && after.Keys - shape.fixed <= over.Keys
    ensures before + over == after <==> SameFixed(shape, before, after)
  {
    forall col | col in shape.columns ensures (before + over)[col] == if col in shape.fixed then before[col] else after[col] {
    }
    if SameFixed(shape, before, after) {
      assert (before + over).Keys == after.Keys;
    } else {
      var col :| col in shape.fixed && col in before && col in after && before[col] != after[col];
      assert (before + over)[col] == before[col];
    }
  }

  // ----- what a truncation costs -----

  /** The truncations in `es` do no harm at `k`, for a replay from `from` where the
      server gets to `to`: the replay has no row when it passes the last one, or the
      row is deleted later, or it is there again and has the same columns generated
      always. */
  ghost predicate IsHarmless(catalog: Catalog, es: seq<Event>, k: Key, from: Db, to: Db) {
    var survivor := Surviving(catalog, es, k, RowAt(from, k));
    || survivor.None?
    || Deletes(Since(es, k.table), k)
    || (k in to && SameFixed(catalog(k.table), survivor.value, to[k]))
  }

  ghost predicate AllHarmless(catalog: Catalog, es: seq<Event>, from: Db, to: Db) {
    forall k :: IsHarmless(catalog, es, k, from, to)
  }

  lemma {:induction false} SurvivorHasColumns(catalog: Catalog, es: seq<Event>, k: Key, row: Option<Row>, db: Db)
    requires IsServerRun(catalog, es, db) && (row.Some? ==> row.value.Keys == catalog(k.table).columns)
    ensures var r := Surviving(catalog, es, k, row); r.Some? ==> r.value.Keys == catalog(k.table).columns
  {
    if es != [] {
      var rest := es[..|es| - 1];
      SurvivorHasColumns(catalog, rest, k, row, db);
      DecodedIsTyped(catalog, rest, k.table, db);
      RunKeepsColumns(catalog, Decoded(rest), k, row);
    }
  }

  lemma {:induction false} NothingSurvives(catalog: Catalog, es: seq<Event>, k: Key, row: Option<Row>)
    requires !IsTruncated(es, k.table)
    ensures Surviving(catalog, es, k, row).None?
  {
    if es != [] {
      FrontLast(es);
      NothingSurvives(catalog, es[..|es| - 1], k, row);
    }
  }

  /** A survivor runs through the changes since, over the row that the server creates. */
  lemma SurvivorRuns(catalog: Catalog, cs: seq<Captured>, k: Key, survivor: Row)
    requires AllTyped(catalog, cs) && !Deletes(cs, k) && survivor.Keys == catalog(k.table).columns
    ensures var row := RunRow(catalog, cs, k, None);
            RunRow(catalog, cs, k, Some(survivor)) == row
            <==> row.Some? && SameFixed(catalog(k.table), survivor, row.value)
  {
    var row := RunRow(catalog, cs, k, None);
    PresentRow(catalog, cs, k, survivor);
    if row.Some? {
      CreatedRow(catalog, cs, k);
      CreatedOverwrites(catalog, cs, k);
      RunKeepsColumns(catalog, cs, k, None);
      SurvivorBecomes(catalog(k.table), survivor, Overwrites(catalog, cs, k), row.value);
    }
  }

  lemma TruncatedKey(catalog: Catalog, es: seq<Event>, k: Key, from: Db, db: Db)
    requires IsServerRun(catalog, es, db) && HasColumns(catalog, from) && IsTruncated(es, k.table)
    ensures RunRow(catalog, Decoded(es), k, RowAt(from, k)) == RowAt(ServerAfter(es, db), k)
            <==> IsHarmless(catalog, es, k, from, ServerAfter(es, db))
  {
    var since, survivor := Since(es, k.table), Surviving(catalog, es, k, RowAt(from, k));
    ReplayedSince(catalog, es, k, RowAt(from, k));
    ServerSince(catalog, es, k, db);
    if survivor.Some? {
      if Deletes(since, k) {
        DeletedRowIsForgotten(catalog, since, k, survivor, None);
      } else {
        DecodedIsTyped(catalog, es, k.table, db);
        SurvivorHasColumns(catalog, es, k, RowAt(from, k), db);
        SurvivorRuns(catalog, since, k, survivor.value);
      }
    }
  }

  // ----- a replay from before the snapshot -----

  lemma {:induction false} RunConcat(catalog: Catalog, a: seq<Captured>, b: seq<Captured>, k: Key, row: Option<Row>)
    ensures RunRow(catalog, a + b, k, row) == RunRow(catalog, b, k, RunRow(catalog, a, k, row))
    decreases |b|
  {
    if b == [] {
      assert a + b == a;
    } else {
      RunConcat(catalog, a, b[..|b| - 1], k, row);
      assert (a + b)[..|a + b| - 1] == a + b[..|b| - 1];
    }
  }

  lemma {:induction false} DecodedConcat(a: seq<Event>, b: seq<Event>)
    ensures Decoded(a + b) == Decoded(a) + Decoded(b)
    decreases |b|
  {
    if b == [] {
      assert a + b == a;
    } else {
      DecodedConcat(a, b[..|b| - 1]);
      assert (a + b)[..|a + b| - 1] == a + b[..|b| - 1];
    }
  }

  lemma {:induction false} ServerConcat(catalog: Catalog, a: seq<Event>, b: seq<Event>, db: Db)
    ensures ServerAfter(a + b, db) == ServerAfter(b, ServerAfter(a, db))
    ensures IsServerRun(catalog, a + b, db) ==>
              IsServerRun(catalog, a, db) && IsServerRun(catalog, b, ServerAfter(a, db))
    decreases |b|
  {
    if b == [] {
      assert a + b == a;
    } else {
      ServerConcat(catalog, a, b[..|b| - 1], db);
      assert (a + b)[..|a + b| - 1] == a + b[..|b| - 1];
    }
  }

  lemma {:induction false} ServerKeepsColumns(catalog: Catalog, es: seq<Event>, db: Db)
    requires IsServerRun(catalog, es, db) && HasColumns(catalog, db)
    ensures HasColumns(catalog, ServerAfter(es, db))
  {
    if es != [] {
      ServerKeepsColumns(catalog, es[..|es| - 1], db);
    }
  }

  /** At a key of a table that is not truncated, changes that the snapshot holds are absorbed. */
  lemma UntruncatedKey(catalog: Catalog, a: seq<Event>, b: seq<Event>, k: Key, db: Db)
    requires IsServerRun(catalog, a + b, db) && !IsTruncated(a + b, k.table)
    ensures RunRow(catalog, Decoded(a + b), k, RowAt(ServerAfter(a, db), k)) == RowAt(ServerAfter(a + b, db), k)
  {
    var row := RowAt(db, k);
    ServerConcat(catalog, a, b, db);
    DecodedConcat(a, b);
    assert !IsTruncated(a, k.table);
    ServerRowUntruncated(catalog, a, k, db);
    ServerRowUntruncated(catalog, a + b, k, db);
    DecodedIsTyped(catalog, a, k.table, db);
    RunRowTwice(catalog, Decoded(a), k, row);
    RunConcat(catalog, Decoded(a), Decoded(b), k, row);
    RunConcat(catalog, Decoded(a), Decoded(b), k, RunRow(catalog, Decoded(a), k, row));
  }

  lemma ServerRowUntruncated(catalog: Catalog, es: seq<Event>, k: Key, db: Db)
    requires IsServerRun(catalog, es, db) && !IsTruncated(es, k.table)
    ensures RowAt(ServerAfter(es, db), k) == RunRow(catalog, Decoded(es), k, RowAt(db, k))
  {
    ServerSince(catalog, es, k, db);
    ReplayedSince(catalog, es, k, RowAt(db, k));
  }

  lemma HarmlessMeansSameRow(catalog: Catalog, a: seq<Event>, b: seq<Event>, k: Key, db: Db)
    requires IsServerRun(catalog, a + b, db) && HasColumns(catalog, db)
    ensures var from, to := ServerAfter(a, db), ServerAfter(a + b, db);
            RunRow(catalog, Decoded(a + b), k, RowAt(from, k)) == RowAt(to, k)
            <==> IsHarmless(catalog, a + b, k, from, to)
  {
    if IsTruncated(a + b, k.table) {
      ServerConcat(catalog, a, b, db);
      ServerKeepsColumns(catalog, a, db);
      TruncatedKey(catalog, a + b, k, ServerAfter(a, db), db);
    } else {
      UntruncatedKey(catalog, a, b, k, db);
      NothingSurvives(catalog, a + b, k, RowAt(ServerAfter(a, db), k));
    }
  }

  /** From the state after `a`, a replay of what the decoder keeps of `a + b` never
      fails, and gives the server's state exactly when the truncations do no harm. */
  lemma ExactMeansHarmless(catalog: Catalog, a: seq<Event>, b: seq<Event>, db: Db)
    requires IsServerRun(catalog, a + b, db) && HasColumns(catalog, db)
    ensures var from, to := ServerAfter(a, db), ServerAfter(a + b, db);
            var r := ApplyAll(catalog, Decoded(a + b), from);
            r.Ok? && (r.value == to <==> AllHarmless(catalog, a + b, from, to))
  {
    var from, to := ServerAfter(a, db), ServerAfter(a + b, db);
    DecodedIsTyped(catalog, a + b, "", db);
    ApplyByRow(catalog, Decoded(a + b), from);
    var r := ApplyAll(catalog, Decoded(a + b), from);
    forall k ensures RowAt(r.value, k) == RowAt(to, k) <==> IsHarmless(catalog, a + b, k, from, to) {
      HarmlessMeansSameRow(catalog, a, b, k, db);
    }
    if AllHarmless(catalog, a + b, from, to) {
      forall k ensures RowAt(r.value, k) == RowAt(to, k) {
        assert IsHarmless(catalog, a + b, k, from, to);
      }
      SameRows(r.value, to);
    }
  }

  lemma OneMoreEvent(catalog: Catalog, es: seq<Event>, e: Event, db: Db)
    ensures Decoded(es + [e]) == Decoded(es) + Kept(e)
    ensures ServerAfter(es + [e], db) == Executes(ServerAfter(es, db), e)
    ensures IsServerRun(catalog, es, db)
            && (e.Changed? ==> IsLegal(catalog, ServerAfter(es, db), e.captured.change) && KeepsKey(e.captured.change))
            ==> IsServerRun(catalog, es + [e], db)
  {
    assert (es + [e])[..|es|] == es;
  }

  lemma OneChange(catalog: Catalog, c: Captured, db: Db)
    requires IsLegal(catalog, db, c.change) && KeepsKey(c.change)
    ensures Decoded([Changed(c)]) == [c] && ServerAfter([Changed(c)], db) == Executed(db, c.change)
    ensures IsServerRun(catalog, [Changed(c)], db) && ApplyAll(catalog, [c], db) == Ok(Executed(db, c.change))
  {
    OneMoreEvent(catalog, [], Changed(c), db);
    ApplyOneMore(catalog, [], c, db);
    LegalIsApplied(catalog, db, c.change);
    assert [] + [Changed(c)] == [Changed(c)] && [] + [c] == [c];
  }

  /** A row that is inserted and then truncated away comes back in the replay. */
  lemma TruncatedRowComesBack(catalog: Catalog, c: Captured)
    requires IsTyped(catalog, c.change) && c.change.Insert?
    ensures var es := [Changed(c), Truncated(c.change.key.table)];
            && IsServerRun(catalog, es, map[]) && ServerAfter(es, map[]) == map[]
            && ApplyAll(catalog, Decoded(es), map[]) == Ok(map[c.change.key := c.change.row])
  {
    var truncated := Truncated(c.change.key.table);
    OneChange(catalog, c, map[]);
    OneMoreEvent(catalog, [Changed(c)], truncated, map[]);
    assert [Changed(c)] + [truncated] == [Changed(c), truncated] && [c] + [] == [c];
  }
}
