/** Replaying captured changes of keyed tables.  An insert is an upsert, updates
    and deletes go by key; running the same stretch of the log twice gives what
    running it once gives, as long as no update changes a key. */
module PgReplay {
  import opened Schema
  import opened StableSort

  type Value = Option<string>

  type Row = map<string, Value>

  /** The values of the key columns; none of them can be NULL. */
  datatype Key = Key(table: string, values: seq<string>)

  type Db = map<Key, Row>

  /** The number of key columns and the other columns; `fixed` are those generated
      always: an existing row keeps them. */
  datatype TableShape = TableShape(keyColumns: nat, columns: set<string>, fixed: set<string>)

  type Catalog = string -> TableShape

  /** An update carries the columns whose values it has; it may move the row to another key. */
  datatype Change =
    | Insert(key: Key, row: Row)
    | Update(key: Key, newKey: Key, cols: Row)
    | Delete(key: Key)

  datatype Captured = Captured(change: Change, commit: int)

  /** A transaction; `messages` counts what a peek returns for it. */
  datatype Txn = Txn(commit: int, changes: seq<Change>, messages: nat)

  // ----- the server -----

  /** A key of a table that has key columns. */
  predicate IsKey(catalog: Catalog, k: Key) {
    |k.values| == catalog(k.table).keyColumns > 0
  }

  /** What the decoder gives for a change of a table with a key. */
  predicate IsTyped(catalog: Catalog, c: Change) {
    && IsKey(catalog, c.key)
    && match c
       case Insert(k, row) => row.Keys == catalog(k.table).columns
       case Update(k, newKey, cols) =>
         newKey.table == k.table && IsKey(catalog, newKey) && cols.Keys <= catalog(k.table).columns
       case Delete(_) => true
  }

  /** A change that the server can have executed on `db`. */
  predicate IsLegal(catalog: Catalog, db: Db, c: Change) {
    && IsTyped(catalog, c)
    && match c
       case Insert(k, _) => k !in db
       case Update(k, newKey, cols) =>
         && k in db && (newKey == k || newKey !in db)
         && forall col :: col in cols && col in catalog(k.table).fixed ==> col in db[k] && cols[col] == db[k][col]
       case Delete(k) => k in db
  }

  function Executed(db: Db, c: Change): Db {
    match c
    case Insert(k, row) => db[k := row]
    case Update(k, newKey, cols) => if k in db then (db - {k})[newKey := db[k] + cols] else db
    case Delete(k) => db - {k}
  }

  function StateAfter(cs: seq<Captured>, db: Db): Db {
    if cs == [] then db else Executed(StateAfter(cs[..|cs| - 1], db), cs[|cs| - 1].change)
  }

  ghost predicate AllLegal(catalog: Catalog, cs: seq<Captured>, db: Db) {
    cs != [] ==>
      && AllLegal(catalog, cs[..|cs| - 1], db)
      && IsLegal(catalog, StateAfter(cs[..|cs| - 1], db), cs[|cs| - 1].change)
  }

  // ----- the replay -----

  datatype ApplyError = UniqueViolation

  /** What the statement built for a change does on the target. */
  function Applied(catalog: Catalog, db: Db, c: Change): Result<Db, ApplyError> {
    match c
    case Insert(k, row) =>
      Ok(db[k := if k in db then db[k] + (row - catalog(k.table).fixed) else row])
    case Update(k, newKey, cols) =>
      if k !in db then Ok(db)
      else if newKey != k && newKey in db then Err(UniqueViolation)
      else Ok((db - {k})[newKey := db[k] + (cols - catalog(k.table).fixed)])
    case Delete(k) => Ok(db - {k})
  }

  function ApplyAll(catalog: Catalog, cs: seq<Captured>, db: Db): Result<Db, ApplyError> {
    if cs == [] then Ok(db)
    else
      var before := ApplyAll(catalog, cs[..|cs| - 1], db);
      if before.Err? then before else Applied(catalog, before.value, cs[|cs| - 1].change)
  }

  predicate Reaches(c: Captured, upTo: Option<int>) {
    upTo.Some? ==> c.commit <= upTo.value
  }

  function UpTo(upTo: Option<int>): Captured -> bool {
    (c: Captured) => Reaches(c, upTo)
  }

  function ApplySlice(catalog: Catalog, cs: seq<Captured>, upTo: Option<int>, db: Db): Result<Db, ApplyError> {
    ApplyAll(catalog, Filter(UpTo(upTo), cs), db)
  }

  method Apply(catalog: Catalog, cs: seq<Captured>, upTo: Option<int>, db: Db) returns (r: Result<Db, ApplyError>)
    ensures r == ApplySlice(catalog, cs, upTo, db)
  {
    var target := db;
    ghost var done := [];
    for i := 0 to |cs|
      invariant done == Filter(UpTo(upTo), cs[..i]) && ApplyAll(catalog, done, db) == Ok(target)
    {
      OneFurther(cs, i, upTo);
      if upTo.Some? && cs[i].commit > upTo.value {
        continue;
      }
      ApplyOneMore(catalog, done, cs[i], db);
      done := done + [cs[i]];
      var next := Applied(catalog, target, cs[i].change);
      if next.Err? {
        SliceFails(catalog, cs, i + 1, upTo, db);
        return next;
      }
      target := next.value;
    }
    assert cs[..|cs|] == cs;
    r := Ok(target);
  }

  lemma OneFurther(cs: seq<Captured>, i: nat, upTo: Option<int>)
    requires i < |cs|
    ensures Filter(UpTo(upTo), cs[..i + 1])
            == Filter(UpTo(upTo), cs[..i]) + (if Reaches(cs[i], upTo) then [cs[i]] else [])
  {
    FilterAppend(UpTo(upTo), cs[..i], cs[i]);
    assert cs[..i + 1] == cs[..i] + [cs[i]];
  }

  lemma SliceFails(catalog: Catalog, cs: seq<Captured>, i: nat, upTo: Option<int>, db: Db)
    requires i <= |cs| && ApplySlice(catalog, cs[..i], upTo, db).Err?
    ensures ApplySlice(catalog, cs, upTo, db) == ApplySlice(catalog, cs[..i], upTo, db)
  {
    assert cs == cs[..i] + cs[i..];
    FilterConcat(UpTo(upTo), cs[..i], cs[i..]);
    FailureStays(catalog, Filter(UpTo(upTo), cs[..i]), Filter(UpTo(upTo), cs[i..]), db);
  }

  lemma ApplyOneMore(catalog: Catalog, cs: seq<Captured>, c: Captured, db: Db)
    ensures ApplyAll(catalog, cs + [c], db)
            == var before := ApplyAll(catalog, cs, db);
               if before.Err? then before else Applied(catalog, before.value, c.change)
  {
    assert (cs + [c])[..|cs|] == cs;
  }

  lemma {:induction false} FailureStays(catalog: Catalog, cs: seq<Captured>, rest: seq<Captured>, db: Db)
    requires ApplyAll(catalog, cs, db).Err?
    ensures ApplyAll(catalog, cs + rest, db) == ApplyAll(catalog, cs, db)
    decreases |rest|
  {
    if rest == [] {
      assert cs + rest == cs;
    } else {
      FailureStays(catalog, cs, rest[..|rest| - 1], db);
      assert (cs + rest)[..|cs + rest| - 1] == cs + rest[..|rest| - 1];
    }
  }

  // ----- changes that keep their keys -----

  predicate KeepsKey(c: Change) {
    c.Update? ==> c.newKey == c.key
  }

  ghost predicate KeysKept(cs: seq<Captured>) {
    forall c :: c in cs ==> KeepsKey(c.change)
  }

  ghost predicate AllTyped(catalog: Catalog, cs: seq<Captured>) {
    forall c :: c in cs ==> IsTyped(catalog, c.change)
  }

  /** What a change does to the row of its key. */
  function RowAfter(catalog: Catalog, c: Change, row: Option<Row>): Option<Row> {
    match c
    case Insert(k, created) => Some(if row.Some? then row.value + (created - catalog(k.table).fixed) else created)
    case Update(k, _, cols) => if row.Some? then Some(row.value + (cols - catalog(k.table).fixed)) else None
    case Delete(_) => None
  }

  function RowAt(db: Db, k: Key): Option<Row> {
    if k in db then Some(db[k]) else None
  }

  function RunRow(catalog: Catalog, cs: seq<Captured>, k: Key, row: Option<Row>): Option<Row> {
    if cs == [] then row
    else
      var before := RunRow(catalog, cs[..|cs| - 1], k, row);
      var c := cs[|cs| - 1].change;
      if c.key == k then RowAfter(catalog, c, before) else before
  }

  /** Without key changes a replay never fails, and treats each key on its own. */
  lemma {:induction false} ApplyByRow(catalog: Catalog, cs: seq<Captured>, db: Db)
    requires KeysKept(cs)
    ensures var r := ApplyAll(catalog, cs, db);
            r.Ok? && forall k :: RowAt(r.value, k) == RunRow(catalog, cs, k, RowAt(db, k))
  {
    if cs != [] {
      var rest, last := cs[..|cs| - 1], cs[|cs| - 1].change;
      FrontLast(cs);
      assert KeepsKey(last);
      ApplyByRow(catalog, rest, db);
      var before := ApplyAll(catalog, rest, db).value;
      var after := Applied(catalog, before, last).value;
      forall k ensures RowAt(after, k) == RunRow(catalog, cs, k, RowAt(db, k)) {
        assert RowAt(before, k) == RunRow(catalog, rest, k, RowAt(db, k));
      }
    }
  }

  lemma SameRows(a: Db, b: Db)
    requires forall k :: RowAt(a, k) == RowAt(b, k)
    ensures a == b
  {
    forall k ensures k in a <==> k in b {
      assert RowAt(a, k) == RowAt(b, k);
    }
    forall k | k in a ensures a[k] == b[k] {
      assert RowAt(a, k) == RowAt(b, k);
    }
  }

  // ----- once is enough -----

  ghost predicate Deletes(cs: seq<Captured>, k: Key) {
    exists c :: c in cs && c.change == Delete(k)
  }

  /** What a change sets in a row that is already there. */
  function OwnColumns(catalog: Catalog, c: Change): Row {
    match c
    case Insert(key, row) => row - catalog(key.table).fixed
    case Update(key, _, cols) => cols - catalog(key.table).fixed
    case Delete(_) => map[]
  }

  /** All the columns that the changes of a row set, when the row is there throughout. */
  function Overwrites(catalog: Catalog, cs: seq<Captured>, k: Key): Row {
    if cs == [] then map[]
    else
      var before := Overwrites(catalog, cs[..|cs| - 1], k);
      var c := cs[|cs| - 1].change;
      if c.key == k then before + OwnColumns(catalog, c) else before
  }

  lemma {:induction false} DeletedRowIsForgotten(catalog: Catalog, cs: seq<Captured>, k: Key, a: Option<Row>, b: Option<Row>)
    requires Deletes(cs, k)
    ensures RunRow(catalog, cs, k, a) == RunRow(catalog, cs, k, b)
  {
    var rest := cs[..|cs| - 1];
    FrontLast(cs);
    if cs[|cs| - 1].change != Delete(k) {
      DeletedRowIsForgotten(catalog, rest, k, a, b);
    }
  }

  lemma {:induction false} PresentRow(catalog: Catalog, cs: seq<Captured>, k: Key, row: Row)
    requires !Deletes(cs, k)
    ensures RunRow(catalog, cs, k, Some(row)) == Some(row + Overwrites(catalog, cs, k))
  {
    if cs != [] {
      var rest := cs[..|cs| - 1];
      FrontLast(cs);
      assert forall c :: c in rest ==> c in cs;
      PresentRow(catalog, rest, k, row);
      var c := cs[|cs| - 1].change;
      assert cs[|cs| - 1] in cs && c != Delete(k);
      RowSum(row, Overwrites(catalog, rest, k), OwnColumns(catalog, c));
    } else {
      assert row + map[] == row;
    }
  }

  lemma RowSum(a: Row, b: Row, c: Row)
    ensures (a + b) + c == a + (b + c)
  {
  }

  ghost predicate IsPart(a: Row, b: Row) {
    forall col :: col in a ==> col in b && a[col] == b[col]
  }

  /** A row that the changes created already holds all that they overwrite. */
  lemma {:induction false} CreatedRow(catalog: Catalog, cs: seq<Captured>, k: Key)
    requires !Deletes(cs, k) && AllTyped(catalog, cs)
    ensures var shape := catalog(k.table); Overwrites(catalog, cs, k).Keys <= shape.columns - shape.fixed
    ensures var row := RunRow(catalog, cs, k, None);
            row.Some? ==> IsPart(Overwrites(catalog, cs, k), row.value)
  {
    if cs != [] {
      var rest, last := cs[..|cs| - 1], cs[|cs| - 1];
      FrontLast(cs);
      assert forall c :: c in rest ==> c in cs;
      assert last in cs && IsTyped(catalog, last.change);
      CreatedRow(catalog, rest, k);
    }
  }

  lemma RunRowTwice(catalog: Catalog, cs: seq<Captured>, k: Key, row: Option<Row>)
    requires AllTyped(catalog, cs)
    ensures var once := RunRow(catalog, cs, k, row); RunRow(catalog, cs, k, once) == once
  {
    if Deletes(cs, k) {
      DeletedRowIsForgotten(catalog, cs, k, row, RunRow(catalog, cs, k, row));
    } else {
      var over := Overwrites(catalog, cs, k);
      CreatedRow(catalog, cs, k);
      var once := RunRow(catalog, cs, k, row);
      if row.Some? {
        PresentRow(catalog, cs, k, row.value);
        PresentRow(catalog, cs, k, row.value + over);
        RowSum(row.value, over, over);
        assert over + over == over;
      } else if once.Some? {
        PresentRow(catalog, cs, k, once.value);
        assert once.value + over == once.value;
      }
    }
  }

  /** Applying changes twice gives what applying them once gives. */
  lemma ApplyTwice(catalog: Catalog, cs: seq<Captured>, db: Db)
    requires KeysKept(cs) && AllTyped(catalog, cs)
    ensures var once := ApplyAll(catalog, cs, db);
            once.Ok? && ApplyAll(catalog, cs, once.value) == once
  {
    ApplyByRow(catalog, cs, db);
    var once := ApplyAll(catalog, cs, db).value;
    ApplyByRow(catalog, cs, once);
    var twice := ApplyAll(catalog, cs, once).value;
    forall k ensures RowAt(twice, k) == RowAt(once, k) {
      RunRowTwice(catalog, cs, k, RowAt(db, k));
    }
    SameRows(twice, once);
  }

  ghost predicate TwiceIsOnce(catalog: Catalog, cs: seq<Captured>, db: Db) {
    var once := ApplyAll(catalog, cs, db);
    once.Ok? && ApplyAll(catalog, cs, once.value) == once
  }

  /** Whatever legally follows `c` without changing keys, the whole may be repeated. */
  ghost predicate MayRepeat(catalog: Catalog, c: Captured) {
    forall cs, db :: KeysKept(cs) && AllLegal(catalog, [c] + cs, db) ==> TwiceIsOnce(catalog, [c] + cs, db)
  }

  /** The changes that may be repeated are exactly those that keep their key. */
  lemma MayRepeatMeansKeyKept(catalog: Catalog, c: Captured)
    requires IsTyped(catalog, c.change)
    ensures MayRepeat(catalog, c) <==> KeepsKey(c.change)
  {
    if KeepsKey(c.change) {
      forall cs, db | KeysKept(cs) && AllLegal(catalog, [c] + cs, db) ensures TwiceIsOnce(catalog, [c] + cs, db) {
        LegalReplay(catalog, [c] + cs, db);
        ApplyTwice(catalog, [c] + cs, db);
      }
    } else {
      var row, cs := MovedAndReused(catalog, c);
      assert !TwiceIsOnce(catalog, [c] + cs, map[c.change.key := row]);
    }
  }

  /** A row moves to another key and its old key is used again: repeating the move
      finds both keys taken. */
  lemma MovedAndReused(catalog: Catalog, c: Captured) returns (row: Row, cs: seq<Captured>)
    requires IsTyped(catalog, c.change) && !KeepsKey(c.change)
    ensures KeysKept(cs) && AllLegal(catalog, [c] + cs, map[c.change.key := row])
    ensures !TwiceIsOnce(catalog, [c] + cs, map[c.change.key := row])
  {
    var k, k', cols := c.change.key, c.change.newKey, c.change.cols;
    var shape := catalog(k.table);
    row := (map col | col in shape.columns :: None) + cols;
    var again := Captured(Insert(k, row), 0);
    cs := [again];
    var db: Db := map[k := row];
    var moved: Db := map[k' := row];
    assert row + cols == row && row + (cols - shape.fixed) == row;
    assert (db - {k})[k' := row] == moved;
    assert [c] + cs == [c, again] && [c, again][..1] == [c] && [c][..0] == [];
    assert IsLegal(catalog, db, c.change) && Executed(db, c.change) == moved;
    assert StateAfter([c], db) == moved && AllLegal(catalog, [c], db);
    var once := moved[k := row];
    assert ApplyAll(catalog, [c], db) == Ok(moved);
    assert ApplyAll(catalog, [c, again], db) == Ok(once);
    assert ApplyAll(catalog, [c], once) == Err(UniqueViolation);
  }

  // ----- the replay agrees with the server -----

  lemma {:induction false} ApplyConcat(catalog: Catalog, a: seq<Captured>, b: seq<Captured>, db: Db)
    requires ApplyAll(catalog, a, db).Ok?
    ensures ApplyAll(catalog, a + b, db) == ApplyAll(catalog, b, ApplyAll(catalog, a, db).value)
    decreases |b|
  {
    if b == [] {
      assert a + b == a;
    } else {
      ApplyConcat(catalog, a, b[..|b| - 1], db);
      assert (a + b)[..|a + b| - 1] == a + b[..|b| - 1];
    }
  }

  lemma {:induction false} StateConcat(a: seq<Captured>, b: seq<Captured>, db: Db)
    ensures StateAfter(a + b, db) == StateAfter(b, StateAfter(a, db))
    decreases |b|
  {
    if b == [] {
      assert a + b == a;
    } else {
      StateConcat(a, b[..|b| - 1], db);
      assert (a + b)[..|a + b| - 1] == a + b[..|b| - 1];
    }
  }

  lemma {:induction false} LegalConcat(catalog: Catalog, a: seq<Captured>, b: seq<Captured>, db: Db)
    requires AllLegal(catalog, a + b, db)
    ensures AllLegal(catalog, a, db) && AllLegal(catalog, b, StateAfter(a, db))
    decreases |b|
  {
    if b == [] {
      assert a + b == a;
    } else {
      assert (a + b)[..|a + b| - 1] == a + b[..|b| - 1];
      LegalConcat(catalog, a, b[..|b| - 1], db);
      StateConcat(a, b[..|b| - 1], db);
    }
  }

  lemma LegalIsApplied(catalog: Catalog, db: Db, c: Change)
    requires IsLegal(catalog, db, c)
    ensures Applied(catalog, db, c) == Ok(Executed(db, c)) && IsTyped(catalog, c)
  {
    if c.Update? {
      var fixed := catalog(c.key.table).fixed;
      assert db[c.key] + (c.cols - fixed) == db[c.key] + c.cols;
    }
  }

  /** On the state in which the server executed them, changes do what they did there. */
  lemma {:induction false} LegalReplay(catalog: Catalog, cs: seq<Captured>, db: Db)
    requires AllLegal(catalog, cs, db)
    ensures ApplyAll(catalog, cs, db) == Ok(StateAfter(cs, db)) && AllTyped(catalog, cs)
  {
    if cs != [] {
      var rest := cs[..|cs| - 1];
      LegalReplay(catalog, rest, db);
      LegalIsApplied(catalog, StateAfter(rest, db), cs[|cs| - 1].change);
      FrontLast(cs);
    }
  }

  lemma KeptParts(a: seq<Captured>, b: seq<Captured>)
    requires KeysKept(a + b)
    ensures KeysKept(a) && KeysKept(b)
  {
    forall c | c in a ensures c in a + b {}
    forall c | c in b ensures c in a + b {}
  }

  /** A stretch that overlaps what was replayed before adds only what is new. */
  lemma OverlapIsAbsorbed(catalog: Catalog, a: seq<Captured>, w: seq<Captured>, b: seq<Captured>, db: Db)
    requires KeysKept(a + w + b) && AllTyped(catalog, w)
    ensures ApplyAll(catalog, a + w, db).Ok?
    ensures ApplyAll(catalog, w + b, ApplyAll(catalog, a + w, db).value) == ApplyAll(catalog, a + w + b, db)
  {
    KeptParts(a + w, b);
    KeptParts(a, w);
    ApplyByRow(catalog, a + w, db);
    ApplyByRow(catalog, a, db);
    ApplyConcat(catalog, a, w, db);
    var once := ApplyAll(catalog, a + w, db).value;
    ApplyTwice(catalog, w, ApplyAll(catalog, a, db).value);
    ApplyConcat(catalog, w, b, once);
    ApplyConcat(catalog, a + w, b, db);
  }
}
