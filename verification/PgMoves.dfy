/** Repeating a stretch of the log in which rows move to other keys.  A replay of
    such a stretch may fail, or leave a row that differs; this says exactly when
    it does neither, for stretches in which no key takes part in two moves. */
module PgMoves {
  import opened Schema
  import opened StableSort
  import opened PgReplay

  // ----- a replay, key by key -----

  /** What a replay that does not fail leaves at a key. */
  function ReplayedRow(catalog: Catalog, cs: seq<Captured>, k: Key, db: Db): Option<Row> {
    if cs == [] then RowAt(db, k)
    else
      var rest, c := cs[..|cs| - 1], cs[|cs| - 1].change;
      var before := ReplayedRow(catalog, rest, k, db);
      if KeepsKey(c) then (if c.key == k then RowAfter(catalog, c, before) else before)
      else if c.key == k then None
      else if c.newKey == k then
        var moved := ReplayedRow(catalog, rest, c.key, db);
        if moved.Some? then RowAfter(catalog, c, moved) else before
      else before
  }

  /** A move of a row that is there to a key that is taken. */
  predicate Collides(catalog: Catalog, rest: seq<Captured>, c: Change, db: Db) {
    && !KeepsKey(c)
    && ReplayedRow(catalog, rest, c.key, db).Some? && ReplayedRow(catalog, rest, c.newKey, db).Some?
  }

  predicate NeverCollides(catalog: Catalog, cs: seq<Captured>, db: Db) {
    cs != [] ==>
      && NeverCollides(catalog, cs[..|cs| - 1], db)
      && !Collides(catalog, cs[..|cs| - 1], cs[|cs| - 1].change, db)
  }

  ghost predicate HasRows(catalog: Catalog, cs: seq<Captured>, db: Db, r: Db) {
    forall k :: RowAt(r, k) == ReplayedRow(catalog, cs, k, db)
  }

  /** A replay fails exactly when a move collides, and otherwise leaves these rows. */
  lemma {:induction false} ReplayByRow(catalog: Catalog, cs: seq<Captured>, db: Db)
    ensures var r := ApplyAll(catalog, cs, db);
            && (r.Ok? <==> NeverCollides(catalog, cs, db))
            && (r.Ok? ==> HasRows(catalog, cs, db, r.value))
  {
    if cs != [] {
      var rest, c := cs[..|cs| - 1], cs[|cs| - 1].change;
      ReplayByRow(catalog, rest, db);
      var before := ApplyAll(catalog, rest, db);
      if before.Ok? {
        assert RowAt(before.value, c.key) == ReplayedRow(catalog, rest, c.key, db);
        if c.Update? {
          assert RowAt(before.value, c.newKey) == ReplayedRow(catalog, rest, c.newKey, db);
        }
        RowsAfter(catalog, rest, cs[|cs| - 1], db, before.value);
        FrontLast(cs);
      }
    }
  }

  lemma RowsAfter(catalog: Catalog, rest: seq<Captured>, c: Captured, db: Db, before: Db)
    requires HasRows(catalog, rest, db, before)
    ensures var r := Applied(catalog, before, c.change); r.Ok? ==> HasRows(catalog, rest + [c], db, r.value)
  {
    var r := Applied(catalog, before, c.change);
    assert (rest + [c])[..|rest|] == rest;
    if r.Ok? {
      forall k ensures RowAt(r.value, k) == ReplayedRow(catalog, rest + [c], k, db) {
        assert RowAt(before, k) == ReplayedRow(catalog, rest, k, db);
        assert RowAt(before, c.change.key) == ReplayedRow(catalog, rest, c.change.key, db);
      }
    }
  }

  // ----- keys that no move touches -----

  predicate Touches(c: Change, k: Key) {
    !KeepsKey(c) && (c.key == k || c.newKey == k)
  }

  ghost predicate Untouched(cs: seq<Captured>, k: Key) {
    forall c :: c in cs ==> !Touches(c.change, k)
  }

  /** From there on, a key that no move touches goes its own way. */
  lemma {:induction false} RunsOn(catalog: Catalog, a: seq<Captured>, b: seq<Captured>, k: Key, db: Db)
    requires Untouched(b, k)
    ensures ReplayedRow(catalog, a + b, k, db) == RunRow(catalog, b, k, ReplayedRow(catalog, a, k, db))
    decreases |b|
  {
    if b == [] {
      assert a + b == a;
    } else {
      var front, last := b[..|b| - 1], b[|b| - 1];
      FrontLast(b);
      RunsOn(catalog, a, front, k, db);
      assert (a + b)[..|a + b| - 1] == a + front;
      assert last in b && !Touches(last.change, k);
    }
  }

  lemma RunsAlone(catalog: Catalog, cs: seq<Captured>, k: Key, db: Db)
    requires Untouched(cs, k)
    ensures ReplayedRow(catalog, cs, k, db) == RunRow(catalog, cs, k, RowAt(db, k))
  {
    RunsOn(catalog, [], cs, k, db);
    assert [] + cs == cs;
  }

  /** What the server has at a key is what the replay leaves there. */
  lemma ServerRow(catalog: Catalog, cs: seq<Captured>, k: Key, db: Db)
    requires AllLegal(catalog, cs, db)
    ensures RowAt(StateAfter(cs, db), k) == ReplayedRow(catalog, cs, k, db)
  {
    LegalReplay(catalog, cs, db);
    ReplayByRow(catalog, cs, db);
  }

  ghost predicate Inserts(cs: seq<Captured>, k: Key) {
    exists c :: c in cs && c.change.Insert? && c.change.key == k
  }

  /** A key that is free in the end and never deleted was not used. */
  lemma {:induction false} FreeKeyIsUnused(catalog: Catalog, cs: seq<Captured>, k: Key, db: Db, row: Option<Row>)
    requires AllLegal(catalog, cs, db) && Untouched(cs, k) && !Deletes(cs, k) && k !in StateAfter(cs, db)
    ensures RunRow(catalog, cs, k, row) == row
  {
    if cs != [] {
      var rest, last := cs[..|cs| - 1], cs[|cs| - 1];
      FrontLast(cs);
      assert last in cs && !Touches(last.change, k) && last.change != Delete(k);
      FreeKeyIsUnused(catalog, rest, k, db, row);
    }
  }

  /** A key that is free in the end loses what it had exactly when it is deleted. */
  lemma FreeKey(catalog: Catalog, cs: seq<Captured>, k: Key, db: Db, row: Option<Row>)
    requires AllLegal(catalog, cs, db) && Untouched(cs, k) && k !in StateAfter(cs, db)
    ensures RunRow(catalog, cs, k, row) == if Deletes(cs, k) then None else row
  {
    if Deletes(cs, k) {
      DeletedRowIsForgotten(catalog, cs, k, row, RowAt(db, k));
      ServerRow(catalog, cs, k, db);
      RunsAlone(catalog, cs, k, db);
    } else {
      FreeKeyIsUnused(catalog, cs, k, db, row);
    }
  }

  lemma {:induction false} NoRowWithoutInsert(catalog: Catalog, cs: seq<Captured>, k: Key)
    requires !Inserts(cs, k)
    ensures RunRow(catalog, cs, k, None) == None
  {
    if cs != [] {
      FrontLast(cs);
      assert forall c :: c in cs[..|cs| - 1] ==> c in cs;
      NoRowWithoutInsert(catalog, cs[..|cs| - 1], k);
      assert cs[|cs| - 1] in cs;
    }
  }

  lemma {:induction false} RowOfInsert(catalog: Catalog, cs: seq<Captured>, k: Key, row: Option<Row>)
    requires !Deletes(cs, k) && (row.Some? || Inserts(cs, k))
    ensures RunRow(catalog, cs, k, row).Some?
  {
    if cs != [] {
      var rest, last := cs[..|cs| - 1], cs[|cs| - 1];
      FrontLast(cs);
      assert last in cs && last.change != Delete(k);
      assert forall c :: c in rest ==> c in cs;
      if row.Some? || Inserts(rest, k) {
        RowOfInsert(catalog, rest, k, row);
      } else {
        assert last.change.Insert? && last.change.key == k;
      }
    }
  }

  /** A key that is taken in the end is taken after a replay exactly when it was, or is inserted. */
  lemma TakenKey(catalog: Catalog, cs: seq<Captured>, k: Key, db: Db, row: Option<Row>)
    requires AllLegal(catalog, cs, db) && Untouched(cs, k) && k in StateAfter(cs, db)
    ensures RunRow(catalog, cs, k, row).Some? <==> row.Some? || Inserts(cs, k)
  {
    ServerRow(catalog, cs, k, db);
    RunsAlone(catalog, cs, k, db);
    if Deletes(cs, k) {
      DeletedRowIsForgotten(catalog, cs, k, row, RowAt(db, k));
      DeletedRowIsForgotten(catalog, cs, k, None, RowAt(db, k));
      if !Inserts(cs, k) {
        NoRowWithoutInsert(catalog, cs, k);
        assert false;
      }
    } else if row.Some? || Inserts(cs, k) {
      RowOfInsert(catalog, cs, k, row);
    } else {
      NoRowWithoutInsert(catalog, cs, k);
    }
  }

  /** A key that is taken and not deleted is not inserted. */
  lemma {:induction false} TakenKeyStays(catalog: Catalog, cs: seq<Captured>, k: Key, db: Db)
    requires AllLegal(catalog, cs, db) && Untouched(cs, k) && !Deletes(cs, k) && k in db
    ensures k in StateAfter(cs, db) && RunRow(catalog, cs, k, None) == None
  {
    if cs != [] {
      var rest, last := cs[..|cs| - 1], cs[|cs| - 1];
      FrontLast(cs);
      assert last in cs && !Touches(last.change, k) && last.change != Delete(k);
      assert forall c :: c in rest ==> c in cs;
      TakenKeyStays(catalog, rest, k, db);
    }
  }

  // ----- one move in its stretch -----

  /** The stretch `a + [m] + b` moves a row once to or from each key of `m`. */
  ghost predicate IsMove(a: seq<Captured>, m: Captured, b: seq<Captured>) {
    && !KeepsKey(m.change)
    && Untouched(a, m.change.key) && Untouched(a, m.change.newKey)
    && Untouched(b, m.change.key) && Untouched(b, m.change.newKey)
  }

  /** What the second replay has at the old key when it comes to the move: a row
      of the stretch itself or the one that is there in the end. */
  ghost predicate IsBack(a: seq<Captured>, m: Captured, db: Db) {
    m.change.key in db || Inserts(a, m.change.key)
  }

  /** When the second replay, on `db`, gets over the move.  If it finds no row at the
      old key, it must not have deleted the one at the new key, unless that goes
      later anyway.  If it finds one, the new key must be free, and the row that
      goes there must end up like the one that `db` has, unless that goes later. */
  ghost predicate IsAbsorbed(catalog: Catalog, a: seq<Captured>, m: Captured, b: seq<Captured>, db: Db)
    requires !KeepsKey(m.change)
  {
    var k, k' := m.change.key, m.change.newKey;
    if !IsBack(a, m, db) then Deletes(a, k') ==> Deletes(b, k')
    else
      && (k' !in db || Deletes(a, k'))
      && (Deletes(b, k') ||
          var back := RunRow(catalog, a, k, RowAt(db, k));
          back.Some? && RowAt(db, k') == Some(back.value + OwnColumns(catalog, m.change) + Overwrites(catalog, b, k')))
  }

  lemma StretchIs(a: seq<Captured>, m: Captured, b: seq<Captured>)
    ensures a + [m] + b == a + ([m] + b) && (a + [m])[..|a|] == a
  {
  }

  /** What replaying a stretch leaves at the two keys of its move. */
  lemma MovedRows(catalog: Catalog, a: seq<Captured>, m: Captured, b: seq<Captured>, db: Db)
    requires IsMove(a, m, b)
    ensures var k, k' := m.change.key, m.change.newKey;
            var x, y := RunRow(catalog, a, k, RowAt(db, k)), RunRow(catalog, a, k', RowAt(db, k'));
            && ReplayedRow(catalog, a, k, db) == x && ReplayedRow(catalog, a, k', db) == y
            && ReplayedRow(catalog, a + [m] + b, k, db) == RunRow(catalog, b, k, None)
            && ReplayedRow(catalog, a + [m] + b, k', db)
               == RunRow(catalog, b, k', if x.Some? then Some(x.value + OwnColumns(catalog, m.change)) else y)
  {
    var k, k' := m.change.key, m.change.newKey;
    RunsAlone(catalog, a, k, db);
    RunsAlone(catalog, a, k', db);
    StretchIs(a, m, b);
    RunsOn(catalog, a + [m], b, k, db);
    RunsOn(catalog, a + [m], b, k', db);
  }

  /** On the server the move finds its row and a free key. */
  lemma LegalMove(catalog: Catalog, a: seq<Captured>, m: Captured, b: seq<Captured>, db: Db)
    requires AllLegal(catalog, a + [m] + b, db) && IsMove(a, m, b)
    ensures AllLegal(catalog, a, db)
    ensures var before := StateAfter(a, db); m.change.key in before && m.change.newKey !in before
    ensures var moved := StateAfter(a + [m], db); AllLegal(catalog, b, moved) && m.change.newKey in moved
  {
    LegalConcat(catalog, a + [m], b, db);
    StretchIs(a, m, b);
  }

  /** The row that the server moved, and what became of it. */
  lemma MovedOnServer(catalog: Catalog, a: seq<Captured>, m: Captured, b: seq<Captured>, db: Db) returns (row: Row)
    requires AllLegal(catalog, a + [m] + b, db) && IsMove(a, m, b)
    ensures var after, k' := StateAfter(a + [m] + b, db), m.change.newKey;
            && RowAt(after, m.change.key) == RunRow(catalog, b, m.change.key, None)
            && RowAt(after, k') == RunRow(catalog, b, k', Some(row))
            && (!Deletes(b, k') ==> RowAt(after, k') == Some(row + Overwrites(catalog, b, k')))
  {
    LegalMove(catalog, a, m, b, db);
    ServerRow(catalog, a, m.change.key, db);
    ServerRow(catalog, a + [m] + b, m.change.key, db);
    ServerRow(catalog, a + [m] + b, m.change.newKey, db);
    MovedRows(catalog, a, m, b, db);
    row := RunRow(catalog, a, m.change.key, RowAt(db, m.change.key)).value + OwnColumns(catalog, m.change);
    if !Deletes(b, m.change.newKey) {
      PresentRow(catalog, b, m.change.newKey, row);
    }
  }

  ghost predicate MoveRepeats(catalog: Catalog, a: seq<Captured>, m: Captured, b: seq<Captured>, db: Db)
    requires !KeepsKey(m.change)
  {
    && !Collides(catalog, a, m.change, db)
    && ReplayedRow(catalog, a + [m] + b, m.change.newKey, db) == RowAt(db, m.change.newKey)
  }

  lemma OverwrittenTwice(catalog: Catalog, cs: seq<Captured>, k: Key, row: Row)
    requires !Deletes(cs, k)
    ensures var over := Overwrites(catalog, cs, k);
            RunRow(catalog, cs, k, Some(row + over)) == Some(row + over)
  {
    var over := Overwrites(catalog, cs, k);
    PresentRow(catalog, cs, k, row + over);
    RowSum(row, over, over);
    assert over + over == over;
  }

  /** The second replay finds no row to move. */
  lemma MoveIsSkipped(catalog: Catalog, a: seq<Captured>, m: Captured, b: seq<Captured>, db: Db, again: Db)
    requires AllLegal(catalog, a + [m] + b, db) && IsMove(a, m, b) && again == StateAfter(a + [m] + b, db)
    requires !IsBack(a, m, again)
    ensures MoveRepeats(catalog, a, m, b, again) <==> IsAbsorbed(catalog, a, m, b, again)
  {
    var k, k' := m.change.key, m.change.newKey;
    LegalMove(catalog, a, m, b, db);
    TakenKey(catalog, a, k, db, RowAt(again, k));
    FreeKey(catalog, a, k', db, RowAt(again, k'));
    MovedRows(catalog, a, m, b, again);
    var row := MovedOnServer(catalog, a, m, b, db);
    var y := RunRow(catalog, a, k', RowAt(again, k'));
    if Deletes(b, k') {
      DeletedRowIsForgotten(catalog, b, k', y, Some(row));
    } else if Deletes(a, k') {
      TakenKeyStays(catalog, b, k', StateAfter(a + [m], db));
    } else {
      OverwrittenTwice(catalog, b, k', row);
    }
  }

  /** The second replay finds a row to move. */
  lemma MoveIsRepeated(catalog: Catalog, a: seq<Captured>, m: Captured, b: seq<Captured>, db: Db, again: Db)
    requires AllLegal(catalog, a + [m] + b, db) && IsMove(a, m, b) && again == StateAfter(a + [m] + b, db)
    requires IsBack(a, m, again)
    ensures MoveRepeats(catalog, a, m, b, again) <==> IsAbsorbed(catalog, a, m, b, again)
  {
    var k, k' := m.change.key, m.change.newKey;
    LegalMove(catalog, a, m, b, db);
    TakenKey(catalog, a, k, db, RowAt(again, k));
    FreeKey(catalog, a, k', db, RowAt(again, k'));
    MovedRows(catalog, a, m, b, again);
    var row := MovedOnServer(catalog, a, m, b, db);
    var back := RunRow(catalog, a, k, RowAt(again, k)).value + OwnColumns(catalog, m.change);
    if Deletes(b, k') {
      DeletedRowIsForgotten(catalog, b, k', Some(back), Some(row));
    } else {
      PresentRow(catalog, b, k', back);
    }
  }

  lemma MoveRepeatsMeansAbsorbed(catalog: Catalog, a: seq<Captured>, m: Captured, b: seq<Captured>, db: Db)
    requires AllLegal(catalog, a + [m] + b, db) && IsMove(a, m, b)
    ensures var again := StateAfter(a + [m] + b, db);
            MoveRepeats(catalog, a, m, b, again) <==> IsAbsorbed(catalog, a, m, b, again)
  {
    var again := StateAfter(a + [m] + b, db);
    if IsBack(a, m, again) {
      MoveIsRepeated(catalog, a, m, b, db, again);
    } else {
      MoveIsSkipped(catalog, a, m, b, db, again);
    }
  }

  // ----- a whole stretch -----

  predicate IsMoveAt(cs: seq<Captured>, i: nat) {
    i < |cs| && !KeepsKey(cs[i].change)
  }

  /** No key takes part in two moves. */
  ghost predicate MovesApart(cs: seq<Captured>) {
    forall i: nat, j: nat, k {:trigger Touches(cs[i].change, k), Touches(cs[j].change, k)} ::
      i < |cs| && j < |cs| && Touches(cs[i].change, k) && Touches(cs[j].change, k) ==> i == j
  }

  lemma Split(cs: seq<Captured>, i: nat)
    requires i < |cs|
    ensures cs == cs[..i] + [cs[i]] + cs[i + 1..]
  {
  }

  lemma MoveInStretch(cs: seq<Captured>, i: nat)
    requires MovesApart(cs) && IsMoveAt(cs, i)
    ensures IsMove(cs[..i], cs[i], cs[i + 1..])
  {
    var k, k' := cs[i].change.key, cs[i].change.newKey;
    assert Touches(cs[i].change, k) && Touches(cs[i].change, k');
    forall c | c in cs[..i] ensures !Touches(c.change, k) && !Touches(c.change, k') {
      var j :| 0 <= j < i && cs[j] == c;
    }
    forall c | c in cs[i + 1..] ensures !Touches(c.change, k) && !Touches(c.change, k') {
      var j :| i < j < |cs| && cs[j] == c;
    }
  }

  ghost predicate AllAbsorbed(catalog: Catalog, cs: seq<Captured>, db: Db) {
    forall i: nat {:trigger IsMoveAt(cs, i)} :: IsMoveAt(cs, i) ==> IsAbsorbed(catalog, cs[..i], cs[i], cs[i + 1..], db)
  }

  ghost predicate AllRepeat(catalog: Catalog, cs: seq<Captured>, db: Db) {
    forall i: nat {:trigger IsMoveAt(cs, i)} :: IsMoveAt(cs, i) ==> MoveRepeats(catalog, cs[..i], cs[i], cs[i + 1..], db)
  }

  predicate CollidesAt(catalog: Catalog, cs: seq<Captured>, i: nat, db: Db) {
    i < |cs| && Collides(catalog, cs[..i], cs[i].change, db)
  }

  lemma SamePart(catalog: Catalog, cs: seq<Captured>, n: nat, i: nat, db: Db)
    requires i < n <= |cs|
    ensures CollidesAt(catalog, cs[..n], i, db) <==> CollidesAt(catalog, cs, i, db)
  {
    assert cs[..n][..i] == cs[..i];
  }

  lemma {:induction false} NeverCollidesMeans(catalog: Catalog, cs: seq<Captured>, db: Db)
    ensures NeverCollides(catalog, cs, db) <==> forall i: nat :: !CollidesAt(catalog, cs, i, db)
  {
    if cs != [] {
      var n := |cs| - 1;
      NeverCollidesMeans(catalog, cs[..n], db);
      forall i: nat | i < n ensures CollidesAt(catalog, cs[..n], i, db) <==> CollidesAt(catalog, cs, i, db) {
        SamePart(catalog, cs, n, i, db);
      }
      assert CollidesAt(catalog, cs, n, db) <==> Collides(catalog, cs[..n], cs[n].change, db);
    }
  }

  /** At the keys that no move touches, and at those that rows leave, nothing can differ. */
  lemma OtherRows(catalog: Catalog, cs: seq<Captured>, db: Db, k: Key)
    requires AllLegal(catalog, cs, db) && MovesApart(cs)
    requires forall i: nat {:trigger IsMoveAt(cs, i)} :: IsMoveAt(cs, i) ==> cs[i].change.newKey != k
    ensures var again := StateAfter(cs, db); ReplayedRow(catalog, cs, k, again) == RowAt(again, k)
  {
    var again := StateAfter(cs, db);
    ServerRow(catalog, cs, k, db);
    if c :| c in cs && Touches(c.change, k) {
      var i :| 0 <= i < |cs| && cs[i] == c;
      assert IsMoveAt(cs, i);
      MoveInStretch(cs, i);
      Split(cs, i);
      MovedRows(catalog, cs[..i], cs[i], cs[i + 1..], db);
      MovedRows(catalog, cs[..i], cs[i], cs[i + 1..], again);
    } else {
      RunsAlone(catalog, cs, k, db);
      RunsAlone(catalog, cs, k, again);
      LegalReplay(catalog, cs, db);
      RunRowTwice(catalog, cs, k, RowAt(db, k));
    }
  }

  lemma RepeatMeansAllRepeat(catalog: Catalog, cs: seq<Captured>, db: Db)
    requires AllLegal(catalog, cs, db) && MovesApart(cs)
    ensures TwiceIsOnce(catalog, cs, db) <==> AllRepeat(catalog, cs, StateAfter(cs, db))
  {
    var again := StateAfter(cs, db);
    LegalReplay(catalog, cs, db);
    ReplayByRow(catalog, cs, again);
    NeverCollidesMeans(catalog, cs, again);
    var twice := ApplyAll(catalog, cs, again);
    if AllRepeat(catalog, cs, again) {
      forall i: nat ensures !CollidesAt(catalog, cs, i, again) {
        assert CollidesAt(catalog, cs, i, again) ==> IsMoveAt(cs, i);
      }
      forall k ensures RowAt(twice.value, k) == RowAt(again, k) {
        if i: nat :| IsMoveAt(cs, i) && cs[i].change.newKey == k {
          Split(cs, i);
        } else {
          OtherRows(catalog, cs, db, k);
        }
      }
      SameRows(twice.value, again);
    } else {
      var i: nat :| IsMoveAt(cs, i) && !MoveRepeats(catalog, cs[..i], cs[i], cs[i + 1..], again);
      Split(cs, i);
      assert CollidesAt(catalog, cs, i, again) <==> Collides(catalog, cs[..i], cs[i].change, again);
    }
  }

  /** A stretch in which no key takes part in two moves may be repeated exactly
      when each of its moves is absorbed. */
  lemma RepeatMeansMovesAbsorbed(catalog: Catalog, cs: seq<Captured>, db: Db)
    requires AllLegal(catalog, cs, db) && MovesApart(cs)
    ensures TwiceIsOnce(catalog, cs, db) <==> AllAbsorbed(catalog, cs, StateAfter(cs, db))
  {
    RepeatMeansAllRepeat(catalog, cs, db);
    forall i: nat | IsMoveAt(cs, i)
      ensures var again := StateAfter(cs, db);
              IsAbsorbed(catalog, cs[..i], cs[i], cs[i + 1..], again)
              <==> MoveRepeats(catalog, cs[..i], cs[i], cs[i + 1..], again)
    {
      MoveInStretch(cs, i);
      Split(cs, i);
      MoveRepeatsMeansAbsorbed(catalog, cs[..i], cs[i], cs[i + 1..], db);
    }
  }

  /** The moves of a stretch `w` that two slices share do no harm when they are absorbed. */
  lemma OverlapWithMoves(catalog: Catalog, a: seq<Captured>, w: seq<Captured>, b: seq<Captured>, db: Db)
    requires AllLegal(catalog, a + w + b, db) && MovesApart(w)
    requires AllAbsorbed(catalog, w, StateAfter(a + w, db))
    ensures ApplyAll(catalog, a + w, db) == Ok(StateAfter(a + w, db))
    ensures ApplyAll(catalog, w + b, StateAfter(a + w, db)) == Ok(StateAfter(a + w + b, db))
  {
    LegalConcat(catalog, a + w, b, db);
    LegalConcat(catalog, a, w, db);
    StateConcat(a, w, db);
    StateConcat(a + w, b, db);
    LegalReplay(catalog, a + w, db);
    LegalReplay(catalog, w, StateAfter(a, db));
    LegalReplay(catalog, b, StateAfter(a + w, db));
    RepeatMeansMovesAbsorbed(catalog, w, StateAfter(a, db));
    ApplyConcat(catalog, w, b, StateAfter(a + w, db));
  }
}
