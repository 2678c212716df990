/** A slice is read from what the server still retains when the read begins, which
    may be less than when the gap was checked.  Here is when such a slice is whole,
    and what a restore from slices that are not gives. */
module LateCapture {
  import opened Schema
  import opened StableSort
  import opened Chain
  import opened Pitr

  lemma {:induction false} WindowConcat(
      a: seq<Entry>, b: seq<Entry>, lo: OplogTimestamp, hi: OplogTimestamp, target: int)
    ensures Window(a + b, lo, hi, target) == Window(a, lo, hi, target) + Window(b, lo, hi, target)
  {
    if a == [] {
      assert a + b == b;
    } else {
      assert (a + b)[1..] == a[1..] + b;
      WindowConcat(a[1..], b, lo, hi, target);
    }
  }

  lemma WindowParts(log: seq<Entry>, k: nat, lo: OplogTimestamp, hi: OplogTimestamp, target: int)
    requires k <= |log|
    ensures Window(log, lo, hi, target) == Window(log[..k], lo, hi, target) + Window(log[k..], lo, hi, target)
  {
    assert log == log[..k] + log[k..];
    WindowConcat(log[..k], log[k..], lo, hi, target);
  }

  lemma SameAfter<T>(a: seq<T>, b: seq<T>)
    ensures a + b == b <==> a == []
  {
    assert |a + b| == |a| + |b|;
  }

  /** A slice read from `log[k..]` is whole exactly when none of its entries has
      been dropped. */
  lemma CaptureIsWhole(log: seq<Entry>, k: nat, lo: OplogTimestamp, hi: OplogTimestamp)
    requires k <= |log|
    ensures Captured(log[k..], lo, hi) == Captured(log, lo, hi)
            <==> forall e :: e in log[..k] ==> !(lo.Lt(e.ts) && e.ts.Le(hi))
  {
    WindowParts(log, k, lo, hi, U32_MAX);
    SameAfter(Captured(log[..k], lo, hi), Captured(log[k..], lo, hi));
    WindowMembers(log[..k], lo, hi, U32_MAX);
    HasMember(Captured(log[..k], lo, hi));
  }

  // ----- replaying slices of which some are not whole -----

  function Piece(data: map<Id, seq<Entry>>, id: Id, m: EndMapping): seq<Entry>
    requires id in data
  {
    AppliedUpTo(data[id], if m.limitSlice == Some(id) then m.limit else None)
  }

  lemma SamePieces(a: seq<Entry>, restA: seq<Entry>, b: seq<Entry>, restB: seq<Entry>)
    requires |a| <= |b| && |restA| <= |restB|
    ensures |a + restA| <= |b + restB|
    ensures a + restA == b + restB <==> a == b && restA == restB
  {
    if a + restA == b + restB {
      assert |a + restA| == |b + restB|;
      assert (a + restA)[..|a|] == a && (b + restB)[..|a|] == b;
      assert (a + restA)[|a|..] == restA && (b + restB)[|a|..] == restB;
    }
  }

  /** When no piece of one replay is longer than that of another, the replays are
      the same exactly when the pieces are. */
  lemma {:induction false} ReplaysCompare(
      a: map<Id, seq<Entry>>, b: map<Id, seq<Entry>>, m: EndMapping, ids: seq<Id>)
    requires HasData(a, ids) && HasData(b, ids)
    requires forall id :: id in ids ==> |Piece(a, id, m)| <= |Piece(b, id, m)|
    ensures var ra, rb := ReplayedIds(a, ids, m.limitSlice, m.limit), ReplayedIds(b, ids, m.limitSlice, m.limit);
            && |ra| <= |rb|
            && (ra == rb <==> forall id :: id in ids ==> Piece(a, id, m) == Piece(b, id, m))
    decreases ids
  {
    if ids != [] {
      HeadTail(ids);
      ReplaysCompare(a, b, m, ids[1..]);
      SamePieces(
        Piece(a, ids[0], m), ReplayedIds(a, ids[1..], m.limitSlice, m.limit),
        Piece(b, ids[0], m), ReplayedIds(b, ids[1..], m.limitSlice, m.limit));
    }
  }

  /** A slice that is replayed without a limit lies within the target. */
  lemma {:induction false} ReplayedWithin(decided: OplogTimestamp, slices: seq<ChainNode>, target: int, n: ChainNode)
    requires DistinctIds(slices) && n in slices && n.id in EndMappingFrom(decided, slices, target).replayIds
    ensures n.oplogRange.Some? && !n.isEmptySlice
    ensures EndMappingFrom(decided, slices, target).limitSlice == Some(n.id) || n.oplogRange.value.end.t <= target
    decreases slices
  {
    HeadTail(slices);
    var first, rest := slices[0], slices[1..];
    MappingIds(decided, slices, target);
    if first.oplogRange.None? {
      MappingIds(decided, rest, target);
      ReplayedWithin(decided, rest, target, n);
    } else if first.oplogRange.value.end.t <= target {
      MappingIds(first.oplogRange.value.end, rest, target);
      if n != first {
        ReplayedWithin(first.oplogRange.value.end, rest, target, n);
      }
    }
  }

  /** What a replayed slice read from `log[k..]` adds is the window of that. */
  lemma PieceIsWindow(
      log: seq<Entry>, k: nat, decided: OplogTimestamp, slices: seq<ChainNode>, target: int, n: ChainNode,
      data: map<Id, seq<Entry>>)
    requires Increasing(log) && k <= |log|
    requires DistinctIds(slices) && n in slices && n.id in EndMappingFrom(decided, slices, target).replayIds
    requires n.oplogRange.Some? && n.id in data
    requires data[n.id] == Captured(log[k..], n.oplogRange.value.start, n.oplogRange.value.end)
    ensures Piece(data, n.id, EndMappingFrom(decided, slices, target))
            == Window(log[k..], n.oplogRange.value.start, n.oplogRange.value.end, target)
  {
    var m, range := EndMappingFrom(decided, slices, target), n.oplogRange.value;
    ReplayedWithin(decided, slices, target, n);
    LimitIsExact(decided, slices, target);
    if m.limitSlice == Some(n.id) {
      LimitIsWindow(log[k..], range.start, range.end, target);
    } else {
      NoLimitAppliesAll(data[n.id]);
      WindowWhole(log[k..], range.start, range.end, target);
    }
  }

  /** Slice `s` was read from `log[since[s.id]..]`; its data may be gone since. */
  ghost predicate HoldsSince(data: map<Id, seq<Entry>>, log: seq<Entry>, since: map<Id, nat>, s: ChainNode) {
    && s.oplogRange.Some? && s.oplogRange.value.start.Le(s.oplogRange.value.end)
    && if s.isEmptySlice then Captured(log, s.oplogRange.value.start, s.oplogRange.value.end) == []
       else
         && s.id in since && since[s.id] <= |log|
         && (s.id in data ==>
               data[s.id] == Captured(log[since[s.id]..], s.oplogRange.value.start, s.oplogRange.value.end))
  }

  ghost predicate AllHoldSince(
      data: map<Id, seq<Entry>>, log: seq<Entry>, since: map<Id, nat>, slices: seq<ChainNode>)
  {
    forall s {:trigger HoldsSince(data, log, since, s)} :: s in slices ==> HoldsSince(data, log, since, s)
  }

  /** The entries up to the target that had been dropped when the slice was read. */
  function Missed(log: seq<Entry>, since: map<Id, nat>, s: ChainNode, target: int): seq<Entry> {
    if s.id in since && since[s.id] <= |log| && s.oplogRange.Some? then
      Window(log[..since[s.id]], s.oplogRange.value.start, s.oplogRange.value.end, target)
    else []
  }

  /** What the slices would hold, had nothing been dropped. */
  function WholeData(log: seq<Entry>, slices: seq<ChainNode>): map<Id, seq<Entry>> {
    map id | id in IdsOf(slices) ::
      var n := FindNode(slices, id);
      if n.Some? && n.value.oplogRange.Some? then
        Captured(log, n.value.oplogRange.value.start, n.value.oplogRange.value.end)
      else []
  }

  lemma WholeDataOf(log: seq<Entry>, slices: seq<ChainNode>, n: ChainNode)
    requires DistinctIds(slices) && n in slices && n.oplogRange.Some?
    ensures n.id in WholeData(log, slices)
    ensures WholeData(log, slices)[n.id] == Captured(log, n.oplogRange.value.start, n.oplogRange.value.end)
  {
    FindDistinct(slices, n);
    var i :| 0 <= i < |slices| && slices[i] == n;
    assert IdsOf(slices)[i] == n.id;
  }

  lemma WholeDataHolds(
      data: map<Id, seq<Entry>>, log: seq<Entry>, since: map<Id, nat>, slices: seq<ChainNode>)
    requires DistinctIds(slices) && AllHoldSince(data, log, since, slices)
    ensures Holds(WholeData(log, slices), log, slices)
  {
    forall s | s in slices ensures HoldsSince(data, log, since, s) && s.id in WholeData(log, slices)
      ensures s.oplogRange.Some?
      ensures WholeData(log, slices)[s.id] == Captured(log, s.oplogRange.value.start, s.oplogRange.value.end)
    {
      assert HoldsSince(data, log, since, s);
      WholeDataOf(log, slices, s);
    }
  }

  /** The two pieces of one replayed slice: they are the same exactly when it missed nothing. */
  lemma PieceCompares(
      data: map<Id, seq<Entry>>, log: seq<Entry>, since: map<Id, nat>, from: OplogTimestamp, slices: seq<ChainNode>,
      target: int, n: ChainNode)
    requires Increasing(log) && DistinctIds(slices) && n in slices && HoldsSince(data, log, since, n)
    requires n.id in EndMappingFrom(from, slices, target).replayIds && n.id in data
    ensures var m, whole := EndMappingFrom(from, slices, target), WholeData(log, slices);
            && n.id in whole
            && |Piece(data, n.id, m)| <= |Piece(whole, n.id, m)|
            && (Piece(data, n.id, m) == Piece(whole, n.id, m) <==> Missed(log, since, n, target) == [])
  {
    var whole, range := WholeData(log, slices), n.oplogRange.value;
    ReplayedWithin(from, slices, target, n);
    var k := since[n.id];
    WholeDataOf(log, slices, n);
    assert log[0..] == log;
    PieceIsWindow(log, 0, from, slices, target, n, whole);
    PieceIsWindow(log, k, from, slices, target, n, data);
    WindowParts(log, k, range.start, range.end, target);
    SameAfter(Window(log[..k], range.start, range.end, target), Window(log[k..], range.start, range.end, target));
  }

  lemma ReplayedNode(from: OplogTimestamp, slices: seq<ChainNode>, target: int, id: Id) returns (n: ChainNode)
    requires id in EndMappingFrom(from, slices, target).replayIds
    ensures n in slices && n.id == id && !n.isEmptySlice
  {
    MappingIds(from, slices, target);
    n :| n in slices && n.id == id && !n.isEmptySlice;
  }

  /** Replaying what the mapping chose applies exactly the entries after the base,
      up to the chain's end and the target, exactly when no replayed slice missed
      an entry up to the target. */
  lemma ReplayIsExactMeansNothingMissed(
      data: map<Id, seq<Entry>>, log: seq<Entry>, since: map<Id, nat>, from: OplogTimestamp, slices: seq<ChainNode>,
      target: int)
    requires Increasing(log) && Tiled(from, slices) && DistinctIds(slices) && AllHoldSince(data, log, since, slices)
    requires HasData(data, EndMappingFrom(from, slices, target).replayIds)
    ensures var m := EndMappingFrom(from, slices, target);
            Replayed(data, m) == Window(log, from, ChainEnd(from, slices), target)
            <==> forall n :: n in slices && n.id in m.replayIds ==> Missed(log, since, n, target) == []
  {
    var m, whole := EndMappingFrom(from, slices, target), WholeData(log, slices);
    WholeDataHolds(data, log, since, slices);
    ReplayIsTheLogWindow(whole, log, from, slices, target);
    forall n | n in slices && n.id in m.replayIds
      ensures n.id in whole && |Piece(data, n.id, m)| <= |Piece(whole, n.id, m)|
      ensures Piece(data, n.id, m) == Piece(whole, n.id, m) <==> Missed(log, since, n, target) == []
    {
      assert HoldsSince(data, log, since, n);
      PieceCompares(data, log, since, from, slices, target, n);
    }
    forall id | id in m.replayIds ensures exists n :: n in slices && n.id == id {
      var n := ReplayedNode(from, slices, target, id);
    }
    ReplaysCompare(data, whole, m, m.replayIds);
  }
}
