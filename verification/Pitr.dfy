/** Point-in-time restore: which base, which slices, and where to stop.  The main
    result is that replaying the chosen slices applies exactly the oplog entries
    after the base up to the target second. */
module Pitr {
  import opened Schema
  import opened StableSort
  import opened Chain

  /** An oplog entry; the document it carries is opaque. */
  datatype Entry = Entry(ts: OplogTimestamp, doc: int)

  ghost predicate Increasing(log: seq<Entry>) {
    forall i, j :: 0 <= i < j < |log| ==> log[i].ts.Lt(log[j].ts)
  }

  // ----- mapping the target to an end -----

  /** `decided` is reported; `replayIds` are replayed in order, the slice
      `limitSlice` only up to but not including `limit`. */
  datatype EndMapping = EndMapping(
    decided: OplogTimestamp,
    replayIds: seq<Id>,
    limitSlice: Option<Id>,
    limit: Option<OplogTimestamp>)

  /** The cast of a signed 64-bit second to 32 bits keeps the low bits. */
  function AsU32(x: int): u32 {
    x % 0x1_0000_0000
  }

  function SaturatingNext(x: u32): u32 {
    if x == U32_MAX then U32_MAX else x + 1
  }

  function OplogLimitForSecond(second: u32): OplogTimestamp {
    OplogTimestamp(SaturatingNext(second), 0)
  }

  function OwnId(slice: ChainNode): seq<Id> {
    if slice.isEmptySlice then [] else [slice.id]
  }

  function EndMappingFrom(decided: OplogTimestamp, slices: seq<ChainNode>, target: int): EndMapping
    decreases slices
  {
    if slices == [] then EndMapping(decided, [], None, None)
    else
      var slice := slices[0];
      if slice.oplogRange.None? then EndMappingFrom(decided, slices[1..], target)
      else
        var range := slice.oplogRange.value;
        if range.end.t <= target then
          var rest := EndMappingFrom(range.end, slices[1..], target);
          rest.(replayIds := OwnId(slice) + rest.replayIds)
        else if range.start.t <= target then
          EndMapping(
            OplogTimestamp(AsU32(target), 0),
            OwnId(slice),
            if slice.isEmptySlice then None else Some(slice.id),
            if slice.isEmptySlice then None else Some(OplogLimitForSecond(AsU32(target))))
        else EndMapping(decided, [], None, None)
  }

  function BaseEnd(base: ChainNode): OplogTimestamp {
    if base.oplogRange.Some? then base.oplogRange.value.end else OplogTimestamp(0, 0)
  }

  method MapTargetToEnd(base: ChainNode, slices: seq<ChainNode>, target: int) returns (mapping: EndMapping)
    ensures mapping == EndMappingFrom(BaseEnd(base), slices, target)
  {
    var replayIds: seq<Id> := [];
    var decided := BaseEnd(base);
    var limitSlice: Option<Id>, limit: Option<OplogTimestamp> := None, None;
    ghost var whole := EndMappingFrom(decided, slices, target);
    var k := 0;
    while k < |slices|
      invariant 0 <= k <= |slices|
      invariant limitSlice == None && limit == None
      invariant var rest := EndMappingFrom(decided, slices[k..], target);
                whole == rest.(replayIds := replayIds + rest.replayIds)
    {
      var slice := slices[k];
      assert slices[k..][1..] == slices[k + 1..];
      k := k + 1;
      if slice.oplogRange.None? {
        continue;
      }
      var range := slice.oplogRange.value;
      if range.end.t <= target {
        if !slice.isEmptySlice {
          replayIds := replayIds + [slice.id];
        }
        decided := range.end;
        continue;
      }
      if range.start.t <= target {
        if !slice.isEmptySlice {
          replayIds := replayIds + [slice.id];
          limitSlice := Some(slice.id);
          limit := Some(OplogLimitForSecond(AsU32(target)));
        }
        decided := OplogTimestamp(AsU32(target), 0);
      }
      return EndMapping(decided, replayIds, limitSlice, limit);
    }
    mapping := EndMapping(decided, replayIds, limitSlice, limit);
  }

  // ----- replaying -----

  /** The applier stops at the first entry at or after the limit. */
  function AppliedUpTo(entries: seq<Entry>, limit: Option<OplogTimestamp>): seq<Entry> {
    if entries == [] || (limit.Some? && limit.value.Le(entries[0].ts)) then []
    else [entries[0]] + AppliedUpTo(entries[1..], limit)
  }

  ghost predicate HasData(data: map<Id, seq<Entry>>, ids: seq<Id>) {
    forall id :: id in ids ==> id in data
  }

  function ReplayedIds(data: map<Id, seq<Entry>>, ids: seq<Id>, limitSlice: Option<Id>, limit: Option<OplogTimestamp>)
    : seq<Entry>
    requires HasData(data, ids)
  {
    if ids == [] then []
    else
      AppliedUpTo(data[ids[0]], if limitSlice == Some(ids[0]) then limit else None)
      + ReplayedIds(data, ids[1..], limitSlice, limit)
  }

  function Replayed(data: map<Id, seq<Entry>>, m: EndMapping): seq<Entry>
    requires HasData(data, m.replayIds)
  {
    ReplayedIds(data, m.replayIds, m.limitSlice, m.limit)
  }

  function ReplayedFrom(data: map<Id, seq<Entry>>, m: EndMapping, k: nat): seq<Entry>
    requires HasData(data, m.replayIds) && k <= |m.replayIds|
  {
    ReplayedIds(data, m.replayIds[k..], m.limitSlice, m.limit)
  }

  lemma ReplayStep(data: map<Id, seq<Entry>>, m: EndMapping, k: nat)
    requires HasData(data, m.replayIds) && k < |m.replayIds|
    ensures ReplayedFrom(data, m, k)
            == AppliedUpTo(data[m.replayIds[k]], if m.limitSlice == Some(m.replayIds[k]) then m.limit else None)
               + ReplayedFrom(data, m, k + 1)
  {
    assert m.replayIds[k..][1..] == m.replayIds[k + 1..];
  }

  method ApplyStream(entries: seq<Entry>, limit: Option<OplogTimestamp>) returns (applied: seq<Entry>)
    ensures applied == AppliedUpTo(entries, limit)
  {
    applied := [];
    var k := 0;
    while k < |entries|
      invariant 0 <= k <= |entries|
      invariant AppliedUpTo(entries, limit) == applied + AppliedUpTo(entries[k..], limit)
    {
      if limit.Some? && limit.value.Le(entries[k].ts) {
        break;
      }
      assert entries[k..][1..] == entries[k + 1..];
      applied := applied + [entries[k]];
      k := k + 1;
    }
  }

  /** Replays the slices in chain order and counts them. */
  method ReplaySlices(data: map<Id, seq<Entry>>, m: EndMapping) returns (applied: seq<Entry>, replayed: nat)
    requires HasData(data, m.replayIds)
    ensures applied == Replayed(data, m)
    ensures replayed == |m.replayIds|
  {
    applied, replayed := [], 0;
    while replayed < |m.replayIds|
      invariant replayed <= |m.replayIds|
      invariant Replayed(data, m) == applied + ReplayedFrom(data, m, replayed)
    {
      var id := m.replayIds[replayed];
      var one := ApplyStream(data[id], if m.limitSlice == Some(id) then m.limit else None);
      ReplayStep(data, m, replayed);
      Assoc(applied, one, ReplayedFrom(data, m, replayed + 1));
      applied := applied + one;
      replayed := replayed + 1;
    }
  }

  // ----- the meaning: a window of the log -----

  /** The entries after `lo`, at or before `hi`, in seconds at or before `target`, in order. */
  function Window(log: seq<Entry>, lo: OplogTimestamp, hi: OplogTimestamp, target: int): seq<Entry> {
    if log == [] then []
    else
      (if lo.Lt(log[0].ts) && log[0].ts.Le(hi) && log[0].ts.t <= target then [log[0]] else [])
      + Window(log[1..], lo, hi, target)
  }

  /** The entries that a slice over (lo, hi] captures. */
  function Captured(log: seq<Entry>, lo: OplogTimestamp, hi: OplogTimestamp): seq<Entry> {
    Window(log, lo, hi, U32_MAX)
  }

  lemma {:induction false} WindowMembers(log: seq<Entry>, lo: OplogTimestamp, hi: OplogTimestamp, target: int)
    ensures forall e :: e in Window(log, lo, hi, target) <==>
                        e in log && lo.Lt(e.ts) && e.ts.Le(hi) && e.ts.t <= target
  {
    if log != [] {
      HeadTail(log);
      WindowMembers(log[1..], lo, hi, target);
    }
  }

  lemma LaterEntries(log: seq<Entry>)
    requires Increasing(log) && log != []
    ensures forall e :: e in log[1..] ==> log[0].ts.Lt(e.ts)
  {
  }

  lemma {:induction false} WindowIncreasing(log: seq<Entry>, lo: OplogTimestamp, hi: OplogTimestamp, target: int)
    requires Increasing(log)
    ensures Increasing(Window(log, lo, hi, target))
  {
    if log != [] {
      WindowIncreasing(log[1..], lo, hi, target);
      WindowMembers(log[1..], lo, hi, target);
    }
  }

  lemma {:induction false} WindowEmpty(log: seq<Entry>, lo: OplogTimestamp, hi: OplogTimestamp, target: int)
    requires lo.t > target || hi.Le(lo)
    ensures Window(log, lo, hi, target) == []
  {
    if log != [] { WindowEmpty(log[1..], lo, hi, target); }
  }

  lemma {:induction false} WindowWhole(log: seq<Entry>, lo: OplogTimestamp, hi: OplogTimestamp, target: int)
    requires hi.t <= target
    ensures Window(log, lo, hi, target) == Captured(log, lo, hi)
  {
    if log != [] { WindowWhole(log[1..], lo, hi, target); }
  }

  lemma {:induction false} WindowSplit(
      log: seq<Entry>, lo: OplogTimestamp, mid: OplogTimestamp, hi: OplogTimestamp, target: int)
    requires Increasing(log) && lo.Le(mid) && mid.Le(hi)
    ensures Window(log, lo, hi, target) == Window(log, lo, mid, target) + Window(log, mid, hi, target)
  {
    if log != [] {
      WindowSplit(log[1..], lo, mid, hi, target);
      if mid.Lt(log[0].ts) {
        LaterEntries(log);
        WindowMembers(log[1..], lo, mid, target);
        HasMember(Window(log[1..], lo, mid, target));
      }
    }
  }

  /** Stopping before second `target + 1` keeps the seconds up to `target`. */
  lemma {:induction false} LimitIsWindow(log: seq<Entry>, lo: OplogTimestamp, hi: OplogTimestamp, target: u32)
    requires Increasing(log) && target < U32_MAX
    ensures AppliedUpTo(Captured(log, lo, hi), Some(OplogTimestamp(target + 1, 0)))
            == Window(log, lo, hi, target)
  {
    if log != [] {
      LimitIsWindow(log[1..], lo, hi, target);
      var captured, w := Captured(log, lo, hi), Window(log[1..], lo, hi, target);
      if lo.Lt(log[0].ts) && log[0].ts.Le(hi) {
        assert captured[0] == log[0] && captured[1..] == Captured(log[1..], lo, hi);
        if log[0].ts.t > target {
          WindowMembers(log[1..], lo, hi, target);
          LaterEntries(log);
          HasMember(w);
          assert w == [];
        } else {
          assert !OplogTimestamp(target + 1, 0).Le(captured[0].ts);
        }
      } else {
        assert captured == Captured(log[1..], lo, hi);
      }
    }
  }

  lemma {:induction false} NoLimitAppliesAll(entries: seq<Entry>)
    ensures AppliedUpTo(entries, None) == entries
  {
    if entries != [] { NoLimitAppliesAll(entries[1..]); }
  }

  // ----- the refinement -----

  /** Slices that hold what the log held when they were captured.  A slice marked
      empty stores nothing, and nothing lies in its range. */
  ghost predicate Holds(data: map<Id, seq<Entry>>, log: seq<Entry>, slices: seq<ChainNode>) {
    forall s :: s in slices ==>
      && s.oplogRange.Some? && s.oplogRange.value.start.Le(s.oplogRange.value.end)
      && var c := Captured(log, s.oplogRange.value.start, s.oplogRange.value.end);
         if s.isEmptySlice then c == [] else s.id in data && data[s.id] == c
  }

  lemma MappingIds(decided: OplogTimestamp, slices: seq<ChainNode>, target: int)
    ensures var m := EndMappingFrom(decided, slices, target);
            && (forall id :: id in m.replayIds ==> exists s :: s in slices && s.id == id && !s.isEmptySlice)
            && (m.limitSlice.Some? ==> m.limitSlice.value in m.replayIds)
    decreases slices
  {
    if slices != [] {
      assert slices == [slices[0]] + slices[1..];
      assert slices[0] in slices;
      if slices[0].oplogRange.None? {
        MappingIds(decided, slices[1..], target);
      } else {
        MappingIds(slices[0].oplogRange.value.end, slices[1..], target);
      }
    }
  }

  /** Whenever there is a limit, neither the cast nor the saturating step loses anything. */
  lemma {:induction false} LimitIsExact(decided: OplogTimestamp, slices: seq<ChainNode>, target: int)
    ensures var m := EndMappingFrom(decided, slices, target);
            && (m.limit.Some? <==> m.limitSlice.Some?)
            && (m.limit.Some? ==> 0 <= target < U32_MAX && m.limit == Some(OplogTimestamp(target + 1, 0)))
    decreases slices
  {
    if slices != [] {
      if slices[0].oplogRange.None? {
        LimitIsExact(decided, slices[1..], target);
      } else {
        LimitIsExact(slices[0].oplogRange.value.end, slices[1..], target);
      }
    }
  }

  lemma TiledTail(from: OplogTimestamp, slices: seq<ChainNode>)
    requires Tiled(from, slices) && slices != []
    ensures slices[0].oplogRange.Some? && slices[0].oplogRange.value.start == from
    ensures Tiled(slices[0].oplogRange.value.end, slices[1..])
    ensures ChainEnd(from, slices) == ChainEnd(slices[0].oplogRange.value.end, slices[1..])
  {
    assert slices[0] in slices;
    if |slices| > 1 {
      assert slices[1] in slices && Meets(slices[0], slices[1]);
    }
    forall n | n in slices[1..] ensures n in slices {}
    forall i, j | 0 <= i < |slices[1..]| && j == i + 1 < |slices[1..]| ensures Meets(slices[1..][i], slices[1..][j]) {
      assert Meets(slices[i + 1], slices[j + 1]);
    }
  }

  lemma {:induction false} EndIsLater(from: OplogTimestamp, slices: seq<ChainNode>)
    requires Tiled(from, slices)
    requires forall s :: s in slices ==> s.oplogRange.Some? && s.oplogRange.value.start.Le(s.oplogRange.value.end)
    ensures from.Le(ChainEnd(from, slices))
    decreases slices
  {
    if slices != [] {
      TiledTail(from, slices);
      assert slices[0] in slices;
      forall s | s in slices[1..] ensures s in slices {}
      EndIsLater(slices[0].oplogRange.value.end, slices[1..]);
    }
  }

  lemma {:induction false} ReplayOfCovered(data: map<Id, seq<Entry>>, slice: ChainNode, rest: EndMapping)
    requires HasData(data, OwnId(slice) + rest.replayIds)
    requires rest.limitSlice != Some(slice.id)
    ensures forall id :: id in rest.replayIds ==> id in OwnId(slice) + rest.replayIds
    ensures Replayed(data, rest.(replayIds := OwnId(slice) + rest.replayIds))
            == (if slice.isEmptySlice then [] else data[slice.id]) + Replayed(data, rest)
  {
    var ids := OwnId(slice) + rest.replayIds;
    if slice.isEmptySlice {
      assert ids == rest.replayIds;
    } else {
      assert ids[0] == slice.id && ids[1..] == rest.replayIds;
      NoLimitAppliesAll(data[slice.id]);
    }
  }

  lemma ReplayOfOne(data: map<Id, seq<Entry>>, id: Id, limit: Option<OplogTimestamp>)
    requires id in data
    ensures ReplayedIds(data, [id], Some(id), limit) == AppliedUpTo(data[id], limit)
  {
    assert [id][1..] == [];
  }

  /** Replaying what the mapping chose applies exactly the entries after `from`,
      up to the end of the chain, in seconds at or before the target: in log
      order and each once. */
  lemma {:induction false} ReplayIsTheLogWindow(
      data: map<Id, seq<Entry>>, log: seq<Entry>, from: OplogTimestamp, slices: seq<ChainNode>, target: int)
    requires Increasing(log) && Tiled(from, slices) && DistinctIds(slices) && Holds(data, log, slices)
    ensures var m := EndMappingFrom(from, slices, target);
            HasData(data, m.replayIds)
            && Replayed(data, m) == Window(log, from, ChainEnd(from, slices), target)
    decreases slices
  {
    var m := EndMappingFrom(from, slices, target);
    MappingIds(from, slices, target);
    var end := ChainEnd(from, slices);
    if slices == [] {
      WindowEmpty(log, from, end, target);
    } else {
      TiledTail(from, slices);
      var slice, range := slices[0], slices[0].oplogRange.value;
      assert slice in slices;
      forall n | n in slices[1..] ensures n in slices {}
      EndIsLater(range.end, slices[1..]);
      WindowSplit(log, from, range.end, end, target);
      if range.end.t <= target {
        ReplayIsTheLogWindow(data, log, range.end, slices[1..], target);
        var rest := EndMappingFrom(range.end, slices[1..], target);
        MappingIds(range.end, slices[1..], target);
        WindowWhole(log, from, range.end, target);
        ReplayOfCovered(data, slice, rest);
      } else {
        WindowEmpty(log, range.end, end, target);
        if range.start.t <= target {
          if slice.isEmptySlice {
            assert m.replayIds == [];
            LimitIsWindow(log, from, range.end, target);
          } else {
            LimitIsExact(from, slices, target);
            LimitIsWindow(log, from, range.end, target);
            ReplayOfOne(data, slice.id, m.limit);
          }
        } else {
          WindowEmpty(log, from, range.end, target);
        }
      }
    }
  }

  /** The reported time: the end of the chain when it lies in a second up to the
      target, else the target second, which is the last one that the replay reaches. */
  lemma {:induction false} DecidedIsLastSecond(from: OplogTimestamp, slices: seq<ChainNode>, target: int)
    requires Tiled(from, slices) && from.t <= target
    requires forall s :: s in slices ==> s.oplogRange.Some? && s.oplogRange.value.start.Le(s.oplogRange.value.end)
    ensures var decided, end := EndMappingFrom(from, slices, target).decided, ChainEnd(from, slices);
            && decided == (if end.t <= target then end else OplogTimestamp(target, 0))
            && (forall ts: OplogTimestamp :: from.Le(ts) && ts.Le(end) && ts.t <= target ==> ts.t <= decided.t)
            && from.t <= decided.t <= target
    decreases slices
  {
    if slices != [] {
      TiledTail(from, slices);
      assert slices[0] in slices;
      forall s | s in slices[1..] ensures s in slices {}
      var end := slices[0].oplogRange.value.end;
      if end.t <= target {
        DecidedIsLastSecond(end, slices[1..], target);
      } else {
        EndIsLater(end, slices[1..]);
      }
    }
  }

  // ----- choosing the base -----

  predicate IsCandidate(n: ChainNode, target: int) {
    n.backupType == Full && !n.selective && n.oplogRange.Some? && n.oplogRange.value.end.t <= target
  }

  predicate LaterBase(a: ChainNode, b: ChainNode)
    requires a.oplogRange.Some? && b.oplogRange.Some?
  {
    b.oplogRange.value.end.Lt(a.oplogRange.value.end)
    || (a.oplogRange.value.end == b.oplogRange.value.end && a.id > b.id)
  }

  /** The base that a restore to `target` starts from: a non-selective full backup
      that ended in a second up to it, and no other such one ended later. */
  ghost predicate IsLatestBase(nodes: seq<ChainNode>, target: int, b: ChainNode) {
    && b in nodes && b.backupType == Full && !b.selective
    && b.oplogRange.Some? && b.oplogRange.value.end.t <= target
    && forall n :: n in nodes && n.backupType == Full && !n.selective && n.oplogRange.Some?
                   && n.oplogRange.value.end.t <= target ==>
                     var last, end := b.oplogRange.value.end, n.oplogRange.value.end;
                     end.Lt(last) || (end == last && n.id <= b.id)
  }

  /** The latest non-selective full backup that ended in a second at or before the target. */
  method SelectBaseBefore(nodes: seq<ChainNode>, target: int) returns (best: Option<ChainNode>)
    ensures best.None? <==>
              forall n :: n in nodes && n.backupType == Full && !n.selective && n.oplogRange.Some? ==>
                            target < n.oplogRange.value.end.t
    ensures best.Some? ==> IsLatestBase(nodes, target, best.value)
  {
    best := None;
    for k := 0 to |nodes|
      invariant best.None? ==> forall i :: 0 <= i < k ==> !IsCandidate(nodes[i], target)
      invariant best.Some? ==> best.value in nodes && IsCandidate(best.value, target)
      invariant best.Some? ==>
                  forall i :: 0 <= i < k && IsCandidate(nodes[i], target) ==> !LaterBase(nodes[i], best.value)
    {
      var n := nodes[k];
      if n.backupType != Full || n.selective || n.oplogRange.None? {
        continue;
      }
      if n.oplogRange.value.end.t > target {
        continue;
      }
      if best.None? || LaterBase(n, best.value) {
        best := Some(n);
      }
    }
  }

  function OrderedSlices(nodes: seq<ChainNode>, ids: seq<Id>): seq<ChainNode> {
    if ids == [] then []
    else
      var n := FindNode(nodes, ids[0]);
      (if n.Some? then [n.value] else []) + OrderedSlices(nodes, ids[1..])
  }

  lemma {:induction false} OrderedSlicesOfIds(nodes: seq<ChainNode>, slices: seq<ChainNode>)
    requires DistinctIds(nodes) && forall n :: n in slices ==> n in nodes
    ensures OrderedSlices(nodes, IdsOf(slices)) == slices
  {
    if slices != [] {
      assert slices[0] in slices;
      FindDistinct(nodes, slices[0]);
      assert IdsOf(slices)[1..] == IdsOf(slices[1..]);
      forall n | n in slices[1..] ensures n in slices {}
      OrderedSlicesOfIds(nodes, slices[1..]);
      assert slices == [slices[0]] + slices[1..];
    }
  }

  datatype PitrError = NoBaseBeforeTarget | ChainNotContinuous(breaks: seq<ChainBreak>)

  datatype PitrPlan = PitrPlan(base: ChainNode, slices: seq<ChainNode>, mapping: EndMapping)

  /** The plan of a restore: choose the base, insist on a continuous chain, map the target. */
  method PlanPitr(nodes: seq<ChainNode>, target: int) returns (plan: Result<PitrPlan, PitrError>)
    requires DistinctIds(nodes)
    ensures plan == Err(NoBaseBeforeTarget) <==>
              forall n :: n in nodes && n.backupType == Full && !n.selective && n.oplogRange.Some? ==>
                            target < n.oplogRange.value.end.t
    ensures plan.Ok? ==>
              var p := plan.value;
              && IsLatestBase(nodes, target, p.base)
              && p.slices == SortNodes(IncrementsOf(nodes, p.base.id))
              && IsChain(p.base, p.slices)
              && p.mapping == EndMappingFrom(p.base.oplogRange.value.end, p.slices, target)
    ensures plan.Err? && plan.error.ChainNotContinuous? ==>
              exists b :: IsLatestBase(nodes, target, b) && !IsChain(b, SortNodes(IncrementsOf(nodes, b.id)))
  {
    var best := SelectBaseBefore(nodes, target);
    if best.None? {
      return Err(NoBaseBeforeTarget);
    }
    var base := best.value;
    FindDistinct(nodes, base);
    ContinuousMeansTiled(nodes, base.id);
    var report := VerifyChain(nodes, base.id);
    if !report.IsContinuous() {
      return Err(ChainNotContinuous(report.breaks));
    }
    ghost var incs := SortNodes(IncrementsOf(nodes, base.id));
    SortLength(IncrementsOf(nodes, base.id));
    OrderedSlicesOfIds(nodes, incs);
    var slices := OrderedSlices(nodes, report.incrementalIds);
    var mapping := MapTargetToEnd(base, slices, target);
    plan := Ok(PitrPlan(base, slices, mapping));
  }
}
