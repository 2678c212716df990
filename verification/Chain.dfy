/** Chain verification: does a full backup and the increments that name it tile
    an interval of the oplog?  `VerifyChain` answers for one target; the class
    `ChainVerifier` answers for many, from an index and a cache. */
module Chain {
  import opened Schema
  import opened StableSort

  /** What a break could not find: a named base, or the base of an increment
      that names none. */
  datatype BaseRef = NamedBase(id: Id) | NoBaseRecorded(incremental: Id)

  datatype Ineligibility = NotAFullBackup | SelectiveBackup

  datatype ChainBreak =
    | MissingBase(base: BaseRef)
    | IneligibleBase(baseId: Id, reason: Ineligibility)
    | IncompleteMember(id: Id)
    | MissingOplogRange(id: Id)
    | Discontinuity(prevId: Id, nextId: Id, prevEnd: OplogTimestamp, nextStart: OplogTimestamp)
    | BaseJoinGap(baseId: Id, firstId: Id, baseEnd: OplogTimestamp, incrStart: OplogTimestamp)

  datatype ChainWarning = BaseHasNoOplogRange(baseId: Id)

  datatype ChainReport = ChainReport(
    baseId: Option<Id>, // None stands for the empty text of an orphan's report
    incrementalIds: seq<Id>,
    breaks: seq<ChainBreak>,
    warnings: seq<ChainWarning>)
  {
    predicate IsContinuous() { breaks == [] }
  }

  // ----- looking nodes up -----

  /** The first node with the id, as the linear search finds it. */
  function FindNode(nodes: seq<ChainNode>, id: Id): (r: Option<ChainNode>)
    ensures r.Some? ==> r.value in nodes && r.value.id == id
    ensures r.None? ==> forall n :: n in nodes ==> n.id != id
  {
    if nodes == [] then None
    else if nodes[0].id == id then Some(nodes[0])
    else FindNode(nodes[1..], id)
  }

  /** The last node with the id, as a map filled in list order keeps it. */
  function FindLast(nodes: seq<ChainNode>, id: Id): (r: Option<ChainNode>)
    ensures r.Some? ==> r.value in nodes && r.value.id == id
    ensures r.None? ==> forall n :: n in nodes ==> n.id != id
  {
    if nodes == [] then None
    else if nodes[|nodes| - 1].id == id then Some(nodes[|nodes| - 1])
    else FindLast(nodes[..|nodes| - 1], id)
  }

  ghost predicate DistinctIds(nodes: seq<ChainNode>) {
    forall i, j :: 0 <= i < j < |nodes| ==> nodes[i].id != nodes[j].id
  }

  /** The two lookups agree; a store, whose ids are directory names, gives such lists. */
  ghost predicate LookupsAgree(nodes: seq<ChainNode>) {
    forall id :: FindNode(nodes, id) == FindLast(nodes, id)
  }

  lemma FindDistinct(nodes: seq<ChainNode>, n: ChainNode)
    requires DistinctIds(nodes) && n in nodes
    ensures FindNode(nodes, n.id) == Some(n) == FindLast(nodes, n.id)
  {
  }

  lemma DistinctIdsAgree(nodes: seq<ChainNode>)
    requires DistinctIds(nodes)
    ensures LookupsAgree(nodes)
  {
    forall id ensures FindNode(nodes, id) == FindLast(nodes, id) {
      if n :| n in nodes && n.id == id {
        FindDistinct(nodes, n);
      }
    }
  }

  // ----- collecting and sorting the increments -----

  predicate PointsAt(n: ChainNode, baseId: Id) {
    n.backupType == Incremental && n.baseId == Some(baseId)
  }

  function Pointing(baseId: Id): ChainNode -> bool {
    n => PointsAt(n, baseId)
  }

  /** The increments that name `baseId`, in list order. */
  function IncrementsOf(nodes: seq<ChainNode>, baseId: Id): (r: seq<ChainNode>)
    ensures forall n :: n in r <==> n in nodes && PointsAt(n, baseId)
  {
    Filter(Pointing(baseId), nodes)
  }

  lemma IncrementsAppend(nodes: seq<ChainNode>, n: ChainNode, b: Id)
    ensures IncrementsOf(nodes + [n], b) == IncrementsOf(nodes, b) + (if PointsAt(n, b) then [n] else [])
  {
    FilterAppend(Pointing(b), nodes, n);
  }

  function StartTs(n: ChainNode): Option<OplogTimestamp> {
    if n.oplogRange.Some? then Some(n.oplogRange.value.start) else None
  }

  function EndTs(n: ChainNode): Option<OplogTimestamp> {
    if n.oplogRange.Some? then Some(n.oplogRange.value.end) else None
  }

  /** The order of a chain: by start and then id; nodes without a range go last. */
  predicate Before(a: ChainNode, b: ChainNode) {
    match (StartTs(a), StartTs(b))
    case (Some(sa), Some(sb)) => sa.Lt(sb) || (sa == sb && a.id < b.id)
    case (Some(_), None) => true
    case (None, Some(_)) => false
    case (None, None) => a.id < b.id
  }

  lemma BeforeIsComparison()
    ensures IsComparison(Before)
  {
  }

  function SortNodes(s: seq<ChainNode>): (r: seq<ChainNode>)
    ensures multiset(r) == multiset(s)
  {
    SortBy(Before, s)
  }

  lemma SortLength(s: seq<ChainNode>)
    ensures |SortNodes(s)| == |s|
    ensures forall n :: n in SortNodes(s) <==> n in s
  {
    SameMembers(SortNodes(s), s);
  }

  function TiesWith(a: ChainNode): ChainNode -> bool {
    n => !Before(n, a) && !Before(a, n)
  }

  /** Sorting keeps every node as often as it was, puts the nodes in order, and
      leaves ties in the order of the list. */
  lemma SortNodesIsStable(s: seq<ChainNode>, a: ChainNode)
    ensures multiset(SortNodes(s)) == multiset(s)
    ensures OrderedBy(Before, SortNodes(s))
    ensures Filter(TiesWith(a), SortNodes(s)) == Filter(TiesWith(a), s)
  {
    BeforeIsComparison();
    SortOrdered(Before, s);
    SortThenFilter(Before, TiesWith(a), s);
    var ties := Filter(TiesWith(a), s);
    forall i, j | 0 <= i < j < |ties| ensures !Before(ties[j], ties[i]) {
      assert ties[i] in ties && ties[j] in ties;
    }
    SortOfOrdered(Before, ties);
  }

  // ----- the report -----

  function EligibilityBreaks(base: ChainNode, baseId: Id): seq<ChainBreak> {
    (if base.backupType != Full then [IneligibleBase(baseId, NotAFullBackup)] else [])
    + (if base.selective then [IneligibleBase(baseId, SelectiveBackup)] else [])
    + (if base.status == Incomplete then [IncompleteMember(baseId)] else [])
  }

  function MemberBreak(n: ChainNode, needsRange: bool): seq<ChainBreak> {
    (if n.status == Incomplete then [IncompleteMember(n.id)] else [])
    + (if needsRange && n.oplogRange.None? then [MissingOplogRange(n.id)] else [])
  }

  function MemberBreaks(incs: seq<ChainNode>, needsRange: bool): seq<ChainBreak> {
    if incs == [] then []
    else MemberBreaks(incs[..|incs| - 1], needsRange) + MemberBreak(incs[|incs| - 1], needsRange)
  }

  lemma MemberBreaksStep(incs: seq<ChainNode>, k: nat, needsRange: bool)
    requires k < |incs|
    ensures MemberBreaks(incs[..k + 1], needsRange)
            == MemberBreaks(incs[..k], needsRange) + MemberBreak(incs[k], needsRange)
  {
    assert incs[..k + 1][..k] == incs[..k];
  }

  function JoinBreaks(base: ChainNode, baseId: Id, first: ChainNode): seq<ChainBreak> {
    match (EndTs(base), StartTs(first))
    case (Some(e), Some(s)) => if e != s then [BaseJoinGap(baseId, first.id, e, s)] else []
    case _ => []
  }

  function PairBreak(prev: ChainNode, next: ChainNode): seq<ChainBreak> {
    match (EndTs(prev), StartTs(next))
    case (Some(e), Some(s)) => if e != s then [Discontinuity(prev.id, next.id, e, s)] else []
    case _ => []
  }

  function PairBreaks(incs: seq<ChainNode>): seq<ChainBreak> {
    if |incs| < 2 then []
    else PairBreaks(incs[..|incs| - 1]) + PairBreak(incs[|incs| - 2], incs[|incs| - 1])
  }

  function IdsOf(s: seq<ChainNode>): (r: seq<Id>)
    ensures |r| == |s|
    ensures forall i :: 0 <= i < |s| ==> r[i] == s[i].id
  {
    seq(|s|, i requires 0 <= i < |s| => s[i].id)
  }

  /** The part of a report that depends on the base alone. */
  function BaseReport(base: Option<ChainNode>, baseId: Id, incs: seq<ChainNode>): ChainReport {
    match base
    case None => ChainReport(Some(baseId), [], [MissingBase(NamedBase(baseId))], [])
    case Some(b) =>
      ChainReport(
        Some(baseId),
        IdsOf(incs),
        EligibilityBreaks(b, baseId)
        + MemberBreaks(incs, b.oplogRange.Some?)
        + (if incs != [] then JoinBreaks(b, baseId, incs[0]) else [])
        + PairBreaks(incs),
        if incs != [] && b.oplogRange.None? then [BaseHasNoOplogRange(baseId)] else [])
  }

  function OrphanReport(target: Id): ChainReport {
    ChainReport(None, [], [MissingBase(NoBaseRecorded(target))], [])
  }

  datatype BaseOf = Base(id: Id) | OrphanIncremental | UnknownTarget

  function ResolveBase(found: Option<ChainNode>): BaseOf {
    match found
    case None => UnknownTarget
    case Some(t) =>
      if t.backupType == Full then Base(t.id)
      else if t.baseId.Some? then Base(t.baseId.value)
      else OrphanIncremental
  }

  function UnknownTargetReport(target: Id): ChainReport {
    ChainReport(Some(target), [], [MissingBase(NamedBase(target))], [])
  }

  function ChainReportOf(nodes: seq<ChainNode>, target: Id): ChainReport {
    match ResolveBase(FindNode(nodes, target))
    case Base(b) => BaseReport(FindNode(nodes, b), b, SortNodes(IncrementsOf(nodes, b)))
    case OrphanIncremental => OrphanReport(target)
    case UnknownTarget => UnknownTargetReport(target)
  }

  // ----- what an empty list of breaks means -----

  /** Where a chain that starts at `from` has got to. */
  function ChainEnd(from: OplogTimestamp, slices: seq<ChainNode>): OplogTimestamp {
    if slices == [] || EndTs(slices[|slices| - 1]).None? then from
    else EndTs(slices[|slices| - 1]).value
  }

  /** Consecutive members meet: the later one starts where the earlier one ends. */
  predicate Meets(prev: ChainNode, next: ChainNode) {
    EndTs(prev).Some? && StartTs(next).Some? ==> EndTs(prev) == StartTs(next)
  }

  ghost predicate AllMeet(incs: seq<ChainNode>) {
    forall i, j :: 0 <= i < |incs| && j == i + 1 < |incs| ==> Meets(incs[i], incs[j])
  }

  ghost predicate AllUsable(incs: seq<ChainNode>, needsRange: bool) {
    forall n :: n in incs ==> n.status == Complete && (needsRange ==> n.oplogRange.Some?)
  }

  /** Every member is complete and has a range; the first starts at `from` and
      each later one starts where the one before it ends. */
  ghost predicate Tiled(from: OplogTimestamp, incs: seq<ChainNode>) {
    && AllUsable(incs, true)
    && (incs != [] ==> incs[0].oplogRange.value.start == from)
    && AllMeet(incs)
  }

  /** The chain of an engine that keeps its position elsewhere: no ranges are required. */
  ghost predicate LooselyTiled(incs: seq<ChainNode>) {
    AllUsable(incs, false) && AllMeet(incs)
  }

  lemma {:induction false} MemberBreaksEmpty(incs: seq<ChainNode>, needsRange: bool)
    ensures MemberBreaks(incs, needsRange) == [] <==> AllUsable(incs, needsRange)
  {
    if incs != [] {
      var rest, last := incs[..|incs| - 1], incs[|incs| - 1];
      MemberBreaksEmpty(rest, needsRange);
      FrontLast(incs);
      assert AllUsable(incs, needsRange) <==> AllUsable(rest, needsRange) && MemberBreak(last, needsRange) == [];
    }
  }

  lemma {:induction false} PairBreaksEmpty(incs: seq<ChainNode>)
    ensures PairBreaks(incs) == [] <==> AllMeet(incs)
  {
    if |incs| >= 2 {
      var k := |incs| - 1;
      PairBreaksEmpty(incs[..k]);
      assert AllMeet(incs) <==> AllMeet(incs[..k]) && Meets(incs[k - 1], incs[k]);
    }
  }

  lemma BaseReportEmpty(base: ChainNode, baseId: Id, incs: seq<ChainNode>)
    ensures BaseReport(Some(base), baseId, incs).breaks == [] <==>
            && base.backupType == Full && !base.selective && base.status == Complete
            && MemberBreaks(incs, base.oplogRange.Some?) == []
            && (incs != [] ==> JoinBreaks(base, baseId, incs[0]) == [])
            && PairBreaks(incs) == []
  {
    var e, m := EligibilityBreaks(base, baseId), MemberBreaks(incs, base.oplogRange.Some?);
    var j, p := if incs != [] then JoinBreaks(base, baseId, incs[0]) else [], PairBreaks(incs);
    assert |e + m + j + p| == |e| + |m| + |j| + |p|;
  }

  /** A complete, non-selective full backup whose members tile the oplog from
      its end (when it has one). */
  ghost predicate IsChain(base: ChainNode, incs: seq<ChainNode>) {
    && base.backupType == Full && !base.selective && base.status == Complete
    && (if base.oplogRange.Some? then Tiled(base.oplogRange.value.end, incs) else LooselyTiled(incs))
  }

  lemma BaseReportContinuous(base: ChainNode, baseId: Id, incs: seq<ChainNode>)
    ensures BaseReport(Some(base), baseId, incs).IsContinuous() <==> IsChain(base, incs)
  {
    BaseReportEmpty(base, baseId, incs);
    MemberBreaksEmpty(incs, base.oplogRange.Some?);
    PairBreaksEmpty(incs);
    if incs != [] { assert incs[0] in incs; }
  }

  /** A chain is reported continuous exactly when its base exists and is the base of a chain. */
  lemma ContinuousMeansTiled(nodes: seq<ChainNode>, target: Id)
    ensures ChainReportOf(nodes, target).IsContinuous() <==>
            match ResolveBase(FindNode(nodes, target)) {
              case Base(b) =>
                var base := FindNode(nodes, b);
                base.Some? && IsChain(base.value, SortNodes(IncrementsOf(nodes, b)))
              case _ => false
            }
  {
    var r := ResolveBase(FindNode(nodes, target));
    if r.Base? && FindNode(nodes, r.id).Some? {
      BaseReportContinuous(FindNode(nodes, r.id).value, r.id, SortNodes(IncrementsOf(nodes, r.id)));
    }
  }

  // ----- the direct procedure -----

  method CheckMembers(incs: seq<ChainNode>, needsRange: bool, before: seq<ChainBreak>)
    returns (breaks: seq<ChainBreak>)
    ensures breaks == before + MemberBreaks(incs, needsRange)
  {
    breaks := before;
    for k := 0 to |incs|
      invariant breaks == before + MemberBreaks(incs[..k], needsRange)
    {
      MemberBreaksStep(incs, k, needsRange);
      if incs[k].status == Incomplete {
        breaks := breaks + [IncompleteMember(incs[k].id)];
      }
      if needsRange && incs[k].oplogRange.None? {
        breaks := breaks + [MissingOplogRange(incs[k].id)];
      }
    }
    assert incs[..|incs|] == incs;
  }

  method CheckAdjacent(incs: seq<ChainNode>, before: seq<ChainBreak>) returns (breaks: seq<ChainBreak>)
    ensures breaks == before + PairBreaks(incs)
  {
    breaks := before;
    var k := 1;
    while k < |incs|
      invariant 1 <= k
      invariant k <= |incs| || incs == []
      invariant breaks == before + PairBreaks(if k <= |incs| then incs[..k] else incs)
    {
      var prev, next := incs[k - 1], incs[k];
      assert incs[..k + 1][..k] == incs[..k];
      if prev.oplogRange.Some? && next.oplogRange.Some? {
        if prev.oplogRange.value.end != next.oplogRange.value.start {
          breaks := breaks
          + [Discontinuity(prev.id, next.id, prev.oplogRange.value.end, next.oplogRange.value.start)];
        }
      }
      k := k + 1;
    }
    assert |incs| > 0 ==> incs[..|incs|] == incs;
  }

  /** Steps 2 to 6: eligibility of the base, the members, the join, adjacency. */
  method DiagnoseBase(base: ChainNode, baseId: Id, incs: seq<ChainNode>) returns (report: ChainReport)
    ensures report == BaseReport(Some(base), baseId, incs)
  {
    var breaks: seq<ChainBreak>, warnings: seq<ChainWarning> := [], [];
    if base.backupType != Full {
      breaks := breaks + [IneligibleBase(baseId, NotAFullBackup)];
    }
    if base.selective {
      breaks := breaks + [IneligibleBase(baseId, SelectiveBackup)];
    }
    if base.status == Incomplete {
      breaks := breaks + [IncompleteMember(baseId)];
    }
    assert breaks == EligibilityBreaks(base, baseId);
    breaks := CheckMembers(incs, base.oplogRange.Some?, breaks);
    ghost var joins := if incs != [] then JoinBreaks(base, baseId, incs[0]) else [];
    ghost var soFar := breaks;
    if |incs| > 0 {
      var first := incs[0];
      if base.oplogRange.None? {
        warnings := [BaseHasNoOplogRange(baseId)];
      } else if first.oplogRange.Some? && base.oplogRange.value.end != first.oplogRange.value.start {
        breaks := breaks
        + [BaseJoinGap(baseId, first.id, base.oplogRange.value.end, first.oplogRange.value.start)];
      }
    }
    assert breaks == soFar + joins;
    breaks := CheckAdjacent(incs, breaks);
    report := ChainReport(Some(baseId), IdsOf(incs), breaks, warnings);
  }

  method CollectIncrements(nodes: seq<ChainNode>, baseId: Id) returns (incs: seq<ChainNode>)
    ensures incs == IncrementsOf(nodes, baseId)
  {
    incs := [];
    for k := 0 to |nodes|
      invariant incs == IncrementsOf(nodes[..k], baseId)
    {
      assert nodes[..k + 1] == nodes[..k] + [nodes[k]];
      IncrementsAppend(nodes[..k], nodes[k], baseId);
      if nodes[k].backupType == Incremental && nodes[k].baseId == Some(baseId) {
        incs := incs + [nodes[k]];
      }
    }
    assert nodes[..|nodes|] == nodes;
  }

  method VerifyChain(nodes: seq<ChainNode>, target: Id) returns (report: ChainReport)
    ensures report == ChainReportOf(nodes, target)
  {
    var t := FindNode(nodes, target);
    if t.None? {
      return UnknownTargetReport(target);
    }
    var baseId: Id;
    if t.value.backupType == Full {
      baseId := t.value.id;
    } else if t.value.baseId.Some? {
      baseId := t.value.baseId.value;
    } else {
      return OrphanReport(target);
    }
    var base := FindNode(nodes, baseId);
    if base.None? {
      return ChainReport(Some(baseId), [], [MissingBase(NamedBase(baseId))], []);
    }
    var incs := CollectIncrements(nodes, baseId);
    report := DiagnoseBase(base.value, baseId, SortNodes(incs));
  }

  // ----- the indexed and cached procedure -----

  function VerifierReportOf(nodes: seq<ChainNode>, target: Id): ChainReport {
    match ResolveBase(FindLast(nodes, target))
    case Base(b) => BaseReport(FindLast(nodes, b), b, SortNodes(IncrementsOf(nodes, b)))
    case OrphanIncremental => OrphanReport(target)
    case UnknownTarget => UnknownTargetReport(target)
  }

  /** The cached verifier answers as `VerifyChain` does, for every target, when
      the first and the last node of each id are the same node. */
  lemma VerifierRefinesVerifyChain(nodes: seq<ChainNode>, target: Id)
    requires LookupsAgree(nodes)
    ensures VerifierReportOf(nodes, target) == ChainReportOf(nodes, target)
  {
    assert FindNode(nodes, target) == FindLast(nodes, target);
    var r := ResolveBase(FindNode(nodes, target));
    if r.Base? {
      assert FindNode(nodes, r.id) == FindLast(nodes, r.id);
    }
  }

  // ----- lists with repeated ids -----

  predicate IsJoinGap(br: ChainBreak) { br.BaseJoinGap? }

  lemma {:induction false} NoGapInMembers(incs: seq<ChainNode>, needsRange: bool)
    ensures Filter(IsJoinGap, MemberBreaks(incs, needsRange)) == []
  {
    if incs != [] {
      var rest, last := MemberBreaks(incs[..|incs| - 1], needsRange), MemberBreak(incs[|incs| - 1], needsRange);
      NoGapInMembers(incs[..|incs| - 1], needsRange);
      FilterConcat(IsJoinGap, rest, last);
      HasMember(Filter(IsJoinGap, last));
    }
  }

  lemma {:induction false} NoGapInPairs(incs: seq<ChainNode>)
    ensures Filter(IsJoinGap, PairBreaks(incs)) == []
  {
    if |incs| >= 2 {
      var rest, last := PairBreaks(incs[..|incs| - 1]), PairBreak(incs[|incs| - 2], incs[|incs| - 1]);
      NoGapInPairs(incs[..|incs| - 1]);
      FilterConcat(IsJoinGap, rest, last);
      HasMember(Filter(IsJoinGap, last));
    }
  }

  function FirstJoin(base: ChainNode, baseId: Id, incs: seq<ChainNode>): seq<ChainBreak> {
    if incs != [] then JoinBreaks(base, baseId, incs[0]) else []
  }

  /** The breaks of a report, in its four parts; the join is what is left when
      everything but a join gap is taken away. */
  lemma JoinOfBreaks(base: ChainNode, baseId: Id, incs: seq<ChainNode>)
    ensures Filter(IsJoinGap, BaseReport(Some(base), baseId, incs).breaks) == FirstJoin(base, baseId, incs)
  {
    var e, m := EligibilityBreaks(base, baseId), MemberBreaks(incs, base.oplogRange.Some?);
    var j, p := FirstJoin(base, baseId, incs), PairBreaks(incs);
    HasMember(Filter(IsJoinGap, e));
    NoGapInMembers(incs, base.oplogRange.Some?);
    FilterAll(IsJoinGap, j);
    NoGapInPairs(incs);
    FilterConcat(IsJoinGap, e + m + j, p);
    FilterConcat(IsJoinGap, e + m, j);
    FilterConcat(IsJoinGap, e, m);
    assert ([] + [] + j) + [] == j;
  }

  predicate AlikeAlone(a: ChainNode, b: ChainNode) {
    (a.backupType == Full <==> b.backupType == Full) && a.selective == b.selective && a.status == b.status
  }

  predicate AlikeBefore(a: ChainNode, b: ChainNode, first: ChainNode) {
    && (a.oplogRange.Some? <==> b.oplogRange.Some?)
    && (first.oplogRange.Some? ==> EndTs(a) == EndTs(b))
  }

  /** Two nodes that a report cannot tell apart as the base of `incs`. */
  predicate AlikeAsBase(a: ChainNode, b: ChainNode, incs: seq<ChainNode>) {
    AlikeAlone(a, b) && (incs != [] ==> AlikeBefore(a, b, incs[0]))
  }

  lemma EligibilityShows(a: ChainNode, baseId: Id)
    ensures var e := EligibilityBreaks(a, baseId);
            && (IneligibleBase(baseId, NotAFullBackup) in e <==> a.backupType != Full)
            && (IneligibleBase(baseId, SelectiveBackup) in e <==> a.selective)
            && (IncompleteMember(baseId) in e <==> a.status == Incomplete)
  {
  }

  lemma EligibilityTells(a: ChainNode, b: ChainNode, baseId: Id)
    ensures EligibilityBreaks(a, baseId) == EligibilityBreaks(b, baseId) <==> AlikeAlone(a, b)
  {
    EligibilityShows(a, baseId);
    EligibilityShows(b, baseId);
  }

  lemma JoinTells(a: ChainNode, b: ChainNode, baseId: Id, incs: seq<ChainNode>)
    requires incs != [] && (a.oplogRange.Some? <==> b.oplogRange.Some?)
    ensures FirstJoin(a, baseId, incs) == FirstJoin(b, baseId, incs) <==> AlikeBefore(a, b, incs[0])
  {
    if FirstJoin(a, baseId, incs) != [] {
      assert FirstJoin(a, baseId, incs)[0].baseEnd == EndTs(a).value;
    }
    if FirstJoin(b, baseId, incs) != [] {
      assert FirstJoin(b, baseId, incs)[0].baseEnd == EndTs(b).value;
    }
  }

  lemma SamePrefix<T>(a: seq<T>, b: seq<T>, rest: seq<T>)
    requires a + rest == b + rest
    ensures a == b
  {
    assert |a + rest| == |b + rest|;
    assert (a + rest)[..|a|] == a && (b + rest)[..|b|] == b;
  }

  lemma EligibilityFirst(base: ChainNode, baseId: Id, incs: seq<ChainNode>)
    ensures BaseReport(Some(base), baseId, incs).breaks
            == EligibilityBreaks(base, baseId)
               + ((MemberBreaks(incs, base.oplogRange.Some?) + FirstJoin(base, baseId, incs)) + PairBreaks(incs))
  {
    var e, m := EligibilityBreaks(base, baseId), MemberBreaks(incs, base.oplogRange.Some?);
    var j, p := FirstJoin(base, baseId, incs), PairBreaks(incs);
    Assoc(e, m, j);
    Assoc(e, m + j, p);
  }

  lemma SameReportMeansAlike(a: ChainNode, b: ChainNode, baseId: Id, incs: seq<ChainNode>)
    requires BaseReport(Some(a), baseId, incs) == BaseReport(Some(b), baseId, incs)
    ensures AlikeAsBase(a, b, incs)
  {
    JoinOfBreaks(a, baseId, incs);
    JoinOfBreaks(b, baseId, incs);
    EligibilityFirst(a, baseId, incs);
    EligibilityFirst(b, baseId, incs);
    if incs != [] {
      assert BaseReport(Some(a), baseId, incs).warnings == BaseReport(Some(b), baseId, incs).warnings;
      JoinTells(a, b, baseId, incs);
    }
    SamePrefix(
      EligibilityBreaks(a, baseId), EligibilityBreaks(b, baseId),
      (MemberBreaks(incs, a.oplogRange.Some?) + FirstJoin(a, baseId, incs)) + PairBreaks(incs));
    EligibilityTells(a, b, baseId);
  }

  lemma AlikeMeansSameReport(a: ChainNode, b: ChainNode, baseId: Id, incs: seq<ChainNode>)
    requires AlikeAsBase(a, b, incs)
    ensures BaseReport(Some(a), baseId, incs) == BaseReport(Some(b), baseId, incs)
  {
    EligibilityTells(a, b, baseId);
    if incs != [] {
      JoinTells(a, b, baseId, incs);
    }
  }

  /** The first and the last node of an id mean the same for a report. */
  ghost predicate DuplicatesAlike(nodes: seq<ChainNode>, target: Id) {
    var first, last := ResolveBase(FindNode(nodes, target)), ResolveBase(FindLast(nodes, target));
    && first == last
    && (first.Base? && FindNode(nodes, first.id).Some? && FindLast(nodes, first.id).Some? ==>
          AlikeAsBase(FindNode(nodes, first.id).value, FindLast(nodes, first.id).value,
                      SortNodes(IncrementsOf(nodes, first.id))))
  }

  /** The base id that a report names. */
  function NamedIn(r: BaseOf, target: Id): Option<Id> {
    match r
    case Base(b) => Some(b)
    case OrphanIncremental => None
    case UnknownTarget => Some(target)
  }

  lemma ReportNames(nodes: seq<ChainNode>, target: Id)
    ensures ChainReportOf(nodes, target).baseId == NamedIn(ResolveBase(FindNode(nodes, target)), target)
    ensures VerifierReportOf(nodes, target).baseId == NamedIn(ResolveBase(FindLast(nodes, target)), target)
  {
  }

  lemma OtherBaseOtherReport(nodes: seq<ChainNode>, target: Id)
    requires ResolveBase(FindNode(nodes, target)) != ResolveBase(FindLast(nodes, target))
    ensures VerifierReportOf(nodes, target).baseId != ChainReportOf(nodes, target).baseId
  {
    SameLookups(nodes, target);
    ReportNames(nodes, target);
  }

  lemma SameBaseSameReport(nodes: seq<ChainNode>, target: Id, b: Id)
    requires ResolveBase(FindNode(nodes, target)) == ResolveBase(FindLast(nodes, target)) == Base(b)
    ensures VerifierReportOf(nodes, target) == ChainReportOf(nodes, target) <==> DuplicatesAlike(nodes, target)
  {
    var x, y, incs := FindNode(nodes, b), FindLast(nodes, b), SortNodes(IncrementsOf(nodes, b));
    SameLookups(nodes, b);
    if x.Some? {
      if BaseReport(x, b, incs) == BaseReport(y, b, incs) {
        SameReportMeansAlike(x.value, y.value, b, incs);
      } else if AlikeAsBase(x.value, y.value, incs) {
        AlikeMeansSameReport(x.value, y.value, b, incs);
      }
    }
  }

  /** On any list, and for each target, the two verifiers agree exactly when the
      first and the last node of its id lead to the same base, and the first and
      the last node of that base's id are alike as a base. */
  lemma VerifiersAgreeMeansAlike(nodes: seq<ChainNode>, target: Id)
    ensures VerifierReportOf(nodes, target) == ChainReportOf(nodes, target) <==> DuplicatesAlike(nodes, target)
  {
    var first, last := ResolveBase(FindNode(nodes, target)), ResolveBase(FindLast(nodes, target));
    if first != last {
      OtherBaseOtherReport(nodes, target);
    } else if first.Base? {
      SameBaseSameReport(nodes, target, first.id);
    }
  }

  lemma SameLookups(nodes: seq<ChainNode>, id: Id)
    ensures FindNode(nodes, id).Some? <==> FindLast(nodes, id).Some?
  {
  }

  class ChainVerifier {
    var byId: map<Id, ChainNode>
    var incrementsByBase: map<Id, seq<ChainNode>>
    var cache: map<Id, ChainReport>
    ghost const nodes: seq<ChainNode>

    ghost function Uncached(baseId: Id): ChainReport {
      BaseReport(FindLast(nodes, baseId), baseId, SortNodes(IncrementsOf(nodes, baseId)))
    }

    ghost predicate Valid()
      reads this
    {
      && (forall id :: id in byId <==> FindLast(nodes, id).Some?)
      && (forall id :: id in byId ==> FindLast(nodes, id) == Some(byId[id]))
      && (forall b :: b in incrementsByBase <==> IncrementsOf(nodes, b) != [])
      && (forall b :: b in incrementsByBase ==> incrementsByBase[b] == SortNodes(IncrementsOf(nodes, b)))
      && (forall b :: b in cache ==> cache[b] == Uncached(b))
    }

    constructor (nodes: seq<ChainNode>)
      ensures Valid() && this.nodes == nodes && cache == map[]
    {
      this.nodes := nodes;
      byId, incrementsByBase, cache := map[], map[], map[];
      new;
      byId, incrementsByBase := IndexNodes(nodes);
      incrementsByBase := SortGroups(nodes, incrementsByBase);
    }

    static method IndexNodes(nodes: seq<ChainNode>)
      returns (byId: map<Id, ChainNode>, groups: map<Id, seq<ChainNode>>)
      ensures forall id :: id in byId <==> FindLast(nodes, id).Some?
      ensures forall id :: id in byId ==> FindLast(nodes, id) == Some(byId[id])
      ensures forall b :: b in groups <==> IncrementsOf(nodes, b) != []
      ensures forall b :: b in groups ==> groups[b] == IncrementsOf(nodes, b)
    {
      byId, groups := map[], map[];
      for k := 0 to |nodes|
        invariant forall id :: id in byId <==> FindLast(nodes[..k], id).Some?
        invariant forall id :: id in byId ==> FindLast(nodes[..k], id) == Some(byId[id])
        invariant forall b :: b in groups <==> IncrementsOf(nodes[..k], b) != []
        invariant forall b :: b in groups ==> groups[b] == IncrementsOf(nodes[..k], b)
      {
        assert nodes[..k + 1][..k] == nodes[..k];
        var node := nodes[k];
        assert nodes[..k + 1] == nodes[..k] + [node];
        forall b { IncrementsAppend(nodes[..k], node, b); }
        byId := byId[node.id := node];
        if node.backupType == Incremental && node.baseId.Some? {
          var b := node.baseId.value;
          var group := if b in groups then groups[b] else [];
          groups := groups[b := group + [node]];
        }
      }
      assert nodes[..|nodes|] == nodes;
    }

    static method SortGroups(ghost nodes: seq<ChainNode>, groups: map<Id, seq<ChainNode>>)
      returns (sorted: map<Id, seq<ChainNode>>)
      requires forall b :: b in groups ==> groups[b] == IncrementsOf(nodes, b)
      ensures sorted.Keys == groups.Keys
      ensures forall b :: b in sorted ==> sorted[b] == SortNodes(IncrementsOf(nodes, b))
    {
      sorted := groups;
      var todo := groups.Keys;
      while todo != {}
        invariant todo <= groups.Keys == sorted.Keys
        invariant forall b :: b in todo ==> sorted[b] == IncrementsOf(nodes, b)
        invariant forall b :: b in sorted && b !in todo ==> sorted[b] == SortNodes(IncrementsOf(nodes, b))
      {
        var b :| b in todo;
        sorted := sorted[b := SortNodes(sorted[b])];
        todo := todo - {b};
      }
    }

    method ReportForBase(baseId: Id) returns (report: ChainReport)
      requires Valid()
      modifies `cache
      ensures Valid() && report == Uncached(baseId)
      ensures cache.Keys == old(cache.Keys) + {baseId}
    {
      if baseId !in cache {
        var computed := ComputeForBase(baseId);
        cache := cache[baseId := computed];
      }
      report := cache[baseId];
    }

    method ComputeForBase(baseId: Id) returns (report: ChainReport)
      requires Valid()
      ensures report == Uncached(baseId)
    {
      if baseId !in byId {
        return ChainReport(Some(baseId), [], [MissingBase(NamedBase(baseId))], []);
      }
      SortLength(IncrementsOf(nodes, baseId));
      var incs := if baseId in incrementsByBase then incrementsByBase[baseId] else [];
      report := DiagnoseBase(byId[baseId], baseId, incs);
    }

    /** Whatever was asked before, the answer is that of `VerifyChain`. */
    method Verify(target: Id) returns (report: ChainReport)
      requires Valid()
      modifies `cache
      ensures Valid()
      ensures report == VerifierReportOf(nodes, target)
      ensures LookupsAgree(nodes) ==> report == ChainReportOf(nodes, target)
    {
      var found := if target in byId then Some(byId[target]) else None;
      match ResolveBase(found) {
        case Base(b) => report := ReportForBase(b);
        case OrphanIncremental => report := OrphanReport(target);
        case UnknownTarget => report := UnknownTargetReport(target);
      }
      if LookupsAgree(nodes) {
        VerifierRefinesVerifyChain(nodes, target);
      }
    }

    method IsContinuous(target: Id) returns (continuous: bool)
      requires Valid()
      modifies `cache
      ensures Valid()
      ensures continuous == VerifierReportOf(nodes, target).IsContinuous()
      ensures LookupsAgree(nodes) ==> continuous == ChainReportOf(nodes, target).IsContinuous()
    {
      var found := if target in byId then Some(byId[target]) else None;
      var r := ResolveBase(found);
      if r.Base? {
        var report := ReportForBase(r.id);
        continuous := report.IsContinuous();
      } else {
        continuous := false;
      }
      if LookupsAgree(nodes) {
        VerifierRefinesVerifyChain(nodes, target);
      }
    }
  }
}
