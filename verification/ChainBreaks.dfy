/** What a chain report says, field by field: which breaks and warnings it lists,
    with which ids and times, in which order the increments come, and what it is
    when the target or its base is not there. */
module ChainBreaks {
  import opened Schema
  import opened StableSort
  import opened Chain

  // ----- the order of a chain -----

  /** By start and then id; increments without a range last, by id. */
  predicate ComesBefore(a: ChainNode, b: ChainNode) {
    || (a.oplogRange.Some? && b.oplogRange.None?)
    || (a.oplogRange.None? && b.oplogRange.None? && a.id < b.id)
    || (a.oplogRange.Some? && b.oplogRange.Some?
        && var s, t := a.oplogRange.value.start, b.oplogRange.value.start; s.Lt(t) || (s == t && a.id < b.id))
  }

  /** The increments that name `b`, each as often as the list has it, in the order of a chain. */
  ghost predicate IsOrderedChain(nodes: seq<ChainNode>, b: Id, incs: seq<ChainNode>) {
    && (forall n: ChainNode :: multiset(incs)[n]
                    == if n.backupType == Incremental && n.baseId == Some(b) then multiset(nodes)[n] else 0)
    && (forall i, j :: 0 <= i < j < |incs| ==> !ComesBefore(incs[j], incs[i]))
  }

  lemma {:induction false} FilterCounts(keep: ChainNode -> bool, s: seq<ChainNode>, n: ChainNode)
    ensures multiset(Filter(keep, s))[n] == if keep(n) then multiset(s)[n] else 0
  {
    if s != [] {
      FrontLast(s);
      FilterCounts(keep, s[..|s| - 1], n);
    }
  }

  lemma BeforeIs(a: ChainNode, b: ChainNode)
    ensures Before(a, b) == ComesBefore(a, b)
  {
  }

  lemma SortedChain(nodes: seq<ChainNode>, b: Id)
    ensures IsOrderedChain(nodes, b, SortNodes(IncrementsOf(nodes, b)))
  {
    var incs := SortNodes(IncrementsOf(nodes, b));
    forall n: ChainNode ensures multiset(incs)[n]
                     == if n.backupType == Incremental && n.baseId == Some(b) then multiset(nodes)[n] else 0
    {
      FilterCounts(Pointing(b), nodes, n);
    }
    SortNodesIsStable(IncrementsOf(nodes, b), ChainNode(0, Full, None, None, false, false, Complete));
    forall i, j | 0 <= i < j < |incs| ensures !ComesBefore(incs[j], incs[i]) {
      BeforeIs(incs[j], incs[i]);
    }
  }

  /** Only increments with the same id and the same start keep the order of the list. */
  lemma TiesAre(a: ChainNode, n: ChainNode)
    ensures TiesWith(a)(n) <==>
            && n.id == a.id && (n.oplogRange.Some? <==> a.oplogRange.Some?)
            && (n.oplogRange.Some? ==> n.oplogRange.value.start == a.oplogRange.value.start)
  {
  }

  // ----- breaks and warnings -----

  ghost predicate HasIncomplete(incs: seq<ChainNode>, id: Id) {
    exists n :: n in incs && n.id == id && n.status == Incomplete
  }

  ghost predicate HasRangeless(incs: seq<ChainNode>, id: Id) {
    exists n :: n in incs && n.id == id && n.oplogRange.None?
  }

  predicate IsGap(prev: ChainNode, next: ChainNode, end: OplogTimestamp, start: OplogTimestamp) {
    && prev.oplogRange.Some? && next.oplogRange.Some?
    && prev.oplogRange.value.end == end && next.oplogRange.value.start == start && end != start
  }

  ghost predicate HasGap(incs: seq<ChainNode>, prev: Id, next: Id, end: OplogTimestamp, start: OplogTimestamp) {
    exists i, j :: 0 <= i < |incs| && j == i + 1 < |incs| && incs[i].id == prev && incs[j].id == next
                   && IsGap(incs[i], incs[j], end, start)
  }

  /** The breaks of a base and its increments in chain order. */
  ghost predicate IsBreakOf(base: ChainNode, baseId: Id, incs: seq<ChainNode>, b: ChainBreak) {
    match b
    case MissingBase(_) => false
    case IneligibleBase(id, NotAFullBackup) => id == baseId && base.backupType == Incremental
    case IneligibleBase(id, SelectiveBackup) => id == baseId && base.selective
    case IncompleteMember(id) => (id == baseId && base.status == Incomplete) || HasIncomplete(incs, id)
    case MissingOplogRange(id) => base.oplogRange.Some? && HasRangeless(incs, id)
    case Discontinuity(prev, next, end, start) => HasGap(incs, prev, next, end, start)
    case BaseJoinGap(id, first, end, start) =>
      id == baseId && incs != [] && first == incs[0].id && IsGap(base, incs[0], end, start)
  }

  lemma {:induction false} MembersShow(incs: seq<ChainNode>, needsRange: bool, b: ChainBreak)
    ensures (b in MemberBreaks(incs, needsRange)) ==
            ((b.IncompleteMember? && HasIncomplete(incs, b.id))
             || (b.MissingOplogRange? && needsRange && HasRangeless(incs, b.id)))
  {
    if incs != [] {
      FrontLast(incs);
      MembersShow(incs[..|incs| - 1], needsRange, b);
    }
  }

  lemma {:induction false} PairsShow(incs: seq<ChainNode>, b: ChainBreak)
    ensures (b in PairBreaks(incs)) ==
            (b.Discontinuity? && HasGap(incs, b.prevId, b.nextId, b.prevEnd, b.nextStart))
  {
    if |incs| >= 2 {
      var k := |incs| - 1;
      PairsShow(incs[..k], b);
      if b.Discontinuity? {
        GapsOf(incs, b.prevId, b.nextId, b.prevEnd, b.nextStart);
      }
    }
  }

  lemma GapsOf(incs: seq<ChainNode>, prev: Id, next: Id, end: OplogTimestamp, start: OplogTimestamp)
    requires |incs| >= 2
    ensures var k := |incs| - 1;
            HasGap(incs, prev, next, end, start) ==
            (HasGap(incs[..k], prev, next, end, start)
             || (incs[k - 1].id == prev && incs[k].id == next && IsGap(incs[k - 1], incs[k], end, start)))
  {
    var k := |incs| - 1;
    if HasGap(incs[..k], prev, next, end, start) {
      var i, j :| 0 <= i < |incs[..k]| && j == i + 1 < |incs[..k]| && incs[..k][i].id == prev && incs[..k][j].id == next
                  && IsGap(incs[..k][i], incs[..k][j], end, start);
      assert incs[i].id == prev && incs[j].id == next && IsGap(incs[i], incs[j], end, start);
    }
    if HasGap(incs, prev, next, end, start) {
      var i, j :| 0 <= i < |incs| && j == i + 1 < |incs| && incs[i].id == prev && incs[j].id == next
                  && IsGap(incs[i], incs[j], end, start);
      if j < k {
        assert incs[..k][i].id == prev && incs[..k][j].id == next && IsGap(incs[..k][i], incs[..k][j], end, start);
      }
    }
  }

  lemma JoinShows(base: ChainNode, baseId: Id, incs: seq<ChainNode>, b: ChainBreak)
    ensures (b in FirstJoin(base, baseId, incs)) ==
            (b.BaseJoinGap? && b.baseId == baseId && incs != [] && b.firstId == incs[0].id
             && IsGap(base, incs[0], b.baseEnd, b.incrStart))
  {
  }

  lemma EligibilityIs(base: ChainNode, baseId: Id, b: ChainBreak)
    ensures (b in EligibilityBreaks(base, baseId)) ==
            ((b.IneligibleBase? && b.baseId == baseId
              && (if b.reason.NotAFullBackup? then base.backupType == Incremental else base.selective))
             || (b.IncompleteMember? && b.id == baseId && base.status == Incomplete))
  {
  }

  /** A report lists exactly these breaks. */
  lemma BreaksAre(base: ChainNode, baseId: Id, incs: seq<ChainNode>, b: ChainBreak)
    ensures (b in BaseReport(Some(base), baseId, incs).breaks) == IsBreakOf(base, baseId, incs, b)
  {
    EligibilityIs(base, baseId, b);
    MembersShow(incs, base.oplogRange.Some?, b);
    JoinShows(base, baseId, incs, b);
    PairsShow(incs, b);
  }

  // ----- what is reported for a target -----

  /** The first node of the list with its id. */
  predicate IsFirst(nodes: seq<ChainNode>, i: nat) {
    i < |nodes| && forall j :: 0 <= j < i ==> nodes[j].id != nodes[i].id
  }

  lemma {:induction false} FirstIsFound(nodes: seq<ChainNode>, i: nat)
    requires IsFirst(nodes, i)
    ensures FindNode(nodes, nodes[i].id) == Some(nodes[i])
  {
    if i > 0 {
      assert nodes[0].id != nodes[i].id;
      forall j | 0 <= j < i - 1 ensures nodes[1..][j].id != nodes[1..][i - 1].id {
        assert nodes[1..][j] == nodes[j + 1];
      }
      FirstIsFound(nodes[1..], i - 1);
    }
  }

  /** A target that is not there, an increment without a base id, a base that is not there. */
  lemma NothingToVerify(nodes: seq<ChainNode>, target: Id, i: nat)
    ensures (forall n :: n in nodes ==> n.id != target) ==>
              ChainReportOf(nodes, target) == ChainReport(Some(target), [], [MissingBase(NamedBase(target))], [])
    ensures IsFirst(nodes, i) && nodes[i].id == target && nodes[i].backupType == Incremental ==>
              match nodes[i].baseId {
                case None => ChainReportOf(nodes, target) == ChainReport(None, [], [MissingBase(NoBaseRecorded(target))], [])
                case Some(b) =>
                  (forall n :: n in nodes ==> n.id != b) ==>
                    ChainReportOf(nodes, target) == ChainReport(Some(b), [], [MissingBase(NamedBase(b))], [])
              }
  {
    if IsFirst(nodes, i) {
      FirstIsFound(nodes, i);
    }
  }

  /** The report for a backup, a full one or an increment of `base`: the increments
      in chain order, exactly their breaks, and a warning when the base has no
      range that they could start at. */
  lemma ReportIs(nodes: seq<ChainNode>, i: nat, k: nat) returns (incs: seq<ChainNode>)
    requires IsFirst(nodes, i) && IsFirst(nodes, k)
    requires if nodes[i].backupType == Full then k == i else nodes[i].baseId == Some(nodes[k].id)
    ensures IsOrderedChain(nodes, nodes[k].id, incs)
    ensures var report, base := ChainReportOf(nodes, nodes[i].id), nodes[k];
            && report.baseId == Some(base.id)
            && |report.incrementalIds| == |incs| && (forall j :: 0 <= j < |incs| ==> report.incrementalIds[j] == incs[j].id)
            && (forall b :: (b in report.breaks) == IsBreakOf(base, base.id, incs, b))
            && report.warnings == if incs != [] && base.oplogRange.None? then [BaseHasNoOplogRange(base.id)] else []
  {
    var base := nodes[k];
    FirstIsFound(nodes, i);
    FirstIsFound(nodes, k);
    SortedChain(nodes, base.id);
    incs := SortNodes(IncrementsOf(nodes, base.id));
    forall b ensures (b in BaseReport(Some(base), base.id, incs).breaks) == IsBreakOf(base, base.id, incs, b) {
      BreaksAre(base, base.id, incs, b);
    }
  }
}
