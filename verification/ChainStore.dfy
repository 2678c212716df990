/** What every engine that records ranges keeps true of its store: each full
    backup's increments, in the order of their ids, tile the oplog.  Stated here
    once, with the three ways a store changes: a full backup, an increment at the
    end of a chain, and a deletion that takes whole ends of chains. */
module ChainStore {
  import opened Schema
  import opened StableSort
  import opened Chain

  ghost predicate IdsIncrease(nodes: seq<ChainNode>) {
    forall i, j :: 0 <= i < j < |nodes| ==> nodes[i].id < nodes[j].id
  }

  ghost predicate IsFresh(nodes: seq<ChainNode>, id: Id) {
    forall n :: n in nodes ==> n.id < id
  }

  /** A full backup that can carry a chain. */
  predicate CanCarry(n: ChainNode) {
    n.backupType == Full && !n.selective && n.oplogRange.Some?
  }

  ghost predicate IsProperIncrement(n: ChainNode) {
    && n.backupType == Incremental && n.status == Complete && !n.selective && n.baseId.Some?
    && n.oplogRange.Some? && n.oplogRange.value.start.Le(n.oplogRange.value.end)
  }

  ghost predicate HasBase(nodes: seq<ChainNode>, n: ChainNode) {
    n.baseId.Some? && exists f :: f in nodes && f.id == n.baseId.value && CanCarry(f) && f.id < n.id
  }

  ghost predicate IncrementsHaveBases(nodes: seq<ChainNode>) {
    forall n {:trigger HasBase(nodes, n)} :: n in nodes && n.backupType == Incremental ==> HasBase(nodes, n)
  }

  ghost predicate ChainTiles(nodes: seq<ChainNode>, f: ChainNode) {
    f.oplogRange.Some? && Tiled(f.oplogRange.value.end, IncrementsOf(nodes, f.id))
  }

  ghost predicate ChainsTile(nodes: seq<ChainNode>) {
    forall f {:trigger ChainTiles(nodes, f)} :: f in nodes && CanCarry(f) ==> ChainTiles(nodes, f)
  }

  ghost predicate WellChained(nodes: seq<ChainNode>) {
    && IdsIncrease(nodes)
    && (forall n :: n in nodes ==> n.status == Complete)
    && (forall n :: n in nodes && n.backupType == Incremental ==> IsProperIncrement(n))
    && IncrementsHaveBases(nodes)
    && ChainsTile(nodes)
  }

  // ----- a well-chained store passes verification -----

  lemma LastIsNewest(nodes: seq<ChainNode>)
    requires IdsIncrease(nodes) && nodes != []
    ensures forall n :: n in nodes[..|nodes| - 1] ==> n.id < nodes[|nodes| - 1].id
  {
  }

  lemma {:induction false} FilterIncreases(keep: ChainNode -> bool, nodes: seq<ChainNode>)
    requires IdsIncrease(nodes)
    ensures IdsIncrease(Filter(keep, nodes))
  {
    if nodes != [] {
      var rest := Filter(keep, nodes[..|nodes| - 1]);
      FilterIncreases(keep, nodes[..|nodes| - 1]);
      LastIsNewest(nodes);
      assert forall i :: 0 <= i < |rest| ==> rest[i] in nodes[..|nodes| - 1];
    }
  }

  lemma {:induction false} TiledStartsGrow(from: OplogTimestamp, incs: seq<ChainNode>, i: nat, j: nat)
    requires Tiled(from, incs) && i <= j < |incs|
    requires forall n :: n in incs ==> n.oplogRange.value.start.Le(n.oplogRange.value.end)
    ensures incs[i].oplogRange.Some? && incs[j].oplogRange.Some?
    ensures incs[i].oplogRange.value.start.Le(incs[j].oplogRange.value.start)
    decreases j
  {
    assert incs[i] in incs && incs[j] in incs;
    if i < j {
      TiledStartsGrow(from, incs, i, j - 1);
      assert Meets(incs[j - 1], incs[j]);
      assert incs[j - 1] in incs;
    }
  }

  /** Chain order is id order. */
  lemma TiledIsOrdered(from: OplogTimestamp, incs: seq<ChainNode>)
    requires Tiled(from, incs) && IdsIncrease(incs)
    requires forall n :: n in incs ==> IsProperIncrement(n)
    ensures SortNodes(incs) == incs
  {
    forall i, j | 0 <= i < j < |incs| ensures !Before(incs[j], incs[i]) {
      TiledStartsGrow(from, incs, i, j);
    }
    SortOfOrdered(Before, incs);
  }

  lemma WellChainedDistinct(nodes: seq<ChainNode>)
    requires IdsIncrease(nodes)
    ensures DistinctIds(nodes)
  {
  }

  /** In a well-chained store chain order is id order, and every full backup
      with a range verifies as continuous. */
  lemma WellChainedVerifies(nodes: seq<ChainNode>, f: ChainNode)
    requires WellChained(nodes) && f in nodes && CanCarry(f)
    ensures SortNodes(IncrementsOf(nodes, f.id)) == IncrementsOf(nodes, f.id)
    ensures IsChain(f, SortNodes(IncrementsOf(nodes, f.id)))
    ensures ChainReportOf(nodes, f.id).IsContinuous()
  {
    assert ChainTiles(nodes, f);
    FilterIncreases(Pointing(f.id), nodes);
    TiledIsOrdered(f.oplogRange.value.end, IncrementsOf(nodes, f.id));
    FindDistinct(nodes, f);
    ContinuousMeansTiled(nodes, f.id);
  }

  // ----- the end of a chain -----

  function HeadEnd(nodes: seq<ChainNode>, f: ChainNode): OplogTimestamp
    requires f.oplogRange.Some?
  {
    ChainEnd(f.oplogRange.value.end, IncrementsOf(nodes, f.id))
  }

  /** A node that a next increment may continue from. */
  ghost predicate IsTip(nodes: seq<ChainNode>, tip: ChainNode) {
    && tip in nodes && !tip.selective && tip.oplogRange.Some?
    && forall n :: n in nodes && n.id > tip.id ==> n.selective || n.oplogRange.None?
  }

  function BaseIdOf(tip: ChainNode): Id
    requires tip.backupType == Full || tip.baseId.Some?
  {
    if tip.backupType == Full then tip.id else tip.baseId.value
  }

  lemma {:induction false} LastIncrement(nodes: seq<ChainNode>, b: Id)
    requires IdsIncrease(nodes)
    ensures var incs := IncrementsOf(nodes, b);
            forall n :: n in incs ==> incs[|incs| - 1].id >= n.id
  {
    FilterIncreases(Pointing(b), nodes);
  }

  lemma TipHasBase(nodes: seq<ChainNode>, tip: ChainNode)
    requires WellChained(nodes) && IsTip(nodes, tip)
    ensures tip.backupType == Full || tip.baseId.Some?
    ensures exists f :: f in nodes && f.id == BaseIdOf(tip) && CanCarry(f)
  {
    if tip.backupType == Incremental {
      assert HasBase(nodes, tip);
    }
  }

  /** A full backup that is a tip has no increments, which would be newer. */
  lemma FullTipIsAlone(nodes: seq<ChainNode>, tip: ChainNode)
    requires WellChained(nodes) && IsTip(nodes, tip) && tip.backupType == Full
    ensures IncrementsOf(nodes, tip.id) == []
  {
    var incs := IncrementsOf(nodes, tip.id);
    forall n | n in incs ensures n.id > tip.id && !n.selective && n.oplogRange.Some? {
      assert IsProperIncrement(n) && HasBase(nodes, n);
    }
    HasMember(incs);
  }

  lemma IncrementTipIsLast(nodes: seq<ChainNode>, tip: ChainNode)
    requires WellChained(nodes) && IsTip(nodes, tip) && tip.backupType == Incremental && tip.baseId.Some?
    ensures var incs := IncrementsOf(nodes, tip.baseId.value);
            incs != [] && incs[|incs| - 1] == tip
  {
    var incs := IncrementsOf(nodes, tip.baseId.value);
    LastIncrement(nodes, tip.baseId.value);
    assert tip in incs;
    var last := incs[|incs| - 1];
    assert last in nodes && IsProperIncrement(last);
    SameIdSameNode(nodes, last, tip);
  }

  lemma SameIdSameNode(nodes: seq<ChainNode>, a: ChainNode, b: ChainNode)
    requires IdsIncrease(nodes) && a in nodes && b in nodes && a.id == b.id
    ensures a == b
  {
    WellChainedDistinct(nodes);
    FindDistinct(nodes, a);
    FindDistinct(nodes, b);
  }

  lemma TipIsLast(nodes: seq<ChainNode>, tip: ChainNode)
    requires WellChained(nodes) && IsTip(nodes, tip) && (tip.backupType == Full || tip.baseId.Some?)
    ensures var incs := IncrementsOf(nodes, BaseIdOf(tip));
            if tip.backupType == Full then incs == [] else incs != [] && incs[|incs| - 1] == tip
  {
    if tip.backupType == Full {
      FullTipIsAlone(nodes, tip);
    } else {
      IncrementTipIsLast(nodes, tip);
    }
  }

  /** The newest usable node is the end of its chain. */
  lemma TipIsHead(nodes: seq<ChainNode>, tip: ChainNode, f: ChainNode)
    requires WellChained(nodes) && IsTip(nodes, tip) && (tip.backupType == Full || tip.baseId.Some?)
    requires f in nodes && f.id == BaseIdOf(tip) && CanCarry(f)
    ensures HeadEnd(nodes, f) == tip.oplogRange.value.end
  {
    TipIsLast(nodes, tip);
    if tip.backupType == Full {
      SameIdSameNode(nodes, f, tip);
    }
  }

  // ----- growing -----

  lemma NoIncrementsYet(nodes: seq<ChainNode>, id: Id)
    requires IncrementsHaveBases(nodes) && IsFresh(nodes, id)
    ensures IncrementsOf(nodes, id) == []
  {
    var incs := IncrementsOf(nodes, id);
    forall n | n in incs ensures n.baseId == Some(id) && HasBase(nodes, n) {}
    HasMember(incs);
  }

  lemma BasesSurviveAppend(nodes: seq<ChainNode>, n: ChainNode)
    requires IncrementsHaveBases(nodes)
    requires n.backupType == Incremental ==> HasBase(nodes, n)
    ensures IncrementsHaveBases(nodes + [n])
  {
    forall m | m in nodes + [n] && m.backupType == Incremental
      ensures HasBase(nodes + [n], m)
    {
      assert HasBase(nodes, m);
      var f :| f in nodes && f.id == m.baseId.value && CanCarry(f) && f.id < m.id;
      assert f in nodes + [n];
    }
  }

  lemma AppendFull(nodes: seq<ChainNode>, f: ChainNode)
    requires WellChained(nodes) && IsFresh(nodes, f.id)
    requires f.backupType == Full && f.status == Complete
    ensures WellChained(nodes + [f])
  {
    BasesSurviveAppend(nodes, f);
    forall g | g in nodes + [f] && CanCarry(g)
      ensures ChainTiles(nodes + [f], g)
    {
      assert g in nodes ==> ChainTiles(nodes, g);
      IncrementsAppend(nodes, f, g.id);
      if g !in nodes { NoIncrementsYet(nodes, f.id); }
    }
  }

  lemma TiledAppend(from: OplogTimestamp, incs: seq<ChainNode>, n: ChainNode)
    requires Tiled(from, incs) && n.status == Complete && n.oplogRange.Some?
    requires n.oplogRange.value.start == ChainEnd(from, incs)
    ensures Tiled(from, incs + [n])
  {
    if incs != [] {
      assert incs[|incs| - 1] in incs;
    }
    forall i, j | 0 <= i < |incs + [n]| && j == i + 1 < |incs + [n]|
      ensures Meets((incs + [n])[i], (incs + [n])[j])
    {
      if j < |incs| { assert Meets(incs[i], incs[j]); }
    }
  }

  ghost predicate Continues(nodes: seq<ChainNode>, n: ChainNode, base: ChainNode) {
    && base in nodes && CanCarry(base) && IsFresh(nodes, n.id)
    && IsProperIncrement(n) && n.baseId == Some(base.id)
    && n.oplogRange.value.start == HeadEnd(nodes, base)
  }

  lemma ContinuedChainTiles(nodes: seq<ChainNode>, n: ChainNode, base: ChainNode)
    requires WellChained(nodes) && Continues(nodes, n, base)
    ensures ChainTiles(nodes + [n], base)
  {
    assert ChainTiles(nodes, base);
    IncrementsAppend(nodes, n, base.id);
    TiledAppend(base.oplogRange.value.end, IncrementsOf(nodes, base.id), n);
  }

  lemma ChainsTileAfterAppend(nodes: seq<ChainNode>, n: ChainNode, base: ChainNode)
    requires WellChained(nodes) && Continues(nodes, n, base)
    ensures ChainsTile(nodes + [n])
  {
    forall g | g in nodes + [n] && CanCarry(g)
      ensures ChainTiles(nodes + [n], g)
    {
      assert ChainTiles(nodes, g);
      IncrementsAppend(nodes, n, g.id);
      if g.id == base.id {
        SameIdSameNode(nodes, g, base);
        ContinuedChainTiles(nodes, n, base);
      }
    }
  }

  lemma AppendKeepsWellChained(nodes: seq<ChainNode>, n: ChainNode, base: ChainNode)
    requires WellChained(nodes) && Continues(nodes, n, base)
    ensures WellChained(nodes + [n])
  {
    assert HasBase(nodes, n);
    BasesSurviveAppend(nodes, n);
    ChainsTileAfterAppend(nodes, n, base);
  }

  /** An increment that starts at the end of its chain keeps the store well
      chained, and is the last of its chain in chain order. */
  lemma AppendIncrement(nodes: seq<ChainNode>, n: ChainNode, base: ChainNode)
    requires WellChained(nodes) && Continues(nodes, n, base)
    ensures WellChained(nodes + [n])
    ensures SortNodes(IncrementsOf(nodes + [n], base.id)) == SortNodes(IncrementsOf(nodes, base.id)) + [n]
  {
    AppendKeepsWellChained(nodes, n, base);
    IncrementsAppend(nodes, n, base.id);
    WellChainedVerifies(nodes, base);
    WellChainedVerifies(nodes + [n], base);
  }

  // ----- deleting -----

  function Survives(gone: set<Id>): ChainNode -> bool {
    (n: ChainNode) => n.id !in gone
  }

  function Without(nodes: seq<ChainNode>, gone: set<Id>): (r: seq<ChainNode>)
    ensures forall n :: n in r <==> n in nodes && n.id !in gone
  {
    Filter(Survives(gone), nodes)
  }

  /** From the first deleted node on, everything is deleted. */
  ghost predicate GoneFromSomewhere(incs: seq<ChainNode>, gone: set<Id>) {
    forall i, j :: 0 <= i < j < |incs| && incs[i].id in gone ==> incs[j].id in gone
  }

  /** The deletion takes an end of each chain, and a base only with its whole chain. */
  ghost predicate TakesEnds(nodes: seq<ChainNode>, gone: set<Id>) {
    && (forall b :: GoneFromSomewhere(SortNodes(IncrementsOf(nodes, b)), gone))
    && (forall n :: n in nodes && n.backupType == Incremental && n.baseId.Some? && n.baseId.value in gone
                    ==> n.id in gone)
  }

  /** Deleting and collecting a chain, in chain order, commute. */
  lemma ChainWithout(nodes: seq<ChainNode>, gone: set<Id>, b: Id)
    ensures IncrementsOf(Without(nodes, gone), b) == Without(IncrementsOf(nodes, b), gone)
    ensures SortNodes(IncrementsOf(Without(nodes, gone), b)) == Without(SortNodes(IncrementsOf(nodes, b)), gone)
  {
    FilterCommutes(Pointing(b), Survives(gone), nodes);
    BeforeIsComparison();
    SortThenFilter(Before, Survives(gone), IncrementsOf(nodes, b));
  }

  lemma NothingGone(nodes: seq<ChainNode>, gone: set<Id>)
    requires forall n :: n in nodes ==> n.id !in gone
    ensures Without(nodes, gone) == nodes
  {
    FilterAll(Survives(gone), nodes);
  }

  /** What is left of a chain is a prefix of it. */
  lemma {:induction false} WithoutIsPrefix(incs: seq<ChainNode>, gone: set<Id>)
    requires GoneFromSomewhere(incs, gone)
    ensures Without(incs, gone) <= incs
  {
    if incs != [] {
      var k := |incs| - 1;
      var left := Without(incs[..k], gone);
      WithoutIsPrefix(incs[..k], gone);
      FrontLast(incs);
      if incs[k].id in gone {
        assert Without(incs, gone) == left;
      } else {
        NothingGone(incs[..k], gone);
      }
    }
  }

  lemma TiledPrefix(from: OplogTimestamp, p: seq<ChainNode>, incs: seq<ChainNode>)
    requires Tiled(from, incs) && p <= incs
    ensures Tiled(from, p)
  {
    forall n | n in p ensures n in incs {}
    forall i, j | 0 <= i < |p| && j == i + 1 < |p| ensures Meets(p[i], p[j]) {
      assert Meets(incs[i], incs[j]);
    }
  }

  /** Of every chain, in chain order, a deletion that takes ends leaves a prefix;
      a chain that was continuous and still has its base is still continuous. */
  lemma DeleteLeavesPrefixes(nodes: seq<ChainNode>, gone: set<Id>, b: Id)
    requires DistinctIds(nodes) && TakesEnds(nodes, gone)
    ensures SortNodes(IncrementsOf(Without(nodes, gone), b)) <= SortNodes(IncrementsOf(nodes, b))
    ensures b !in gone && ChainReportOf(nodes, b).IsContinuous() && ResolveBase(FindNode(nodes, b)) == Base(b) ==>
              ChainReportOf(Without(nodes, gone), b).IsContinuous()
  {
    var left := Without(nodes, gone);
    ChainWithout(nodes, gone, b);
    WithoutIsPrefix(SortNodes(IncrementsOf(nodes, b)), gone);
    if b !in gone && ChainReportOf(nodes, b).IsContinuous() && ResolveBase(FindNode(nodes, b)) == Base(b) {
      ContinuousMeansTiled(nodes, b);
      var base := FindNode(nodes, b).value;
      FilterDistinct(Survives(gone), nodes);
      FindDistinct(left, base);
      IsChainPrefix(base, SortNodes(IncrementsOf(left, b)), SortNodes(IncrementsOf(nodes, b)));
      ContinuousMeansTiled(left, b);
    }
  }

  lemma {:induction false} FilterDistinct(keep: ChainNode -> bool, nodes: seq<ChainNode>)
    requires DistinctIds(nodes)
    ensures DistinctIds(Filter(keep, nodes))
  {
    if nodes != [] {
      var rest := Filter(keep, nodes[..|nodes| - 1]);
      FilterDistinct(keep, nodes[..|nodes| - 1]);
      forall i | 0 <= i < |rest| ensures rest[i].id != nodes[|nodes| - 1].id {
        assert rest[i] in nodes[..|nodes| - 1];
      }
    }
  }

  lemma IsChainPrefix(base: ChainNode, p: seq<ChainNode>, incs: seq<ChainNode>)
    requires IsChain(base, incs) && p <= incs
    ensures IsChain(base, p)
  {
    if base.oplogRange.Some? {
      TiledPrefix(base.oplogRange.value.end, p, incs);
    } else {
      forall n | n in p ensures n in incs {}
      forall i, j | 0 <= i < |p| && j == i + 1 < |p| ensures Meets(p[i], p[j]) {
        assert Meets(incs[i], incs[j]);
      }
    }
  }

  lemma BasesSurviveDelete(nodes: seq<ChainNode>, gone: set<Id>)
    requires IncrementsHaveBases(nodes) && TakesEnds(nodes, gone)
    ensures IncrementsHaveBases(Without(nodes, gone))
  {
    var left := Without(nodes, gone);
    forall n | n in left && n.backupType == Incremental ensures HasBase(left, n) {
      assert HasBase(nodes, n);
      var f :| f in nodes && f.id == n.baseId.value && CanCarry(f) && f.id < n.id;
      assert f in left;
    }
  }

  /** Such a deletion keeps the store well chained. */
  lemma DeleteEnds(nodes: seq<ChainNode>, gone: set<Id>)
    requires WellChained(nodes) && TakesEnds(nodes, gone)
    ensures WellChained(Without(nodes, gone))
  {
    FilterIncreases(Survives(gone), nodes);
    BasesSurviveDelete(nodes, gone);
    var left := Without(nodes, gone);
    forall f | f in left && CanCarry(f) ensures ChainTiles(left, f) {
      WellChainedVerifies(nodes, f);
      ChainWithout(nodes, gone, f.id);
      WithoutIsPrefix(SortNodes(IncrementsOf(nodes, f.id)), gone);
      TiledPrefix(f.oplogRange.value.end, IncrementsOf(left, f.id), IncrementsOf(nodes, f.id));
    }
  }
}
