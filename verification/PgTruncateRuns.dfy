/** What a restore gives after a run whose log held truncations: the state that
    the server had, exactly when no truncation that the slices pass does harm. */
module PgTruncateRuns {
  import opened Schema
  import opened StableSort
  import opened PgReplay
  import opened PgCapture
  import opened PgRuns
  import opened PgTruncate

  /** The events of each transaction. */
  type Events = seq<seq<Event>>

  function Joined(txns: Events): seq<Event> {
    if txns == [] then [] else Joined(txns[..|txns| - 1]) + txns[|txns| - 1]
  }

  /** The log holds what the decoder keeps of the transactions. */
  ghost predicate Decode(txns: Events, log: seq<Txn>) {
    |txns| == |log| && forall i :: 0 <= i < |log| ==> ChangesOf(log[i]) == Decoded(txns[i])
  }

  /** The server executed the transactions of which the log holds what was kept. */
  ghost predicate Underlie(catalog: Catalog, txns: Events, log: seq<Txn>) {
    Decode(txns, log) && IsServerRun(catalog, Joined(txns), map[])
  }

  function ServerAt(txns: Events, p: nat): Db
    requires p <= |txns|
  {
    ServerAfter(Joined(txns[..p]), map[])
  }

  lemma {:induction false} JoinedConcat(a: Events, b: Events)
    ensures Joined(a + b) == Joined(a) + Joined(b)
    decreases |b|
  {
    if b == [] {
      assert a + b == a;
    } else {
      var front, last := b[..|b| - 1], b[|b| - 1];
      JoinedConcat(a, front);
      assert (a + b)[..|a + b| - 1] == a + front;
      Assoc(Joined(a), Joined(front), last);
    }
  }

  lemma JoinedParts(txns: Events, i: nat, j: nat, k: nat)
    requires i <= j <= k <= |txns|
    ensures Joined(txns[i..k]) == Joined(txns[i..j]) + Joined(txns[j..k])
  {
    assert txns[i..k] == txns[i..j] + txns[j..k];
    JoinedConcat(txns[i..j], txns[j..k]);
  }

  lemma {:induction false} DecodedLog(txns: Events, log: seq<Txn>)
    requires Decode(txns, log)
    ensures Decoded(Joined(txns)) == Flat(log)
  {
    if txns != [] {
      var n := |txns| - 1;
      DecodedLog(txns[..n], log[..n]);
      DecodedConcat(Joined(txns[..n]), txns[n]);
    }
  }

  lemma DecodedStretch(catalog: Catalog, txns: Events, log: seq<Txn>, i: nat, j: nat)
    requires Underlie(catalog, txns, log) && i <= j <= |log|
    ensures Decoded(Joined(txns[i..j])) == Stretch(log, i, j)
  {
    DecodedLog(txns[i..j], log[i..j]);
  }

  lemma DecodedLogKeepsKeys(catalog: Catalog, txns: Events, log: seq<Txn>)
    requires Underlie(catalog, txns, log)
    ensures KeepsKeys(catalog, log)
  {
    DecodedStretch(catalog, txns, log, 0, |log|);
    assert txns[0..|log|] == txns;
    DecodedIsTyped(catalog, Joined(txns), "", map[]);
  }

  /** The server's run, taken apart at two positions. */
  lemma ServerParts(catalog: Catalog, txns: Events, i: nat, j: nat)
    requires IsServerRun(catalog, Joined(txns), map[]) && i <= j <= |txns|
    ensures IsServerRun(catalog, Joined(txns[..i]), map[]) && IsServerRun(catalog, Joined(txns[i..j]), ServerAt(txns, i))
    ensures ServerAt(txns, j) == ServerAfter(Joined(txns[i..j]), ServerAt(txns, i))
  {
    JoinedParts(txns, 0, j, |txns|);
    JoinedParts(txns, 0, i, j);
    assert txns[0..|txns|] == txns && txns[0..j] == txns[..j] && txns[0..i] == txns[..i];
    ServerConcat(catalog, Joined(txns[..j]), Joined(txns[j..]), map[]);
    ServerConcat(catalog, Joined(txns[..i]), Joined(txns[i..j]), map[]);
  }

  /** From the snapshot at `b`, replaying from an earlier `s` to `t`. */
  lemma ReplayOverTruncations(catalog: Catalog, txns: Events, log: seq<Txn>, s: nat, b: nat, t: nat)
    requires Underlie(catalog, txns, log) && s <= b <= t <= |log|
    ensures var r := Replayed(catalog, log, s, t, ServerAt(txns, b));
            r.Ok? && (r.value == ServerAt(txns, t)
                      <==> AllHarmless(catalog, Joined(txns[s..t]), ServerAt(txns, b), ServerAt(txns, t)))
  {
    ServerParts(catalog, txns, s, b);
    ServerParts(catalog, txns, s, t);
    JoinedParts(txns, s, b, t);
    DecodedStretch(catalog, txns, log, s, t);
    ServerKeepsColumns(catalog, Joined(txns[..s]), map[]);
    ExactMeansHarmless(catalog, Joined(txns[s..b]), Joined(txns[b..t]), ServerAt(txns, s));
  }

  /** Where the replay of a base begins: at its first slice, or at its snapshot. */
  function FirstStart(s: State, f: BackupManifest, b: nat): nat {
    var ss := ChainSpans(s, f.id);
    if ss != [] then ss[0].from else b
  }

  lemma CoveredChainOverTruncations(
      s: State, catalog: Catalog, txns: Events, f: BackupManifest, upTo: Option<int>)
    requires ChainHolds(s, f) && ChainCovered(s, f) && Underlie(catalog, txns, s.log)
    requires upTo.Some? ==> CommitsInOrder(s.log)
    requires s.snaps[f.id] <= Reached(s, f) && s.snaps[f.id] <= CutAt(s.log, upTo)
    ensures var b, t := s.snaps[f.id], Min(Reached(s, f), CutAt(s.log, upTo));
            var from := FirstStart(s, f, b);
            var r := RestoreOf(catalog, s.data, ChainOf(s, f.id), upTo, ServerAt(txns, b));
            && from <= b <= t <= |txns| && r.Ok?
            && (r.value == ServerAt(txns, t)
                <==> AllHarmless(catalog, Joined(txns[from..t]), ServerAt(txns, b), ServerAt(txns, t)))
  {
    var ss, b, q := ChainSpans(s, f.id), s.snaps[f.id], CutAt(s.log, upTo);
    var t := Min(Reached(s, f), q);
    RestoreIsReplay(catalog, s.log, s.data, s.spans, ChainOf(s, f.id), upTo, ServerAt(txns, b));
    if ss == [] {
      ReplayOverTruncations(catalog, txns, s.log, b, b, t);
      NoStretch(s.log, b);
    } else {
      DecodedLogKeepsKeys(catalog, txns, s.log);
      SlicesAreOneStretch(catalog, s.log, b, ss, q, ServerAt(txns, b));
      ReplayOverTruncations(catalog, txns, s.log, ss[0].from, b, t);
    }
  }

  /** After any run in which each full backup that recreated the slot was recorded,
      and prunes left the newest one alone, and on any log of the server: a restore
      that has its data never fails, and gives the server's state at the last captured
      position, or at the commit time asked for, exactly when no truncation that its
      slices pass does harm at any key. */
  lemma ExactMeansNoHarm(
      run: seq<State>, catalog: Catalog, txns: Events, f: BackupManifest, upTo: Option<int>)
    requires IsRun(run) && f in run[|run| - 1].store && IsPgFull(f) && !MissesData(run[|run| - 1], f)
    requires var s := run[|run| - 1]; Underlie(catalog, txns, s.log) && (upTo.Some? ==> CommitsInOrder(s.log))
    requires var s := run[|run| - 1];
             f.id in s.snaps ==> s.snaps[f.id] <= Reached(s, f) && s.snaps[f.id] <= CutAt(s.log, upTo)
    ensures var s := run[|run| - 1];
            && f.id in s.snaps
            && var b, t := s.snaps[f.id], Min(Reached(s, f), CutAt(s.log, upTo));
               var from := FirstStart(s, f, b);
               && from <= b <= t <= |txns|
               && var r := RestoreOf(catalog, s.Archives(), ChainOf(s, f.id), upTo, ServerAt(txns, b));
                  && r.Ok?
                  && (r.value == ServerAt(txns, t)
                      <==> AllHarmless(catalog, Joined(txns[from..t]), ServerAt(txns, b), ServerAt(txns, t)))
  {
    RunIsFaulty(run);
    RunKeepsInv(run);
    RunKeepsCover(run);
    var s := run[|run| - 1];
    AllHolding(s, f);
    assert ChainCovered(s, f);
    CoveredChainOverTruncations(s, catalog, txns, f, upTo);
    RestoreWithLost(catalog, s.data, s.lost, ChainOf(s, f.id), upTo, ServerAt(txns, s.snaps[f.id]));
  }
}
