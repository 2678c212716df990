/** What one slice of a file chain records, entry by entry, and what unpacking an
    archive does to each path. */
module FileSlices {
  import opened Schema
  import opened FileChain

  /** `q` is a path below the directory `p`. */
  ghost predicate IsBelow(q: Path, p: Path) {
    exists rest :: q == p + "/" + rest
  }

  lemma UnderMeansBelow(q: Path, p: Path)
    ensures IsUnder(q, p) <==> q == p || IsBelow(q, p)
  {
    if IsUnder(q, p) && q != p {
      assert q == p + "/" + q[|p| + 1..];
    }
    if rest :| q == p + "/" + rest {
      assert q[|p|] == '/';
    }
  }

  /** A tombstone removes its path and everything below it. */
  ghost predicate IsRemoved(a: Archive, q: Path) {
    exists p :: p in a.deleted && (q == p || IsBelow(q, p))
  }

  /** After unpacking there is what the archive holds, and what was there and is
      under no tombstone. */
  lemma UnpackedPaths(target: Tree, a: Archive, q: Path)
    ensures q in Unpack(target, a) <==> q in a.entries || (q in target && !IsRemoved(a, q))
    ensures q in target && q !in a.entries && !IsRemoved(a, q) ==> Unpack(target, a)[q] == target[q]
  {
    forall p ensures IsUnder(q, p) == (q == p || IsBelow(q, p)) {
      UnderMeansBelow(q, p);
    }
  }

  /** An entry is unpacked with its content, and a file with its time cut to seconds. */
  lemma UnpackedEntry(target: Tree, a: Archive, q: Path)
    requires q in a.entries
    ensures q in Unpack(target, a)
    ensures var was, got := a.entries[q], Unpack(target, a)[q];
            && got.content == was.content && got.meta.kind == was.meta.kind && got.meta.size == was.meta.size
            && got.meta.mode == was.meta.mode && got.meta.link == was.meta.link
            && (was.meta.kind == RegularFile ==>
                  && got.meta.mtime % 1_000_000_000 == 0
                  && got.meta.mtime <= was.meta.mtime < got.meta.mtime + 1_000_000_000)
            && (was.meta.kind != RegularFile ==> got.meta.mtime == 0)
  {
    CutToSeconds(a.entries[q].meta.mtime);
  }

  lemma CutToSeconds(t: int)
    ensures var cut := t / NANOSECONDS * NANOSECONDS; cut % 1_000_000_000 == 0 && cut <= t < cut + 1_000_000_000
  {
  }

  /** The difference of two trees: every entry that is new or whose metadata changed,
      and every path that is gone. */
  lemma DiffIs(prev: Tree, cur: Tree, p: Path)
    ensures var diff := DiffFrom(IndexOf(cur), IndexOf(prev));
            && (p in diff.changed <==>
                  p in cur && (p in prev ==>
                    || prev[p].meta.kind != cur[p].meta.kind || prev[p].meta.size != cur[p].meta.size
                    || prev[p].meta.mtime != cur[p].meta.mtime || prev[p].meta.mode != cur[p].meta.mode
                    || prev[p].meta.link != cur[p].meta.link))
            && (p in diff.deleted <==> p in prev && p !in cur)
  {
  }

  /** The archive of a slice holds exactly the changed entries, as they are. */
  lemma SliceIs(prev: Tree, cur: Tree, p: Path)
    ensures var a, diff := Delta(prev, cur), DiffFrom(IndexOf(cur), IndexOf(prev));
            && (p in a.entries <==> p in diff.changed) && (p in a.entries ==> a.entries[p] == cur[p])
            && (p in a.deleted <==> p in prev && p !in cur)
  {
    DiffIs(prev, cur, p);
  }

  /** The manifest of a slice counts its changes, and spans one generation exactly
      when there are any. */
  lemma SliceCounts(id: Id, created: Option<i64>, head: FileChainHead, diff: IndexDiff)
    requires head.headGen < U32_MAX
    ensures var m, none := SliceManifest(id, created, head, diff), diff.changed == {} && diff.deleted == {};
            && m.oplogCount == Some(|diff.changed| + |diff.deleted|) && (m.oplogCount == Some(0) <==> none)
            && m.oplogRange.Some? && m.oplogRange.value.start == OplogTimestamp(head.headGen, 0)
            && m.oplogRange.value.end == OplogTimestamp(if none then head.headGen else head.headGen + 1, 0)
  {
    if diff.changed == {} && diff.deleted != {} {
      assert |diff.deleted| > 0;
    }
  }

  /** There are none exactly when the indexes are equal. */
  lemma NoDiffMeansSameIndex(prev: Tree, cur: Tree)
    ensures var diff := DiffFrom(IndexOf(cur), IndexOf(prev));
            diff.changed == {} && diff.deleted == {} <==> IndexOf(prev) == IndexOf(cur)
  {
    var diff := DiffFrom(IndexOf(cur), IndexOf(prev));
    if diff.changed == {} && diff.deleted == {} {
      forall p ensures p in prev <==> p in cur {
        assert p !in diff.changed && p !in diff.deleted;
      }
      forall p | p in cur ensures prev[p].meta == cur[p].meta {
        assert p !in diff.changed;
      }
    }
  }

  /** What an incremental backup records: without the index of the head a promoted
      full backup, else a slice, whose archive is stored only when it holds something. */
  lemma IncrementRecords(s: State, created: Option<i64>, tree: Tree, head: FileChainHead)
    requires head.headGen < U32_MAX
    ensures var s' := TakeIncrement(s, created, tree, head);
            && |s'.store| == |s.store| + 1 && s'.store[..|s.store|] == s.store
            && s'.indexes == s.indexes[s.nextId := IndexOf(tree)] && s'.nextId == s.nextId + 1
            && s'.lost == s.lost
            && var m := s'.store[|s.store|];
               && m.id == s.nextId && m.createdAt == created && m.status == Complete && !m.selective
               && if head.headId !in s.indexes then
                    && m.backupType == Full && m.format == FileTar && m.promotedFromGap && m.baseId == None
                    && m.oplogRange == Some(OplogRange(OplogTimestamp(1, 0), OplogTimestamp(1, 0)))
                    && s'.written == s.written[s.nextId := Archive({}, tree)]
                  else
                    && m.backupType == Incremental && m.format == FileIncr && !m.promotedFromGap
                    && m.baseId == Some(head.baseId)
                    && var diff := DiffFrom(IndexOf(tree), s.indexes[head.headId]);
                       s'.written
                       == if diff.changed == {} && diff.deleted == {} then s.written
                          else s.written[s.nextId := SliceArchive(tree, diff)]
  {
  }
}
