/** Every filter thread scans all views from its own offset; together they have merged exactly as
    far as the fastest of them. */
module PipelineFilter {
  import opened Common
  import opened Frames
  import opened Pipeline
  import F = FilterPools

  function MaxOffset(scanners: seq<Scanner>): nat {
    if scanners == [] then 0
    else Max(MaxOffset(scanners[..|scanners| - 1]), scanners[|scanners| - 1].offset)
  }

  lemma {:induction false} MaxOffsetLeast(scanners: seq<Scanner>, top: nat)
    ensures MaxOffset(scanners) <= top <==> forall j :: 0 <= j < |scanners| ==> scanners[j].offset <= top
  {
    if scanners != [] {
      MaxOffsetLeast(scanners[..|scanners| - 1], top);
      assert scanners == scanners[..|scanners| - 1] + [scanners[|scanners| - 1]];
    }
  }

  lemma MaxOffsetUpdate(scanners: seq<Scanner>, j: nat, scanner: Scanner)
    requires j < |scanners| && scanners[j].offset <= scanner.offset
    ensures MaxOffset(scanners[j := scanner]) == Max(MaxOffset(scanners), scanner.offset)
  {
    var after := scanners[j := scanner];
    var top := Max(MaxOffset(scanners), scanner.offset);
    MaxOffsetLeast(scanners, MaxOffset(scanners));
    MaxOffsetLeast(after, top);
    MaxOffsetLeast(after, MaxOffset(after));
    assert after[j].offset <= MaxOffset(after);
    MaxOffsetLeast(scanners, MaxOffset(after));
    assert forall i :: 0 <= i < |scanners| ==> scanners[i].offset <= after[i].offset;
  }

  /** A pending report holds the verdicts of the frames right after the thread's offset. */
  ghost predicate Honest(c: Scanner, frames: seq<Frame>, match_: Frame -> bool) {
    c.report.Some? ==>
      var r := c.report.value;
      && r.begin == c.offset + 1
      && c.offset + |r.results| <= |frames|
      && r.results == F.Tested(frames[c.offset..c.offset + |r.results|], match_)
  }

  ghost predicate Filtering(frames: seq<Frame>, scanners: seq<Scanner>, pool: F.Pool, match_: Frame -> bool) {
    && F.Sound(pool, frames, match_)
    && (forall j :: 0 <= j < |scanners| ==> Honest(scanners[j], frames, match_))
    && pool.maxSeq == MaxOffset(scanners)
    && forall k :: k in pool.sequence ==> k <= pool.maxSeq
  }

  /** Covering a contiguous report from within the merged part leaves nothing waiting, and moves
      `maxSeq` to the end of the report if that is further. */
  lemma CoverAdvances(before: F.Pool, after: F.Pool, begin: nat, count: nat)
    requires F.Covers(after, before, begin, count)
    requires 1 <= begin <= before.maxSeq + 1
    requires forall k :: k in before.sequence ==> k <= before.maxSeq
    requires after.maxSeq + 1 !in after.sequence
    ensures forall k :: k in after.sequence ==> k <= after.maxSeq
    ensures after.maxSeq == Max(before.maxSeq, begin - 1 + count)
  {
    if 0 < count {
      assert begin + count - 1 <= after.maxSeq || begin + count - 1 in after.sequence;
    }
    if before.maxSeq < after.maxSeq {
      assert after.maxSeq in before.sequence || after.maxSeq < begin + count;
    }
  }

  lemma CoveringKeeps(frames: seq<Frame>, scanners: seq<Scanner>, pool: F.Pool, after: F.Pool, match_: Frame -> bool,
      j: nat, count: nat)
    requires Filtering(frames, scanners, pool, match_) && j < |scanners|
    requires F.Sound(after, frames, match_) && F.Covers(after, pool, scanners[j].offset + 1, count)
    ensures Filtering(frames, scanners[j := Scanner(scanners[j].offset + count, None)], after, match_)
  {
    var moved := Scanner(scanners[j].offset + count, None);
    MaxOffsetUpdate(scanners, j, moved);
    MaxOffsetLeast(scanners, pool.maxSeq);
    CoverAdvances(pool, after, scanners[j].offset + 1, count);
    var after' := scanners[j := moved];
    forall i | 0 <= i < |scanners| ensures Honest(after'[i], frames, match_) {
      assert Honest(scanners[i], frames, match_);
    }
  }

  lemma MergeKeeps(frames: seq<Frame>, scanners: seq<Scanner>, pool: F.Pool, match_: Frame -> bool, j: nat)
    requires Numbered(frames) && Filtering(frames, scanners, pool, match_)
    requires j < |scanners| && scanners[j].report.Some?
    ensures var c, r := scanners[j], scanners[j].report.value;
            Filtering(frames, scanners[j := Scanner(c.offset + |r.results|, None)],
                      F.Collect(pool, r.begin, r.results), match_)
  {
    var r := scanners[j].report.value;
    assert Honest(scanners[j], frames, match_);
    F.CollectSound(pool, frames, match_, r.begin, r.results);
    CoveringKeeps(frames, scanners, pool, F.Collect(pool, r.begin, r.results), match_, j, |r.results|);
  }

  /** What was tested stays tested when frames are added. */
  lemma GrowthKeepsFiltering(frames: seq<Frame>, more: seq<Frame>, scanners: seq<Scanner>, pool: F.Pool,
      match_: Frame -> bool)
    requires Filtering(frames, scanners, pool, match_) && frames <= more
    ensures Filtering(more, scanners, pool, match_)
  {
    assert more[..pool.maxSeq] == frames[..pool.maxSeq];
    forall j | 0 <= j < |scanners| ensures Honest(scanners[j], more, match_) {
      var c := scanners[j];
      assert Honest(c, frames, match_);
      if c.report.Some? {
        var n := |c.report.value.results|;
        assert more[c.offset..c.offset + n] == frames[c.offset..c.offset + n];
      }
    }
  }

  /** Testing published views is testing the frames at the same positions. */
  lemma ScanKeeps(frames: seq<Frame>, views: seq<View>, scanners: seq<Scanner>, pool: F.Pool, match_: Frame -> bool,
      j: nat, n: nat)
    requires Numbered(frames) && Filtering(frames, scanners, pool, match_)
    requires |views| <= |frames| && views == Wrap(frames[..|views|])
    requires j < |scanners| && 0 < n && scanners[j].offset + n <= |views|
    ensures var c := scanners[j];
            var read := views[c.offset..c.offset + n];
            var results := F.Tested(seq(n, v requires 0 <= v < n => read[v].frame), match_);
            Filtering(frames, scanners[j := c.(report := Some(Report(read[0].frame.index, results)))], pool, match_)
  {
    var c := scanners[j];
    var read := views[c.offset..c.offset + n];
    var tested := seq(n, v requires 0 <= v < n => read[v].frame);
    assert tested == frames[c.offset..c.offset + n];
    var scanner := c.(report := Some(Report(read[0].frame.index, F.Tested(tested, match_))));
    MaxOffsetLeast(scanners, MaxOffset(scanners));
    MaxOffsetUpdate(scanners, j, scanner);
  }
}
