/** The loops of the dispatcher, the stream dissector threads and the filter threads, and the
    pipeline steps they amount to. */
module StageThreads {
  import opened Common
  import opened Frames
  import opened ThreadStats
  import opened Pipeline
  import opened PipelineFilter
  import opened PipelineSafety
  import S = FrameStores
  import F = FilterPools

  // ---- dispatcher

  /** Frames dequeued by the dispatcher and not marked completely yet. */
  ghost predicate Pending(frames: seq<Frame>, d: Dispatcher, stats: seq<Stat>) {
    && d.cur <= d.offset <= |frames| && 0 < |d.layerMap| == |stats|
    && (d.cur < d.offset ==> d.leaf < |frames[d.cur].leaves|)
    && forall k :: 0 <= k < |frames| ==> frames[k].leaves != []
  }

  ghost function MarkNext(frames: seq<Frame>, d: Dispatcher, stats: seq<Stat>): (r: (Dispatcher, seq<Stat>))
    requires Pending(frames, d, stats) && d.cur < d.offset
    ensures Pending(frames, r.0, r.1) && r.0.offset == d.offset
  {
    var leaf := LeavesOf(frames[d.cur])[d.leaf];
    (MarkLeaf(frames, d), Note(stats, leaf.worker % |d.layerMap|, leaf.frame, 0))
  }

  /** All leaves of the dequeued frames sorted by thread, and noted in the table. */
  ghost function MarkAll(frames: seq<Frame>, d: Dispatcher, stats: seq<Stat>): (r: (Dispatcher, seq<Stat>))
    requires Pending(frames, d, stats)
    decreases d.offset - d.cur, if d.cur < d.offset then |frames[d.cur].leaves| - d.leaf else 0
  {
    if d.cur == d.offset then (d, stats)
    else
      var (e, after) := MarkNext(frames, d, stats);
      MarkAll(frames, e, after)
  }

  /** The dispatcher's loop over the dequeued frames and their leaves. */
  method Distribute(frames: seq<Frame>, offset: nat, size: nat, table: StatsTable) returns (layerMap: seq<seq<Leaf>>)
    requires offset + size <= |frames| && 0 < |table.threadStats|
    requires forall k :: 0 <= k < |frames| ==> frames[k].leaves != []
    modifies table
    ensures var d := Dispatcher(offset + size, offset, 0, seq(|old(table.threadStats)|, _ => []), 0);
            var (e, stats) := MarkAll(frames, d, old(table.threadStats));
            layerMap == e.layerMap && table.threadStats == stats
  {
    hide MarkLeaf, Note, LeavesOf;
    var concurrency := |table.threadStats|;
    layerMap := seq(concurrency, _ => []);
    ghost var d := Dispatcher(offset + size, offset, 0, layerMap, 0);
    ghost var all := MarkAll(frames, d, table.threadStats);
    var i := 0;
    while i < size
      invariant 0 <= i <= size && |table.threadStats| == concurrency
      invariant d.cur == offset + i && d.leaf == 0 && d.offset == offset + size && d.layerMap == layerMap
      invariant Pending(frames, d, table.threadStats) && all == MarkAll(frames, d, table.threadStats)
    {
      var layers := LeavesOf(frames[offset + i]);
      var j := 0;
      while j < |layers|
        invariant 0 <= j <= |layers| && |table.threadStats| == concurrency
        invariant if j < |layers| then d.cur == offset + i && d.leaf == j else d.cur == offset + i + 1 && d.leaf == 0
        invariant d.offset == offset + size && d.layerMap == layerMap
        invariant Pending(frames, d, table.threadStats) && all == MarkAll(frames, d, table.threadStats)
      {
        var layer := layers[j];
        var thread := layer.worker % concurrency;
        MarkedOne(frames, d);
        ghost var next := MarkNext(frames, d, table.threadStats);
        layerMap := layerMap[thread := layerMap[thread] + [layer]];
        var min := table.UpdateIndex(thread, layer.frame, 0);
        d := next.0;
        j := j + 1;
      }
      i := i + 1;
    }
  }

  lemma MarkedOne(frames: seq<Frame>, d: Dispatcher)
    requires d.cur < |frames| && d.leaf < |frames[d.cur].leaves| && 0 < |d.layerMap|
    ensures var e, leaf := MarkLeaf(frames, d), LeavesOf(frames[d.cur])[d.leaf];
            var t := leaf.worker % |d.layerMap|;
            && e.layerMap == d.layerMap[t := d.layerMap[t] + [leaf]] && e.offset == d.offset
            && (e.cur, e.leaf) == if d.leaf + 1 < |LeavesOf(frames[d.cur])| then (d.cur, d.leaf + 1) else (d.cur + 1, 0)
  {
  }

  /** The loop amounts to a run of `Mark` steps, which the other threads' steps may interleave. */
  lemma {:induction false} DistributeIsRun(s: State, match_: Frame -> bool) returns (steps: seq<Step>)
    requires Pending(s.store.frames, s.dispatcher, s.stats) && |s.workers| == |s.stats|
    ensures forall k :: 0 <= k < |steps| ==> steps[k] == Mark
    ensures IsRun(s, steps, match_)
    ensures var (d, stats) := MarkAll(s.store.frames, s.dispatcher, s.stats);
            Final(s, steps, match_) == s.(dispatcher := d, stats := stats)
    decreases s.dispatcher.offset - s.dispatcher.cur,
              if s.dispatcher.cur < s.dispatcher.offset
                  then |s.store.frames[s.dispatcher.cur].leaves| - s.dispatcher.leaf else 0
  {
    if s.dispatcher.cur == s.dispatcher.offset {
      steps := [];
    } else {
      var next := After(s, Mark, match_);
      var (d, stats) := MarkNext(s.store.frames, s.dispatcher, s.stats);
      assert next == s.(dispatcher := d, stats := stats);
      var rest := DistributeIsRun(next, match_);
      steps := [Mark] + rest;
      assert steps[1..] == rest;
    }
  }

  // ---- stream dissector threads

  /** The running maximum over a batch, which is reported after the batch was analysed. */
  method MaxFrameIndex(layers: seq<Leaf>) returns (maxFrameIndex: nat)
    ensures maxFrameIndex == MaxFrame(layers)
  {
    maxFrameIndex := 0;
    for i := 0 to |layers|
      invariant maxFrameIndex == MaxFrame(layers[..i])
    {
      assert layers[..i + 1][..i] == layers[..i];
      maxFrameIndex := Max(maxFrameIndex, layers[i].frame);
    }
    assert layers[..|layers|] == layers;
  }

  // ---- filter threads

  const VIEWS := 2048

  class FilterThread {
    const id: nat
    const match_: Frame -> bool
    var offset: nat

    constructor (id: nat, match_: Frame -> bool)
      ensures this.id == id && this.match_ == match_ && offset == 0
    {
      this.id, this.match_, offset := id, match_, 0;
    }

    /** The views one pass tests. */
    ghost function Window(views: seq<View>): (window: seq<View>)
      reads this
    {
      if |views| <= offset then []
      else views[offset..if offset + 2048 < |views| then offset + 2048 else |views|]
    }

    method Loop(store: S.FrameStore, pool: F.FilterThreadPool) returns (again: bool)
      modifies this, store`closedThreads, pool
      ensures again == (!store.closed && id !in old(store.closedThreads))
      ensures var window := old(Window(store.views));
              if again && window != [] then
                offset == old(offset) + |window|
                && pool.State() == F.Collect(old(pool.State()), window[0].frame.index, Verdicts(window, match_))
              else offset == old(offset) && pool.State() == old(pool.State())
    {
      var ok, views := store.DequeueViews(offset, VIEWS, id);
      if !ok {
        return false;
      }
      if views == [] {
        return true;
      }
      var begin, results := views[0].frame.index, Test(views);
      pool.ThreadCallback(begin, results);
      offset := offset + |views|;
      return true;
    }

    function Test(views: seq<View>): (results: seq<bool>)
      ensures results == Verdicts(views, match_)
    {
      seq(|views|, i requires 0 <= i < |views| => match_(views[i].frame))
    }
  }

  function Verdicts(views: seq<View>, match_: Frame -> bool): seq<bool> {
    F.Tested(seq(|views|, v requires 0 <= v < |views| => views[v].frame), match_)
  }

  /** A pass that tests views amounts to a `Scan` and a `Merge` step. */
  lemma PassIsRun(s: State, match_: Frame -> bool, j: nat, n: nat)
    requires j < |s.scanners| && s.scanners[j].report.None?
    requires 0 < n && s.scanners[j].offset + n <= |s.store.views|
    ensures var window := s.store.views[s.scanners[j].offset..s.scanners[j].offset + n];
            && IsRun(s, [Scan(j, n), Merge(j)], match_)
            && Final(s, [Scan(j, n), Merge(j)], match_)
               == s.(pool := F.Collect(s.pool, window[0].frame.index, Verdicts(window, match_)),
                     scanners := s.scanners[j := Scanner(s.scanners[j].offset + n, None)])
  {
    hide F.Collect, IsRun, Final;
    var scanned := After(s, Scan(j, n), match_);
    assert scanned.scanners[j].report.Some?;
    TwoSteps(s, Scan(j, n), Merge(j), match_);
    var merged := After(scanned, Merge(j), match_);
    assert scanned.scanners[j := Scanner(s.scanners[j].offset + n, None)]
        == s.scanners[j := Scanner(s.scanners[j].offset + n, None)];
  }

  /** One pass over the views that a filter thread has not tested merges everything up to them, whatever the other
      threads have done so far. */
  lemma PassCatchesUp(s: State, match_: Frame -> bool, j: nat, n: nat)
    requires Reachable(s, match_) && j < |s.scanners| && s.scanners[j].report.None?
    requires 0 < n && s.scanners[j].offset + n <= |s.store.views|
    ensures IsRun(s, [Scan(j, n), Merge(j)], match_)
    ensures var t := Final(s, [Scan(j, n), Merge(j)], match_);
            && t.pool.maxSeq == Max(s.pool.maxSeq, s.scanners[j].offset + n) <= |s.store.frames|
            && t.pool.frames == F.Matching(s.store.frames[..t.pool.maxSeq], match_)
  {
    hide Invariant, IsRun, Final, MaxOffset, F.Matching, F.Collect;
    ReachableHolds(s, match_);
    FilterHolds(s, match_);
    StepKeeps(s, Scan(j, n), match_);
    var scanned := After(s, Scan(j, n), match_);
    StepKeeps(scanned, Merge(j), match_);
    TwoSteps(s, Scan(j, n), Merge(j), match_);
    PassIsRun(s, match_, j, n);
    FilterHolds(Final(s, [Scan(j, n), Merge(j)], match_), match_);
    MaxOffsetUpdate(s.scanners, j, Scanner(s.scanners[j].offset + n, None));
  }

  lemma TwoSteps(s: State, first: Step, second: Step, match_: Frame -> bool)
    requires Enabled(s, first) && !first.Publish? && !second.Publish? && Enabled(After(s, first, match_), second)
    ensures IsRun(s, [first, second], match_)
    ensures Final(s, [first, second], match_) == After(After(s, first, match_), second, match_)
  {
    hide After, Enabled;
    assert [first, second][1..] == [second] && [second][1..] == [];
    var t := After(s, first, match_);
    assert IsRun(After(t, second, match_), [], match_);
    assert IsRun(t, [second], match_);
    assert Final(t, [second], match_) == After(t, second, match_);
  }
}
