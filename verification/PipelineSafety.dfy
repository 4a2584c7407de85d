/** The theorems about every reachable state of the pipeline. */
module PipelineSafety {
  import opened Common
  import opened Frames
  import opened ThreadStats
  import opened Pipeline
  import opened PipelineIntake
  import opened PipelineDispatch
  import opened PipelineFilter
  import S = FrameStores
  import F = FilterPools

  ghost predicate Invariant(s: State, match_: Frame -> bool) {
    && Conserved(s.intake, s.store)
    && Dispatching(s.store.frames, s.dispatcher, s.workers, s.stats, |s.store.views|)
    && Filtering(s.store.frames, s.scanners, s.pool, match_)
  }

  /** A state some run reaches, for any number of threads of each kind. */
  ghost predicate Reachable(s: State, match_: Frame -> bool) {
    exists producers: nat, dissectors: nat, threads: nat, filters: nat, steps: seq<Step> ::
      0 < threads && ReachedBy(s, match_, producers, dissectors, threads, filters, steps)
  }

  ghost predicate ReachedBy(s: State, match_: Frame -> bool, producers: nat, dissectors: nat, threads: nat,
      filters: nat, steps: seq<Step>)
  {
    var start := Initial(producers, dissectors, threads, filters);
    IsRun(start, steps, match_) && s == Final(start, steps, match_)
  }

  lemma InitialConserved(producers: nat, dissectors: nat)
    ensures Conserved(Intake([], seq(producers, _ => []), [], seq(dissectors, _ => [])), S.EMPTY)
  {
    SumEmpty(seq(producers, _ => []));
    SumEmpty(seq(dissectors, _ => []));
  }

  lemma InitialDispatching(threads: nat)
    requires 0 < threads
    ensures Dispatching([], Dispatcher(0, 0, 0, seq(threads, _ => []), threads),
                        seq(threads, _ => Worker([], [], [], None)), seq(threads, _ => Stat(0, 0)), 0)
  {
    assert Marked([], Dispatcher(0, 0, 0, seq(threads, _ => []), threads)) == [];
  }

  lemma InitialHolds(producers: nat, dissectors: nat, threads: nat, filters: nat, match_: Frame -> bool)
    requires 0 < threads
    ensures Invariant(Initial(producers, dissectors, threads, filters), match_)
  {
    InitialConserved(producers, dissectors);
    InitialDispatching(threads);
    MaxOffsetLeast(seq(filters, _ => Scanner(0, None)), 0);
  }

  /** The frame list consists of numbered frames. */
  lemma ListNumbered(k: Intake, store: S.Store)
    requires Conserved(k, store)
    ensures Numbered(store.frames)
  {
    ListIsLongestPrefix(k, store);
  }

  lemma IntakeStepKeeps(s: State, step: Step, match_: Frame -> bool)
    requires Invariant(s, match_) && Enabled(s, step)
    requires step.Number? || step.Enqueue? || step.TakeFrames?
    ensures Invariant(After(s, step, match_), match_)
  {
    match step
    case Number(p, leaves) => NumberConserves(s.intake, s.store, p, leaves);
    case Enqueue(p) => EnqueueConserves(s.intake, p);
    case TakeFrames(t, n) => TakeConserves(s.intake, t, n);
  }

  lemma DeliverKeeps(s: State, step: Step, match_: Frame -> bool)
    requires Invariant(s, match_) && Enabled(s, step) && step.Deliver?
    ensures Invariant(After(s, step, match_), match_)
  {
    var batch := s.intake.working[step.dissector];
    DeliverConserves(s.intake, s.store, step.dissector);
    var more := S.Insert(s.store, batch).frames;
    GrowthKeeps(s.store.frames, more, s.dispatcher, s.workers, s.stats, |s.store.views|);
    GrowthKeepsFiltering(s.store.frames, more, s.scanners, s.pool, match_);
  }

  lemma HoldsDispatching(s: State, match_: Frame -> bool)
    requires Invariant(s, match_)
    ensures Numbered(s.store.frames)
    ensures Dispatching(s.store.frames, s.dispatcher, s.workers, s.stats, |s.store.views|)
  {
    ListNumbered(s.intake, s.store);
  }

  /** A step of dispatcher and stream threads changes nothing else. */
  lemma DispatchingHolds(s: State, t: State, match_: Frame -> bool)
    requires Invariant(s, match_)
    requires t == s.(dispatcher := t.dispatcher, workers := t.workers, stats := t.stats)
    requires Dispatching(s.store.frames, t.dispatcher, t.workers, t.stats, |s.store.views|)
    ensures Invariant(t, match_)
  {
    hide Dispatching;
  }

  lemma MarkStepKeeps(s: State, step: Step, match_: Frame -> bool)
    requires Invariant(s, match_) && Enabled(s, step) && step.Mark?
    ensures Invariant(After(s, step, match_), match_)
  {
    hide Invariant, Dispatching;
    HoldsDispatching(s, match_);
    MarkKeeps(s.store.frames, s.dispatcher, s.workers, s.stats, |s.store.views|);
    DispatchingHolds(s, After(s, step, match_), match_);
  }

  lemma FetchStepKeeps(s: State, step: Step, match_: Frame -> bool)
    requires Invariant(s, match_) && Enabled(s, step) && step.Fetch?
    ensures Invariant(After(s, step, match_), match_)
  {
    hide Invariant, Dispatching;
    HoldsDispatching(s, match_);
    FetchKeeps(s.store.frames, s.dispatcher, s.workers, s.stats, |s.store.views|, step.count);
    DispatchingHolds(s, After(s, step, match_), match_);
  }

  lemma PushStepKeeps(s: State, step: Step, match_: Frame -> bool)
    requires Invariant(s, match_) && Enabled(s, step) && step.Push?
    ensures Invariant(After(s, step, match_), match_)
  {
    hide Invariant, Dispatching;
    HoldsDispatching(s, match_);
    PushKeeps(s.store.frames, s.dispatcher, s.workers, s.stats, |s.store.views|);
    DispatchingHolds(s, After(s, step, match_), match_);
  }

  lemma TakeLayersStepKeeps(s: State, step: Step, match_: Frame -> bool)
    requires Invariant(s, match_) && Enabled(s, step) && step.TakeLayers?
    ensures Invariant(After(s, step, match_), match_)
  {
    hide Invariant, Dispatching;
    HoldsDispatching(s, match_);
    TakeLayersKeeps(s.store.frames, s.dispatcher, s.workers, s.stats, |s.store.views|, step.thread, step.count);
    DispatchingHolds(s, After(s, step, match_), match_);
  }

  lemma ReportStepKeeps(s: State, step: Step, match_: Frame -> bool)
    requires Invariant(s, match_) && Enabled(s, step) && step.ReportDone?
    ensures Invariant(After(s, step, match_), match_)
  {
    hide Invariant, Dispatching;
    HoldsDispatching(s, match_);
    ReportKeeps(s.store.frames, s.dispatcher, s.workers, s.stats, |s.store.views|, step.thread);
    DispatchingHolds(s, After(s, step, match_), match_);
  }

  lemma PublishStepKeeps(s: State, step: Step, match_: Frame -> bool)
    requires Invariant(s, match_) && Enabled(s, step) && step.Publish?
    ensures s.workers[step.thread].publish.value <= |s.store.frames|
    ensures Invariant(After(s, step, match_), match_)
  {
    PublishKeeps(s.store.frames, s.dispatcher, s.workers, s.stats, |s.store.views|, step.thread);
    UpdateConserved(s.intake, s.store, s.workers[step.thread].publish.value);
  }

  lemma ScanStepKeeps(s: State, step: Step, match_: Frame -> bool)
    requires Invariant(s, match_) && Enabled(s, step) && step.Scan?
    ensures Invariant(After(s, step, match_), match_)
  {
    ListNumbered(s.intake, s.store);
    ScanKeeps(s.store.frames, s.store.views, s.scanners, s.pool, match_, step.filter, step.count);
    var after := After(s, step, match_);
    assert after == s.(scanners := after.scanners);
  }

  lemma MergeStepKeeps(s: State, step: Step, match_: Frame -> bool)
    requires Invariant(s, match_) && Enabled(s, step) && step.Merge?
    ensures Invariant(After(s, step, match_), match_)
  {
    ListNumbered(s.intake, s.store);
    MergeKeeps(s.store.frames, s.scanners, s.pool, match_, step.filter);
    var after := After(s, step, match_);
    assert after == s.(scanners := after.scanners, pool := after.pool);
  }

  /** Every enabled step keeps the invariant, and publication stays within the frame list. */
  lemma StepKeeps(s: State, step: Step, match_: Frame -> bool)
    requires Invariant(s, match_) && Enabled(s, step)
    ensures step.Publish? ==> s.workers[step.thread].publish.value <= |s.store.frames|
    ensures Invariant(After(s, step, match_), match_)
  {
    match step
    case Number(_, _) => IntakeStepKeeps(s, step, match_);
    case Enqueue(_) => IntakeStepKeeps(s, step, match_);
    case TakeFrames(_, _) => IntakeStepKeeps(s, step, match_);
    case Deliver(_) => DeliverKeeps(s, step, match_);
    case Fetch(_) => FetchStepKeeps(s, step, match_);
    case Mark => MarkStepKeeps(s, step, match_);
    case Push => PushStepKeeps(s, step, match_);
    case TakeLayers(_, _) => TakeLayersStepKeeps(s, step, match_);
    case ReportDone(_) => ReportStepKeeps(s, step, match_);
    case Publish(_) => PublishStepKeeps(s, step, match_);
    case Scan(_, _) => ScanStepKeeps(s, step, match_);
    case Merge(_) => MergeStepKeeps(s, step, match_);
  }

  lemma {:induction false} RunKeeps(s: State, steps: seq<Step>, match_: Frame -> bool)
    requires Invariant(s, match_) && IsRun(s, steps, match_)
    ensures Invariant(Final(s, steps, match_), match_)
    decreases |steps|
  {
    if steps != [] {
      StepKeeps(s, steps[0], match_);
      RunKeeps(After(s, steps[0], match_), steps[1..], match_);
    }
  }

  lemma ReachableHolds(s: State, match_: Frame -> bool)
    requires Reachable(s, match_)
    ensures Invariant(s, match_)
  {
    var producers: nat, dissectors: nat, threads: nat, filters: nat, steps: seq<Step> :|
      0 < threads && ReachedBy(s, match_, producers, dissectors, threads, filters, steps);
    InitialHolds(producers, dissectors, threads, filters, match_);
    RunKeeps(Initial(producers, dissectors, threads, filters), steps, match_);
  }

  /** Conservation: the store's list is the longest gap-free beginning of the issued frames, each
      once and in order; the next one is still in flight, and nothing in flight means all are there. */
  lemma PipelineConserves(s: State, match_: Frame -> bool)
    requires Reachable(s, match_)
    ensures s.store.frames <= s.intake.issued && Numbered(s.intake.issued)
    ensures |s.store.frames| < |s.intake.issued| ==> s.intake.issued[|s.store.frames|] in InFlight(s.intake)
    ensures Drained(s.intake) ==> s.store.frames == s.intake.issued
  {
    ReachableHolds(s, match_);
    ListIsLongestPrefix(s.intake, s.store);
  }

  /** Published views agree with the frames, and every watermark still on its way to the store,
      however stale, is one the store can apply. */
  lemma PublicationInBounds(s: State, match_: Frame -> bool)
    requires Reachable(s, match_)
    ensures |s.store.views| <= |s.store.frames|
    ensures forall k :: 0 <= k < |s.store.views| ==>
              s.store.views[k] == View(s.store.frames[k]) && s.store.frames[k].index == k + 1
    ensures forall i :: 0 <= i < |s.workers| && s.workers[i].publish.Some? ==>
              s.workers[i].publish.value <= s.dispatcher.cur <= |s.store.frames|
  {
    ReachableHolds(s, match_);
  }

  /** An index up to which publication is allowed: published now, on its way, or what the table
      would yield. */
  ghost predicate Offered(s: State, w: nat) {
    || w == |s.store.views|
    || w == Watermark(s.stats)
    || exists i :: 0 <= i < |s.workers| && s.workers[i].publish == Some(w)
  }

  ghost predicate Analysed(s: State, l: Leaf) {
    exists i :: 0 <= i < |s.workers| && l in s.workers[i].done
  }

  /** The leaf still waits at thread `i` and belongs to the very frame that thread last reported. */
  ghost predicate AtLastReport(s: State, i: nat, l: Leaf) {
    && i < |s.workers| && i < |s.stats| && i < |s.dispatcher.layerMap|
    && l in Todo(s.dispatcher, s.workers[i], i)
    && l.frame == s.stats[i].dissected
  }

  ghost predicate Ascending(leaves: seq<Leaf>) {
    forall a, b :: 0 <= a < b < |leaves| ==> leaves[a].frame <= leaves[b].frame
  }

  lemma AscendingConcat(front: seq<Leaf>, back: seq<Leaf>, top: nat)
    requires Ascending(front) && Ascending(back)
    requires forall l :: l in front ==> l.frame <= top
    requires forall l :: l in back ==> top <= l.frame
    ensures Ascending(front + back)
  {
    var all := front + back;
    forall a, b | 0 <= a < b < |all| ensures all[a].frame <= all[b].frame {
      if a < |front| <= b {
        assert front[a] in front && back[b - |front|] in back;
      }
    }
  }

  /** The frames list their leaves in frame order. */
  lemma {:induction false} LeavesAscend(frames: seq<Frame>)
    requires Numbered(frames)
    ensures Ascending(AllLeaves(frames))
  {
    if frames != [] {
      var front := frames[..|frames| - 1];
      LeavesAscend(front);
      LeavesBounded(front);
      AscendingConcat(AllLeaves(front), LeavesOf(frames[|front|]), |frames|);
    }
  }

  lemma MarkedAscend(frames: seq<Frame>, d: Dispatcher)
    requires Numbered(frames) && Positioned(frames, d)
    ensures Ascending(Marked(frames, d))
  {
    LeavesAscend(frames[..d.cur]);
    LeavesBounded(frames[..d.cur]);
    if d.cur < d.offset {
      AscendingConcat(AllLeaves(frames[..d.cur]), LeavesOf(frames[d.cur])[..d.leaf], d.cur + 1);
    }
  }

  /** A thread's share keeps the order, and lies within the frames of the whole. */
  lemma {:induction false} ShareAscends(leaves: seq<Leaf>, i: nat, n: nat)
    requires 0 < n && Ascending(leaves)
    ensures Ascending(OnThread(leaves, i, n))
    ensures forall l :: l in OnThread(leaves, i, n) <==> l in leaves && l.worker % n == i
  {
    if leaves != [] {
      var front, last := leaves[..|leaves| - 1], leaves[|leaves| - 1];
      ShareAscends(front, i, n);
      var share := OnThread(front, i, n);
      forall a | 0 <= a < |share| ensures share[a].frame <= last.frame {
        assert share[a] in share;
      }
      assert leaves == front + [last];
    }
  }

  lemma {:induction false} LeafListed(frames: seq<Frame>, k: nat, j: nat)
    requires k < |frames| && j < |frames[k].leaves|
    ensures LeavesOf(frames[k])[j] in AllLeaves(frames)
    decreases |frames|
  {
    if k < |frames| - 1 {
      LeafListed(frames[..|frames| - 1], k, j);
    }
  }

  /** Watermark safety.  Whatever index publication is offered, every leaf of every frame up to it
      has been analysed, or waits at its thread and belongs to the very frame that thread last
      reported. */
  lemma WatermarkSafe(s: State, match_: Frame -> bool, w: nat, k: nat, j: nat)
    requires Reachable(s, match_) && Offered(s, w)
    requires k < w && k < |s.store.frames| && j < |s.store.frames[k].leaves|
    ensures var l := LeavesOf(s.store.frames[k])[j];
            Analysed(s, l) || exists i: nat :: AtLastReport(s, i, l)
  {
    ReachableHolds(s, match_);
    ListNumbered(s.intake, s.store);
    var frames, d, n := s.store.frames, s.dispatcher, |s.workers|;
    var l := LeavesOf(frames[k])[j];
    var i := l.worker % n;
    WatermarkSettles(d, s.workers, s.stats, frames);
    assert Settled(d, s.workers, s.stats, w);
    LeafListed(frames[..d.cur], k, j);
    MarkedAscend(frames, d);
    var share := OnThread(Marked(frames, d), i, n);
    ShareAscends(Marked(frames, d), i, n);
    var worker := s.workers[i];
    assert InStep(d, worker, s.stats[i], i, share);
    var todo := Todo(d, worker, i);
    assert l in worker.done + todo;
    if l !in worker.done {
      TodoAfterDone(worker.done, todo, l, s.stats[i].dissected);
      assert AtLastReport(s, i, l);
    }
  }

  /** In an ordered share, what is left lies at or after the last report. */
  lemma TodoAfterDone(done: seq<Leaf>, todo: seq<Leaf>, l: Leaf, dissected: nat)
    requires Ascending(done + todo) && l in todo
    requires dissected == 0 || exists x :: x in done && x.frame == dissected
    ensures dissected <= l.frame
  {
    if 0 < dissected {
      var x :| x in done && x.frame == dissected;
      var a :| 0 <= a < |done| && done[a] == x;
      var b :| 0 <= b < |todo| && todo[b] == l;
      assert (done + todo)[a] == x && (done + todo)[|done| + b] == l;
    }
  }

  /** No two leaves of the frame go to the same stream thread. */
  ghost predicate OneLeafEach(f: Frame, n: nat)
    requires 0 < n
  {
    forall a, b :: 0 <= a < b < |f.leaves| ==> f.leaves[a] % n != f.leaves[b] % n
  }

  /** The leaf is the one its frame has in its slot. */
  ghost predicate Genuine(frames: seq<Frame>, l: Leaf) {
    1 <= l.frame <= |frames| && l.slot < |frames[l.frame - 1].leaves| && l == LeavesOf(frames[l.frame - 1])[l.slot]
  }

  lemma {:induction false} LeavesGenuine(frames: seq<Frame>, l: Leaf)
    requires Numbered(frames) && l in AllLeaves(frames)
    ensures Genuine(frames, l)
  {
    if frames != [] {
      var front, last := frames[..|frames| - 1], frames[|frames| - 1];
      if l in AllLeaves(front) {
        LeavesGenuine(front, l);
      } else {
        var j :| 0 <= j < |LeavesOf(last)| && LeavesOf(last)[j] == l;
      }
    }
  }

  lemma MarkedGenuine(frames: seq<Frame>, d: Dispatcher, l: Leaf)
    requires Numbered(frames) && Positioned(frames, d) && l in Marked(frames, d)
    ensures Genuine(frames, l)
  {
    if l in AllLeaves(frames[..d.cur]) {
      LeavesGenuine(frames[..d.cur], l);
    } else {
      var j :| 0 <= j < d.leaf && LeavesOf(frames[d.cur])[..d.leaf][j] == l;
      assert l == LeavesOf(frames[d.cur])[j];
    }
  }

  lemma {:induction false} OnThreadMember(leaves: seq<Leaf>, i: nat, n: nat, l: Leaf)
    requires 0 < n
    ensures l in OnThread(leaves, i, n) <==> l in leaves && l.worker % n == i
  {
    if leaves != [] {
      OnThreadMember(leaves[..|leaves| - 1], i, n, l);
      assert leaves == leaves[..|leaves| - 1] + [leaves[|leaves| - 1]];
    }
  }

  /** What a thread has done and has still to do are genuine leaves of its own. */
  lemma ShareGenuine(s: State, match_: Frame -> bool, i: nat, l: Leaf)
    requires Invariant(s, match_) && i < |s.workers|
    requires l in s.workers[i].done || l in Todo(s.dispatcher, s.workers[i], i)
    ensures Genuine(s.store.frames, l) && l.worker % |s.workers| == i
  {
    hide Marked, Genuine, Todo, Settled, Positioned;
    ListNumbered(s.intake, s.store);
    var marked := Marked(s.store.frames, s.dispatcher);
    assert InStep(s.dispatcher, s.workers[i], s.stats[i], i, OnThread(marked, i, |s.workers|));
    assert l in s.workers[i].done + Todo(s.dispatcher, s.workers[i], i);
    OnThreadMember(marked, i, |s.workers|, l);
    MarkedGenuine(s.store.frames, s.dispatcher, l);
  }

  lemma {:induction false} LeavesDistinct(frames: seq<Frame>)
    requires Numbered(frames)
    ensures NoDuplicates(AllLeaves(frames))
  {
    if frames != [] {
      var front, last := frames[..|frames| - 1], frames[|frames| - 1];
      LeavesDistinct(front);
      LeavesAscend(front);
      forall l | l in AllLeaves(front) ensures l !in LeavesOf(last) {
        LeavesGenuine(front, l);
      }
      DistinctConcat(AllLeaves(front), LeavesOf(last));
    }
  }

  lemma DistinctConcat<T(!new)>(a: seq<T>, b: seq<T>)
    requires NoDuplicates(a) && NoDuplicates(b) && forall x :: x in a ==> x !in b
    ensures NoDuplicates(a + b)
  {
    forall j, k | 0 <= j < k < |a + b| ensures (a + b)[j] != (a + b)[k] {
      assert j < |a| ==> (a + b)[j] in a;
      assert |a| <= k ==> (a + b)[k] in b;
    }
  }

  lemma {:induction false} OnThreadDistinct(leaves: seq<Leaf>, i: nat, n: nat)
    requires 0 < n && NoDuplicates(leaves)
    ensures NoDuplicates(OnThread(leaves, i, n))
  {
    if leaves != [] {
      var front, last := leaves[..|leaves| - 1], leaves[|leaves| - 1];
      assert leaves == front + [last];
      OnThreadDistinct(front, i, n);
      OnThreadMember(front, i, n, last);
      assert last !in front;
      DistinctConcat(OnThread(front, i, n), if last.worker % n == i then [last] else []);
    }
  }

  lemma MarkedDistinct(frames: seq<Frame>, d: Dispatcher)
    requires Numbered(frames) && Positioned(frames, d)
    ensures NoDuplicates(Marked(frames, d))
  {
    LeavesDistinct(frames[..d.cur]);
    if d.cur < d.offset {
      var last := LeavesOf(frames[d.cur])[..d.leaf];
      forall l | l in AllLeaves(frames[..d.cur]) ensures l !in last {
        LeavesGenuine(frames[..d.cur], l);
      }
      DistinctConcat(AllLeaves(frames[..d.cur]), last);
    }
  }

  /** No leaf is done twice, or both done and still to do. */
  lemma ShareDistinct(s: State, match_: Frame -> bool, i: nat)
    requires Invariant(s, match_) && i < |s.workers|
    ensures NoDuplicates(s.workers[i].done + Todo(s.dispatcher, s.workers[i], i))
  {
    hide Marked, OnThread, Todo, Settled, Positioned, NoDuplicates;
    ListNumbered(s.intake, s.store);
    var marked := Marked(s.store.frames, s.dispatcher);
    assert InStep(s.dispatcher, s.workers[i], s.stats[i], i, OnThread(marked, i, |s.workers|));
    MarkedDistinct(s.store.frames, s.dispatcher);
    OnThreadDistinct(marked, i, |s.workers|);
  }

  /** A published frame none of whose leaves share a thread is fully analysed, and so is such a frame
      that publication is offered, half-marked ones included. */
  lemma PublishedAreDissected(s: State, match_: Frame -> bool, w: nat, k: nat, j: nat)
    requires Reachable(s, match_) && Offered(s, w)
    requires k < w && k < |s.store.frames| && j < |s.store.frames[k].leaves|
    requires 0 < |s.workers| && OneLeafEach(s.store.frames[k], |s.workers|)
    ensures Analysed(s, LeavesOf(s.store.frames[k])[j])
  {
    hide Reachable, Offered, Conserved, Dispatching, Filtering;
    ReachableHolds(s, match_);
    ListNumbered(s.intake, s.store);
    assert s.store.frames[k].index == k + 1;
    WatermarkSafe(s, match_, w, k, j);
    var l := LeavesOf(s.store.frames[k])[j];
    if !Analysed(s, l) {
      var i: nat :| AtLastReport(s, i, l);
      var x := LastReported(s, match_, i, l);
      ShareGenuine(s, match_, i, l);
      ShareGenuine(s, match_, i, x);
      SameSlot(s.store.frames[k], |s.workers|, x.slot, j);
    }
  }

  lemma SameSlot(f: Frame, n: nat, a: nat, b: nat)
    requires 0 < n && OneLeafEach(f, n) && a < |f.leaves| && b < |f.leaves| && f.leaves[a] % n == f.leaves[b] % n
    ensures a == b
  {
  }

  /** The leaf that set a thread's last report. */
  lemma LastReported(s: State, match_: Frame -> bool, i: nat, l: Leaf) returns (x: Leaf)
    requires Invariant(s, match_) && AtLastReport(s, i, l)
    ensures x in s.workers[i].done && x.frame == l.frame
  {
    hide Marked, OnThread, Settled, Conserved;
    ListNumbered(s.intake, s.store);
    var marked := Marked(s.store.frames, s.dispatcher);
    assert InStep(s.dispatcher, s.workers[i], s.stats[i], i, OnThread(marked, i, |s.workers|));
    FramePositive(s, match_, i, l);
    x :| x in s.workers[i].done && x.frame == s.stats[i].dissected;
  }

  /** A leaf still to do, of a frame none of whose leaves share a thread, lies beyond its thread's last
      report. */
  lemma TodoBeyondReport(s: State, match_: Frame -> bool, i: nat, l: Leaf)
    requires Invariant(s, match_) && i < |s.workers| && l in Todo(s.dispatcher, s.workers[i], i)
    requires 1 <= l.frame <= |s.store.frames| && OneLeafEach(s.store.frames[l.frame - 1], |s.workers|)
    ensures s.stats[i].dissected < l.frame
  {
    hide Marked, OnThread, Settled, Conserved, Todo, NoDuplicates, Genuine;
    ListNumbered(s.intake, s.store);
    var marked, n := Marked(s.store.frames, s.dispatcher), |s.workers|;
    assert InStep(s.dispatcher, s.workers[i], s.stats[i], i, OnThread(marked, i, n));
    MarkedAscend(s.store.frames, s.dispatcher);
    ShareAscends(marked, i, n);
    var done, todo := s.workers[i].done, Todo(s.dispatcher, s.workers[i], i);
    TodoAfterDone(done, todo, l, s.stats[i].dissected);
    if s.stats[i].dissected == l.frame {
      var x :| x in done && x.frame == l.frame;
      ShareGenuine(s, match_, i, l);
      ShareGenuine(s, match_, i, x);
      SameLeaf(s.store.frames, n, x, l, i);
      ShareDistinct(s, match_, i);
      NotInBoth(done, todo, l);
    }
  }

  lemma SameLeaf(frames: seq<Frame>, n: nat, x: Leaf, l: Leaf, i: nat)
    requires 0 < n && Genuine(frames, x) && Genuine(frames, l) && x.frame == l.frame
    requires x.worker % n == i && l.worker % n == i && OneLeafEach(frames[l.frame - 1], n)
    ensures x == l
  {
    SameSlot(frames[l.frame - 1], n, x.slot, l.slot);
  }

  lemma NotInBoth<T(!new)>(a: seq<T>, b: seq<T>, x: T)
    requires NoDuplicates(a + b)
    ensures !(x in a && x in b)
  {
    forall j, k | 0 <= j < |a| && 0 <= k < |b| ensures a[j] != b[k] {
      assert (a + b)[j] == a[j] && (a + b)[|a| + k] == b[k];
    }
  }

  lemma FramePositive(s: State, match_: Frame -> bool, i: nat, l: Leaf)
    requires Invariant(s, match_) && i < |s.workers| && l in Todo(s.dispatcher, s.workers[i], i)
    ensures 0 < l.frame
  {
    hide Invariant, Todo;
    ShareGenuine(s, match_, i, l);
  }

  /** When no thread lags, the watermark is the last frame the dispatcher marked, and no frame is
      half marked. */
  lemma CaughtUp(s: State, match_: Frame -> bool)
    requires Reachable(s, match_)
    requires forall i :: 0 <= i < |s.stats| ==> !s.stats[i].Lagging()
    ensures Watermark(s.stats) == s.dispatcher.cur && s.dispatcher.leaf == 0
  {
    hide Reachable, InStep, OnThread, Watermark;
    ReachableHolds(s, match_);
    ListNumbered(s.intake, s.store);
    WatermarkSettles(s.dispatcher, s.workers, s.stats, s.store.frames);
    NothingBehind(s, match_);
    WatermarkBound(s.stats, s.dispatcher.cur);
  }

  /** With no thread lagging, the table has the last marked frame on some thread. */
  lemma NothingBehind(s: State, match_: Frame -> bool)
    requires Invariant(s, match_)
    requires forall i :: 0 <= i < |s.stats| ==> !s.stats[i].Lagging()
    ensures s.dispatcher.cur <= MaxPushed(s.stats) && s.dispatcher.leaf == 0
  {
    hide InStep, OnThread, Settled;
    ListNumbered(s.intake, s.store);
    var frames, d := s.store.frames, s.dispatcher;
    MaxPushedLeast(s.stats, MaxPushed(s.stats));
    if 0 < d.leaf {
      MarkedIsPushed(s, match_, LeavesOf(frames[d.cur])[0]);
    } else if 0 < d.cur {
      LeafListed(frames[..d.cur], d.cur - 1, 0);
      MarkedIsPushed(s, match_, LeavesOf(frames[d.cur - 1])[0]);
    }
  }

  /** The table knows of every marked leaf, and no report runs ahead of the marked frames. */
  lemma MarkedIsPushed(s: State, match_: Frame -> bool, l: Leaf)
    requires Invariant(s, match_) && l in Marked(s.store.frames, s.dispatcher)
    ensures var stat := s.stats[l.worker % |s.workers|];
            l.frame <= stat.pushed && stat.dissected <= s.dispatcher.cur
  {
    ListNumbered(s.intake, s.store);
    var d, n := s.dispatcher, |s.workers|;
    var i := l.worker % n;
    var marked := Marked(s.store.frames, d);
    MarkedAscend(s.store.frames, d);
    ShareAscends(marked, i, n);
    assert InStep(d, s.workers[i], s.stats[i], i, OnThread(marked, i, n));
  }

  lemma FilterHolds(s: State, match_: Frame -> bool)
    requires Invariant(s, match_)
    ensures s.pool.maxSeq <= |s.store.frames|
    ensures s.pool.frames == F.Matching(s.store.frames[..s.pool.maxSeq], match_)
    ensures s.pool.maxSeq == MaxOffset(s.scanners) && Numbered(s.store.frames)
  {
    ListNumbered(s.intake, s.store);
  }

  /** The concurrent display filter refines the sequential one: in every interleaving its result is
      exactly the sequential result over the frames up to `maxSeq`, and `maxSeq` is exactly how far
      the fastest filter thread has come. */
  lemma FilterRefines(s: State, match_: Frame -> bool)
    requires Reachable(s, match_)
    ensures s.pool.maxSeq <= |s.store.frames|
    ensures s.pool.frames == F.Matching(s.store.frames[..s.pool.maxSeq], match_)
    ensures forall k: nat :: k in s.pool.frames <==> 1 <= k <= s.pool.maxSeq && match_(s.store.frames[k - 1])
    ensures forall j :: 0 <= j < |s.scanners| ==> s.scanners[j].offset <= s.pool.maxSeq
    ensures s.pool.maxSeq == MaxOffset(s.scanners)
  {
    hide Reachable, Invariant, F.Matching;
    ReachableHolds(s, match_);
    FilterHolds(s, match_);
    var prefix := s.store.frames[..s.pool.maxSeq];
    forall k: nat ensures k in s.pool.frames <==> 1 <= k <= s.pool.maxSeq && match_(s.store.frames[k - 1]) {
      F.MatchingMember(prefix, match_, k);
    }
    MaxOffsetLeast(s.scanners, s.pool.maxSeq);
  }
}
