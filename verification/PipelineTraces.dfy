/** Runs with a record of what was computed and what was published: when published views can be
    withdrawn, and what is published when the pipeline comes to rest. */
module PipelineTraces {
  import opened Common
  import opened Frames
  import opened ThreadStats
  import opened Pipeline
  import opened PipelineIntake
  import opened PipelineDispatch
  import opened PipelineFilter
  import opened PipelineSafety
  import S = FrameStores

  /** The watermarks computed so far; which of them each thread has still to publish; which one was
      published last; before which computation some mark lowered the watermark; which publications
      came after that of a later computation; and whether every batch so far was as large as the
      threads' buffers and the supply allow. */
  datatype Log = Log(computed: seq<nat>, pending: map<nat, nat>, applied: Option<nat>,
                     lowered: set<nat>, overtaken: set<nat>, greedy: bool)

  const NO_LOG := Log([], map[], None, {}, {}, true)

  const FRAME_BUFFER := 128
  const BUFFER := 2048

  function Min(a: nat, b: nat): nat {
    if a < b then a else b
  }

  /** The step takes all there is, up to the size of the thread's buffer. */
  predicate Full(s: State, step: Step)
    requires Enabled(s, step)
  {
    match step
    case TakeFrames(t, n) => n == Min(FRAME_BUFFER, |s.intake.queue|)
    case Fetch(n) => n == Min(BUFFER, |s.store.frames| - s.dispatcher.offset)
    case TakeLayers(i, n) => n == Min(BUFFER, |s.workers[i].queue|)
    case Scan(j, n) => n == Min(BUFFER, |s.store.views| - s.scanners[j].offset)
    case _ => true
  }

  function NextLeaf(s: State): Leaf
    requires Enabled(s, Mark)
  {
    LeavesOf(s.store.frames[s.dispatcher.cur])[s.dispatcher.leaf]
  }

  /** The next mark is for a thread that is idle with an older report than the watermark. */
  predicate Lowers(s: State)
    requires Enabled(s, Mark)
  {
    var own := s.stats[NextLeaf(s).worker % |s.dispatcher.layerMap|];
    !own.Lagging() && own.dissected < Watermark(s.stats)
  }

  function Reported(s: State, i: nat): nat
    requires Enabled(s, ReportDone(i))
  {
    Watermark(Note(s.stats, i, 0, MaxFrame(s.workers[i].batch)))
  }

  function PublishedOne(log: Log, i: nat): Log {
    if i !in log.pending then log
    else
      var p := log.pending[i];
      log.(applied := Some(p), pending := log.pending - {i},
           overtaken := if log.applied.Some? && p < log.applied.value then log.overtaken + {p} else log.overtaken)
  }

  function Logged(s: State, step: Step, log: Log): Log
    requires Enabled(s, step)
  {
    match step
    case Mark => if Lowers(s) then log.(lowered := log.lowered + {|log.computed|}) else log
    case ReportDone(i) => log.(computed := log.computed + [Reported(s, i)], pending := log.pending[i := |log.computed|])
    case Publish(i) => PublishedOne(log, i)
    case _ => if Full(s, step) then log else log.(greedy := false)
  }

  function FinalLog(s: State, steps: seq<Step>, match_: Frame -> bool, log: Log): Log
    requires IsRun(s, steps, match_)
    decreases |steps|
  {
    if steps == [] then log else FinalLog(After(s, steps[0], match_), steps[1..], match_, Logged(s, steps[0], log))
  }

  /** A state and the record of a run that leads there. */
  ghost predicate Traced(s: State, log: Log, match_: Frame -> bool) {
    exists producers: nat, dissectors: nat, threads: nat, filters: nat, steps: seq<Step> ::
      0 < threads && TracedBy(s, log, match_, producers, dissectors, threads, filters, steps)
  }

  ghost predicate TracedBy(s: State, log: Log, match_: Frame -> bool,
                           producers: nat, dissectors: nat, threads: nat, filters: nat, steps: seq<Step>)
  {
    var start := Initial(producers, dissectors, threads, filters);
    IsRun(start, steps, match_) && s == Final(start, steps, match_) && log == FinalLog(start, steps, match_, NO_LOG)
  }

  lemma TracedReachable(s: State, log: Log, match_: Frame -> bool)
    requires Traced(s, log, match_)
    ensures Reachable(s, match_)
  {
    var producers: nat, dissectors: nat, threads: nat, filters: nat, steps: seq<Step> :|
      0 < threads && TracedBy(s, log, match_, producers, dissectors, threads, filters, steps);
    assert ReachedBy(s, match_, producers, dissectors, threads, filters, steps);
  }

  // ---- what the record says about the state

  /** How many views the last publication left. */
  function Applied(log: Log): nat {
    if log.applied.Some? && log.applied.value < |log.computed| then log.computed[log.applied.value] else 0
  }

  /** The record tells which watermark each thread holds and how many views are published. */
  ghost predicate Accurate(workers: seq<Worker>, views: nat, log: Log) {
    && (forall i: nat :: i < |workers| && workers[i].publish.Some? ==> i in log.pending)
    && (forall i: nat :: i in log.pending ==> Holds(workers, log, i))
    && (log.applied.Some? ==> log.applied.value < |log.computed|)
    && views == Applied(log)
  }

  ghost predicate Holds(workers: seq<Worker>, log: Log, i: nat)
    requires i in log.pending
  {
    i < |workers| && log.pending[i] < |log.computed| && workers[i].publish == Some(log.computed[log.pending[i]])
  }

  /** The watermark falls only where a mark lowered it. */
  ghost predicate Explained(stats: seq<Stat>, log: Log) {
    && (forall k :: 0 < k < |log.computed| && log.computed[k] < log.computed[k - 1] ==> k in log.lowered)
    && (log.computed != [] && Watermark(stats) < log.computed[|log.computed| - 1] ==> |log.computed| in log.lowered)
  }

  ghost predicate Busy(d: Dispatcher, workers: seq<Worker>) {
    exists i :: 0 <= i < |workers| && i < |d.layerMap| && Todo(d, workers[i], i) != []
  }

  /** The last watermark computed is the table's, unless there is work to do. */
  ghost predicate Current(d: Dispatcher, workers: seq<Worker>, stats: seq<Stat>, log: Log) {
    && (log.computed == [] ==> forall i :: 0 <= i < |workers| ==> workers[i].done == [])
    && (log.computed != [] && Watermark(stats) != log.computed[|log.computed| - 1] ==> Busy(d, workers))
  }

  ghost predicate LogHolds(s: State, log: Log) {
    && Accurate(s.workers, |s.store.views|, log)
    && Explained(s.stats, log)
    && Current(s.dispatcher, s.workers, s.stats, log)
  }

  lemma MarkLowers(s: State, match_: Frame -> bool)
    requires Invariant(s, match_) && Enabled(s, Mark)
    ensures Watermark(After(s, Mark, match_).stats) < Watermark(s.stats) <==> Lowers(s)
  {
    hide Invariant, Watermark, MaxPushed;
    var leaf := NextLeaf(s);
    MarkedInOrder(s, match_);
    MarkLowersIff(s.stats, leaf.worker % |s.dispatcher.layerMap|, leaf.frame);
  }

  /** Frames are marked in order. */
  lemma MarkedInOrder(s: State, match_: Frame -> bool)
    requires Invariant(s, match_) && Enabled(s, Mark)
    ensures MaxPushed(s.stats) <= NextLeaf(s).frame
  {
    hide Invariant, Dispatching, NextLeaf;
    HoldsDispatching(s, match_);
    PushedBounded(s.store.frames, s.dispatcher, s.workers, s.stats, |s.store.views|);
    NextLeafFrame(s);
    MaxPushedLeast(s.stats, NextLeaf(s).frame);
  }

  lemma NextLeafFrame(s: State)
    requires Enabled(s, Mark) && Numbered(s.store.frames)
    ensures NextLeaf(s).frame == s.dispatcher.cur + 1
  {
  }

  lemma PushedBounded(frames: seq<Frame>, d: Dispatcher, workers: seq<Worker>, stats: seq<Stat>, published: nat)
    requires Dispatching(frames, d, workers, stats, published)
    ensures forall i :: 0 <= i < |stats| ==> stats[i].pushed <= d.cur + 1
  {
    hide OnThread, Marked, Settled, InStep;
    forall i | 0 <= i < |stats| ensures stats[i].pushed <= d.cur + 1 {
      PushedBound(d, workers[i], stats[i], i, OnThread(Marked(frames, d), i, |workers|));
    }
  }

  lemma PushedBound(d: Dispatcher, w: Worker, stat: Stat, i: nat, share: seq<Leaf>)
    requires i < |d.layerMap| && InStep(d, w, stat, i, share)
    ensures stat.pushed <= d.cur + 1
  {
  }

  lemma MarkHolds(s: State, match_: Frame -> bool, log: Log)
    requires Invariant(s, match_) && LogHolds(s, log) && Enabled(s, Mark)
    ensures LogHolds(After(s, Mark, match_), Logged(s, Mark, log))
  {
    hide Invariant, Watermark;
    MarkLowers(s, match_);
    var leaf, d := NextLeaf(s), After(s, Mark, match_).dispatcher;
    var t := leaf.worker % |s.dispatcher.layerMap|;
    assert d.layerMap[t][|s.dispatcher.layerMap[t]|] == leaf;
    assert Todo(d, s.workers[t], t) != [];
  }

  lemma ReportHolds(s: State, match_: Frame -> bool, log: Log, i: nat)
    requires LogHolds(s, log) && Enabled(s, ReportDone(i))
    ensures LogHolds(After(s, ReportDone(i), match_), Logged(s, ReportDone(i), log))
  {
    hide Watermark;
    ReportNeverLowers(s.stats, i, MaxFrame(s.workers[i].batch));
  }

  lemma PublishAccurate(workers: seq<Worker>, views: nat, log: Log, i: nat)
    requires Accurate(workers, views, log) && i < |workers| && workers[i].publish.Some?
    ensures Accurate(workers[i := workers[i].(publish := None)], workers[i].publish.value, PublishedOne(log, i))
  {
    var after, next := workers[i := workers[i].(publish := None)], PublishedOne(log, i);
    assert Holds(workers, log, i);
    forall j: nat | j in next.pending ensures Holds(after, next, j) {
      assert Holds(workers, log, j);
    }
  }

  lemma PublishBusy(d: Dispatcher, workers: seq<Worker>, i: nat)
    requires i < |workers| && Busy(d, workers)
    ensures Busy(d, workers[i := workers[i].(publish := None)])
  {
    var j :| 0 <= j < |workers| && j < |d.layerMap| && Todo(d, workers[j], j) != [];
    assert Todo(d, workers[i := workers[i].(publish := None)][j], j) == Todo(d, workers[j], j);
  }

  lemma PublishHolds(s: State, match_: Frame -> bool, log: Log, i: nat)
    requires LogHolds(s, log) && Enabled(s, Publish(i)) && s.workers[i].publish.value <= |s.store.frames|
    ensures LogHolds(After(s, Publish(i), match_), Logged(s, Publish(i), log))
  {
    hide Watermark, Accurate, Busy;
    PublishAccurate(s.workers, |s.store.views|, log, i);
    if Busy(s.dispatcher, s.workers) {
      PublishBusy(s.dispatcher, s.workers, i);
    }
    UpdatedSize(s.store, s.workers[i].publish.value);
  }

  lemma UpdatedSize(store: S.Store, index: nat)
    requires index <= |store.frames|
    ensures |S.Update(store, index).views| == index
  {
  }

  /** The other steps leave watermarks, publications and finished work alone, and keep work to do. */
  ghost predicate Alike(s: State, t: State) {
    && |t.store.views| == |s.store.views| && t.stats == s.stats && |t.workers| == |s.workers|
    && (forall j :: 0 <= j < |s.workers| ==>
        t.workers[j].publish == s.workers[j].publish && t.workers[j].done == s.workers[j].done)
    && (Busy(s.dispatcher, s.workers) ==> Busy(t.dispatcher, t.workers))
  }

  lemma OtherAlike(s: State, step: Step, match_: Frame -> bool)
    requires Enabled(s, step) && !step.Mark? && !step.ReportDone? && !step.Publish?
    ensures Alike(s, After(s, step, match_))
  {
    hide Watermark, S.Insert, Busy;
    match step
    case Deliver(t) => S.InsertExtends(s.store, s.intake.working[t]);
    case TakeLayers(i, n) => TakeBusy(s, i, n, match_);
    case Push => PushBusy(s, match_);
    case Fetch(n) => FetchBusy(s, n, match_);
    case _ =>
  }

  lemma TakeBusy(s: State, i: nat, n: nat, match_: Frame -> bool)
    requires Enabled(s, TakeLayers(i, n))
    ensures var t := After(s, TakeLayers(i, n), match_); Busy(s.dispatcher, s.workers) ==> Busy(t.dispatcher, t.workers)
  {
    if Busy(s.dispatcher, s.workers) {
      var t := After(s, TakeLayers(i, n), match_);
      var j :| 0 <= j < |s.workers| && j < |s.dispatcher.layerMap| && Todo(s.dispatcher, s.workers[j], j) != [];
      assert |Todo(t.dispatcher, t.workers[j], j)| == |Todo(s.dispatcher, s.workers[j], j)|;
    }
  }

  lemma PushBusy(s: State, match_: Frame -> bool)
    requires Enabled(s, Push)
    ensures var t := After(s, Push, match_); Busy(s.dispatcher, s.workers) ==> Busy(t.dispatcher, t.workers)
  {
    if Busy(s.dispatcher, s.workers) {
      var t := After(s, Push, match_);
      var j :| 0 <= j < |s.workers| && j < |s.dispatcher.layerMap| && Todo(s.dispatcher, s.workers[j], j) != [];
      assert |Todo(t.dispatcher, t.workers[j], j)| == |Todo(s.dispatcher, s.workers[j], j)|;
    }
  }

  lemma FetchBusy(s: State, n: nat, match_: Frame -> bool)
    requires Enabled(s, Fetch(n))
    ensures var t := After(s, Fetch(n), match_); Busy(s.dispatcher, s.workers) ==> Busy(t.dispatcher, t.workers)
  {
    if Busy(s.dispatcher, s.workers) {
      var t := After(s, Fetch(n), match_);
      var j :| 0 <= j < |s.workers| && j < |s.dispatcher.layerMap| && Todo(s.dispatcher, s.workers[j], j) != [];
      assert Todo(t.dispatcher, t.workers[j], j) == Todo(s.dispatcher, s.workers[j], j);
    }
  }

  lemma AlikeHolds(s: State, t: State, log: Log, log': Log)
    requires LogHolds(s, log) && Alike(s, t) && log' == log.(greedy := log'.greedy)
    ensures LogHolds(t, log')
  {
    hide Watermark, Busy;
    forall i: nat | i in log'.pending ensures Holds(t.workers, log', i) {
      assert Holds(s.workers, log, i);
    }
  }

  lemma OtherLogged(s: State, step: Step, log: Log)
    requires Enabled(s, step) && !step.Mark? && !step.ReportDone? && !step.Publish?
    ensures Logged(s, step, log) == log.(greedy := Logged(s, step, log).greedy)
  {
  }

  lemma StepHolds(s: State, step: Step, match_: Frame -> bool, log: Log)
    requires Invariant(s, match_) && LogHolds(s, log) && Enabled(s, step)
    requires step.Publish? ==> s.workers[step.thread].publish.value <= |s.store.frames|
    ensures LogHolds(After(s, step, match_), Logged(s, step, log))
  {
    hide Invariant, LogHolds, Alike, Logged;
    match step
    case Mark => MarkHolds(s, match_, log);
    case ReportDone(i) => ReportHolds(s, match_, log, i);
    case Publish(i) => PublishHolds(s, match_, log, i);
    case _ =>
      OtherAlike(s, step, match_);
      OtherLogged(s, step, log);
      AlikeHolds(s, After(s, step, match_), log, Logged(s, step, log));
  }

  lemma {:induction false} RunHolds(s: State, steps: seq<Step>, match_: Frame -> bool, log: Log)
    requires Invariant(s, match_) && LogHolds(s, log) && IsRun(s, steps, match_)
    ensures LogHolds(Final(s, steps, match_), FinalLog(s, steps, match_, log))
    decreases |steps|
  {
    hide LogHolds, Invariant;
    if steps != [] {
      StepKeeps(s, steps[0], match_);
      StepHolds(s, steps[0], match_, log);
      RunHolds(After(s, steps[0], match_), steps[1..], match_, Logged(s, steps[0], log));
    }
  }

  lemma InitialLog(producers: nat, dissectors: nat, threads: nat, filters: nat)
    ensures LogHolds(Initial(producers, dissectors, threads, filters), NO_LOG)
  {
  }

  lemma TracedHolds(s: State, log: Log, match_: Frame -> bool)
    requires Traced(s, log, match_)
    ensures Invariant(s, match_) && LogHolds(s, log)
  {
    hide LogHolds, Invariant;
    var producers: nat, dissectors: nat, threads: nat, filters: nat, steps: seq<Step> :|
      0 < threads && TracedBy(s, log, match_, producers, dissectors, threads, filters, steps);
    InitialHolds(producers, dissectors, threads, filters, match_);
    InitialLog(producers, dissectors, threads, filters);
    RunKeeps(Initial(producers, dissectors, threads, filters), steps, match_);
    RunHolds(Initial(producers, dissectors, threads, filters), steps, match_, NO_LOG);
  }

  // ---- when views are withdrawn

  lemma {:induction false} FallsSomewhere(values: seq<nat>, a: nat, b: nat) returns (k: nat)
    requires a < b < |values| && values[b] < values[a]
    ensures a < k <= b && values[k] < values[k - 1]
    decreases b - a
  {
    k := b;
    if values[b - 1] <= values[b] {
      k := FallsSomewhere(values, a, b - 1);
    }
  }

  /** A publication withdraws views only if it was overtaken by one computed later, or some mark
      lowered the watermark between the computation last published and its own. */
  lemma WithdrawnBecause(s: State, log: Log, match_: Frame -> bool, i: nat)
    requires Traced(s, log, match_) && Enabled(s, Publish(i))
    requires s.workers[i].publish.value < |s.store.views|
    ensures i in log.pending && log.applied.Some?
    ensures log.pending[i] < log.applied.value
         || exists k :: k in log.lowered && log.applied.value < k <= log.pending[i]
  {
    hide Traced, Invariant, Accurate, Explained, Current;
    TracedHolds(s, log, match_);
    LogWithdrawn(s.workers, |s.store.views|, s.stats, log, i);
  }

  lemma LogWithdrawn(workers: seq<Worker>, views: nat, stats: seq<Stat>, log: Log, i: nat)
    requires Accurate(workers, views, log) && Explained(stats, log)
    requires i < |workers| && workers[i].publish.Some? && workers[i].publish.value < views
    ensures i in log.pending && log.applied.Some?
    ensures log.pending[i] < log.applied.value
         || exists k :: k in log.lowered && log.applied.value < k <= log.pending[i]
  {
    hide Watermark;
    assert Holds(workers, log, i);
    var p, a := log.pending[i], log.applied.value;
    if a <= p {
      var k := FallsSomewhere(log.computed, a, p);
      assert k in log.lowered;
    }
  }

  lemma {:induction false} RecordGrows(s: State, steps: seq<Step>, match_: Frame -> bool, log: Log)
    requires IsRun(s, steps, match_)
    ensures var end := FinalLog(s, steps, match_, log); log.lowered <= end.lowered && log.overtaken <= end.overtaken
    decreases |steps|
  {
    hide Watermark;
    if steps != [] {
      RecordGrows(After(s, steps[0], match_), steps[1..], match_, Logged(s, steps[0], log));
    }
  }

  /** While no mark lowers the watermark and no publication is overtaken, no step withdraws a view. */
  lemma StepWithdrawsNothing(s: State, log: Log, step: Step, match_: Frame -> bool)
    requires Invariant(s, match_) && LogHolds(s, log) && Enabled(s, step)
    requires step.Publish? ==> s.workers[step.thread].publish.value <= |s.store.frames|
    requires Logged(s, step, log).lowered == {} && Logged(s, step, log).overtaken == {}
    ensures |s.store.views| <= |After(s, step, match_).store.views|
  {
    hide Invariant, Watermark, S.Insert;
    if step.Deliver? {
      S.InsertExtends(s.store, s.intake.working[step.dissector]);
    } else if step.Publish? {
      var i := step.thread;
      assert Holds(s.workers, log, i);
      var value, size := s.workers[i].publish.value, |s.store.views|;
      assert |After(s, step, match_).store.views| == value;
      if value < size && log.applied.Some? && log.applied.value < log.pending[i] {
        var k := FallsSomewhere(log.computed, log.applied.value, log.pending[i]);
      }
    }
  }

  lemma {:induction false} RunWithdrawsNothing(s: State, log: Log, steps: seq<Step>, match_: Frame -> bool)
    requires Invariant(s, match_) && LogHolds(s, log) && IsRun(s, steps, match_)
    requires FinalLog(s, steps, match_, log).lowered == {} && FinalLog(s, steps, match_, log).overtaken == {}
    ensures |s.store.views| <= |Final(s, steps, match_).store.views|
    decreases |steps|
  {
    hide LogHolds, Invariant, Logged, After;
    if steps != [] {
      var next, after := Logged(s, steps[0], log), After(s, steps[0], match_);
      RecordGrows(after, steps[1..], match_, next);
      StepKeeps(s, steps[0], match_);
      StepHolds(s, steps[0], match_, log);
      StepWithdrawsNothing(s, log, steps[0], match_);
      RunWithdrawsNothing(after, next, steps[1..], match_);
    }
  }

  /** In a run in which no mark is for an idle thread with an older report than the watermark, and no
      watermark is published after one computed later, the published views only grow. */
  lemma ViewsNeverShrink(s: State, log: Log, steps: seq<Step>, match_: Frame -> bool)
    requires Traced(s, log, match_) && IsRun(s, steps, match_)
    requires FinalLog(s, steps, match_, log).lowered == {} && FinalLog(s, steps, match_, log).overtaken == {}
    ensures |s.store.views| <= |Final(s, steps, match_).store.views|
  {
    hide Traced, LogHolds, Invariant;
    TracedHolds(s, log, match_);
    RunWithdrawsNothing(s, log, steps, match_);
  }

  // ---- what a computed watermark is good for later

  /** No two leaves of any frame go to the same stream thread. */
  ghost predicate OneLeafEverywhere(frames: seq<Frame>, n: nat)
    requires 0 < n
  {
    forall k :: 0 <= k < |frames| ==> OneLeafEach(frames[k], n)
  }

  /** Computed watermarks stay settled; with one leaf per frame and thread all but the last fall short
      of the frame list. */
  ghost predicate Spent(s: State, log: Log)
    requires 0 < |s.workers| == |s.stats| == |s.dispatcher.layerMap|
  {
    && (forall w :: w in log.computed ==> Settled(s.dispatcher, s.workers, s.stats, w))
    && (OneLeafEverywhere(s.store.frames, |s.workers|) ==>
          forall k :: 0 <= k < |log.computed| - 1 ==> log.computed[k] < |s.store.frames|)
  }

  /** A settled index stays settled, whatever happens. */
  lemma SettledStep(s: State, step: Step, match_: Frame -> bool, w: nat)
    requires Invariant(s, match_) && Enabled(s, step) && Settled(s.dispatcher, s.workers, s.stats, w)
    requires step.Publish? ==> s.workers[step.thread].publish.value <= |s.store.frames|
    ensures var t := After(s, step, match_);
            && |t.workers| == |t.stats| == |t.dispatcher.layerMap| == |s.workers|
            && Settled(t.dispatcher, t.workers, t.stats, w)
  {
    hide Conserved, Filtering, InStep, Settled, Watermark, S.Insert, Marked, OnThread;
    ListNumbered(s.intake, s.store);
    var frames, d, workers, stats := s.store.frames, s.dispatcher, s.workers, s.stats;
    match step
    case Mark => MarkKeeps(frames, d, workers, stats, w);
    case Push => PushKeeps(frames, d, workers, stats, w);
    case Fetch(n) => FetchKeeps(frames, d, workers, stats, w, n);
    case TakeLayers(i, n) => TakeLayersKeeps(frames, d, workers, stats, w, i, n);
    case ReportDone(i) => ReportKeeps(frames, d, workers, stats, w, i);
    case Publish(i) => PublishSettled(frames, d, workers, stats, w, i);
    case _ =>
  }

  lemma PublishSettled(frames: seq<Frame>, d: Dispatcher, workers: seq<Worker>, stats: seq<Stat>, w: nat, t: nat)
    requires Dispatching(frames, d, workers, stats, w) && t < |workers| && workers[t].publish.Some?
    ensures Settled(d, workers[t := workers[t].(publish := None)], stats, w)
  {
    hide Settled;
    var none := workers[t].(publish := None);
    assert InStep(d, workers[t], stats[t], t, OnThread(Marked(frames, d), t, |workers|));
    assert stats[t := stats[t]] == stats;
    WorkerKeeps(frames, d, workers, stats, w, t, none, stats[t]);
  }

  lemma ReportedSettles(s: State, match_: Frame -> bool, i: nat)
    requires Invariant(s, match_) && Enabled(s, ReportDone(i))
    ensures var t := After(s, ReportDone(i), match_);
            && |t.workers| == |t.stats| == |t.dispatcher.layerMap| == |s.workers|
            && Settled(t.dispatcher, t.workers, t.stats, Reported(s, i))
  {
    hide Conserved, Filtering, InStep, Settled, Watermark, Marked, OnThread;
    StepKeeps(s, ReportDone(i), match_);
    var t := After(s, ReportDone(i), match_);
    WatermarkSettles(t.dispatcher, t.workers, t.stats, t.store.frames);
  }

  /** A watermark computed before a report falls short of the frames in the batch reported. */
  lemma ShortOfBatch(s: State, match_: Frame -> bool, i: nat, w: nat)
    requires Invariant(s, match_) && Enabled(s, ReportDone(i)) && Settled(s.dispatcher, s.workers, s.stats, w)
    requires 0 < |s.workers| && OneLeafEverywhere(s.store.frames, |s.workers|)
    ensures w < |s.store.frames|
  {
    hide Conserved, Filtering, InStep, Marked, OnThread, Genuine;
    var l := s.workers[i].batch[0];
    assert l in Todo(s.dispatcher, s.workers[i], i);
    ShareGenuine(s, match_, i, l);
    assert 1 <= l.frame <= |s.store.frames| by {
      GenuineBounds(s.store.frames, l);
    }
    TodoBeyondReport(s, match_, i, l);
  }

  lemma GenuineBounds(frames: seq<Frame>, l: Leaf)
    requires Genuine(frames, l)
    ensures 1 <= l.frame <= |frames|
  {
  }

  lemma SpentStep(s: State, step: Step, match_: Frame -> bool, log: Log)
    requires Invariant(s, match_) && Enabled(s, step) && Spent(s, log)
    requires step.Publish? ==> s.workers[step.thread].publish.value <= |s.store.frames|
    ensures Invariant(After(s, step, match_), match_) && Spent(After(s, step, match_), Logged(s, step, log))
  {
    hide Conserved, Filtering, InStep, Settled, Watermark, Marked, OnThread, OneLeafEach, Enabled, After, Logged;
    StepKeeps(s, step, match_);
    var t, next := After(s, step, match_), Logged(s, step, log);
    ComputedGrows(s, step, log);
    FramesGrow(s, step, match_);
    forall w | w in log.computed ensures |t.workers| == |s.workers| && Settled(t.dispatcher, t.workers, t.stats, w) {
      SettledStep(s, step, match_, w);
    }
    if step.ReportDone? {
      ReportedSettles(s, match_, step.thread);
    }
    if OneLeafEverywhere(t.store.frames, |t.workers|) {
      assert OneLeafEverywhere(s.store.frames, |s.workers|);
      if step.ReportDone? && log.computed != [] {
        var w := log.computed[|log.computed| - 1];
        assert w in log.computed;
        ShortOfBatch(s, match_, step.thread, w);
      }
    }
  }

  lemma ComputedGrows(s: State, step: Step, log: Log)
    requires Enabled(s, step)
    ensures Logged(s, step, log).computed == log.computed + if step.ReportDone? then [Reported(s, step.thread)] else []
  {
  }

  lemma FramesGrow(s: State, step: Step, match_: Frame -> bool)
    requires Enabled(s, step)
    requires step.Publish? ==> s.workers[step.thread].publish.value <= |s.store.frames|
    ensures s.store.frames <= After(s, step, match_).store.frames && |After(s, step, match_).workers| == |s.workers|
  {
    hide S.Insert;
    if step.Deliver? {
      S.InsertExtends(s.store, s.intake.working[step.dissector]);
    }
  }

  lemma {:induction false} SpentRun(s: State, steps: seq<Step>, match_: Frame -> bool, log: Log)
    requires Invariant(s, match_) && Spent(s, log) && IsRun(s, steps, match_)
    ensures Invariant(Final(s, steps, match_), match_)
        && Spent(Final(s, steps, match_), FinalLog(s, steps, match_, log))
    decreases |steps|
  {
    hide Conserved, Filtering, Dispatching, Spent, After, Logged;
    if steps != [] {
      SpentStep(s, steps[0], match_, log);
      SpentRun(After(s, steps[0], match_), steps[1..], match_, Logged(s, steps[0], log));
    }
  }

  lemma TracedSpent(s: State, log: Log, match_: Frame -> bool)
    requires Traced(s, log, match_)
    ensures Invariant(s, match_) && Spent(s, log)
  {
    hide Conserved, Filtering;
    var producers: nat, dissectors: nat, threads: nat, filters: nat, steps: seq<Step> :|
      0 < threads && TracedBy(s, log, match_, producers, dissectors, threads, filters, steps);
    InitialHolds(producers, dissectors, threads, filters, match_);
    SpentRun(Initial(producers, dissectors, threads, filters), steps, match_, NO_LOG);
  }

  // ---- at rest

  /** Nothing is under way anywhere. */
  ghost predicate AtRest(s: State) {
    && Drained(s.intake)
    && s.dispatcher.cur == s.dispatcher.offset == |s.store.frames|
    && !Busy(s.dispatcher, s.workers)
    && forall i :: 0 <= i < |s.workers| ==> s.workers[i].publish.None?
  }

  lemma RestNotLagging(s: State, match_: Frame -> bool, i: nat)
    requires Invariant(s, match_) && AtRest(s) && i < |s.stats|
    ensures !s.stats[i].Lagging()
  {
    hide Marked, OnThread, Settled;
    var share := OnThread(Marked(s.store.frames, s.dispatcher), i, |s.workers|);
    assert InStep(s.dispatcher, s.workers[i], s.stats[i], i, share);
    assert Todo(s.dispatcher, s.workers[i], i) == [];
    assert s.workers[i].done == share;
  }

  /** Every leaf of a listed frame has been analysed by its thread. */
  lemma RestDone(s: State, match_: Frame -> bool, l: Leaf)
    requires Invariant(s, match_) && AtRest(s) && l in AllLeaves(s.store.frames)
    ensures 0 < |s.workers| && l in s.workers[l.worker % |s.workers|].done
  {
    hide Settled, Conserved, Filtering;
    var frames, d, n := s.store.frames, s.dispatcher, |s.workers|;
    assert frames[..d.cur] == frames;
    var i := l.worker % n;
    OnThreadMember(Marked(frames, d), i, n, l);
    assert InStep(d, s.workers[i], s.stats[i], i, OnThread(Marked(frames, d), i, n));
    assert Todo(d, s.workers[i], i) == [];
    assert l in s.workers[i].done + [];
  }

  /** When the pipeline has come to rest everything issued is listed and analysed, and what is
      published is what the last publication said: everything exactly if that is what was computed
      last. */
  lemma RestPublishes(s: State, log: Log, match_: Frame -> bool)
    requires Traced(s, log, match_) && AtRest(s) && s.store.frames != []
    ensures s.store.frames == s.intake.issued
    ensures forall l :: l in AllLeaves(s.store.frames) ==> Analysed(s, l)
    ensures log.computed != [] && log.computed[|log.computed| - 1] == |s.store.frames|
    ensures |s.store.views| == |s.store.frames| <==> Applied(log) == log.computed[|log.computed| - 1]
    ensures log.applied == Some(|log.computed| - 1) ==> |s.store.views| == |s.store.frames|
  {
    hide Traced, Invariant, Watermark, AtRest, Busy, Reachable;
    TracedHolds(s, log, match_);
    TracedReachable(s, log, match_);
    PipelineConserves(s, match_);
    forall i | 0 <= i < |s.stats| ensures !s.stats[i].Lagging() {
      RestNotLagging(s, match_, i);
    }
    CaughtUp(s, match_);
    forall l | l in AllLeaves(s.store.frames) ensures Analysed(s, l) {
      RestDone(s, match_, l);
    }
    FirstLeaf(s, match_);
    RestIdle(s);
  }

  lemma FirstLeaf(s: State, match_: Frame -> bool)
    requires Invariant(s, match_) && s.store.frames != []
    ensures LeavesOf(s.store.frames[0]) != [] && LeavesOf(s.store.frames[0])[0] in AllLeaves(s.store.frames)
  {
    hide Dispatching, Filtering;
    ListNumbered(s.intake, s.store);
    LeafListed(s.store.frames, 0, 0);
  }

  lemma RestIdle(s: State)
    requires AtRest(s)
    ensures !Busy(s.dispatcher, s.workers) && Drained(s.intake) && s.dispatcher.cur == |s.store.frames|
  {
  }

  /** With one leaf per frame and thread, everything is published exactly if the last publication was
      that of the last computation. */
  lemma RestPublishesIff(s: State, log: Log, match_: Frame -> bool)
    requires Traced(s, log, match_) && AtRest(s) && s.store.frames != []
    requires 0 < |s.workers| && OneLeafEverywhere(s.store.frames, |s.workers|)
    ensures log.computed != []
    ensures |s.store.views| == |s.store.frames| <==> log.applied == Some(|log.computed| - 1)
  {
    hide Traced, Watermark, AtRest, OneLeafEach, Settled, Dispatching, Conserved, Filtering, Current, Explained;
    RestPublishes(s, log, match_);
    TracedHolds(s, log, match_);
    TracedSpent(s, log, match_);
  }
}
