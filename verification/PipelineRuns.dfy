/** Runs of the threads, with full batches, that bound what the theorems about all runs can promise. */
module PipelineRuns {
  import opened Common
  import opened Frames
  import opened ThreadStats
  import opened Pipeline
  import opened PipelineDispatch
  import opened PipelineSafety
  import opened PipelineTraces
  import S = FrameStores
  import RB = ReorderBuffer

  lemma {:induction false} RunAppend(s: State, steps: seq<Step>, log: Log, last: Step, match_: Frame -> bool)
    requires IsRun(s, steps, match_)
    requires var end := Final(s, steps, match_);
             && Enabled(end, last)
             && (last.Publish? ==> end.workers[last.thread].publish.value <= |end.store.frames|)
    ensures IsRun(s, steps + [last], match_)
    ensures Final(s, steps + [last], match_) == After(Final(s, steps, match_), last, match_)
    ensures FinalLog(s, steps + [last], match_, log)
        == Logged(Final(s, steps, match_), last, FinalLog(s, steps, match_, log))
    decreases |steps|
  {
    hide After, Logged, Enabled;
    var all := steps + [last];
    if steps == [] {
      assert all[1..] == [];
      var next := After(s, last, match_);
      assert IsRun(next, all[1..], match_);
      assert FinalLog(next, all[1..], match_, Logged(s, last, log)) == Logged(s, last, log);
    } else {
      assert all[0] == steps[0] && all[1..] == steps[1..] + [last];
      RunAppend(After(s, steps[0], match_), steps[1..], Logged(s, steps[0], log), last, match_);
    }
  }

  /** One more step of a run. */
  lemma Go(s: State, log: Log, step: Step, match_: Frame -> bool) returns (t: State, next: Log)
    requires Traced(s, log, match_) && Enabled(s, step)
    ensures step.Publish? ==> s.workers[step.thread].publish.value <= |s.store.frames|
    ensures t == After(s, step, match_) && next == Logged(s, step, log) && Traced(t, next, match_)
  {
    hide Invariant, LogHolds, After, Logged, Enabled, IsRun, Final, FinalLog, Initial;
    TracedHolds(s, log, match_);
    StepKeeps(s, step, match_);
    t, next := After(s, step, match_), Logged(s, step, log);
    var producers: nat, dissectors: nat, threads: nat, filters: nat, steps: seq<Step> :|
      0 < threads && TracedBy(s, log, match_, producers, dissectors, threads, filters, steps);
    RunAppend(Initial(producers, dissectors, threads, filters), steps, NO_LOG, step, match_);
    assert TracedBy(t, next, match_, producers, dissectors, threads, filters, steps + [step]);
  }

  lemma InitialTraced(producers: nat, dissectors: nat, threads: nat, filters: nat, match_: Frame -> bool)
    requires 0 < threads
    ensures Traced(Initial(producers, dissectors, threads, filters), NO_LOG, match_)
  {
    assert TracedBy(Initial(producers, dissectors, threads, filters), NO_LOG, match_, producers, dissectors, threads,
        filters, []);
  }

  // ---- delivering a frame

  /** One producer, one packet dissector thread, and everything issued is in the store. */
  ghost predicate Supplied(s: State) {
    && s.intake == Intake(s.intake.issued, [[]], [], [[]])
    && s.store.maxSeq == |s.store.frames| == |s.intake.issued|
    && forall k :: k in s.store.sequence ==> k <= s.store.maxSeq
  }

  function NextFrame(s: State, leaves: seq<nat>): Frame {
    Frame(|s.intake.issued| + 1, leaves)
  }

  function WithFrame(s: State, f: Frame): State {
    s.(intake := Intake(s.intake.issued + [f], [[]], [], [[]]),
       store := S.Store(map[f.index := f], s.store.frames + [f], s.store.views, f.index))
  }

  /** A frame is captured, dissected and delivered. */
  lemma DeliverOne(s: State, log: Log, leaves: seq<nat>, match_: Frame -> bool) returns (t: State)
    requires Traced(s, log, match_) && Supplied(s) && leaves != []
    ensures t == WithFrame(s, NextFrame(s, leaves)) && Traced(t, log, match_) && Supplied(t)
  {
    hide Traced;
    var f := NextFrame(s, leaves);
    var issued := s.intake.issued + [f];
    assert [] + [f] == [f] && [f][..1] == [f] && [f][1..] == [];
    var next: Log;
    t, next := Go(s, log, Number(0, leaves), match_);
    assert t == s.(intake := Intake(issued, [[f]], [], [[]]));
    t, next := Go(t, log, Enqueue(0), match_);
    assert t == s.(intake := Intake(issued, [[]], [f], [[]]));
    t, next := Go(t, log, TakeFrames(0, 1), match_);
    assert t == s.(intake := Intake(issued, [[]], [], [[f]]));
    t, next := Go(t, log, Deliver(0), match_);
    InsertNext(s.store, f);
  }

  /** Inserting the very next frame of a store with no gap. */
  lemma InsertNext(store: S.Store, f: Frame)
    requires store.maxSeq == |store.frames| && f.index == store.maxSeq + 1
    requires forall k :: k in store.sequence ==> k <= store.maxSeq
    ensures S.Insert(store, [f]) == S.Store(map[f.index := f], store.frames + [f], store.views, f.index)
  {
    var buffer := store.sequence[f.index := f];
    assert [f][..0] == [];
    assert S.Offer(store.sequence, [f]) == buffer;
    assert RB.RunEnd(buffer, store.maxSeq) == f.index;
    assert RB.Run(buffer, store.maxSeq, f.index) == [f];
    assert RB.Trim(buffer, store.maxSeq, f.index) == map[f.index := f];
  }

  // ---- two threads

  lemma TwoThreads(a: Stat, b: Stat)
    ensures MaxPushed([a, b]) == Max(a.pushed, b.pushed)
    ensures Watermark([a, b]) == Capped([b], Capped([a], MaxPushed([a, b])))
  {
    assert [a, b][..1] == [a] && [a][..0] == [] && [b][..0] == [];
    assert MaxPushed([a]) == a.pushed;
    assert Capped([a, b], MaxPushed([a, b])) == Capped([b], Capped([a], MaxPushed([a, b])));
  }

  /** The state with the dispatcher, the stream threads and their table replaced. */
  function With(base: State, d: Dispatcher, workers: seq<Worker>, stats: seq<Stat>): State {
    base.(dispatcher := d, workers := workers, stats := stats)
  }

  /** The dispatcher hands one leaf to each of two threads. */
  lemma DispatchTwo(s: State, log: Log, f: Frame, g: Frame, match_: Frame -> bool) returns (t: State, next: Log)
    requires Traced(s, log, match_) && |s.workers| == |s.stats| == 2 && s.dispatcher.layerMap == [[], []]
    requires s.dispatcher.next == 2 && s.dispatcher.leaf == 0 && s.dispatcher.cur == s.dispatcher.offset
    requires |s.store.frames| == s.dispatcher.offset + 2
    requires s.store.frames[s.dispatcher.offset] == f && s.store.frames[s.dispatcher.offset + 1] == g
    requires |f.leaves| == |g.leaves| == 1 && f.leaves[0] % 2 != g.leaves[0] % 2
    ensures var n := s.dispatcher.offset;
            var a, b := Leaf(f.index, 0, f.leaves[0]), Leaf(g.index, 0, g.leaves[0]);
            var w, marked := s.workers, Note(s.stats, a.worker % 2, a.frame, 0);
            && t == With(s, Dispatcher(n + 2, n + 2, 0, [[], []], 2),
                         [w[0].(queue := w[0].queue + if a.worker % 2 == 0 then [a] else [b]),
                          w[1].(queue := w[1].queue + if a.worker % 2 == 1 then [a] else [b])],
                         Note(marked, b.worker % 2, b.frame, 0))
            && next == log.(lowered := next.lowered)
            && next.lowered <= log.lowered + {|log.computed|}
            && (next.lowered != log.lowered ==>
                  (!s.stats[a.worker % 2].Lagging() && s.stats[a.worker % 2].dissected < Watermark(s.stats))
                  || (!marked[b.worker % 2].Lagging() && marked[b.worker % 2].dissected < Watermark(marked)))
    ensures Traced(t, next, match_)
  {
    hide Traced, Watermark;
    var n, w := s.dispatcher.offset, s.workers;
    var a, b := Leaf(f.index, 0, f.leaves[0]), Leaf(g.index, 0, g.leaves[0]);
    var p, q := a.worker % 2, b.worker % 2;
    assert LeavesOf(f)[0] == a && LeavesOf(g)[0] == b;
    t, next := Go(s, log, Fetch(2), match_);
    assert next == log && t == With(s, Dispatcher(n + 2, n, 0, [[], []], 0), w, s.stats);
    t, next := Go(t, next, Mark, match_);
    var marked := Note(s.stats, p, a.frame, 0);
    assert [] + [a] == [a];
    assert t == With(s, Dispatcher(n + 2, n + 1, 0, [[], []][p := [a]], 0), w, marked);
    t, next := Go(t, next, Mark, match_);
    assert [] + [b] == [b];
    var sorted := [[], []][p := [a]][q := [b]];
    assert t == With(s, Dispatcher(n + 2, n + 2, 0, sorted, 0), w, Note(marked, q, b.frame, 0));
    t, next := Go(t, next, Push, match_);
    t, next := Go(t, next, Push, match_);
    assert sorted == [if p == 0 then [a] else [b], if p == 1 then [a] else [b]];
    assert t.dispatcher.layerMap == [[], []];
    assert t.workers == [w[0].(queue := w[0].queue + sorted[0]), w[1].(queue := w[1].queue + sorted[1])];
  }

  /** A thread takes the one layer it has queued, analyses it and asks for a watermark. */
  lemma TakeAndReport(s: State, log: Log, i: nat, leaf: Leaf, match_: Frame -> bool) returns (t: State, next: Log)
    requires Traced(s, log, match_) && i < |s.workers| == |s.stats|
    requires s.workers[i] == Worker([leaf], [], s.workers[i].done, None)
    ensures var stats := Note(s.stats, i, 0, leaf.frame);
            var w := Watermark(stats);
            && t == s.(workers := s.workers[i := Worker([], [], s.workers[i].done + [leaf], Some(w))], stats := stats)
            && next == log.(computed := log.computed + [w], pending := log.pending[i := |log.computed|])
    ensures Traced(t, next, match_)
  {
    hide Traced, Watermark, Note;
    assert [leaf][..1] == [leaf] && [leaf][1..] == [];
    t, next := Go(s, log, TakeLayers(i, 1), match_);
    assert next == log && t == s.(workers := s.workers[i := Worker([], [leaf], s.workers[i].done, None)]);
    assert MaxFrame([leaf]) == leaf.frame by {
      assert leaf in [leaf];
    }
    t, next := Go(t, next, ReportDone(i), match_);
  }

  /** Two frames, one for each of two threads, delivered and dispatched. */
  lemma TwoDispatched(match_: Frame -> bool) returns (t: State)
    ensures t.intake == Intake([Frame(1, [0]), Frame(2, [1])], [[]], [], [[]])
    ensures t.store.frames == [Frame(1, [0]), Frame(2, [1])] && t.store.views == [] && Supplied(t)
    ensures t.dispatcher == Dispatcher(2, 2, 0, [[], []], 2)
    ensures t.workers == [Worker([Leaf(1, 0, 0)], [], [], None), Worker([Leaf(2, 0, 1)], [], [], None)]
    ensures t.stats == [Stat(1, 0), Stat(2, 0)]
    ensures Traced(t, NO_LOG, match_)
  {
    hide Traced;
    InitialTraced(1, 1, 2, 0, match_);
    var s := Initial(1, 1, 2, 0);
    assert s.dispatcher.layerMap == [[], []] && s.stats == [Stat(0, 0), Stat(0, 0)];
    assert s.workers == [Worker([], [], [], None), Worker([], [], [], None)];
    s := DeliverOne(s, NO_LOG, [0], match_);
    s := DeliverOne(s, NO_LOG, [1], match_);
    TwoThreads(Stat(0, 0), Stat(0, 0));
    TwoThreads(Stat(1, 0), Stat(0, 0));
    TwoThreads(Stat(1, 0), Stat(0, 0));
    assert Note([Stat(0, 0), Stat(0, 0)], 0, 1, 0) == [Stat(1, 0), Stat(0, 0)];
    var log: Log;
    t, log := DispatchTwo(s, NO_LOG, Frame(1, [0]), Frame(2, [1]), match_);
    assert log.lowered == {} && log == NO_LOG;
    assert [] + [Leaf(1, 0, 0)] == [Leaf(1, 0, 0)] && [] + [Leaf(2, 0, 1)] == [Leaf(2, 0, 1)];
  }

  /** Views can be withdrawn although no mark ever lowered the watermark and everything is dissected:
      thread 0 computes 0, thread 1 computes 2 and publishes it, and then thread 0 publishes its 0.
      Nothing is left to do afterwards, and nothing is published. */
  lemma OvertakenWithdraws(match_: Frame -> bool)
    ensures exists s: State, log: Log, i: nat ::
              && Traced(s, log, match_) && log.greedy && log.lowered == {}
              && Enabled(s, Publish(i)) && s.workers[i].publish.value < |s.store.views| == |s.store.frames|
              && AtRest(After(s, Publish(i), match_)) && |After(s, Publish(i), match_).store.views| == 0
  {
    hide Traced;
    var s := TwoDispatched(match_);
    var a, b := Leaf(1, 0, 0), Leaf(2, 0, 1);
    var log := NO_LOG;
    s, log := TakeAndReport(s, log, 0, a, match_);
    assert s.stats == [Stat(1, 1), Stat(2, 0)];
    TwoThreads(Stat(1, 1), Stat(2, 0));
    assert s.workers[0].publish == Some(0);
    s, log := TakeAndReport(s, log, 1, b, match_);
    assert s.stats == [Stat(1, 1), Stat(2, 2)];
    TwoThreads(Stat(1, 1), Stat(2, 2));
    assert s.workers[1].publish == Some(2);
    s, log := Go(s, log, Publish(1), match_);
    UpdatedSize(s.store.(views := []), 2);
    assert |s.store.views| == 2;
    var i: nat := 0;
    assert Enabled(s, Publish(i)) && s.workers[i].publish.value < |s.store.views|;
    var t := After(s, Publish(i), match_);
    assert forall j :: 0 <= j < |t.workers| ==> Todo(t.dispatcher, t.workers[j], j) == [];
    assert AtRest(t);
  }

  /** Views can be withdrawn although every watermark is published in the order of computation: a mark
      for a thread that is idle with an older report lowers the watermark. */
  lemma LoweredWithdraws(match_: Frame -> bool)
    ensures exists s: State, log: Log, i: nat ::
              && Traced(s, log, match_) && log.greedy && log.overtaken == {}
              && Enabled(s, Publish(i)) && i in log.pending && log.applied.Some? && log.applied.value < log.pending[i]
              && s.workers[i].publish.value < |s.store.views|
  {
    hide Traced;
    var s, log := TwoPublished(match_);
    var c, d := Leaf(3, 0, 0), Leaf(4, 0, 1);
    s := DeliverOne(s, log, [0], match_);
    s := DeliverOne(s, log, [1], match_);
    s, log := DispatchTwo(s, log, Frame(3, [0]), Frame(4, [1]), match_);
    assert s.stats == [Stat(3, 1), Stat(4, 2)] && s.workers[1] == Worker([d], [], [Leaf(2, 0, 1)], None);
    s, log := TakeAndReport(s, log, 1, d, match_);
    assert s.stats == [Stat(3, 1), Stat(4, 4)];
    TwoThreads(Stat(3, 1), Stat(4, 4));
    var i: nat := 1;
    assert Enabled(s, Publish(i)) && s.workers[i].publish.value == 1 && |s.store.views| == 2;
    assert log.pending[i] == 2 && log.applied == Some(1);
  }

  /** The two frames analysed and published, each watermark as soon as it was computed. */
  lemma TwoPublished(match_: Frame -> bool) returns (s: State, log: Log)
    ensures Traced(s, log, match_) && Supplied(s)
    ensures s.store.frames == [Frame(1, [0]), Frame(2, [1])] == s.intake.issued && |s.store.views| == 2
    ensures s.dispatcher == Dispatcher(2, 2, 0, [[], []], 2) && s.stats == [Stat(1, 1), Stat(2, 2)]
    ensures s.workers == [Worker([], [], [Leaf(1, 0, 0)], None), Worker([], [], [Leaf(2, 0, 1)], None)]
    ensures log == Log([0, 2], map[], Some(1), {}, {}, true)
  {
    hide Traced;
    s := TwoDispatched(match_);
    log := NO_LOG;
    s, log := TakeAndReport(s, log, 0, Leaf(1, 0, 0), match_);
    assert s.stats == [Stat(1, 1), Stat(2, 0)];
    TwoThreads(Stat(1, 1), Stat(2, 0));
    s, log := Go(s, log, Publish(0), match_);
    assert log == Log([0], map[], Some(0), {}, {}, true) && s.store.views == [];
    s, log := TakeAndReport(s, log, 1, Leaf(2, 0, 1), match_);
    assert s.stats == [Stat(1, 1), Stat(2, 2)];
    TwoThreads(Stat(1, 1), Stat(2, 2));
    UpdatedSize(s.store, 2);
    s, log := Go(s, log, Publish(1), match_);
    assert log == Log([0, 2], map[], Some(1), {}, {}, true);
    assert [] + [Leaf(1, 0, 0)] == [Leaf(1, 0, 0)] && [] + [Leaf(2, 0, 1)] == [Leaf(2, 0, 1)];
  }
}
