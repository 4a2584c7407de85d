/** An export beside the running pipeline. */
module ExporterRuns {
  import opened Frames
  import opened Pipeline
  import opened PipelineDispatch
  import opened PipelineFilter
  import opened PipelineSafety
  import opened PipelineTraces
  import PipelineRuns
  import FileExporter
  import S = FrameStores

  /** An export that starts in state `s` and asks for its first block after the store is in state `t`
      gets fewer views than it asks for. */
  ghost predicate ComesUpShort(s: S.Store, t: S.Store) {
    S.Agreeing(s) && S.Agreeing(t) && s.frames <= t.frames && |t.views| < Min(FileExporter.BLOCK_SIZE, |s.views|)
  }

  /** The store's views can fall short of what was published when an export started: one publication of
      a run of the threads is enough. */
  lemma ExportComesUpShort(match_: Frame -> bool)
    ensures exists s: State, log: Log, i: nat ::
              && Traced(s, log, match_) && log.greedy && Enabled(s, Publish(i))
              && s.workers[i].publish.value <= |s.store.frames|
                  && ComesUpShort(s.store, After(s, Publish(i), match_).store)
  {
    hide Traced, ComesUpShort, After, AtRest, Invariant, LogHolds;
    PipelineRuns.OvertakenWithdraws(match_);
    var s: State, log: Log, i: nat :|
      && Traced(s, log, match_) && log.greedy && Enabled(s, Publish(i))
      && s.workers[i].publish.value < |s.store.views| == |s.store.frames|
      && |After(s, Publish(i), match_).store.views| == 0;
    TracedHolds(s, log, match_);
    Withdrawn(s, match_, i);
  }

  lemma Withdrawn(s: State, match_: Frame -> bool, i: nat)
    requires Invariant(s, match_) && Enabled(s, Publish(i))
    requires s.workers[i].publish.value < |s.store.views| == |s.store.frames|
    requires |After(s, Publish(i), match_).store.views| == 0
    ensures ComesUpShort(s.store, After(s, Publish(i), match_).store)
  {
    hide Dispatching, Filtering, S.Agreeing;
    S.PublishingAgrees(s.store, s.workers[i].publish.value, []);
  }
}
