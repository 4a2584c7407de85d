/** When a frame can be published with a leaf not analysed: exactly if two of its leaves go to one
    stream thread.  The run that shows it fills the thread's buffer so that its end falls between the
    two leaves. */
module PipelineSplit {
  import opened Common
  import opened Frames
  import opened ThreadStats
  import opened Pipeline
  import opened PipelineIntake
  import opened PipelineDispatch
  import opened PipelineFilter
  import opened PipelineSafety
  import opened PipelineTraces
  import opened PipelineRuns

  /** Frames with one leaf each, for worker `t`. */
  function Fillers(t: nat, k: nat): (frames: seq<Frame>)
    ensures |frames| == k
  {
    seq(k, i requires 0 <= i < k => Frame(i + 1, [t]))
  }

  /** As many as leave room for one leaf in the buffer, and the frame in question. */
  function Captured(t: nat, leaves: seq<nat>): (frames: seq<Frame>)
    ensures |frames| == BUFFER
  {
    Fillers(t, BUFFER - 1) + [Frame(BUFFER, leaves)]
  }

  lemma {:induction false} DeliverFillers(n: nat, t: nat, k: nat, match_: Frame -> bool) returns (s: State)
    requires 0 < n
    ensures Traced(s, NO_LOG, match_) && Supplied(s) && s.store.frames == Fillers(t, k)
    ensures s == Initial(1, 1, n, 0).(intake := s.intake, store := s.store)
  {
    hide Traced;
    if k == 0 {
      InitialTraced(1, 1, n, 0, match_);
      s := Initial(1, 1, n, 0);
      assert s.intake == Intake([], [[]], [], [[]]);
    } else {
      s := DeliverFillers(n, t, k - 1, match_);
      s := DeliverOne(s, NO_LOG, [t], match_);
      assert Fillers(t, k) == Fillers(t, k - 1) + [Frame(k, [t])];
    }
  }

  // ---- dispatching everything

  function LeavesLeft(s: State): int {
    var d := s.dispatcher;
    if d.cur < |s.store.frames| then |s.store.frames[d.cur].leaves| - d.leaf else 0
  }

  /** The dispatcher marks all leaves of the frames it has fetched. */
  lemma {:induction false} MarkAll(s: State, log: Log, match_: Frame -> bool) returns (t: State, next: Log)
    requires Traced(s, log, match_)
    ensures Traced(t, next, match_) && next.greedy == log.greedy
    ensures t == s.(dispatcher := t.dispatcher, stats := t.stats)
    ensures t.dispatcher.cur == t.dispatcher.offset == s.dispatcher.offset && t.dispatcher.next == s.dispatcher.next
    decreases s.dispatcher.offset - s.dispatcher.cur, LeavesLeft(s)
  {
    hide Traced, Watermark, InStep, Settled, Conserved, Filtering, LogHolds;
    TracedHolds(s, log, match_);
    if s.dispatcher.cur == s.dispatcher.offset {
      t, next := s, log;
    } else {
      t, next := Go(s, log, Mark, match_);
      MarkProgress(s, t, match_);
      t, next := MarkAll(t, next, match_);
    }
  }

  lemma MarkProgress(s: State, t: State, match_: Frame -> bool)
    requires Enabled(s, Mark) && t == After(s, Mark, match_) && s.dispatcher.offset <= |s.store.frames|
    ensures var d, e := s.dispatcher, t.dispatcher;
            && t == s.(dispatcher := e, stats := t.stats) && e.offset == d.offset && e.next == d.next
            && ((e.cur == d.cur && e.leaf == d.leaf + 1 && e.leaf < |s.store.frames[d.cur].leaves|)
                || e.cur == d.cur + 1)
  {
  }

  /** Every worker only has more queued. */
  ghost predicate OnlyQueued(before: seq<Worker>, after: seq<Worker>) {
    && |after| == |before|
    && forall i :: 0 <= i < |before| ==> after[i] == before[i].(queue := after[i].queue)
  }

  /** The dispatcher hands everything it has sorted to the threads. */
  lemma {:induction false} PushAll(s: State, log: Log, match_: Frame -> bool) returns (t: State)
    requires Traced(s, log, match_) && s.dispatcher.cur == s.dispatcher.offset
    ensures Traced(t, log, match_) && t == s.(dispatcher := t.dispatcher, workers := t.workers)
    ensures OnlyQueued(s.workers, t.workers)
    ensures t.dispatcher == s.dispatcher.(layerMap := t.dispatcher.layerMap, next := |s.workers|)
    decreases |s.workers| - s.dispatcher.next
  {
    hide Traced, Watermark, InStep, Settled, Conserved, Filtering, LogHolds, Positioned;
    TracedHolds(s, log, match_);
    if s.dispatcher.next == |s.workers| {
      t := s;
    } else {
      var next: Log;
      t, next := Go(s, log, Push, match_);
      t := PushAll(t, next, match_);
    }
  }

  ghost predicate FreshAt(s: State, i: nat)
    requires i < |s.workers|
  {
    s.workers[i].batch == [] && s.workers[i].done == [] && s.workers[i].publish == None
  }

  /** All frames are dispatched; thread `t`, and all threads from `i` on, have not begun; the other
      threads before `i` do not lag. */
  ghost predicate Phase(s: State, n: nat, t: nat, leaves: seq<nat>, i: nat) {
    && |s.workers| == |s.stats| == n && s.store.frames == Captured(t, leaves)
    && s.dispatcher.cur == s.dispatcher.offset == BUFFER && s.dispatcher.next == n
    && (forall j :: 0 <= j < n && (j == t || i <= j) ==> FreshAt(s, j))
    && (forall j :: 0 <= j < i && j < n && j != t ==> !s.stats[j].Lagging())
  }

  lemma Dispatched(n: nat, t: nat, leaves: seq<nat>, match_: Frame -> bool) returns (s: State, log: Log)
    requires 0 < n && leaves != []
    ensures Traced(s, log, match_) && log.greedy && Phase(s, n, t, leaves, 0)
  {
    hide Traced;
    s := DeliverFillers(n, t, BUFFER - 1, match_);
    s := DeliverOne(s, NO_LOG, leaves, match_);
    s, log := Go(s, NO_LOG, Fetch(BUFFER), match_);
    s, log := MarkAll(s, log, match_);
    ghost var before := s.workers;
    s := PushAll(s, log, match_);
    forall j | 0 <= j < n ensures FreshAt(s, j) {
      assert before[j] == Worker([], [], [], None);
      assert s.workers[j] == before[j].(queue := s.workers[j].queue);
    }
    TracedHolds(s, log, match_);
  }

  /** A thread that has not begun has its whole share queued. */
  lemma QueueIsShare(s: State, match_: Frame -> bool, n: nat, t: nat, leaves: seq<nat>, i: nat, j: nat)
    requires Invariant(s, match_) && 0 < n && Phase(s, n, t, leaves, i) && j < n && FreshAt(s, j)
    ensures s.workers[j].queue == OnThread(AllLeaves(s.store.frames), j, n)
    ensures s.stats[j].pushed <= BUFFER
    ensures s.workers[j].queue == [] ==> !s.stats[j].Lagging()
  {
    hide Settled, Conserved, Filtering, OnThread, AllLeaves, Captured;
    var d, frames := s.dispatcher, s.store.frames;
    assert InStep(d, s.workers[j], s.stats[j], j, OnThread(Marked(frames, d), j, n));
    assert frames[..d.cur] == frames && Marked(frames, d) == AllLeaves(frames);
    assert d.layerMap[j] == [];
    assert s.workers[j].done + Todo(d, s.workers[j], j) == s.workers[j].queue;
  }

  // ---- the threads that do not matter

  /** A thread takes as much as its buffer holds, analyses it and reports. */
  lemma ReportOne(s: State, log: Log, i: nat, match_: Frame -> bool) returns (t: State, next: Log)
    requires Traced(s, log, match_) && i < |s.workers| == |s.stats| && FreshAt(s, i) && s.workers[i].queue != []
    ensures var queue := s.workers[i].queue;
            var m := Min(BUFFER, |queue|);
            var stats := Note(s.stats, i, 0, MaxFrame(queue[..m]));
            && t == s.(workers := s.workers[i := Worker(queue[m..], [], queue[..m], Some(Watermark(stats)))],
                stats := stats)
            && next.greedy == log.greedy
    ensures Traced(t, next, match_)
  {
    hide Traced, Watermark, Note, MaxFrame, After;
    var queue := s.workers[i].queue;
    var m := Min(BUFFER, |queue|);
    t, next := Go(s, log, TakeLayers(i, m), match_);
    AfterTake(s, i, m, match_);
    AfterReport(t, i, match_);
    t, next := Go(t, next, ReportDone(i), match_);
  }

  lemma AfterTake(s: State, i: nat, m: nat, match_: Frame -> bool)
    requires Enabled(s, TakeLayers(i, m)) && FreshAt(s, i)
    ensures var queue := s.workers[i].queue;
            After(s, TakeLayers(i, m), match_)
                == s.(workers := s.workers[i := Worker(queue[m..], queue[..m], [], None)])
  {
  }

  lemma AfterReport(s: State, i: nat, match_: Frame -> bool)
    requires Enabled(s, ReportDone(i)) && s.workers[i].done == []
    ensures var w := s.workers[i];
            var stats := Note(s.stats, i, 0, MaxFrame(w.batch));
            After(s, ReportDone(i), match_)
            == s.(workers := s.workers[i := Worker(w.queue, [], w.batch, Some(Watermark(stats)))], stats := stats)
  {
    hide Watermark, Note, MaxFrame;
    assert [] + s.workers[i].batch == s.workers[i].batch;
  }

  /** A leaf of another thread than `t` belongs to the last frame. */
  lemma OthersLast(s: State, match_: Frame -> bool, n: nat, t: nat, leaves: seq<nat>, j: nat, l: Leaf)
    requires Invariant(s, match_) && 0 < n == |s.workers| && t < n && s.store.frames == Captured(t, leaves)
    requires j < n && j != t && l in Todo(s.dispatcher, s.workers[j], j)
    ensures l.frame == BUFFER
  {
    hide Invariant, Todo;
    ShareGenuine(s, match_, j, l);
    if l.frame < BUFFER {
      assert s.store.frames[l.frame - 1] == Frame(l.frame, [t]);
      assert l.worker == t;
      SmallRemainder(t, n);
    }
  }

  lemma SmallRemainder(t: nat, n: nat)
    requires t < n
    ensures t % n == t
  {
  }

  /** All other threads report the last frame. */
  lemma {:induction false} ReportOthers(s: State, log: Log, n: nat, t: nat, leaves: seq<nat>, i: nat,
      match_: Frame -> bool)
      returns (u: State, next: Log)
    requires Traced(s, log, match_) && 0 < n && t < n && i <= n && Phase(s, n, t, leaves, i)
    ensures Traced(u, next, match_) && next.greedy == log.greedy && Phase(u, n, t, leaves, n)
    decreases n - i
  {
    hide Traced, Captured, Watermark, LogHolds, Invariant, MaxFrame;
    if i == n {
      u, next := s, log;
    } else {
      TracedHolds(s, log, match_);
      u, next := s, log;
      if i != t {
        QueueIsShare(s, match_, n, t, leaves, i, i);
        if s.workers[i].queue != [] {
          u, next := ReportOne(s, log, i, match_);
          BatchReaches(s, match_, n, t, leaves, i);
          PhaseNext(s, u, n, t, leaves, i);
        }
      }
      u, next := ReportOthers(u, next, n, t, leaves, i + 1, match_);
    }
  }

  lemma PhaseNext(s: State, u: State, n: nat, t: nat, leaves: seq<nat>, i: nat)
    requires Phase(s, n, t, leaves, i) && i < n && i != t && s.stats[i].pushed <= BUFFER
    requires |u.workers| == n && u == s.(workers := s.workers[i := u.workers[i]], stats := Note(s.stats, i, 0, BUFFER))
    ensures Phase(u, n, t, leaves, i + 1)
  {
    hide Captured;
    forall j | 0 <= j < n && (j == t || i + 1 <= j) ensures FreshAt(u, j) {
      assert FreshAt(s, j) && u.workers[j] == s.workers[j];
    }
    forall j | 0 <= j < i + 1 && j < n && j != t ensures !u.stats[j].Lagging() {
      assert j != i ==> u.stats[j] == s.stats[j];
    }
  }

  lemma BatchReaches(s: State, match_: Frame -> bool, n: nat, t: nat, leaves: seq<nat>, i: nat)
    requires Invariant(s, match_) && 0 < n && t < n && i < n && i != t && Phase(s, n, t, leaves, i)
    requires s.workers[i].queue != []
    ensures MaxFrame(s.workers[i].queue[..Min(BUFFER, |s.workers[i].queue|)]) == BUFFER
  {
    hide Invariant, Captured;
    var queue := s.workers[i].queue;
    var m := Min(BUFFER, |queue|);
    InvariantSized(s, match_);
    forall l | l in queue[..m] ensures l.frame == BUFFER {
      assert l in queue && l in Todo(s.dispatcher, s.workers[i], i);
      OthersLast(s, match_, n, t, leaves, i, l);
    }
    assert queue[..m][0] in queue[..m];
  }

  lemma InvariantSized(s: State, match_: Frame -> bool)
    requires Invariant(s, match_)
    ensures |s.workers| == |s.stats| == |s.dispatcher.layerMap|
  {
  }

  // ---- the thread that does

  lemma {:induction false} OnThreadConcat(a: seq<Leaf>, b: seq<Leaf>, i: nat, n: nat)
    requires 0 < n
    ensures OnThread(a + b, i, n) == OnThread(a, i, n) + OnThread(b, i, n)
  {
    if b == [] {
      assert a + b == a;
    } else {
      assert (a + b)[..|a + b| - 1] == a + b[..|b| - 1];
      OnThreadConcat(a, b[..|b| - 1], i, n);
    }
  }

  lemma {:induction false} FillersShare(t: nat, n: nat, k: nat)
    requires t < n
    ensures |OnThread(AllLeaves(Fillers(t, k)), t, n)| == k
  {
    if 0 < k {
      var frames := Fillers(t, k);
      assert frames[..k - 1] == Fillers(t, k - 1);
      assert LeavesOf(frames[k - 1]) == [Leaf(k, 0, t)];
      FillersShare(t, n, k - 1);
      var front := AllLeaves(Fillers(t, k - 1));
      assert (front + [Leaf(k, 0, t)])[..|front|] == front;
      SmallRemainder(t, n);
    }
  }

  /** The share of thread `t` is longer than the buffer, and the buffer ends inside the last frame. */
  lemma ShareSplits(n: nat, t: nat, leaves: seq<nat>, a: nat, b: nat)
    requires t < n && a < b < |leaves| && leaves[a] % n == t && leaves[b] % n == t
    ensures var share := OnThread(AllLeaves(Captured(t, leaves)), t, n);
            BUFFER < |share| && share[BUFFER - 1].frame == BUFFER && share[BUFFER] in LeavesOf(Frame(BUFFER, leaves))
  {
    hide OnThread;
    var frames, last := Captured(t, leaves), LeavesOf(Frame(BUFFER, leaves));
    assert frames[..BUFFER - 1] == Fillers(t, BUFFER - 1);
    OnThreadConcat(AllLeaves(Fillers(t, BUFFER - 1)), last, t, n);
    FillersShare(t, n, BUFFER - 1);
    var own := OnThread(last, t, n);
    OnThreadMember(last, t, n, last[a]);
    OnThreadMember(last, t, n, last[b]);
    var j, k :| 0 <= j < |own| && own[j] == last[a] && 0 <= k < |own| && own[k] == last[b];
    assert j != k;
    assert own[0] in own && own[1] in own;
    OnThreadMember(last, t, n, own[0]);
    OnThreadMember(last, t, n, own[1]);
  }

  ghost predicate HalfPublished(s: State, leaves: seq<nat>) {
    exists k: nat, j: nat ::
      && k < |s.store.views| && k < |s.store.frames| && s.store.frames[k].leaves == leaves
      && j < |leaves| && !Analysed(s, LeavesOf(s.store.frames[k])[j])
  }

  /** Thread `t` reports a full buffer last, and everything is published. */
  lemma PublishSplit(s: State, log: Log, n: nat, t: nat, leaves: seq<nat>, a: nat, b: nat, match_: Frame -> bool)
      returns (u: State, next: Log)
    requires Traced(s, log, match_) && log.greedy && t < n && Phase(s, n, t, leaves, n)
    requires a < b < |leaves| && leaves[a] % n == t && leaves[b] % n == t
    ensures Traced(u, next, match_) && next.greedy && |u.workers| == n && HalfPublished(u, leaves)
  {
    hide Traced, Watermark, LogHolds, Invariant, MaxFrame, Captured, AllLeaves, OnThread, Analysed, Reachable;
    TracedHolds(s, log, match_);
    QueueIsShare(s, match_, n, t, leaves, n, t);
    ShareSplits(n, t, leaves, a, b);
    var queue := s.workers[t].queue;
    u, next := ReportOne(s, log, t, match_);
    assert queue[..BUFFER][BUFFER - 1] in queue[..BUFFER];
    assert BUFFER <= MaxFrame(queue[..BUFFER]);
    TracedReachable(u, next, match_);
    CaughtUp(u, match_);
    u, next := Go(u, next, Publish(t), match_);
    UpdatedSize(s.store, BUFFER);
    var l := queue[BUFFER];
    TracedHolds(u, next, match_);
    assert u.workers[t].queue[0] == l;
    LeftOver(u, match_, t, l);
    var j :| 0 <= j < |leaves| && LeavesOf(Frame(BUFFER, leaves))[j] == l;
    var k := BUFFER - 1;
    LastCaptured(t, leaves);
    assert LeavesOf(u.store.frames[k])[j] == l;
  }

  lemma LastCaptured(t: nat, leaves: seq<nat>)
    ensures Captured(t, leaves)[BUFFER - 1] == Frame(BUFFER, leaves)
  {
  }

  /** A leaf still queued has not been analysed by any thread. */
  lemma LeftOver(s: State, match_: Frame -> bool, t: nat, l: Leaf)
    requires Invariant(s, match_) && t < |s.workers| && l in s.workers[t].queue
    ensures !Analysed(s, l)
  {
    hide Invariant;
    InvariantSized(s, match_);
    assert l in Todo(s.dispatcher, s.workers[t], t);
    ShareGenuine(s, match_, t, l);
    forall i | 0 <= i < |s.workers| ensures l !in s.workers[i].done {
      if i == t {
        ShareDistinct(s, match_, t);
        NotInBoth(s.workers[t].done, Todo(s.dispatcher, s.workers[t], t), l);
      } else if l in s.workers[i].done {
        ShareGenuine(s, match_, i, l);
      }
    }
  }

  /** For every number of stream threads and every frame: some run with full batches publishes the
      frame with a leaf not analysed exactly if two of its leaves go to one thread. */
  lemma HalfPublishedIff(n: nat, leaves: seq<nat>, match_: Frame -> bool)
    requires 0 < n && leaves != []
    ensures (exists s: State, log: Log ::
               Traced(s, log, match_) && log.greedy && |s.workers| == n && HalfPublished(s, leaves))
       <==> exists a, b :: 0 <= a < b < |leaves| && leaves[a] % n == leaves[b] % n
  {
    hide Traced, HalfPublished;
    if a, b :| 0 <= a < b < |leaves| && leaves[a] % n == leaves[b] % n {
      var t := leaves[a] % n;
      var s, log := Dispatched(n, t, leaves, match_);
      s, log := ReportOthers(s, log, n, t, leaves, 0, match_);
      s, log := PublishSplit(s, log, n, t, leaves, a, b, match_);
    } else {
      forall s: State, log: Log | Traced(s, log, match_) && |s.workers| == n ensures !HalfPublished(s, leaves) {
        WholePublished(s, log, leaves, match_);
      }
    }
  }

  lemma WholePublished(s: State, log: Log, leaves: seq<nat>, match_: Frame -> bool)
    requires Traced(s, log, match_) && 0 < |s.workers| && OneLeafEach(Frame(0, leaves), |s.workers|)
    ensures !HalfPublished(s, leaves)
  {
    hide Traced, Analysed, Reachable;
    TracedReachable(s, log, match_);
    forall k: nat, j: nat | k < |s.store.views| && k < |s.store.frames| && s.store.frames[k].leaves == leaves
        && j < |leaves|
      ensures Analysed(s, LeavesOf(s.store.frames[k])[j])
    {
      PublishedAreDissected(s, match_, |s.store.views|, k, j);
    }
  }
}
