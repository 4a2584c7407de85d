/** Why the watermark is safe: what each stream thread still has to do, and what it reported. */
module PipelineDispatch {
  import opened Common
  import opened Frames
  import opened ThreadStats
  import opened Pipeline

  /** All leaves of the frames in dispatch order. */
  ghost function AllLeaves(frames: seq<Frame>): seq<Leaf> {
    if frames == [] then [] else AllLeaves(frames[..|frames| - 1]) + LeavesOf(frames[|frames| - 1])
  }

  /** The leaves of a list that belong to thread `i` of `n`. */
  ghost function OnThread(leaves: seq<Leaf>, i: nat, n: nat): seq<Leaf>
    requires 0 < n
  {
    if leaves == [] then []
    else
      var last := leaves[|leaves| - 1];
      OnThread(leaves[..|leaves| - 1], i, n) + if last.worker % n == i then [last] else []
  }

  ghost predicate Positioned(frames: seq<Frame>, d: Dispatcher) {
    && d.cur <= d.offset <= |frames|
    && (d.cur < d.offset ==> d.next == 0 && d.leaf < |frames[d.cur].leaves|)
    && (d.cur == d.offset ==> d.leaf == 0)
  }

  /** The leaves marked so far. */
  ghost function Marked(frames: seq<Frame>, d: Dispatcher): seq<Leaf>
    requires Positioned(frames, d)
  {
    AllLeaves(frames[..d.cur]) + if d.cur < d.offset then LeavesOf(frames[d.cur])[..d.leaf] else []
  }

  /** What a thread has marked for it, queued or under analysis. */
  function Todo(d: Dispatcher, w: Worker, i: nat): seq<Leaf>
    requires i < |d.layerMap|
  {
    w.batch + w.queue + d.layerMap[i]
  }

  /** Thread `i` has analysed and still has exactly its share of what was marked, in order; its
      table entry is exact for both; what was handed over belongs to completely marked frames. */
  ghost predicate InStep(d: Dispatcher, w: Worker, stat: Stat, i: nat, share: seq<Leaf>)
    requires i < |d.layerMap|
  {
    && w.done + Todo(d, w, i) == share
    && (forall l :: l in share ==> l.frame <= stat.pushed)
    && (stat.pushed == 0 || exists l :: l in share && l.frame == stat.pushed)
    && stat.pushed <= d.cur + (if 0 < d.leaf then 1 else 0)
    && (forall l :: l in w.done || l in w.batch || l in w.queue ==> l.frame <= d.cur)
    && (forall l :: l in w.done ==> l.frame <= stat.dissected)
    && (stat.dissected == 0 || exists l :: l in w.done && l.frame == stat.dissected)
    && (d.cur == d.offset && i < d.next ==> d.layerMap[i] == [])
  }

  /** Every frame up to `w` is completely marked, and a leaf of such a frame that thread `i` still
      has to analyse belongs to a frame no later than its last report. */
  ghost predicate Settled(d: Dispatcher, workers: seq<Worker>, stats: seq<Stat>, w: nat)
    requires |workers| == |stats| == |d.layerMap|
  {
    && w <= d.cur
    && forall i, l :: 0 <= i < |workers| && l in Todo(d, workers[i], i) ==> w < l.frame || l.frame <= stats[i].dissected
  }

  ghost predicate Sized(d: Dispatcher, workers: seq<Worker>, stats: seq<Stat>) {
    0 < |workers| == |stats| == |d.layerMap| && d.next <= |workers|
  }

  ghost predicate Dispatching(frames: seq<Frame>, d: Dispatcher, workers: seq<Worker>, stats: seq<Stat>,
      published: nat)
  {
    && Sized(d, workers, stats)
    && Positioned(frames, d)
    && (forall i :: 0 <= i < |workers| ==>
        InStep(d, workers[i], stats[i], i, OnThread(Marked(frames, d), i, |workers|)))
    && (forall i :: 0 <= i < |workers| && workers[i].publish.Some? ==>
        Settled(d, workers, stats, workers[i].publish.value))
    && Settled(d, workers, stats, published)
  }

  /** The table yields a settled index. */
  lemma WatermarkSettles(d: Dispatcher, workers: seq<Worker>, stats: seq<Stat>, frames: seq<Frame>)
    requires Sized(d, workers, stats) && Positioned(frames, d)
    requires forall i :: 0 <= i < |workers| ==>
        InStep(d, workers[i], stats[i], i, OnThread(Marked(frames, d), i, |workers|))
    ensures Settled(d, workers, stats, Watermark(stats))
  {
    var w := Watermark(stats);
    WatermarkBound(stats, w);
    if d.cur < w {
      MaxPushedLeast(stats, d.cur);
      assert false;
    }
    forall i, l | 0 <= i < |workers| && l in Todo(d, workers[i], i)
      ensures w < l.frame || l.frame <= stats[i].dissected
    {
      var share := OnThread(Marked(frames, d), i, |workers|);
      assert InStep(d, workers[i], stats[i], i, share);
      assert l in workers[i].done + Todo(d, workers[i], i);
      if stats[i].dissected < l.frame {
        assert stats[i].Lagging();
      }
    }
  }

  /** A settled index stays settled when threads keep their backlog or shrink it, report more, or
      receive leaves of later frames. */
  lemma SettledPersists(d: Dispatcher, workers: seq<Worker>, stats: seq<Stat>,
                        d': Dispatcher, workers': seq<Worker>, stats': seq<Stat>, w: nat)
    requires |workers| == |stats| == |d.layerMap| == |workers'| == |stats'| == |d'.layerMap|
    requires Settled(d, workers, stats, w) && d.cur <= d'.cur
    requires forall i, l :: 0 <= i < |workers| && l in Todo(d', workers'[i], i) ==>
        l in Todo(d, workers[i], i) || d.cur < l.frame
    requires forall i :: 0 <= i < |workers| ==> stats[i].dissected <= stats'[i].dissected
    ensures Settled(d', workers', stats', w)
  {
  }

  /** Marking one more leaf extends the marked list by it. */
  lemma MarkExtends(frames: seq<Frame>, d: Dispatcher)
    requires Numbered(frames) && Positioned(frames, d) && d.cur < d.offset && 0 < |d.layerMap|
    ensures Positioned(frames, MarkLeaf(frames, d))
    ensures Marked(frames, MarkLeaf(frames, d)) == Marked(frames, d) + [LeavesOf(frames[d.cur])[d.leaf]]
  {
    var leaves := LeavesOf(frames[d.cur]);
    var after := MarkLeaf(frames, d);
    assert leaves[..d.leaf + 1] == leaves[..d.leaf] + [leaves[d.leaf]];
    if d.leaf + 1 == |leaves| {
      assert frames[..d.cur + 1][..d.cur] == frames[..d.cur];
      assert leaves[..d.leaf + 1] == leaves;
      assert after.cur < after.offset ==> LeavesOf(frames[after.cur])[..0] == [];
    }
  }

  lemma MarkKeeps(frames: seq<Frame>, d: Dispatcher, workers: seq<Worker>, stats: seq<Stat>, published: nat)
    requires Numbered(frames) && Dispatching(frames, d, workers, stats, published) && d.cur < d.offset
    ensures var leaf := LeavesOf(frames[d.cur])[d.leaf];
            var t := leaf.worker % |d.layerMap|;
            Dispatching(frames, MarkLeaf(frames, d), workers, Note(stats, t, leaf.frame, 0), published)
  {
    hide Settled, Marked, InStep, OnThread, Todo, MarkLeaf;
    var leaf := LeavesOf(frames[d.cur])[d.leaf];
    var n := |workers|;
    var t := leaf.worker % n;
    var after, marked := MarkLeaf(frames, d), Note(stats, t, leaf.frame, 0);
    MarkExtends(frames, d);
    MarkShape(frames, d);
    forall i | 0 <= i < n
      ensures InStep(after, workers[i], marked[i], i, OnThread(Marked(frames, after), i, n))
      ensures forall l :: l in Todo(after, workers[i], i) ==> l in Todo(d, workers[i], i) || d.cur < l.frame
      ensures stats[i].dissected == marked[i].dissected
    {
      MarkInStep(d, after, workers[i], stats[i], marked[i], i, t, n, Marked(frames, d), leaf);
    }
    forall w | Settled(d, workers, stats, w) ensures Settled(after, workers, marked, w) {
      SettledPersists(d, workers, stats, after, workers, marked, w);
    }
  }

  lemma MarkShape(frames: seq<Frame>, d: Dispatcher)
    requires Positioned(frames, d) && d.cur < d.offset && 0 < |d.layerMap|
    ensures MarksOne(d, MarkLeaf(frames, d), LeavesOf(frames[d.cur])[d.leaf])
  {
  }

  /** The dispatcher after marking `leaf`. */
  ghost predicate MarksOne(d: Dispatcher, after: Dispatcher, leaf: Leaf)
    requires 0 < |d.layerMap|
  {
    var t := leaf.worker % |d.layerMap|;
    && after.layerMap == d.layerMap[t := d.layerMap[t] + [leaf]]
    && after.offset == d.offset && after.next == d.next
    && ((after.cur == d.cur && after.leaf == d.leaf + 1) || (after.cur == d.cur + 1 && after.leaf == 0))
  }

  lemma MarkInStep(d: Dispatcher, after: Dispatcher, w: Worker, stat: Stat, stat': Stat, i: nat, t: nat, n: nat,
                   list: seq<Leaf>, leaf: Leaf)
    requires n == |d.layerMap| && i < n && t == leaf.worker % n && MarksOne(d, after, leaf)
    requires leaf.frame == d.cur + 1 && d.cur < d.offset && d.next == 0
    requires InStep(d, w, stat, i, OnThread(list, i, n))
    requires stat' == if i == t then Stat(Max(stat.pushed, leaf.frame), Max(stat.dissected, 0)) else stat
    ensures InStep(after, w, stat', i, OnThread(list + [leaf], i, n))
    ensures forall l :: l in Todo(after, w, i) ==> l in Todo(d, w, i) || d.cur < l.frame
    ensures stat.dissected == stat'.dissected
  {
    assert (list + [leaf])[..|list|] == list;
    if i == t {
      var share := OnThread(list, i, n);
      assert w.done + Todo(after, w, i) == w.done + Todo(d, w, i) + [leaf];
      assert leaf in share + [leaf];
    }
  }

  lemma FetchKeeps(frames: seq<Frame>, d: Dispatcher, workers: seq<Worker>, stats: seq<Stat>, published: nat, n: nat)
    requires Numbered(frames) && Dispatching(frames, d, workers, stats, published)
    requires d.cur == d.offset && d.next == |workers| && 0 < n && d.offset + n <= |frames|
    ensures Dispatching(frames, d.(offset := d.offset + n, next := 0), workers, stats, published)
  {
    var after := d.(offset := d.offset + n, next := 0);
    assert LeavesOf(frames[d.cur])[..0] == [];
    assert Marked(frames, after) == Marked(frames, d);
    forall i | 0 <= i < |workers|
      ensures InStep(after, workers[i], stats[i], i, OnThread(Marked(frames, after), i, |workers|))
    {
      assert InStep(d, workers[i], stats[i], i, OnThread(Marked(frames, d), i, |workers|));
    }
    forall w | Settled(d, workers, stats, w) ensures Settled(after, workers, stats, w) {
      SettledPersists(d, workers, stats, after, workers, stats, w);
    }
  }

  lemma PushKeeps(frames: seq<Frame>, d: Dispatcher, workers: seq<Worker>, stats: seq<Stat>, published: nat)
    requires Numbered(frames) && Dispatching(frames, d, workers, stats, published)
    requires d.cur == d.offset && d.next < |workers|
    ensures var w := workers[d.next];
            Dispatching(frames, d.(layerMap := d.layerMap[d.next := []], next := d.next + 1),
                        workers[d.next := w.(queue := w.queue + d.layerMap[d.next])], stats, published)
  {
    hide Settled, OnThread, InStep, Todo;
    var t := d.next;
    var moved := workers[t].(queue := workers[t].queue + d.layerMap[t]);
    var after, pushed := d.(layerMap := d.layerMap[t := []], next := t + 1), workers[t := moved];
    assert Marked(frames, after) == Marked(frames, d);
    MarkedBounded(frames, d);
    forall i | 0 <= i < |workers|
      ensures InStep(after, pushed[i], stats[i], i, OnThread(Marked(frames, after), i, |workers|))
      ensures Todo(after, pushed[i], i) == Todo(d, workers[i], i)
    {
      ShareBounded(Marked(frames, d), i, |workers|, d.cur);
      PushInStep(d, workers[i], stats[i], i, OnThread(Marked(frames, d), i, |workers|));
    }
    forall w | Settled(d, workers, stats, w) ensures Settled(after, pushed, stats, w) {
      SettledPersists(d, workers, stats, after, pushed, stats, w);
    }
  }

  /** Leaves move from the layer map to the queue of the thread that is served; others keep theirs. */
  lemma PushInStep(d: Dispatcher, w: Worker, stat: Stat, i: nat, share: seq<Leaf>)
    requires i < |d.layerMap| && d.next < |d.layerMap| && d.cur == d.offset && InStep(d, w, stat, i, share)
    requires forall l :: l in share ==> l.frame <= d.cur
    ensures var after := d.(layerMap := d.layerMap[d.next := []], next := d.next + 1);
            var moved := if i == d.next then w.(queue := w.queue + d.layerMap[i]) else w;
            InStep(after, moved, stat, i, share) && Todo(after, moved, i) == Todo(d, w, i)
  {
    if i == d.next {
      assert forall l :: l in d.layerMap[i] ==> l in w.done + Todo(d, w, i);
    }
  }

  /** Between batches, every marked leaf belongs to a completely marked frame. */
  lemma MarkedBounded(frames: seq<Frame>, d: Dispatcher)
    requires Numbered(frames) && Positioned(frames, d) && d.cur == d.offset
    ensures forall l :: l in Marked(frames, d) ==> l.frame <= d.cur
  {
    LeavesBounded(frames[..d.cur]);
  }

  lemma {:induction false} LeavesBounded(frames: seq<Frame>)
    requires Numbered(frames)
    ensures forall l :: l in AllLeaves(frames) ==> 1 <= l.frame <= |frames|
  {
    if frames != [] {
      LeavesBounded(frames[..|frames| - 1]);
    }
  }

  lemma {:induction false} ShareBounded(leaves: seq<Leaf>, i: nat, n: nat, top: nat)
    requires 0 < n && forall l :: l in leaves ==> l.frame <= top
    ensures forall l :: l in OnThread(leaves, i, n) ==> l.frame <= top
  {
    if leaves != [] {
      ShareBounded(leaves[..|leaves| - 1], i, n, top);
    }
  }

  /** A step that touches only thread `t`, keeping its share. */
  lemma WorkerKeeps(frames: seq<Frame>, d: Dispatcher, workers: seq<Worker>, stats: seq<Stat>, published: nat,
                    t: nat, worker: Worker, stat: Stat)
    requires Dispatching(frames, d, workers, stats, published) && t < |workers|
    requires InStep(d, worker, stat, t, OnThread(Marked(frames, d), t, |workers|))
    requires forall l :: l in Todo(d, worker, t) ==> l in Todo(d, workers[t], t)
    requires stats[t].dissected <= stat.dissected
    requires worker.publish.Some? ==>
               worker.publish == workers[t].publish || worker.publish.value == Watermark(stats[t := stat])
    ensures Dispatching(frames, d, workers[t := worker], stats[t := stat], published)
  {
    hide InStep, Settled, OnThread, Marked, Todo, Watermark;
    var workers', stats' := workers[t := worker], stats[t := stat];
    forall i | 0 <= i < |workers|
      ensures InStep(d, workers'[i], stats'[i], i, OnThread(Marked(frames, d), i, |workers|))
    {
      assert InStep(d, workers[i], stats[i], i, OnThread(Marked(frames, d), i, |workers|));
    }
    forall w | Settled(d, workers, stats, w) ensures Settled(d, workers', stats', w) {
      SettledPersists(d, workers, stats, d, workers', stats', w);
    }
    WatermarkSettles(d, workers', stats', frames);
  }

  lemma TakeLayersKeeps(frames: seq<Frame>, d: Dispatcher, workers: seq<Worker>, stats: seq<Stat>, published: nat,
      t: nat, n: nat)
    requires Dispatching(frames, d, workers, stats, published)
    requires t < |workers| && workers[t].batch == [] && n <= |workers[t].queue|
    ensures var w := workers[t];
            Dispatching(frames, d, workers[t := w.(batch := w.queue[..n], queue := w.queue[n..])], stats, published)
  {
    var w := workers[t];
    var taken := w.(batch := w.queue[..n], queue := w.queue[n..]);
    assert InStep(d, w, stats[t], t, OnThread(Marked(frames, d), t, |workers|));
    assert w.queue == taken.batch + taken.queue;
    assert Todo(d, taken, t) == Todo(d, w, t);
    assert stats[t := stats[t]] == stats;
    WorkerKeeps(frames, d, workers, stats, published, t, taken, stats[t]);
  }

  /** A reported batch has been analysed. */
  lemma ReportInStep(d: Dispatcher, w: Worker, stat: Stat, t: nat, share: seq<Leaf>, w': Worker)
    requires t < |d.layerMap| && InStep(d, w, stat, t, share) && w.batch != []
    requires w'.batch == [] && w'.done == w.done + w.batch && w'.queue == w.queue
    ensures InStep(d, w', Stat(Max(stat.pushed, 0), Max(stat.dissected, MaxFrame(w.batch))), t, share)
    ensures forall l :: l in Todo(d, w', t) ==> l in Todo(d, w, t)
  {
    assert w'.done + Todo(d, w', t) == w.done + Todo(d, w, t);
    var top := MaxFrame(w.batch);
    var last :| last in w.batch && last.frame == top;
    if stat.dissected <= last.frame {
      assert last in w'.done;
    } else if 0 < stat.dissected {
      var l :| l in w.done && l.frame == stat.dissected;
      assert l in w'.done;
    }
  }

  lemma ReportKeeps(frames: seq<Frame>, d: Dispatcher, workers: seq<Worker>, stats: seq<Stat>, published: nat, t: nat)
    requires Dispatching(frames, d, workers, stats, published)
    requires t < |workers| && workers[t].batch != []
    ensures var w := workers[t];
            var stats' := Note(stats, t, 0, MaxFrame(w.batch));
            var w' := w.(batch := [], done := w.done + w.batch, publish := Some(Watermark(stats')));
            Dispatching(frames, d, workers[t := w'], stats', published)
  {
    var w := workers[t];
    var stats' := Note(stats, t, 0, MaxFrame(w.batch));
    var w' := w.(batch := [], done := w.done + w.batch, publish := Some(Watermark(stats')));
    var share := OnThread(Marked(frames, d), t, |workers|);
    hide InStep, Todo, OnThread, Settled, MaxFrame, Watermark;
    ReportInStep(d, w, stats[t], t, share, w');
    WorkerKeeps(frames, d, workers, stats, published, t, w', stats'[t]);
  }

  lemma PublishKeeps(frames: seq<Frame>, d: Dispatcher, workers: seq<Worker>, stats: seq<Stat>, published: nat, t: nat)
    requires Dispatching(frames, d, workers, stats, published)
    requires t < |workers| && workers[t].publish.Some?
    ensures workers[t].publish.value <= |frames|
    ensures Dispatching(frames, d, workers[t := workers[t].(publish := None)], stats, workers[t].publish.value)
  {
    var w := workers[t];
    assert InStep(d, w, stats[t], t, OnThread(Marked(frames, d), t, |workers|));
    assert stats[t := stats[t]] == stats;
    WorkerKeeps(frames, d, workers, stats, w.publish.value, t, w.(publish := None), stats[t]);
  }

  /** The dispatcher does not notice frames being added to the store. */
  lemma GrowthKeeps(frames: seq<Frame>, more: seq<Frame>, d: Dispatcher, workers: seq<Worker>, stats: seq<Stat>,
      published: nat)
    requires Dispatching(frames, d, workers, stats, published) && frames <= more
    ensures Dispatching(more, d, workers, stats, published)
  {
    assert more[..d.cur] == frames[..d.cur];
    assert Marked(more, d) == Marked(frames, d);
  }
}
