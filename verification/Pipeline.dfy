/** The whole frame pipeline as a state machine: producers, packet dissector threads, frame store,
    stream dispatcher, stream dissector threads, publisher and filter threads.  Each step is one
    lock-protected section together with the thread-local work around it; a run is any
    interleaving.  Batches may have any size, which includes the capacities the threads use. */
module Pipeline {
  import opened Common
  import opened Frames
  import opened ThreadStats
  import S = FrameStores
  import F = FilterPools

  /** A leaf layer of a frame, as the dispatcher hands it to the stream thread of its worker. */
  datatype Leaf = Leaf(frame: nat, slot: nat, worker: nat)

  /** `issued` is every frame numbered so far; `held` what each producer has numbered but not
      queued yet; `working` the batch in the hands of each packet dissector thread. */
  datatype Intake = Intake(issued: seq<Frame>, held: seq<seq<Frame>>, queue: seq<Frame>, working: seq<seq<Frame>>)

  /** The dispatcher has dequeued `offset` frames, marked all leaves of the first `cur` of them and
      `leaf` leaves of the next, and pushed `layerMap` to the first `next` threads. */
  datatype Dispatcher = Dispatcher(offset: nat, cur: nat, leaf: nat, layerMap: seq<seq<Leaf>>, next: nat)

  /** A stream thread: its queue, the batch under analysis, everything it has analysed, and the
      watermark it has been given but not passed to the store yet. */
  datatype Worker = Worker(queue: seq<Leaf>, batch: seq<Leaf>, done: seq<Leaf>, publish: Option<nat>)

  datatype Report = Report(begin: nat, results: seq<bool>)

  /** A filter thread: how many views it has tested, and the verdicts not merged yet. */
  datatype Scanner = Scanner(offset: nat, report: Option<Report>)

  datatype State = State(intake: Intake, store: S.Store, dispatcher: Dispatcher, workers: seq<Worker>,
                         stats: seq<Stat>, scanners: seq<Scanner>, pool: F.Pool)

  function Initial(producers: nat, dissectors: nat, threads: nat, filters: nat): State {
    State(Intake([], seq(producers, _ => []), [], seq(dissectors, _ => [])), S.EMPTY,
          Dispatcher(0, 0, 0, seq(threads, _ => []), threads),
          seq(threads, _ => Worker([], [], [], None)), seq(threads, _ => Stat(0, 0)),
          seq(filters, _ => Scanner(0, None)), F.EMPTY)
  }

  datatype Step =
    | Number(producer: nat, leaves: seq<nat>)
    | Enqueue(producer: nat)
    | TakeFrames(dissector: nat, count: nat)
    | Deliver(dissector: nat)
    | Fetch(count: nat)
    | Mark
    | Push
    | TakeLayers(thread: nat, count: nat)
    | ReportDone(thread: nat)
    | Publish(thread: nat)
    | Scan(filter: nat, count: nat)
    | Merge(filter: nat)

  function LeavesOf(f: Frame): (leaves: seq<Leaf>)
    ensures |leaves| == |f.leaves|
  {
    seq(|f.leaves|, j requires 0 <= j < |f.leaves| => Leaf(f.index, j, f.leaves[j]))
  }

  /** The highest frame index in a batch of layers. */
  function MaxFrame(layers: seq<Leaf>): (top: nat)
    ensures forall l :: l in layers ==> l.frame <= top
    ensures layers != [] ==> exists l :: l in layers && l.frame == top
  {
    if layers == [] then 0
    else
      var front, last := layers[..|layers| - 1], layers[|layers| - 1];
      assert layers == front + [last];
      if front == [] then last.frame else Max(MaxFrame(front), last.frame)
  }

  predicate Enabled(s: State, step: Step) {
    var d := s.dispatcher;
    match step
    case Number(p, leaves) => p < |s.intake.held| && leaves != []
    case Enqueue(p) => p < |s.intake.held|
    case TakeFrames(t, n) => t < |s.intake.working| && s.intake.working[t] == [] && n <= |s.intake.queue|
    case Deliver(t) => t < |s.intake.working| && s.intake.working[t] != []
    case Fetch(n) => d.cur == d.offset && d.next == |s.workers| && 0 < n && d.offset + n <= |s.store.frames|
    case Mark => d.cur < d.offset && d.cur < |s.store.frames| && d.leaf < |s.store.frames[d.cur].leaves|
                 && 0 < |s.workers| == |s.stats| == |d.layerMap|
    case Push => d.cur == d.offset && d.next < |s.workers| && d.next < |d.layerMap|
    case TakeLayers(i, n) => i < |s.workers| && s.workers[i].batch == [] && s.workers[i].publish.None?
        && n <= |s.workers[i].queue|
    case ReportDone(i) => i < |s.workers| && i < |s.stats| && s.workers[i].batch != []
    case Publish(i) => i < |s.workers| && s.workers[i].publish.Some?
    case Scan(j, n) => j < |s.scanners| && s.scanners[j].report.None? && 0 < n
        && s.scanners[j].offset + n <= |s.store.views|
    case Merge(j) => j < |s.scanners| && s.scanners[j].report.Some?
  }

  /** A producer takes the next sequence number for a frame. */
  function NumberFrame(k: Intake, p: nat, leaves: seq<nat>): Intake
    requires p < |k.held|
  {
    var f := Frame(|k.issued| + 1, leaves);
    k.(issued := k.issued + [f], held := k.held[p := k.held[p] + [f]])
  }

  function MarkLeaf(frames: seq<Frame>, d: Dispatcher): Dispatcher
    requires d.cur < |frames| && d.leaf < |frames[d.cur].leaves| && 0 < |d.layerMap|
  {
    var leaf := LeavesOf(frames[d.cur])[d.leaf];
    var t := leaf.worker % |d.layerMap|;
    var marked := d.(layerMap := d.layerMap[t := d.layerMap[t] + [leaf]]);
    if d.leaf + 1 < |frames[d.cur].leaves| then marked.(leaf := d.leaf + 1) else marked.(cur := d.cur + 1, leaf := 0)
  }

  function After(s: State, step: Step, match_: Frame -> bool): State
    requires Enabled(s, step)
    requires step.Publish? ==> s.workers[step.thread].publish.value <= |s.store.frames|
  {
    var k, d := s.intake, s.dispatcher;
    match step
    case Number(p, leaves) => s.(intake := NumberFrame(k, p, leaves))
    case Enqueue(p) => s.(intake := k.(queue := k.queue + k.held[p], held := k.held[p := []]))
    case TakeFrames(t, n) => s.(intake := k.(queue := k.queue[n..], working := k.working[t := k.queue[..n]]))
    case Deliver(t) => s.(intake := k.(working := k.working[t := []]), store := S.Insert(s.store, k.working[t]))
    case Fetch(n) => s.(dispatcher := d.(offset := d.offset + n, next := 0))
    case Mark =>
      var leaf := LeavesOf(s.store.frames[d.cur])[d.leaf];
      s.(dispatcher := MarkLeaf(s.store.frames, d), stats := Note(s.stats, leaf.worker % |d.layerMap|, leaf.frame, 0))
    case Push =>
      var w := s.workers[d.next];
      s.(workers := s.workers[d.next := w.(queue := w.queue + d.layerMap[d.next])],
         dispatcher := d.(layerMap := d.layerMap[d.next := []], next := d.next + 1))
    case TakeLayers(i, n) =>
      var w := s.workers[i];
      s.(workers := s.workers[i := w.(batch := w.queue[..n], queue := w.queue[n..])])
    case ReportDone(i) =>
      var w := s.workers[i];
      var stats := Note(s.stats, i, 0, MaxFrame(w.batch));
      s.(stats := stats, workers := s.workers[i := w.(batch := [], done := w.done + w.batch,
          publish := Some(Watermark(stats)))])
    case Publish(i) =>
      var w := s.workers[i];
      s.(store := S.Update(s.store, w.publish.value), workers := s.workers[i := w.(publish := None)])
    case Scan(j, n) =>
      var c := s.scanners[j];
      var views := s.store.views[c.offset..c.offset + n];
      var results := F.Tested(seq(n, v requires 0 <= v < n => views[v].frame), match_);
      s.(scanners := s.scanners[j := c.(report := Some(Report(views[0].frame.index, results)))])
    case Merge(j) =>
      var c := s.scanners[j];
      var r := c.report.value;
      s.(pool := F.Collect(s.pool, r.begin, r.results),
         scanners := s.scanners[j := Scanner(c.offset + |r.results|, None)])
  }

  /** `steps` is a run from `s`: each step enabled when it happens, and every publication within
      the frame list, since the store reads `frames[i]` for each view it adds. */
  predicate IsRun(s: State, steps: seq<Step>, match_: Frame -> bool)
    decreases |steps|
  {
    steps == [] ||
    (var step := steps[0];
     && Enabled(s, step)
     && (step.Publish? ==> s.workers[step.thread].publish.value <= |s.store.frames|)
     && IsRun(After(s, step, match_), steps[1..], match_))
  }

  function Final(s: State, steps: seq<Step>, match_: Frame -> bool): State
    requires IsRun(s, steps, match_)
    decreases |steps|
  {
    if steps == [] then s else Final(After(s, steps[0], match_), steps[1..], match_)
  }
}
