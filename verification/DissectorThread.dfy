/** Level-by-level dissection of one frame.  A dissector is an arbitrary step that appends layers,
    tags and attributes anywhere in the frame's tree, drawing layer ids from a finite set. */
module DissectorThreads {
  import opened Common
  import opened Layers
  import opened TagFilters

  ghost predicate IdsWithin(tree: seq<Layer>, ids: set<nat>) {
    forall i :: 0 <= i < |tree| ==> tree[i].id in ids
  }

  /** The ids on the way from the root to a layer. */
  ghost function PathIds(tree: seq<Layer>, i: nat): set<nat>
    requires WellFormed(tree) && i < |tree|
    decreases i
  {
    assert Placed(tree, i);
    {tree[i].id} + if i == 0 then {} else PathIds(tree, tree[i].parent.value)
  }

  ghost function Depth(tree: seq<Layer>, i: nat): nat
    requires WellFormed(tree) && i < |tree|
    decreases i
  {
    assert Placed(tree, i);
    if i == 0 then 0 else 1 + Depth(tree, tree[i].parent.value)
  }

  lemma {:induction false} PathStable(before: seq<Layer>, after: seq<Layer>, i: nat)
    requires WellFormed(before) && WellFormed(after) && Grown(before, after) && i < |before|
    ensures PathIds(after, i) == PathIds(before, i) && Depth(after, i) == Depth(before, i)
    decreases i
  {
    assert Placed(before, i) && Placed(after, i);
    if 0 < i {
      PathStable(before, after, before[i].parent.value);
    }
  }

  lemma {:induction false} PathWithin(tree: seq<Layer>, ids: set<nat>, i: nat)
    requires WellFormed(tree) && IdsWithin(tree, ids) && i < |tree|
    ensures PathIds(tree, i) <= ids
    decreases i
  {
    assert Placed(tree, i);
    if 0 < i {
      PathWithin(tree, ids, tree[i].parent.value);
    }
  }

  lemma SubsetSmaller(a: set<nat>, b: set<nat>)
    requires a <= b
    ensures |a| <= |b|
    decreases b
  {
    if a != {} {
      var x :| x in a;
      SubsetSmaller(a - {x}, b - {x});
    }
  }

  lemma GrownTransitive(a: seq<Layer>, b: seq<Layer>, c: seq<Layer>)
    requires Grown(a, b) && Grown(b, c)
    ensures Grown(a, c)
  {
  }

  /** A layer that may be visited at `level`: its path has `level + 1` ids, all different, and those
      of its ancestors have been dissected. */
  ghost predicate Ready(tree: seq<Layer>, l: nat, level: nat, seen: set<nat>)
    requires WellFormed(tree)
  {
    && l < |tree|
    && Depth(tree, l) == level
    && |PathIds(tree, l)| == level + 1
    && PathIds(tree, l) - {tree[l].id} <= seen
  }

  lemma ReadyStable(before: seq<Layer>, after: seq<Layer>, l: nat, level: nat, seen: set<nat>, more: set<nat>)
    requires WellFormed(before) && WellFormed(after) && Grown(before, after)
    requires Ready(before, l, level, seen) && seen <= more
    ensures Ready(after, l, level, more)
  {
    PathStable(before, after, l);
  }

  /** A child with an id not yet dissected lies one level deeper on a path of distinct ids. */
  lemma ChildReady(tree: seq<Layer>, l: nat, c: nat, level: nat, seen: set<nat>)
    requires WellFormed(tree) && l < |tree| && c in tree[l].layers
    requires Depth(tree, l) == level && |PathIds(tree, l)| == level + 1 && PathIds(tree, l) <= seen
    requires c < |tree| && tree[c].id !in seen
    ensures Ready(tree, c, level + 1, seen)
  {
    assert Placed(tree, l);
    assert IsChild(tree, c, l);
    assert PathIds(tree, c) == {tree[c].id} + PathIds(tree, l);
  }

  /** No layer can be ready at a level beyond the number of ids. */
  lemma ReadyBounded(tree: seq<Layer>, ids: set<nat>, l: nat, level: nat, seen: set<nat>)
    requires WellFormed(tree) && IdsWithin(tree, ids) && Ready(tree, l, level, seen)
    ensures level < |ids|
  {
    PathWithin(tree, ids, l);
    SubsetSmaller(PathIds(tree, l), ids);
  }

  /** A call of a dissector for a layer: what `examine` answers, or the frame's tree after `analyze`. */
  datatype Call =
    | Examined(dissector: nat, layer: nat, confidence: nat)
    | Analyzed(dissector: nat, layer: nat, tree: seq<Layer>)

  /** All calls so far, in order. */
  class Log {
    ghost var calls: seq<Call>

    constructor ()
      ensures calls == []
    {
      calls := [];
    }
  }

  /** An arbitrary dissector's `examine`. */
  method Examine(log: Log, dissector: nat, layer: nat) returns (confidence: nat)
    modifies log
    ensures log.calls == old(log.calls) + [Examined(dissector, layer, confidence)]
  {
    confidence :| 0 <= confidence;
    log.calls := log.calls + [Examined(dissector, layer, confidence)];
  }

  /** An arbitrary dissector's `analyze`. */
  method Analyze(log: Log, dissector: nat, layer: nat, tree: Tree, ids: set<nat>)
    requires tree.Valid() && IdsWithin(tree.layers, ids)
    modifies log, tree
    ensures tree.Valid() && IdsWithin(tree.layers, ids)
    ensures Grown(old(tree.layers), tree.layers)
    ensures log.calls == old(log.calls) + [Analyzed(dissector, layer, tree.layers)]
  {
    var steps: nat :| 0 <= steps;
    for i := 0 to steps
      invariant tree.Valid() && IdsWithin(tree.layers, ids)
      invariant Grown(old(tree.layers), tree.layers) && log.calls == old(log.calls)
    {
      var at: nat, value: nat, kind: nat :| 0 <= at && 0 <= value && 0 <= kind;
      ghost var before := tree.layers;
      if at < |tree.layers| {
        if kind == 0 && value in ids {
          var confidence: nat :| 0 <= confidence;
          var _ := tree.AddLayer(at, value, confidence);
        } else if kind == 1 {
          tree.AddTag(at, value);
        } else {
          tree.AddAttr(at, Attr(value, None));
        }
      }
      GrownTransitive(old(tree.layers), before, tree.layers);
    }
    log.calls := log.calls + [Analyzed(dissector, layer, tree.layers)];
  }

  /** One visit of a layer: the ids dissected when it began, the layer's own included, the calls made, and
      the tags the layer ended with. */
  datatype Visit = Visit(layer: nat, level: nat, seen: set<nat>, calls: seq<Call>, tags: seq<nat>)

  ghost predicate Filters(contexts: seq<TagFilter>)
    reads contexts
  {
    forall c :: 0 <= c < |contexts| ==> contexts[c].Valid()
  }

  /** How often a dissector was asked to examine. */
  ghost function Examinations(calls: seq<Call>, c: nat): nat {
    if calls == [] then 0
    else
      var last := calls[|calls| - 1];
      Examinations(calls[..|calls| - 1], c) + Once(last.Examined? && last.dissector == c)
  }

  /** Each dissector whose hints are among the layer's final tags was asked exactly once, and no other. */
  ghost predicate Exhaustive(contexts: seq<TagFilter>, v: Visit) {
    forall c: nat :: Examinations(v.calls, c) == Once(c < |contexts| && Subset(contexts[c].filters, v.tags))
  }

  /** The call is for this layer; a dissector analyzes directly after it examined with enough confidence,
      and only then. */
  ghost predicate Proper(calls: seq<Call>, i: nat, layer: nat, threshold: nat)
    requires i < |calls|
  {
    && calls[i].layer == layer
    && match calls[i]
       case Examined(_, _, confidence) => threshold <= confidence <==> i + 1 < |calls| && calls[i + 1].Analyzed?
       case Analyzed(c, _, _) => 0 < i && calls[i - 1].Examined? && calls[i - 1].dissector == c
  }

  ghost predicate AllProper(calls: seq<Call>, layer: nat, threshold: nat) {
    forall i: nat :: i < |calls| ==> Proper(calls, i, layer, threshold)
  }

  lemma {:induction false} ExaminationsConcat(a: seq<Call>, b: seq<Call>, c: nat)
    ensures Examinations(a + b, c) == Examinations(a, c) + Examinations(b, c)
  {
    if b == [] {
      assert a + b == a;
    } else {
      assert (a + b)[..|a + b| - 1] == a + b[..|b| - 1];
      ExaminationsConcat(a, b[..|b| - 1], c);
    }
  }

  lemma ProperConcat(a: seq<Call>, b: seq<Call>, layer: nat, threshold: nat)
    requires AllProper(a, layer, threshold) && AllProper(b, layer, threshold)
    ensures AllProper(a + b, layer, threshold)
  {
    var calls := a + b;
    assert b != [] ==> Proper(b, 0, layer, threshold);
    forall i: nat | i < |calls| ensures Proper(calls, i, layer, threshold) {
      if i < |a| {
        assert Proper(a, i, layer, threshold);
      } else {
        assert Proper(b, i - |a|, layer, threshold);
      }
    }
  }

  lemma OneExamined(c: nat, layer: nat, confidence: nat, threshold: nat)
    requires confidence < threshold
    ensures AllProper([Examined(c, layer, confidence)], layer, threshold)
    ensures forall d: nat :: Examinations([Examined(c, layer, confidence)], d) == Once(c == d)
  {
    assert [Examined(c, layer, confidence)][..0] == [];
  }

  lemma OneAnalyzed(c: nat, layer: nat, confidence: nat, threshold: nat, tree: seq<Layer>)
    requires threshold <= confidence
    ensures var calls := [Examined(c, layer, confidence), Analyzed(c, layer, tree)];
            AllProper(calls, layer, threshold) && forall d: nat :: Examinations(calls, d) == Once(c == d)
  {
    var first := [Examined(c, layer, confidence)];
    assert first[..0] == [];
    forall d: nat ensures Examinations([Examined(c, layer, confidence), Analyzed(c, layer, tree)], d) == Once(c == d) {
      assert [Examined(c, layer, confidence), Analyzed(c, layer, tree)][..1] == first;
      assert Examinations(first, d) == Once(c == d);
    }
  }

  ghost function Indices(n: nat): set<nat> {
    if n == 0 then {} else Indices(n - 1) + {n - 1}
  }

  lemma {:induction false} IndicesMember(n: nat)
    ensures forall c: nat :: c in Indices(n) <==> c < n
  {
    if 0 < n {
      IndicesMember(n - 1);
    }
  }

  /** The dissectors not used yet whose filter matches. */
  method Select(contexts: seq<TagFilter>, used: set<nat>, tags: seq<nat>) returns (batch: seq<nat>)
    requires Filters(contexts)
    ensures NoDuplicates(batch)
    ensures forall c: nat :: c in batch <==> c < |contexts| && c !in used && Subset(contexts[c].filters, tags)
  {
    batch := [];
    for i := 0 to |contexts|
      invariant NoDuplicates(batch)
      invariant forall c: nat :: c in batch <==> c < i && c !in used && Subset(contexts[c].filters, tags)
    {
      var matched := false;
      if i !in used {
        matched := contexts[i].Match(tags);
      }
      if matched {
        assert forall k :: 0 <= k < |batch| ==> batch[k] in batch;
        batch := batch + [i];
      }
    }
  }

  /** Queues the children whose id has not been dissected. */
  method Gather(tree: Tree, layer: nat, level: nat, seen: set<nat>, queued: seq<nat>) returns (next: seq<nat>)
    requires tree.Valid() && layer < |tree.layers|
    requires Depth(tree.layers, layer) == level && |PathIds(tree.layers, layer)| == level + 1
    requires PathIds(tree.layers, layer) <= seen
    requires forall c :: c in queued ==> Ready(tree.layers, c, level + 1, seen)
    ensures queued <= next
    ensures forall c :: c in next ==> Ready(tree.layers, c, level + 1, seen)
    ensures forall c :: c in tree.layers[layer].layers ==> c < |tree.layers| && (tree.layers[c].id in seen || c in next)
  {
    next := queued;
    var children := tree.layers[layer].layers;
    assert Placed(tree.layers, layer);
    for i := 0 to |children|
      invariant queued <= next
      invariant forall c :: c in next ==> Ready(tree.layers, c, level + 1, seen)
      invariant forall c :: c in children[..i] ==> c < |tree.layers| && (tree.layers[c].id in seen || c in next)
    {
      var child := children[i];
      assert child in children && IsChild(tree.layers, child, layer);
      assert children[..i + 1] == children[..i] + [child];
      if tree.layers[child].id !in seen {
        ChildReady(tree.layers, layer, child, level, seen);
        next := next + [child];
      }
    }
    assert children[..|children|] == children;
  }

  /** The children of the analyzed layer when the dissector returned. */
  ghost function Kids(e: Call): seq<nat>
    requires e.Analyzed?
  {
    if e.layer < |e.tree| then e.tree[e.layer].layers else []
  }

  /** Each child a dissector left is dissected or queued. */
  ghost predicate Followed(tree: seq<Layer>, e: Call, seen: set<nat>, next: seq<nat>) {
    e.Analyzed? ==>
      Grown(e.tree, tree) && forall c :: c in Kids(e) ==> c < |tree| && (tree[c].id in seen || c in next)
  }

  /** The layer is at its level with its path dissected, and whatever is queued is ready. */
  ghost predicate Visiting(tree: seq<Layer>, layer: nat, level: nat, seen: set<nat>, next: seq<nat>, calls: seq<Call>) {
    && WellFormed(tree) && layer < |tree|
    && Depth(tree, layer) == level && |PathIds(tree, layer)| == level + 1
    && PathIds(tree, layer) <= seen
    && (forall c :: c in next ==> Ready(tree, c, level + 1, seen))
    && (forall e :: e in calls ==> Followed(tree, e, seen, next))
  }

  lemma FollowedStable(before: seq<Layer>, after: seq<Layer>, e: Call, seen: set<nat>, next: seq<nat>, more: seq<nat>)
    requires Followed(before, e, seen, next) && Grown(before, after) && next <= more
    ensures Followed(after, e, seen, more)
  {
    if e.Analyzed? {
      GrownTransitive(e.tree, before, after);
    }
  }

  lemma VisitingStable(before: seq<Layer>, after: seq<Layer>, layer: nat, level: nat, seen: set<nat>, next: seq<nat>,
                       calls: seq<Call>)
    requires Visiting(before, layer, level, seen, next, calls)
    requires WellFormed(after) && Grown(before, after)
    ensures Visiting(after, layer, level, seen, next, calls)
  {
    hide Followed;
    PathStable(before, after, layer);
    forall c | c in next ensures Ready(after, c, level + 1, seen) {
      ReadyStable(before, after, c, level + 1, seen, seen);
    }
    forall e | e in calls ensures Followed(after, e, seen, next) {
      FollowedStable(before, after, e, seen, next, next);
    }
  }

  /** The children of the layer as it is now are queued. */
  lemma GatheredFollowed(tree: seq<Layer>, layer: nat, level: nat, seen: set<nat>, next: seq<nat>, more: seq<nat>,
                         calls: seq<Call>, e: Call)
    requires Visiting(tree, layer, level, seen, next, calls) && next <= more
    requires e.Examined? || (e.layer == layer && e.tree == tree)
    requires forall c :: c in more ==> Ready(tree, c, level + 1, seen)
    requires forall c :: c in tree[layer].layers ==> c < |tree| && (tree[c].id in seen || c in more)
    ensures Visiting(tree, layer, level, seen, more, calls + [e])
  {
    forall d | d in calls + [e] ensures Followed(tree, d, seen, more) {
      if d in calls {
        GrownSelf(tree);
        FollowedStable(tree, tree, d, seen, next, more);
      }
    }
  }

  lemma GrownSelf(tree: seq<Layer>)
    ensures Grown(tree, tree)
  {
  }

  /** One selected dissector examines the layer and, if it is confident, analyzes it. */
  method RunDissector(log: Log, tree: Tree, ids: set<nat>, threshold: nat, c: nat, layer: nat, level: nat,
                      seen: set<nat>, queued: seq<nat>, ghost before: seq<Call>)
    returns (next: seq<nat>, ghost calls: seq<Call>)
    requires IdsWithin(tree.layers, ids) && Visiting(tree.layers, layer, level, seen, queued, before)
    modifies log, tree
    ensures IdsWithin(tree.layers, ids) && Visiting(tree.layers, layer, level, seen, next, before + calls)
    ensures Grown(old(tree.layers), tree.layers) && log.calls == old(log.calls) + calls
    ensures AllProper(calls, layer, threshold) && forall d: nat :: Examinations(calls, d) == Once(c == d)
  {
    hide Followed, Depth, PathIds, Ready, AllProper, Examinations;
    next := queued;
    var confidence := Examine(log, c, layer);
    calls := [Examined(c, layer, confidence)];
    VisitingExamined(tree.layers, layer, level, seen, next, before, calls[0]);
    if confidence < threshold {
      OneExamined(c, layer, confidence, threshold);
    } else {
      Analyze(log, c, layer, tree, ids);
      ghost var e := Analyzed(c, layer, tree.layers);
      VisitingStable(old(tree.layers), tree.layers, layer, level, seen, queued, before + calls);
      next := Gather(tree, layer, level, seen, queued);
      GatheredFollowed(tree.layers, layer, level, seen, queued, next, before + calls, e);
      assert before + calls + [e] == before + (calls + [e]);
      OneAnalyzed(c, layer, confidence, threshold, tree.layers);
      assert calls + [e] == [Examined(c, layer, confidence), e];
      calls := calls + [e];
    }
  }

  lemma VisitingExamined(tree: seq<Layer>, layer: nat, level: nat, seen: set<nat>, next: seq<nat>, calls: seq<Call>,
                         e: Call)
    requires Visiting(tree, layer, level, seen, next, calls) && e.Examined?
    ensures Visiting(tree, layer, level, seen, next, calls + [e])
  {
  }

  /** Runs the selected dissectors in order. */
  method RunBatch(log: Log, tree: Tree, ids: set<nat>, threshold: nat, batch: seq<nat>, layer: nat, level: nat,
                  seen: set<nat>, queued: seq<nat>, ghost before: seq<Call>)
    returns (next: seq<nat>, ghost calls: seq<Call>)
    requires NoDuplicates(batch)
    requires IdsWithin(tree.layers, ids) && Visiting(tree.layers, layer, level, seen, queued, before)
    modifies log, tree
    ensures IdsWithin(tree.layers, ids) && Visiting(tree.layers, layer, level, seen, next, before + calls)
    ensures Grown(old(tree.layers), tree.layers) && log.calls == old(log.calls) + calls
    ensures AllProper(calls, layer, threshold) && forall d: nat :: Examinations(calls, d) == Once(d in batch)
  {
    hide Visiting, AllProper, Examinations;
    next, calls := queued, [];
    NoCalls(layer, threshold);
    assert before + [] == before;
    for i := 0 to |batch|
      invariant IdsWithin(tree.layers, ids) && Visiting(tree.layers, layer, level, seen, next, before + calls)
      invariant Grown(old(tree.layers), tree.layers) && log.calls == old(log.calls) + calls
      invariant AllProper(calls, layer, threshold)
      invariant forall d: nat :: Examinations(calls, d) == Once(d in batch[..i])
    {
      ghost var was, done := tree.layers, calls;
      ghost var more;
      VisitingWellFormed(tree.layers, layer, level, seen, next, before + calls);
      next, more := RunDissector(log, tree, ids, threshold, batch[i], layer, level, seen, next, before + calls);
      GrownTransitive(old(tree.layers), was, tree.layers);
      assert before + calls + more == before + (calls + more);
      calls := calls + more;
      ProperConcat(done, more, layer, threshold);
      forall d: nat ensures Examinations(calls, d) == Once(d in batch[..i + 1]) {
        ExaminationsConcat(done, more, d);
        assert batch[..i + 1] == batch[..i] + [batch[i]];
        assert batch[i] !in batch[..i];
      }
    }
    assert batch[..|batch|] == batch;
  }

  lemma NoCalls(layer: nat, threshold: nat)
    ensures AllProper([], layer, threshold) && forall d: nat :: Examinations([], d) == 0
  {
  }

  lemma VisitingWellFormed(tree: seq<Layer>, layer: nat, level: nat, seen: set<nat>, next: seq<nat>, calls: seq<Call>)
    requires Visiting(tree, layer, level, seen, next, calls)
    ensures WellFormed(tree) && layer < |tree|
  {
  }

  /** Visits one layer until no unused dissector matches its tags. */
  method VisitLayer(log: Log, tree: Tree, contexts: seq<TagFilter>, ids: set<nat>, threshold: nat, layer: nat,
                    level: nat, seen: set<nat>)
    returns (next: seq<nat>, ghost v: Visit)
    requires Filters(contexts) && IdsWithin(tree.layers, ids)
    requires Visiting(tree.layers, layer, level, seen, [], [])
    modifies log, tree
    ensures Filters(contexts) && IdsWithin(tree.layers, ids) && Grown(old(tree.layers), tree.layers)
    ensures v.layer == layer && v.level == level && v.seen == seen && v.tags == tree.layers[layer].tags
    ensures log.calls == old(log.calls) + v.calls
    ensures Exhaustive(contexts, v) && AllProper(v.calls, layer, threshold)
    ensures Visiting(tree.layers, layer, level, seen, next, v.calls)
  {
    hide Visiting, AllProper, Examinations;
    next := [];
    var used: set<nat> := {};
    IndicesMember(|contexts|);
    NoCalls(layer, threshold);
    VisitingWellFormed(tree.layers, layer, level, seen, [], []);
    ghost var calls: seq<Call> := [];
    while true
      invariant Filters(contexts) && IdsWithin(tree.layers, ids) && Grown(old(tree.layers), tree.layers)
      invariant WellFormed(tree.layers) && layer < |tree.layers|
      invariant Visiting(tree.layers, layer, level, seen, next, calls)
      invariant log.calls == old(log.calls) + calls && AllProper(calls, layer, threshold)
      invariant forall c: nat :: Examinations(calls, c) == Once(c in used)
      invariant used <= Indices(|contexts|)
      invariant forall c :: c in used ==> c < |contexts| && Subset(contexts[c].filters, tree.layers[layer].tags)
      decreases Indices(|contexts|) - used
    {
      var batch := Select(contexts, used, tree.layers[layer].tags);
      if batch == [] {
        break;
      }
      assert batch[0] in batch;
      ghost var was, done := tree.layers, calls;
      ghost var more;
      next, more := RunBatch(log, tree, ids, threshold, batch, layer, level, seen, next, calls);
      VisitingWellFormed(tree.layers, layer, level, seen, next, calls + more);
      GrownTransitive(old(tree.layers), was, tree.layers);
      calls := calls + more;
      ProperConcat(done, more, layer, threshold);
      forall c: nat ensures Examinations(calls, c) == Once(c in used) + Once(c in batch) {
        ExaminationsConcat(done, more, c);
      }
      used := used + set c | c in batch;
    }
    v := Visit(layer, level, seen, calls, tree.layers[layer].tags);
    forall c: nat ensures c in used <==> c < |contexts| && Subset(contexts[c].filters, v.tags) {
      assert c !in [];
    }
  }

  // ---- the record of a frame's visits

  /** Some visited layer has this id. */
  ghost predicate Dissected(tree: seq<Layer>, visits: seq<Visit>, id: nat) {
    exists v :: v in visits && v.layer < |tree| && tree[v.layer].id == id
  }

  ghost predicate Visited(visits: seq<Visit>, l: nat) {
    exists v :: v in visits && v.layer == l
  }

  /** Each child a dissector left, unless its id was dissected when the visit began, is visited or pending. */
  ghost predicate Tracked(tree: seq<Layer>, visits: seq<Visit>, v: Visit, e: Call, pending: seq<nat>) {
    e.Analyzed? ==>
      && Grown(e.tree, tree)
      && forall c :: c in Kids(e) ==> c < |tree| && (tree[c].id in v.seen || c in pending || Visited(visits, c))
  }

  /** The visited layer sits at the level of its visit on a path of distinct ids; exactly the dissectors
      matching the tags it ended with were asked, each once, and those that were confident analyzed it. */
  ghost predicate Settled(tree: seq<Layer>, contexts: seq<TagFilter>, threshold: nat, v: Visit)
    requires WellFormed(tree)
  {
    && v.layer < |tree| && Depth(tree, v.layer) == v.level && |PathIds(tree, v.layer)| == v.level + 1
    && v.tags <= tree[v.layer].tags && Exhaustive(contexts, v) && AllProper(v.calls, v.layer, threshold)
  }

  /** What a visit counts as dissected are the ids of the layers visited up to it. */
  ghost predicate SeenAt(tree: seq<Layer>, visits: seq<Visit>, i: nat)
    requires i < |visits|
  {
    forall x :: x in visits[i].seen <==> Dissected(tree, visits[..i + 1], x)
  }

  /** A visit reckons with the tags its layer had after any earlier analysis. */
  ghost predicate Informed(before: Visit, v: Visit) {
    forall e :: e in before.calls && e.Analyzed? && v.layer < |e.tree| ==> e.tree[v.layer].tags <= v.tags
  }

  ghost predicate Recorded(tree: seq<Layer>, contexts: seq<TagFilter>, threshold: nat, visits: seq<Visit>,
                           seen: set<nat>, pending: seq<nat>)
    requires WellFormed(tree)
  {
    && (forall v :: v in visits ==> Settled(tree, contexts, threshold, v))
    && (forall v, e :: v in visits && e in v.calls ==> Tracked(tree, visits, v, e, pending))
    && (forall x :: x in seen <==> Dissected(tree, visits, x))
    && (forall i: nat :: i < |visits| ==> SeenAt(tree, visits, i))
    && (forall i, j :: 0 <= i < j < |visits| ==> Informed(visits[i], visits[j]))
  }

  lemma SettledStable(before: seq<Layer>, after: seq<Layer>, contexts: seq<TagFilter>, threshold: nat, v: Visit)
    requires WellFormed(before) && WellFormed(after) && Grown(before, after)
    requires Settled(before, contexts, threshold, v)
    ensures Settled(after, contexts, threshold, v)
  {
    hide Exhaustive, AllProper;
    PathStable(before, after, v.layer);
  }

  lemma TrackedStable(before: seq<Layer>, after: seq<Layer>, visits: seq<Visit>, more: seq<Visit>, v: Visit, e: Call,
                      pending: seq<nat>, later: seq<nat>)
    requires Grown(before, after) && visits <= more && Tracked(before, visits, v, e, pending)
    requires forall c :: c in pending ==> c in later || Visited(more, c)
    ensures Tracked(after, more, v, e, later)
  {
    if e.Analyzed? {
      GrownTransitive(e.tree, before, after);
      assert forall w :: w in visits ==> w in more;
    }
  }

  ghost predicate Within(tree: seq<Layer>, visits: seq<Visit>) {
    forall v :: v in visits ==> v.layer < |tree|
  }

  lemma DissectedStable(before: seq<Layer>, after: seq<Layer>, visits: seq<Visit>, id: nat)
    requires Grown(before, after) && Within(before, visits)
    ensures Dissected(after, visits, id) <==> Dissected(before, visits, id)
  {
  }

  lemma SeenStable(before: seq<Layer>, after: seq<Layer>, visits: seq<Visit>, i: nat)
    requires Grown(before, after) && Within(before, visits) && i < |visits| && SeenAt(before, visits, i)
    ensures SeenAt(after, visits, i)
  {
    var front := visits[..i + 1];
    assert forall v :: v in front ==> v in visits;
    forall x ensures Dissected(after, front, x) <==> Dissected(before, front, x) {
      DissectedStable(before, after, front, x);
    }
  }

  lemma RecordedStable(before: seq<Layer>, after: seq<Layer>, contexts: seq<TagFilter>, threshold: nat,
                       visits: seq<Visit>, seen: set<nat>, pending: seq<nat>)
    requires WellFormed(before) && WellFormed(after) && Grown(before, after)
    requires Recorded(before, contexts, threshold, visits, seen, pending)
    ensures Recorded(after, contexts, threshold, visits, seen, pending)
  {
    hide Exhaustive, AllProper, Tracked, SeenAt, Informed, Dissected;
    forall v | v in visits ensures Settled(after, contexts, threshold, v) {
      SettledStable(before, after, contexts, threshold, v);
    }
    forall v, e | v in visits && e in v.calls ensures Tracked(after, visits, v, e, pending) {
      TrackedStable(before, after, visits, visits, v, e, pending, pending);
    }
    forall x ensures x in seen <==> Dissected(after, visits, x) {
      DissectedStable(before, after, visits, x);
    }
    forall i: nat | i < |visits| ensures SeenAt(after, visits, i) {
      SeenStable(before, after, visits, i);
    }
  }

  /** Everything of the frame the level loop relies on: layers still to visit at this level, those queued for
      the next, and the record. */
  ghost predicate AtLevel(tree: seq<Layer>, ids: set<nat>, contexts: seq<TagFilter>, threshold: nat, level: nat,
                          seen: set<nat>, rest: seq<nat>, next: seq<nat>, visits: seq<Visit>) {
    && WellFormed(tree) && IdsWithin(tree, ids)
    && (forall l :: l in rest ==> Ready(tree, l, level, seen))
    && (forall l :: l in next ==> Ready(tree, l, level + 1, seen))
    && Recorded(tree, contexts, threshold, visits, seen, rest + next)
  }

  lemma AtLevelStable(before: seq<Layer>, after: seq<Layer>, ids: set<nat>, contexts: seq<TagFilter>, threshold: nat,
                      level: nat, seen: set<nat>, rest: seq<nat>, next: seq<nat>, visits: seq<Visit>)
    requires AtLevel(before, ids, contexts, threshold, level, seen, rest, next, visits)
    requires WellFormed(after) && IdsWithin(after, ids) && Grown(before, after)
    ensures AtLevel(after, ids, contexts, threshold, level, seen, rest, next, visits)
  {
    hide Recorded, Depth, PathIds, Ready;
    RecordedStable(before, after, contexts, threshold, visits, seen, rest + next);
    forall l | l in rest ensures Ready(after, l, level, seen) {
      ReadyStable(before, after, l, level, seen, seen);
    }
    forall l | l in next ensures Ready(after, l, level + 1, seen) {
      ReadyStable(before, after, l, level + 1, seen, seen);
    }
  }

  /** Visits, one more of which ended: the layer was pending, its children are now. */
  ghost predicate Joins(tree: seq<Layer>, contexts: seq<TagFilter>, threshold: nat, level: nat, seen: set<nat>,
                        more: seq<nat>, v: Visit) {
    && WellFormed(tree) && v.layer < |tree| && v.level == level && v.tags == tree[v.layer].tags
    && v.seen == seen + {tree[v.layer].id}
    && Exhaustive(contexts, v) && AllProper(v.calls, v.layer, threshold)
    && Visiting(tree, v.layer, level, v.seen, more, v.calls)
  }

  lemma TrackedJoins(tree: seq<Layer>, visits: seq<Visit>, v: Visit, w: Visit, e: Call, seen: set<nat>,
                     rest: seq<nat>, next: seq<nat>, more: seq<nat>)
    requires rest != [] && v.layer == rest[0]
    requires w in visits ==> Tracked(tree, visits, w, e, rest + next)
    requires w !in visits ==> w == v && Followed(tree, e, v.seen, more)
    ensures Tracked(tree, visits + [v], w, e, rest[1..] + (next + more))
  {
    var after, later := visits + [v], rest[1..] + (next + more);
    assert v in after && rest == [rest[0]] + rest[1..];
    if w in visits {
      forall c | c in rest + next ensures c in later || Visited(after, c) {
      }
      GrownSelf(tree);
      TrackedStable(tree, tree, visits, after, w, e, rest + next, later);
    }
  }

  lemma SeenJoins(tree: seq<Layer>, visits: seq<Visit>, v: Visit, seen: set<nat>)
    requires v.layer < |tree| && v.seen == seen + {tree[v.layer].id}
    requires forall x :: x in seen <==> Dissected(tree, visits, x)
    requires forall i: nat :: i < |visits| ==> SeenAt(tree, visits, i)
    ensures var after := visits + [v];
            && (forall x :: x in v.seen <==> Dissected(tree, after, x))
            && (forall i: nat :: i < |after| ==> SeenAt(tree, after, i))
  {
    var after := visits + [v];
    assert v in after && forall w :: w in after <==> w in visits || w == v;
    forall x ensures x in v.seen <==> Dissected(tree, after, x) {
      if x in seen {
        var w :| w in visits && w.layer < |tree| && tree[w.layer].id == x;
        assert w in after;
      }
    }
    assert after[..|after|] == after;
    forall i: nat | i < |visits| ensures SeenAt(tree, after, i) {
      assert after[..i + 1] == visits[..i + 1] && SeenAt(tree, visits, i);
    }
  }

  lemma InformedJoins(tree: seq<Layer>, visits: seq<Visit>, v: Visit, w: Visit, pending: seq<nat>)
    requires w in visits && v.layer < |tree| && v.tags == tree[v.layer].tags
    requires forall e :: e in w.calls ==> Tracked(tree, visits, w, e, pending)
    ensures Informed(w, v)
  {
    forall e | e in w.calls && e.Analyzed? && v.layer < |e.tree| ensures e.tree[v.layer].tags <= v.tags {
      assert Tracked(tree, visits, w, e, pending);
    }
  }

  lemma RecordJoins(tree: seq<Layer>, contexts: seq<TagFilter>, threshold: nat, level: nat, seen: set<nat>,
                    rest: seq<nat>, next: seq<nat>, visits: seq<Visit>, more: seq<nat>, v: Visit)
    requires rest != [] && v.layer == rest[0] && Joins(tree, contexts, threshold, level, seen, more, v)
    requires Recorded(tree, contexts, threshold, visits, seen, rest + next)
    ensures Recorded(tree, contexts, threshold, visits + [v], v.seen, rest[1..] + (next + more))
  {
    hide Exhaustive, AllProper, Tracked, Followed, SeenAt, Informed, Dissected, Depth, PathIds, Ready;
    var after := visits + [v];
    SeenJoins(tree, visits, v, seen);
    forall w, e | w in after && e in w.calls ensures Tracked(tree, after, w, e, rest[1..] + (next + more)) {
      TrackedJoins(tree, visits, v, w, e, seen, rest, next, more);
    }
    forall i, j | 0 <= i < j < |after| ensures Informed(after[i], after[j]) {
      if j == |visits| {
        assert after[i] in visits;
        InformedJoins(tree, visits, v, after[i], rest + next);
      } else {
        assert after[i] == visits[i] && after[j] == visits[j];
      }
    }
  }

  /** A finished visit of the first pending layer joins the record. */
  lemma VisitJoins(tree: seq<Layer>, ids: set<nat>, contexts: seq<TagFilter>, threshold: nat, level: nat,
                   seen: set<nat>, rest: seq<nat>, next: seq<nat>, visits: seq<Visit>, more: seq<nat>, v: Visit)
    requires rest != [] && AtLevel(tree, ids, contexts, threshold, level, seen, rest, next, visits)
    requires v.layer == rest[0] && Joins(tree, contexts, threshold, level, seen, more, v)
    ensures AtLevel(tree, ids, contexts, threshold, level, v.seen, rest[1..], next + more, visits + [v])
  {
    hide Exhaustive, AllProper, Followed, Recorded, Depth, PathIds;
    RecordJoins(tree, contexts, threshold, level, seen, rest, next, visits, more, v);
    assert rest == [rest[0]] + rest[1..];
    GrownSelf(tree);
    forall l | l in rest[1..] ensures Ready(tree, l, level, v.seen) {
      ReadyStable(tree, tree, l, level, seen, v.seen);
    }
    forall l | l in next + more ensures Ready(tree, l, level + 1, v.seen) {
      if l in next {
        ReadyStable(tree, tree, l, level + 1, seen, v.seen);
      }
    }
  }

  /** The calls of all visits, in order. */
  ghost function AllCalls(visits: seq<Visit>): seq<Call> {
    if visits == [] then [] else AllCalls(visits[..|visits| - 1]) + visits[|visits| - 1].calls
  }

  lemma AllCallsAppend(visits: seq<Visit>, v: Visit)
    ensures AllCalls(visits + [v]) == AllCalls(visits) + v.calls
  {
    assert (visits + [v])[..|visits|] == visits;
  }

  /** A visit reckons with the tags its layer had in this earlier tree. */
  ghost predicate Since(tree: seq<Layer>, v: Visit) {
    v.layer < |tree| ==> tree[v.layer].tags <= v.tags
  }

  /** One level: each layer is visited, in order. */
  method DissectLevel(log: Log, tree: Tree, contexts: seq<TagFilter>, ids: set<nat>, threshold: nat, level: nat,
                      leafLayers: seq<nat>, dissected: set<nat>, ghost before: seq<Visit>)
    returns (next: seq<nat>, seen: set<nat>, ghost visits: seq<Visit>, ghost calls: seq<Call>)
    requires Filters(contexts)
    requires AtLevel(tree.layers, ids, contexts, threshold, level, dissected, leafLayers, [], before)
    modifies log, tree
    ensures Filters(contexts) && AtLevel(tree.layers, ids, contexts, threshold, level, seen, [], next, visits)
    ensures Grown(old(tree.layers), tree.layers) && |visits| == |before| + |leafLayers| && before <= visits
    ensures log.calls == old(log.calls) + calls && AllCalls(visits) == AllCalls(before) + calls
    ensures forall k :: |before| <= k < |visits| ==>
        visits[k].layer == leafLayers[k - |before|] && visits[k].level == level && Since(old(tree.layers), visits[k])
  {
    next, seen, visits, calls := [], dissected, before, [];
    hide Exhaustive, Recorded, Depth, PathIds, AllProper, Followed, Ready, AllCalls;
    assert leafLayers[0..] == leafLayers;
    for i := 0 to |leafLayers|
      invariant Filters(contexts)
      invariant AtLevel(tree.layers, ids, contexts, threshold, level, seen, leafLayers[i..], next, visits)
      invariant Grown(old(tree.layers), tree.layers) && |visits| == |before| + i && before <= visits
      invariant log.calls == old(log.calls) + calls && AllCalls(visits) == AllCalls(before) + calls
      invariant forall k :: |before| <= k < |visits| ==>
          visits[k].layer == leafLayers[k - |before|] && visits[k].level == level && Since(old(tree.layers), visits[k])
    {
      ghost var rest, was, known := leafLayers[i..], tree.layers, seen;
      var layer := leafLayers[i];
      assert layer == rest[0] && layer in rest;
      ReadyVisiting(tree.layers, layer, level, seen);
      seen := seen + {tree.layers[layer].id};
      var more, v := VisitLayer(log, tree, contexts, ids, threshold, layer, level, seen);
      AtLevelStable(was, tree.layers, ids, contexts, threshold, level, known, rest, next, visits);
      VisitJoins(tree.layers, ids, contexts, threshold, level, known, rest, next, visits, more, v);
      GrownTransitive(old(tree.layers), was, tree.layers);
      AllCallsAppend(visits, v);
      next := next + more;
      visits := visits + [v];
      calls := calls + v.calls;
      assert rest[1..] == leafLayers[i + 1..];
    }
  }

  lemma ReadyVisiting(tree: seq<Layer>, l: nat, level: nat, seen: set<nat>)
    requires WellFormed(tree) && Ready(tree, l, level, seen)
    ensures l < |tree| && Visiting(tree, l, level, seen + {tree[l].id}, [], [])
  {
  }

  lemma FirstLevel(tree: seq<Layer>, ids: set<nat>, contexts: seq<TagFilter>, threshold: nat)
    requires WellFormed(tree) && IdsWithin(tree, ids)
    ensures AtLevel(tree, ids, contexts, threshold, 0, {}, [0], [], [])
  {
    assert Placed(tree, 0) && PathIds(tree, 0) == {tree[0].id};
  }

  /** The record of a frame when nothing is pending. */
  ghost predicate Complete(tree: seq<Layer>, contexts: seq<TagFilter>, threshold: nat, visits: seq<Visit>)
    requires WellFormed(tree)
  {
    && (forall v :: v in visits ==> Settled(tree, contexts, threshold, v))
    && (forall v, e :: v in visits && e in v.calls ==> Tracked(tree, visits, v, e, []))
    && (forall i: nat :: i < |visits| ==> SeenAt(tree, visits, i))
    && (forall i, j :: 0 <= i < j < |visits| ==> Informed(visits[i], visits[j]))
  }

  /** Dissecting a frame ends after at most as many levels as there are ids.  The calls made are those of the
      visits; in each visit exactly the dissectors matching the layer's final tags examine it, each once, and
      the confident ones analyze it; and each child they leave is visited, unless its id was dissected. */
  method DissectFrame(log: Log, tree: Tree, contexts: seq<TagFilter>, ids: set<nat>, threshold: nat)
    returns (levels: nat, ghost visits: seq<Visit>)
    requires Filters(contexts) && tree.Valid() && IdsWithin(tree.layers, ids)
    modifies log, tree
    ensures tree.Valid() && IdsWithin(tree.layers, ids) && Grown(old(tree.layers), tree.layers)
    ensures levels <= |ids| && log.calls == old(log.calls) + AllCalls(visits)
    ensures 0 < |visits| && visits[0].layer == 0 && forall v :: v in visits ==> v.level < levels
    ensures Complete(tree.layers, contexts, threshold, visits)
    ensures forall v :: v in visits ==> Since(old(tree.layers), v)
  {
    hide Exhaustive, Recorded, Depth, PathIds, AllProper, Ready, AllCalls, Complete;
    var leafLayers, seen := [0], {};
    levels, visits := 0, [];
    FirstLevel(tree.layers, ids, contexts, threshold);
    NoVisits();
    while leafLayers != []
      invariant Filters(contexts)
      invariant AtLevel(tree.layers, ids, contexts, threshold, levels, seen, leafLayers, [], visits)
      invariant Grown(old(tree.layers), tree.layers) && log.calls == old(log.calls) + AllCalls(visits)
      invariant levels == 0 ==> leafLayers == [0] && visits == []
      invariant 0 < levels ==> 0 < |visits| && visits[0].layer == 0
      invariant levels <= |ids| && forall v :: v in visits ==> v.level < levels && Since(old(tree.layers), v)
      decreases |ids| - levels
    {
      assert leafLayers[0] in leafLayers;
      ReadyBounded(tree.layers, ids, leafLayers[0], levels, seen);
      ghost var was, before := tree.layers, visits;
      var next;
      ghost var calls;
      next, seen, visits, calls := DissectLevel(log, tree, contexts, ids, threshold, levels, leafLayers, seen, visits);
      GrownTransitive(old(tree.layers), was, tree.layers);
      forall v | v in visits ensures v.level < levels + 1 && Since(old(tree.layers), v) {
        var k: nat :| k < |visits| && visits[k] == v;
        assert k < |before| ==> v == before[k];
      }
      assert [] + next == next && next + [] == next;
      assert old(log.calls) + AllCalls(before) + calls == old(log.calls) + (AllCalls(before) + calls);
      leafLayers := next;
      levels := levels + 1;
    }
    assert leafLayers + [] == [];
    LastLevel(tree.layers, contexts, threshold, visits, seen);
  }

  lemma NoVisits()
    ensures AllCalls([]) == []
  {
  }

  lemma LastLevel(tree: seq<Layer>, contexts: seq<TagFilter>, threshold: nat, visits: seq<Visit>, seen: set<nat>)
    requires WellFormed(tree) && Recorded(tree, contexts, threshold, visits, seen, [])
    ensures Complete(tree, contexts, threshold, visits)
  {
    hide Settled, Tracked, SeenAt, Informed, Dissected;
  }
}
