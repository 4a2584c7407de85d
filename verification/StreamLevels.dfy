/** The level loop of a stream dissector thread.  Each visit starts a fresh set of seen ids that holds the
    visited layer's id alone, so a layer's children are queued whenever their id differs from its own. */
module StreamLevels {
  import opened Common

  /** A layer: its id, and a number that tells it from others. */
  datatype Layer = Layer(id: nat, serial: nat)

  /** The layers from one handed to the thread down to one found below it. */
  type Path = p: seq<Layer> | p != [] witness [Layer(0, 0)]

  /** The children that the accepted dissectors of a visit see one after the other, repeats included. */
  type Dissectors = Path -> seq<Layer>

  function Queued(p: Path, kids: seq<Layer>): seq<Path> {
    if kids == [] then []
    else (if kids[0].id == p[|p| - 1].id then [] else [p + [kids[0]]]) + Queued(p, kids[1..])
  }

  function NextLevel(d: Dissectors, layers: seq<Path>): seq<Path> {
    if layers == [] then [] else Queued(layers[0], d(layers[0])) + NextLevel(d, layers[1..])
  }

  /** The layers visited in the loop's round `n`; the loop ends with the first round that has none. */
  function Level(d: Dissectors, layers: seq<Path>, n: nat): seq<Path> {
    if n == 0 then layers else NextLevel(d, Level(d, layers, n - 1))
  }

  lemma QueuedStep(p: Path, kids: seq<Layer>, j: nat)
    requires j < |kids|
    ensures Queued(p, kids[j..])
         == (if kids[j].id == p[|p| - 1].id then [] else [p + [kids[j]]]) + Queued(p, kids[j + 1..])
  {
    assert kids[j..][1..] == kids[j + 1..];
  }

  lemma NextLevelStep(d: Dissectors, layers: seq<Path>, i: nat)
    requires i < |layers|
    ensures NextLevel(d, layers[i..]) == Queued(layers[i], d(layers[i])) + NextLevel(d, layers[i + 1..])
  {
    assert layers[i..][1..] == layers[i + 1..];
  }

  /** The visit of one layer: children with another id are queued. */
  method Analyze(d: Dissectors, layer: Path, nextLayers: seq<Path>) returns (queued: seq<Path>)
    ensures queued == nextLayers + Queued(layer, d(layer))
  {
    queued := nextLayers;
    var kids := d(layer);
    assert kids[0..] == kids;
    hide Queued;
    for j := 0 to |kids|
      invariant queued + Queued(layer, kids[j..]) == nextLayers + Queued(layer, kids)
    {
      QueuedStep(layer, kids, j);
      if kids[j].id != layer[|layer| - 1].id {
        queued := queued + [layer + [kids[j]]];
      }
    }
    NothingQueued(layer, kids[|kids|..]);
  }

  lemma NothingQueued(layer: Path, kids: seq<Layer>)
    ensures kids == [] ==> Queued(layer, kids) == []
  {
  }

  /** One round of the level loop. */
  method AnalyzeLevel(d: Dissectors, layers: seq<Path>) returns (nextLayers: seq<Path>)
    ensures nextLayers == NextLevel(d, layers)
  {
    nextLayers := [];
    assert layers[0..] == layers && [] + NextLevel(d, layers) == NextLevel(d, layers);
    for i := 0 to |layers|
      invariant nextLayers + NextLevel(d, layers[i..]) == NextLevel(d, layers)
    {
      hide NextLevel, Queued;
      NextLevelStep(d, layers, i);
      nextLayers := Analyze(d, layers[i], nextLayers);
    }
    assert layers[|layers|..] == [];
  }

  /** `q` leads one layer further than `p`, to one of `kids` with another id. */
  ghost predicate Extends(p: Path, kids: seq<Layer>, q: Path) {
    |q| == |p| + 1 && q[..|p|] == p && q[|p|] in kids && q[|p|].id != p[|p| - 1].id
  }

  lemma {:induction false} QueuedMember(p: Path, kids: seq<Layer>, q: Path)
    ensures q in Queued(p, kids) <==> Extends(p, kids, q)
  {
    if kids != [] {
      QueuedMember(p, kids[1..], q);
      assert q == p + [kids[0]] <==> |q| == |p| + 1 && q[..|p|] == p && q[|p|] == kids[0];
    }
  }

  lemma {:induction false} NextLevelMember(d: Dissectors, layers: seq<Path>, q: Path)
    ensures q in NextLevel(d, layers) <==> exists p :: p in layers && Extends(p, d(p), q)
  {
    hide Queued, Extends;
    if layers != [] {
      QueuedMember(layers[0], d(layers[0]), q);
      NextLevelMember(d, layers[1..], q);
    }
  }

  lemma NextLevelFront(d: Dissectors, layers: seq<Path>, q: Path)
    ensures q in NextLevel(d, layers) <==> 1 < |q| && q[..|q| - 1] in layers && Step(d, q, |q| - 1)
  {
    hide NextLevel;
    NextLevelMember(d, layers, q);
    if 1 < |q| {
      var front: Path := q[..|q| - 1];
      assert forall p: Path :: Extends(p, d(p), q) ==> p == front;
      assert Extends(front, d(front), q) <==> Step(d, q, |q| - 1);
    }
  }

  /** A chain of layers below `first`: each is a child of the one before, with another id. */
  ghost predicate Chain(d: Dissectors, first: Path, q: Path) {
    && first <= q
    && forall k :: |first| <= k < |q| ==> Step(d, q, k)
  }

  ghost predicate Step(d: Dissectors, q: Path, k: nat)
    requires 0 < k < |q|
  {
    q[k] in d(q[..k]) && q[k].id != q[k - 1].id
  }

  ghost predicate EndsChain(d: Dissectors, layers: seq<Path>, n: nat, q: Path) {
    exists first :: first in layers && |q| == |first| + n && Chain(d, first, q)
  }

  /** Round `n` visits exactly the ends of the chains of `n` layers below the layers handed over. */
  lemma {:induction false} LevelIff(d: Dissectors, layers: seq<Path>, n: nat, q: Path)
    ensures q in Level(d, layers, n) <==> EndsChain(d, layers, n, q)
  {
    hide Chain, NextLevel;
    if n == 0 {
      WholeChain(d, layers, q);
    } else {
      hide EndsChain;
      NextLevelFront(d, Level(d, layers, n - 1), q);
      EndsChainFront(d, layers, n, q);
      if 1 < |q| {
        LevelIff(d, layers, n - 1, q[..|q| - 1]);
      }
    }
  }

  lemma WholeChain(d: Dissectors, layers: seq<Path>, q: Path)
    ensures EndsChain(d, layers, 0, q) <==> q in layers
  {
    forall first: Path | |q| == |first| ensures Chain(d, first, q) <==> q == first {
    }
  }

  lemma EndsChainFront(d: Dissectors, layers: seq<Path>, n: nat, q: Path)
    requires 0 < n
    ensures EndsChain(d, layers, n, q)
       <==> 1 < |q| && EndsChain(d, layers, n - 1, q[..|q| - 1]) && Step(d, q, |q| - 1)
  {
    hide Chain, Step;
    forall first: Path | |q| == |first| + n
      ensures Chain(d, first, q) <==> Chain(d, first, q[..|q| - 1]) && Step(d, q, |q| - 1)
    {
      ChainFront(d, first, q);
    }
  }

  lemma ChainFront(d: Dissectors, first: Path, q: Path)
    requires |first| < |q|
    ensures Chain(d, first, q) <==> Chain(d, first, q[..|q| - 1]) && Step(d, q, |q| - 1)
  {
    var front: Path := q[..|q| - 1];
    forall k | |first| <= k < |front| ensures Step(d, front, k) == Step(d, q, k) {
      assert front[..k] == q[..k];
    }
    if first <= front {
      assert first <= q;
    }
  }

  ghost function Ids(p: seq<Layer>): (ids: seq<nat>)
    ensures |ids| == |p| && forall i :: 0 <= i < |p| ==> ids[i] == p[i].id
  {
    seq(|p|, i requires 0 <= i < |p| => p[i].id)
  }

  /** Children never carry an id that is already on their path. */
  ghost predicate NoRepeats(d: Dissectors) {
    forall p: Path, l :: l in d(p) ==> l.id !in Ids(p)
  }

  ghost predicate Within(d: Dissectors, ids: set<nat>) {
    forall p: Path, l :: l in d(p) ==> l.id in ids
  }

  /** The ids of a path are different ones of a set. */
  ghost predicate Distinct(p: seq<Layer>, ids: set<nat>) {
    NoDuplicates(Ids(p)) && forall id :: id in Ids(p) ==> id in ids
  }

  lemma {:induction false} ChainOnce(d: Dissectors, ids: set<nat>, first: Path, q: Path)
    requires NoRepeats(d) && Within(d, ids) && Distinct(first, ids) && Chain(d, first, q)
    ensures Distinct(q, ids)
    decreases |q|
  {
    if |q| == |first| {
      assert q == first;
    } else {
      var front: Path := q[..|q| - 1];
      ChainFront(d, first, q);
      ChainOnce(d, ids, first, front);
      assert Ids(q) == Ids(front) + [q[|q| - 1].id];
    }
  }

  lemma {:induction false} OnceBounded(q: seq<nat>, ids: set<nat>)
    requires NoDuplicates(q) && forall id :: id in q ==> id in ids
    ensures |q| <= |ids|
    decreases |q|
  {
    if q != [] {
      var last := q[|q| - 1];
      forall id | id in q[..|q| - 1] ensures id in ids - {last} {
        assert id in q;
      }
      OnceBounded(q[..|q| - 1], ids - {last});
      assert last in q;
    }
  }

  /** If ids on a path do not repeat, the loop ends after at most as many rounds as there are ids. */
  lemma LevelsBounded(d: Dissectors, ids: set<nat>, layers: seq<Path>, n: nat)
    requires NoRepeats(d) && Within(d, ids) && |ids| <= n
    requires forall p :: p in layers ==> Distinct(p, ids)
    ensures Level(d, layers, n) == []
  {
    if Level(d, layers, n) != [] {
      var q := Level(d, layers, n)[0];
      LevelIff(d, layers, n, q);
      var first :| first in layers && |q| == |first| + n && Chain(d, first, q);
      ChainOnce(d, ids, first, q);
      OnceBounded(Ids(q), ids);
      assert false;
    }
  }

  /** Two dissectors of which each puts a layer for the other below its own. */
  function Alternating(p: Path): seq<Layer> {
    [Layer(if p[|p| - 1].id == 0 then 1 else 0, 0)]
  }

  /** They keep the loop going for ever, with two ids. */
  lemma {:induction false} LevelsUnbounded(n: nat)
    ensures Within(Alternating, {0, 1}) && Level(Alternating, [[Layer(0, 0)]], n) != []
  {
    if 0 < n {
      LevelsUnbounded(n - 1);
      var p := Level(Alternating, [[Layer(0, 0)]], n - 1)[0];
      var q: Path := p + Alternating(p);
      assert q[..|p|] == p;
      NextLevelFront(Alternating, Level(Alternating, [[Layer(0, 0)]], n - 1), q);
    }
  }
}
