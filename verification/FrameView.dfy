/** The published view of a frame: its leaf layers in display order, and lookups from the leaves
    to the root. */
module FrameViews {
  import opened Common
  import opened Layers

  predicate IsLeaf(tree: seq<Layer>, l: nat) {
    l < |tree| && tree[l].layers == []
  }

  /** The leaves below a layer, children in order. */
  ghost function Leaves(tree: seq<Layer>, i: nat): seq<nat>
    requires WellFormed(tree) && i < |tree|
    decreases |tree| - i, 1, 0
  {
    assert Placed(tree, i);
    if tree[i].layers == [] then [i] else ChildLeaves(tree, i, |tree[i].layers|)
  }

  ghost function ChildLeaves(tree: seq<Layer>, i: nat, n: nat): seq<nat>
    requires WellFormed(tree) && i < |tree| && n <= |tree[i].layers|
    decreases |tree| - i, 0, n
  {
    assert Placed(tree, i);
    if n == 0 then [] else
      assert IsChild(tree, tree[i].layers[n - 1], i);
      ChildLeaves(tree, i, n - 1) + Leaves(tree, tree[i].layers[n - 1])
  }

  /** The same leaves in the dispatcher's order: each child's list goes in front of those before. */
  ghost function StreamedLeaves(tree: seq<Layer>, i: nat): seq<nat>
    requires WellFormed(tree) && i < |tree|
    decreases |tree| - i, 1, 0
  {
    assert Placed(tree, i);
    if tree[i].layers == [] then [i] else StreamedChildLeaves(tree, i, |tree[i].layers|)
  }

  ghost function StreamedChildLeaves(tree: seq<Layer>, i: nat, n: nat): seq<nat>
    requires WellFormed(tree) && i < |tree| && n <= |tree[i].layers|
    decreases |tree| - i, 0, n
  {
    assert Placed(tree, i);
    if n == 0 then [] else
      assert IsChild(tree, tree[i].layers[n - 1], i);
      StreamedLeaves(tree, tree[i].layers[n - 1]) + StreamedChildLeaves(tree, i, n - 1)
  }

  /** Layer `l` is `i` or lies below it. */
  ghost predicate Under(tree: seq<Layer>, i: nat, l: nat)
    requires WellFormed(tree) && l < |tree|
    decreases l
  {
    assert Placed(tree, l);
    i == l || (0 < l && Under(tree, i, tree[l].parent.value))
  }

  lemma {:induction false} UnderBounds(tree: seq<Layer>, i: nat, l: nat)
    requires WellFormed(tree) && l < |tree|
    ensures Under(tree, i, l) ==> i <= l
    ensures Under(tree, 0, l)
    decreases l
  {
    assert Placed(tree, l);
    if 0 < l {
      UnderBounds(tree, i, tree[l].parent.value);
    }
  }

  /** Two layers above the same one lie above each other. */
  lemma {:induction false} UnderChain(tree: seq<Layer>, a: nat, b: nat, l: nat)
    requires WellFormed(tree) && l < |tree| && b < |tree| && a <= b
    requires Under(tree, a, l) && Under(tree, b, l)
    ensures Under(tree, a, b)
    decreases l
  {
    assert Placed(tree, l);
    if b != l {
      UnderBounds(tree, b, l);
      if a == l {
        assert false;
      }
      UnderChain(tree, a, b, tree[l].parent.value);
    }
  }

  /** A layer lies under at most one child of its ancestors. */
  lemma OneBranch(tree: seq<Layer>, i: nat, c: nat, d: nat, l: nat)
    requires WellFormed(tree) && l < |tree| && IsChild(tree, c, i) && IsChild(tree, d, i)
    requires Under(tree, c, l) && Under(tree, d, l)
    ensures c == d
  {
    var low, high := if c < d then c else d, if c < d then d else c;
    UnderChain(tree, low, high, l);
    if low != high {
      UnderBounds(tree, low, i);
    }
  }

  /** A layer strictly below `i` lies under one of its children. */
  lemma {:induction false} SomeBranch(tree: seq<Layer>, i: nat, l: nat) returns (k: nat)
    requires WellFormed(tree) && l < |tree| && i < |tree| && Under(tree, i, l) && i != l
    ensures k < |tree[i].layers| && tree[i].layers[k] < |tree| && Under(tree, tree[i].layers[k], l)
    decreases l
  {
    assert Placed(tree, l) && Placed(tree, i);
    var p := tree[l].parent.value;
    if p == i {
      k :| 0 <= k < |tree[i].layers| && tree[i].layers[k] == l;
    } else {
      k := SomeBranch(tree, i, p);
    }
  }

  /** The leaf list below a layer holds each leaf below it exactly once, and nothing else; so does
      the dispatcher's list. */
  lemma {:induction false} LeavesOnce(tree: seq<Layer>, i: nat, l: nat)
    requires WellFormed(tree) && i < |tree| && l < |tree|
    ensures multiset(Leaves(tree, i))[l] == Once(IsLeaf(tree, l) && Under(tree, i, l))
    ensures multiset(StreamedLeaves(tree, i))[l] == Once(IsLeaf(tree, l) && Under(tree, i, l))
    decreases |tree| - i, 1, 0
  {
    assert Placed(tree, i);
    if tree[i].layers == [] {
      if Under(tree, i, l) && i != l {
        var k := SomeBranch(tree, i, l);
        assert false;
      }
    } else {
      var n := |tree[i].layers|;
      ChildLeavesOnce(tree, i, n, l);
      if Under(tree, i, l) && i != l {
        var k := SomeBranch(tree, i, l);
        assert Branch(tree, i, n, l);
      }
    }
  }

  ghost predicate Branch(tree: seq<Layer>, i: nat, n: nat, l: nat)
    requires WellFormed(tree) && i < |tree| && n <= |tree[i].layers| && l < |tree|
  {
    exists k :: 0 <= k < n && Under(tree, tree[i].layers[k], l)
  }

  /** A layer lies under one more child: never under two. */
  lemma BranchStep(tree: seq<Layer>, i: nat, n: nat, l: nat)
    requires WellFormed(tree) && i < |tree| && 0 < n <= |tree[i].layers| && l < |tree|
    ensures IsChild(tree, tree[i].layers[n - 1], i)
    ensures Once(Branch(tree, i, n, l))
         == Once(Branch(tree, i, n - 1, l)) + Once(Under(tree, tree[i].layers[n - 1], l))
    ensures Under(tree, tree[i].layers[n - 1], l) ==> Under(tree, i, l)
  {
    assert Placed(tree, i);
    var c := tree[i].layers[n - 1];
    assert IsChild(tree, c, i);
    assert Branch(tree, i, n, l) <==> Branch(tree, i, n - 1, l) || Under(tree, c, l);
    if Under(tree, c, l) {
      UnderThrough(tree, i, c, l);
      if Branch(tree, i, n - 1, l) {
        var k :| 0 <= k < n - 1 && Under(tree, tree[i].layers[k], l);
        assert IsChild(tree, tree[i].layers[k], i);
        OneBranch(tree, i, tree[i].layers[k], c, l);
        assert false;
      }
    }
  }

  lemma {:induction false} ChildLeavesOnce(tree: seq<Layer>, i: nat, n: nat, l: nat)
    requires WellFormed(tree) && i < |tree| && n <= |tree[i].layers| && l < |tree|
    ensures multiset(ChildLeaves(tree, i, n))[l] == Once(IsLeaf(tree, l) && Branch(tree, i, n, l))
    ensures multiset(StreamedChildLeaves(tree, i, n))[l] == Once(IsLeaf(tree, l) && Branch(tree, i, n, l))
    ensures Branch(tree, i, n, l) ==> Under(tree, i, l)
    decreases |tree| - i, 0, n
  {
    hide Under, Leaves, StreamedLeaves, IsLeaf, WellFormed;
    if 0 < n {
      BranchStep(tree, i, n, l);
      ChildLeavesOnce(tree, i, n - 1, l);
      LeavesOnce(tree, tree[i].layers[n - 1], l);
    }
  }

  lemma {:induction false} UnderThrough(tree: seq<Layer>, i: nat, c: nat, l: nat)
    requires WellFormed(tree) && l < |tree| && IsChild(tree, c, i) && Under(tree, c, l)
    ensures Under(tree, i, l)
    decreases l
  {
    assert Placed(tree, l);
    if c != l {
      UnderThrough(tree, i, c, tree[l].parent.value);
    } else {
      assert Under(tree, i, i);
    }
  }

  /** Every layer has a leaf at or below it. */
  lemma {:induction false} LeafBelow(tree: seq<Layer>, i: nat) returns (l: nat)
    requires WellFormed(tree) && i < |tree|
    ensures IsLeaf(tree, l) && Under(tree, i, l)
    decreases |tree| - i
  {
    assert Placed(tree, i);
    if tree[i].layers == [] {
      l := i;
    } else {
      var c := tree[i].layers[0];
      assert IsChild(tree, c, i);
      l := LeafBelow(tree, c);
      UnderThrough(tree, i, c, l);
    }
  }

  lemma {:induction false} LeavesWithin(tree: seq<Layer>, i: nat)
    requires WellFormed(tree) && i < |tree|
    ensures forall l :: l in Leaves(tree, i) ==> l < |tree|
    decreases |tree| - i, 1, 0
  {
    assert Placed(tree, i);
    if tree[i].layers != [] {
      ChildLeavesWithin(tree, i, |tree[i].layers|);
    }
  }

  lemma {:induction false} ChildLeavesWithin(tree: seq<Layer>, i: nat, n: nat)
    requires WellFormed(tree) && i < |tree| && n <= |tree[i].layers|
    ensures forall l :: l in ChildLeaves(tree, i, n) ==> l < |tree|
    decreases |tree| - i, 0, n
  {
    assert Placed(tree, i);
    if 0 < n {
      assert IsChild(tree, tree[i].layers[n - 1], i);
      ChildLeavesWithin(tree, i, n - 1);
      LeavesWithin(tree, tree[i].layers[n - 1]);
    }
  }

  /** Display order: the more confident leaf first, then the smaller id. */
  predicate Precedes(tree: seq<Layer>, a: nat, b: nat) {
    && a < |tree| && b < |tree|
    && (tree[a].confidence > tree[b].confidence
        || (tree[a].confidence == tree[b].confidence && tree[a].id <= tree[b].id))
  }

  ghost predicate Sorted(tree: seq<Layer>, list: seq<nat>) {
    && (forall l :: l in list ==> l < |tree|)
    && (forall j, k :: 0 <= j < k < |list| ==> Precedes(tree, list[j], list[k]))
  }

  method Insert(tree: seq<Layer>, list: seq<nat>, x: nat) returns (after: seq<nat>)
    requires Sorted(tree, list) && x < |tree|
    ensures Sorted(tree, after) && multiset(after) == multiset(list) + multiset{x}
  {
    var at := 0;
    while at < |list| && Precedes(tree, list[at], x)
      invariant at <= |list|
      invariant forall k :: 0 <= k < at ==> Precedes(tree, list[k], x)
    {
      at := at + 1;
    }
    after := list[..at] + [x] + list[at..];
    assert list == list[..at] + list[at..];
    InsertSorted(tree, list, at, x);
  }

  /** Stands for the library sort: some ordered permutation. */
  method Sort(tree: seq<Layer>, list: seq<nat>) returns (sorted: seq<nat>)
    requires forall l :: l in list ==> l < |tree|
    ensures multiset(sorted) == multiset(list)
    ensures Sorted(tree, sorted)
  {
    sorted := [];
    for i := 0 to |list|
      invariant multiset(sorted) == multiset(list[..i])
      invariant Sorted(tree, sorted)
    {
      assert list[i] in list && list[..i + 1] == list[..i] + [list[i]];
      sorted := Insert(tree, sorted, list[i]);
    }
    assert list[..|list|] == list;
  }

  lemma InsertSorted(tree: seq<Layer>, list: seq<nat>, at: nat, x: nat)
    requires Sorted(tree, list) && at <= |list| && x < |tree|
    requires forall k :: 0 <= k < at ==> Precedes(tree, list[k], x)
    requires at < |list| ==> !Precedes(tree, list[at], x)
    ensures Sorted(tree, list[..at] + [x] + list[at..])
  {
    var after := list[..at] + [x] + list[at..];
    forall l | l in after ensures l < |tree| {
      assert l == x || l in list;
    }
    forall j, k | 0 <= j < k < |after| ensures Precedes(tree, after[j], after[k]) {
      if k == at {
        assert after[j] == list[j];
      } else if j == at {
        assert after[k] == list[k - 1] && list[k - 1] in list && list[at] in list;
        assert k - 1 == at || Precedes(tree, list[at], list[k - 1]);
      } else {
        assert after[j] == list[if j < at then j else j - 1] && after[k] == list[if k < at then k else k - 1];
      }
    }
  }

  /** The first attribute found under a token; an alias redirects the rest of the walk. */
  function FindAttr(attrs: seq<Attr>, token: nat): Option<Attr> {
    if attrs == [] then None
    else if attrs[0].id != token then FindAttr(attrs[1..], token)
    else match attrs[0].alias
      case None => Some(attrs[0])
      case Some(target) => FindAttr(attrs[1..], target)
  }

  /** `k` is the first position from `start` on with an attribute of this id. */
  ghost predicate FirstAt(attrs: seq<Attr>, start: nat, id: nat, k: nat) {
    start <= k < |attrs| && attrs[k].id == id && forall j :: start <= j < k ==> attrs[j].id != id
  }

  /** The attribute at each position of the chain is an alias, and the next position is the first one behind
      with the alias's target. */
  ghost predicate Redirects(attrs: seq<Attr>, chain: seq<nat>, i: nat)
    requires i + 1 < |chain|
  {
    chain[i] < |attrs| && attrs[chain[i]].alias.Some?
    && FirstAt(attrs, chain[i] + 1, attrs[chain[i]].alias.value, chain[i + 1])
  }

  /** The positions a lookup from `start` on passes: the first is that of the first attribute with the token,
      and the last attribute is no alias. */
  ghost predicate Chain(attrs: seq<Attr>, start: nat, token: nat, chain: seq<nat>) {
    && chain != [] && FirstAt(attrs, start, token, chain[0])
    && (forall i: nat :: i + 1 < |chain| ==> Redirects(attrs, chain, i))
    && chain[|chain| - 1] < |attrs| && attrs[chain[|chain| - 1]].alias.None?
  }

  ghost predicate LeadsTo(attrs: seq<Attr>, token: nat, attr: Attr) {
    exists chain :: Chain(attrs, 0, token, chain) && attrs[chain[|chain| - 1]] == attr
  }

  lemma FirstAtUnique(attrs: seq<Attr>, start: nat, id: nat, k: nat, l: nat)
    requires FirstAt(attrs, start, id, k) && FirstAt(attrs, start, id, l)
    ensures k == l
  {
  }

  lemma ChainSkips(attrs: seq<Attr>, start: nat, token: nat, chain: seq<nat>)
    requires start < |attrs| && attrs[start].id != token
    ensures Chain(attrs, start, token, chain) <==> Chain(attrs, start + 1, token, chain)
  {
  }

  lemma ChainTail(attrs: seq<Attr>, start: nat, token: nat, target: nat, chain: seq<nat>)
    requires start < |attrs| && attrs[start] == Attr(token, Some(target)) && chain != []
    ensures Chain(attrs, start, token, chain)
       <==> chain[0] == start && Chain(attrs, start + 1, target, chain[1..])
  {
    var rest := chain[1..];
    if Chain(attrs, start, token, chain) {
      FirstAtUnique(attrs, start, token, start, chain[0]);
      assert |chain| > 1 && Redirects(attrs, chain, 0);
      forall i: nat | i + 1 < |rest| ensures Redirects(attrs, rest, i) {
        assert Redirects(attrs, chain, i + 1);
      }
    }
    if chain[0] == start && Chain(attrs, start + 1, target, rest) {
      forall i: nat | i + 1 < |chain| ensures Redirects(attrs, chain, i) {
        assert 0 < i ==> Redirects(attrs, rest, i - 1);
      }
    }
  }

  /** There is at most one chain; the lookup yields the attribute it ends at, and nothing without one. */
  lemma {:induction false} FindAttrChain(attrs: seq<Attr>, start: nat, token: nat) returns (chain: seq<nat>)
    requires start <= |attrs|
    ensures var found := FindAttr(attrs[start..], token);
            if found.Some? then
              Chain(attrs, start, token, chain) && found.value == attrs[chain[|chain| - 1]]
              && forall c :: Chain(attrs, start, token, c) ==> c == chain
            else forall c :: !Chain(attrs, start, token, c)
    decreases |attrs| - start
  {
    hide Chain, Redirects;
    chain := [];
    if start == |attrs| {
      NoChain(attrs, start, token);
    } else {
      assert attrs[start..][1..] == attrs[start + 1..];
      var attr := attrs[start];
      if attr.id != token {
        chain := FindAttrChain(attrs, start + 1, token);
        forall c ensures Chain(attrs, start, token, c) <==> Chain(attrs, start + 1, token, c) {
          ChainSkips(attrs, start, token, c);
        }
      } else if attr.alias.None? {
        chain := [start];
        forall c ensures Chain(attrs, start, token, c) <==> c == chain {
          ChainEnds(attrs, start, token, c);
        }
      } else {
        var rest := FindAttrChain(attrs, start + 1, attr.alias.value);
        chain := [start] + rest;
        forall c ensures Chain(attrs, start, token, c)
            <==> c != [] && c[0] == start && Chain(attrs, start + 1, attr.alias.value, c[1..]) {
          if c != [] {
            ChainTail(attrs, start, token, attr.alias.value, c);
          } else {
            NotEmpty(attrs, start, token);
          }
        }
        assert chain[1..] == rest;
        forall c | Chain(attrs, start, token, c) && c[1..] == rest ensures c == chain {
          assert c == [c[0]] + c[1..];
        }
        NotEmpty(attrs, start + 1, attr.alias.value);
      }
    }
  }

  lemma NotEmpty(attrs: seq<Attr>, start: nat, token: nat)
    ensures !Chain(attrs, start, token, [])
  {
  }

  lemma NoChain(attrs: seq<Attr>, start: nat, token: nat)
    requires |attrs| <= start
    ensures forall c :: !Chain(attrs, start, token, c)
  {
  }

  lemma ChainEnds(attrs: seq<Attr>, start: nat, token: nat, chain: seq<nat>)
    requires start < |attrs| && attrs[start] == Attr(token, None)
    ensures Chain(attrs, start, token, chain) <==> chain == [start]
  {
    if Chain(attrs, start, token, chain) {
      FirstAtUnique(attrs, start, token, start, chain[0]);
      assert |chain| > 1 ==> Redirects(attrs, chain, 0);
    }
  }

  /** What the lookup finds is what a chain of positions leads to, and it finds nothing exactly without one. */
  lemma FindAttrLeads(attrs: seq<Attr>, token: nat)
    ensures forall attr :: FindAttr(attrs, token) == Some(attr) <==> LeadsTo(attrs, token, attr)
  {
    hide Chain;
    var chain := FindAttrChain(attrs, 0, token);
    assert attrs[0..] == attrs;
  }

  /** The loop that rewrites its id at an alias. */
  method LayerAttr(attrs: seq<Attr>, token: nat) returns (found: Option<Attr>)
    ensures found == FindAttr(attrs, token)
    ensures forall attr :: found == Some(attr) <==> LeadsTo(attrs, token, attr)
  {
    FindAttrLeads(attrs, token);
    hide LeadsTo;
    var id := token;
    for i := 0 to |attrs|
      invariant FindAttr(attrs, token) == FindAttr(attrs[i..], id)
    {
      assert attrs[i..][1..] == attrs[i + 1..];
      var child := attrs[i];
      if child.id == id {
        if child.alias.Some? {
          id := child.alias.value;
        } else {
          return Some(child);
        }
      }
    }
    return None;
  }

  datatype Hit = Nothing | LayerHit(layer: nat) | AttrHit(attr: Attr)

  /** Whether a layer answers a query itself: with its id, when ids are asked for, or an attribute. */
  function Answer(layer: Layer, i: nat, id: nat, ids: bool): Hit {
    if ids && layer.id == id then LayerHit(i)
    else match FindAttr(layer.attrs, id)
      case Some(attr) => AttrHit(attr)
      case None => Nothing
  }

  /** The first answer on the way from a layer to the root. */
  ghost function Ascend(tree: seq<Layer>, i: nat, id: nat, ids: bool): Hit
    requires WellFormed(tree) && i < |tree|
    decreases i
  {
    assert Placed(tree, i);
    var own := Answer(tree[i], i, id, ids);
    if own != Nothing || i == 0 then own else Ascend(tree, tree[i].parent.value, id, ids)
  }

  lemma {:induction false} AscendComplete(tree: seq<Layer>, i: nat, l: nat, id: nat, ids: bool)
    requires WellFormed(tree) && l < |tree| && i < |tree| && Under(tree, i, l) && Answer(tree[i], i, id, ids) != Nothing
    ensures Ascend(tree, l, id, ids) != Nothing
    decreases l
  {
    assert Placed(tree, l);
    if i != l {
      AscendComplete(tree, i, tree[l].parent.value, id, ids);
    }
  }

  /** What a layer shows to a query: itself, if ids are asked for and its id is that, or else an attribute. */
  ghost predicate Shows(layer: Layer, i: nat, id: nat, ids: bool, hit: Hit) {
    if ids && layer.id == id then hit == LayerHit(i)
    else hit.AttrHit? && LeadsTo(layer.attrs, id, hit.attr)
  }

  lemma AnswerShows(layer: Layer, i: nat, id: nat, ids: bool)
    ensures forall hit :: Shows(layer, i, id, ids, hit) <==> hit != Nothing && Answer(layer, i, id, ids) == hit
  {
    hide LeadsTo;
    FindAttrLeads(layer.attrs, id);
  }

  /** The hit is shown by the layer nearest to the `k`-th leaf that shows anything, and the leaves before have
      none that does above them. */
  ghost predicate Nearest(tree: seq<Layer>, leaves: seq<nat>, k: nat, m: nat, id: nat, ids: bool, hit: Hit)
    requires WellFormed(tree)
  {
    && k < |leaves| && m < |tree| && (forall j :: 0 <= j < |leaves| ==> leaves[j] < |tree|)
    && Under(tree, m, leaves[k]) && Shows(tree[m], m, id, ids, hit)
    && (forall n: nat, any :: m < n <= leaves[k] && Under(tree, n, leaves[k]) ==> !Shows(tree[n], n, id, ids, any))
    && (forall j: nat, n: nat, any :: j < k && n <= leaves[j] && Under(tree, n, leaves[j]) ==>
        !Shows(tree[n], n, id, ids, any))
  }

  /** Going up yields what the nearest layer shows, if one shows anything. */
  lemma {:induction false} AscendNearest(tree: seq<Layer>, l: nat, id: nat, ids: bool) returns (m: nat)
    requires WellFormed(tree) && l < |tree|
    ensures var hit := Ascend(tree, l, id, ids);
            if hit == Nothing then
              forall n: nat, any :: n <= l && Under(tree, n, l) ==> !Shows(tree[n], n, id, ids, any)
            else
              && m <= l && Under(tree, m, l) && Shows(tree[m], m, id, ids, hit)
              && forall n: nat, any :: m < n <= l && Under(tree, n, l) ==> !Shows(tree[n], n, id, ids, any)
    decreases l
  {
    hide Shows, Answer;
    assert Placed(tree, l);
    AnswerShows(tree[l], l, id, ids);
    m := l;
    if Answer(tree[l], l, id, ids) == Nothing && 0 < l {
      var parent := tree[l].parent.value;
      m := AscendNearest(tree, parent, id, ids);
      forall n: nat | n < l && Under(tree, n, l) ensures n <= parent && Under(tree, n, parent) {
        UnderBounds(tree, n, parent);
      }
    }
  }

  /** What is seen from a leaf is what the nearest layer shows. */
  lemma SeenNearest(tree: seq<Layer>, leaves: seq<nat>, k: nat, id: nat, ids: bool, hit: Hit) returns (m: nat)
    requires WellFormed(tree) && SeenFrom(tree, leaves, k, id, ids, hit) && hit != Nothing
    requires forall j :: 0 <= j < |leaves| ==> leaves[j] < |tree|
    ensures Nearest(tree, leaves, k, m, id, ids, hit)
  {
    hide Shows, Ascend;
    m := AscendNearest(tree, leaves[k], id, ids);
    forall j: nat, n: nat, any | j < k && n <= leaves[j] && Under(tree, n, leaves[j])
      ensures !Shows(tree[n], n, id, ids, any)
    {
      var _ := AscendNearest(tree, leaves[j], id, ids);
    }
  }

  ghost predicate AnsweredBy(tree: seq<Layer>, i: nat, id: nat, ids: bool, hit: Hit) {
    i < |tree| && Answer(tree[i], i, id, ids) == hit
  }

  /** Of the leaves in order, the `k`-th is the first from which the way to the root meets an answer, and
      that answer is `hit`. */
  ghost predicate SeenFrom(tree: seq<Layer>, leaves: seq<nat>, k: nat, id: nat, ids: bool, hit: Hit)
    requires WellFormed(tree)
  {
    && k < |leaves| && leaves[k] < |tree| && Ascend(tree, leaves[k], id, ids) == hit
    && forall j :: 0 <= j < k ==> leaves[j] < |tree| && Ascend(tree, leaves[j], id, ids) == Nothing
  }

  class FrameView {
    var leafLayers: seq<nat>
    const tree: Tree

    ghost predicate Valid()
      reads this, tree
    {
      && tree.Valid()
      && multiset(leafLayers) == multiset(Leaves(tree.layers, 0))
      && Sorted(tree.layers, leafLayers)
    }

    constructor (tree: Tree)
      requires tree.Valid()
      ensures Valid() && this.tree == tree
      ensures forall l: nat :: multiset(leafLayers)[l] == Once(IsLeaf(tree.layers, l))
      ensures forall j, k :: 0 <= j < k < |leafLayers| ==>
          var a, b := leafLayers[j], leafLayers[k];
          && a < |tree.layers| && b < |tree.layers|
          && (tree.layers[a].confidence > tree.layers[b].confidence
              || (tree.layers[a].confidence == tree.layers[b].confidence && tree.layers[a].id <= tree.layers[b].id))
    {
      this.tree := tree;
      leafLayers := [];
      new;
      assert Placed(tree.layers, 0);
      FindLeafLayers(0);
      LeavesWithin(tree.layers, 0);
      leafLayers := Sort(tree.layers, leafLayers);
      forall l: nat ensures multiset(leafLayers)[l] == Once(IsLeaf(tree.layers, l)) {
        ViewHoldsLeaves(tree.layers, leafLayers, l);
      }
    }

    method FindLeafLayers(layer: nat)
      requires tree.Valid() && layer < |tree.layers|
      modifies this
      ensures leafLayers == old(leafLayers) + Leaves(tree.layers, layer)
      decreases |tree.layers| - layer
    {
      assert Placed(tree.layers, layer);
      var children := tree.layers[layer].layers;
      if children == [] {
        leafLayers := leafLayers + [layer];
      } else {
        for i := 0 to |children|
          invariant leafLayers == old(leafLayers) + ChildLeaves(tree.layers, layer, i)
        {
          assert children[i] in children && IsChild(tree.layers, children[i], layer);
          FindLeafLayers(children[i]);
        }
      }
    }

    /** Finds something exactly when some layer anywhere in the tree answers, and then the answer nearest
        to the first leaf in display order that has one above it.  `ids` tells `query`, which also looks at
        layer ids, from `attr`. */
    method Query(id: nat, ids: bool) returns (hit: Hit)
      requires Valid()
      ensures hit == Nothing <==> forall i: nat :: i < |tree.layers| ==> Answer(tree.layers[i], i, id, ids) == Nothing
      ensures hit != Nothing ==> exists i: nat :: AnsweredBy(tree.layers, i, id, ids, hit)
      ensures hit != Nothing ==> exists k: nat :: SeenFrom(tree.layers, leafLayers, k, id, ids, hit)
      ensures hit == Nothing <==>
          forall i: nat, any :: i < |tree.layers| ==> !Shows(tree.layers[i], i, id, ids, any)
      ensures hit != Nothing ==> exists k: nat, m: nat :: Nearest(tree.layers, leafLayers, k, m, id, ids, hit)
    {
      var layers := tree.layers;
      for k := 0 to |leafLayers|
        invariant forall j :: 0 <= j < k ==>
            leafLayers[j] < |layers| && Ascend(layers, leafLayers[j], id, ids) == Nothing
      {
        var leaf := leafLayers[k];
        assert leaf in leafLayers;
        var layer: Option<nat> := Some(leaf);
        while layer.Some?
          invariant layer.Some? ==>
                      layer.value < |layers| && Ascend(layers, leaf, id, ids) == Ascend(layers, layer.value, id, ids)
          invariant layer.None? ==> Ascend(layers, leaf, id, ids) == Nothing
          decreases if layer.Some? then layer.value + 1 else 0
        {
          var i := layer.value;
          assert Placed(layers, i);
          if ids && layers[i].id == id {
            assert AnsweredBy(layers, i, id, ids, LayerHit(i)) && SeenFrom(layers, leafLayers, k, id, ids, LayerHit(i));
            HitShown(id, ids, LayerHit(i), k, i);
            return LayerHit(i);
          }
          var attr := LayerAttr(layers[i].attrs, id);
          if attr.Some? {
            hit := AttrHit(attr.value);
            assert AnsweredBy(layers, i, id, ids, hit) && SeenFrom(layers, leafLayers, k, id, ids, hit);
            HitShown(id, ids, hit, k, i);
            return;
          }
          layer := layers[i].parent;
        }
      }
      hit := Nothing;
      forall i: nat | i < |layers| ensures Answer(layers[i], i, id, ids) == Nothing {
        if Answer(layers[i], i, id, ids) != Nothing {
          EveryLayerSeen(layers, leafLayers, i, id, ids);
        }
      }
      NothingShown(id, ids);
    }

    lemma HitShown(id: nat, ids: bool, hit: Hit, k: nat, i: nat)
      requires Valid() && hit != Nothing && SeenFrom(tree.layers, leafLayers, k, id, ids, hit)
      requires AnsweredBy(tree.layers, i, id, ids, hit)
      ensures Shows(tree.layers[i], i, id, ids, hit)
      ensures exists m: nat :: Nearest(tree.layers, leafLayers, k, m, id, ids, hit)
    {
      AnswerShows(tree.layers[i], i, id, ids);
      var m := SeenNearest(tree.layers, leafLayers, k, id, ids, hit);
    }

    lemma NothingShown(id: nat, ids: bool)
      requires forall i: nat :: i < |tree.layers| ==> Answer(tree.layers[i], i, id, ids) == Nothing
      ensures forall i: nat, any :: i < |tree.layers| ==> !Shows(tree.layers[i], i, id, ids, any)
    {
      hide Shows, Answer;
      forall i: nat, any | i < |tree.layers| ensures !Shows(tree.layers[i], i, id, ids, any) {
        AnswerShows(tree.layers[i], i, id, ids);
      }
    }
  }

  /** A layer that answers is seen from some leaf of the view. */
  lemma EveryLayerSeen(tree: seq<Layer>, leaves: seq<nat>, i: nat, id: nat, ids: bool)
    requires WellFormed(tree) && multiset(leaves) == multiset(Leaves(tree, 0)) && i < |tree|
    requires Answer(tree[i], i, id, ids) != Nothing
    ensures exists j :: 0 <= j < |leaves| && leaves[j] < |tree| && Ascend(tree, leaves[j], id, ids) != Nothing
  {
    var l := LeafBelow(tree, i);
    UnderBounds(tree, 0, l);
    LeavesOnce(tree, 0, l);
    assert l in multiset(leaves);
    var j :| 0 <= j < |leaves| && leaves[j] == l;
    AscendComplete(tree, i, l, id, ids);
  }

  /** The view holds every leaf of the tree exactly once, and nothing else. */
  lemma ViewHoldsLeaves(tree: seq<Layer>, leaves: seq<nat>, l: nat)
    requires WellFormed(tree) && multiset(leaves) == multiset(Leaves(tree, 0))
    ensures multiset(leaves)[l] == Once(IsLeaf(tree, l))
  {
    LeavesWithin(tree, 0);
    if l < |tree| {
      LeavesOnce(tree, 0, l);
      UnderBounds(tree, 0, l);
    } else {
      assert l !in Leaves(tree, 0);
    }
  }

  /** The dispatcher hands out exactly the leaves the view shows. */
  lemma StreamedSameLeaves(tree: seq<Layer>, l: nat)
    requires WellFormed(tree) && l < |tree|
    ensures multiset(StreamedLeaves(tree, 0))[l] == multiset(Leaves(tree, 0))[l] == Once(IsLeaf(tree, l))
  {
    LeavesOnce(tree, 0, l);
    UnderBounds(tree, 0, l);
  }
}
