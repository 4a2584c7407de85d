/** The layer tree of a frame.  A layer is named by its position in allocation order, position 0
    being the root; layers, tags and attributes are only ever appended. */
module Layers {
  import opened Common

  datatype Attr = Attr(id: nat, alias: Option<nat>)

  datatype Layer = Layer(id: nat, parent: Option<nat>, layers: seq<nat>, tags: seq<nat>, attrs: seq<Attr>,
      confidence: nat)

  predicate IsChild(tree: seq<Layer>, c: nat, i: nat) {
    i < c < |tree| && tree[c].parent == Some(i)
  }

  /** Layer `i` is listed by its parent, unless it is the root, and lists exactly children of its
      own, each once. */
  ghost predicate Placed(tree: seq<Layer>, i: nat)
    requires i < |tree|
  {
    && (i == 0 ==> tree[i].parent.None?)
    && (0 < i ==> tree[i].parent.Some? && tree[i].parent.value < i && i in tree[tree[i].parent.value].layers)
    && (forall c :: c in tree[i].layers ==> IsChild(tree, c, i))
    && NoDuplicates(tree[i].layers)
  }

  ghost predicate WellFormed(tree: seq<Layer>) {
    tree != [] && forall i :: 0 <= i < |tree| ==> Placed(tree, i)
  }

  function Extended(tree: seq<Layer>, parent: nat, id: nat, confidence: nat): seq<Layer>
    requires parent < |tree|
  {
    tree[parent := tree[parent].(layers := tree[parent].layers + [|tree|])]
    + [Layer(id, Some(parent), [], [], [], confidence)]
  }

  lemma ExtendedWellFormed(tree: seq<Layer>, parent: nat, id: nat, confidence: nat)
    requires WellFormed(tree) && parent < |tree|
    ensures WellFormed(Extended(tree, parent, id, confidence))
    ensures Grown(tree, Extended(tree, parent, id, confidence))
  {
    var after := Extended(tree, parent, id, confidence);
    var n := |tree|;
    assert after[parent].layers[|tree[parent].layers|] == n;
    forall i | 0 <= i < n ensures Placed(after, i) {
      assert Placed(tree, i);
      forall c | c in after[i].layers ensures IsChild(after, c, i) {
        assert c == n || IsChild(tree, c, i);
      }
      if i == parent {
        assert forall k :: 0 <= k < |tree[i].layers| ==> IsChild(tree, tree[i].layers[k], i);
      }
      if 0 < i {
        assert i in after[tree[i].parent.value].layers by {
          assert tree[tree[i].parent.value].layers <= after[tree[i].parent.value].layers;
        }
      }
    }
    assert Placed(after, |tree|);
  }

  /** Changing tags or attributes leaves the shape alone. */
  lemma RelabelledWellFormed(tree: seq<Layer>, i: nat, layer: Layer)
    requires WellFormed(tree) && i < |tree| && layer == tree[i].(tags := layer.tags, attrs := layer.attrs)
    ensures WellFormed(tree[i := layer])
  {
    var after := tree[i := layer];
    forall j | 0 <= j < |tree| ensures Placed(after, j) {
      assert Placed(tree, j);
      assert forall c :: IsChild(tree, c, j) ==> IsChild(after, c, j);
    }
  }

  /** `after` is `before` with layers, tags and attributes appended. */
  ghost predicate Grown(before: seq<Layer>, after: seq<Layer>) {
    && |before| <= |after|
    && forall i :: 0 <= i < |before| ==>
         && after[i].id == before[i].id && after[i].parent == before[i].parent
             && after[i].confidence == before[i].confidence
         && before[i].layers <= after[i].layers && before[i].tags <= after[i].tags && before[i].attrs <= after[i].attrs
  }

  class Tree {
    var layers: seq<Layer>

    ghost predicate Valid()
      reads this
    {
      WellFormed(layers)
    }

    constructor (id: nat, tags: seq<nat>, confidence: nat)
      ensures Valid() && layers == [Layer(id, None, [], tags, [], confidence)]
    {
      layers := [Layer(id, None, [], tags, [], confidence)];
    }

    method AddLayer(parent: nat, id: nat, confidence: nat) returns (child: nat)
      requires Valid() && parent < |layers|
      modifies this
      ensures Valid() && Grown(old(layers), layers)
      ensures child == |old(layers)| && layers == Extended(old(layers), parent, id, confidence)
      ensures |layers| == child + 1 && layers[child] == Layer(id, Some(parent), [], [], [], confidence)
      ensures layers[parent].layers == old(layers[parent].layers) + [child]
      ensures layers[parent] == old(layers[parent]).(layers := layers[parent].layers)
      ensures forall i :: 0 <= i < child && i != parent ==> layers[i] == old(layers)[i]
    {
      child := |layers|;
      ExtendedWellFormed(layers, parent, id, confidence);
      layers := Extended(layers, parent, id, confidence);
    }

    method AddTag(layer: nat, tag: nat)
      requires Valid() && layer < |layers|
      modifies this
      ensures Valid() && Grown(old(layers), layers)
      ensures layers == old(layers)[layer := old(layers[layer]).(tags := old(layers[layer].tags) + [tag])]
    {
      RelabelledWellFormed(layers, layer, layers[layer].(tags := layers[layer].tags + [tag]));
      layers := layers[layer := layers[layer].(tags := layers[layer].tags + [tag])];
    }

    method AddAttr(layer: nat, attr: Attr)
      requires Valid() && layer < |layers|
      modifies this
      ensures Valid() && Grown(old(layers), layers)
      ensures layers == old(layers)[layer := old(layers[layer]).(attrs := old(layers[layer].attrs) + [attr])]
    {
      RelabelledWellFormed(layers, layer, layers[layer].(attrs := layers[layer].attrs + [attr]));
      layers := layers[layer := layers[layer].(attrs := layers[layer].attrs + [attr])];
    }
  }
}
