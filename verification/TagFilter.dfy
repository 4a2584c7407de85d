/** The tag filter of a dissector: a 64-bit bloom word in front of an exact subset test. */
module TagFilters {

  function Hash(tag: nat): bv64 {
    1 << (tag % 64)
  }

  /** The union of the bits of all tags. */
  function Bloom(tags: seq<nat>): bv64 {
    if tags == [] then 0 else Bloom(tags[..|tags| - 1]) | Hash(tags[|tags| - 1])
  }

  predicate Covers(bits: bv64, part: bv64) {
    bits & part == part
  }

  lemma CoversGrow(bits: bv64, more: bv64, part: bv64)
    requires Covers(bits, part)
    ensures Covers(bits | more, part)
  {
  }

  lemma CoversJoin(bits: bv64, a: bv64, b: bv64)
    requires Covers(bits, a) && Covers(bits, b)
    ensures Covers(bits, a | b)
  {
  }

  lemma CoversNothing(bits: bv64)
    ensures Covers(bits, 0)
  {
  }

  lemma CoversOwn(bits: bv64, own: bv64)
    ensures Covers(bits | own, own)
  {
  }

  /** The bloom word of a list covers the bit of each member. */
  lemma {:induction false} BloomCoversMember(tags: seq<nat>, tag: nat)
    requires tag in tags
    ensures Covers(Bloom(tags), Hash(tag))
  {
    hide Hash, Covers;
    var front, last := tags[..|tags| - 1], tags[|tags| - 1];
    if tag == last {
      CoversOwn(Bloom(front), Hash(last));
    } else {
      assert tags == front + [last];
      BloomCoversMember(front, tag);
      CoversGrow(Bloom(front), Hash(last), Hash(tag));
    }
  }

  /** The precheck never rejects a list that contains every filter tag. */
  lemma {:induction false} BloomCoversSubset(filters: seq<nat>, tags: seq<nat>)
    requires forall f :: f in filters ==> f in tags
    ensures Covers(Bloom(tags), Bloom(filters))
  {
    hide Hash, Covers;
    if filters == [] {
      CoversNothing(Bloom(tags));
    } else {
      var front, last := filters[..|filters| - 1], filters[|filters| - 1];
      BloomCoversSubset(front, tags);
      BloomCoversMember(tags, last);
      CoversJoin(Bloom(tags), Bloom(front), Hash(last));
    }
  }

  ghost predicate Subset(filters: seq<nat>, tags: seq<nat>) {
    forall f :: f in filters ==> f in tags
  }

  method Union(tags: seq<nat>) returns (bloom: bv64)
    ensures bloom == Bloom(tags)
  {
    bloom := 0;
    for i := 0 to |tags|
      invariant bloom == Bloom(tags[..i])
    {
      assert tags[..i + 1][..i] == tags[..i];
      bloom := bloom | Hash(tags[i]);
    }
    assert tags[..|tags|] == tags;
  }

  class TagFilter {
    const filters: seq<nat>
    var filterHash: bv64

    ghost predicate Valid()
      reads this
    {
      filterHash == Bloom(filters)
    }

    constructor (tags: seq<nat>)
      ensures Valid() && filters == tags
    {
      filters := tags;
      new;
      filterHash := Union(filters);
    }

    /** The guarded test decides exactly whether every filter tag is among `tags`. */
    method Match(tags: seq<nat>) returns (matched: bool)
      requires Valid()
      ensures matched <==> Subset(filters, tags)
      ensures matched <==> forall f :: f in filters ==> f in tags
    {
      var bloom := Union(tags);
      if filterHash & bloom != filterHash {
        if Subset(filters, tags) {
          BloomCoversSubset(filters, tags);
          AndCommutes(filterHash, bloom);
          assert false;
        }
        return false;
      }
      for i := 0 to |filters|
        invariant forall f :: f in filters[..i] ==> f in tags
      {
        var found := false;
        for j := 0 to |tags|
          invariant !found && filters[i] !in tags[..j]
        {
          if filters[i] == tags[j] {
            found := true;
            break;
          }
        }
        assert tags[..|tags|] == tags;
        if !found {
          return false;
        }
      }
      assert filters[..|filters|] == filters;
      return true;
    }
  }

  lemma AndCommutes(a: bv64, b: bv64)
    ensures a & b == b & a
  {
  }

  const NULL_TOKEN := 0

  /** The hints a packet dissector filters on: null tokens are padding. */
  function Hints(layerHints: seq<nat>): seq<nat> {
    if layerHints == [] then []
    else
      var last := layerHints[|layerHints| - 1];
      Hints(layerHints[..|layerHints| - 1]) + if last != NULL_TOKEN then [last] else []
  }

  lemma {:induction false} HintsMember(layerHints: seq<nat>, tag: nat)
    ensures tag in Hints(layerHints) <==> tag in layerHints && tag != NULL_TOKEN
  {
    if layerHints != [] {
      var front, last := layerHints[..|layerHints| - 1], layerHints[|layerHints| - 1];
      HintsMember(front, tag);
      assert layerHints == front + [last];
    }
  }

  lemma HintsAre(layerHints: seq<nat>)
    ensures Hints(layerHints) != [] <==> exists hint :: hint in layerHints && hint != 0
    ensures forall tag :: tag in Hints(layerHints) <==> tag in layerHints && tag != 0
  {
    hide Hints;
    forall tag ensures tag in Hints(layerHints) <==> tag in layerHints && tag != 0 {
      HintsMember(layerHints, tag);
    }
    if Hints(layerHints) != [] {
      assert Hints(layerHints)[0] in Hints(layerHints);
    }
  }

  /** The stream threads' own matcher, which walks the raw hints without a bloom word, selects a
      dissector exactly when the packet threads would: it has a hint, and all its hints are tags. */
  method StreamMatch(layerHints: seq<nat>, tags: seq<nat>) returns (matched: bool)
    ensures matched <==> Hints(layerHints) != [] && Subset(Hints(layerHints), tags)
    ensures matched <==>
        && (exists hint :: hint in layerHints && hint != 0)
        && forall hint :: hint in layerHints && hint != 0 ==> hint in tags
  {
    HintsAre(layerHints);
    matched := false;
    for i := 0 to |layerHints|
      invariant matched <==> Hints(layerHints[..i]) != []
      invariant Subset(Hints(layerHints[..i]), tags)
    {
      assert layerHints[..i + 1][..i] == layerHints[..i];
      if layerHints[i] != NULL_TOKEN {
        if layerHints[i] !in tags {
          HintsMember(layerHints, layerHints[i]);
          return false;
        }
        matched := true;
      }
    }
    assert layerHints[..|layerHints|] == layerHints;
  }
}
