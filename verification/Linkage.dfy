/** Linking the layers of a stream into a doubly linked list by attributes. */
module Linkage {
  import opened Common

  type Token = nat

  const NEXT: Token := 0
  const PREV: Token := 1

  class Attr {
    const kind: Token
    var address: Layer?

    constructor (kind: Token, address: Layer?)
      ensures this.kind == kind && this.address == address
    {
      this.kind, this.address := kind, address;
    }
  }

  /** The first attribute of a kind. */
  function Find(attrs: seq<Attr>, kind: Token): (found: Option<Attr>)
    ensures found.Some? ==> found.value in attrs && found.value.kind == kind
    ensures found.None? ==> forall a :: a in attrs ==> a.kind != kind
  {
    if attrs == [] then None
    else if attrs[0].kind == kind then Some(attrs[0])
    else Find(attrs[1..], kind)
  }

  lemma {:induction false} FindAppended(attrs: seq<Attr>, a: Attr, kind: Token)
    ensures Find(attrs + [a], kind) == if Find(attrs, kind).Some? then Find(attrs, kind) else if a.kind == kind
        then Some(a) else None
  {
    if attrs != [] {
      assert (attrs + [a])[1..] == attrs[1..] + [a];
      FindAppended(attrs[1..], a, kind);
    }
  }

  class Layer {
    var attrs: seq<Attr>

    constructor ()
      ensures attrs == []
    {
      attrs := [];
    }

    ghost function Link(kind: Token): Layer?
      reads this, attrs
    {
      var found := Find(attrs, kind);
      if found.Some? then found.value.address else null
    }

    /** A new attribute at the end. */
    method Attach(kind: Token, address: Layer?) returns (attr: Attr)
      modifies this
      ensures fresh(attr) && attr.kind == kind && attr.address == address
      ensures attrs == old(attrs) + [attr]
    {
      attr := new Attr(kind, address);
      attrs := attrs + [attr];
    }

    /** The wrapper's `prev` and `next`. */
    method Linked(kind: Token) returns (layer: Layer?)
      ensures layer == Link(kind)
    {
      var i := 0;
      assert attrs[0..] == attrs;
      while i < |attrs|
        invariant 0 <= i <= |attrs| && Find(attrs, kind) == Find(attrs[i..], kind)
      {
        if attrs[i].kind == kind {
          return attrs[i].address;
        }
        assert attrs[i..][1..] == attrs[i + 1..];
        i := i + 1;
      }
      return null;
    }
  }

  datatype Key = Key(token: Token, id: nat)

  datatype PrevLayer = PrevLayer(layer: Layer, attr: Attr)

  /** One linking of a layer under a key. */
  datatype Call = Call(key: Key, layer: Layer)

  /** The layers linked under a key, in call order. */
  ghost function List(calls: seq<Call>, key: Key): seq<Layer> {
    if calls == [] then []
    else
      var m := |calls| - 1;
      List(calls[..m], key) + if calls[m].key == key then [calls[m].layer] else []
  }

  /** The call whose `next` attribute is the one read from a layer. */
  ghost function FirstCall(calls: seq<Call>, l: Layer): (n: Option<nat>)
    ensures n.Some? ==> n.value < |calls| && calls[n.value].layer == l
    ensures n.None? <==> forall i :: 0 <= i < |calls| ==> calls[i].layer != l
  {
    if calls == [] then None
    else
      var m := |calls| - 1;
      var n := FirstCall(calls[..m], l);
      assert forall i :: 0 <= i < m ==> calls[..m][i] == calls[i];
      if n.Some? then n else if calls[m].layer == l then Some(m) else None
  }

  /** The call remembered for a key. */
  ghost function LastCall(calls: seq<Call>, key: Key): (n: Option<nat>)
    ensures n.Some? ==> n.value < |calls| && calls[n.value].key == key
    ensures n.None? <==> forall i :: 0 <= i < |calls| ==> calls[i].key != key
  {
    if calls == [] then None
    else
      var m := |calls| - 1;
      assert forall i :: 0 <= i < m ==> calls[..m][i] == calls[i];
      if calls[m].key == key then Some(m) else LastCall(calls[..m], key)
  }

  /** Where the `next` attribute made by a call points. */
  ghost function Target(calls: seq<Call>, n: nat): Layer?
    requires n < |calls|
  {
    var m := |calls| - 1;
    if n == m then null
    else
      var target := Target(calls[..m], n);
      if target == null && calls[m].key == calls[n].key then calls[m].layer else target
  }

  /** What the wrapper reads as `next` after some calls. */
  ghost function Next(calls: seq<Call>, l: Layer): Layer? {
    var n := FirstCall(calls, l);
    if n.Some? then Target(calls, n.value) else null
  }

  /** What the wrapper reads as `prev` after some calls. */
  ghost function Prev(calls: seq<Call>, l: Layer): Layer? {
    if calls == [] then null
    else
      var m := |calls| - 1;
      var prev, last := Prev(calls[..m], l), LastCall(calls[..m], calls[m].key);
      if prev == null && calls[m].layer == l && last.Some? then calls[last.value].layer else prev
  }

  ghost predicate ReadsAt(calls: seq<Call>, list: seq<Layer>, i: nat)
    requires i < |list|
  {
    && Next(calls, list[i]) == (if i + 1 < |list| then list[i + 1] else null)
    && Prev(calls, list[i]) == if i == 0 then null else list[i - 1]
  }

  /** In every list, repeats included, each layer's `next` and `prev` read as its neighbours. */
  ghost predicate Right(calls: seq<Call>) {
    forall key, i: nat :: i < |List(calls, key)| ==> ReadsAt(calls, List(calls, key), i)
  }

  /** No layer is twice in a list, and lists that share a layer are the same. */
  ghost predicate Apart(calls: seq<Call>) {
    && (forall key :: NoDuplicates(List(calls, key)))
    && (forall k, m :: Share(calls, k, m) ==> List(calls, k) == List(calls, m))
  }

  ghost predicate Share(calls: seq<Call>, k: Key, m: Key) {
    exists l :: l in List(calls, k) && l in List(calls, m)
  }

  /** The place of a call's layer in the list of its key. */
  ghost function Place(calls: seq<Call>, n: nat): nat
    requires n < |calls|
  {
    |List(calls[..n], calls[n].key)|
  }

  lemma {:induction false} PlaceHolds(calls: seq<Call>, n: nat)
    requires n < |calls|
    ensures Place(calls, n) < |List(calls, calls[n].key)|
    ensures List(calls, calls[n].key)[Place(calls, n)] == calls[n].layer
  {
    var m := |calls| - 1;
    if n < m {
      PlaceHolds(calls[..m], n);
      assert calls[..m][..n] == calls[..n];
    }
  }

  /** Every element of a list has its call. */
  lemma {:induction false} PlaceOf(calls: seq<Call>, key: Key, i: nat) returns (n: nat)
    requires i < |List(calls, key)|
    ensures n < |calls| && calls[n].key == key && Place(calls, n) == i
    ensures calls[n].layer == List(calls, key)[i]
  {
    var m := |calls| - 1;
    if i < |List(calls[..m], key)| {
      n := PlaceOf(calls[..m], key, i);
      assert calls[..m][..n] == calls[..n];
    } else {
      n := m;
    }
  }

  /** A key has a remembered call exactly if its list is not empty, and that call's layer is the last. */
  lemma {:induction false} LastCallIsLast(calls: seq<Call>, key: Key)
    ensures LastCall(calls, key).Some? <==> List(calls, key) != []
    ensures LastCall(calls, key).Some? ==>
        calls[LastCall(calls, key).value].layer == List(calls, key)[|List(calls, key)| - 1]
  {
    if calls != [] {
      LastCallIsLast(calls[..|calls| - 1], key);
    }
  }

  /** A call's `next` attribute points to the layer after its own in the list of its key. */
  lemma {:induction false} TargetIsNext(calls: seq<Call>, n: nat)
    requires n < |calls|
    ensures var list, i := List(calls, calls[n].key), Place(calls, n);
            i < |list| && Target(calls, n) == if i + 1 < |list| then list[i + 1] else null
  {
    PlaceHolds(calls, n);
    var m := |calls| - 1;
    if n < m {
      TargetIsNext(calls[..m], n);
      assert calls[..m][..n] == calls[..n];
    }
  }

  /** The attribute of the remembered call is the only one of its key that points nowhere. */
  lemma {:induction false} TargetNull(calls: seq<Call>, n: nat)
    requires n < |calls|
    ensures Target(calls, n) == null <==> LastCall(calls, calls[n].key) == Some(n)
  {
    var m := |calls| - 1;
    if n < m {
      TargetNull(calls[..m], n);
    }
  }

  /** `prev` reads as the layer before in some list the layer is in, if it is not the first in all. */
  lemma {:induction false} PrevIsPrevious(calls: seq<Call>, l: Layer) returns (n: nat)
    ensures Prev(calls, l) != null ==> n < |calls| && calls[n].layer == l
    ensures Prev(calls, l) != null ==>
        var list, i := List(calls, calls[n].key), Place(calls, n); 0 < i < |list| && Prev(calls, l) == list[i - 1]
    ensures Prev(calls, l) == null ==> forall j: nat :: j < |calls| && calls[j].layer == l ==> Place(calls, j) == 0
  {
    hide LastCall;
    n := 0;
    if calls != [] {
      var m := |calls| - 1;
      var init := calls[..m];
      LastCallIsLast(init, calls[m].key);
      n := PrevIsPrevious(init, l);
      if Prev(init, l) != null {
        assert init[..n] == calls[..n];
      } else {
        forall j: nat | j < m && calls[j].layer == l ensures Place(calls, j) == 0 {
          assert init[j] == calls[j] && init[..j] == calls[..j];
          assert Place(init, j) == 0;
        }
        if Prev(calls, l) != null {
          n := m;
        }
      }
    }
  }

  lemma {:induction false} MemberCall(calls: seq<Call>, key: Key, l: Layer)
    requires l in List(calls, key)
    ensures FirstCall(calls, l).Some?
  {
    var i: nat :| i < |List(calls, key)| && List(calls, key)[i] == l;
    var n := PlaceOf(calls, key, i);
    assert calls[n].layer == l;
  }

  /** Where lists are right, a shared layer is at the same distance from the end of both, and all after it
      is shared. */
  lemma {:induction false} SameBehind(calls: seq<Call>, k: Key, i: nat, m: Key, j: nat)
    requires Right(calls) && i < |List(calls, k)| && j < |List(calls, m)| && List(calls, k)[i] == List(calls, m)[j]
    ensures List(calls, k)[i..] == List(calls, m)[j..]
    decreases |List(calls, k)| - i
  {
    var a, b := List(calls, k), List(calls, m);
    assert ReadsAt(calls, a, i) && ReadsAt(calls, b, j);
    if i + 1 < |a| {
      SameBehind(calls, k, i + 1, m, j + 1);
    }
    assert a[i..] == [a[i]] + a[i + 1..] && b[j..] == [b[j]] + b[j + 1..];
  }

  /** And at the same distance from the front. */
  lemma {:induction false} SameBefore(calls: seq<Call>, k: Key, i: nat, m: Key, j: nat)
    requires Right(calls) && i < |List(calls, k)| && j < |List(calls, m)| && List(calls, k)[i] == List(calls, m)[j]
    ensures i == j && List(calls, k)[..i] == List(calls, m)[..j]
    decreases i
  {
    var a, b := List(calls, k), List(calls, m);
    assert ReadsAt(calls, a, i) && ReadsAt(calls, b, j);
    if 0 < i {
      SameBefore(calls, k, i - 1, m, j - 1);
      assert a[..i] == a[..i - 1] + [a[i - 1]] && b[..j] == b[..j - 1] + [b[j - 1]];
    }
  }

  lemma RightOnce(calls: seq<Call>, key: Key)
    requires Right(calls)
    ensures NoDuplicates(List(calls, key))
  {
    hide List, Right;
    forall i: nat, j: nat | i < j < |List(calls, key)| ensures List(calls, key)[i] != List(calls, key)[j] {
      if List(calls, key)[i] == List(calls, key)[j] {
        SameBefore(calls, key, i, key, j);
      }
    }
  }

  lemma RightSame(calls: seq<Call>, k: Key, m: Key)
    requires Right(calls) && Share(calls, k, m)
    ensures List(calls, k) == List(calls, m)
  {
    hide List, Right;
    var a, b := List(calls, k), List(calls, m);
    var l :| l in a && l in b;
    var i: nat :| i < |a| && a[i] == l;
    var j: nat :| j < |b| && b[j] == l;
    SameBefore(calls, k, i, m, j);
    SameBehind(calls, k, i, m, j);
    assert a == a[..i] + a[i..] && b == b[..j] + b[j..];
  }

  lemma RightIsApart(calls: seq<Call>)
    requires Right(calls)
    ensures Apart(calls)
  {
    hide List, Share, Right, NoDuplicates;
    forall key ensures NoDuplicates(List(calls, key)) {
      RightOnce(calls, key);
    }
    forall k, m | Share(calls, k, m) ensures List(calls, k) == List(calls, m) {
      RightSame(calls, k, m);
    }
  }

  /** Where lists are apart, a layer has the same place in every list it is in. */
  lemma SamePlace(calls: seq<Call>, key: Key, i: nat, n: nat)
    requires Apart(calls) && i < |List(calls, key)| && n < |calls| && calls[n].layer == List(calls, key)[i]
    ensures List(calls, calls[n].key) == List(calls, key) && Place(calls, n) == i
  {
    hide List;
    PlaceHolds(calls, n);
    assert List(calls, key)[i] in List(calls, calls[n].key);
    assert Share(calls, key, calls[n].key);
  }

  lemma ApartIsRight(calls: seq<Call>)
    requires Apart(calls)
    ensures Right(calls)
  {
    hide List, Prev, Target, Place, Apart;
    forall key, i: nat | i < |List(calls, key)| ensures ReadsAt(calls, List(calls, key), i) {
      var list := List(calls, key);
      MemberCall(calls, key, list[i]);
      var n := FirstCall(calls, list[i]).value;
      SamePlace(calls, key, i, n);
      TargetIsNext(calls, n);
      var p := PrevIsPrevious(calls, list[i]);
      if Prev(calls, list[i]) != null {
        SamePlace(calls, key, i, p);
      }
    }
  }

  /** After any calls whatsoever all lists are right exactly if no layer is twice in a list and lists that
      share a layer are the same. */
  lemma RightIff(calls: seq<Call>)
    ensures Right(calls) <==> Apart(calls)
  {
    if Right(calls) {
      RightIsApart(calls);
    }
    if Apart(calls) {
      ApartIsRight(calls);
    }
  }

  /** What a call can check beforehand: nothing else was linked last where a new layer is to be appended;
      a layer linked before is alone in its lists and starts a new one. */
  ghost predicate Fits(calls: seq<Call>, key: Key, layer: Layer) {
    if FirstCall(calls, layer).None? then
      forall m :: m != key && LastCall(calls, m).Some? && LastCall(calls, key).Some? ==>
        calls[LastCall(calls, m).value].layer != calls[LastCall(calls, key).value].layer
    else LastCall(calls, key).None? && Next(calls, layer) == null && Prev(calls, layer) == null
  }

  lemma ListExtended(calls: seq<Call>, key: Key, layer: Layer, m: Key)
    ensures List(calls + [Call(key, layer)], m) == List(calls, m) + if m == key then [layer] else []
  {
    assert (calls + [Call(key, layer)])[..|calls|] == calls;
  }

  /** What one more call changes. */
  lemma AfterCall(calls: seq<Call>, c: Call, l: Layer, key: Key, n: nat)
    requires n <= |calls|
    ensures var after := calls + [c];
            && FirstCall(after, l) == (if FirstCall(calls, l).Some? then FirstCall(calls, l)
                                       else if c.layer == l then Some(|calls|) else None)
            && LastCall(after, key) == (if c.key == key then Some(|calls|) else LastCall(calls, key))
            && Prev(after, l) == (if Prev(calls, l) == null && c.layer == l && LastCall(calls, c.key).Some?
                                  then calls[LastCall(calls, c.key).value].layer else Prev(calls, l))
            && Target(after, n) == if n == |calls| then null
                                   else if LastCall(calls, c.key) == Some(n) then c.layer else Target(calls, n)
  {
    assert (calls + [c])[..|calls|] == calls;
    if n < |calls| {
      TargetNull(calls, n);
    }
  }

  lemma UnlinkedPrev(calls: seq<Call>, l: Layer)
    requires FirstCall(calls, l).None?
    ensures Prev(calls, l) == null
  {
    var n := PrevIsPrevious(calls, l);
  }

  /** A new layer leaves the lists apart exactly if the list it joins is nobody else's. */
  lemma NewApart(calls: seq<Call>, key: Key, layer: Layer)
    requires Apart(calls) && FirstCall(calls, layer).None?
    ensures Apart(calls + [Call(key, layer)]) <==> Fits(calls, key, layer)
  {
    hide List, FirstCall, LastCall, Next, Prev;
    var after := calls + [Call(key, layer)];
    var list := List(calls, key);
    forall m ensures List(after, m) == List(calls, m) + if m == key then [layer] else [] {
      ListExtended(calls, key, layer, m);
    }
    forall m ensures layer !in List(calls, m) {
      if layer in List(calls, m) {
        MemberCall(calls, m, layer);
      }
    }
    LastCallIsLast(calls, key);
    if Fits(calls, key, layer) {
      forall k ensures NoDuplicates(List(after, k)) {
        assert NoDuplicates(List(calls, k));
      }
      forall m | m != key ensures !Share(after, m, key) && !Share(after, key, m) {
        if Share(calls, m, key) {
          LastCallIsLast(calls, m);
          assert false;
        }
      }
      forall k, m | Share(after, k, m) ensures List(after, k) == List(after, m) {
        assert k != m ==> Share(calls, k, m);
      }
    } else {
      var m :| m != key && LastCall(calls, m).Some? && LastCall(calls, key).Some?
        && calls[LastCall(calls, m).value].layer == calls[LastCall(calls, key).value].layer;
      LastCallIsLast(calls, m);
      assert list[|list| - 1] in List(after, key) && list[|list| - 1] in List(after, m);
      assert layer in List(after, key) && layer !in List(after, m);
      assert Share(after, key, m);
    }
  }

  /** A layer linked before leaves the lists right exactly if it starts one and is alone in the others. */
  lemma AgainApart(calls: seq<Call>, key: Key, layer: Layer)
    requires Right(calls) && Apart(calls) && FirstCall(calls, layer).Some?
    ensures Apart(calls + [Call(key, layer)]) <==> Fits(calls, key, layer)
  {
    hide List, FirstCall, LastCall, Next, Prev, Place;
    var after := calls + [Call(key, layer)];
    var first := calls[FirstCall(calls, layer).value].key;
    forall m ensures List(after, m) == List(calls, m) + if m == key then [layer] else [] {
      ListExtended(calls, key, layer, m);
    }
    PlaceHolds(calls, FirstCall(calls, layer).value);
    assert ReadsAt(calls, List(calls, first), Place(calls, FirstCall(calls, layer).value));
    LastCallIsLast(calls, key);
    AppendedTwice(List(calls, key), layer);
    if Fits(calls, key, layer) {
      AloneApart(calls, key, layer);
    }
    if Apart(after) {
      assert NoDuplicates(List(after, key));
      assert layer in List(after, key) && layer in List(after, first);
      assert Share(after, key, first);
      PrefixShared(calls, key, first, layer);
    }
  }

  lemma AppendedTwice(list: seq<Layer>, l: Layer)
    ensures l in list ==> !NoDuplicates(list + [l])
  {
    if l in list {
      var i: nat :| i < |list| && list[i] == l;
      assert (list + [l])[i] == (list + [l])[|list|];
    }
  }

  lemma PrefixShared(calls: seq<Call>, k: Key, m: Key, l: Layer)
    ensures List(calls, m) == List(calls, k) + [l] && List(calls, k) != [] ==> Share(calls, k, m)
  {
    if List(calls, m) == List(calls, k) + [l] && List(calls, k) != [] {
      assert List(calls, k)[0] in List(calls, m);
    }
  }

  lemma AloneApart(calls: seq<Call>, key: Key, layer: Layer)
    requires Right(calls) && Apart(calls) && List(calls, key) == []
    requires Next(calls, layer) == null && Prev(calls, layer) == null
    ensures Apart(calls + [Call(key, layer)])
  {
    hide List, FirstCall, LastCall, Next, Prev;
    var after := calls + [Call(key, layer)];
    forall m ensures List(after, m) == List(calls, m) + if m == key then [layer] else [] {
      ListExtended(calls, key, layer, m);
    }
    forall m | layer in List(calls, m) ensures List(calls, m) == [layer] {
      var i: nat :| i < |List(calls, m)| && List(calls, m)[i] == layer;
      assert ReadsAt(calls, List(calls, m), i);
    }
    forall k ensures NoDuplicates(List(after, k)) {
      assert NoDuplicates(List(calls, k));
    }
    forall k, m | Share(after, k, m) ensures List(after, k) == List(after, m) {
      if k != key && m != key {
        assert Share(calls, k, m);
      }
    }
  }

  /** One call keeps right lists right exactly if it fits. */
  lemma FitsIff(calls: seq<Call>, key: Key, layer: Layer)
    requires Right(calls)
    ensures Right(calls + [Call(key, layer)]) <==> Fits(calls, key, layer)
  {
    hide *;
    RightIff(calls);
    RightIff(calls + [Call(key, layer)]);
    if FirstCall(calls, layer).None? {
      NewApart(calls, key, layer);
    } else {
      AgainApart(calls, key, layer);
    }
  }

  /** A layer may be in two lists while it is alone in both. */
  lemma LinkedTwice(a: Layer, first: Key, second: Key)
    requires first != second
    ensures var calls := [Call(first, a)] + [Call(second, a)];
            && Right(calls) && List(calls, second) == [a] && FirstCall(calls, a) == Some(0)
            && LastCall(calls, first) == Some(0) && LastCall(calls, second) == Some(1)
            && Target(calls, 0) == null && forall l :: l != a ==> FirstCall(calls, l).None?
  {
    hide FirstCall, LastCall, Target;
    var one := [Call(first, a)];
    assert [] + one == one;
    AfterCall([], Call(first, a), a, first, 0);
    AfterCall([], Call(first, a), a, second, 0);
    AfterCall(one, Call(second, a), a, first, 0);
    AfterCall(one, Call(second, a), a, second, 0);
    assert Prev([], a) == null && forall key :: List([], key) == [];
    hide List, Prev;
    forall key ensures List(one, key) == if key == first then [a] else [] {
      ListExtended([], first, a, key);
    }
    ListExtended(one, second, a, second);
    RightIff(one);
    FitsIff(one, second, a);
  }

  /** Both lists are right until one of them grows.  Then the new layer's `prev` leads to the other, whose
      `next` leads nowhere. */
  lemma LinkedTwiceBreaks(a: Layer, b: Layer)
    requires a != b
    ensures var twice, second := [Call(Key(5, 1), a), Call(Key(6, 1), a)], Key(6, 1);
            var calls := twice + [Call(second, b)];
            && Right(twice) && List(calls, second) == [a, b]
            && Prev(calls, b) == a && Next(calls, a) == null && !Right(calls)
  {
    hide List, FirstCall, LastCall, Target, Prev;
    var first, second := Key(5, 1), Key(6, 1);
    var twice := [Call(first, a), Call(second, a)];
    assert twice == [Call(first, a)] + [Call(second, a)];
    LinkedTwice(a, first, second);
    UnlinkedPrev(twice, b);
    AfterCall(twice, Call(second, b), a, first, 0);
    AfterCall(twice, Call(second, b), b, second, 0);
    ListExtended(twice, second, b, second);
    FitsIff(twice, second, b);
  }

  ghost function Follow(calls: seq<Call>, l: Layer?, steps: nat): Layer? {
    if steps == 0 || l == null then l else Follow(calls, Next(calls, l), steps - 1)
  }

  /** Following `next` from the first layer visits all layers of a list in call order and ends with null. */
  lemma {:induction false} Walk(calls: seq<Call>, key: Key, i: nat, steps: nat)
    requires Right(calls) && i < |List(calls, key)| && i + steps <= |List(calls, key)|
    ensures var list := List(calls, key);
            Follow(calls, list[i], steps) == if i + steps < |list| then list[i + steps] else null
    decreases steps
  {
    hide List, Next, Prev;
    assert ReadsAt(calls, List(calls, key), i);
    if 0 < steps && i + 1 < |List(calls, key)| {
      Walk(calls, key, i + 1, steps - 1);
    }
  }

  /** `prev` inverts `next`, and `next` inverts `prev`, everywhere. */
  lemma Inverse(calls: seq<Call>, l: Layer)
    requires Right(calls)
    ensures Next(calls, l) != null ==> Prev(calls, Next(calls, l)) == l
    ensures Prev(calls, l) != null ==> Next(calls, Prev(calls, l)) == l
  {
    if FirstCall(calls, l).Some? {
      var n := FirstCall(calls, l).value;
      var list, i := List(calls, calls[n].key), Place(calls, n);
      PlaceHolds(calls, n);
      hide List, Next, Prev, Place;
      assert ReadsAt(calls, list, i);
      if i + 1 < |list| {
        assert ReadsAt(calls, list, i + 1);
      }
      if 0 < i {
        assert ReadsAt(calls, list, i - 1);
      }
    } else {
      var n := PrevIsPrevious(calls, l);
      assert Prev(calls, l) == null;
    }
  }

  /** The links found after a call. */
  lemma LinksAppended(attrs: seq<Attr>, back: Attr?, attr: Attr)
    requires attr.kind == NEXT && (back != null ==> back.kind == PREV)
    ensures var after := (if back == null then attrs else attrs + [back]) + [attr];
            && Find(after, NEXT) == (if Find(attrs, NEXT).Some? then Find(attrs, NEXT) else Some(attr))
            && Find(after, PREV)
               == if back != null && Find(attrs, PREV).None? then Some(back) else Find(attrs, PREV)
  {
    var middle := if back == null then attrs else attrs + [back];
    FindAppended(middle, attr, NEXT);
    FindAppended(middle, attr, PREV);
    if back != null {
      FindAppended(attrs, back, NEXT);
      FindAppended(attrs, back, PREV);
    }
  }

  class Context {
    var linkedLayers: map<Key, PrevLayer>
    /** All linkings so far, the `next` attribute each of them made, and the `prev` attributes. */
    ghost var calls: seq<Call>
    ghost var nexts: seq<Attr>
    ghost var prevs: set<Attr>
    /** Layers that had a link from elsewhere when they were first linked here. */
    ghost var foreign: set<Layer>

    ghost predicate NextsHold()
      reads this, nexts
    {
      && |nexts| == |calls| && NoDuplicates(nexts)
      && forall n: nat :: n < |calls| ==> nexts[n].kind == NEXT && nexts[n].address == Target(calls, n)
    }

    ghost predicate Holds(l: Layer)
      reads this, l, prevs
      requires |nexts| == |calls|
    {
      var first, back := FirstCall(calls, l), Find(l.attrs, PREV);
      && (first.Some? ==> Find(l.attrs, NEXT) == Some(nexts[first.value]))
      && if Prev(calls, l) == null then back.None?
         else back.Some? && back.value in prevs && back.value.address == Prev(calls, l)
    }

    ghost predicate Remembers(key: Key)
      requires |nexts| == |calls|
      reads this
    {
      var last := LastCall(calls, key);
      if last.Some? then
        key in linkedLayers && linkedLayers[key] == PrevLayer(calls[last.value].layer, nexts[last.value])
      else key !in linkedLayers
    }

    ghost predicate Valid()
      reads this, nexts, prevs, set c | c in calls :: c.layer
    {
      && NextsHold()
      && (forall a :: a in prevs ==> a.kind == PREV)
      && (forall c :: c in calls && c.layer !in foreign ==> Holds(c.layer))
      && (forall key :: Remembers(key))
    }

    constructor ()
      ensures Valid() && calls == [] && foreign == {}
    {
      linkedLayers, calls, nexts, prevs, foreign := map[], [], [], {}, {};
    }

    /** Both wrapper reads of a linked layer. */
    lemma Reads(l: Layer)
      requires Valid() && FirstCall(calls, l).Some? && l !in foreign
      ensures l.Link(NEXT) == Next(calls, l) && l.Link(PREV) == Prev(calls, l)
    {
      hide FirstCall, Find, Prev, Target;
      assert calls[FirstCall(calls, l).value] in calls;
      assert Holds(l);
    }

    /** The attributes of the layers linked so far. */
    ghost function Attrs(): set<Attr>
      reads this, set c | c in calls :: c.layer
    {
      set c, a | c in calls && a in c.layer.attrs :: a
    }

    /** In every list each layer's wrapper yields its neighbours as `next` and `prev`. */
    ghost predicate ListsRight()
      reads this, Attrs(), set c | c in calls :: c.layer
    {
      forall key, i: nat :: i < |List(calls, key)| ==> YieldsAt(key, i)
    }

    ghost predicate YieldsAt(key: Key, i: nat)
      requires i < |List(calls, key)|
      reads this, Attrs(), set c | c in calls :: c.layer
    {
      var list := List(calls, key);
      MemberCall(calls, key, list[i]);
      var c := calls[FirstCall(calls, list[i]).value];
      assert forall a :: a in list[i].attrs ==> c in calls && a in c.layer.attrs && a in Attrs();
      && list[i].Link(NEXT) == (if i + 1 < |list| then list[i + 1] else null)
      && list[i].Link(PREV) == if i == 0 then null else list[i - 1]
    }

    lemma ListsRightIff()
      requires Valid() && foreign == {}
      ensures ListsRight() <==> Right(calls)
    {
      hide FirstCall, Find, Prev, Next, Target, List, Layer.Link, Valid;
      forall key, i: nat | i < |List(calls, key)|
        ensures YieldsAt(key, i) <==> ReadsAt(calls, List(calls, key), i)
      {
        MemberCall(calls, key, List(calls, key)[i]);
        Reads(List(calls, key)[i]);
      }
    }

    /** What a call can check: nothing else was linked last where a new layer is appended; a layer linked
        before starts a new list and has no neighbours. */
    ghost predicate CanLink(key: Key, layer: Layer)
      reads this, layer, layer.attrs
    {
      if Find(layer.attrs, NEXT).None? then
        forall m :: m in linkedLayers && m != key && key in linkedLayers ==>
          linkedLayers[m].layer != linkedLayers[key].layer
      else key !in linkedLayers && layer.Link(NEXT) == null && layer.Link(PREV) == null
    }

    lemma CanLinkFits(key: Key, layer: Layer)
      requires Valid() && foreign == {} && (FirstCall(calls, layer).None? ==> Find(layer.attrs, NEXT).None?)
      ensures CanLink(key, layer) <==> Fits(calls, key, layer)
    {
      hide FirstCall, LastCall, Find, Prev, Next, Target, List, Layer.Link, Holds;
      forall m
        ensures m in linkedLayers <==> LastCall(calls, m).Some?
        ensures m in linkedLayers ==> linkedLayers[m].layer == calls[LastCall(calls, m).value].layer
      {
        assert Remembers(m);
      }
      if FirstCall(calls, layer).Some? {
        assert calls[FirstCall(calls, layer).value] in calls;
        HasNext(layer);
        Reads(layer);
      }
    }

    lemma BeforeCall(key: Key, layer: Layer)
      requires Valid()
      ensures foreign == {} && (FirstCall(calls, layer).None? ==> Find(layer.attrs, NEXT).None?) ==>
          (ListsRight() <==> Right(calls)) && (CanLink(key, layer) <==> Fits(calls, key, layer))
    {
      hide *;
      if foreign == {} && (FirstCall(calls, layer).None? ==> Find(layer.attrs, NEXT).None?) {
        ListsRightIff();
        CanLinkFits(key, layer);
      }
    }

    lemma RightAfterCall(before: seq<Call>, key: Key, layer: Layer)
      requires Valid() && calls == before + [Call(key, layer)]
      ensures foreign == {} && Right(before) ==> (ListsRight() <==> Fits(before, key, layer))
    {
      hide *;
      if foreign == {} && Right(before) {
        ListsRightIff();
        FitsIff(before, key, layer);
      }
    }

    lemma HasNext(layer: Layer)
      requires |nexts| == |calls| && FirstCall(calls, layer).Some? && Holds(layer)
      ensures Find(layer.attrs, NEXT).Some?
    {
    }

    twostate lemma NextsKept(key: Key, new layer: Layer, new attr: Attr, new patched: Attr?)
      requires old(Valid()) && calls == old(calls) + [Call(key, layer)] && nexts == old(nexts) + [attr]
      requires attr !in old(nexts) && attr.kind == NEXT && attr.address == null
      requires patched == if key in old(linkedLayers) then old(linkedLayers)[key].attr else null
      requires patched != null ==> patched.address == layer
      requires forall a :: a in old(nexts) && a != patched ==> a.address == old(a.address)
      ensures NextsHold()
    {
      hide Find, FirstCall, LastCall, Target, Prev;
      assert old(Remembers(key));
      forall n: nat | n < |calls| ensures nexts[n].kind == NEXT && nexts[n].address == Target(calls, n) {
        AfterCall(old(calls), Call(key, layer), layer, key, n);
        if n < |old(calls)| {
          assert nexts[n] == old(nexts)[n];
        }
      }
    }

    twostate lemma LayersKept(key: Key, new layer: Layer, new attr: Attr, new back: Attr?,
                              new next: Option<Attr>, new prev: Option<Attr>)
      requires old(Valid()) && |nexts| == |calls| == |old(nexts)| + 1
      requires calls == old(calls) + [Call(key, layer)] && nexts == old(nexts) + [attr]
      requires forall c :: c in old(calls) && c.layer != layer ==> c.layer.attrs == old(c.layer.attrs)
      requires old(prevs) <= prevs && forall a :: a in old(prevs) ==> a.address == old(a.address)
      requires forall c :: c in old(calls) && c.layer == layer ==>
          next == old(Find(c.layer.attrs, NEXT)) && prev == old(Find(c.layer.attrs, PREV))
      requires Find(layer.attrs, NEXT) == if next.Some? then next else Some(attr)
      requires Find(layer.attrs, PREV) == if back != null && prev.None? then Some(back) else prev
      requires back != null <==> key in old(linkedLayers)
      requires back != null ==> back in prevs && back.address == old(linkedLayers)[key].layer
      requires FirstCall(old(calls), layer).None? && layer !in foreign ==> next.None? && prev.None?
      requires old(foreign) <= foreign
      ensures forall c :: c in calls && c.layer !in foreign ==> Holds(c.layer)
    {
      hide Find, FirstCall, LastCall, Target, Prev;
      assert old(Remembers(key));
      forall c | c in calls && c.layer !in foreign ensures Holds(c.layer) {
        AfterCall(old(calls), Call(key, layer), c.layer, key, 0);
        var first := FirstCall(old(calls), c.layer);
        if first.Some? {
          assert old(calls)[first.value] in old(calls);
          assert old(Holds(c.layer));
        } else {
          UnlinkedPrev(old(calls), c.layer);
        }
      }
    }

    twostate lemma RemembersKept(key: Key, new layer: Layer, new attr: Attr)
      requires old(Valid()) && |nexts| == |calls|
      requires calls == old(calls) + [Call(key, layer)] && nexts == old(nexts) + [attr]
      requires linkedLayers == old(linkedLayers)[key := PrevLayer(layer, attr)]
      ensures forall k :: Remembers(k)
    {
      hide Find, FirstCall, LastCall, Target, Prev, Holds, NextsHold;
      forall k ensures Remembers(k) {
        assert old(Remembers(k));
        AfterCall(old(calls), Call(key, layer), layer, k, 0);
      }
    }

    lemma RemembersNext(key: Key)
      requires Valid()
      ensures |nexts| == |calls| && forall a :: a in prevs ==> a.kind == PREV
      ensures key in linkedLayers ==> linkedLayers[key].attr in nexts && linkedLayers[key].attr.kind == NEXT
    {
      hide Find, FirstCall, LastCall, Target, Prev, Holds;
      assert Remembers(key);
    }

    lemma IsValid()
      requires NextsHold() && (forall a :: a in prevs ==> a.kind == PREV)
      requires forall c :: c in calls && c.layer !in foreign ==> Holds(c.layer)
      requires forall key :: Remembers(key)
      ensures Valid()
    {
    }

    twostate lemma CallKept(key: Key, new layer: Layer, new attr: Attr, new back: Attr?, new patched: Attr?,
                            new before: seq<Attr>)
      requires old(Valid()) && |old(nexts)| == |old(calls)|
      requires calls == old(calls) + [Call(key, layer)] && nexts == old(nexts) + [attr]
      requires linkedLayers == old(linkedLayers)[key := PrevLayer(layer, attr)]
      requires attr !in old(nexts) && attr.kind == NEXT && attr.address == null
      requires patched == if key in old(linkedLayers) then old(linkedLayers)[key].attr else null
      requires patched != null ==> patched.address == layer
      requires forall a :: a in old(nexts) && a != patched ==> a.address == old(a.address)
      requires forall a :: a in old(prevs) ==> a.address == old(a.address)
      requires forall c :: c in old(calls) && c.layer != layer ==> c.layer.attrs == old(c.layer.attrs)
      requires prevs == old(prevs) + if back == null then {} else {back}
      requires forall a :: a in prevs ==> a.kind == PREV
      requires forall c :: c in old(calls) && c.layer == layer ==> before == old(c.layer.attrs)
      requires layer.attrs == (if back == null then before else before + [back]) + [attr]
      requires back != null <==> key in old(linkedLayers)
      requires back != null ==> back.kind == PREV && back.address == old(linkedLayers)[key].layer
      requires FirstCall(old(calls), layer).None? && layer !in foreign ==>
          Find(before, NEXT).None? && Find(before, PREV).None?
      requires old(foreign) <= foreign
      ensures Valid()
    {
      hide Valid, Find, FirstCall, LastCall, Target, Prev, Holds, NextsHold, Remembers;
      LinksAppended(before, back, attr);
      NextsKept(key, layer, attr, patched);
      LayersKept(key, layer, attr, back, Find(before, NEXT), Find(before, PREV));
      RemembersKept(key, layer, attr);
      IsValid();
    }

    /** `Context_addLayerLinkage`.  Where all lists are right, a call keeps them so exactly if `CanLink`. */
    method AddLayerLinkage(token: Token, id: nat, layer: Layer)
      requires Valid()
      modifies this, layer, if Key(token, id) in linkedLayers then {linkedLayers[Key(token, id)].attr} else {}
      ensures Valid() && calls == old(calls) + [Call(Key(token, id), layer)]
      ensures foreign == old(foreign) + if old(FirstCall(calls, layer)).None?
        && old(Find(layer.attrs, NEXT).Some? || Find(layer.attrs, PREV).Some?) then {layer} else {}
      ensures foreign == {} && old(ListsRight()) ==> (ListsRight() <==> old(CanLink(Key(token, id), layer)))
    {
      hide Find, FirstCall, LastCall, Target, Prev, Holds, NextsHold, Remembers, Valid, ListsRight,
          CanLink, List, Right, Fits, YieldsAt, Attrs, Layer.Link, Next, ReadsAt, Share, Apart, NoDuplicates;
      var key := Key(token, id);
      RemembersNext(key);
      BeforeCall(key, layer);
      if FirstCall(calls, layer).None? && (Find(layer.attrs, NEXT).Some? || Find(layer.attrs, PREV).Some?) {
        foreign := foreign + {layer};
      }
      ghost var patched: Attr?, made: Attr? := null, null;
      ghost var before := layer.attrs;
      if key in linkedLayers {
        var last := linkedLayers[key];
        var back := layer.Attach(PREV, last.layer);
        last.attr.address := layer;
        prevs := prevs + {back};
        patched, made := last.attr, back;
      }
      var attr := layer.Attach(NEXT, null);
      linkedLayers := linkedLayers[key := PrevLayer(layer, attr)];
      calls, nexts := calls + [Call(key, layer)], nexts + [attr];
      CallKept(key, layer, attr, made, patched, before);
      RightAfterCall(old(calls), key, layer);
    }
  }
}
