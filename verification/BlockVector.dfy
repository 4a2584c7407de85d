/** Vectors stored in the slots of a block allocator: a size slot followed by the elements.  Several
    vectors share one allocator, so growing one must not disturb the others. */
module BlockVectors {
  import opened Common
  import opened BlockAllocators

  function Offset(p: Ptr, i: nat): Ptr {
    Ptr(p.block, p.slot + i)
  }

  /** Copies `count` slots into a run of live slots apart from the originals. */
  method MemCopy<T>(alloc: BlockAllocator<T>, to: Ptr, from: Ptr, count: nat)
    requires alloc.Valid()
    requires forall k :: 0 <= k < count ==> alloc.Live(Offset(to, k)) && alloc.Live(Offset(from, k))
    requires forall k :: 0 <= k < count ==> !InRun(to, count, Offset(from, k))
    modifies alloc
    ensures alloc.Valid() && forall r :: alloc.Live(r) <==> old(alloc.Live(r))
    ensures forall r :: !InRun(to, count, r) ==> alloc.At(r) == old(alloc.At(r))
    ensures forall k :: 0 <= k < count ==> alloc.At(Offset(to, k)) == old(alloc.At(Offset(from, k)))
  {
    for i := 0 to count
      invariant alloc.Valid() && forall r :: alloc.Live(r) <==> old(alloc.Live(r))
      invariant forall r :: !InRun(to, count, r) ==> alloc.At(r) == old(alloc.At(r))
      invariant forall k :: 0 <= k < i ==> alloc.At(Offset(to, k)) == old(alloc.At(Offset(from, k)))
    {
      assert alloc.Live(Offset(to, i)) && alloc.Live(Offset(from, i));
      alloc.Write(Offset(to, i), alloc.blocks[from.block][from.slot + i]);
    }
  }

  class BlockVector<T> {
    var begin: Option<Ptr>

    constructor ()
      ensures begin.None?
    {
      begin := None;
    }

    /** The number of elements according to the size slot. */
    ghost function Length(alloc: BlockAllocator<T>): nat
      reads this, alloc
    {
      if begin.Some? && alloc.At(begin.value).Size? then alloc.At(begin.value).size else 0
    }

    ghost predicate Owns(alloc: BlockAllocator<T>, p: Ptr)
      reads this, alloc
    {
      begin.Some? && InRun(begin.value, Length(alloc) + 1, p)
    }

    /** The vector holds a size slot and that many data slots, all live and side by side. */
    ghost predicate Valid(alloc: BlockAllocator<T>)
      reads this, alloc
    {
      && alloc.Valid()
      && (begin.Some? ==>
            && alloc.At(begin.value).Size?
            && begin.value.slot + Length(alloc) < BLOCK_SIZE
            && (forall p :: Owns(alloc, p) ==> alloc.Live(p))
            && (forall p :: Owns(alloc, p) && p != begin.value ==> alloc.At(p).Data?))
    }

    ghost predicate Holds(alloc: BlockAllocator<T>, i: nat, x: T)
      reads this, alloc
    {
      begin.Some? && alloc.At(Offset(begin.value, i + 1)) == Data(x)
    }

    /** The elements stored are `elements`, in order. */
    ghost predicate Contains(alloc: BlockAllocator<T>, elements: seq<T>)
      reads this, alloc
    {
      && |elements| == Length(alloc)
      && forall i :: 0 <= i < |elements| ==> Holds(alloc, i, elements[i])
    }

    ghost predicate Disjoint(alloc: BlockAllocator<T>, other: BlockVector<T>)
      reads this, alloc, other
    {
      forall p :: Owns(alloc, p) ==> !other.Owns(alloc, p)
    }

    /** The other vector is where it was, with the same size and elements, and still apart. */
    twostate predicate Untouched(alloc: BlockAllocator<T>, other: BlockVector<T>)
      reads this, alloc, other
    {
      && other.Valid(alloc) && Disjoint(alloc, other)
      && other.begin == old(other.begin) && other.Length(alloc) == old(other.Length(alloc))
      && forall p :: other.Owns(alloc, p) ==> alloc.At(p) == old(alloc.At(p))
    }

    /** A copy with one more element fits a block: fewer than 1023 slots, or exactly those if the newest
        block is empty and in order. */
    ghost predicate CanCopy(alloc: BlockAllocator<T>)
      requires alloc.Valid()
      reads this, alloc
    {
      || Length(alloc) + 2 < 1023
      || (Length(alloc) + 2 == 1023 && alloc.FrontFits(1023))
    }

    /** What appending needs: room for a copy, or a free slot right behind. */
    ghost predicate CanGrow(alloc: BlockAllocator<T>)
      requires alloc.Valid()
      reads this, alloc
    {
      CanCopy(alloc) || (begin.Some? && alloc.IsNext(Offset(begin.value, Length(alloc) + 1)))
    }

    /** The run a copy goes to.  Without room for one there is no memory, or the allocator is broken. */
    method CopyRun(alloc: BlockAllocator<T>) returns (run: Option<Ptr>)
      requires Valid(alloc) && begin.Some?
      modifies alloc
      ensures run.Some? && alloc.Valid() <==> old(CanCopy(alloc))
      ensures run.Some? && alloc.Valid() ==>
                && run.value.slot + old(Length(alloc)) + 2 <= BLOCK_SIZE
                && (forall q :: InRun(run.value, old(Length(alloc)) + 2, q) ==> !old(alloc.Live(q)))
                && (forall q :: alloc.Live(q) <==> old(alloc.Live(q)) || InRun(run.value, old(Length(alloc)) + 2, q))
      ensures |alloc.free| == |alloc.blocks| && forall q :: old(alloc.Live(q)) ==> alloc.At(q) == old(alloc.At(q))
    {
      var p := begin.value;
      assert Owns(alloc, p);
      run := alloc.AllocUninitialized(alloc.blocks[p.block][p.slot].size + 2);
    }

    /** Appends one element.  A live slot that did not belong to this vector keeps its contents and
        still does not belong to it; hence every other vector that shared no slot keeps its elements
        and shares none afterwards, whether this one grew in place or moved. */
    method EmplaceBack(alloc: BlockAllocator<T>, x: T, ghost elements: seq<T>)
      requires Valid(alloc) && CanGrow(alloc) && Contains(alloc, elements)
      modifies this, alloc
      ensures Valid(alloc) && Contains(alloc, elements + [x])
      ensures forall p :: alloc.Live(p) <==> old(alloc.Live(p)) || Owns(alloc, p)
      ensures forall p :: old(alloc.Live(p)) && !old(Owns(alloc, p)) ==>
                alloc.Live(p) && alloc.At(p) == old(alloc.At(p)) && !Owns(alloc, p)
      ensures forall other: BlockVector<T> ::
                old(allocated(other)) && other != this && old(other.Valid(alloc)) && old(Disjoint(alloc, other)) ==>
                  Untouched(alloc, other)
    {
      if begin.Some? {
        var p := begin.value;
        var n := alloc.blocks[p.block][p.slot].size;
        assert Owns(alloc, p);
        var inPlace := alloc.Allocable(Offset(p, n + 1));
        if inPlace {
          Extend(alloc, x, elements);
        } else {
          Relocate(alloc, x, elements);
        }
      } else {
        Start(alloc, x);
      }
      OthersKept(alloc);
    }

    twostate lemma OthersKept(alloc: BlockAllocator<T>)
      requires alloc.Valid() && old(alloc.Valid())
      requires forall other: BlockVector<T> :: old(allocated(other)) && other != this ==>
          other.begin == old(other.begin)
      requires forall p :: old(alloc.Live(p)) && !old(Owns(alloc, p)) ==>
                 alloc.Live(p) && alloc.At(p) == old(alloc.At(p)) && !Owns(alloc, p)
      ensures forall other: BlockVector<T> ::
                old(allocated(other)) && other != this && old(other.Valid(alloc)) && old(Disjoint(alloc, other)) ==>
                  Untouched(alloc, other)
    {
      forall other: BlockVector<T> |
          old(allocated(other)) && other != this && old(other.Valid(alloc)) && old(Disjoint(alloc, other))
        ensures Untouched(alloc, other)
      {
        if other.begin.Some? {
          assert old(other.Owns(alloc, other.begin.value));
          assert other.Length(alloc) == old(other.Length(alloc));
          assert forall p :: other.Owns(alloc, p) ==> old(other.Owns(alloc, p));
        }
      }
    }

    /** Growing into the slot right behind. */
    method Extend(alloc: BlockAllocator<T>, x: T, ghost elements: seq<T>)
      requires Valid(alloc) && begin.Some? && Contains(alloc, elements)
      requires alloc.IsNext(Offset(begin.value, |elements| + 1))
      modifies this, alloc
      ensures Valid(alloc) && Contains(alloc, elements + [x])
      ensures forall p :: alloc.Live(p) <==> old(alloc.Live(p)) || Owns(alloc, p)
      ensures forall p :: old(alloc.Live(p)) && !old(Owns(alloc, p)) ==>
                alloc.Live(p) && alloc.At(p) == old(alloc.At(p)) && !Owns(alloc, p)
    {
      var p := begin.value;
      assert Owns(alloc, p);
      var n := alloc.blocks[p.block][p.slot].size;
      var q := alloc.AllocUninitialized(1);
      alloc.Write(q.value, Data(x));
      alloc.Write(p, Size(n + 1));
    }

    /** Copying size slot and elements to a fresh run with room for one more. */
    method Relocate(alloc: BlockAllocator<T>, x: T, ghost elements: seq<T>)
      requires Valid(alloc) && begin.Some? && Contains(alloc, elements)
      requires CanCopy(alloc)
      modifies this, alloc
      ensures Valid(alloc) && Contains(alloc, elements + [x])
      ensures forall p :: alloc.Live(p) <==> old(alloc.Live(p)) || Owns(alloc, p)
      ensures forall p :: old(alloc.Live(p)) && !old(Owns(alloc, p)) ==>
                alloc.Live(p) && alloc.At(p) == old(alloc.At(p)) && !Owns(alloc, p)
    {
      var p := begin.value;
      assert Owns(alloc, p);
      var n := alloc.blocks[p.block][p.slot].size;
      forall k | 0 <= k <= n ensures alloc.Live(Offset(p, k)) {
        assert Owns(alloc, Offset(p, k));
      }
      var run := CopyRun(alloc);
      var q := run.value;
      forall k | 0 <= k <= n
        ensures alloc.Live(Offset(p, k)) && alloc.Live(Offset(q, k)) && !InRun(q, n + 1, Offset(p, k))
      {
        assert InRun(q, n + 2, Offset(q, k));
        assert old(alloc.Live(Offset(p, k)));
      }
      MemCopy(alloc, q, p, n + 1);
      assert Offset(q, 0) == q && Offset(p, 0) == p && alloc.At(q) == old(alloc.At(p));
      forall i | 0 <= i < n ensures alloc.At(Offset(q, i + 1)) == Data(elements[i]) {
        assert old(Holds(alloc, i, elements[i]));
      }
      Settle(alloc, q, x, elements);
    }

    /** Moves to the run `q`, which holds a copy, and stores the new element behind it. */
    method Settle(alloc: BlockAllocator<T>, q: Ptr, x: T, ghost elements: seq<T>)
      requires alloc.Valid() && q.slot + |elements| + 1 < BLOCK_SIZE
      requires forall r :: InRun(q, |elements| + 2, r) ==> alloc.Live(r)
      requires alloc.At(q) == Size(|elements|)
      requires forall i :: 0 <= i < |elements| ==> alloc.At(Offset(q, i + 1)) == Data(elements[i])
      modifies this, alloc
      ensures Valid(alloc) && Contains(alloc, elements + [x])
      ensures begin == Some(q)
      ensures forall r :: alloc.Live(r) <==> old(alloc.Live(r))
      ensures forall r :: !InRun(q, |elements| + 2, r) ==> alloc.At(r) == old(alloc.At(r))
    {
      assert InRun(q, |elements| + 2, q);
      var n := alloc.blocks[q.block][q.slot].size;
      assert InRun(q, n + 2, Offset(q, n + 1));
      alloc.Write(Offset(q, n + 1), Data(x));
      begin := Some(q);
      alloc.Write(q, Size(n + 1));
      forall r | Owns(alloc, r) && r != q ensures alloc.At(r).Data? {
        var i := r.slot - q.slot - 1;
        assert r == Offset(q, i + 1);
        assert i == n || old(alloc.At(r)) == Data(elements[i]);
      }
    }

    /** The first element. */
    method Start(alloc: BlockAllocator<T>, x: T)
      requires alloc.Valid() && begin.None?
      modifies this, alloc
      ensures Valid(alloc) && Contains(alloc, [x])
      ensures forall p :: alloc.Live(p) <==> old(alloc.Live(p)) || Owns(alloc, p)
      ensures forall p :: old(alloc.Live(p)) ==> alloc.Live(p) && alloc.At(p) == old(alloc.At(p)) && !Owns(alloc, p)
    {
      var run := alloc.AllocUninitialized(2);
      var q := run.value;
      assert InRun(q, 2, q) && InRun(q, 2, Offset(q, 1));
      begin := Some(q);
      alloc.Write(Offset(q, 1), Data(x));
      alloc.Write(q, Size(0));
      alloc.Write(q, Size(1));
    }
  }
}
