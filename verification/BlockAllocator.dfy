/** The block allocator: each block of 1024 slots threads its free slots into a list through the
    slots themselves, starting at the header slot 0, and hands out runs of adjacent slots. */
module BlockAllocators {
  import opened Common

  const BLOCK_SIZE := 1024

  /** The contents of a slot.  A free slot and the header hold the number of the next free slot of
      the block, 0 standing for null; a live slot holds what its owner put there. */
  datatype Slot<T> = Raw | Link(next: nat) | Size(size: nat) | Data(value: T)

  /** An address: a block, in creation order, and a slot of it. */
  datatype Ptr = Ptr(block: nat, slot: nat)

  function Head(list: seq<nat>): nat {
    if list == [] then 0 else list[0]
  }

  /** Following the links from slot `at` visits exactly `list` and then ends. */
  ghost predicate Chain<T>(block: seq<Slot<T>>, at: nat, list: seq<nat>)
    decreases |list|
  {
    && at < |block|
    && block[at] == Link(Head(list))
    && (list != [] ==> Chain(block, list[0], list[1..]))
  }

  /** The free list is acyclic and stays within slots 1 to 1023. */
  ghost predicate ValidBlock<T>(block: seq<Slot<T>>, free: seq<nat>) {
    && |block| == BLOCK_SIZE
    && Chain(block, 0, free)
    && NoDuplicates(free)
    && forall s :: s in free ==> 0 < s < BLOCK_SIZE
  }

  /** The first `size` free slots are adjacent. */
  predicate Adjacent(free: seq<nat>, size: nat) {
    size <= |free| && forall i :: 0 <= i < size ==> free[i] == free[0] + i
  }

  lemma {:induction false} ChainFrame<T>(block: seq<Slot<T>>, after: seq<Slot<T>>, at: nat, list: seq<nat>)
    requires Chain(block, at, list) && |after| == |block|
    requires after[at] == block[at]
    requires forall s :: s in list && s < |block| ==> after[s] == block[s]
    ensures Chain(after, at, list)
    decreases |list|
  {
    if list != [] {
      assert list[0] in list && list[0] < |block|;
      ChainFrame(block, after, list[0], list[1..]);
    }
  }

  /** The chain seen from its `k`-th member. */
  lemma {:induction false} ChainAt<T>(block: seq<Slot<T>>, at: nat, list: seq<nat>, k: nat)
    requires Chain(block, at, list) && k < |list|
    ensures Chain(block, list[k], list[k + 1..])
    decreases k
  {
    if 0 < k {
      ChainAt(block, list[0], list[1..], k - 1);
      assert list[1..][k..] == list[k + 1..];
    }
  }

  /** Walks the front of the free list; answers its first slot when `size` free slots lie side by
      side there, and null otherwise. */
  method FindRun<T>(block: seq<Slot<T>>, size: nat, ghost free: seq<nat>) returns (chunk: nat)
    requires ValidBlock(block, free) && 0 < size < BLOCK_SIZE
    ensures chunk == if Adjacent(free, size) then free[0] else 0
    ensures chunk != 0 <==> size <= |free| && forall i :: 0 <= i < size ==> free[i] == free[0] + i
  {
    chunk := block[0].next;
    assert free != [] ==> free[0] in free;
    if chunk == 0 {
      return;
    }
    var front := 0;
    for index := 0 to size
      invariant chunk == Head(free) && free != [] && index <= |free|
      invariant forall i :: 0 <= i < index ==> free[i] == free[0] + i
      invariant front == if index == 0 then 0 else free[index - 1]
      invariant Chain(block, front, free[index..])
    {
      if index > 0 && block[front].next != front + 1 {
        return 0;
      }
      assert free[index..] != [] && free[index..][0] == free[index];
      front := block[front].next;
      assert free[index..][1..] == free[index + 1..];
    }
  }

  /** Unlinks the first `size` free slots. */
  method PopRun<T>(block: seq<Slot<T>>, size: nat, ghost free: seq<nat>) returns (after: seq<Slot<T>>)
    requires ValidBlock(block, free) && size <= |free|
    ensures after == block[0 := Link(Head(free[size..]))]
    ensures ValidBlock(after, free[size..])
  {
    after := block;
    assert free[0..] == free;
    for index := 0 to size
      invariant after == block[0 := Link(Head(free[index..]))]
    {
      ChainAt(block, 0, free, index);
      var first := after[0].next;
      assert first == free[index] && first in free && block[first] == Link(Head(free[index + 1..]));
      after := after[0 := Link(after[first].next)];
    }
    ghost var rest := free[size..];
    assert forall s :: s in rest ==> s in free;
    if rest != [] {
      ChainAt(block, 0, free, size);
      assert rest[1..] == free[size + 1..];
      assert forall s :: s in rest[1..] ==> s in rest && s in free;
      ChainFrame(block, after, rest[0], rest[1..]);
    }
  }

  function Upward(from: nat, to: nat): (list: seq<nat>)
    requires from <= to
    ensures |list| == to - from
    ensures forall i :: 0 <= i < |list| ==> list[i] == from + i
  {
    seq(to - from, i requires 0 <= i < to - from => from + i)
  }

  lemma UpwardMember(from: nat, to: nat)
    requires from <= to
    ensures forall s :: s in Upward(from, to) <==> from <= s < to
  {
    forall s | from <= s < to ensures s in Upward(from, to) {
      assert Upward(from, to)[s - from] == s;
    }
  }

  /** A fresh block whose first `size` slots are taken.  The whole block is asked for when `size` is
      1023, and then the header points one slot past the end. */
  method NewBlock<T>(size: nat) returns (block: seq<Slot<T>>)
    requires 0 < size < BLOCK_SIZE
    ensures |block| == BLOCK_SIZE && block[0] == Link(1 + size)
    ensures size < BLOCK_SIZE - 1 ==> ValidBlock(block, Upward(1 + size, BLOCK_SIZE))
  {
    block := seq(BLOCK_SIZE, _ => Raw);
    block := block[0 := Link(1 + size)];
    var i := 1 + size;
    while i < BLOCK_SIZE - 1
      invariant 1 + size <= i && (size < BLOCK_SIZE - 1 ==> i <= BLOCK_SIZE - 1)
      invariant |block| == BLOCK_SIZE && block[0] == Link(1 + size)
      invariant forall s :: 1 + size <= s < i && s < BLOCK_SIZE ==> block[s] == Link(s + 1)
    {
      block := block[i := Link(i + 1)];
      i := i + 1;
    }
    block := block[BLOCK_SIZE - 1 := Link(0)];
    if size < BLOCK_SIZE - 1 {
      UpwardChain(block, 1 + size);
      var free := Upward(1 + size, BLOCK_SIZE);
      assert free[1..] == Upward(2 + size, BLOCK_SIZE);
    }
  }

  lemma {:induction false} UpwardChain<T>(block: seq<Slot<T>>, from: nat)
    requires |block| == BLOCK_SIZE && 0 < from < BLOCK_SIZE
    requires forall s :: from <= s < BLOCK_SIZE - 1 ==> block[s] == Link(s + 1)
    requires block[BLOCK_SIZE - 1] == Link(0)
    ensures Chain(block, from, Upward(from + 1, BLOCK_SIZE))
    decreases BLOCK_SIZE - from
  {
    if from < BLOCK_SIZE - 1 {
      UpwardChain(block, from + 1);
      assert Upward(from + 1, BLOCK_SIZE)[1..] == Upward(from + 2, BLOCK_SIZE);
    }
  }

  /** No list of slots belongs to a block whose header points past its end. */
  lemma PastEndInvalid<T>(block: seq<Slot<T>>, free: seq<nat>)
    requires |block| == BLOCK_SIZE && block[0] == Link(BLOCK_SIZE)
    ensures !ValidBlock(block, free)
  {
    if free != [] {
      assert free[0] in free;
    }
  }

  /** Slot `s` becomes the first free one. */
  lemma PushFront<T>(block: seq<Slot<T>>, free: seq<nat>, s: nat)
    requires ValidBlock(block, free) && 0 < s < BLOCK_SIZE && s !in free
    ensures ValidBlock(block[s := Link(Head(free))][0 := Link(s)], [s] + free)
  {
    var after := block[s := Link(Head(free))][0 := Link(s)];
    var list := [s] + free;
    assert list[1..] == free;
    if free != [] {
      assert free[0] in free && forall x :: x in free[1..] ==> x in free;
      ChainFrame(block, after, free[0], free[1..]);
    }
    assert Chain(after, s, free);
  }

  lemma WriteKeepsChain<T>(block: seq<Slot<T>>, free: seq<nat>, s: nat, slot: Slot<T>)
    requires ValidBlock(block, free) && 0 < s < BLOCK_SIZE && s !in free
    ensures ValidBlock(block[s := slot], free)
  {
    ChainFrame(block, block[s := slot], 0, free);
  }

  /** Slot `q` is one of the `size` slots from `p` on. */
  predicate InRun(p: Ptr, size: nat, q: Ptr) {
    q.block == p.block && p.slot <= q.slot < p.slot + size
  }

  /** From the newest of `count` blocks, if its free list starts with that many adjacent slots, or else from the
      start of a new block. */
  ghost predicate ServedFrom(free: seq<nat>, count: nat, size: nat, chunk: Ptr, after: nat) {
    if size <= |free| && forall i :: 0 <= i < size ==> free[i] == free[0] + i then
      0 < size && chunk.block == count - 1 && chunk.slot == free[0] && after == count
    else chunk == Ptr(count, 1) && after == count + 1
  }

  class BlockAllocator<T> {
    /** The blocks in creation order; the program's list has the newest first. */
    var blocks: seq<seq<Slot<T>>>
    ghost var free: seq<seq<nat>>

    ghost predicate Valid()
      reads this
    {
      |free| == |blocks| && forall b :: 0 <= b < |blocks| ==> ValidBlock(blocks[b], free[b])
    }

    /** A slot in somebody's hands: in a block, not its header, and not in its free list. */
    ghost predicate Live(p: Ptr)
      requires |free| == |blocks|
      reads this
    {
      p.block < |blocks| && 0 < p.slot < BLOCK_SIZE && p.slot !in free[p.block]
    }

    ghost function At(p: Ptr): Slot<T>
      reads this
    {
      if p.block < |blocks| && p.slot < |blocks[p.block]| then blocks[p.block][p.slot] else Raw
    }

    ghost predicate FrontFits(size: nat)
      requires |free| == |blocks|
      reads this
    {
      blocks != [] && Adjacent(free[|blocks| - 1], size)
    }

    constructor ()
      ensures Valid() && blocks == []
    {
      blocks, free := [], [];
    }

    /** Hands out `size` adjacent slots none of which was live, keeps everything live as it was, and
        keeps the partition of every block between its free list and the live slots: for every size
        the guard admits except 1023, which is only safe when the newest block serves it.  Otherwise
        that request leaves a block no free list fits. */
    method AllocUninitialized(size: nat) returns (chunk: Option<Ptr>)
      requires Valid()
      modifies this
      ensures size == 0 || size > 1023 ==> chunk.None? && unchanged(this)
      ensures 0 < size <= 1023 ==> chunk.Some?
      ensures 0 < size <= 1023 ==> (Valid() <==> size < 1023 || old(FrontFits(size)))
      ensures 0 < size <= 1023 ==>
          ServedFrom(old(if blocks == [] then [] else free[|blocks| - 1]), |old(blocks)|, size, chunk.value, |blocks|)
      ensures |free| == |blocks| && |old(blocks)| <= |blocks|
      ensures chunk.Some? && Valid() ==>
                && chunk.value.slot + size <= 1024
                && (forall q :: InRun(chunk.value, size, q) ==> !old(Live(q)))
                && (forall q :: Live(q) <==> old(Live(q)) || InRun(chunk.value, size, q))
      ensures forall q :: old(Live(q)) ==> At(q) == old(At(q))
      ensures size == 1 ==> forall q :: old(IsNext(q)) ==> chunk == Some(q)
    {
      if size == 0 || size > BLOCK_SIZE - 1 {
        return None;
      }
      var top := |blocks| - 1;
      if blocks != [] {
        var slot := FindRun(blocks[top], size, free[top]);
        if slot != 0 {
          var block := PopRun(blocks[top], size, free[top]);
          ghost var list := free[top];
          blocks := blocks[top := block];
          free := free[top := list[size..]];
          RunLeaves(list, size);
          assert list[size - 1] in list && list[0] in list;
          return Some(Ptr(top, slot));
        }
        assert free[top] != [] ==> free[top][0] in free[top];
      }
      var block := NewBlock<T>(size);
      blocks := blocks + [block];
      free := free + [Upward(1 + size, BLOCK_SIZE)];
      UpwardMember(1 + size, BLOCK_SIZE);
      if size == BLOCK_SIZE - 1 {
        PastEndInvalid(block, free[|blocks| - 1]);
      }
      return Some(Ptr(|blocks| - 1, 1));
    }

    /** `ptr` is the slot the next request for one slot is served with, by the newest block. */
    ghost predicate IsNext(ptr: Ptr)
      requires |free| == |blocks|
      reads this
    {
      blocks != [] && free[|blocks| - 1] != [] && ptr == Ptr(|blocks| - 1, free[|blocks| - 1][0])
    }

    /** Whether growing the run that ends just before `ptr` by one slot needs no copy. */
    method Allocable(ptr: Ptr) returns (ok: bool)
      requires Valid()
      ensures ok <==> IsNext(ptr)
    {
      ok := blocks != [] && blocks[|blocks| - 1][0].next != 0 && ptr == Ptr(|blocks| - 1, blocks[|blocks| - 1][0].next);
      if blocks != [] && free[|blocks| - 1] != [] {
        assert free[|blocks| - 1][0] in free[|blocks| - 1];
      }
    }

    /** The owner of a live slot stores something in it. */
    method Write(p: Ptr, slot: Slot<T>)
      requires Valid() && Live(p)
      modifies this
      ensures Valid() && At(p) == slot
      ensures forall q :: Live(q) <==> old(Live(q))
      ensures forall q :: q != p ==> At(q) == old(At(q))
    {
      WriteKeepsChain(blocks[p.block], free[p.block], p.slot, slot);
      blocks := blocks[p.block := blocks[p.block][p.slot := slot]];
    }

    /** Returns a live slot to its own block, and nothing else changes hands. */
    method Dealloc(ptr: Ptr)
      requires Valid() && Live(ptr)
      modifies this
      ensures Valid() && |blocks| == |old(blocks)|
      ensures forall q :: Live(q) <==> old(Live(q)) && q != ptr
      ensures forall q :: Live(q) ==> At(q) == old(At(q))
    {
      var b := |blocks|;
      while 0 < b
        invariant ptr.block < b <= |blocks| && unchanged(this)
      {
        b := b - 1;
        if b == ptr.block && 0 < ptr.slot < BLOCK_SIZE {
          var block := blocks[b];
          PushFront(block, free[b], ptr.slot);
          block := block[ptr.slot := block[0]];
          block := block[0 := Link(ptr.slot)];
          blocks := blocks[b := block];
          free := free[b := [ptr.slot] + free[b]];
          return;
        }
      }
    }
  }

  lemma TakenNotLeft(list: seq<nat>, size: nat, j: nat)
    requires NoDuplicates(list) && j < size <= |list|
    ensures list[j] !in list[size..]
  {
  }

  /** Taking an adjacent front of a duplicate-free list removes exactly that run from it. */
  lemma RunLeaves(list: seq<nat>, size: nat)
    requires NoDuplicates(list) && 0 < size && Adjacent(list, size)
    ensures forall s :: s in list <==> s in list[size..] || list[0] <= s < list[0] + size
    ensures forall s :: s in list[size..] ==> !(list[0] <= s < list[0] + size)
    ensures list[size - 1] == list[0] + size - 1
  {
    assert list == list[..size] + list[size..];
    forall s | list[0] <= s < list[0] + size ensures s in list && s !in list[size..] {
      assert list[s - list[0]] == s;
      TakenNotLeft(list, size, s - list[0]);
    }
  }
}
