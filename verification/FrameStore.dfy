/** The store that puts dissected frames back into capture order and publishes views of them. */
module FrameStores {
  import opened Common
  import opened Frames
  import opened ReorderBuffer

  /** The store's contents as a value. */
  datatype Store = Store(sequence: map<nat, Frame>, frames: seq<Frame>, views: seq<View>, maxSeq: nat)

  const EMPTY := Store(map[], [], [], 0)

  /** The map after a batch was written into it, later frames winning. */
  function Offer(buffer: map<nat, Frame>, batch: seq<Frame>): map<nat, Frame> {
    if batch == [] then buffer
    else
      var last := batch[|batch| - 1];
      Offer(buffer, batch[..|batch| - 1])[last.index := last]
  }

  function Insert(store: Store, batch: seq<Frame>): Store {
    var buffer := Offer(store.sequence, batch);
    var end := RunEnd(buffer, store.maxSeq);
    store.(sequence := Trim(buffer, store.maxSeq, end),
           frames := store.frames + Run(buffer, store.maxSeq, end),
           maxSeq := end)
  }

  function Update(store: Store, index: nat): Store
    requires index <= |store.frames|
  {
    var size := |store.views|;
    store.(views := if index <= size then store.views[..index]
                    else store.views + Wrap(store.frames[size..index]))
  }

  /** Under each index the map holds the batch's last frame with it, or what it held before. */
  lemma {:induction false} OfferMeans(buffer: map<nat, Frame>, batch: seq<Frame>, k: nat)
    ensures k in Offer(buffer, batch) <==> k in buffer || exists f :: f in batch && f.index == k
    ensures k in Offer(buffer, batch) ==>
        (exists i :: 0 <= i < |batch| && LastAt(batch, i, k) && Offer(buffer, batch)[k] == batch[i])
        || ((forall f :: f in batch ==> f.index != k) && k in buffer && Offer(buffer, batch)[k] == buffer[k])
  {
    if batch != [] {
      var n := |batch| - 1;
      OfferMeans(buffer, batch[..n], k);
      assert forall f :: f in batch <==> f in batch[..n] || f == batch[n];
      if batch[n].index == k {
        assert LastAt(batch, n, k);
      } else if i :| 0 <= i < n && LastAt(batch[..n], i, k) {
        assert LastAt(batch, i, k);
      }
    }
  }

  ghost predicate LastAt(batch: seq<Frame>, i: nat, k: nat)
    requires i < |batch|
  {
    batch[i].index == k && forall j :: i < j < |batch| ==> batch[j].index != k
  }

  /** The frame list is the gap-free run from 1, and it cannot be extended from the map. */
  ghost predicate Ordered(store: Store) {
    && store.maxSeq == |store.frames|
    && (forall k :: 0 <= k < |store.frames| ==> store.frames[k].index == k + 1)
    && Keyed(store.sequence)
    && store.maxSeq + 1 !in store.sequence
  }

  /** Every published view wraps the frame at its own position. */
  ghost predicate Agreeing(store: Store) {
    && |store.views| <= |store.frames|
    && store.views == Wrap(store.frames[..|store.views|])
  }

  /** The frame is in the map, above the consumed run. */
  predicate Waits(buffer: map<nat, Frame>, low: nat, f: Frame) {
    low < f.index && f.index in buffer && buffer[f.index] == f
  }

  /** How often the store holds a frame: listed, or waiting for a predecessor. */
  ghost function Held(store: Store, f: Frame): nat {
    multiset(store.frames)[f] + Once(Waits(store.sequence, store.maxSeq, f))
  }

  ghost predicate Keyed(buffer: map<nat, Frame>) {
    forall k :: k in buffer ==> buffer[k].index == k
  }

  /** Writing a frame under a free index adds just that frame. */
  lemma OfferOne(before: map<nat, Frame>, low: nat, last: Frame, f: Frame)
    requires Keyed(before) && low < last.index && last.index !in before
    ensures Keyed(before[last.index := last])
    ensures Once(Waits(before[last.index := last], low, f)) == Once(Waits(before, low, f)) + Once(f == last)
  {
  }

  /** An issued frame that is not in the map finds its index free. */
  lemma IndexFree(before: map<nat, Frame>, low: nat, last: Frame, issued: seq<Frame>)
    requires Numbered(issued) && Keyed(before) && low < last.index
    requires forall f :: Once(Waits(before, low, f)) + Once(f == last) <= multiset(issued)[f]
    ensures last.index !in before
  {
    NumberedOnce(issued, last);
    if last.index in before {
      var other := before[last.index];
      assert Waits(before, low, other) && Once(Waits(before, low, other)) == 1;
      assert 0 < multiset(issued)[other] && 0 < multiset(issued)[last];
      NumberedOnce(issued, other);
      assert false;
    }
  }

  /** Writing a batch of issued frames that are not in the map adds exactly that batch. */
  lemma {:induction false} OfferConserves(buffer: map<nat, Frame>, low: nat, batch: seq<Frame>, issued: seq<Frame>)
    requires Numbered(issued) && Keyed(buffer)
    requires forall f :: f in batch ==> low < f.index
    requires forall f :: Once(Waits(buffer, low, f)) + multiset(batch)[f] <= multiset(issued)[f]
    ensures Keyed(Offer(buffer, batch))
    ensures forall f :: Once(Waits(Offer(buffer, batch), low, f)) == Once(Waits(buffer, low, f)) + multiset(batch)[f]
  {
    hide Waits, Keyed, Numbered;
    if batch != [] {
      var front, last := batch[..|batch| - 1], batch[|batch| - 1];
      assert batch == front + [last];
      assert forall f :: multiset(batch)[f] == multiset(front)[f] + Once(f == last);
      OfferConserves(buffer, low, front, issued);
      var before := Offer(buffer, front);
      assert last in batch;
      IndexFree(before, low, last, issued);
      forall f
        ensures Keyed(Offer(buffer, batch))
        ensures Once(Waits(Offer(buffer, batch), low, f)) == Once(Waits(before, low, f)) + Once(f == last)
      {
        OfferOne(before, low, last, f);
      }
    }
  }

  /** Moving a run from the map to the list conserves every frame. */
  lemma {:induction false} RunConserves(buffer: map<nat, Frame>, low: nat, end: nat, f: Frame)
    requires Keyed(buffer)
    requires low <= end && forall k :: low < k <= end ==> k in buffer
    ensures Once(Waits(buffer, low, f)) == multiset(Run(buffer, low, end))[f] + Once(Waits(buffer, end, f))
    decreases end - low
  {
    if low == end {
      assert Run(buffer, low, end) == [];
    } else {
      RunConserves(buffer, low + 1, end, f);
      assert Run(buffer, low, end) == [buffer[low + 1]] + Run(buffer, low + 1, end);
    }
  }

  /** The listed frames are exactly the issued ones up to `maxSeq`. */
  lemma ListedAreIssued(store: Store, issued: seq<Frame>)
    requires Ordered(store) && Numbered(issued)
    requires forall f :: multiset(store.frames)[f] <= multiset(issued)[f]
    ensures store.frames <= issued
  {
    if |issued| < |store.frames| {
      var f := store.frames[|issued|];
      assert f in multiset(store.frames);
      NumberedOnce(issued, f);
      assert false;
    }
    forall k | 0 <= k < |store.frames|
      ensures store.frames[k] == issued[k]
    {
      var f := store.frames[k];
      assert f in multiset(store.frames);
      NumberedOnce(issued, f);
    }
  }

  /** Draining the run conserves the frames and keeps the list numbered from 1. */
  lemma DrainKeepsOrder(frames: seq<Frame>, buffer: map<nat, Frame>)
    requires Keyed(buffer)
    requires forall k :: 0 <= k < |frames| ==> frames[k].index == k + 1
    ensures var end := RunEnd(buffer, |frames|);
            var after := frames + Run(buffer, |frames|, end);
            var rest := Trim(buffer, |frames|, end);
            && end == |after| && end + 1 !in rest && Keyed(rest)
            && (forall k :: 0 <= k < |after| ==> after[k].index == k + 1)
  {
    TrimKeeps(buffer, |frames|);
  }

  lemma DrainConserves(frames: seq<Frame>, buffer: map<nat, Frame>, f: Frame)
    requires Keyed(buffer)
    ensures var end := RunEnd(buffer, |frames|);
            multiset(frames + Run(buffer, |frames|, end))[f] + Once(Waits(Trim(buffer, |frames|, end), end, f))
            == multiset(frames)[f] + Once(Waits(buffer, |frames|, f))
  {
    var low := |frames|;
    var end := RunEnd(buffer, low);
    RunConserves(buffer, low, end, f);
    TrimKeeps(buffer, low);
    assert multiset(frames + Run(buffer, low, end)) == multiset(frames) + multiset(Run(buffer, low, end));
  }

  /** A frame offered to the store has not been listed, so its index is still to come. */
  lemma OfferedIsNew(store: Store, batch: seq<Frame>, issued: seq<Frame>, f: Frame)
    requires Ordered(store) && Numbered(issued) && f in batch
    requires forall g :: Held(store, g) + multiset(batch)[g] <= multiset(issued)[g]
    ensures store.maxSeq < f.index
  {
    assert f in multiset(batch);
    NumberedOnce(issued, f);
    assert f !in multiset(store.frames);
    if f.index <= store.maxSeq {
      var g := store.frames[f.index - 1];
      assert g in multiset(store.frames) && g in multiset(issued);
      NumberedOnce(issued, g);
    }
  }

  /** Inserting a batch of issued frames conserves all of them and leaves the list the longest
      gap-free run from 1, whatever order the batches come in. */
  lemma InsertConserves(store: Store, batch: seq<Frame>, issued: seq<Frame>)
    requires Ordered(store) && Numbered(issued)
    requires forall f :: Held(store, f) + multiset(batch)[f] <= multiset(issued)[f]
    ensures Ordered(Insert(store, batch))
    ensures forall f :: Held(Insert(store, batch), f) == Held(store, f) + multiset(batch)[f]
    ensures store.frames <= Insert(store, batch).frames
  {
    hide Offer, RunEnd, Run, Trim, Numbered;
    forall f | f in batch ensures store.maxSeq < f.index {
      OfferedIsNew(store, batch, issued, f);
    }
    assert forall f :: Once(Waits(store.sequence, store.maxSeq, f)) <= Held(store, f);
    OfferConserves(store.sequence, store.maxSeq, batch, issued);
    var buffer := Offer(store.sequence, batch);
    DrainKeepsOrder(store.frames, buffer);
    forall f ensures Held(Insert(store, batch), f) == Held(store, f) + multiset(batch)[f] {
      DrainConserves(store.frames, buffer, f);
    }
  }

  /** Publishing keeps every view on its own frame and publishes exactly `index` of them, growing
      or shrinking; inserting never disturbs what is published. */
  lemma PublishingAgrees(store: Store, index: nat, batch: seq<Frame>)
    requires Agreeing(store)
    ensures index <= |store.frames| ==> Agreeing(Update(store, index)) && |Update(store, index).views| == index
    ensures Agreeing(Insert(store, batch))
  {
    hide Insert;
    if index <= |store.frames| {
      UpdateWraps(store, index);
    }
    InsertExtends(store, batch);
    assert Insert(store, batch).frames[..|store.views|] == store.frames[..|store.views|];
  }

  lemma UpdateWraps(store: Store, index: nat)
    requires Agreeing(store) && index <= |store.frames|
    ensures Update(store, index).views == Wrap(store.frames[..index])
  {
    var size, views := |store.views|, Update(store, index).views;
    forall k | 0 <= k < index ensures views[k] == View(store.frames[k]) {
    }
  }

  lemma InsertExtends(store: Store, batch: seq<Frame>)
    ensures store.frames <= Insert(store, batch).frames && Insert(store, batch).views == store.views
  {
  }

  /** Walks the gap-free run above `low`. */
  method Drain(buffer: map<nat, Frame>, low: nat) returns (max: nat, run: seq<Frame>)
    ensures max == RunEnd(buffer, low)
    ensures run == Run(buffer, low, max)
  {
    max, run := low, [];
    ghost var end := RunEnd(buffer, low);
    while max + 1 in buffer
      invariant low <= max <= end
      invariant run == Run(buffer, low, max)
      decreases end - max
    {
      run := run + [buffer[max + 1]];
      max := max + 1;
    }
  }

  class FrameStore {
    var sequence: map<nat, Frame>
    var frames: seq<Frame>
    var views: seq<View>
    var maxSeq: nat
    var closedThreads: set<nat>
    var closed: bool

    ghost function State(): Store
      reads this
    {
      Store(sequence, frames, views, maxSeq)
    }

    constructor ()
      ensures State() == EMPTY && closedThreads == {} && !closed
    {
      sequence, frames, views, maxSeq := map[], [], [], 0;
      closedThreads, closed := {}, false;
    }

    method InsertBatch(batch: seq<Frame>)
      modifies this`sequence, this`frames, this`maxSeq
      ensures State() == Insert(old(State()), batch)
    {
      for i := 0 to |batch|
        invariant sequence == Offer(old(sequence), batch[..i])
        invariant frames == old(frames) && maxSeq == old(maxSeq)
      {
        sequence := sequence[batch[i].index := batch[i]];
        assert batch[..i + 1][..i] == batch[..i];
      }
      assert batch[..|batch|] == batch;
      var max, run := Drain(sequence, maxSeq);
      frames := frames + run;
      if maxSeq < max {
        maxSeq := max;
        sequence := map k | k in sequence && max <= k :: sequence[k];
      }
    }

    /** Frames from `offset` on, at most `max`; runs once the wait for one of them is over. */
    method DequeueFrames(offset: nat, max: nat) returns (read: seq<Frame>)
      requires closed || offset < |frames|
      ensures read == if closed then []
                      else frames[offset..if offset + max < |frames| then offset + max else |frames|]
    {
      read := [];
      if closed {
        return;
      }
      while |read| + offset < |frames| && |read| < max
        invariant offset + |read| <= |frames| && |read| <= max
        invariant read == frames[offset..offset + |read|]
      {
        read := read + [frames[offset + |read|]];
      }
    }

    /** Views from `offset` on, at most `size`; the wait may have timed out with nothing to read.
        A thread that was closed is told so once. */
    method DequeueViews(offset: nat, size: nat, id: nat) returns (ok: bool, read: seq<View>)
      modifies this`closedThreads
      ensures ok == (!closed && id !in old(closedThreads))
      ensures closedThreads == old(closedThreads) - {id}
      ensures ok ==> read == if |views| <= offset then []
                             else views[offset..if offset + size < |views| then offset + size else |views|]
    {
      read := [];
      if id in closedThreads {
        closedThreads := closedThreads - {id};
        return false, [];
      }
      if closed {
        return false, [];
      }
      while |read| + offset < |views| && |read| < size
        invariant |read| == 0 || offset + |read| <= |views|
        invariant |read| <= size
        invariant offset <= |views| ==> offset + |read| <= |views| && read == views[offset..offset + |read|]
      {
        read := read + [views[offset + |read|]];
      }
      ok := true;
    }

    method Get(offset: nat, length: nat) returns (read: seq<View>)
      ensures read == if |views| <= offset then []
                      else views[offset..if offset + length < |views| then offset + length else |views|]
    {
      read := [];
      var i := offset;
      while i < offset + length && i < |views|
        invariant offset <= i
        invariant offset <= |views| ==> i <= |views| && i <= offset + length && read == views[offset..i]
        invariant |views| <= offset ==> read == []
      {
        read := read + [views[i]];
        i := i + 1;
      }
    }

    /** Shrinks or grows the published views to `index`; reading `frames[i]` for the new ones is
        what makes an index beyond the frame list an error of the caller. */
    method UpdateViews(index: nat)
      requires index <= |frames|
      modifies this`views
      ensures State() == Update(old(State()), index)
    {
      var size := |views|;
      if index <= size {
        views := views[..index];
      } else {
        for i := size to index
          invariant views == old(views) + Wrap(frames[size..i])
        {
          views := views + [View(frames[i])];
        }
      }
    }

    method Close(id: nat, all: bool)
      modifies this`closed, this`closedThreads
      ensures closed == (all || old(closed))
      ensures closedThreads == if all then old(closedThreads) else old(closedThreads) + {id}
    {
      if all {
        closed := true;
      } else {
        closedThreads := closedThreads + {id};
      }
    }
  }
}
