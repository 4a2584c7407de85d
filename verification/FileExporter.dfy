/** The file exporter: it cuts the published views into filtered blocks of raw frames and hands them
    to the capture file writer. */
module FileExporter {
  import opened Common
  import opened Pcap
  import PcapRoundTrip
  import Frames
  import S = FrameStores

  type Token = nat

  /** What the exporter reads of a published frame: the slices of the root layer's payloads, the root
      layer's id, the time in nanoseconds since the epoch and the captured length. */
  datatype Captured = Captured(root: Token, payloads: seq<seq<seq<byte>>>, nano: int, length: nat)

  const BILLION := 1_000_000_000

  /** Division as in C++, rounding toward zero. */
  function Quotient(a: int, b: int): int
    requires 0 < b
  {
    if 0 <= a then a / b else -(-a / b)
  }

  function Payload(v: Captured): seq<byte> {
    if v.payloads != [] && v.payloads[0] != [] then v.payloads[0][0] else []
  }

  function RawFrame(v: Captured, linkLayers: map<Token, u32>): Frame {
    var sec := Quotient(v.nano, BILLION);
    Frame(if v.root in linkLayers then linkLayers[v.root] else 0, Payload(v), v.length, sec, v.nano - sec * BILLION)
  }

  predicate Passes(filter: Option<Captured -> bool>, v: Captured) {
    filter.None? || filter.value(v)
  }

  /** The raw frames of the views that pass the filter, in order. */
  function Selected(views: seq<Captured>, filter: Option<Captured -> bool>, linkLayers: map<Token, u32>): seq<Frame> {
    if views == [] then []
    else
      (if Passes(filter, views[0]) then [RawFrame(views[0], linkLayers)] else [])
      + Selected(views[1..], filter, linkLayers)
  }

  lemma {:induction false} SelectedConcat(a: seq<Captured>, b: seq<Captured>, filter: Option<Captured -> bool>,
      linkLayers: map<Token, u32>)
    ensures Selected(a + b, filter, linkLayers) == Selected(a, filter, linkLayers) + Selected(b, filter, linkLayers)
  {
    if a == [] {
      assert a + b == b;
    } else {
      assert (a + b)[1..] == a[1..] + b;
      SelectedConcat(a[1..], b, filter, linkLayers);
    }
  }

  lemma SelectedOne(a: seq<Captured>, v: Captured, filter: Option<Captured -> bool>, linkLayers: map<Token, u32>)
    ensures Selected(a + [v], filter, linkLayers)
         == Selected(a, filter, linkLayers) + if Passes(filter, v) then [RawFrame(v, linkLayers)] else []
  {
    hide RawFrame;
    SelectedConcat(a, [v], filter, linkLayers);
    assert [v][1..] == [];
  }

  function Describe(frames: seq<Frames.Frame>, describe: Frames.Frame -> Captured): (views: seq<Captured>)
    ensures |views| == |frames|
  {
    seq(|frames|, i requires 0 <= i < |frames| => describe(frames[i]))
  }

  /** A raw frame carries the first slice of a view's first payload, its length, its time split at the second,
      rounding toward zero, and the link type its root layer is mapped to. */
  ghost predicate Carries(f: Frame, v: Captured, linkLayers: map<Token, u32>) {
    && f.payload == (if v.payloads != [] && v.payloads[0] != [] then v.payloads[0][0] else [])
    && f.actual == v.length
    && f.sec * 1_000_000_000 + f.nsec == v.nano
    && (if 0 <= v.nano then 0 <= f.nsec < 1_000_000_000 else -1_000_000_000 < f.nsec <= 0)
    && f.link == if v.root in linkLayers then linkLayers[v.root] else 0
  }

  /** `at` are the positions from `from` up to `to` at which the filter, if there is one, accepts the frame, in
      order, and the batch carries what is listed there. */
  ghost predicate Picks(listed: seq<Frames.Frame>, describe: Frames.Frame -> Captured,
                        filter: Option<Captured -> bool>, linkLayers: map<Token, u32>, from: nat, end: nat,
                        batch: seq<Frame>, at: seq<nat>)
    requires from <= end <= |listed|
  {
    && |at| == |batch|
    && (forall i, j :: 0 <= i < j < |at| ==> at[i] < at[j])
    && (forall k: nat :: k in at <==> from <= k < end && (filter.None? || filter.value(describe(listed[k]))))
    && forall i :: 0 <= i < |at| ==> at[i] < |listed| && Carries(batch[i], describe(listed[at[i]]), linkLayers)
  }

  ghost predicate Picked(listed: seq<Frames.Frame>, describe: Frames.Frame -> Captured,
                         filter: Option<Captured -> bool>, linkLayers: map<Token, u32>, from: nat, end: nat,
                         batch: seq<Frame>)
    requires from <= end <= |listed|
  {
    exists at: seq<nat> :: Picks(listed, describe, filter, linkLayers, from, end, batch, at)
  }

  lemma RawFrameCarries(v: Captured, linkLayers: map<Token, u32>)
    ensures Carries(RawFrame(v, linkLayers), v, linkLayers)
  {
  }

  lemma PicksOne(listed: seq<Frames.Frame>, describe: Frames.Frame -> Captured, filter: Option<Captured -> bool>,
                 linkLayers: map<Token, u32>, from: nat, end: nat, batch: seq<Frame>, at: seq<nat>, f: Frame)
    requires from <= end < |listed| && Picks(listed, describe, filter, linkLayers, from, end, batch, at)
    requires Carries(f, describe(listed[end]), linkLayers)
    ensures if filter.None? || filter.value(describe(listed[end]))
            then Picks(listed, describe, filter, linkLayers, from, end + 1, batch + [f], at + [end])
            else Picks(listed, describe, filter, linkLayers, from, end + 1, batch, at)
  {
    hide Carries;
    forall i | 0 <= i < |at| ensures at[i] < end {
      assert at[i] in at;
    }
  }

  /** What is selected is picked at the positions of the frames that pass. */
  lemma {:induction false} SelectedPicks(listed: seq<Frames.Frame>, describe: Frames.Frame -> Captured,
      filter: Option<Captured -> bool>, linkLayers: map<Token, u32>, from: nat, end: nat)
      returns (at: seq<nat>)
    requires from <= end <= |listed|
    ensures Picks(listed, describe, filter, linkLayers, from, end,
                  Selected(Describe(listed[from..end], describe), filter, linkLayers), at)
    decreases end
  {
    hide RawFrame, Carries, Picks, Selected, Describe;
    at := [];
    if from < end {
      var v := describe(listed[end - 1]);
      at := SelectedPicks(listed, describe, filter, linkLayers, from, end - 1);
      var before := Describe(listed[from..end - 1], describe);
      DescribeOne(listed, describe, from, end);
      SelectedOne(before, v, filter, linkLayers);
      RawFrameCarries(v, linkLayers);
      PicksOne(listed, describe, filter, linkLayers, from, end - 1, Selected(before, filter, linkLayers), at,
               RawFrame(v, linkLayers));
      assert Selected(before, filter, linkLayers) + [] == Selected(before, filter, linkLayers);
      if Passes(filter, v) {
        at := at + [end - 1];
      }
    } else {
      NothingPicked(listed, describe, filter, linkLayers, end);
    }
  }

  lemma DescribeOne(listed: seq<Frames.Frame>, describe: Frames.Frame -> Captured, from: nat, end: nat)
    requires from < end <= |listed|
    ensures Describe(listed[from..end], describe)
         == Describe(listed[from..end - 1], describe) + [describe(listed[end - 1])]
  {
  }

  lemma NothingPicked(listed: seq<Frames.Frame>, describe: Frames.Frame -> Captured,
                      filter: Option<Captured -> bool>, linkLayers: map<Token, u32>, end: nat)
    requires end <= |listed|
    ensures Picks(listed, describe, filter, linkLayers, end, end,
                  Selected(Describe(listed[end..end], describe), filter, linkLayers), [])
  {
    assert Describe(listed[end..end], describe) == [];
  }

  /** Whatever the other threads do to the store between two calls: batches are inserted and any
      watermark within the frame list is published. */
  method Others(store: S.FrameStore)
    requires S.Agreeing(store.State())
    modifies store
    ensures S.Agreeing(store.State()) && old(store.frames) <= store.frames
  {
    var steps: nat :| 0 <= steps;
    for i := 0 to steps
      invariant S.Agreeing(store.State()) && old(store.frames) <= store.frames
    {
      var batch: seq<Frames.Frame> := *;
      ghost var before := store.State();
      S.PublishingAgrees(before, 0, batch);
      store.InsertBatch(batch);
      var index: nat :| index <= |store.frames|;
      S.PublishingAgrees(store.State(), index, []);
      store.UpdateViews(index);
    }
  }

  const BLOCK_SIZE := 1024

  /** `ContextData`: `length` is how many views were published when the export started, and `listed`
      the frames they wrap. */
  class ExportSource {
    const describe: Frames.Frame -> Captured
    const filter: Option<Captured -> bool>
    const linkLayers: map<Token, u32>
    const length: nat
    ghost const listed: seq<Frames.Frame>
    var offset: nat
    var frames: seq<Frame>

    ghost predicate Valid()
      reads this
    {
      |listed| == length && offset <= length
    }

    /** The store still lists those frames and its views agree with its list, however many there are. */
    ghost predicate Supplied(store: S.FrameStore)
      reads this, store
    {
      listed <= store.frames && S.Agreeing(store.State())
    }

    /** What is still to be handed out. */
    ghost function Remaining(): seq<Frame>
      reads this
      requires Valid()
    {
      RemainingFrom(offset)
    }

    ghost function RemainingFrom(start: nat): seq<Frame>
      requires start <= |listed|
    {
      Selected(Describe(listed[start..], describe), filter, linkLayers)
    }

    /** How many views the next block asks for. */
    ghost function BlockSize(): nat
      reads this
      requires Valid()
    {
      if 1024 < length - offset then 1024 else length - offset
    }

    constructor (store: S.FrameStore, describe: Frames.Frame -> Captured, filter: Option<Captured -> bool>,
                 linkLayers: map<Token, u32>)
      requires S.Agreeing(store.State())
      ensures Valid() && Supplied(store) && length == |store.views| && offset == 0
      ensures this.describe == describe && this.filter == filter && this.linkLayers == linkLayers
      ensures Remaining() == Selected(Describe(store.frames[..|store.views|], describe), filter, linkLayers)
    {
      this.describe, this.filter, this.linkLayers := describe, filter, linkLayers;
      length, offset, frames := |store.views|, 0, [];
      listed := store.frames[..|store.views|];
      new;
      assert listed[0..] == listed;
    }

    /** One block of `size` views, as the other threads have left them. */
    method Block(store: S.FrameStore, size: nat) returns (ok: bool, ghost count: nat)
      requires Valid() && Supplied(store) && 0 < size <= BLOCK_SIZE && offset + size <= length
      modifies this, store
      ensures Valid() && Supplied(store)
      ensures ok <==> old(offset) + size <= count
      ensures ok ==> offset == old(offset) + size && old(Remaining()) == frames + Remaining() && |frames| <= size
      ensures !ok ==> unchanged(this)
    {
      hide Selected, Describe, S.Agreeing;
      Others(store);
      var views := store.Get(offset, size);
      count := |store.views|;
      if |views| < size {
        return false, count;
      }
      BlockViews(store.State(), listed, offset, size, views);
      frames := Sift(views, listed[offset..offset + size]);
      SplitBlock(listed, offset, size, describe, filter, linkLayers);
      offset := offset + size;
      ok := true;
    }

    /** `apiCallback` on the live store: the next frames that pass, none only when no more will.
        `counts` are the numbers of published views found from block to block.  The call goes wrong
        exactly when a block finds fewer views than it asks for; that does not happen while the store
        has at least `length` views. */
    method Callback(store: S.FrameStore) returns (batch: seq<Frame>, ok: bool, ghost counts: seq<nat>)
      requires Valid() && Supplied(store)
      modifies this, store
      ensures Valid() && Supplied(store)
      ensures !ok ==> counts != [] && counts[|counts| - 1] < offset + BlockSize()
      ensures ok && counts != [] ==> offset <= counts[|counts| - 1]
      ensures ok ==> old(Remaining()) == batch + Remaining()
      ensures ok ==> (batch == [] <==> old(Remaining()) == [])
      ensures ok ==> if batch == [] then offset == length else old(offset) < offset
      ensures |batch| <= 1024
      ensures ok ==> Picked(listed, describe, filter, linkLayers, old(offset), offset, batch)
    {
      hide Selected, Describe, S.Agreeing, Picked, RemainingFrom;
      var size := BLOCK_SIZE;
      frames, counts := [], [];
      while frames == []
        invariant Valid() && Supplied(store) && old(offset) <= offset && 0 <= size <= BLOCK_SIZE
        invariant size < BLOCK_SIZE ==> offset == length
        invariant old(Remaining()) == frames + Remaining() && |frames| <= BLOCK_SIZE
        invariant frames != [] ==> old(offset) < offset
        invariant counts != [] ==> offset <= counts[|counts| - 1]
        decreases frames == [], length - offset
      {
        if length <= offset + size {
          size := length - offset;
        }
        if size == 0 {
          NothingLeft();
          assert frames == [] && [] + Remaining() == Remaining();
          BatchPicks(old(offset), []);
          return [], true, counts;
        }
        ghost var count;
        ok, count := Block(store, size);
        counts := counts + [count];
        if !ok {
          return [], false, counts;
        }
      }
      batch, ok := frames, true;
      BatchPicks(old(offset), batch);
    }

    /** What was handed out from `from` on. */
    lemma BatchPicks(from: nat, batch: seq<Frame>)
      requires Valid() && from <= offset
      requires RemainingFrom(from) == batch + Remaining()
      ensures Picked(listed, describe, filter, linkLayers, from, offset, batch)
    {
      hide Selected, Describe, Picks;
      SplitBlock(listed, from, offset - from, describe, filter, linkLayers);
      var front := Selected(Describe(listed[from..offset], describe), filter, linkLayers);
      assert front + Remaining() == batch + Remaining();
      assert |front| == |batch|;
      assert front == (front + Remaining())[..|front|] && batch == (batch + Remaining())[..|batch|];
      var at := SelectedPicks(listed, describe, filter, linkLayers, from, offset);
    }

    lemma NothingLeft()
      requires Valid() && offset == length
      ensures Remaining() == []
    {
    }

    /** The filter's verdicts and the raw frames of one block. */
    method Sift(views: seq<Frames.View>, ghost block: seq<Frames.Frame>) returns (sifted: seq<Frame>)
      requires |views| == |block| && forall i :: 0 <= i < |views| ==> views[i].frame == block[i]
      ensures sifted == Selected(Describe(block, describe), filter, linkLayers) && |sifted| <= |views|
    {
      hide RawFrame;
      ghost var all := Describe(block, describe);
      var i := 0;
      sifted := [];
      while i < |views|
        invariant i <= |views| && sifted == Selected(all[..i], filter, linkLayers) && |sifted| <= i
      {
        var view := describe(views[i].frame);
        assert all[i] == view;
        SelectedOne(all[..i], view, filter, linkLayers);
        assert all[..i + 1] == all[..i] + [view];
        if Passes(filter, view) {
          sifted := sifted + [RawFrame(view, linkLayers)];
        }
        i := i + 1;
      }
      assert all[..|views|] == all;
    }
  }

  /** The views of a block wrap the frames listed at its positions. */
  lemma BlockViews(store: S.Store, listed: seq<Frames.Frame>, offset: nat, size: nat, views: seq<Frames.View>)
    requires listed <= store.frames && S.Agreeing(store)
    requires offset + size <= |listed| && offset + size <= |store.views| && views == store.views[offset..offset + size]
    ensures |views| == size && forall i :: 0 <= i < size ==> views[i].frame == listed[offset..offset + size][i]
  {
  }

  lemma SplitBlock(listed: seq<Frames.Frame>, offset: nat, size: nat, describe: Frames.Frame -> Captured,
                   filter: Option<Captured -> bool>, linkLayers: map<Token, u32>)
    requires offset + size <= |listed|
    ensures Selected(Describe(listed[offset..], describe), filter, linkLayers)
         == Selected(Describe(listed[offset..offset + size], describe), filter, linkLayers)
            + Selected(Describe(listed[offset + size..], describe), filter, linkLayers)
  {
    var block, rest := Describe(listed[offset..offset + size], describe), Describe(listed[offset + size..], describe);
    assert Describe(listed[offset..], describe) == block + rest;
    SelectedConcat(block, rest, filter, linkLayers);
  }

  /** A whole export: the batches, none of them empty, and the file written from them.  It succeeds
      whenever the store has at least `length` views at each block, and then holds what was published
      at the start. */
  method Export(source: ExportSource, store: S.FrameStore, snaplen: u32)
      returns (batches: seq<seq<Frame>>, file: seq<byte>, ok: bool, ghost counts: seq<nat>)
    requires source.Valid() && source.Supplied(store)
    modifies source, store
    ensures (forall c :: c in counts ==> source.length <= c) ==> ok
    ensures forall i :: 0 <= i < |batches| ==> 1 <= |batches[i]| <= 1024
    ensures file == File(Taken(batches), Format(true, true), snaplen)
    ensures ok ==> Taken(batches) == old(source.Remaining())
    ensures ok ==> source.Valid() && source.offset == source.length
    ensures ok ==> Picked(source.listed, source.describe, source.filter, source.linkLayers, old(source.offset),
                          source.length, Taken(batches))
  {
    hide ExportSource.RemainingFrom, Picked, File, Selected, Describe, S.Agreeing;
    batches, counts := [], [];
    var batch;
    ghost var more;
    batch, ok, more := source.Callback(store);
    counts := more;
    assert !ok ==> more[|more| - 1] in counts;
    while ok && batch != []
      invariant source.Valid() && source.Supplied(store) && |batch| <= BLOCK_SIZE
      invariant forall i :: 0 <= i < |batches| ==> 1 <= |batches[i]| <= BLOCK_SIZE
      invariant ok ==> old(source.Remaining()) == Taken(batches) + batch + source.Remaining()
      invariant ok && batch == [] ==> source.Remaining() == [] && source.offset == source.length
      invariant !ok ==> exists c :: c in counts && c < source.length
      decreases ok, batch != [], source.length - source.offset
    {
      TakenOne(batches, batch);
      batches := batches + [batch];
      batch, ok, more := source.Callback(store);
      counts := counts + more;
      assert !ok ==> more[|more| - 1] in counts;
    }
    if ok {
      assert old(source.Remaining()) == Taken(batches);
      assert Taken(batches) + source.Remaining() == Taken(batches);
      source.BatchPicks(old(source.offset), Taken(batches));
    }
    file := Write(batches, snaplen);
  }

  lemma {:induction false} TakenOne(batches: seq<seq<Frame>>, batch: seq<Frame>)
    requires forall i :: 0 <= i < |batches| ==> batches[i] != []
    requires batch != []
    ensures Taken(batches + [batch]) == Taken(batches) + batch
  {
    if batches == [] {
      assert (batches + [batch])[1..] == [];
    } else {
      assert (batches + [batch])[1..] == batches[1..] + [batch];
      TakenOne(batches[1..], batch);
    }
  }

  // ---- the whole way

  predicate Storable(v: Captured) {
    0 <= v.nano < 0x1_0000_0000 * BILLION && v.length < 0x1_0000_0000 && |Payload(v)| < 0x1_0000_0000
  }

  /** A view's raw frame fits the file exactly when its time and lengths do, and its time is then
      kept to the nanosecond. */
  lemma RawFrameFits(v: Captured, linkLayers: map<Token, u32>)
    ensures var f := RawFrame(v, linkLayers);
            && (PcapRoundTrip.Fits(f, Format(true, true)) <==> Storable(v))
            && f.sec * BILLION + f.nsec == v.nano
            && (0 <= v.nano ==> 0 <= f.nsec < BILLION)
  {
  }

  /** A frame is selected because of some view that passes. */
  lemma {:induction false} SelectedFrom(views: seq<Captured>, filter: Option<Captured -> bool>,
      linkLayers: map<Token, u32>, f: Frame)
    ensures f in Selected(views, filter, linkLayers)
        <==> exists v :: v in views && Passes(filter, v) && RawFrame(v, linkLayers) == f
  {
    hide RawFrame;
    if views != [] {
      SelectedFrom(views[1..], filter, linkLayers, f);
      assert forall v :: v in views <==> v == views[0] || v in views[1..];
    }
  }

  /** Importing an exported file gives the selected frames exactly when there are some, each has a
      time and lengths that fit, and all have one link type. */
  lemma ExportedImports(views: seq<Captured>, filter: Option<Captured -> bool>, linkLayers: map<Token, u32>,
      snaplen: u32)
    ensures var frames := Selected(views, filter, linkLayers);
            Import(File(frames, Format(true, true), snaplen)) == Ok(frames)
            <==> && frames != []
                 && forall v :: v in views && Passes(filter, v) ==>
                     Storable(v) && RawFrame(v, linkLayers).link == frames[0].link
  {
    hide RawFrame, Selected, File, Storable, PcapRoundTrip.Fits;
    var format, frames := Format(true, true), Selected(views, filter, linkLayers);
    PcapRoundTrip.ExportImport(frames, snaplen);
    if frames != [] {
      forall v | v in views && Passes(filter, v)
        ensures RawFrame(v, linkLayers) in frames
        ensures PcapRoundTrip.Fits(RawFrame(v, linkLayers), format) <==> Storable(v)
      {
        SelectedFrom(views, filter, linkLayers, RawFrame(v, linkLayers));
        RawFrameFits(v, linkLayers);
      }
      forall f | f in frames ensures exists v :: v in views && Passes(filter, v) && RawFrame(v, linkLayers) == f {
        SelectedFrom(views, filter, linkLayers, f);
      }
    }
  }
}
