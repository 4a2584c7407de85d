/** The display filter pool: every filter thread tests every published frame, and the pool merges
    the overlapping reports back into one ascending list of matching frame indices. */
module FilterPools {
  import opened Frames
  import opened ReorderBuffer

  datatype Pool = Pool(sequence: map<nat, bool>, frames: seq<nat>, maxSeq: nat)

  const EMPTY := Pool(map[], [], 0)

  /** `std::map::insert` of consecutive results: an entry already present wins. */
  function Offer(buffer: map<nat, bool>, begin: nat, results: seq<bool>): map<nat, bool> {
    if results == [] then buffer
    else
      var last := |results| - 1;
      var before := Offer(buffer, begin, results[..last]);
      if begin + last in before then before else before[begin + last := results[last]]
  }

  /** The keys of the run `low + 1 ..` whose entry is true. */
  function Hits(low: nat, run: seq<bool>): seq<nat> {
    if run == [] then []
    else
      var last := |run| - 1;
      Hits(low, run[..last]) + if run[last] then [low + |run|] else []
  }

  lemma HitsStep(low: nat, whole: seq<bool>, n: nat)
    requires n < |whole|
    ensures Hits(low, whole[..n + 1]) == Hits(low, whole[..n]) + if whole[n] then [low + n + 1] else []
  {
    assert whole[..n + 1][..n] == whole[..n];
  }

  lemma NoHits(low: nat, run: seq<bool>)
    ensures run == [] ==> Hits(low, run) == []
  {
  }

  function Collect(pool: Pool, begin: nat, results: seq<bool>): Pool {
    var buffer := Offer(pool.sequence, begin, results);
    var end := RunEnd(buffer, pool.maxSeq);
    Pool(Trim(buffer, pool.maxSeq, end), pool.frames + Hits(pool.maxSeq, Run(buffer, pool.maxSeq, end)), end)
  }

  /** What a sequential filter computes: the ascending indices of the matching frames. */
  function Matching(frames: seq<Frame>, match_: Frame -> bool): seq<nat> {
    if frames == [] then []
    else
      var last := |frames| - 1;
      Matching(frames[..last], match_) + if match_(frames[last]) then [frames[last].index] else []
  }

  /** The sequential result holds an index exactly when it is that of a matching frame. */
  lemma {:induction false} MatchingMember(frames: seq<Frame>, match_: Frame -> bool, k: nat)
    requires Numbered(frames)
    ensures k in Matching(frames, match_) <==> 1 <= k <= |frames| && match_(frames[k - 1])
  {
    if frames != [] {
      var last := |frames| - 1;
      var front := Matching(frames[..last], match_);
      MatchingMember(frames[..last], match_, k);
      if match_(frames[last]) {
        assert frames[last].index == |frames|;
        assert Matching(frames, match_) == front + [|frames|];
        assert k in Matching(frames, match_) <==> k in front || k == |frames|;
      } else {
        assert Matching(frames, match_) == front;
      }
    }
  }

  ghost predicate Increasing(list: seq<nat>) {
    forall i, j :: 0 <= i < j < |list| ==> list[i] < list[j]
  }

  /** The sequential result is strictly ascending, so it lists each index once. */
  lemma {:induction false} MatchingAscends(frames: seq<Frame>, match_: Frame -> bool)
    requires Numbered(frames)
    ensures Increasing(Matching(frames, match_))
  {
    if frames != [] {
      var prefix := frames[..|frames| - 1];
      MatchingAscends(prefix, match_);
      var front := Matching(prefix, match_);
      forall i | 0 <= i < |front| ensures front[i] < |frames| {
        assert front[i] in front;
        MatchingMember(prefix, match_, front[i]);
      }
      assert frames[|prefix|].index == |frames|;
      assert Increasing(front + [|frames|]);
    }
  }

  function Tested(frames: seq<Frame>, match_: Frame -> bool): (results: seq<bool>)
    ensures |results| == |frames|
    ensures forall i :: 0 <= i < |results| ==> results[i] == match_(frames[i])
  {
    seq(|frames|, i requires 0 <= i < |frames| => match_(frames[i]))
  }

  /** The pool has merged exactly the frames up to `maxSeq`; later entries are right and waiting. */
  ghost predicate Sound(pool: Pool, frames: seq<Frame>, match_: Frame -> bool) {
    && pool.maxSeq <= |frames|
    && pool.frames == Matching(frames[..pool.maxSeq], match_)
    && pool.maxSeq + 1 !in pool.sequence
    && Right(pool.sequence, frames, match_)
  }

  /** What `after` knows beyond `before` is the `count` indices from `begin`, and all of those. */
  ghost predicate Covers(after: Pool, before: Pool, begin: nat, count: nat) {
    && before.maxSeq <= after.maxSeq
    && (forall k :: begin <= k < begin + count ==> k <= after.maxSeq || k in after.sequence)
    && (forall k :: before.maxSeq < k <= after.maxSeq ==> k in before.sequence || begin <= k < begin + count)
    && (forall k :: k in after.sequence ==> k in before.sequence || begin <= k < begin + count)
  }

  lemma {:induction false} OfferMeans(buffer: map<nat, bool>, begin: nat, results: seq<bool>)
    ensures var after := Offer(buffer, begin, results);
            && (forall k :: k in after <==> k in buffer || begin <= k < begin + |results|)
            && (forall k :: k in after ==> after[k] == if k in buffer then buffer[k] else results[k - begin])
  {
    if results != [] {
      OfferMeans(buffer, begin, results[..|results| - 1]);
    }
  }

  /** Hits over a run of correct entries continue the sequential result. */
  lemma {:induction false} HitsContinue(frames: seq<Frame>, match_: Frame -> bool, low: nat, end: nat, run: seq<bool>)
    requires Numbered(frames) && low <= end <= |frames| && |run| == end - low
    requires forall i :: 0 <= i < |run| ==> run[i] == match_(frames[low + i])
    ensures Matching(frames[..low], match_) + Hits(low, run) == Matching(frames[..end], match_)
    decreases end
  {
    if low < end {
      HitsContinue(frames, match_, low, end - 1, run[..|run| - 1]);
      assert frames[..end][..end - 1] == frames[..end - 1];
    }
  }

  /** Every entry of the map is the verdict on its frame. */
  ghost predicate Right(buffer: map<nat, bool>, frames: seq<Frame>, match_: Frame -> bool) {
    forall k :: k in buffer ==> 1 <= k <= |frames| && buffer[k] == match_(frames[k - 1])
  }

  /** Merging the run at the front of a map of right entries. */
  lemma DrainSound(pool: Pool, buffer: map<nat, bool>, frames: seq<Frame>, match_: Frame -> bool)
    requires Numbered(frames) && Right(buffer, frames, match_)
    requires pool.maxSeq <= |frames| && pool.frames == Matching(frames[..pool.maxSeq], match_)
    ensures var end := RunEnd(buffer, pool.maxSeq);
            Sound(Pool(Trim(buffer, pool.maxSeq, end),
                       pool.frames + Hits(pool.maxSeq, Run(buffer, pool.maxSeq, end)), end), frames, match_)
  {
    hide Hits, Matching, Trim, Run, RunEnd, Numbered;
    var end := RunEnd(buffer, pool.maxSeq);
    RunIsRight(buffer, pool.maxSeq, end, frames, match_);
    HitsContinue(frames, match_, pool.maxSeq, end, Run(buffer, pool.maxSeq, end));
    TrimKeeps(buffer, pool.maxSeq);
  }

  lemma RunIsRight(buffer: map<nat, bool>, low: nat, end: nat, frames: seq<Frame>, match_: Frame -> bool)
    requires Right(buffer, frames, match_) && low <= |frames|
    requires low <= end && forall k :: low < k <= end ==> k in buffer
    ensures end <= |frames|
    ensures forall i :: 0 <= i < end - low ==> Run(buffer, low, end)[i] == match_(frames[low + i])
  {
    assert end == low || end in buffer;
  }

  /** Merging a correct report, new, late or overlapping, keeps the pool sound; afterwards every
      reported index is merged or waiting, and nothing else was added. */
  lemma CollectSound(pool: Pool, frames: seq<Frame>, match_: Frame -> bool, begin: nat, results: seq<bool>)
    requires Numbered(frames) && Sound(pool, frames, match_)
    requires 1 <= begin && begin - 1 + |results| <= |frames|
    requires results == Tested(frames[begin - 1..begin - 1 + |results|], match_)
    ensures Sound(Collect(pool, begin, results), frames, match_)
    ensures Covers(Collect(pool, begin, results), pool, begin, |results|)
  {
    hide Sound, Covers, Right, Offer;
    OfferRight(pool, frames, match_, begin, results);
    DrainSound(pool, Offer(pool.sequence, begin, results), frames, match_);
    CollectCovers(pool, begin, results);
  }

  lemma OfferRight(pool: Pool, frames: seq<Frame>, match_: Frame -> bool, begin: nat, results: seq<bool>)
    requires Sound(pool, frames, match_)
    requires 1 <= begin && begin - 1 + |results| <= |frames|
    requires results == Tested(frames[begin - 1..begin - 1 + |results|], match_)
    ensures Right(Offer(pool.sequence, begin, results), frames, match_)
    ensures pool.maxSeq <= |frames| && pool.frames == Matching(frames[..pool.maxSeq], match_)
  {
    hide Offer, Matching;
    OfferMeans(pool.sequence, begin, results);
    var tested := frames[begin - 1..begin - 1 + |results|];
    forall i | 0 <= i < |results| ensures results[i] == match_(frames[begin - 1 + i]) {
      assert tested[i] == frames[begin - 1 + i];
    }
  }

  lemma CollectCovers(pool: Pool, begin: nat, results: seq<bool>)
    ensures Covers(Collect(pool, begin, results), pool, begin, |results|)
  {
    OfferMeans(pool.sequence, begin, results);
    TrimKeeps(Offer(pool.sequence, begin, results), pool.maxSeq);
  }

  lemma HitsNext(buffer: map<nat, bool>, low: nat, max: nat)
    requires low <= max && forall k :: low < k <= max + 1 ==> k in buffer
    ensures Hits(low, Run(buffer, low, max + 1))
         == Hits(low, Run(buffer, low, max)) + if buffer[max + 1] then [max + 1] else []
  {
    hide Hits;
    var run := Run(buffer, low, max + 1);
    HitsStep(low, run, max - low);
    assert run[..max - low] == Run(buffer, low, max) && run[..max + 1 - low] == run;
  }

  lemma RunGoesOn(buffer: map<nat, bool>, low: nat, max: nat)
    requires low <= max <= RunEnd(buffer, low)
    ensures max + 1 in buffer <==> max < RunEnd(buffer, low)
    ensures forall k :: low < k <= max ==> k in buffer
  {
  }

  /** Walks the gap-free run of verdicts above `low`, listing the matching ones. */
  method Drain(buffer: map<nat, bool>, low: nat) returns (max: nat, hits: seq<nat>)
    ensures max == RunEnd(buffer, low)
    ensures hits == Hits(low, Run(buffer, low, max))
  {
    max, hits := low, [];
    NoHits(low, Run(buffer, low, low));
    hide Hits, Run, RunEnd;
    RunGoesOn(buffer, low, low);
    while max + 1 in buffer
      invariant low <= max <= RunEnd(buffer, low) && forall k :: low < k <= max ==> k in buffer
      invariant hits == Hits(low, Run(buffer, low, max))
      decreases RunEnd(buffer, low) - max
    {
      HitsNext(buffer, low, max);
      RunGoesOn(buffer, low, max);
      if buffer[max + 1] {
        hits := hits + [max + 1];
      }
      max := max + 1;
    }
    RunGoesOn(buffer, low, max);
  }

  class FilterThreadPool {
    var sequence: map<nat, bool>
    var frames: seq<nat>
    var maxSeq: nat

    ghost function State(): Pool
      reads this
    {
      Pool(sequence, frames, maxSeq)
    }

    constructor ()
      ensures State() == EMPTY
    {
      sequence, frames, maxSeq := map[], [], 0;
    }

    method ThreadCallback(begin: nat, results: seq<bool>)
      modifies this
      ensures State() == Collect(old(State()), begin, results)
    {
      var key := begin;
      for i := 0 to |results|
        invariant key == begin + i
        invariant sequence == Offer(old(sequence), begin, results[..i])
        invariant frames == old(frames) && maxSeq == old(maxSeq)
      {
        assert results[..i + 1][..i] == results[..i];
        if key !in sequence {
          sequence := sequence[key := results[i]];
        }
        key := key + 1;
      }
      assert results[..|results|] == results;
      var buffer := sequence;
      var max, hits := Drain(buffer, maxSeq);
      frames := frames + hits;
      if maxSeq < max {
        maxSeq := max;
        sequence := map k | k in buffer && max <= k :: buffer[k];
      }
    }

    method Get(offset: nat, length: nat) returns (list: seq<nat>)
      ensures list == if |frames| <= offset then []
                      else frames[offset..if offset + length < |frames| then offset + length else |frames|]
    {
      list := [];
      var i := offset;
      while i < offset + length && i < |frames|
        invariant offset <= i
        invariant offset <= |frames| ==> i <= |frames| && i <= offset + length && list == frames[offset..i]
        invariant |frames| <= offset ==> list == []
      {
        list := list + [frames[i]];
        i := i + 1;
      }
    }
  }
}
