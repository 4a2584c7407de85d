/** The values that travel through the frame pipeline. */
module Frames {

  /** A captured frame: its sequence number and, for each leaf layer left by dissection in the
      order the dispatcher walks them, the worker number of that leaf. */
  datatype Frame = Frame(index: nat, leaves: seq<nat>)

  /** The published wrapper of a frame. */
  datatype View = View(frame: Frame)

  /** Numbers are handed out from 1 without gaps, and every frame has a leaf (its root, at least). */
  ghost predicate Numbered(frames: seq<Frame>) {
    forall k :: 0 <= k < |frames| ==> frames[k].index == k + 1 && frames[k].leaves != []
  }

  /** A numbered list holds each of its frames exactly once. */
  lemma {:induction false} NumberedOnce(frames: seq<Frame>, f: Frame)
    requires Numbered(frames)
    ensures multiset(frames)[f] <= 1
    ensures f in multiset(frames) <==> 1 <= f.index <= |frames| && frames[f.index - 1] == f
  {
    if frames != [] {
      var last := |frames| - 1;
      NumberedOnce(frames[..last], f);
      assert frames == frames[..last] + [frames[last]];
    }
  }

  function Wrap(frames: seq<Frame>): (views: seq<View>)
    ensures |views| == |frames|
    ensures forall k :: 0 <= k < |views| ==> views[k] == View(frames[k])
  {
    seq(|frames|, k requires 0 <= k < |frames| => View(frames[k]))
  }
}
