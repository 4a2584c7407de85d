/** The per-thread progress table of the stream dissector pool and the watermark computed from it. */
module ThreadStats {
  import opened Common

  /** The highest frame index marked for a thread, and the highest it has reported dissected. */
  datatype Stat = Stat(pushed: nat, dissected: nat) {
    predicate Lagging() {
      pushed > dissected
    }
  }

  function Note(stats: seq<Stat>, thread: nat, pushed: nat, dissected: nat): (after: seq<Stat>)
    requires thread < |stats|
    ensures |after| == |stats|
  {
    stats[thread := Stat(Max(stats[thread].pushed, pushed), Max(stats[thread].dissected, dissected))]
  }

  function MaxPushed(stats: seq<Stat>): nat {
    if stats == [] then 0 else Max(MaxPushed(stats[..|stats| - 1]), stats[|stats| - 1].pushed)
  }

  /** `top` lowered to what the lagging threads allow. */
  function Capped(stats: seq<Stat>, top: nat): nat {
    if stats == [] then top
    else
      var low, last := Capped(stats[..|stats| - 1], top), stats[|stats| - 1];
      if last.Lagging() && low > last.dissected then last.dissected else low
  }

  lemma {:induction false} MaxPushedLeast(stats: seq<Stat>, w: nat)
    ensures MaxPushed(stats) <= w <==> forall i :: 0 <= i < |stats| ==> stats[i].pushed <= w
  {
    if stats != [] {
      MaxPushedLeast(stats[..|stats| - 1], w);
      assert stats == stats[..|stats| - 1] + [stats[|stats| - 1]];
    }
  }

  lemma {:induction false} CappedGreatest(stats: seq<Stat>, top: nat, w: nat)
    ensures w <= Capped(stats, top) <==>
            w <= top && forall i :: 0 <= i < |stats| && stats[i].Lagging() ==> w <= stats[i].dissected
  {
    if stats != [] {
      CappedGreatest(stats[..|stats| - 1], top, w);
      assert stats == stats[..|stats| - 1] + [stats[|stats| - 1]];
    }
  }

  lemma CappedStep(stats: seq<Stat>, i: nat, top: nat)
    requires i < |stats|
    ensures var low := Capped(stats[..i], top);
            Capped(stats[..i + 1], top)
            == if stats[i].Lagging() && low > stats[i].dissected then stats[i].dissected else low
  {
    assert stats[..i + 1][..i] == stats[..i];
  }

  function Watermark(stats: seq<Stat>): nat {
    Capped(stats, MaxPushed(stats))
  }

  lemma WatermarkBound(stats: seq<Stat>, w: nat)
    ensures w <= Watermark(stats) <==>
            && w <= MaxPushed(stats)
            && forall i :: 0 <= i < |stats| && stats[i].Lagging() ==> w <= stats[i].dissected
  {
    CappedGreatest(stats, MaxPushed(stats), w);
  }

  /** The watermark is the greatest index that was pushed to someone and that no lagging thread
      still has ahead of it. */
  lemma WatermarkIsGreatest(stats: seq<Stat>, w: nat)
    ensures w <= Watermark(stats) <==>
            && (w == 0 || exists i :: 0 <= i < |stats| && w <= stats[i].pushed)
            && forall i :: 0 <= i < |stats| && stats[i].pushed > stats[i].dissected ==> w <= stats[i].dissected
  {
    hide Watermark;
    WatermarkBound(stats, w);
    if 0 < w {
      MaxPushedLeast(stats, w - 1);
    }
  }

  /** Reporting progress never lowers the watermark. */
  lemma ReportNeverLowers(stats: seq<Stat>, thread: nat, dissected: nat)
    requires thread < |stats|
    ensures Watermark(stats) <= Watermark(Note(stats, thread, 0, dissected))
  {
    var after := Note(stats, thread, 0, dissected);
    MaxPushedLeast(after, MaxPushed(after));
    MaxPushedLeast(stats, MaxPushed(after));
    assert forall i :: 0 <= i < |stats| ==> after[i].pushed == stats[i].pushed;
    WatermarkBound(stats, Watermark(stats));
    WatermarkBound(after, Watermark(stats));
  }

  /** Marking a frame for a thread, in frame order, lowers the watermark exactly when the thread
      was idle with an older report than the watermark; the watermark then falls to that report. */
  lemma MarkLowersIff(stats: seq<Stat>, thread: nat, pushed: nat)
    requires thread < |stats| && MaxPushed(stats) <= pushed
    ensures var before, after := Watermark(stats), Watermark(Note(stats, thread, pushed, 0));
            var own := stats[thread];
            && (after < before <==> own.pushed <= own.dissected < before)
            && (after < before ==> after == own.dissected)
  {
    var marked := Note(stats, thread, pushed, 0);
    var own, before, after := stats[thread], Watermark(stats), Watermark(marked);
    MaxPushedLeast(stats, pushed);
    MaxPushedLeast(marked, MaxPushed(marked));
    WatermarkBound(stats, before);
    WatermarkBound(marked, after);
    if !own.Lagging() && own.dissected < before {
      assert marked[thread].Lagging();
      WatermarkBound(marked, own.dissected);
    } else {
      WatermarkBound(marked, before);
    }
  }

  /** The two passes over the table: the highest mark, then lowered for every lagging thread. */
  method Lowest(stats: seq<Stat>) returns (min: nat)
    ensures min == Watermark(stats)
  {
    min := 0;
    for i := 0 to |stats|
      invariant min == MaxPushed(stats[..i])
    {
      assert stats[..i + 1][..i] == stats[..i];
      if min < stats[i].pushed {
        min := stats[i].pushed;
      }
    }
    assert stats[..|stats|] == stats;
    ghost var top := min;
    for i := 0 to |stats|
      invariant min == Capped(stats[..i], top)
    {
      CappedStep(stats, i, top);
      if stats[i].pushed > stats[i].dissected {
        if min > stats[i].dissected {
          min := stats[i].dissected;
        }
      }
    }
  }

  class StatsTable {
    var threadStats: seq<Stat>

    constructor (concurrency: nat)
      ensures threadStats == seq(concurrency, _ => Stat(0, 0))
    {
      threadStats := seq(concurrency, _ => Stat(0, 0));
    }

    method UpdateIndex(thread: nat, pushed: nat, dissected: nat) returns (min: nat)
      requires thread < |threadStats|
      modifies this
      ensures threadStats == Note(old(threadStats), thread, pushed, dissected)
      ensures forall i :: 0 <= i < |threadStats| && i != thread ==> threadStats[i] == old(threadStats)[i]
      ensures var own, after := old(threadStats[thread]), threadStats[thread];
              && after.pushed == (if own.pushed < pushed then pushed else own.pushed)
              && after.dissected == (if own.dissected < dissected then dissected else own.dissected)
      ensures min == Watermark(threadStats)
    {
      if threadStats[thread].pushed < pushed {
        threadStats := threadStats[thread := threadStats[thread].(pushed := pushed)];
      }
      if threadStats[thread].dissected < dissected {
        threadStats := threadStats[thread := threadStats[thread].(dissected := dissected)];
      }
      min := Lowest(threadStats);
    }
  }
}
