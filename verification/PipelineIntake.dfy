/** Conservation of frames from numbering to the store's list. */
module PipelineIntake {
  import opened Common
  import opened Frames
  import opened Pipeline
  import S = FrameStores

  ghost function Sum(batches: seq<seq<Frame>>): multiset<Frame> {
    if batches == [] then multiset{}
    else Sum(batches[..|batches| - 1]) + multiset(batches[|batches| - 1])
  }

  lemma {:induction false} SumUpdate(batches: seq<seq<Frame>>, i: nat, batch: seq<Frame>)
    requires i < |batches|
    ensures forall f :: Sum(batches[i := batch])[f] + multiset(batches[i])[f] == Sum(batches)[f] + multiset(batch)[f]
  {
    var last := |batches| - 1;
    var after := batches[i := batch];
    if i == last {
      assert after[..last] == batches[..last];
    } else {
      SumUpdate(batches[..last], i, batch);
      assert after[..last] == batches[..last][i := batch];
    }
  }

  lemma {:induction false} SumEmpty(batches: seq<seq<Frame>>)
    requires forall i :: 0 <= i < |batches| ==> batches[i] == []
    ensures Sum(batches) == multiset{}
  {
    if batches != [] {
      SumEmpty(batches[..|batches| - 1]);
    }
  }

  /** Every frame between numbering and the store. */
  ghost function InFlight(k: Intake): multiset<Frame> {
    Sum(k.held) + multiset(k.queue) + Sum(k.working)
  }

  ghost predicate Conserved(k: Intake, store: S.Store) {
    && Numbered(k.issued)
    && S.Ordered(store)
    && S.Agreeing(store)
    && forall f :: InFlight(k)[f] + S.Held(store, f) == multiset(k.issued)[f]
  }

  /** Nothing is under way. */
  predicate Drained(k: Intake) {
    && k.queue == []
    && (forall p :: 0 <= p < |k.held| ==> k.held[p] == [])
    && (forall t :: 0 <= t < |k.working| ==> k.working[t] == [])
  }

  lemma NumberConserves(k: Intake, store: S.Store, p: nat, leaves: seq<nat>)
    requires Conserved(k, store) && p < |k.held| && leaves != []
    ensures Conserved(NumberFrame(k, p, leaves), store)
  {
    var f, after := Frame(|k.issued| + 1, leaves), NumberFrame(k, p, leaves);
    forall g ensures InFlight(after)[g] + S.Held(store, g) == multiset(after.issued)[g] {
      NumberCounts(k, p, f, g);
    }
  }

  lemma NumberCounts(k: Intake, p: nat, f: Frame, g: Frame)
    requires p < |k.held|
    ensures multiset(k.issued + [f])[g] == multiset(k.issued)[g] + Once(g == f)
    ensures Sum(k.held[p := k.held[p] + [f]])[g] == Sum(k.held)[g] + Once(g == f)
  {
    SumUpdate(k.held, p, k.held[p] + [f]);
    assert multiset(k.held[p] + [f])[g] == multiset(k.held[p])[g] + Once(g == f);
  }

  lemma EnqueueConserves(k: Intake, p: nat)
    requires p < |k.held|
    ensures forall f :: InFlight(k.(queue := k.queue + k.held[p], held := k.held[p := []]))[f] == InFlight(k)[f]
  {
    SumUpdate(k.held, p, []);
    assert multiset(k.queue + k.held[p]) == multiset(k.queue) + multiset(k.held[p]);
  }

  lemma TakeConserves(k: Intake, t: nat, n: nat)
    requires t < |k.working| && k.working[t] == [] && n <= |k.queue|
    ensures forall f ::
              InFlight(k.(queue := k.queue[n..], working := k.working[t := k.queue[..n]]))[f] == InFlight(k)[f]
  {
    SumUpdate(k.working, t, k.queue[..n]);
    assert k.queue == k.queue[..n] + k.queue[n..];
    assert multiset(k.queue) == multiset(k.queue[..n]) + multiset(k.queue[n..]);
  }

  lemma DeliverConserves(k: Intake, store: S.Store, t: nat)
    requires Conserved(k, store) && t < |k.working|
    ensures Conserved(k.(working := k.working[t := []]), S.Insert(store, k.working[t]))
    ensures store.frames <= S.Insert(store, k.working[t]).frames
  {
    var batch := k.working[t];
    SumUpdate(k.working, t, []);
    var after := k.(working := k.working[t := []]);
    assert forall f :: InFlight(after)[f] + multiset(batch)[f] == InFlight(k)[f];
    S.InsertConserves(store, batch, k.issued);
    S.PublishingAgrees(store, 0, batch);
  }

  lemma UpdateConserved(k: Intake, store: S.Store, index: nat)
    requires Conserved(k, store) && index <= |store.frames|
    ensures Conserved(k, S.Update(store, index)) && |S.Update(store, index).views| == index
  {
    S.PublishingAgrees(store, index, []);
    forall f ensures S.Held(S.Update(store, index), f) == S.Held(store, f) {
    }
  }

  /** The store's list is a prefix of what was issued: the longest one of which nothing is missing.
      The next frame, if issued, is still in flight. */
  lemma ListIsLongestPrefix(k: Intake, store: S.Store)
    requires Conserved(k, store)
    ensures store.frames <= k.issued
    ensures var m := |store.frames|; m < |k.issued| ==> k.issued[m] in InFlight(k)
    ensures Drained(k) ==> store.frames == k.issued
  {
    var m := |store.frames|;
    S.ListedAreIssued(store, k.issued);
    if m < |k.issued| {
      var f := k.issued[m];
      assert f in multiset(k.issued);
      assert f !in multiset(store.frames) by {
        assert forall i :: 0 <= i < m ==> store.frames[i].index != f.index;
      }
      assert !S.Waits(store.sequence, store.maxSeq, f);
      if Drained(k) {
        SumEmpty(k.held);
        SumEmpty(k.working);
        assert false;
      }
    }
  }
}
