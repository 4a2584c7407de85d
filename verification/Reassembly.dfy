/** Putting out-of-order stream segments back in order. */
module Reassembly {
  import opened Common

  type Slices = map<nat, seq<byte>>

  datatype State = State(offset: nat, slices: Slices)

  function Inserted(st: State, start: nat, data: seq<byte>): State {
    if data == [] then st else st.(slices := st.slices[start := data])
  }

  /** The first entry of the ordered map is the one due next. */
  ghost predicate Due(st: State) {
    st.offset in st.slices && forall k :: k in st.slices ==> st.offset <= k
  }

  ghost function Advanced(st: State): State
    requires Due(st)
  {
    State(st.offset + |st.slices[st.offset]|, st.slices - {st.offset})
  }

  lemma AdvancedShrinks(st: State)
    requires Due(st)
    ensures |Advanced(st).slices| < |st.slices|
  {
    assert Advanced(st).slices.Keys == st.slices.Keys - {st.offset};
    assert |st.slices.Keys| == |st.slices|;
  }

  ghost function Drained(st: State): State
    decreases |st.slices|
  {
    if Due(st) then
      AdvancedShrinks(st);
      Drained(Advanced(st))
    else st
  }

  /** The bytes a fetch hands out. */
  ghost function Fetched(st: State): seq<byte>
    decreases |st.slices|
  {
    if Due(st) then
      AdvancedShrinks(st);
      st.slices[st.offset] + Fetched(Advanced(st))
    else []
  }

  ghost predicate Smallest(keys: set<nat>, m: nat) {
    m in keys && forall k :: k in keys ==> m <= k
  }

  lemma {:induction false} HasSmallest(keys: set<nat>) returns (m: nat)
    requires keys != {}
    ensures Smallest(keys, m)
    decreases |keys|
  {
    var first :| first in keys;
    var rest := keys - {first};
    m := first;
    if rest != {} {
      var least := HasSmallest(rest);
      m := if least < first then least else first;
    }
    forall k | k in keys ensures m <= k {
      assert k == first || k in rest;
    }
    assert m in keys;
  }

  lemma DueIff(st: State, pos: nat)
    requires pos in st.slices && forall k :: k in st.slices ==> pos <= k
    ensures pos == st.offset <==> Due(st)
  {
  }

  lemma AdvancedIs(st: State, next: State)
    requires Due(st)
    requires next == State(st.offset + |st.slices[st.offset]|, st.slices - {st.offset})
    ensures next == Advanced(st)
  {
  }

  lemma NothingYet(st: State)
    ensures Concat<byte>([]) + Fetched(st) == Fetched(st)
  {
  }

  lemma ConcatOne(chunks: seq<seq<byte>>, chunk: seq<byte>)
    ensures Concat(chunks + [chunk]) == Concat(chunks) + chunk
  {
    assert (chunks + [chunk])[..|chunks|] == chunks;
  }

  lemma FetchOne(st: State)
    requires Due(st)
    ensures Drained(st) == Drained(Advanced(st)) && Fetched(st) == st.slices[st.offset] + Fetched(Advanced(st))
  {
    AdvancedShrinks(st);
  }

  lemma FetchEnds(st: State)
    requires !Due(st)
    ensures Drained(st) == st && Fetched(st) == []
  {
  }

  lemma NothingDue(st: State)
    requires st.slices == map[]
    ensures !Due(st)
  {
  }

  /** A fetch moves the offset by the bytes it hands out, leaves the other segments as they were, and ends where
      the first segment stored, if any, is not the one at the offset. */
  lemma {:induction false} FetchMeans(st: State)
    ensures var after := Drained(st);
            && after.offset == st.offset + |Fetched(st)| && !Due(after)
            && forall k :: k in after.slices ==> k in st.slices && after.slices[k] == st.slices[k]
    decreases |st.slices|
  {
    if Due(st) {
      AdvancedShrinks(st);
      FetchMeans(Advanced(st));
    }
  }

  class Stream {
    var offset: nat
    var slices: Slices

    ghost function Now(): State
      reads this
    {
      State(offset, slices)
    }

    constructor ()
      ensures Now() == State(0, map[])
    {
      offset, slices := 0, map[];
    }

    method Put(start: nat, data: seq<byte>)
      modifies this
      ensures Now() == Inserted(old(Now()), start, data)
      ensures offset == old(offset) && slices == if data == [] then old(slices) else old(slices)[start := data]
    {
      if 0 < |data| {
        slices := slices[start := data];
      }
    }

    method Fetch() returns (chunks: seq<seq<byte>>)
      modifies this
      ensures Now() == Drained(old(Now()))
      ensures Concat(chunks) == Fetched(old(Now()))
      ensures offset == old(offset) + |Concat(chunks)| && !(offset in slices && forall k :: k in slices ==> offset <= k)
      ensures forall k :: k in slices ==> k in old(slices) && slices[k] == old(slices)[k]
    {
      FetchMeans(Now());
      chunks := [];
      hide Due, Advanced, Drained, Fetched, Concat;
      NothingYet(Now());
      while slices != map[]
        invariant Drained(Now()) == Drained(old(Now()))
        invariant Concat(chunks) + Fetched(Now()) == Fetched(old(Now()))
        decreases |slices|
      {
        ghost var st := Now();
        ghost var least := HasSmallest(slices.Keys);
        var pos: nat :| pos in slices && forall k :: k in slices ==> pos <= k;
        DueIff(st, pos);
        if pos != offset {
          break;
        }
        AdvancedShrinks(st);
        var value := slices[pos];
        offset := offset + |value|;
        ConcatOne(chunks, value);
        chunks := chunks + [value];
        slices := slices - {pos};
        AdvancedIs(st, Now());
        FetchOne(st);
      }
      if slices == map[] {
        NothingDue(Now());
      }
      FetchEnds(Now());
    }
  }

  // ---- runs

  datatype Event = Put(start: nat) | Fetch

  /** Segments by start position: they cover the original without overlapping. */
  ghost predicate Tiling(whole: seq<byte>, tiles: Slices) {
    && (whole != [] ==> 0 in tiles)
    && (forall s :: s in tiles ==> Tile(whole, tiles, s))
    && (forall s, t :: s in tiles && t in tiles ==> Apart(tiles, s, t))
  }

  ghost predicate Tile(whole: seq<byte>, tiles: Slices, s: nat)
    requires s in tiles
  {
    var end := s + |tiles[s]|;
    tiles[s] != [] && end <= |whole| && tiles[s] == whole[s..end] && (end == |whole| || end in tiles)
  }

  ghost predicate Apart(tiles: Slices, s: nat, t: nat)
    requires s in tiles
  {
    s < t ==> s + |tiles[s]| <= t
  }

  /** Stream state, the bytes handed out so far and the segments received so far. */
  datatype Run = Run(state: State, emitted: seq<byte>, received: set<nat>)

  ghost predicate Valid(tiles: Slices, r: Run, e: Event) {
    match e
    case Put(s) => s in tiles && s !in r.received
    case Fetch => true
  }

  ghost function Next(tiles: Slices, r: Run, e: Event): Run
    requires Valid(tiles, r, e)
  {
    match e
    case Put(s) => Run(Inserted(r.state, s, tiles[s]), r.emitted, r.received + {s})
    case Fetch => Run(Drained(r.state), r.emitted + Fetched(r.state), r.received)
  }

  const START := Run(State(0, map[]), [], {})

  /** `r` is where some run leads that puts each segment at most once. */
  ghost predicate Reaches(tiles: Slices, events: seq<Event>, r: Run)
    decreases |events|
  {
    if events == [] then r == START
    else
      var n := |events| - 1;
      exists q :: Reaches(tiles, events[..n], q) && Valid(tiles, q, events[n]) && r == Next(tiles, q, events[n])
  }

  ghost predicate Invariant(whole: seq<byte>, tiles: Slices, r: Run) {
    var p := r.state.offset;
    && p <= |whole| && r.emitted == whole[..p] && (p == |whole| || p in tiles)
    && (forall s :: s in r.received ==> s in tiles)
    && (forall s :: s in tiles && s < p ==> s in r.received)
    && Holds(tiles, r)
  }

  /** The map holds what was received and not handed out. */
  ghost predicate Holds(tiles: Slices, r: Run) {
    && (forall s :: s in r.state.slices <==> s in r.received && r.state.offset <= s)
    && (forall s :: s in r.state.slices ==> s in tiles && r.state.slices[s] == tiles[s])
  }

  lemma AdvanceKeeps(whole: seq<byte>, tiles: Slices, r: Run)
    requires Tiling(whole, tiles) && Invariant(whole, tiles, r) && Due(r.state)
    ensures Invariant(whole, tiles, Run(Advanced(r.state), r.emitted + r.state.slices[r.state.offset], r.received))
  {
    hide Tile, Apart, Holds, Due, Advanced;
    var p: nat := r.state.offset;
    DueTile(whole, tiles, r);
    AdvanceHolds(tiles, r);
    assert Advanced(r.state).offset == p + |tiles[p]|;
    assert whole[..p] + whole[p..p + |tiles[p]|] == whole[..p + |tiles[p]|];
    forall t | t in tiles && t < p + |tiles[p]| ensures t in r.received {
      assert Apart(tiles, p, t);
      ApartBelow(tiles, p, t);
    }
  }

  lemma ApartBelow(tiles: Slices, s: nat, t: nat)
    requires s in tiles && Apart(tiles, s, t) && t < s + |tiles[s]|
    ensures t <= s
  {
  }

  lemma DueTile(whole: seq<byte>, tiles: Slices, r: Run)
    requires Holds(tiles, r) && Due(r.state)
    requires forall s :: s in tiles ==> Tile(whole, tiles, s)
    ensures var p := r.state.offset;
            && p in r.received && p in tiles && r.state.slices[p] == tiles[p] && tiles[p] != []
            && Advanced(r.state).offset == p + |tiles[p]|
            && p + |tiles[p]| <= |whole| && tiles[p] == whole[p..p + |tiles[p]|]
            && (p + |tiles[p]| == |whole| || p + |tiles[p]| in tiles)
  {
    hide Tile, Holds, Due;
    DuePlace(tiles, r);
    TileAt(whole, tiles, r.state.offset);
  }

  lemma DuePlace(tiles: Slices, r: Run)
    requires Holds(tiles, r) && Due(r.state)
    ensures var p := r.state.offset; p in r.received && p in tiles && r.state.slices[p] == tiles[p]
  {
  }

  lemma TileAt(whole: seq<byte>, tiles: Slices, p: nat)
    requires p in tiles && Tile(whole, tiles, p)
    ensures tiles[p] != [] && p + |tiles[p]| <= |whole| && tiles[p] == whole[p..p + |tiles[p]|]
    ensures p + |tiles[p]| == |whole| || p + |tiles[p]| in tiles
  {
  }

  lemma AdvanceHolds(tiles: Slices, r: Run)
    requires Due(r.state) && Holds(tiles, r) && r.state.offset in tiles && tiles[r.state.offset] != []
    requires forall t :: t in r.received ==> t in tiles && Apart(tiles, r.state.offset, t)
    ensures Holds(tiles, Run(Advanced(r.state), r.emitted + r.state.slices[r.state.offset], r.received))
  {
    forall t: nat | t in r.received ensures r.state.offset < t ==> Advanced(r.state).offset <= t {
      assert Apart(tiles, r.state.offset, t);
    }
  }

  lemma {:induction false} FetchKeeps(whole: seq<byte>, tiles: Slices, r: Run)
    requires Tiling(whole, tiles) && Invariant(whole, tiles, r)
    ensures Invariant(whole, tiles, Run(Drained(r.state), r.emitted + Fetched(r.state), r.received))
    ensures !Due(Drained(r.state))
    decreases |r.state.slices|
  {
    hide Invariant, Tiling;
    if Due(r.state) {
      AdvancedShrinks(r.state);
      AdvanceKeeps(whole, tiles, r);
      var chunk := r.state.slices[r.state.offset];
      FetchKeeps(whole, tiles, Run(Advanced(r.state), r.emitted + chunk, r.received));
      assert r.emitted + chunk + Fetched(Advanced(r.state)) == r.emitted + (chunk + Fetched(Advanced(r.state)));
    } else {
      assert r.emitted + [] == r.emitted;
    }
  }

  lemma {:induction false} RunKeeps(whole: seq<byte>, tiles: Slices, events: seq<Event>, r: Run)
    requires Tiling(whole, tiles) && Reaches(tiles, events, r)
    ensures Invariant(whole, tiles, r)
    decreases |events|
  {
    if events != [] {
      var n := |events| - 1;
      var q :| Reaches(tiles, events[..n], q) && Valid(tiles, q, events[n]) && r == Next(tiles, q, events[n]);
      RunKeeps(whole, tiles, events[..n], q);
      match events[n]
      case Put(s) => PutKeeps(whole, tiles, q, s);
      case Fetch => FetchKeeps(whole, tiles, q);
    }
  }

  lemma PutKeeps(whole: seq<byte>, tiles: Slices, q: Run, s: nat)
    requires Tiling(whole, tiles) && Invariant(whole, tiles, q) && s in tiles && s !in q.received
    ensures Invariant(whole, tiles, Next(tiles, q, Put(s)))
  {
    assert Tile(whole, tiles, s);
  }

  ghost predicate Covered(tiles: Slices, received: set<nat>, i: nat) {
    exists s :: s in received && s in tiles && s <= i < s + |tiles[s]|
  }

  /** In every run what was handed out is the beginning of the original. */
  lemma EmitsPrefix(whole: seq<byte>, tiles: Slices, events: seq<Event>, r: Run)
    requires Tiling(whole, tiles) && Reaches(tiles, events, r)
    ensures r.state.offset <= |whole| && r.emitted == whole[..r.state.offset]
  {
    RunKeeps(whole, tiles, events, r);
  }

  /** A fetch hands out everything up to the first byte that has not been received. */
  lemma FetchReachesGap(whole: seq<byte>, tiles: Slices, events: seq<Event>, r: Run)
    requires Tiling(whole, tiles) && Reaches(tiles, events + [Fetch], r)
    ensures forall i: nat :: i < |r.emitted| ==> Covered(tiles, r.received, i)
    ensures |r.emitted| < |whole| ==> !Covered(tiles, r.received, |r.emitted|)
  {
    AfterFetch(whole, tiles, events, r);
    var p := r.state.offset;
    forall i: nat | i < p ensures Covered(tiles, r.received, i) {
      var s := TileOf(whole, tiles, i);
      assert s in r.received;
    }
    if p < |whole| {
      NotReceived(whole, tiles, r);
      forall s: nat | s in r.received && s in tiles ensures !(s <= p < s + |tiles[s]|) {
        assert Apart(tiles, s, p);
      }
    }
  }

  lemma NotReceived(whole: seq<byte>, tiles: Slices, r: Run)
    requires Invariant(whole, tiles, r) && !Due(r.state) && r.state.offset < |whole|
    ensures r.state.offset in tiles && r.state.offset !in r.received
  {
  }

  lemma AfterFetch(whole: seq<byte>, tiles: Slices, events: seq<Event>, r: Run)
    requires Tiling(whole, tiles) && Reaches(tiles, events + [Fetch], r)
    ensures Invariant(whole, tiles, r) && !Due(r.state)
  {
    hide Invariant, Tiling;
    RunKeeps(whole, tiles, events + [Fetch], r);
    assert (events + [Fetch])[..|events|] == events;
    var q :| Reaches(tiles, events, q) && r == Next(tiles, q, Fetch);
    RunKeeps(whole, tiles, events, q);
    FetchKeeps(whole, tiles, q);
  }

  /** Every position lies in a segment. */
  lemma {:induction false} TileOf(whole: seq<byte>, tiles: Slices, i: nat) returns (s: nat)
    requires Tiling(whole, tiles) && i < |whole|
    ensures s in tiles && s <= i < s + |tiles[s]|
  {
    s := 0;
    while s + |tiles[s]| <= i
      invariant s in tiles && s <= i
      decreases i - s
    {
      assert Tile(whole, tiles, s);
      s := s + |tiles[s]|;
    }
  }

  /** Once every segment has been received, a fetch completes the original and empties the map. */
  lemma LastFetch(whole: seq<byte>, tiles: Slices, events: seq<Event>, r: Run)
    requires Tiling(whole, tiles) && Reaches(tiles, events + [Fetch], r)
    requires forall s :: s in tiles ==> s in r.received
    ensures r.emitted == whole && r.state.slices == map[]
  {
    AfterFetch(whole, tiles, events, r);
    if r.state.offset < |whole| {
      NotReceived(whole, tiles, r);
    }
    assert whole[..|whole|] == whole;
    forall s | s in tiles ensures s < |whole| {
      assert Tile(whole, tiles, s);
    }
  }

  // ---- segments that overlap or come twice

  /** A segment below the offset stays in the map. */
  ghost predicate Stale(st: State) {
    exists k :: k in st.slices && k < st.offset
  }

  ghost predicate NonEmpty(st: State) {
    forall k :: k in st.slices ==> st.slices[k] != []
  }

  /** Nothing is ever handed out again once the map holds a segment below the offset, whatever is
      put afterwards. */
  lemma StaleBlocks(st: State, start: nat, data: seq<byte>)
    requires Stale(st)
    ensures Drained(st) == st && Fetched(st) == []
    ensures Stale(Inserted(st, start, data))
  {
    var k :| k in st.slices && k < st.offset;
    assert !Due(st);
    assert k in Inserted(st, start, data).slices;
  }

  /** Putting makes the map stale exactly with a non-empty segment that starts below the offset. */
  lemma PutMakesStale(st: State, start: nat, data: seq<byte>)
    requires !Stale(st)
    ensures Stale(Inserted(st, start, data)) <==> data != [] && start < st.offset
  {
    if data != [] && start < st.offset {
      assert start in Inserted(st, start, data).slices;
    }
  }

  /** The starts of the segments a fetch hands out, in order. */
  ghost function Emitted(st: State): seq<nat>
    decreases |st.slices|
  {
    if Due(st) then
      AdvancedShrinks(st);
      [st.offset] + Emitted(Advanced(st))
    else []
  }

  /** Segment `k` starts strictly inside segment `s`. */
  ghost predicate Inside(st: State, s: nat, k: nat) {
    s in st.slices && k in st.slices && s < k < s + |st.slices[s]|
  }

  /** A fetch hands out some segment inside which another stored one starts. */
  ghost predicate Overruns(st: State) {
    exists s, k :: s in Emitted(st) && Inside(st, s, k)
  }

  /** What is handed out after the first segment lies behind it. */
  lemma {:induction false} EmittedBehind(st: State, s: nat)
    requires s in Emitted(st)
    ensures st.offset <= s && s in st.slices
    decreases |st.slices|
  {
    if s != st.offset {
      AdvancedShrinks(st);
      EmittedBehind(Advanced(st), s);
    }
  }

  /** Fetching makes the map stale exactly when it hands out a segment inside which another stored
      one starts. */
  lemma {:induction false} FetchMakesStale(st: State)
    requires !Stale(st) && NonEmpty(st)
    ensures Stale(Drained(st)) <==> Overruns(st)
    decreases |st.slices|
  {
    if Due(st) {
      var p, next := st.offset, Advanced(st);
      AdvancedShrinks(st);
      assert p in Emitted(st);
      StaleNext(st);
      if Stale(next) {
        StaleBlocks(next, 0, []);
        var k :| Inside(st, p, k);
      } else {
        FetchMakesStale(next);
        SameOverruns(st);
      }
    }
  }

  /** Handing out one segment makes the map stale exactly when another starts inside it. */
  lemma StaleNext(st: State)
    requires !Stale(st) && Due(st)
    ensures Stale(Advanced(st)) <==> exists k :: Inside(st, st.offset, k)
  {
    if k :| Inside(st, st.offset, k) {
      assert k in Advanced(st).slices;
    }
    if Stale(Advanced(st)) {
      var k :| k in Advanced(st).slices && k < Advanced(st).offset;
      assert Inside(st, st.offset, k);
    }
  }

  lemma SameOverruns(st: State)
    requires Due(st) && !Stale(Advanced(st)) && !Stale(st) && NonEmpty(st)
    ensures Overruns(st) <==> Overruns(Advanced(st))
  {
    var p, next := st.offset, Advanced(st);
    StaleNext(st);
    forall s, k | s in Emitted(st) && Inside(st, s, k) ensures s in Emitted(next) && Inside(next, s, k) {
      if s != p {
        EmittedBehind(next, s);
      }
    }
    forall s, k | s in Emitted(next) && Inside(next, s, k) ensures s in Emitted(st) && Inside(st, s, k) {
    }
  }

  /** A call of the stream's methods, with any data. */
  datatype Call = PutCall(start: nat, data: seq<byte>) | FetchCall

  ghost function Called(st: State, call: Call): State {
    match call
    case PutCall(start, data) => Inserted(st, start, data)
    case FetchCall => Drained(st)
  }

  ghost function AfterCalls(calls: seq<Call>): State {
    if calls == [] then START.state else Called(AfterCalls(calls[..|calls| - 1]), calls[|calls| - 1])
  }

  /** What makes a stream hang: a segment put from below the offset, or a fetch that hands out a
      segment inside which another stored one starts. */
  ghost predicate Hangs(st: State, call: Call) {
    match call
    case PutCall(start, data) => data != [] && start < st.offset
    case FetchCall => Overruns(st)
  }

  lemma {:induction false} CallsNonEmpty(calls: seq<Call>)
    ensures NonEmpty(AfterCalls(calls))
  {
    if calls != [] {
      CallsNonEmpty(calls[..|calls| - 1]);
      if calls[|calls| - 1].FetchCall? {
        DrainedNonEmpty(AfterCalls(calls[..|calls| - 1]));
      }
    }
  }

  lemma {:induction false} DrainedNonEmpty(st: State)
    requires NonEmpty(st)
    ensures NonEmpty(Drained(st))
    decreases |st.slices|
  {
    if Due(st) {
      AdvancedShrinks(st);
      DrainedNonEmpty(Advanced(st));
    }
  }

  /** Some call along the way made the stream hang. */
  ghost predicate Hung(calls: seq<Call>) {
    exists j :: 0 <= j < |calls| && HangsAt(calls, j)
  }

  ghost predicate HangsAt(calls: seq<Call>, j: nat)
    requires j < |calls|
  {
    Hangs(AfterCalls(calls[..j]), calls[j])
  }

  lemma HungStep(calls: seq<Call>)
    requires calls != []
    ensures var n := |calls| - 1; Hung(calls) <==> Hung(calls[..n]) || Hangs(AfterCalls(calls[..n]), calls[n])
  {
    hide AfterCalls, Hangs;
    var n := |calls| - 1;
    var front := calls[..n];
    forall j: nat | j < n ensures HangsAt(calls, j) == HangsAt(front, j) {
      assert calls[..j] == front[..j];
    }
    assert HangsAt(calls, n) == Hangs(AfterCalls(front), calls[n]);
  }

  /** For any calls whatsoever, overlapping and repeated segments included, a segment lies below the offset
      exactly when some call along the way was of those kinds. */
  lemma {:induction false} StaleIff(calls: seq<Call>)
    ensures Stale(AfterCalls(calls)) <==> Hung(calls)
  {
    hide Stale, Hung, Hangs, Called;
    if calls == [] {
      NothingStale(calls);
    } else {
      var n := |calls| - 1;
      StaleIff(calls[..n]);
      HungStep(calls);
      if Stale(AfterCalls(calls[..n])) {
        StaleStays(AfterCalls(calls[..n]), calls[n]);
      } else {
        CallsNonEmpty(calls[..n]);
        CallMakesStale(AfterCalls(calls[..n]), calls[n]);
      }
    }
  }

  lemma NothingStale(calls: seq<Call>)
    requires calls == []
    ensures !Stale(AfterCalls(calls)) && !Hung(calls)
  {
  }

  lemma StaleStays(st: State, call: Call)
    requires Stale(st)
    ensures Stale(Called(st, call))
  {
    match call
    case PutCall(start, data) => StaleBlocks(st, start, data);
    case FetchCall => StaleBlocks(st, 0, []);
  }

  lemma CallMakesStale(st: State, call: Call)
    requires !Stale(st) && NonEmpty(st)
    ensures Stale(Called(st, call)) <==> Hangs(st, call)
  {
    match call
    case PutCall(start, data) => PutMakesStale(st, start, data);
    case FetchCall => FetchMakesStale(st);
  }

  /** What further calls hand out. */
  ghost function HandedOut(st: State, more: seq<Call>): seq<byte>
    decreases |more|
  {
    if more == [] then []
    else (if more[0].FetchCall? then Fetched(st) else []) + HandedOut(Called(st, more[0]), more[1..])
  }

  lemma {:induction false} StaleHandsOutNothing(st: State, more: seq<Call>)
    requires Stale(st)
    ensures HandedOut(st, more) == []
    decreases |more|
  {
    hide Stale, Fetched, Called;
    if more != [] {
      StaleBlocks(st, 0, []);
      StaleStays(st, more[0]);
      StaleHandsOutNothing(Called(st, more[0]), more[1..]);
    }
  }

  /** A stream without a segment below the offset hands out whatever is put next there. */
  lemma NotStaleHandsOut(st: State, data: seq<byte>)
    requires !Stale(st) && data != []
    ensures data <= HandedOut(st, [PutCall(st.offset, data), FetchCall])
  {
    var put := Inserted(st, st.offset, data);
    assert Due(put);
    AdvancedShrinks(put);
    var more := [PutCall(st.offset, data), FetchCall];
    assert more[1..] == [FetchCall] && [FetchCall][1..] == [];
    assert HandedOut(put, [FetchCall]) == Fetched(put) + HandedOut(Drained(put), []);
  }

  /** A stream hangs for ever, so that no further calls hand out anything, exactly when some call along the
      way put a segment from below the offset, or handed out one inside which another starts. */
  lemma HungIff(calls: seq<Call>)
    ensures (forall more :: HandedOut(AfterCalls(calls), more) == []) <==> Hung(calls)
  {
    hide Stale, HandedOut, Hung, AfterCalls;
    var st := AfterCalls(calls);
    StaleIff(calls);
    if Stale(st) {
      forall more ensures HandedOut(st, more) == [] {
        StaleHandsOutNothing(st, more);
      }
    } else {
      NotStaleHandsOut(st, [0]);
      assert HandedOut(st, [PutCall(st.offset, [0]), FetchCall]) != [];
    }
  }
}
