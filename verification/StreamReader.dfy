/** Reading and searching a stream that arrived in slices; their concatenation is the flat stream. */
module StreamReader {
  import opened Common

  /** Where slice `k` starts. */
  function Start(slices: seq<seq<byte>>, k: nat): nat
    requires k <= |slices|
  {
    if k == 0 then 0 else Start(slices, k - 1) + |slices[k - 1]|
  }

  lemma SliceLength(slices: seq<seq<byte>>, k: nat)
    requires k < |slices|
    ensures Start(slices, k + 1) == Start(slices, k) + |slices[k]|
  {
  }

  lemma {:induction false} StartOf(slices: seq<seq<byte>>, shorter: seq<seq<byte>>, k: nat)
    requires k <= |shorter| && shorter <= slices
    ensures Start(slices, k) == Start(shorter, k)
  {
    if 0 < k {
      StartOf(slices, shorter, k - 1);
    }
  }

  lemma {:induction false} StartMonotone(slices: seq<seq<byte>>, j: nat, k: nat)
    requires j <= k <= |slices|
    ensures Start(slices, j) <= Start(slices, k)
  {
    if j < k {
      StartMonotone(slices, j, k - 1);
    }
  }

  /** A slice lies in the stream between its start and the next one's. */
  lemma {:induction false} SliceAt(slices: seq<seq<byte>>, k: nat)
    requires k < |slices|
    ensures Start(slices, |slices|) == |Concat(slices)|
    ensures Start(slices, k + 1) <= |Concat(slices)|
        && Concat(slices)[Start(slices, k)..Start(slices, k + 1)] == slices[k]
  {
    var n := |slices| - 1;
    var front := slices[..n];
    StartOf(slices, front, n);
    Total(front);
    if k < n {
      SliceAt(front, k);
      StartOf(slices, front, k);
      StartOf(slices, front, k + 1);
      assert Concat(slices)[Start(slices, k)..Start(slices, k + 1)]
          == Concat(front)[Start(slices, k)..Start(slices, k + 1)];
    }
  }

  lemma {:induction false} Total(slices: seq<seq<byte>>)
    ensures Start(slices, |slices|) == |Concat(slices)|
  {
    if slices != [] {
      var front := slices[..|slices| - 1];
      Total(front);
      StartOf(slices, front, |front|);
    }
  }

  datatype Result<T> = Ok(value: T) | Throws

  /** The slice that starts at `offset` reaches the end of the stream. */
  ghost predicate LastFrom(slices: seq<seq<byte>>, offset: nat) {
    exists k: nat :: k < |slices| && Start(slices, k) == offset && Start(slices, k + 1) == |Concat(slices)|
  }

  /** What reading yields: the flat bytes; at or behind the end nothing; and a read that runs past
      the end works only from the start of the slice that ends the stream. */
  ghost function Reading(slices: seq<seq<byte>>, length: nat, offset: nat): Result<seq<byte>> {
    var flat := Concat(slices);
    if offset + length <= |flat| then Ok(flat[offset..offset + length])
    else if |flat| <= offset then Ok([])
    else if LastFrom(slices, offset) then Ok(flat[offset..])
    else Throws
  }

  datatype Found = End(position: nat) | NotFound | Fails

  /** The loops of a search: positions are counted from `front` in every slice. */
  ghost function Probe(slices: seq<seq<byte>>, pattern: seq<byte>, front: nat, cur: nat, index: nat): Found
    requires cur <= |slices| && pattern != []
    decreases |slices| - cur, if cur < |slices| then |slices[cur]| - index else 0
  {
    if cur == |slices| then NotFound
    else if |slices[cur]| <= index then Probe(slices, pattern, front, cur + 1, 0)
    else if slices[cur][index] != pattern[0] then Probe(slices, pattern, front, cur, index + 1)
    else match Reading(slices, |pattern|, front + index)
      case Throws => Fails
      case Ok(window) =>
        if window == pattern then End(front + index + |pattern|) else Probe(slices, pattern, front, cur, index + 1)
  }

  /** The slice from `k` on that holds position `offset`. */
  ghost function SliceOf(slices: seq<seq<byte>>, offset: nat, k: nat): (r: nat)
    requires k <= |slices|
    ensures r <= |slices|
    decreases |slices| - k
  {
    if k == |slices| || offset < Start(slices, k + 1) then k else SliceOf(slices, offset, k + 1)
  }

  ghost function Searching(slices: seq<seq<byte>>, pattern: seq<byte>, offset: nat): Found {
    var begin := SliceOf(slices, offset, 0);
    if pattern == [] || begin == |slices| || offset < Start(slices, begin) then NotFound
    else Probe(slices, pattern, Start(slices, begin), begin, offset - Start(slices, begin))
  }

  class Reader {
    var length: nat
    var slices: seq<seq<byte>>

    ghost predicate Valid()
      reads this
    {
      length == |Concat(slices)|
    }

    constructor ()
      ensures Valid() && Concat(slices) == []
    {
      length, slices := 0, [];
    }

    method AddSlice(slice: seq<byte>)
      requires Valid()
      modifies this
      ensures Valid() && slices == old(slices) + [slice]
      ensures Concat(slices) == old(Concat(slices)) + slice
    {
      length := length + |slice|;
      slices := slices + [slice];
      assert slices[..|slices| - 1] == old(slices);
    }

    /** The slice that holds position `offset`, if the stream is that long. */
    method Locate(offset: nat) returns (begin: nat, beginOffset: nat)
      ensures begin <= |slices| && beginOffset == Start(slices, begin) <= offset
      ensures if begin == |slices| then |Concat(slices)| <= offset else offset < Start(slices, begin + 1)
    {
      Total(slices);
      beginOffset, begin := 0, 0;
      while begin < |slices| && beginOffset + |slices[begin]| <= offset
        invariant begin <= |slices| && beginOffset == Start(slices, begin) <= offset
      {
        beginOffset := beginOffset + |slices[begin]|;
        begin := begin + 1;
      }
    }

    /** The last slice a read needs, or the number of slices if the stream is too short. */
    method LocateEnd(begin: nat, beginOffset: nat, target: nat) returns (end: nat, endOffset: nat)
      requires begin < |slices| && beginOffset == Start(slices, begin) && beginOffset <= target
      ensures begin <= end <= |slices| && Start(slices, end) <= target && beginOffset <= endOffset
      ensures if end == |slices| then endOffset == |Concat(slices)| < target
          else target <= endOffset == Start(slices, end + 1)
    {
      Total(slices);
      endOffset, end := beginOffset, begin;
      while end < |slices| && endOffset + |slices[end]| < target
        invariant begin <= end <= |slices| && beginOffset <= endOffset == Start(slices, end) <= target
        invariant begin < end ==> endOffset < target
      {
        endOffset := endOffset + |slices[end]|;
        end := end + 1;
      }
      if end < |slices| {
        endOffset := endOffset + |slices[end]|;
      }
    }

    method Read(length: nat, offset: nat) returns (result: Result<seq<byte>>)
      ensures result == Reading(slices, length, offset)
    {
      hide Concat, Reading, LastFrom;
      var begin, beginOffset := Locate(offset);
      if begin == |slices| {
        ReadingBehind(slices, length, offset);
        return Ok([]);
      }
      var end, endOffset := LocateEnd(begin, beginOffset, offset + length);
      var buflen := if length < endOffset - beginOffset then length else endOffset - beginOffset;
      var sliceOffset := offset - beginOffset;
      ReadingCases(slices, length, offset, begin, end, endOffset, buflen);
      if sliceOffset + buflen <= |slices[begin]| {
        return Ok(slices[begin][sliceOffset..sliceOffset + buflen]);
      }
      result := Gather(begin, end, offset, buflen);
    }

    /** The buffer is filled slice by slice; the loop fails on a slice that does not exist. */
    method Gather(begin: nat, end: nat, offset: nat, buflen: nat) returns (result: Result<seq<byte>>)
      requires begin < |slices| && begin <= end <= |slices|
      requires Start(slices, begin) <= offset < Start(slices, begin + 1)
      requires if end == |slices| then |Concat(slices)| <= offset + buflen
               else Start(slices, end) <= offset + buflen <= Start(slices, end + 1)
      ensures if end == |slices| then result == Throws
              else offset + buflen <= |Concat(slices)| && result == Ok(Concat(slices)[offset..offset + buflen])
    {
      hide Concat, Filled, Overwritten, Start;
      ghost var flat := Concat(slices);
      var data := new byte[buflen];
      var dst: nat, index := 0, begin;
      FilledNone(data[..], flat, offset);
      SliceLength(slices, begin);
      while index <= end
        invariant begin <= index <= end + 1 && index <= |slices|
        invariant dst == if index == begin then 0 else Start(slices, index) - offset
        invariant Filled(data[..], flat, offset, dst)
      {
        if index == |slices| {
          return Throws;
        }
        var slice := slices[index];
        if index == begin {
          slice := slice[offset - Start(slices, begin)..];
        }
        SliceRest(slices, begin, index, end, offset, dst, slice);
        FilledFurther(data[..], flat, offset, dst, slice);
        var room := data.Length - dst;
        Set(data, if room < |slice| then slice[..room] else slice, dst);
        dst := dst + |slice|;
        index := index + 1;
      }
      SliceAt(slices, end);
      FilledAll(data[..], flat, offset, dst);
      return Ok(data[..]);
    }

    /** The end of an occurrence of `pattern`, as far as the probes find one. */
    method Search(pattern: seq<byte>, offset: nat) returns (result: Found)
      ensures result == Searching(slices, pattern, offset)
    {
      hide Concat, Reading;
      if pattern == [] {
        return NotFound;
      }
      var begin, beginOffset := Locate(offset);
      if begin == |slices| {
        SliceOfEnd(slices, offset, 0);
        return NotFound;
      }
      SliceOfIs(slices, offset, begin, 0);
      var front := beginOffset;
      var cur := begin;
      ghost var all := Searching(slices, pattern, offset);
      while cur < |slices|
        invariant begin <= cur <= |slices|
        invariant all == Probe(slices, pattern, front, cur, if cur == begin then offset - beginOffset else 0)
      {
        var slice := slices[cur];
        var index := if cur == begin then offset - beginOffset else 0;
        while index < |slice|
          invariant 0 <= index && all == Probe(slices, pattern, front, cur, index)
        {
          if slice[index] == pattern[0] {
            var window := Read(|pattern|, front + index);
            if window == Throws {
              return Fails;
            }
            if window.value == pattern {
              return End(front + index + |pattern|);
            }
          }
          index := index + 1;
        }
        cur := cur + 1;
      }
      return NotFound;
    }
  }

  /** Where the next slice, from the read's first byte on, lies in the stream. */
  lemma SliceRest(slices: seq<seq<byte>>, begin: nat, index: nat, end: nat, offset: nat, dst: nat, slice: seq<byte>)
    requires begin <= index <= end <= |slices| && index < |slices|
    requires Start(slices, begin) <= offset < Start(slices, begin + 1)
    requires if index == begin then dst == 0 else dst == Start(slices, index) - offset
    requires slice == if index == begin then slices[begin][offset - Start(slices, begin)..] else slices[index]
    ensures offset + dst + |slice| == Start(slices, index + 1) <= |Concat(slices)|
    ensures slice == Concat(slices)[offset + dst..offset + dst + |slice|]
    ensures offset + dst <= Start(slices, end) || dst == 0
    ensures Start(slices, end) <= |Concat(slices)| && offset < Start(slices, index + 1)
  {
    hide Concat;
    SliceAt(slices, index);
    Total(slices);
    StartMonotone(slices, index, end);
    StartMonotone(slices, end, |slices|);
    StartMonotone(slices, begin + 1, index + 1);
    if index == begin {
      var from := Start(slices, begin);
      SubSlice(Concat(slices), from, Start(slices, begin + 1), offset - from, |slices[begin]|);
    }
  }

  /** `Uint8Array.set` */
  method Set(data: array<byte>, part: seq<byte>, at: nat)
    requires at + |part| <= data.Length
    modifies data
    ensures data[..] == Overwritten(old(data[..]), part, at)
  {
    forall i | 0 <= i < |part| {
      data[at + i] := part[i];
    }
  }

  function Overwritten(data: seq<byte>, part: seq<byte>, at: nat): (r: seq<byte>)
    requires at + |part| <= |data|
    ensures |r| == |data|
  {
    data[..at] + part + data[at + |part|..]
  }

  /** The first `dst` bytes of a buffer, as far as it has them, come from `offset` on. */
  ghost predicate Filled(data: seq<byte>, flat: seq<byte>, offset: nat, dst: nat) {
    forall i :: 0 <= i < dst && i < |data| ==> offset + i < |flat| && data[i] == flat[offset + i]
  }

  lemma FilledNone(data: seq<byte>, flat: seq<byte>, offset: nat)
    ensures Filled(data, flat, offset, 0)
  {
  }

  lemma FilledAll(data: seq<byte>, flat: seq<byte>, offset: nat, dst: nat)
    requires Filled(data, flat, offset, dst) && |data| <= dst && offset + |data| <= |flat|
    ensures data == flat[offset..offset + |data|]
  {
  }

  /** Setting the next slice, cut to the room left, fills the buffer further. */
  lemma FilledFurther(data: seq<byte>, flat: seq<byte>, offset: nat, dst: nat, slice: seq<byte>)
    requires Filled(data, flat, offset, dst) && dst <= |data|
    requires offset + dst + |slice| <= |flat| && slice == flat[offset + dst..offset + dst + |slice|]
    ensures var room := |data| - dst;
            Filled(Overwritten(data, if room < |slice| then slice[..room] else slice, dst), flat, offset, dst + |slice|)
  {
  }

  lemma ReadingBehind(slices: seq<seq<byte>>, length: nat, offset: nat)
    requires |Concat(slices)| <= offset
    ensures Reading(slices, length, offset) == Ok([])
  {
    if offset + length <= |Concat(slices)| {
      assert Concat(slices)[offset..offset + length] == [];
    }
  }

  /** What is to be read, in terms of the slices found. */
  lemma ReadingCases(slices: seq<seq<byte>>, length: nat, offset: nat, begin: nat, end: nat, endOffset: nat,
      buflen: nat)
    requires begin < |slices| && begin <= end <= |slices|
    requires Start(slices, begin) <= offset < Start(slices, begin + 1)
    requires Start(slices, end) <= offset + length
    requires if end == |slices| then endOffset == |Concat(slices)| < offset + length
             else offset + length <= endOffset == Start(slices, end + 1)
    requires buflen == if length < endOffset - Start(slices, begin) then length else endOffset - Start(slices, begin)
    ensures end < |slices| ==> buflen == length
    ensures if end == |slices| then |Concat(slices)| <= offset + buflen else offset + length <= |Concat(slices)|
    ensures var sliceOffset := offset - Start(slices, begin);
            if sliceOffset + buflen <= |slices[begin]|
            then Reading(slices, length, offset) == Ok(slices[begin][sliceOffset..sliceOffset + buflen])
            else Reading(slices, length, offset) == if end == |slices| then Throws
                else Ok(Concat(slices)[offset..offset + length])
  {
    hide Concat, LastFrom;
    SliceAt(slices, begin);
    Total(slices);
    StartMonotone(slices, begin + 1, if end == |slices| then end else end + 1);
    StartMonotone(slices, if end == |slices| then end else end + 1, |slices|);
    FitsFirst(slices, begin, offset);
    var sliceOffset := offset - Start(slices, begin);
    if sliceOffset + buflen <= |slices[begin]| {
      SubSlice(Concat(slices), Start(slices, begin), Start(slices, begin + 1), sliceOffset, sliceOffset + buflen);
      assert end == |slices| ==> offset + buflen == |Concat(slices)|;
      assert Concat(slices)[offset..] == Concat(slices)[offset..|Concat(slices)|];
    }
  }

  lemma SubSlice(flat: seq<byte>, from: nat, to: nat, i: nat, j: nat)
    requires from <= to <= |flat| && i <= j <= to - from
    ensures flat[from..to][i..j] == flat[from + i..from + j]
  {
    assert forall k :: 0 <= k < j - i ==> flat[from..to][i..j][k] == flat[from..to][i + k] == flat[from + i + k];
  }

  /** A read past the end is served by its first slice exactly if that starts there and ends the
      stream. */
  lemma FitsFirst(slices: seq<seq<byte>>, begin: nat, offset: nat)
    requires begin < |slices| && Start(slices, begin) <= offset < Start(slices, begin + 1)
    ensures LastFrom(slices, offset) <==> Start(slices, begin) == offset && Start(slices, begin + 1) == |Concat(slices)|
  {
    SliceAt(slices, begin);
    if LastFrom(slices, offset) {
      var k: nat :| k < |slices| && Start(slices, k) == offset && Start(slices, k + 1) == |Concat(slices)|;
      if k < begin {
        StartMonotone(slices, k + 1, begin);
      } else if begin < k {
        StartMonotone(slices, begin + 1, k);
      }
    }
  }

  // ---- searching

  lemma {:induction false} SliceOfIs(slices: seq<seq<byte>>, offset: nat, begin: nat, k: nat)
    requires k <= begin < |slices| && Start(slices, begin) <= offset < Start(slices, begin + 1)
    ensures SliceOf(slices, offset, k) == begin
    decreases begin - k
  {
    if k < begin {
      StartMonotone(slices, k + 1, begin);
      SliceOfIs(slices, offset, begin, k + 1);
    }
  }

  lemma {:induction false} SliceOfEnd(slices: seq<seq<byte>>, offset: nat, k: nat)
    requires k <= |slices| && |Concat(slices)| <= offset
    ensures SliceOf(slices, offset, k) == |slices|
    decreases |slices| - k
  {
    if k < |slices| {
      Total(slices);
      StartMonotone(slices, k + 1, |slices|);
      SliceOfEnd(slices, offset, k + 1);
    }
  }

  ghost predicate OccursAt(flat: seq<byte>, pattern: seq<byte>, i: nat) {
    i + |pattern| <= |flat| && flat[i..i + |pattern|] == pattern
  }

  lemma {:induction false} ProbeSound(slices: seq<seq<byte>>, pattern: seq<byte>, front: nat, cur: nat, index: nat)
    requires cur <= |slices| && pattern != []
    ensures var r := Probe(slices, pattern, front, cur, index);
            r.End? ==> |pattern| <= r.position && OccursAt(Concat(slices), pattern, r.position - |pattern|)
    decreases |slices| - cur, if cur < |slices| then |slices[cur]| - index else 0
  {
    hide Concat;
    if cur < |slices| {
      if |slices[cur]| <= index {
        ProbeSound(slices, pattern, front, cur + 1, 0);
      } else {
        ProbeSound(slices, pattern, front, cur, index + 1);
      }
    }
  }

  /** Whatever position a search returns is the end of an occurrence of the pattern. */
  lemma SearchSound(slices: seq<seq<byte>>, pattern: seq<byte>, offset: nat)
    ensures var r := Searching(slices, pattern, offset);
            r.End? ==> |pattern| <= r.position && OccursAt(Concat(slices), pattern, r.position - |pattern|)
  {
    hide Probe, OccursAt;
    var begin := SliceOf(slices, offset, 0);
    if pattern != [] && begin < |slices| && Start(slices, begin) <= offset {
      ProbeSound(slices, pattern, Start(slices, begin), begin, offset - Start(slices, begin));
    }
  }

  /** The first occurrence is found if it starts in the slice that holds the start of the search. */
  lemma SearchComplete(slices: seq<seq<byte>>, pattern: seq<byte>, offset: nat, begin: nat, i: nat)
    requires pattern != [] && begin < |slices|
    requires Start(slices, begin) <= offset <= i < Start(slices, begin + 1)
    requires OccursAt(Concat(slices), pattern, i)
    requires forall j: nat :: offset <= j < i ==> !OccursAt(Concat(slices), pattern, j)
    ensures Searching(slices, pattern, offset) == End(i + |pattern|)
  {
    hide Probe, OccursAt;
    SliceOfIs(slices, offset, begin, 0);
    ProbeFinds(slices, pattern, begin, offset - Start(slices, begin), i);
  }

  lemma {:induction false} ProbeFinds(slices: seq<seq<byte>>, pattern: seq<byte>, begin: nat, index: nat, i: nat)
    requires pattern != [] && begin < |slices|
    requires Start(slices, begin) + index <= i < Start(slices, begin + 1)
    requires OccursAt(Concat(slices), pattern, i)
    requires forall j: nat :: Start(slices, begin) + index <= j < i ==> !OccursAt(Concat(slices), pattern, j)
    ensures Probe(slices, pattern, Start(slices, begin), begin, index) == End(i + |pattern|)
    decreases i - index
  {
    hide Concat;
    var flat, position := Concat(slices), Start(slices, begin) + index;
    SliceAt(slices, begin);
    assert slices[begin][index] == flat[position];
    if position == i {
      assert flat[i] == flat[i..i + |pattern|][0];
    } else {
      assert !OccursAt(flat, pattern, position);
      ProbeFinds(slices, pattern, begin, index + 1, i);
    }
  }

  // ---- exactly what a search returns

  /** The probe at byte `x` of slice `c` comes after the loops have reached slice `cur`, byte `index`. */
  ghost predicate Ahead(slices: seq<seq<byte>>, cur: nat, index: nat, c: nat, x: nat) {
    c < |slices| && x < |slices[c]| && (cur < c || (cur == c && index <= x))
  }

  /** The probe ends the search: the first byte matches, and the read throws or yields the pattern. */
  ghost predicate Decides(slices: seq<seq<byte>>, pattern: seq<byte>, front: nat, c: nat, x: nat)
    requires pattern != []
  {
    && c < |slices| && x < |slices[c]| && slices[c][x] == pattern[0]
    && (Reading(slices, |pattern|, front + x) == Throws || Reading(slices, |pattern|, front + x) == Ok(pattern))
  }

  /** No probe before this one ends the search. */
  ghost predicate FirstDecision(slices: seq<seq<byte>>, pattern: seq<byte>, front: nat, cur: nat, index: nat, c: nat,
      x: nat)
    requires pattern != []
  {
    && Ahead(slices, cur, index, c, x) && Decides(slices, pattern, front, c, x)
    && forall d: nat, y: nat :: Ahead(slices, cur, index, d, y) && Decides(slices, pattern, front, d, y) ==>
        Ahead(slices, c, x, d, y)
  }

  ghost function Verdict(slices: seq<seq<byte>>, pattern: seq<byte>, front: nat, x: nat): Found {
    if Reading(slices, |pattern|, front + x) == Throws then Fails else End(front + x + |pattern|)
  }

  /** The first probe that decides does. */
  lemma {:induction false} ProbeDecided(slices: seq<seq<byte>>, pattern: seq<byte>, front: nat, cur: nat, index: nat,
      c: nat, x: nat)
    requires pattern != [] && cur <= |slices| && FirstDecision(slices, pattern, front, cur, index, c, x)
    ensures Probe(slices, pattern, front, cur, index) == Verdict(slices, pattern, front, x)
    decreases |slices| - cur, if cur < |slices| then |slices[cur]| - index else 0
  {
    hide Reading;
    if |slices[cur]| <= index {
      assert forall d: nat, y: nat :: Ahead(slices, cur, index, d, y) <==> Ahead(slices, cur + 1, 0, d, y);
      ProbeDecided(slices, pattern, front, cur + 1, 0, c, x);
    } else if (cur, index) != (c, x) {
      assert !Decides(slices, pattern, front, cur, index);
      ProbeDecided(slices, pattern, front, cur, index + 1, c, x);
    }
  }

  /** A search that does not come back empty-handed has such a probe. */
  lemma {:induction false} ProbeDecision(slices: seq<seq<byte>>, pattern: seq<byte>, front: nat, cur: nat, index: nat)
      returns (c: nat, x: nat)
    requires pattern != [] && cur <= |slices| && Probe(slices, pattern, front, cur, index) != NotFound
    ensures FirstDecision(slices, pattern, front, cur, index, c, x)
    decreases |slices| - cur, if cur < |slices| then |slices[cur]| - index else 0
  {
    hide Reading;
    if |slices[cur]| <= index {
      c, x := ProbeDecision(slices, pattern, front, cur + 1, 0);
      assert forall d: nat, y: nat :: Ahead(slices, cur, index, d, y) <==> Ahead(slices, cur + 1, 0, d, y);
    } else if Decides(slices, pattern, front, cur, index) {
      c, x := cur, index;
    } else {
      c, x := ProbeDecision(slices, pattern, front, cur, index + 1);
    }
  }

  /** A search returns position `e`, in whatever slice, exactly when its first deciding probe matches
      and ends at `e`, its position being counted from the start of the first slice searched. */
  lemma SearchReturnsIff(slices: seq<seq<byte>>, pattern: seq<byte>, begin: nat, index: nat, e: nat)
    requires pattern != [] && begin < |slices| && index < |slices[begin]|
    ensures var front := Start(slices, begin);
            Searching(slices, pattern, front + index) == End(e) <==>
            exists c: nat, x: nat ::
              && FirstDecision(slices, pattern, front, begin, index, c, x)
              && Reading(slices, |pattern|, front + x) == Ok(pattern) && e == front + x + |pattern|
  {
    hide FirstDecision, Reading, Probe, Searching, Start;
    var front := Start(slices, begin);
    SearchProbes(slices, pattern, begin, index);
    if Probe(slices, pattern, front, begin, index) != NotFound {
      var c, x := ProbeDecision(slices, pattern, front, begin, index);
      DecisionMatches(slices, pattern, front, begin, index, c, x);
    }
    forall c: nat, x: nat | FirstDecision(slices, pattern, front, begin, index, c, x)
      ensures Probe(slices, pattern, front, begin, index) == Verdict(slices, pattern, front, x)
    {
      ProbeDecided(slices, pattern, front, begin, index, c, x);
    }
  }

  lemma SearchProbes(slices: seq<seq<byte>>, pattern: seq<byte>, begin: nat, index: nat)
    requires pattern != [] && begin < |slices| && index < |slices[begin]|
    ensures Searching(slices, pattern, Start(slices, begin) + index)
        == Probe(slices, pattern, Start(slices, begin), begin, index)
  {
    SliceOfIs(slices, Start(slices, begin) + index, begin, 0);
  }

  lemma DecisionMatches(slices: seq<seq<byte>>, pattern: seq<byte>, front: nat, cur: nat, index: nat, c: nat, x: nat)
    requires pattern != [] && FirstDecision(slices, pattern, front, cur, index, c, x)
    ensures Reading(slices, |pattern|, front + x) == Throws || Reading(slices, |pattern|, front + x) == Ok(pattern)
  {
  }

  lemma ConcatTwo(a: seq<byte>, b: seq<byte>)
    ensures Concat([a, b]) == a + b
  {
    assert [a, b][..1] == [a] && [a][..0] == [];
    assert Concat([a]) == [] + a;
  }

  /** In later slices positions are counted from the wrong start: an occurrence is missed. */
  lemma SearchMisses()
    ensures Searching([[1], [2]], [2], 0) == NotFound && OccursAt(Concat([[1], [2]]), [2], 1)
  {
    ConcatTwo([1], [2]);
  }

  /** And one is found before the start of the search. */
  lemma SearchReturnsEarlier()
    ensures Searching([[2, 3], [2]], [2], 1) == End(1)
  {
    var slices: seq<seq<byte>>, pattern: seq<byte> := [[2, 3], [2]], [2];
    ConcatTwo([2, 3], [2]);
    assert Start(slices, 1) == 2 && SliceOf(slices, 1, 0) == 0;
    assert Concat(slices)[0..1] == [2];
    assert Probe(slices, pattern, 0, 1, 0) == End(1);
    assert Probe(slices, pattern, 0, 0, 2) == End(1);
    assert Probe(slices, pattern, 0, 0, 1) == End(1);
  }
}
