/** The export dialog's frame ranges: normalised, sorted and merged. */
module RangeMerge {
  import opened Common

  /** One comma-separated clause, split at its dashes: nothing, a number, two numbers of which either
      may be missing, or more. */
  datatype Clause = Blank | Single(number: nat) | Pair(first: Option<nat>, second: Option<nat>) | Longer

  datatype Range = Range(begin: nat, end: nat)

  const MAX_SAFE_INTEGER := 0x1F_FFFF_FFFF_FFFF

  function Normal(clause: Clause): Option<Range> {
    match clause
    case Blank => None
    case Single(n) => Some(Range(n, n))
    case Pair(first, second) =>
      var begin := if first.Some? then first.value else 0;
      var end := if second.Some? then second.value else MAX_SAFE_INTEGER;
      Some(if begin < end then Range(begin, end) else Range(end, begin))
    case Longer => None
  }

  function Ranges(clauses: seq<Clause>): seq<Range> {
    if clauses == [] then []
    else
      (match Normal(clauses[0])
       case Some(range) => [range]
       case None => [])
      + Ranges(clauses[1..])
  }

  // ---- what ranges stand for: points between their ends

  ghost predicate Inside(range: Range, x: real) {
    range.begin as real <= x <= range.end as real
  }

  ghost predicate Covers(ranges: seq<Range>, x: real) {
    exists range :: range in ranges && Inside(range, x)
  }

  /** The numbers a clause names, in either order of its ends. */
  ghost predicate Named(clause: Clause, n: nat) {
    match clause
    case Single(k) => n == k
    case Pair(first, second) =>
      var a, b := if first.Some? then first.value else 0, if second.Some? then second.value else 0x1F_FFFF_FFFF_FFFF;
      a <= n <= b || b <= n <= a
    case _ => false
  }

  lemma {:induction false} RangesCover(clauses: seq<Clause>, n: nat)
    ensures Covers(Ranges(clauses), n as real) <==> exists clause :: clause in clauses && Named(clause, n)
  {
    if clauses != [] {
      var rest := Ranges(clauses[1..]);
      RangesCover(clauses[1..], n);
      assert forall clause :: clause in clauses <==> clause == clauses[0] || clause in clauses[1..];
      ClauseCovers(clauses[0], n);
      match Normal(clauses[0])
      case Some(range) => CoversConcat([range], rest, n as real);
      case None => CoversConcat([], rest, n as real);
    }
  }

  ghost predicate CoversNumber(ranges: seq<Range>, n: nat) {
    Covers(ranges, n as real)
  }

  ghost predicate NamedBy(clauses: seq<Clause>, n: nat) {
    exists clause :: clause in clauses && Named(clause, n)
  }

  /** A clause open at the end reaches up to the largest safe integer, and one open at the front from zero. */
  lemma OpenClauses(n: nat, k: nat)
    ensures n <= 0x1F_FFFF_FFFF_FFFF ==>
        (Covers(Ranges([Pair(Some(n), None)]), k as real) <==> n <= k <= 0x1F_FFFF_FFFF_FFFF)
    ensures Covers(Ranges([Pair(None, Some(n))]), k as real) <==> k <= n
  {
    hide Covers, Ranges;
    RangesCover([Pair(Some(n), None)], k);
    RangesCover([Pair(None, Some(n))], k);
    OnlyClause(Pair(Some(n), None), k);
    OnlyClause(Pair(None, Some(n)), k);
  }

  lemma OnlyClause(c: Clause, k: nat)
    ensures (exists clause :: clause in [c] && Named(clause, k)) <==> Named(c, k)
  {
    assert c in [c];
  }

  lemma ClauseCovers(clause: Clause, n: nat)
    ensures match Normal(clause)
            case Some(range) => Covers([range], n as real) <==> Named(clause, n)
            case None => !Named(clause, n)
  {
    if Normal(clause).Some? {
      CoversOne(Normal(clause).value, n as real);
    }
  }

  lemma CoversConcat(a: seq<Range>, b: seq<Range>, x: real)
    ensures Covers(a + b, x) <==> Covers(a, x) || Covers(b, x)
  {
    assert forall range :: range in a + b <==> range in a || range in b;
  }

  ghost predicate Proper(ranges: seq<Range>) {
    forall range :: range in ranges ==> range.begin <= range.end
  }

  lemma {:induction false} RangesProper(clauses: seq<Clause>)
    ensures Proper(Ranges(clauses))
  {
    if clauses != [] {
      RangesProper(clauses[1..]);
    }
  }

  // ---- sorting and merging

  ghost predicate Ascending(ranges: seq<Range>) {
    forall i, j :: 0 <= i < j < |ranges| ==> ranges[i].begin <= ranges[j].begin
  }

  /** What sorting may yield; ranges with equal begins come in any order. */
  ghost predicate IsSorted(ranges: seq<Range>, sorted: seq<Range>) {
    Ascending(sorted) && multiset(sorted) == multiset(ranges)
  }

  function Added(merged: seq<Range>, range: Range): seq<Range> {
    var n := |merged| - 1;
    if 0 <= n && range.begin <= merged[n].end then
      merged[n := merged[n].(end := if merged[n].end < range.end then range.end else merged[n].end)]
    else merged + [range]
  }

  function Merged(sorted: seq<Range>): seq<Range> {
    if sorted == [] then [] else Added(Merged(sorted[..|sorted| - 1]), sorted[|sorted| - 1])
  }

  method Insert(sorted: seq<Range>, range: Range) returns (r: seq<Range>)
    requires Ascending(sorted)
    ensures Ascending(r) && multiset(r) == multiset(sorted) + multiset{range}
  {
    hide Ascending;
    var k := |sorted|;
    while 0 < k && range.begin < sorted[k - 1].begin
      invariant 0 <= k <= |sorted|
      invariant forall j :: k <= j < |sorted| ==> range.begin < sorted[j].begin
    {
      k := k - 1;
    }
    r := sorted[..k] + [range] + sorted[k..];
    InsertPermutes(sorted, k, range);
    InsertAscends(sorted, k, range);
  }

  lemma InsertPermutes(sorted: seq<Range>, k: nat, range: Range)
    requires k <= |sorted|
    ensures multiset(sorted[..k] + [range] + sorted[k..]) == multiset(sorted) + multiset{range}
  {
    assert sorted == sorted[..k] + sorted[k..];
  }

  lemma InsertAscends(sorted: seq<Range>, k: nat, range: Range)
    requires k <= |sorted| && Ascending(sorted)
    requires k == 0 || sorted[k - 1].begin <= range.begin
    requires forall j :: k <= j < |sorted| ==> range.begin < sorted[j].begin
    ensures Ascending(sorted[..k] + [range] + sorted[k..])
  {
    var r := sorted[..k] + [range] + sorted[k..];
    assert forall i :: 0 <= i < |r| ==> r[i] == if i < k then sorted[i] else if i == k then range else sorted[i - 1];
  }

  method Sort(ranges: seq<Range>) returns (sorted: seq<Range>)
    ensures IsSorted(ranges, sorted)
  {
    sorted := [];
    var i := 0;
    while i < |ranges|
      invariant 0 <= i <= |ranges| && IsSorted(ranges[..i], sorted)
    {
      sorted := Insert(sorted, ranges[i]);
      assert ranges[..i + 1] == ranges[..i] + [ranges[i]];
      i := i + 1;
    }
    assert ranges[..|ranges|] == ranges;
  }

  method Merge(sorted: seq<Range>) returns (merged: seq<Range>)
    ensures merged == Merged(sorted)
  {
    merged := [];
    var i := 0;
    while i < |sorted|
      invariant 0 <= i <= |sorted| && merged == Merged(sorted[..i])
    {
      var range, n := sorted[i], |merged| - 1;
      assert sorted[..i + 1][..i] == sorted[..i];
      if 0 <= n && range.begin <= merged[n].end {
        if merged[n].end < range.end {
          merged := merged[n := merged[n].(end := range.end)];
        }
      } else {
        merged := merged + [range];
      }
      i := i + 1;
    }
    assert sorted[..|sorted|] == sorted;
  }

  /** `parseRange` up to the merged intervals. */
  method ParseRange(clauses: seq<Clause>) returns (merged: seq<Range>)
    ensures Proper(merged) && Separated(merged)
    ensures forall x: real :: Covers(merged, x) <==> Covers(Ranges(clauses), x)
    ensures forall n: nat :: CoversNumber(merged, n) <==> NamedBy(clauses, n)
  {
    hide Covers, Separated, Merged, Ranges, Named;
    var ranges := ToRanges(clauses);
    RangesProper(clauses);
    var sorted := Sort(ranges);
    SortedSame(ranges, sorted);
    MergedSeparated(sorted);
    forall x: real ensures Covers(Merged(sorted), x) <==> Covers(ranges, x) {
      MergedCovers(sorted, x);
      SameCovers(ranges, sorted, x);
    }
    merged := Merge(sorted);
    forall n: nat ensures CoversNumber(merged, n) <==> NamedBy(clauses, n) {
      RangesCover(clauses, n);
    }
  }

  method ToRanges(clauses: seq<Clause>) returns (ranges: seq<Range>)
    ensures ranges == Ranges(clauses)
  {
    ranges := [];
    var i := |clauses|;
    assert clauses[i..] == [];
    while 0 < i
      invariant 0 <= i <= |clauses| && ranges == Ranges(clauses[i..])
    {
      i := i - 1;
      assert clauses[i..][1..] == clauses[i + 1..];
      var range := Normal(clauses[i]);
      ranges := (if range.Some? then [range.value] else []) + ranges;
    }
    assert clauses[0..] == clauses;
  }

  // ---- the merged list

  /** In order, with a strict gap between an end and the next begin. */
  ghost predicate Separated(ranges: seq<Range>) {
    forall i, j :: 0 <= i < j < |ranges| ==> ranges[i].end < ranges[j].begin
  }

  lemma SortedSame(ranges: seq<Range>, sorted: seq<Range>)
    requires IsSorted(ranges, sorted)
    ensures forall range :: range in sorted <==> range in ranges
  {
    forall range ensures range in sorted <==> range in ranges {
      assert range in sorted <==> range in multiset(sorted);
      assert range in ranges <==> range in multiset(ranges);
    }
  }

  lemma SameCovers(ranges: seq<Range>, sorted: seq<Range>, x: real)
    requires forall range :: range in sorted <==> range in ranges
    ensures Covers(sorted, x) <==> Covers(ranges, x)
  {
  }

  lemma {:induction false} MergedSeparated(sorted: seq<Range>)
    requires Ascending(sorted) && Proper(sorted)
    ensures Proper(Merged(sorted)) && Separated(Merged(sorted))
    ensures forall range :: range in Merged(sorted) ==> exists other :: other in sorted && other.begin == range.begin
  {
    if sorted != [] {
      var n := |sorted| - 1;
      var merged, range := Merged(sorted[..n]), sorted[n];
      MergedSeparated(sorted[..n]);
      assert forall other :: other in sorted[..n] ==> other in sorted && other.begin <= range.begin;
      assert forall i :: 0 <= i < |merged| ==> merged[i] in merged && merged[i].begin <= range.begin;
      AddedSeparated(merged, range);
      forall r | r in Added(merged, range) ensures exists other :: other in sorted && other.begin == r.begin {
        assert range in sorted;
        if r.begin != range.begin {
          var m :| m in merged && m.begin == r.begin;
        }
      }
    }
  }

  lemma AddedSeparated(merged: seq<Range>, range: Range)
    requires Proper(merged) && Separated(merged) && range.begin <= range.end
    requires forall i :: 0 <= i < |merged| ==> merged[i].begin <= range.begin
    ensures Proper(Added(merged, range)) && Separated(Added(merged, range))
    ensures forall r :: r in Added(merged, range) ==>
        r.begin == range.begin || exists m :: m in merged && m.begin == r.begin
  {
    var n := |merged| - 1;
    if 0 <= n {
      assert merged[n] in merged;
      forall i | 0 <= i < n ensures merged[i].end < range.begin {
        assert merged[i].end < merged[n].begin;
      }
    }
  }

  lemma {:induction false} MergedCovers(sorted: seq<Range>, x: real)
    requires Ascending(sorted) && Proper(sorted)
    ensures Covers(Merged(sorted), x) <==> Covers(sorted, x)
  {
    hide Covers;
    if sorted != [] {
      var n := |sorted| - 1;
      var merged, range := Merged(sorted[..n]), sorted[n];
      assert sorted == sorted[..n] + [range];
      MergedCovers(sorted[..n], x);
      CoversConcat(sorted[..n], [range], x);
      MergedSeparated(sorted[..n]);
      forall m | m in merged ensures m.begin <= range.begin {
        var other :| other in sorted[..n] && other.begin == m.begin;
      }
      AddedCovers(merged, range, x);
    }
  }

  lemma AddedCovers(merged: seq<Range>, range: Range, x: real)
    requires Proper(merged) && range.begin <= range.end
    requires forall m :: m in merged ==> m.begin <= range.begin
    ensures Covers(Added(merged, range), x) <==> Covers(merged, x) || Covers([range], x)
  {
    var n := |merged| - 1;
    if 0 <= n && range.begin <= merged[n].end {
      var last := merged[n];
      assert last in merged;
      var wider := last.(end := if last.end < range.end then range.end else last.end);
      assert merged == merged[..n] + [last] && Added(merged, range) == merged[..n] + [wider];
      CoversConcat(merged[..n], [last], x);
      CoversConcat(merged[..n], [wider], x);
      assert Inside(wider, x) <==> Inside(last, x) || Inside(range, x);
      CoversOne(last, x);
      CoversOne(wider, x);
      CoversOne(range, x);
    } else {
      CoversConcat(merged, [range], x);
    }
  }

  lemma CoversOne(range: Range, x: real)
    ensures Covers([range], x) <==> Inside(range, x)
  {
    assert range in [range];
  }

  // ---- the merged list is determined by the points covered

  ghost predicate SamePoints(a: seq<Range>, b: seq<Range>) {
    forall x: real :: Covers(a, x) <==> Covers(b, x)
  }

  lemma FirstIsLeast(a: seq<Range>, x: real)
    requires a != [] && Proper(a) && Separated(a)
    ensures Covers(a, a[0].begin as real)
    ensures Covers(a, x) ==> a[0].begin as real <= x
    ensures Covers(a[1..], x) <==> Covers(a, x) && a[0].end as real < x
  {
    assert a[0] in a;
    assert Inside(a[0], a[0].begin as real);
    assert a == [a[0]] + a[1..];
    CoversConcat([a[0]], a[1..], x);
    CoversOne(a[0], x);
    assert forall range :: range in a[1..] ==> a[0].end < range.begin;
  }

  lemma GapUncovered(a: seq<Range>, x: real)
    requires a != [] && Proper(a) && Separated(a)
    requires a[0].end as real < x && (1 < |a| ==> x < a[1].begin as real)
    ensures !Covers(a, x)
  {
    FirstIsLeast(a, x);
    if 1 < |a| {
      FirstIsLeast(a[1..], x);
    }
  }

  lemma FirstCovers(b: seq<Range>, x: real)
    requires b != [] && Inside(b[0], x)
    ensures Covers(b, x)
  {
    assert b[0] in b;
  }

  /** A first range that ended earlier would leave a point of the other's uncovered. */
  lemma EndsThere(a: seq<Range>, b: seq<Range>) returns (x: real)
    requires a != [] && b != [] && Proper(a) && Separated(a)
    requires a[0].begin == b[0].begin && a[0].begin <= a[0].end
    ensures a[0].end < b[0].end ==> Covers(b, x) && !Covers(a, x)
  {
    hide Covers;
    x := 0.0;
    if a[0].end < b[0].end {
      var limit := if 1 < |a| && a[1].begin < b[0].end then a[1].begin else b[0].end;
      x := (a[0].end as real + limit as real) / 2.0;
      FirstCovers(b, x);
      GapUncovered(a, x);
    }
  }

  lemma {:induction false} Determined(a: seq<Range>, b: seq<Range>)
    requires Proper(a) && Separated(a) && Proper(b) && Separated(b) && SamePoints(a, b)
    ensures a == b
  {
    hide Covers, Proper, Separated;
    if a == [] || b == [] {
      NothingCovered(a, b);
    } else {
      FirstIsLeast(a, b[0].begin as real);
      FirstIsLeast(b, a[0].begin as real);
      SameFirst(a, b);
      forall x: real ensures Covers(a[1..], x) <==> Covers(b[1..], x) {
        FirstIsLeast(a, x);
        FirstIsLeast(b, x);
      }
      Tail(a);
      Tail(b);
      Determined(a[1..], b[1..]);
      assert a == [a[0]] + a[1..] && b == [b[0]] + b[1..];
    }
  }

  lemma SameFirst(a: seq<Range>, b: seq<Range>)
    requires a != [] && b != [] && Proper(a) && Separated(a) && Proper(b) && Separated(b) && SamePoints(a, b)
    ensures a[0] == b[0]
  {
    hide Covers, Separated;
    FirstIsLeast(a, b[0].begin as real);
    FirstIsLeast(b, a[0].begin as real);
    var x := EndsThere(a, b);
    var y := EndsThere(b, a);
    assert Covers(a, x) <==> Covers(b, x);
    assert Covers(a, y) <==> Covers(b, y);
  }

  lemma NothingCovered(a: seq<Range>, b: seq<Range>)
    requires Proper(a) && Separated(a) && Proper(b) && Separated(b) && SamePoints(a, b)
    requires a == [] || b == []
    ensures a == b
  {
    hide Covers, Proper, Separated;
    SomethingCovered(a);
    SomethingCovered(b);
  }

  lemma SomethingCovered(a: seq<Range>)
    requires Proper(a) && Separated(a)
    ensures a != [] <==> exists x: real :: Covers(a, x)
  {
    if a != [] {
      FirstIsLeast(a, 0.0);
    }
  }

  lemma Tail(a: seq<Range>)
    requires a != [] && Proper(a) && Separated(a)
    ensures Proper(a[1..]) && Separated(a[1..])
  {
  }

  /** However equal begins are ordered by the sort, and in whatever order the clauses come, the same
      intervals are the result. */
  lemma OrderIrrelevant(s: seq<Range>, t: seq<Range>)
    requires Ascending(s) && Ascending(t) && Proper(s)
    requires forall range :: range in s <==> range in t
    ensures Merged(s) == Merged(t)
  {
    hide Covers, Separated, Merged, Ascending;
    MergedSeparated(s);
    MergedSeparated(t);
    forall x: real ensures Covers(Merged(s), x) <==> Covers(Merged(t), x) {
      MergedCovers(s, x);
      MergedCovers(t, x);
      SameCovers(s, t, x);
    }
    Determined(Merged(s), Merged(t));
  }
}
