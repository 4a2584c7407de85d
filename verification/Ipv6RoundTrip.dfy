/** Parsing what was printed gives the address back, and what is printed is an IPv6 text form. */
module Ipv6RoundTrip {
  import opened Common
  import opened Strings
  import opened Ipv6

  // ---- hexadecimal groups

  predicate IsHex(c: char) {
    DigitValue(c).Some? && !('A' <= c <= 'F')
  }

  lemma HexDigitsAre(c: char)
    ensures IsHex(c) <==> c in "0123456789abcdef"
  {
  }

  /** One to four lower-case digits without a superfluous leading zero. */
  ghost predicate IsGroup(p: string) {
    && 1 <= |p| <= 4
    && (forall k :: 0 <= k < |p| ==> IsHex(p[k]))
    && (p[0] == '0' ==> p == "0")
  }

  lemma {:induction false} HexDigits(n: nat)
    ensures Hex(n) != "" && forall k :: 0 <= k < |Hex(n)| ==> IsHex(Hex(n)[k])
    ensures Hex(n)[0] == '0' ==> n == 0 && Hex(n) == "0"
  {
    if 16 <= n {
      HexDigits(n / 16);
      var d := n % 16;
      assert IsHex(DIGITS[d]);
    } else {
      assert IsHex(DIGITS[n]);
    }
  }

  lemma HexGroup(n: nat)
    requires n <= 0xffff
    ensures IsGroup(Hex(n))
  {
    HexDigits(n);
    var a, b, c := n / 16, n / 16 / 16, n / 16 / 16 / 16;
    assert c < 16 && |Hex(c)| == 1;
    assert |Hex(b)| <= 2;
    assert |Hex(a)| <= 3;
  }

  /** Reading a number's digits after others shifts those by its length. */
  lemma {:induction false} ReadAppend(s: string, c: char, sofar: nat)
    requires forall k :: 0 <= k < |s| ==> DigitValue(s[k]).Some?
    requires DigitValue(c).Some?
    ensures ReadDigits(s + [c], sofar) == ReadDigits(s, sofar) * 16 + DigitValue(c).value
  {
    if s == "" {
      assert (s + [c])[1..] == "";
    } else {
      assert (s + [c])[1..] == s[1..] + [c];
      ReadAppend(s[1..], c, sofar * 16 + DigitValue(s[0]).value);
    }
  }

  lemma DigitRoundTrip(d: nat)
    requires d < 16
    ensures IsHex(DIGITS[d]) && DigitValue(DIGITS[d]).value == d
  {
  }

  lemma {:induction false} ReadHex(n: nat)
    ensures ReadDigits(Hex(n), 0) == n
  {
    if n < 16 {
      DigitRoundTrip(n);
      assert Hex(n)[1..] == "";
    } else {
      ReadHex(n / 16);
      HexDigits(n / 16);
      DigitRoundTrip(n % 16);
      ReadAppend(Hex(n / 16), DIGITS[n % 16], 0);
    }
  }

  lemma DigitIsPlain(c: char)
    requires DigitValue(c).Some?
    ensures !IsSpace(c) && c != '-' && c != '+' && c != 'x' && c != 'X'
  {
  }

  /** A string of digits is read as a whole. */
  lemma ParseDigits(s: string)
    requires s != "" && forall k :: 0 <= k < |s| ==> DigitValue(s[k]).Some?
    ensures ParseInt(s) == Some(ReadDigits(s, 0))
  {
    hide ReadDigits, DigitValue, IsSpace;
    DigitIsPlain(s[0]);
    if 1 < |s| {
      DigitIsPlain(s[1]);
    }
    assert Trim(s) == s;
  }

  lemma ParseHex(n: nat)
    ensures ParseInt(Hex(n)) == Some(n)
  {
    hide DigitValue, Hex, ParseInt;
    HexDigits(n);
    ReadHex(n);
    ParseDigits(Hex(n));
  }

  // ---- texts of colon-separated groups

  predicate DoubleColonAt(t: string, k: nat) {
    k + 1 < |t| && t[k] == ':' && t[k + 1] == ':'
  }

  /** What the printer's pattern relies on: digits and single inner colons, and a zero that starts a
      group is all of it. */
  ghost predicate Spelled(s: string) {
    && s != "" && s[0] != ':' && s[|s| - 1] != ':'
    && (forall k :: 0 <= k < |s| ==> IsHex(s[k]) || s[k] == ':')
    && (forall k: nat :: !DoubleColonAt(s, k))
    && (forall k: nat :: ZeroAt(s, k) ==> k + 1 == |s| || s[k + 1] == ':')
  }

  lemma {:induction false} JoinSpelled(pieces: seq<string>)
    requires pieces != [] && forall p :: p in pieces ==> IsGroup(p)
    ensures Spelled(Join(pieces, ':'))
  {
    var first := pieces[0];
    assert first in pieces && IsGroup(first);
    if |pieces| == 1 {
      assert forall k: nat :: ZeroAt(first, k) ==> k == 0;
    } else {
      var rest := Join(pieces[1..], ':');
      JoinSpelled(pieces[1..]);
      GroupInFront(first, rest);
    }
  }

  lemma GroupInFront(first: string, rest: string)
    requires IsGroup(first) && Spelled(rest)
    ensures Spelled(first + ":" + rest)
  {
    var s, n := first + ":" + rest, |first|;
    assert forall k :: n < k < |s| ==> s[k] == rest[k - n - 1];
    forall k: nat | ZeroAt(s, k) ensures k + 1 == |s| || s[k + 1] == ':' {
      if k < n {
        assert k == 0;
      } else {
        assert ZeroAt(rest, k - n - 1);
      }
    }
    forall k: nat ensures !DoubleColonAt(s, k) {
      if n < k {
        assert !DoubleColonAt(rest, k - n - 1);
      }
    }
  }

  // ---- what the pattern matches

  lemma Cut(s: string, k: nat, end: nat)
    requires k + 2 <= end <= |s|
    ensures s[k..end] == [s[k]] + [s[k + 1]] + s[k + 2..end]
  {
  }

  /** The text from a zero that starts a group up to the end of the zero tail is zeros and colons. */
  lemma {:induction false} ZeroTailSplits(s: string, k: nat)
    requires Spelled(s) && ZeroAt(s, k)
    ensures var end := ZeroTail(s, k + 1);
            && Split(s[k..end], ':') == Zeros(|Split(s[k..end], ':')|)
            && (end == |s| || s[end] == ':')
            && (end + 1 < |s| ==> s[end + 1] != '0')
    decreases |s| - k
  {
    hide Split;
    var end := ZeroTail(s, k + 1);
    if k + 2 < |s| && s[k + 1] == ':' && s[k + 2] == '0' {
      assert ZeroAt(s, k + 2);
      ZeroTailSplits(s, k + 2);
      assert s[k..end] == "0" + [':'] + s[k + 2..end] by {
        Cut(s, k, end);
      }
      SplitConcat("0", s[k + 2..end], ':');
      SplitPlain("0", ':');
    } else {
      assert s[k..end] == "0";
      SplitPlain("0", ':');
    }
  }

  /** Where a search may start: at the beginning, at the end, or at a group that is not zero. */
  ghost predicate Resumable(s: string, from: nat) {
    from == 0 || from == |s| || (0 < from < |s| && s[from - 1] == ':' && s[from] != '0')
  }

  /** The pieces of a prefix or suffix that ends or starts at a compressed run. */
  function Side(s: string): seq<string> {
    if s == "" then [] else Split(s, ':')
  }

  /** A match covers a run of zero groups and the colons around it. */
  ghost predicate CoversZeros(s: string, m: Match) {
    && m.index < m.end <= |s|
    && (m.index == 0 || s[m.index] == ':') && (m.end == |s| || s[m.end - 1] == ':')
    && exists n: nat :: 0 < n && Split(s, ':') == Side(s[..m.index]) + Zeros(n) + Side(s[m.end..])
  }

  lemma {:induction false} ExecMatches(s: string, from: nat)
    requires from <= |s| && Exec(s, from).Some?
    ensures MatchEnd(s, Exec(s, from).value.index) == Some(Exec(s, from).value.end)
    decreases |s| - from
  {
    if MatchEnd(s, from).None? {
      ExecMatches(s, from + 1);
    }
  }

  lemma {:induction false} ExecLeftmost(s: string, from: nat, i: nat)
    requires from <= |s| && Exec(s, from).Some? && from <= i < Exec(s, from).value.index
    ensures MatchEnd(s, i).None?
    decreases |s| - from
  {
    if from < i {
      ExecLeftmost(s, from + 1, i);
    }
  }

  lemma Around(before: string, left: string, core: string, tail: string, after: string)
    requires left == (if before == "" then "" else ":") && tail == (if after == "" then "" else ":")
    ensures var right := if after == "" then core else core + [':'] + after;
            before + (left + core + tail + after) == if before == "" then right else before + [':'] + right
  {
    var right := if after == "" then core else core + [':'] + after;
    assert core + tail + after == right;
    assert left + core + tail + after == left + (core + tail + after);
    assert before + (left + right) == before + left + right;
  }

  /** A run of zeros between its surroundings. */
  lemma RunCovers(s: string, m: Match, core: string)
    requires m.index < m.end <= |s|
    requires s[m.index..m.end] == (if m.index == 0 then "" else ":") + core + (if m.end == |s| then "" else ":")
    requires Split(core, ':') == Zeros(|Split(core, ':')|)
    ensures CoversZeros(s, m)
  {
    hide Split;
    var before, after := s[..m.index], s[m.end..];
    var n := |Split(core, ':')|;
    var right := if m.end == |s| then core else core + [':'] + after;
    var left, tail := if m.index == 0 then "" else ":", if m.end == |s| then "" else ":";
    assert s == before + (s[m.index..m.end] + after);
    Around(before, left, core, tail, after);
    RunBetween(before, core, after, n, right, s);
  }

  lemma RunBetween(before: string, core: string, after: string, n: nat, right: string, s: string)
    requires Split(core, ':') == Zeros(n)
    requires right == if after == "" then core else core + [':'] + after
    requires s == if before == "" then right else before + [':'] + right
    ensures Split(s, ':') == Side(before) + Zeros(n) + Side(after)
  {
    hide Split;
    if after != "" {
      SplitConcat(core, after, ':');
    }
    assert Split(right, ':') == Zeros(n) + Side(after);
    if before != "" {
      SplitConcat(before, right, ':');
    }
  }

  /** A match takes the colon in front of its run with it. */
  lemma MatchTakesColon(s: string, from: nat, m: Match)
    requires Spelled(s) && Resumable(s, from) && from <= m.index <= |s| && MatchEnd(s, m.index) == Some(m.end)
    requires from < m.index ==> MatchEnd(s, m.index - 1).None?
    ensures m.index == 0 || s[m.index] == ':'
  {
    assert 0 < m.index ==> IsHex(s[m.index - 1]) || s[m.index - 1] == ':';
  }

  lemma SpelledEnds(s: string)
    requires Spelled(s)
    ensures s != "" && s[0] != ':' && s[|s| - 1] != ':'
  {
  }

  /** The next match, if any, covers a run of zero groups with its colons, and the search resumes
      behind it. */
  lemma ExecCovers(s: string, from: nat)
    requires Spelled(s) && Resumable(s, from) && Exec(s, from).Some?
    ensures CoversZeros(s, Exec(s, from).value) && Resumable(s, Exec(s, from).value.end)
  {
    hide Split, Exec, CoversZeros, ZeroTail, Spelled;
    var m := Exec(s, from).value;
    ExecMatches(s, from);
    if from < m.index {
      ExecLeftmost(s, from, m.index - 1);
    }
    MatchTakesColon(s, from, m);
    var j := if s[m.index] == ':' then m.index + 1 else m.index;
    var end := ZeroTail(s, j + 1);
    ZeroTailSplits(s, j);
    SpelledEnds(s);
    assert s[m.index..m.end] == (if m.index == 0 then "" else ":") + s[j..end] + (if m.end == |s| then "" else ":");
    RunCovers(s, m, s[j..end]);
  }

  /** Whatever match is chosen covers a run of zero groups. */
  lemma {:induction false} LongestCovers(s: string, from: nat, best: Match)
    requires Spelled(s) && from <= |s| && Resumable(s, from)
    requires best.Length() == 0 || CoversZeros(s, best)
    ensures var m := Longest(s, from, best); m.Length() == 0 || CoversZeros(s, m)
    decreases |s| - from
  {
    if Exec(s, from).Some? {
      var m := Exec(s, from).value;
      ExecCovers(s, from);
      LongestCovers(s, m.end, if m.Length() > best.Length() then m else best);
    }
  }

  /** All matches from `from` on, in order. */
  function Matches(s: string, from: nat): seq<Match>
    requires from <= |s|
    decreases |s| - from
  {
    match Exec(s, from)
    case None => []
    case Some(m) => [m] + Matches(s, m.end)
  }

  /** `m` is in the list, nothing in it is longer, and nothing before it is as long. */
  ghost predicate FirstLongest(list: seq<Match>, m: Match) {
    exists k: nat :: FirstLongestAt(list, m, k)
  }

  ghost predicate FirstLongestAt(list: seq<Match>, m: Match, k: nat) {
    && k < |list| && list[k] == m
    && (forall j: nat :: j < |list| ==> list[j].Length() <= m.Length())
    && (forall j: nat :: j < k ==> list[j].Length() < m.Length())
  }

  /** The loop keeps the first of the longest matches. */
  lemma {:induction false} KeepsFirstLongest(s: string, from: nat, best: Match)
    requires from <= |s|
    ensures var r, list := Longest(s, from, best), Matches(s, from);
            if exists m :: m in list && best.Length() < m.Length() then FirstLongest(list, r) else r == best
    decreases |s| - from
  {
    hide Exec;
    if Exec(s, from).Some? {
      var m := Exec(s, from).value;
      var better := if m.Length() > best.Length() then m else best;
      var rest := Matches(s, m.end);
      KeepsFirstLongest(s, m.end, better);
      PrependMatch(rest, m, best, better, Longest(s, m.end, better));
    }
  }

  lemma PrependMatch(rest: seq<Match>, m: Match, best: Match, better: Match, r: Match)
    requires better == if m.Length() > best.Length() then m else best
    requires if exists x :: x in rest && better.Length() < x.Length() then FirstLongest(rest, r) else r == better
    ensures if exists x :: x in [m] + rest && best.Length() < x.Length() then FirstLongest([m] + rest, r) else r == best
  {
    hide FirstLongestAt;
    var list := [m] + rest;
    assert list[0] == m;
    if x :| x in rest && better.Length() < x.Length() {
      var k: nat :| FirstLongestAt(rest, r, k);
      assert x in list;
      LongestBehind(rest, m, r, k, x);
    } else if m.Length() > best.Length() {
      assert m in list;
      LongestInFront(rest, m);
    }
  }

  lemma LongestBehind(rest: seq<Match>, m: Match, r: Match, k: nat, x: Match)
    requires FirstLongestAt(rest, r, k) && x in rest && m.Length() < x.Length()
    ensures FirstLongestAt([m] + rest, r, k + 1)
  {
    var list := [m] + rest;
    assert forall j: nat :: 0 < j < |list| ==> list[j] == rest[j - 1];
  }

  lemma LongestInFront(rest: seq<Match>, m: Match)
    requires forall x :: x in rest ==> x.Length() <= m.Length()
    ensures FirstLongestAt([m] + rest, m, 0)
  {
    var list := [m] + rest;
    assert forall j: nat :: 0 < j < |list| ==> list[j] == rest[j - 1] && list[j] in rest;
  }

  lemma {:induction false} ExecNone(s: string, from: nat, i: nat)
    requires from <= i <= |s| && Exec(s, from).None?
    ensures MatchEnd(s, i).None?
    decreases |s| - from
  {
    if from < i {
      ExecNone(s, from + 1, i);
    }
  }

  lemma ZeroGroupMatches(s: string, k: nat)
    requires k < |s| && s[k] == '0' && (k == 0 || s[k - 1] == ':')
    ensures MatchEnd(s, k).Some?
  {
  }

  /** Every zero group lies in a match. */
  lemma {:induction false} MatchesCover(s: string, from: nat, k: nat)
    requires from <= k < |s| && s[k] == '0' && (k == 0 || s[k - 1] == ':')
    ensures exists m :: m in Matches(s, from) && m.index <= k < m.end
    decreases |s| - from
  {
    hide MatchEnd, Exec;
    ZeroGroupMatches(s, k);
    if Exec(s, from).None? {
      ExecNone(s, from, k);
    } else {
      var m := Exec(s, from).value;
      if k < m.index {
        ExecLeftmost(s, from, k);
      }
      if m.end <= k {
        MatchesCover(s, m.end, k);
        var n :| n in Matches(s, m.end) && n.index <= k < n.end;
        assert n in Matches(s, from);
      } else {
        assert m in Matches(s, from);
      }
    }
  }

  lemma {:induction false} MatchesNonEmpty(s: string, from: nat)
    requires from <= |s|
    ensures forall m :: m in Matches(s, from) ==> from <= m.index < m.end <= |s|
    decreases |s| - from
  {
    hide Exec;
    if Exec(s, from).Some? {
      MatchesNonEmpty(s, Exec(s, from).value.end);
    }
  }

  lemma {:induction false} MatchesAreRuns(s: string, from: nat)
    requires Spelled(s) && from <= |s| && Resumable(s, from)
    ensures forall m :: m in Matches(s, from) ==> CoversZeros(s, m) && (m.end < |s| ==> s[m.end] != '0')
    decreases |s| - from
  {
    hide Exec, CoversZeros, Spelled;
    if Exec(s, from).Some? {
      ExecCovers(s, from);
      MatchesAreRuns(s, Exec(s, from).value.end);
    }
  }

  ghost predicate ZeroGroupAt(s: string, k: nat) {
    k < |s| && s[k] == '0' && (k == 0 || s[k - 1] == ':')
  }

  /** The matches are the runs of zero groups: each covers only such groups, goes on to a group that is not
      zero, and every zero group lies in one. */
  ghost predicate AreZeroRuns(s: string, runs: seq<Match>) {
    && (forall m :: m in runs ==> CoversZeros(s, m) && (m.end < |s| ==> s[m.end] != '0'))
    && (forall k: nat :: ZeroGroupAt(s, k) ==> exists m :: m in runs && m.index <= k < m.end)
  }

  /** The first of the longest runs is replaced by `::`. */
  ghost predicate Abbreviates(s: string, runs: seq<Match>, text: string) {
    exists m :: FirstLongest(runs, m) && m.index < m.end <= |s| && text == s[..m.index] + "::" + s[m.end..]
  }

  /** What is printed: the plain text with the first of the longest runs of zero groups replaced by `::`, or
      the plain text itself if no group is zero. */
  lemma PrintsCompressed(value: seq<nat>)
    requires IsAddress(value)
    ensures Split(Plain(value), ':') == Spell(Groups(value))
    ensures AreZeroRuns(Plain(value), Matches(Plain(value), 0))
    ensures if Matches(Plain(value), 0) == [] then Text(value) == Plain(value)
            else Abbreviates(Plain(value), Matches(Plain(value), 0), Text(value))
  {
    hide Plain, Compress, Groups, Spell, Split, Spelled, AllGroups, AreZeroRuns, Abbreviates, Matches;
    PlainGroups(value);
    MatchesAreZeroRuns(Plain(value));
    CompressAbbreviates(Plain(value));
  }

  lemma MatchesAreZeroRuns(s: string)
    requires Spelled(s)
    ensures AreZeroRuns(s, Matches(s, 0))
  {
    hide CoversZeros, Spelled, Exec, Matches;
    MatchesAreRuns(s, 0);
    forall k: nat | ZeroGroupAt(s, k) ensures exists m :: m in Matches(s, 0) && m.index <= k < m.end {
      MatchesCover(s, 0, k);
    }
  }

  lemma CompressAbbreviates(s: string)
    ensures if Matches(s, 0) == [] then Compress(s) == s else Abbreviates(s, Matches(s, 0), Compress(s))
  {
    hide Exec, FirstLongest, Matches, Longest, Compress;
    LongestChosen(s);
    CompressWith(s, Longest(s, 0, Match(0, 0)));
  }

  lemma LongestChosen(s: string)
    ensures var runs, m := Matches(s, 0), Longest(s, 0, Match(0, 0));
            if runs == [] then m == Match(0, 0) else FirstLongest(runs, m) && m.index < m.end <= |s|
  {
    hide Exec, FirstLongest, Matches, Longest;
    MatchesNonEmpty(s, 0);
    KeepsFirstLongest(s, 0, Match(0, 0));
    var runs, m := Matches(s, 0), Longest(s, 0, Match(0, 0));
    if runs != [] {
      assert runs[0] in runs && Match(0, 0).Length() < runs[0].Length();
      FirstLongestIn(runs, m);
    }
  }

  lemma FirstLongestIn(list: seq<Match>, m: Match)
    requires FirstLongest(list, m)
    ensures m in list
  {
  }

  // ---- parsing

  /** Dropping one empty end piece on each side leaves one empty piece for the compressed run. */
  lemma StrippedSides(x: seq<string>, y: seq<string>)
    requires "" !in x && "" !in y
    ensures Stripped((if x == [] then [""] else x) + ([""] + if y == [] then [""] else y)) == x + [""] + y
  {
    var left := if x == [] then [""] else x;
    var pieces := left + ([""] + if y == [] then [""] else y);
    LastDropped(left, y);
    FirstDropped(x, [""] + y);
    assert left + [""] + y == left + ([""] + y) && x + [""] + y == x + ([""] + y);
  }

  lemma LastDropped(left: seq<string>, y: seq<string>)
    requires "" !in y
    ensures var pieces := left + ([""] + if y == [] then [""] else y);
            (if pieces[|pieces| - 1] == "" then pieces[..|pieces| - 1] else pieces) == left + [""] + y
  {
    assert y != [] ==> y[|y| - 1] in y;
  }

  lemma FirstDropped(x: seq<string>, rest: seq<string>)
    requires "" !in x && rest != []
    ensures var pieces := (if x == [] then [""] else x) + rest;
            (if pieces[0] == "" then pieces[1..] else pieces) == x + rest
  {
    assert x != [] ==> x[0] in x;
  }

  /** The pieces around a compressed run are recovered. */
  lemma CompressedSections(before: string, after: string)
    requires "" !in Side(before) && "" !in Side(after)
    ensures Stripped(Split(before + "::" + after, ':')) == Side(before) + [""] + Side(after)
  {
    SplitPlain("", ':');
    hide Split, Stripped;
    assert before + "::" + after == before + [':'] + ("" + [':'] + after);
    SplitConcat(before, "" + [':'] + after, ':');
    SplitConcat("", after, ':');
    StrippedSides(Side(before), Side(after));
  }

  /** The bytes of 16-bit groups, most significant first. */
  function Halves(groups: seq<nat>): seq<nat> {
    if groups == [] then [] else [groups[0] / 256, groups[0] % 256] + Halves(groups[1..])
  }

  lemma {:induction false} BytesOfGroups(groups: seq<nat>, pieces: seq<string>)
    requires |pieces| == |groups|
    requires forall i :: 0 <= i < |groups| ==> groups[i] <= 0xffff && ParseInt(pieces[i]) == Some(groups[i])
    ensures Bytes(pieces) == Some(Halves(groups))
  {
    hide ParseInt;
    if groups != [] {
      BytesOfGroups(groups[1..], pieces[1..]);
    }
  }

  lemma {:induction false} HalvesAt(groups: seq<nat>, i: nat)
    requires i < |groups|
    ensures |Halves(groups)| == 2 * |groups|
    ensures Halves(groups)[2 * i] == groups[i] / 256 && Halves(groups)[2 * i + 1] == groups[i] % 256
  {
    if 0 < i {
      HalvesAt(groups[1..], i - 1);
    } else if 1 < |groups| {
      HalvesAt(groups[1..], 0);
    }
  }

  /** The spelled groups of an address parse back to its bytes. */
  lemma AddressOfGroups(value: seq<nat>)
    requires IsAddress(value)
    ensures Bytes(Spell(Groups(value))) == Some(value)
  {
    hide Bytes, Hex, ParseInt;
    var groups, pieces := Groups(value), Spell(Groups(value));
    forall i | 0 <= i < 8 ensures groups[i] <= 0xffff && ParseInt(pieces[i]) == Some(groups[i]) {
      SplitsBack(value, i);
      ParseHex(groups[i]);
    }
    BytesOfGroups(groups, pieces);
    HalvesAt(groups, 0);
    forall k | 0 <= k < 16 ensures Halves(groups)[k] == value[k] {
      HalvesAt(groups, k / 2);
      SplitsBack(value, k / 2);
    }
    assert Halves(groups) == value;
  }

  lemma SplitsBack(value: seq<nat>, i: nat)
    requires IsAddress(value) && i < 8
    ensures var g := Groups(value)[i]; g <= 0xffff && g / 256 == value[2 * i] && g % 256 == value[2 * i + 1]
  {
    assert value[2 * i] in value && value[2 * i + 1] in value;
  }

  /** The plain text consists of eight groups. */
  lemma PlainGroups(value: seq<nat>)
    requires IsAddress(value)
    ensures Spelled(Plain(value)) && Split(Plain(value), ':') == Spell(Groups(value))
    ensures AllGroups(Spell(Groups(value)))
  {
    hide Hex, Split, Join, IsGroup;
    var groups, pieces := Groups(value), Spell(Groups(value));
    forall p | p in pieces ensures IsGroup(p) && ':' !in p {
      var i :| 0 <= i < 8 && pieces[i] == p;
      SplitsBack(value, i);
      HexGroup(groups[i]);
      GroupPlain(p);
    }
    JoinSpelled(pieces);
    SplitJoin(pieces, ':');
  }

  lemma GroupPlain(p: string)
    requires IsGroup(p)
    ensures p != "" && ':' !in p
  {
  }

  /** Round trip: the printed text of any address parses back to exactly its bytes, whichever zero
      run is compressed, or none. */
  lemma RoundTrip(value: seq<nat>)
    requires IsAddress(value)
    ensures Parse(Text(value)) == Address(value)
  {
    hide Plain, Compress, Groups, Spell, Split, Bytes, Parse, Spelled, AllGroups;
    PlainGroups(value);
    AddressOfGroups(value);
    GroupsParse(Plain(value), Spell(Groups(value)), value);
  }

  lemma GroupsParse(s: string, pieces: seq<string>, value: seq<nat>)
    requires Spelled(s) && Split(s, ':') == pieces && |pieces| == 8 && AllGroups(pieces) && Bytes(pieces) == Some(value)
    ensures Parse(Compress(s)) == Address(value)
  {
    hide Split, Bytes, Parse, Longest, CoversZeros, Spelled, IsGroup;
    assert "" !in pieces by {
      assert forall p :: p in pieces ==> IsGroup(p);
      if "" in pieces {
        GroupPlain("");
      }
    }
    var m := CompressCovers(s);
    if m.Length() == 0 {
      PlainParses(s, pieces, value);
    } else {
      CompressedParses(s, m, pieces, value);
    }
  }

  lemma ChosenCovers(s: string, m: Match)
    requires Spelled(s) && m == Longest(s, 0, Match(0, 0))
    ensures m.Length() == 0 || CoversZeros(s, m)
  {
    hide Longest, Split, Spelled, CoversZeros;
    LongestCovers(s, 0, Match(0, 0));
  }

  /** The printer either leaves a text alone or replaces one run of zero groups. */
  lemma CompressCovers(s: string) returns (m: Match)
    requires Spelled(s)
    ensures m.Length() == 0 ==> Compress(s) == s
    ensures m.Length() != 0 ==>
              CoversZeros(s, m) && m.index < m.end <= |s| && Compress(s) == s[..m.index] + "::" + s[m.end..]
  {
    hide Longest, Split, Spelled, CoversZeros, Compress;
    m := Longest(s, 0, Match(0, 0));
    ChosenCovers(s, m);
    if m.Length() != 0 {
      CoversBounds(s, m);
    }
    CompressWith(s, m);
  }

  lemma CompressWith(s: string, m: Match)
    requires m == Longest(s, 0, Match(0, 0))
    ensures m.Length() == 0 ==> Compress(s) == s
    ensures m.index < m.end <= |s| ==> Compress(s) == s[..m.index] + "::" + s[m.end..]
  {
    hide Longest;
  }

  lemma CoversBounds(s: string, m: Match)
    requires CoversZeros(s, m)
    ensures m.index < m.end <= |s|
  {
  }

  lemma PlainParses(s: string, pieces: seq<string>, value: seq<nat>)
    requires |pieces| == 8 && "" !in pieces && Split(s, ':') == pieces && Bytes(pieces) == Some(value)
    ensures Parse(s) == Address(value)
  {
    hide Bytes, Stripped;
    PlainSections(pieces);
  }

  lemma CompressedParses(s: string, m: Match, pieces: seq<string>, value: seq<nat>)
    requires |pieces| == 8 && "" !in pieces && Split(s, ':') == pieces && Bytes(pieces) == Some(value)
    requires CoversZeros(s, m)
    ensures Parse(s[..m.index] + "::" + s[m.end..]) == Address(value)
  {
    hide Split, Bytes, Stripped;
    var before, after := s[..m.index], s[m.end..];
    var n: nat :| 0 < n && Split(s, ':') == Side(before) + Zeros(n) + Side(after);
    CompressedSections(before, after);
    Padded(Side(before), Side(after), n);
  }

  lemma PlainSections(pieces: seq<string>)
    requires |pieces| == 8 && "" !in pieces
    ensures Stripped(pieces) == pieces && IndexOf(pieces, "").None?
  {
    assert pieces[0] in pieces && pieces[7] in pieces;
  }

  /** Eight groups of which `n` were compressed: the parser pads with exactly those. */
  lemma Padded(x: seq<string>, y: seq<string>, n: nat)
    requires |x| + n + |y| == 8 && "" !in x && "" !in y
    ensures var sections := x + [""] + y;
            var pad := IndexOf(sections, "");
            && pad == Some(|x|) && |sections| <= 9
            && sections[..pad.value] + Zeros(9 - |sections|) + sections[pad.value + 1..] == x + Zeros(n) + y
  {
    var sections := x + [""] + y;
    var pad := IndexOf(sections, "");
    assert sections[|x|] == "" && sections[..|x|] == x && sections[|x| + 1..] == y;
  }

  /** The text form of RFC 4291, section 2.2: eight groups of one to four hexadecimal digits, or
      fewer with one `::` standing for at least one group of zeros. */
  ghost predicate IsTextForm(t: string) {
    || (exists x: seq<string> :: |x| == 8 && AllGroups(x) && t == Join(x, ':'))
    || (exists x: seq<string>, y: seq<string> ::
          |x| + |y| <= 7 && AllGroups(x) && AllGroups(y) && t == Join(x, ':') + "::" + Join(y, ':'))
  }

  ghost predicate AllGroups(pieces: seq<string>) {
    forall p :: p in pieces ==> IsGroup(p)
  }

  lemma SideJoins(s: string)
    ensures Join(Side(s), ':') == s
  {
    JoinSplit(s, ':');
  }

  /** What is printed is in text form, with `::` in at most one place. */
  lemma PrintsTextForm(value: seq<nat>)
    requires IsAddress(value)
    ensures IsTextForm(Text(value)) && OnePlace(Text(value))
  {
    hide Plain, Compress, Groups, Spell, Split, Spelled, AllGroups, IsTextForm, OnePlace;
    PlainGroups(value);
    GroupsForm(Plain(value), Spell(Groups(value)));
  }

  ghost predicate OnePlace(t: string) {
    forall j: nat, k: nat :: DoubleColonAt(t, j) && DoubleColonAt(t, k) ==> j == k
  }

  lemma GroupsForm(s: string, pieces: seq<string>)
    requires Spelled(s) && Split(s, ':') == pieces && |pieces| == 8 && AllGroups(pieces)
    ensures IsTextForm(Compress(s)) && OnePlace(Compress(s))
  {
    hide Split, Longest, CoversZeros, Spelled, AllGroups, IsTextForm, OnePlace;
    var m := CompressCovers(s);
    if m.Length() == 0 {
      PlainForm(s, pieces);
    } else {
      CompressedForm(s, m, pieces);
    }
  }

  lemma PlainForm(s: string, pieces: seq<string>)
    requires Spelled(s) && |pieces| == 8 && AllGroups(pieces) && Split(s, ':') == pieces
    ensures IsTextForm(s) && OnePlace(s)
  {
    hide Split, Join;
    JoinSplit(s, ':');
  }

  lemma CompressedForm(s: string, m: Match, pieces: seq<string>)
    requires Spelled(s) && |pieces| == 8 && AllGroups(pieces) && Split(s, ':') == pieces && CoversZeros(s, m)
    ensures var t := s[..m.index] + "::" + s[m.end..];
            IsTextForm(t) && OnePlace(t)
  {
    hide Split, Join;
    var before, after := s[..m.index], s[m.end..];
    var n: nat :| 0 < n && Split(s, ':') == Side(before) + Zeros(n) + Side(after);
    SideJoins(before);
    SideJoins(after);
    assert AllGroups(Side(before)) && AllGroups(Side(after)) by {
      assert forall p :: p in Side(before) || p in Side(after) ==> p in pieces;
    }
    var t := before + "::" + after;
    assert t == Join(Side(before), ':') + "::" + Join(Side(after), ':');
    forall k: nat | DoubleColonAt(t, k) ensures k == m.index {
      OneDoubleColon(s, m, k);
    }
  }

  lemma OneDoubleColon(s: string, m: Match, k: nat)
    requires Spelled(s) && m.index < m.end <= |s|
    requires (m.index == 0 || s[m.index] == ':') && (m.end == |s| || s[m.end - 1] == ':')
    requires DoubleColonAt(s[..m.index] + "::" + s[m.end..], k)
    ensures k == m.index
  {
    assert k < m.index ==> DoubleColonAt(s, k);
    assert m.index < k ==> DoubleColonAt(s, k - m.index - 2 + m.end);
  }

  // ---- every text form

  const LOWER := "0123456789abcdef"
  const UPPER := "0123456789ABCDEF"

  /** A digit stands for its position among the digits of its case. */
  ghost predicate IsDigit(c: char, d: nat) {
    d < 16 && (LOWER[d] == c || UPPER[d] == c)
  }

  ghost predicate HasNumber(c: char) {
    exists d: nat :: IsDigit(c, d)
  }

  ghost function DigitNumber(c: char): nat
    requires HasNumber(c)
  {
    var d: nat :| IsDigit(c, d);
    d
  }

  /** The parser reads exactly these digits as these numbers. */
  lemma DigitIsRead(c: char)
    ensures HasNumber(c) <==> DigitValue(c).Some?
    ensures HasNumber(c) ==> DigitValue(c) == Some(DigitNumber(c))
  {
    hide DigitValue, IsDigit;
    forall d: nat ensures DigitValue(c) == Some(d) <==> IsDigit(c, d) {
      DigitMeans(c, d);
    }
    if DigitValue(c).Some? {
      assert IsDigit(c, DigitValue(c).value);
    }
  }


  lemma DigitMeans(c: char, d: nat)
    ensures DigitValue(c) == Some(d) <==> IsDigit(c, d)
  {
    hide DigitValue;
    if d < 16 {
      DigitsInOrder(d);
      LowerOrDecimal(c, d);
    } else {
      DigitBelow(c);
    }
  }

  lemma DigitBelow(c: char)
    ensures DigitValue(c).Some? ==> DigitValue(c).value < 16
  {
  }

  lemma DigitsInOrder(d: nat)
    requires d < 16
    ensures LOWER[d] as int == (if d < 10 then 48 + d else 87 + d)
    ensures UPPER[d] as int == (if d < 10 then 48 + d else 55 + d)
  {
  }

  lemma LowerOrDecimal(c: char, d: nat)
    requires d < 16
    ensures DigitValue(c) == Some(d)
       <==> (if d < 10 then c as int == 48 + d else c as int == 87 + d || c as int == 55 + d)
  {
  }

  /** One to four hexadecimal digits of either case, with any leading zeros. */
  ghost predicate IsField(p: string) {
    1 <= |p| <= 4 && forall k :: 0 <= k < |p| ==> HasNumber(p[k])
  }

  ghost predicate AllFields(pieces: seq<string>) {
    forall i :: 0 <= i < |pieces| ==> IsField(pieces[i])
  }

  /** The number a field writes: each digit counts sixteen times the one behind it. */
  ghost function Number(p: string): nat {
    if p == "" then 0
    else
      var last := p[|p| - 1];
      16 * Number(p[..|p| - 1]) + if HasNumber(last) then DigitNumber(last) else 0
  }

  ghost function Numbers(x: seq<string>): (numbers: seq<nat>)
    ensures |numbers| == |x| && forall i :: 0 <= i < |x| ==> numbers[i] == Number(x[i])
  {
    seq(|x|, i requires 0 <= i < |x| => Number(x[i]))
  }

  ghost function Nothing(n: nat): (numbers: seq<nat>)
    ensures |numbers| == n && forall i :: 0 <= i < n ==> numbers[i] == 0
  {
    seq(n, _ => 0)
  }

  /** What a text means by section 2.2 of RFC 4291: the numbers of its eight fields, or of those around
      `::`, which stands for the groups of zeros that are missing. */
  ghost predicate Denotes(t: string, value: seq<nat>) {
    || (exists x: seq<string> :: DenotesPlain(x, t, value))
    || (exists x: seq<string>, y: seq<string> :: DenotesCompressed(x, y, t, value))
  }

  ghost predicate DenotesPlain(x: seq<string>, t: string, value: seq<nat>) {
    |x| == 8 && AllFields(x) && t == Join(x, ':') && value == Halves(Numbers(x))
  }

  ghost predicate DenotesCompressed(x: seq<string>, y: seq<string>, t: string, value: seq<nat>) {
    && |x| + |y| <= 7 && AllFields(x) && AllFields(y) && t == Join(x, ':') + "::" + Join(y, ':')
    && value == Halves(Numbers(x) + Nothing(8 - |x| - |y|) + Numbers(y))
  }

  lemma {:induction false} NumberIsRead(p: string)
    requires forall k :: 0 <= k < |p| ==> HasNumber(p[k])
    ensures (forall k :: 0 <= k < |p| ==> DigitValue(p[k]).Some?) && ReadDigits(p, 0) == Number(p)
  {
    hide DigitValue, HasNumber, DigitNumber;
    forall k | 0 <= k < |p| ensures DigitValue(p[k]).Some? {
      DigitIsRead(p[k]);
    }
    if p != "" {
      var front, last := p[..|p| - 1], p[|p| - 1];
      DigitIsRead(last);
      NumberIsRead(front);
      ReadAppend(front, last, 0);
      assert p == front + [last];
    }
  }

  lemma {:induction false} NumberBound(p: string, bound: nat)
    requires p == "" ==> 1 <= bound
    requires p != "" ==> bound % 16 == 0
    requires |p| <= 4 && bound == [1, 0x10, 0x100, 0x1000, 0x10000][|p|]
    ensures Number(p) < bound
  {
    if p != "" {
      NumberBound(p[..|p| - 1], [1, 0x10, 0x100, 0x1000, 0x10000][|p| - 1]);
    }
  }

  lemma FieldParses(p: string)
    requires IsField(p)
    ensures ParseInt(p) == Some(Number(p)) && Number(p) <= 0xffff
  {
    hide ParseInt, ReadDigits, Number, DigitValue, HasNumber;
    NumberIsRead(p);
    ParseDigits(p);
    NumberBound(p, [1, 0x10, 0x100, 0x1000, 0x10000][|p|]);
  }

  lemma FieldPlain(p: string)
    requires IsField(p)
    ensures p != "" && ':' !in p
  {
    hide DigitValue;
    if ':' in p {
      var k: nat :| k < |p| && p[k] == ':';
      DigitIsRead(':');
      ColonNoDigit();
      assert false;
    }
  }

  lemma ColonNoDigit()
    ensures DigitValue(':').None?
  {
  }

  /** Fields joined are split into the same fields. */
  lemma FieldsSplit(x: seq<string>)
    requires AllFields(x)
    ensures "" !in x && Side(Join(x, ':')) == x && (x != [] ==> Split(Join(x, ':'), ':') == x)
  {
    hide IsField, Split;
    forall p | p in x ensures p != "" && ':' !in p {
      FieldPlain(p);
    }
    SplitJoin(x, ':');
    if x != [] {
      assert x[0] in x;
    }
  }

  lemma PlainFormParses(x: seq<string>, t: string, value: seq<nat>)
    requires DenotesPlain(x, t, value)
    ensures Parse(t) == Address(value)
  {
    hide Split, Bytes, Parse, ParseInt, Number, Join, IsField;
    FieldsSplit(x);
    forall i | 0 <= i < 8 ensures Number(x[i]) <= 0xffff && ParseInt(x[i]) == Some(Number(x[i])) {
      FieldParses(x[i]);
    }
    BytesOfGroups(Numbers(x), x);
    PlainParses(t, x, value);
  }

  lemma CompressedFormParses(x: seq<string>, y: seq<string>, t: string, value: seq<nat>)
    requires DenotesCompressed(x, y, t, value)
    ensures Parse(t) == Address(value)
  {
    hide Split, Bytes, ParseInt, Number, Join, IsField, Stripped;
    FieldsSplit(x);
    FieldsSplit(y);
    CompressedSections(Join(x, ':'), Join(y, ':'));
    var n := 8 - |x| - |y|;
    Padded(x, y, n);
    PaddedBytes(x, y, n);
  }

  lemma PaddedBytes(x: seq<string>, y: seq<string>, n: nat)
    requires AllFields(x) && AllFields(y)
    ensures Bytes(x + Zeros(n) + y) == Some(Halves(Numbers(x) + Nothing(n) + Numbers(y)))
  {
    hide Bytes, ParseInt, Number, IsField;
    var pieces, numbers := x + Zeros(n) + y, Numbers(x) + Nothing(n) + Numbers(y);
    assert Hex(0) == "0";
    ParseHex(0);
    forall i | 0 <= i < |pieces| ensures numbers[i] <= 0xffff && ParseInt(pieces[i]) == Some(numbers[i]) {
      if i < |x| {
        FieldParses(x[i]);
      } else if i < |x| + n {
        assert pieces[i] == "0" && numbers[i] == 0;
      } else {
        FieldParses(y[i - |x| - n]);
      }
    }
    BytesOfGroups(numbers, pieces);
  }

  /** Every text of that form, in either case and with leading zeros, is parsed to the address it denotes. */
  lemma ParsesDenoted(t: string, value: seq<nat>)
    requires Denotes(t, value)
    ensures Parse(t) == Address(value)
  {
    hide DenotesPlain, DenotesCompressed, Parse;
    if x :| DenotesPlain(x, t, value) {
      PlainFormParses(x, t, value);
    } else {
      var x, y :| DenotesCompressed(x, y, t, value);
      CompressedFormParses(x, y, t, value);
    }
  }

  lemma GroupsAreFields(pieces: seq<string>)
    requires AllGroups(pieces)
    ensures AllFields(pieces)
  {
    forall i | 0 <= i < |pieces| ensures IsField(pieces[i]) {
      assert pieces[i] in pieces && IsGroup(pieces[i]);
      forall k | 0 <= k < |pieces[i]| ensures HasNumber(pieces[i][k]) {
        DigitIsRead(pieces[i][k]);
      }
    }
  }

  /** Every canonical text form denotes an address. */
  lemma TextFormDenotes(t: string) returns (value: seq<nat>)
    requires IsTextForm(t)
    ensures Denotes(t, value)
  {
    hide AllGroups, AllFields, Join;
    if x: seq<string> :| |x| == 8 && AllGroups(x) && t == Join(x, ':') {
      GroupsAreFields(x);
      value := Halves(Numbers(x));
      assert DenotesPlain(x, t, value);
    } else {
      var x: seq<string>, y: seq<string> :|
        |x| + |y| <= 7 && AllGroups(x) && AllGroups(y) && t == Join(x, ':') + "::" + Join(y, ':');
      GroupsAreFields(x);
      GroupsAreFields(y);
      value := Halves(Numbers(x) + Nothing(8 - |x| - |y|) + Numbers(y));
      assert DenotesCompressed(x, y, t, value);
    }
  }

  /** The printed text denotes the address. */
  lemma PrintsDenoting(value: seq<nat>)
    requires IsAddress(value)
    ensures Denotes(Text(value), value)
  {
    hide *;
    PrintsTextForm(value);
    RoundTrip(value);
    var denoted := TextFormDenotes(Text(value));
    ParsesDenoted(Text(value), denoted);
  }

  // ---- texts that are no text form

  /** What `parseInt` takes for a number: white space, a sign, a prefix, digits, and then anything that does not
      go on with a digit; without a prefix the digits are not the zero of one. */
  ghost predicate Numeral(s: string, space: string, sign: string, prefix: string, digits: string, rest: string) {
    && s == space + sign + prefix + digits + rest
    && (forall k :: 0 <= k < |space| ==> IsSpace(space[k]))
    && sign in {"", "+", "-"} && prefix in {"", "0x", "0X"}
    && digits != "" && (forall k :: 0 <= k < |digits| ==> HasNumber(digits[k]))
    && (rest != "" ==> !HasNumber(rest[0]))
    && (prefix == "" && digits == "0" && rest != "" ==> rest[0] != 'x' && rest[0] != 'X')
  }

  lemma {:induction false} TrimSpaces(space: string, s: string)
    requires forall k :: 0 <= k < |space| ==> IsSpace(space[k])
    requires s != "" ==> !IsSpace(s[0])
    ensures Trim(space + s) == s
  {
    hide IsSpace;
    if space == "" {
      assert space + s == s;
    } else {
      assert (space + s)[1..] == space[1..] + s;
      TrimSpaces(space[1..], s);
    }
  }

  lemma {:induction false} ReadStops(digits: string, rest: string, sofar: nat)
    requires forall k :: 0 <= k < |digits| ==> DigitValue(digits[k]).Some?
    requires rest != "" ==> DigitValue(rest[0]).None?
    ensures ReadDigits(digits + rest, sofar) == ReadDigits(digits, sofar)
  {
    hide DigitValue;
    if digits == "" {
      assert digits + rest == rest;
    } else {
      assert (digits + rest)[1..] == digits[1..] + rest;
      ReadStops(digits[1..], rest, sofar * 16 + DigitValue(digits[0]).value);
    }
  }

  /** A numeral is read as the number its digits write, negated by a minus. */
  lemma NumeralIsRead(s: string, space: string, sign: string, prefix: string, digits: string, rest: string)
    requires Numeral(s, space, sign, prefix, digits, rest)
    ensures ParseInt(s) == Some(if sign == "-" then 0 - Number(digits) else Number(digits))
  {
    hide IsSpace, DigitValue, HasNumber, DigitNumber, Number, ReadDigits, ParseInt, Trim;
    NumberIsRead(digits);
    DigitIsPlain(digits[0]);
    if rest != "" {
      DigitIsRead(rest[0]);
    }
    SignsAreNoDigits();
    ReadStops(digits, rest, 0);
    var u := prefix + digits + rest;
    assert u[0] == (if prefix == "" then digits[0] else '0');
    var t := sign + u;
    assert s == space + t;
    assert !IsSpace(t[0]) && t[0] == if sign == "" then u[0] else sign[0];
    TrimSpaces(space, t);
    assert sign != "" ==> t[1..] == u;
    PrefixDropped(prefix, digits, rest);
    assert (digits + rest)[0] == digits[0];
    PartsParsed(s, t, u, digits + rest);
  }

  lemma PartsParsed(s: string, t: string, u: string, d: string)
    requires t == Trim(s) && t != "" && u == if t[0] == '-' || t[0] == '+' then t[1..] else t
    requires d == if |u| >= 2 && u[0] == '0' && (u[1] == 'x' || u[1] == 'X') then u[2..] else u
    requires d != "" && DigitValue(d[0]).Some?
    ensures ParseInt(s) == Some(if t[0] == '-' then 0 - ReadDigits(d, 0) else ReadDigits(d, 0))
  {
    hide DigitValue, Trim, ReadDigits;
  }

  lemma SignsAreNoDigits()
    ensures !IsSpace('+') && !IsSpace('-') && !IsSpace('0')
    ensures DigitValue('+').None? && DigitValue('-').None? && DigitValue('x').None? && DigitValue('X').None?
  {
  }

  lemma PrefixDropped(prefix: string, digits: string, rest: string)
    requires prefix in {"", "0x", "0X"} && digits != "" && DigitValue('x').None? && DigitValue('X').None?
    requires forall k :: 0 <= k < |digits| ==> DigitValue(digits[k]).Some?
    requires prefix == "" && digits == "0" && rest != "" ==> rest[0] != 'x' && rest[0] != 'X'
    ensures var u := prefix + digits + rest;
            (if |u| >= 2 && u[0] == '0' && (u[1] == 'x' || u[1] == 'X') then u[2..] else u) == digits + rest
  {
    hide DigitValue;
    var u := prefix + digits + rest;
    if prefix == "" && 2 <= |u| {
      assert u[1] == if |digits| == 1 then rest[0] else digits[1];
    }
  }

  /** Whatever is read as a number is a numeral. */
  lemma ReadIsNumeral(s: string) returns (space: string, sign: string, prefix: string, digits: string, rest: string)
    ensures ParseInt(s).Some? ==> Numeral(s, space, sign, prefix, digits, rest)
  {
    hide IsSpace, DigitValue, HasNumber, ReadDigits, ParseInt, Numeral, Trim;
    space, sign, prefix, digits, rest := "", "", "", "", "";
    if ParseInt(s).Some? {
      ParsedParts(s);
      space := Spaces(s);
      var u, d;
      sign, u := SignOf(Trim(s));
      prefix, d := PrefixOf(u);
      digits, rest := DigitsOf(d);
      IsNumeral(s, space, sign, prefix, digits, rest, u);
    }
  }

  lemma DigitsOf(d: string) returns (digits: string, rest: string)
    ensures d == digits + rest && (d != "" && DigitValue(d[0]).Some? ==> digits != "")
    ensures (forall k :: 0 <= k < |digits| ==> HasNumber(digits[k])) && (rest != "" ==> !HasNumber(rest[0]))
  {
    hide HasNumber, DigitValue;
    var n := DigitRun(d);
    digits, rest := d[..n], d[n..];
  }

  lemma Regroup(a: string, b: string, c: string, d: string, e: string)
    ensures a + (b + (c + (d + e))) == a + b + c + d + e
  {
    assert c + (d + e) == c + d + e;
    assert b + (c + d + e) == b + c + d + e;
  }

  lemma SignOf(t: string) returns (sign: string, u: string)
    ensures t == sign + u && (sign == "" || (|sign| == 1 && (sign[0] == '-' || sign[0] == '+')))
    ensures u == if t != "" && (t[0] == '-' || t[0] == '+') then t[1..] else t
  {
    var n := if t != "" && (t[0] == '-' || t[0] == '+') then 1 else 0;
    sign, u := t[..n], t[n..];
  }

  lemma PrefixOf(u: string) returns (prefix: string, d: string)
    ensures u == prefix + d
    ensures prefix == if |u| >= 2 && u[0] == '0' && (u[1] == 'x' || u[1] == 'X') then u[..2] else ""
    ensures d == if |u| >= 2 && u[0] == '0' && (u[1] == 'x' || u[1] == 'X') then u[2..] else u
  {
    var n := if |u| >= 2 && u[0] == '0' && (u[1] == 'x' || u[1] == 'X') then 2 else 0;
    prefix, d := u[..n], u[n..];
  }

  lemma IsNumeral(s: string, space: string, sign: string, prefix: string, digits: string, rest: string, u: string)
    requires s == space + (sign + (prefix + (digits + rest))) && u == prefix + (digits + rest)
    requires forall k :: 0 <= k < |space| ==> IsSpace(space[k])
    requires sign == "" || (|sign| == 1 && (sign[0] == '-' || sign[0] == '+'))
    requires prefix == if |u| >= 2 && u[0] == '0' && (u[1] == 'x' || u[1] == 'X') then u[..2] else ""
    requires digits != "" && (forall k :: 0 <= k < |digits| ==> HasNumber(digits[k]))
    requires rest != "" ==> !HasNumber(rest[0])
    ensures Numeral(s, space, sign, prefix, digits, rest)
  {
    hide IsSpace, HasNumber;
    Regroup(space, sign, prefix, digits, rest);
    assert prefix != "" ==> prefix == "0x" || prefix == "0X";
    assert sign != "" ==> sign == "-" || sign == "+";
    assert prefix == "" && digits == "0" && rest != "" ==> u[1] == rest[0];
  }

  lemma ParsedParts(s: string)
    requires ParseInt(s).Some?
    ensures var t := Trim(s);
            var u := if t != "" && (t[0] == '-' || t[0] == '+') then t[1..] else t;
            var d := if |u| >= 2 && u[0] == '0' && (u[1] == 'x' || u[1] == 'X') then u[2..] else u;
            d != "" && DigitValue(d[0]).Some?
  {
    hide DigitValue, Trim, ReadDigits;
  }

  lemma {:induction false} Spaces(s: string) returns (space: string)
    ensures s == space + Trim(s) && forall k :: 0 <= k < |space| ==> IsSpace(space[k])
  {
    hide IsSpace;
    space := "";
    if s != "" && IsSpace(s[0]) {
      space := Spaces(s[1..]);
      space := [s[0]] + space;
    }
  }

  lemma {:induction false} DigitRun(d: string) returns (n: nat)
    ensures n <= |d| && (forall k :: 0 <= k < n ==> HasNumber(d[k])) && (n < |d| ==> !HasNumber(d[n]))
    ensures d != "" && DigitValue(d[0]).Some? ==> 0 < n
  {
    hide DigitValue, HasNumber;
    n := 0;
    if d != "" {
      DigitIsRead(d[0]);
      if HasNumber(d[0]) {
        n := DigitRun(d[1..]);
        n := n + 1;
      }
    }
  }

  /** Around `::` the parser takes eight fields as well. */
  lemma EightFields(x: seq<string>, y: seq<string>)
    requires AllFields(x) && AllFields(y) && |x| + |y| == 8
    ensures Parse(Join(x, ':') + "::" + Join(y, ':')) == Address(Halves(Numbers(x) + Numbers(y)))
  {
    hide Split, Bytes, Number, Join, IsField, Stripped, Parse, Halves, Side, Zeros;
    SidesAround(x, y);
    EightBytes(x, y);
    NothingPadded(Join(x, ':') + "::" + Join(y, ':'), x, y, Halves(Numbers(x) + Numbers(y)));
  }

  lemma EightBytes(x: seq<string>, y: seq<string>)
    requires AllFields(x) && AllFields(y)
    ensures Bytes(x + y) == Some(Halves(Numbers(x) + Numbers(y)))
  {
    hide Bytes, Number, IsField, Halves;
    PaddedBytes(x, y, 0);
    assert Numbers(x) + Nothing(0) + Numbers(y) == Numbers(x) + Numbers(y);
    NoZeros(x, y);
  }

  lemma SidesAround(x: seq<string>, y: seq<string>)
    requires AllFields(x) && AllFields(y)
    ensures "" !in x && "" !in y
    ensures Stripped(Split(Join(x, ':') + "::" + Join(y, ':'), ':')) == x + [""] + y
  {
    hide Split, Join, IsField, Stripped, Side;
    FieldsSplit(x);
    FieldsSplit(y);
    CompressedSections(Join(x, ':'), Join(y, ':'));
  }

  /** It fails with a range error on more. */
  lemma TooManyFields(x: seq<string>, y: seq<string>)
    requires AllFields(x) && AllFields(y) && 8 < |x| + |y|
    ensures Parse(Join(x, ':') + "::" + Join(y, ':')) == RangeError
  {
    hide Split, Bytes, Join, IsField, Stripped, Parse;
    SidesAround(x, y);
    RangeFails(Join(x, ':') + "::" + Join(y, ':'), x, y);
  }

  lemma NothingPadded(t: string, x: seq<string>, y: seq<string>, value: seq<nat>)
    requires |x| + |y| == 8 && "" !in x && "" !in y
    requires Stripped(Split(t, ':')) == x + [""] + y && Bytes(x + y) == Some(value)
    ensures Parse(t) == Address(value)
  {
    hide Split, Bytes, Stripped, Parse, IndexOf, Zeros;
    Padded(x, y, 0);
    assert x + Zeros(0) + y == x + y by {
      NoZeros(x, y);
    }
    FullParses(t, x + [""] + y, |x|, x + y, value);
  }

  lemma NoZeros(x: seq<string>, y: seq<string>)
    ensures x + Zeros(0) + y == x + y
  {
    assert Zeros(0) == [];
  }

  lemma FullParses(t: string, sections: seq<string>, pad: nat, full: seq<string>, value: seq<nat>)
    requires Stripped(Split(t, ':')) == sections && IndexOf(sections, "") == Some(pad) && |sections| <= 9
    requires full == sections[..pad] + Zeros(9 - |sections|) + sections[pad + 1..]
    requires |full| == 8 && Bytes(full) == Some(value)
    ensures Parse(t) == Address(value)
  {
    hide Split, Bytes, Stripped, IndexOf, Zeros;
  }

  lemma RangeFails(t: string, x: seq<string>, y: seq<string>)
    requires 8 < |x| + |y| && Stripped(Split(t, ':')) == x + [""] + y
    ensures Parse(t) == RangeError
  {
    hide Split, Bytes, Stripped;
    assert (x + [""] + y)[|x|] == "";
    assert "" in x + [""] + y;
  }

  /** Without `::` there must be exactly eight fields. */
  lemma WrongCount(x: seq<string>)
    requires AllFields(x) && x != [] && |x| != 8
    ensures Parse(Join(x, ':')) == Null
  {
    hide Split, Bytes, Join, IsField;
    FieldsSplit(x);
    assert x[0] in x && x[|x| - 1] in x;
  }
}
