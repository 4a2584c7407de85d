/** IPv6 addresses as text: the printer with zero-run compression and the parser with `::`
    expansion.  An address is a list of 16 bytes. */
module Ipv6 {
  import opened Common
  import opened Strings

  predicate IsAddress(value: seq<nat>) {
    |value| == 16 && forall b :: b in value ==> b < 256
  }

  const DIGITS := "0123456789abcdef"

  /** `n.toString(16)` */
  function Hex(n: nat): string {
    if n < 16 then [DIGITS[n]] else Hex(n / 16) + [DIGITS[n % 16]]
  }

  function Groups(value: seq<nat>): (groups: seq<nat>)
    requires IsAddress(value)
    ensures |groups| == 8
  {
    seq(8, i requires 0 <= i < 8 => value[2 * i] * 256 + value[2 * i + 1])
  }

  function Spell(groups: seq<nat>): (pieces: seq<string>)
    ensures |pieces| == |groups|
    ensures forall i :: 0 <= i < |groups| ==> pieces[i] == Hex(groups[i])
  {
    seq(|groups|, i requires 0 <= i < |groups| => Hex(groups[i]))
  }

  /** The address without compression. */
  function Plain(value: seq<nat>): string
    requires IsAddress(value)
  {
    Join(Spell(Groups(value)), ':')
  }

  // ---- the pattern /:?\b0(:0)*:?/g

  predicate IsWord(c: char) {
    'a' <= c <= 'z' || 'A' <= c <= 'Z' || '0' <= c <= '9' || c == '_'
  }

  /** A zero that starts at a word boundary. */
  predicate ZeroAt(s: string, k: nat) {
    k < |s| && s[k] == '0' && (k == 0 || !IsWord(s[k - 1]))
  }

  /** How far `(:0)*` reaches from `k`. */
  function ZeroTail(s: string, k: nat): (end: nat)
    requires k <= |s|
    ensures k <= end <= |s|
    decreases |s| - k
  {
    if k + 1 < |s| && s[k] == ':' && s[k + 1] == '0' then ZeroTail(s, k + 2) else k
  }

  /** Where a match that starts at `i` ends, if there is one. */
  function MatchEnd(s: string, i: nat): (end: Option<nat>)
    requires i <= |s|
    ensures end.Some? ==> i < end.value <= |s|
  {
    var j := if i < |s| && s[i] == ':' then i + 1 else i;
    if ZeroAt(s, j) then
      var end := ZeroTail(s, j + 1);
      Some(if end < |s| && s[end] == ':' then end + 1 else end)
    else
      None
  }

  datatype Match = Match(index: nat, end: nat) {
    function Length(): int { end - index }
  }

  /** `exec` from `from` on: the leftmost match. */
  function Exec(s: string, from: nat): (result: Option<Match>)
    requires from <= |s|
    ensures result.Some? ==> from <= result.value.index < result.value.end <= |s|
    decreases |s| - from
  {
    var end := MatchEnd(s, from);
    if end.Some? then Some(Match(from, end.value))
    else if from == |s| then None
    else Exec(s, from + 1)
  }

  /** The first of the longest matches from `from` on, if it is longer than `best`. */
  function Longest(s: string, from: nat, best: Match): Match
    requires from <= |s|
    decreases |s| - from
  {
    match Exec(s, from)
    case None => best
    case Some(m) => Longest(s, m.end, if m.Length() > best.Length() then m else best)
  }

  function Compress(s: string): string {
    var m := Longest(s, 0, Match(0, 0));
    if 0 < m.Length() && m.end <= |s| then s[..m.index] + "::" + s[m.end..] else s
  }

  /** What the printer shows. */
  function Text(value: seq<nat>): string
    requires IsAddress(value)
  {
    Compress(Plain(value))
  }

  method Print(value: seq<nat>) returns (addr: string)
    requires IsAddress(value)
    ensures addr == Text(value)
  {
    hide Plain, Exec, MatchEnd;
    addr := Plain(value);
    var maxSeq: nat, maxIndex: nat, lastIndex: nat := 0, 0, 0;
    var result := Exec(addr, lastIndex);
    while result.Some?
      invariant lastIndex <= |addr| && result == Exec(addr, lastIndex)
      invariant Longest(addr, 0, Match(0, 0)) == Longest(addr, lastIndex, Match(maxIndex, maxIndex + maxSeq))
      invariant maxIndex + maxSeq <= |addr|
      decreases |addr| - lastIndex
    {
      if result.value.Length() > maxSeq {
        maxSeq := result.value.Length();
        maxIndex := result.value.index;
      }
      lastIndex := result.value.end;
      result := Exec(addr, lastIndex);
    }
    if 0 < maxSeq {
      addr := addr[..maxIndex] + "::" + addr[maxIndex + maxSeq..];
    }
  }

  // ---- the parser

  predicate IsSpace(c: char) {
    c in "\t\n\r \U{000B}\U{000C}\U{00A0}\U{1680}\U{2028}\U{2029}\U{202F}\U{205F}\U{3000}\U{FEFF}"
        || '\U{2000}' <= c <= '\U{200A}'
  }

  function Trim(s: string): string {
    if s != "" && IsSpace(s[0]) then Trim(s[1..]) else s
  }

  function DigitValue(c: char): Option<nat> {
    if '0' <= c <= '9' then Some((c - '0') as nat)
    else if 'a' <= c <= 'f' then Some((c - 'a') as nat + 10)
    else if 'A' <= c <= 'F' then Some((c - 'A') as nat + 10)
    else None
  }

  /** The leading hexadecimal digits of `s` read after `sofar`. */
  function ReadDigits(s: string, sofar: nat): nat {
    if s == "" || DigitValue(s[0]).None? then sofar
    else ReadDigits(s[1..], sofar * 16 + DigitValue(s[0]).value)
  }

  /** `parseInt(s, 16)`, `None` being NaN. */
  function ParseInt(s: string): Option<int> {
    var t := Trim(s);
    var negative := t != "" && t[0] == '-';
    var u := if t != "" && (t[0] == '-' || t[0] == '+') then t[1..] else t;
    var digits := if |u| >= 2 && u[0] == '0' && (u[1] == 'x' || u[1] == 'X') then u[2..] else u;
    if digits == "" || DigitValue(digits[0]).None? then None
    else
      var n: int := ReadDigits(digits, 0);
      Some(if negative then -n else n)
  }

  datatype Parsed = Address(value: seq<nat>) | Null | RangeError

  /** The sections with an empty last and an empty first one dropped. */
  function Stripped(pieces: seq<string>): seq<string>
    requires pieces != []
  {
    var popped := if pieces[|pieces| - 1] == "" then pieces[..|pieces| - 1] else pieces;
    if popped != [] && popped[0] == "" then popped[1..] else popped
  }

  function IndexOf(pieces: seq<string>, piece: string): (i: Option<nat>)
    ensures i.Some? ==> i.value < |pieces| && pieces[i.value] == piece && piece !in pieces[..i.value]
    ensures i.None? ==> piece !in pieces
  {
    if pieces == [] then None
    else if pieces[0] == piece then Some(0)
    else match IndexOf(pieces[1..], piece)
      case None => None
      case Some(k) =>
        assert pieces[..k + 1] == [pieces[0]] + pieces[1..][..k];
        Some(k + 1)
  }

  function Zeros(n: nat): (pieces: seq<string>)
    ensures |pieces| == n
    ensures forall i :: 0 <= i < n ==> pieces[i] == "0"
  {
    seq(n, _ => "0")
  }

  /** The bytes of section values in range, in order. */
  function Bytes(sections: seq<string>): Option<seq<nat>> {
    if sections == [] then Some([])
    else match (ParseInt(sections[0]), Bytes(sections[1..]))
      case (Some(n), Some(rest)) => if 0 <= n <= 0xffff then Some([n / 256, n % 256] + rest) else None
      case _ => None
  }

  function Parse(str: string): Parsed {
    var sections := Stripped(Split(str, ':'));
    var pad := IndexOf(sections, "");
    if pad.Some? && 9 < |sections| then RangeError
    else
      var full := if pad.Some? then sections[..pad.value] + Zeros(9 - |sections|) + sections[pad.value + 1..]
          else sections;
      if |full| != 8 then Null
      else match Bytes(full)
        case Some(value) => Address(value)
        case None => Null
  }

  method ParseText(str: string) returns (result: Parsed)
    ensures result == Parse(str)
  {
    hide Split, Bytes;
    var sections := Split(str, ':');
    if sections[|sections| - 1] == "" {
      sections := sections[..|sections| - 1];
    }
    if sections != [] && sections[0] == "" {
      sections := sections[1..];
    }
    var pad := IndexOf(sections, "");
    if pad.Some? {
      if 9 < |sections| {
        return RangeError;
      }
      sections := sections[..pad.value] + Zeros(9 - |sections|) + sections[pad.value + 1..];
    }
    if |sections| != 8 {
      return Null;
    }
    var bytes := ParseSections(sections);
    return if bytes.Some? then Address(bytes.value) else Null;
  }

  method ParseSections(sections: seq<string>) returns (result: Option<seq<nat>>)
    ensures result == Bytes(sections)
  {
    var bytes: seq<nat>, i: nat := [], |sections|;
    assert sections[|sections|..] == [];
    while 0 < i
      invariant i <= |sections| && Bytes(sections[i..]) == Some(bytes)
    {
      i := i - 1;
      assert sections[i..][1..] == sections[i + 1..];
      var n := ParseInt(sections[i]);
      if n.None? || n.value < 0 || 0xffff < n.value {
        BytesFail(sections, i);
        return None;
      }
      bytes := [n.value / 256, n.value % 256] + bytes;
    }
    assert sections[0..] == sections;
    return Some(bytes);
  }

  lemma {:induction false} BytesFail(sections: seq<string>, i: nat)
    requires i <= |sections| && Bytes(sections[i..]).None?
    ensures Bytes(sections).None?
  {
    if 0 < i {
      assert sections[i..] == sections[1..][i - 1..];
      BytesFail(sections[1..], i - 1);
    } else {
      assert sections[0..] == sections;
    }
  }
}
