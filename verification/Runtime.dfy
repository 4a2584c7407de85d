/** The display filter's runtime: comparing iterables of integers. */
module FilterRuntime {
  import opened Common

  /** What an iterator hands out at step `i`: `undefined` after the end. */
  function At(s: seq<int>, i: nat): Option<int> {
    if i < |s| then Some(s[i]) else None
  }

  /** `<` between iterator values; `undefined` is below and above nothing. */
  predicate Lower(x: Option<int>, y: Option<int>) {
    x.Some? && y.Some? && x.value < y.value
  }

  // ---- what the operators mean

  ghost predicate FirstDifference(a: seq<int>, b: seq<int>, k: nat) {
    k < |a| && k < |b| && a[k] != b[k] && a[..k] == b[..k]
  }

  /** The first difference within the common length is smaller on the left. */
  ghost predicate Below(a: seq<int>, b: seq<int>) {
    exists k: nat :: FirstDifference(a, b, k) && a[k] < b[k]
  }

  ghost predicate PrefixRelated(a: seq<int>, b: seq<int>) {
    a <= b || b <= a
  }

  /** The comparison operators on iterables; none for other operators. */
  ghost function Meaning(opcode: string, a: seq<int>, b: seq<int>): Option<bool> {
    match opcode
    case "==" => Some(a == b)
    case "===" => Some(a == b)
    case "!=" => Some(a != b)
    case "!==" => Some(a != b)
    case "<" => Some(Below(a, b))
    case ">" => Some(Below(b, a))
    case "<=" => Some(!Below(b, a))
    case ">=" => Some(!Below(a, b))
    case _ => None
  }

  // ---- the loops

  method Equal(a: seq<int>, b: seq<int>) returns (result: bool)
    ensures result == (a == b)
  {
    var i := 0;
    while true
      invariant i <= |a| && i <= |b| && a[..i] == b[..i]
      decreases |a| - i
    {
      var done, otherDone := i == |a|, i == |b|;
      if At(a, i) != At(b, i) || done != otherDone {
        return false;
      }
      if done && otherDone {
        assert a == a[..i] && b == b[..i];
        return true;
      }
      i := i + 1;
    }
  }

  method NotEqual(a: seq<int>, b: seq<int>) returns (result: bool)
    ensures result == (a != b)
  {
    var i := 0;
    while true
      invariant i <= |a| && i <= |b| && a[..i] == b[..i]
      decreases |a| - i
    {
      var done, otherDone := i == |a|, i == |b|;
      if At(a, i) != At(b, i) || done != otherDone {
        return true;
      }
      if done && otherDone {
        assert a == a[..i] && b == b[..i];
        return false;
      }
      i := i + 1;
    }
  }

  lemma Decided(a: seq<int>, b: seq<int>, i: nat)
    requires i <= |a| && i <= |b| && a[..i] == b[..i]
    ensures Lower(At(a, i), At(b, i)) ==> Below(a, b) && !Below(b, a)
    ensures i == |a| || i == |b| ==> !Below(a, b) && !Below(b, a)
  {
    if Lower(At(a, i), At(b, i)) {
      assert FirstDifference(a, b, i);
    }
    forall k | 0 <= k < i ensures a[k] == b[k] {
      assert a[..i][k] == b[..i][k];
    }
    forall k: nat | FirstDifference(a, b, k) || FirstDifference(b, a, k) ensures i < k ==> a[i] == b[i] {
      if i < k {
        assert a[..k][i] == b[..k][i];
      }
    }
  }

  method Less(a: seq<int>, b: seq<int>) returns (result: bool)
    ensures result == Below(a, b)
  {
    hide Below;
    var i := 0;
    while true
      invariant i <= |a| && i <= |b| && a[..i] == b[..i]
      decreases |a| - i
    {
      Decided(a, b, i);
      Decided(b, a, i);
      if Lower(At(a, i), At(b, i)) {
        return true;
      }
      if Lower(At(b, i), At(a, i)) {
        return false;
      }
      if i == |a| || i == |b| {
        return false;
      }
      i := i + 1;
    }
  }

  method Greater(a: seq<int>, b: seq<int>) returns (result: bool)
    ensures result == Below(b, a)
  {
    hide Below;
    var i := 0;
    while true
      invariant i <= |a| && i <= |b| && a[..i] == b[..i]
      decreases |a| - i
    {
      Decided(a, b, i);
      Decided(b, a, i);
      if Lower(At(b, i), At(a, i)) {
        return true;
      }
      if Lower(At(a, i), At(b, i)) {
        return false;
      }
      if i == |a| || i == |b| {
        return false;
      }
      i := i + 1;
    }
  }

  method LessEqual(a: seq<int>, b: seq<int>) returns (result: bool)
    ensures result == !Below(b, a)
  {
    hide Below;
    var i := 0;
    while true
      invariant i <= |a| && i <= |b| && a[..i] == b[..i]
      decreases |a| - i
    {
      Decided(a, b, i);
      Decided(b, a, i);
      if Lower(At(a, i), At(b, i)) {
        return true;
      }
      if Lower(At(b, i), At(a, i)) {
        return false;
      }
      if i == |a| || i == |b| {
        return true;
      }
      i := i + 1;
    }
  }

  method GreaterEqual(a: seq<int>, b: seq<int>) returns (result: bool)
    ensures result == !Below(a, b)
  {
    hide Below;
    var i := 0;
    while true
      invariant i <= |a| && i <= |b| && a[..i] == b[..i]
      decreases |a| - i
    {
      Decided(a, b, i);
      Decided(b, a, i);
      if Lower(At(b, i), At(a, i)) {
        return true;
      }
      if Lower(At(a, i), At(b, i)) {
        return false;
      }
      if i == |a| || i == |b| {
        return true;
      }
      i := i + 1;
    }
  }

  lemma BelowMeans(a: seq<int>, b: seq<int>)
    ensures Below(a, b) <==> exists k: nat :: k < |a| && k < |b| && a[..k] == b[..k] && a[k] < b[k]
  {
    if k: nat :| k < |a| && k < |b| && a[..k] == b[..k] && a[k] < b[k] {
      assert FirstDifference(a, b, k);
    }
  }

  /** The runtime's switch over iterables. */
  method Compare(opcode: string, a: seq<int>, b: seq<int>) returns (result: Option<bool>)
    ensures result == Meaning(opcode, a, b)
    ensures opcode in {"==", "==="} ==> result == Some(a == b)
    ensures opcode in {"!=", "!=="} ==> result == Some(a != b)
    ensures opcode == "<" ==>
        result == Some(exists k: nat :: k < |a| && k < |b| && a[..k] == b[..k] && a[k] < b[k])
    ensures opcode == ">" ==>
        result == Some(exists k: nat :: k < |a| && k < |b| && a[..k] == b[..k] && a[k] > b[k])
    ensures opcode == "<=" ==>
        result == Some(!exists k: nat :: k < |a| && k < |b| && a[..k] == b[..k] && a[k] > b[k])
    ensures opcode == ">=" ==>
        result == Some(!exists k: nat :: k < |a| && k < |b| && a[..k] == b[..k] && a[k] < b[k])
    ensures opcode !in {"==", "===", "!=", "!==", "<", ">", "<=", ">="} ==> result == None
  {
    BelowMeans(a, b);
    BelowMeans(b, a);
    hide Below;
    var answer: bool;
    match opcode
    case "==" => answer := Equal(a, b); return Some(answer);
    case "===" => answer := Equal(a, b); return Some(answer);
    case "!=" => answer := NotEqual(a, b); return Some(answer);
    case "!==" => answer := NotEqual(a, b); return Some(answer);
    case "<" => answer := Less(a, b); return Some(answer);
    case ">" => answer := Greater(a, b); return Some(answer);
    case "<=" => answer := LessEqual(a, b); return Some(answer);
    case ">=" => answer := GreaterEqual(a, b); return Some(answer);
    case _ => return None;
  }

  // ---- laws

  /** Of two iterables one is below the other, or one is a prefix of the other, and only one of
      these. */
  lemma Trichotomy(a: seq<int>, b: seq<int>)
    ensures !(Below(a, b) && Below(b, a))
    ensures PrefixRelated(a, b) <==> !Below(a, b) && !Below(b, a)
  {
    var i := 0;
    while i < |a| && i < |b| && a[i] == b[i]
      invariant i <= |a| && i <= |b| && a[..i] == b[..i]
    {
      i := i + 1;
    }
    Decided(a, b, i);
    Decided(b, a, i);
    assert i == |a| ==> a[..i] == a;
    assert i == |b| ==> b[..i] == b;
  }

  lemma BelowTransitive(a: seq<int>, b: seq<int>, c: seq<int>)
    requires Below(a, b) && Below(b, c)
    ensures Below(a, c)
  {
    var j: nat :| FirstDifference(a, b, j) && a[j] < b[j];
    var k: nat :| FirstDifference(b, c, k) && b[k] < c[k];
    assert FirstDifference(a, c, if j < k then j else k);
  }

  /** On iterables of one length `<` is a strict total order and `<=` its reflexive closure. */
  lemma TotalOnEqualLengths(a: seq<int>, b: seq<int>)
    requires |a| == |b|
    ensures !Below(a, a)
    ensures a != b ==> Below(a, b) != Below(b, a)
    ensures !Below(b, a) <==> Below(a, b) || a == b
  {
    Trichotomy(a, b);
    Trichotomy(a, a);
    assert PrefixRelated(a, b) <==> a == b;
  }

  /** On different lengths `<=` says more than `<` or `==`: it also holds from and to a proper
      prefix. */
  lemma LessEqualMeans(a: seq<int>, b: seq<int>)
    ensures Meaning("<=", a, b) == Some(Below(a, b) || PrefixRelated(a, b))
    ensures Meaning("<=", a, b) == Some(Below(a, b) || a == b) <==> !PrefixRelated(a, b) || a == b
  {
    Trichotomy(a, b);
  }
}
