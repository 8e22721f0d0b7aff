/** Dotted names: `strings.ToLower`, `strings.Split` and `strings.Join` on '.'. */
module Names {

  function LowerChar(c: char): (d: char) {
    if 'A' <= c <= 'Z' then c + 'a' - 'A' else c
  }

  /** Lower case of an ASCII name. */
  function ToLower(s: string): (r: string)
    ensures |r| == |s|
    ensures forall i :: 0 <= i < |s| ==> r[i] == LowerChar(s[i])
  {
    seq(|s|, i requires 0 <= i < |s| => LowerChar(s[i]))
  }

  /** Letters by their ASCII codes: 65 to 90 become 97 to 122, and nothing else changes. */
  lemma LowerByCode(s: string, i: nat)
    requires i < |s|
    ensures ToLower(s)[i] as int == if 65 <= s[i] as int <= 90 then s[i] as int + 32 else s[i] as int
  {
  }

  lemma LowerIdempotent(s: string)
    ensures ToLower(ToLower(s)) == ToLower(s)
  {
  }

  /** The first dot of `s` from position `i` on, or its end. */
  function FirstDotFrom(s: string, i: nat): (d: nat)
    requires i <= |s|
    ensures i <= d <= |s| && (d < |s| ==> s[d] == '.')
    ensures forall j :: i <= j < d ==> s[j] != '.'
    decreases |s| - i
  {
    if i == |s| || s[i] == '.' then i else FirstDotFrom(s, i + 1)
  }

  function FirstDot(s: string): (d: nat)
    ensures d <= |s| && (d < |s| ==> s[d] == '.')
    ensures forall j :: 0 <= j < d ==> s[j] != '.'
  {
    FirstDotFrom(s, 0)
  }

  function Split(s: string): (parts: seq<string>)
    ensures parts != []
  {
    var d := FirstDot(s);
    if d == |s| then [s] else [s[..d]] + Split(s[d + 1..])
  }

  function Join(parts: seq<string>): (s: string) {
    if parts == [] then ""
    else if |parts| == 1 then parts[0]
    else parts[0] + "." + Join(parts[1..])
  }

  /** The parts of `k` from number `i` on, joined again. */
  function Tail(k: string, i: nat): (x: string)
    requires i <= |Split(k)|
  {
    Join(Split(k)[i..])
  }

  predicate SuffixAt(x: string, k: string, j: nat) {
    j < |k| && k[j] == '.' && k[j + 1..] == x
  }

  /** `x` is what follows some dot of `k`. */
  ghost predicate DotSuffix(x: string, k: string) {
    exists j :: SuffixAt(x, k, j)
  }

  /** Positions in `k` after a dot at `d` and positions in the rest. */
  lemma SuffixShift(x: string, k: string, d: nat, j: nat)
    requires d < |k| && k[d] == '.'
    ensures SuffixAt(x, k[d + 1..], j) <==> SuffixAt(x, k, d + 1 + j)
  {
    if d + 1 + j < |k| {
      assert k[d + 1..][j + 1..] == k[d + 1 + j + 1..];
    }
  }

  /** Splitting takes off the part before the first dot. */
  lemma SplitCons(k: string)
    requires FirstDot(k) < |k|
    ensures Split(k) == [k[..FirstDot(k)]] + Split(k[FirstDot(k) + 1..])
  {
  }

  lemma JoinDrop(x: string, parts: seq<string>, i: nat)
    requires 1 <= i <= |parts| + 1
    ensures Join(([x] + parts)[i..]) == Join(parts[i - 1..])
  {
    assert ([x] + parts)[i..] == parts[i - 1..];
  }

  lemma SplitTail(k: string, i: nat)
    requires FirstDot(k) < |k| && 1 <= i <= |Split(k)|
    ensures |Split(k)| == 1 + |Split(k[FirstDot(k) + 1..])|
    ensures Tail(k, i) == Tail(k[FirstDot(k) + 1..], i - 1)
  {
    SplitCons(k);
    JoinDrop(k[..FirstDot(k)], Split(k[FirstDot(k) + 1..]), i);
  }

  lemma JoinCons(x: string, parts: seq<string>)
    requires parts != []
    ensures Join([x] + parts) == x + "." + Join(parts)
  {
    assert ([x] + parts)[1..] == parts;
  }

  lemma {:induction false} JoinSplit(s: string)
    ensures Join(Split(s)) == s
    decreases |s|
  {
    var d := FirstDot(s);
    if d < |s| {
      var rest := s[d + 1..];
      JoinSplit(rest);
      SplitCons(s);
      JoinCons(s[..d], Split(rest));
      assert s == s[..d] + "." + rest;
    }
  }

  /** Joining the parts of `k` from some part after the first on gives `x`. */
  ghost predicate IsTail(x: string, k: string) {
    exists i :: 1 <= i < |Split(k)| && Tail(k, i) == x
  }

  /** What follows the first dot is the first tail, and its tails are the others. */
  lemma FirstTail(k: string)
    requires FirstDot(k) < |k|
    ensures |Split(k)| > 1 && Tail(k, 1) == k[FirstDot(k) + 1..] && IsTail(k[FirstDot(k) + 1..], k)
  {
    var rest := k[FirstDot(k) + 1..];
    JoinSplit(rest);
    SplitTail(k, 1);
    assert Split(rest)[0..] == Split(rest);
  }

  lemma LaterTails(x: string, k: string)
    requires FirstDot(k) < |k|
    ensures IsTail(x, k) <==> x == k[FirstDot(k) + 1..] || IsTail(x, k[FirstDot(k) + 1..])
  {
    var rest := k[FirstDot(k) + 1..];
    FirstTail(k);
    if IsTail(x, rest) {
      var i :| 1 <= i < |Split(rest)| && Tail(rest, i) == x;
      SplitTail(k, i + 1);
    } else if IsTail(x, k) {
      var i :| 1 <= i < |Split(k)| && Tail(k, i) == x;
      SplitTail(k, i);
      assert i == 1;
    }
  }

  lemma LaterSuffixes(x: string, k: string)
    requires FirstDot(k) < |k|
    ensures DotSuffix(x, k) <==> x == k[FirstDot(k) + 1..] || DotSuffix(x, k[FirstDot(k) + 1..])
  {
    var d := FirstDot(k);
    var rest := k[d + 1..];
    if x == rest {
      assert SuffixAt(x, k, d);
    }
    if DotSuffix(x, rest) {
      var j: nat :| SuffixAt(x, rest, j);
      SuffixShift(x, k, d, j);
      assert SuffixAt(x, k, d + 1 + j);
    } else if DotSuffix(x, k) {
      var j: nat :| SuffixAt(x, k, j);
      if j > d { SuffixShift(x, k, d, j - d - 1); }
    }
  }

  /** The tails of a name are exactly its dot suffixes. */
  lemma {:induction false} TailIffSuffix(x: string, k: string)
    ensures IsTail(x, k) <==> DotSuffix(x, k)
    decreases |k|
  {
    var d := FirstDot(k);
    if d < |k| {
      TailIffSuffix(x, k[d + 1..]);
      LaterTails(x, k);
      LaterSuffixes(x, k);
    } else {
      assert |Split(k)| == 1;
    }
  }

  lemma TailIsSuffix(k: string, i: nat)
    requires 1 <= i < |Split(k)|
    ensures DotSuffix(Tail(k, i), k)
  {
    assert IsTail(Tail(k, i), k);
    TailIffSuffix(Tail(k, i), k);
  }

  /** A name contains a dot exactly when it splits into several parts. */
  lemma SplitSeveral(k: string)
    ensures |Split(k)| > 1 <==> '.' in k
  {
    var d := FirstDot(k);
    assert d < |k| <==> '.' in k;
  }

  lemma SuffixOfSuffix(x: string, y: string, z: string)
    requires DotSuffix(x, y) && DotSuffix(y, z)
    ensures DotSuffix(x, z)
  {
    var i: nat :| SuffixAt(x, y, i);
    var j: nat :| SuffixAt(y, z, j);
    SuffixShift(x, z, j, i);
  }

  lemma LowerSuffix(x: string, k: string)
    requires DotSuffix(x, ToLower(k))
    ensures ToLower(x) == x
  {
    var low := ToLower(k);
    var j: nat :| SuffixAt(x, low, j);
    forall i | 0 <= i < |x| ensures LowerChar(x[i]) == x[i] {
      assert x[i] == low[j + 1 + i];
    }
    assert ToLower(x) == x;
  }
}
