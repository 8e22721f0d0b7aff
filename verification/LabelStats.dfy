/** `zoneLabelStats`: a ring buffer of the most recent query labels, and counts over it. */
module LabelStats {
  import Sorting

  datatype LabelStat = LabelStat(name: string, count: int)

  /** The last `n` elements of `h`, or all of them. */
  function Recent(h: seq<string>, n: nat): (r: seq<string>) {
    if |h| <= n then h else h[|h| - n..]
  }

  function Sum(ts: seq<LabelStat>): (n: int) {
    if ts == [] then 0 else ts[0].count + Sum(ts[1..])
  }

  /** `counts` is the occurrence map of `s`. */
  ghost predicate Occurrences(counts: map<string, int>, s: seq<string>) {
    && (forall l :: l in counts <==> l in s)
    && forall l :: l in counts ==> counts[l] == multiset(s)[l]
  }

  /** `all` has one entry for each distinct element of `m`, with its multiplicity. */
  ghost predicate Tallies(all: seq<LabelStat>, m: multiset<string>) {
    && (forall i, j :: 0 <= i < j < |all| ==> all[i].name != all[j].name)
    && (forall i :: 0 <= i < |all| ==> all[i].name in m && all[i].count == m[all[i].name])
    && forall l :: l in m ==> Ranked(all, l)
  }

  ghost predicate Ranked(all: seq<LabelStat>, l: string) {
    exists i :: 0 <= i < |all| && all[i].name == l
  }

  /** Distinct labels of `s` with their true counts, in descending order. */
  ghost predicate Ranking(top: seq<LabelStat>, s: seq<string>) {
    && (forall i :: 0 <= i < |top| ==> top[i].name in s && top[i].count == multiset(s)[top[i].name])
    && forall i, j :: 0 <= i < j < |top| ==> top[i].name != top[j].name && top[i].count >= top[j].count
  }

  /** A label of `s` outside `top` occurs at most as often as each label in it. */
  ghost predicate Dominates(top: seq<LabelStat>, s: seq<string>) {
    forall l, i :: l in s && !Ranked(top, l) && 0 <= i < |top| ==> multiset(s)[l] <= top[i].count
  }

  /**
   What `TopCounts(n)` promises about the labels `s`: nothing is lost in total; the
   first `n` entries are true counts in descending order; a label folded into
   "Others" occurs at most as often as each of them.
   */
  ghost predicate TopOf(top: seq<LabelStat>, s: seq<string>, n: nat) {
    && Sum(top) == |s|
    && if |top| <= n then
         Ranking(top, s) && forall l :: l in s ==> Ranked(top, l)
       else
         && |top| == n + 1 && top[n].name == "Others"
         && Ranking(top[..n], s) && Dominates(top[..n], s)
  }

  lemma {:induction false} SumConcat(a: seq<LabelStat>, b: seq<LabelStat>)
    ensures Sum(a + b) == Sum(a) + Sum(b)
  {
    if a == [] {
      assert a + b == b;
    } else {
      assert (a + b)[1..] == a[1..] + b;
      SumConcat(a[1..], b);
    }
  }

  lemma {:induction false} TalliesSum(all: seq<LabelStat>, m: multiset<string>)
    requires Tallies(all, m)
    ensures Sum(all) == |m|
  {
    if all == [] {
      assert forall l :: l in m ==> Ranked(all, l);
      assert m == multiset{};
    } else {
      var l := all[0].name;
      var m' := m[l := 0];
      assert forall i :: 0 <= i < |all| - 1 ==> all[1..][i] == all[i + 1];
      forall x | x in m' ensures Ranked(all[1..], x) {
        assert Ranked(all, x);
        var i :| 0 <= i < |all| && all[i].name == x;
        assert all[1..][i - 1].name == x;
      }
      TalliesSum(all[1..], m');
    }
  }

  /** The first entries of a descending tally rank the most frequent labels. */
  lemma PrefixRanks(all: seq<LabelStat>, s: seq<string>, k: nat)
    requires Tallies(all, multiset(s)) && k <= |all|
    requires forall i, j :: 0 <= i < j < |all| ==> all[i].count >= all[j].count
    ensures Ranking(all[..k], s) && Dominates(all[..k], s)
  {
    forall i | 0 <= i < k ensures all[i].name in s {
      assert all[i].name in multiset(s);
    }
    forall l, i | l in s && !Ranked(all[..k], l) && 0 <= i < k ensures multiset(s)[l] <= all[..k][i].count {
      var j := RankedLater(all, s, k, l);
      assert all[i].count >= all[j].count;
    }
  }

  lemma RankedLater(all: seq<LabelStat>, s: seq<string>, k: nat, l: string) returns (j: nat)
    requires Tallies(all, multiset(s)) && k <= |all| && l in s && !Ranked(all[..k], l)
    ensures k <= j < |all| && all[j].name == l && all[j].count == multiset(s)[l]
  {
    assert l in multiset(s) && Ranked(all, l);
    assert forall i :: 0 <= i < k ==> all[..k][i] == all[i];
    j :| 0 <= j < |all| && all[j].name == l;
  }

  lemma FoldedSum(all: seq<LabelStat>, n: nat, top: seq<LabelStat>)
    requires top == if |all| <= n then all else all[..n] + [LabelStat("Others", Sum(all[n..]))]
    ensures Sum(top) == Sum(all)
  {
    if |all| > n {
      var others := LabelStat("Others", Sum(all[n..]));
      assert all == all[..n] + all[n..];
      SumConcat(all[..n], all[n..]);
      SumConcat(all[..n], [others]);
      assert Sum([others]) == others.count + Sum([]);
    }
  }

  /** `top` is a descending tally folded behind its first `n` entries. */
  lemma FoldedIsTop(all: seq<LabelStat>, s: seq<string>, n: nat, top: seq<LabelStat>)
    requires Tallies(all, multiset(s))
    requires forall i, j :: 0 <= i < j < |all| ==> all[i].count >= all[j].count
    requires top == if |all| <= n then all else all[..n] + [LabelStat("Others", Sum(all[n..]))]
    ensures TopOf(top, s, n)
  {
    assert Sum(top) == |s| by {
      TalliesSum(all, multiset(s));
      FoldedSum(all, n, top);
    }
    if |all| > n {
      PrefixRanks(all, s, n);
      assert top[..n] == all[..n];
    } else {
      PrefixRanks(all, s, |all|);
      assert all[..|all|] == all;
      forall l | l in s ensures Ranked(top, l) {
        assert l in multiset(s);
      }
    }
  }

  method FoldOthers(all: seq<LabelStat>, n: nat) returns (top: seq<LabelStat>)
    ensures top == if |all| <= n then all else all[..n] + [LabelStat("Others", Sum(all[n..]))]
  {
    top := all;
    if |top| > n {
      var others := 0;
      for i := n to |top|
        invariant others == Sum(top[n..i])
      {
        assert top[n..i + 1] == top[n..i] + [top[i]];
        SumConcat(top[n..i], [top[i]]);
        others := others + top[i].count;
      }
      assert top[n..|top|] == top[n..];
      top := top[..n] + [LabelStat("Others", others)];
    }
  }

  /** Overwriting the oldest entry of a full ring drops it from the front of the window. */
  lemma RingStep(log: seq<string>, pos: nat, l: string)
    requires pos < |log|
    ensures var log' := log[pos := l];
            && log'[..pos + 1] == log[..pos] + [l]
            && log'[pos + 1..] + log'[..pos + 1] == (log[pos..] + log[..pos])[1..] + [l]
  {
  }

  lemma RecentStep(h: seq<string>, l: string, n: nat)
    requires n > 0
    ensures Recent(h + [l], n) == if |h| < n then h + [l] else Recent(h, n)[1..] + [l]
  {
  }

  /** A ring buffer `log`, next written at `pos`, holds the most recent labels of `history`. */
  ghost predicate Holds(log: seq<string>, pos: nat, rotated: bool, history: seq<string>) {
    && pos < |log|
    && (if rotated then
          |history| >= |log| && log[pos..] + log[..pos] == Recent(history, |log|)
        else
          |history| == pos && log[..pos] == history)
  }

  lemma AddStep(log: seq<string>, pos: nat, rotated: bool, history: seq<string>, l: string)
    requires Holds(log, pos, rotated, history)
    ensures var log' := log[pos := l];
            if pos + 1 < |log| then Holds(log', pos + 1, rotated, history + [l])
            else Holds(log', 0, true, history + [l])
  {
    RingStep(log, pos, l);
    RecentStep(history, l, |log|);
    var log' := log[pos := l];
    if pos + 1 == |log| {
      assert log'[0..] + log'[..0] == log'[pos + 1..] + log'[..pos + 1];
    }
  }

  class ZoneLabelStats {
    var pos: nat
    var rotated: bool
    var log: array<string>
    /** The labels added since the last reset. */
    ghost var history: seq<string>

    ghost predicate Open()
      reads this, log
    {
      Holds(log[..], pos, rotated, history)
    }

    /** `NewZoneLabelStats(size)`. */
    constructor (size: nat)
      requires size > 0
      ensures Open() && fresh(log) && log.Length == size && history == []
    {
      pos, rotated, history := 0, false, [];
      log := new string[size](_ => "");
    }

    method Close()
      modifies this`log
      ensures fresh(log) && log.Length == 0
    {
      log := new string[0];
    }

    method Reset()
      requires Open()
      modifies this
      ensures Open() && fresh(log) && log.Length == old(log.Length) && history == []
    {
      pos := 0;
      log := new string[log.Length](_ => "");
      rotated := false;
      history := [];
    }

    method Add(l: string)
      requires Open()
      modifies this`pos, this`rotated, this`history, log
      ensures Open() && log == old(log) && history == old(history) + [l]
    {
      AddStep(log[..], pos, rotated, history, l);
      ghost var before := log[..];
      log[pos] := l;
      assert log[..] == before[pos := l];
      pos := pos + 1;
      history := history + [l];
      if pos + 1 > log.Length {
        rotated := true;
        pos := 0;
      }
    }

    /** The occurrence map of the labels the buffer holds. */
    method Counts() returns (counts: map<string, int>)
      requires Open()
      ensures Occurrences(counts, Recent(history, log.Length))
    {
      counts := map[];
      var i := 0;
      while i < log.Length
        invariant i <= log.Length && (!rotated ==> i <= pos)
        invariant Occurrences(counts, log[..i])
      {
        if !rotated && i >= pos {
          break;
        }
        var l := log[i];
        assert log[..i + 1] == log[..i] + [l];
        counts := counts[l := (if l in counts then counts[l] else 0) + 1];
        i := i + 1;
      }
      if rotated {
        var ring := log[..];
        assert log[..i] == ring[..pos] + ring[pos..];
        assert multiset(log[..i]) == multiset(ring[pos..] + ring[..pos]);
        assert forall l :: l in log[..i] <==> l in ring[pos..] + ring[..pos];
      }
    }

    method TopCounts(n: nat) returns (top: seq<LabelStat>)
      requires Open()
      ensures TopOf(top, Recent(history, log.Length), n)
    {
      ghost var s := Recent(history, log.Length);
      var cm := Counts();
      var all := Entries(cm, s);
      top := Sorting.SortDescending(all, (t: LabelStat) => t.count);
      TalliesPermutation(all, top, multiset(s));
      ghost var sorted := top;
      top := FoldOthers(top, n);
      FoldedIsTop(sorted, s, n, top);
    }
  }

  /** The entries of a count map, in the order Go happens to range over it. */
  method Entries(cm: map<string, int>, ghost s: seq<string>) returns (all: seq<LabelStat>)
    requires Occurrences(cm, s)
    ensures Tallies(all, multiset(s))
  {
    all := [];
    var todo := cm.Keys;
    while todo != {}
      invariant todo <= cm.Keys
      invariant forall i, j :: 0 <= i < j < |all| ==> all[i].name != all[j].name
      invariant forall i :: 0 <= i < |all| ==>
                  all[i].name in cm.Keys - todo && all[i].count == cm[all[i].name]
      invariant forall l :: l in cm.Keys - todo ==> Ranked(all, l)
      decreases |todo|
    {
      var l :| l in todo;
      ghost var before := all;
      all := all + [LabelStat(l, cm[l])];
      todo := todo - {l};
      forall x | x in cm.Keys - todo ensures Ranked(all, x) {
        if x == l {
          assert all[|before|].name == x;
        } else {
          assert Ranked(before, x);
          var i :| 0 <= i < |before| && before[i].name == x;
          assert all[i].name == x;
        }
      }
    }
  }

  /** Sorting permutes the entries, so they still tally. */
  lemma TalliesPermutation(a: seq<LabelStat>, b: seq<LabelStat>, m: multiset<string>)
    requires Tallies(a, m) && multiset(a) == multiset(b) && |a| == |b|
    ensures Tallies(b, m)
  {
    forall i | 0 <= i < |b| ensures b[i].name in m && b[i].count == m[b[i].name] {
      assert b[i] in multiset(a);
    }
    forall l | l in m ensures Ranked(b, l) {
      assert Ranked(a, l);
      var i :| 0 <= i < |a| && a[i].name == l;
      assert a[i] in multiset(b);
      var j :| 0 <= j < |b| && b[j] == a[i];
    }
    forall i, j | 0 <= i < j < |b| ensures b[i].name != b[j].name {
      if b[i].name == b[j].name {
        assert b[i] == b[j];
        TwiceInSequence(b, i, j);
        OnceInTally(a, b[i]);
      }
    }
  }

  lemma TwiceInSequence(b: seq<LabelStat>, i: nat, j: nat)
    requires i < j < |b| && b[i] == b[j]
    ensures multiset(b)[b[i]] >= 2
  {
    assert b == b[..i] + [b[i]] + b[i + 1..j] + [b[j]] + b[j + 1..];
  }

  lemma {:induction false} OnceInTally(a: seq<LabelStat>, x: LabelStat)
    requires forall i, j :: 0 <= i < j < |a| ==> a[i].name != a[j].name
    ensures multiset(a)[x] <= 1
  {
    if a != [] {
      assert a == [a[0]] + a[1..];
      OnceInTally(a[1..], x);
    }
  }
}
