/**
 When does `FindLabels` come to an end, and how? It returns matches exactly when neither
 an alias loop nor an alias list without records can be reached from the name looked up,
 and then within one nested call more than there are distinct alias target names. It
 crashes exactly when an empty alias list comes first. Otherwise it never ends.
 */
module AliasTermination {
  import opened Common
  import opened ZoneModel
  import opened Lookup

  /** The names an alias met while looking up `s` points to. */
  ghost predicate AliasEdge(q: Query, s: string, t: string) {
    exists h :: AliasHop(q, s, h) && AliasName(q, s, h) == t
  }

  ghost predicate EdgeAt(q: Query, p: seq<string>, k: nat)
    requires k + 1 < |p|
  {
    AliasEdge(q, p[k], p[k + 1])
  }

  /** `p` follows aliases from its first name to its last. */
  ghost predicate AliasPath(q: Query, p: seq<string>) {
    p != [] && forall k: nat :: k + 1 < |p| ==> EdgeAt(q, p, k)
  }

  ghost predicate PathFrom(q: Query, s: string, p: seq<string>) {
    AliasPath(q, p) && p[0] == s
  }

  ghost predicate Repeats(p: seq<string>) {
    exists i, j :: 0 <= i < j < |p| && p[i] == p[j]
  }

  /** An alias loop can be reached from `s`. */
  ghost predicate LoopReachable(q: Query, s: string) {
    exists p :: PathFrom(q, s, p) && Repeats(p)
  }

  /** All names that some label is an alias for. */
  ghost function AliasTargets(q: Query): (ts: set<string>) {
    set k | k in q.labels && TYPE_MF in q.labels[k].records && q.labels[k].records[TYPE_MF] != []
      :: q.labels[k].records[TYPE_MF][0].rr.data
  }

  /** Looking up `s` meets an alias list without records, on which `FirstRR` crashes. */
  ghost predicate EmptyAliasAt(q: Query, s: string) {
    exists h :: HasAlias(q, s, h) && !AliasHop(q, s, h)
  }

  ghost predicate EmptyAliasReachable(q: Query, s: string) {
    exists p :: PathFrom(q, s, p) && EmptyAliasAt(q, p[|p| - 1])
  }

  /** Neither an alias loop nor an empty alias list can be reached. */
  ghost predicate Fine(q: Query, s: string) {
    !LoopReachable(q, s) && !EmptyAliasReachable(q, s)
  }

  lemma EdgeTarget(q: Query, s: string, t: string)
    requires AliasEdge(q, s, t)
    ensures t in AliasTargets(q)
  {
  }

  lemma {:induction false} DistinctNames(p: seq<string>, ts: set<string>)
    requires !Repeats(p) && forall x :: x in p ==> x in ts
    ensures |p| <= |ts|
  {
    if p != [] {
      var n := |p| - 1;
      assert forall x :: x in p[..n] ==> x in p;
      assert p[n] !in p[..n];
      assert p[n] in ts;
      DistinctNames(p[..n], ts - {p[n]});
    }
  }

  lemma ExtendPath(q: Query, p: seq<string>, t: string)
    requires AliasPath(q, p) && AliasEdge(q, p[|p| - 1], t)
    ensures AliasPath(q, p + [t])
  {
    var p' := p + [t];
    forall k: nat | k + 1 < |p'| ensures EdgeAt(q, p', k) {
      if k + 1 < |p| { assert EdgeAt(q, p, k); }
    }
  }

  /** A path without repetition uses each alias target at most once. */
  lemma PathLength(q: Query, p: seq<string>)
    requires AliasPath(q, p) && !Repeats(p)
    ensures |p| <= |AliasTargets(q)| + 1
  {
    var tail := p[1..];
    forall x | x in tail ensures x in AliasTargets(q) {
      var k :| 0 <= k < |tail| && tail[k] == x;
      assert EdgeAt(q, p, k);
      EdgeTarget(q, p[k], p[k + 1]);
    }
    DistinctNames(tail, AliasTargets(q));
  }

  // ---------- no loop: the lookup ends ----------

  /** Going on from the end of a path without repetition, with calls left for the unused targets. */
  lemma {:induction false} FindEnds(q: Query, p: seq<string>, depth: nat)
    requires AliasPath(q, p) && !LoopReachable(q, p[0])
    requires |p| + depth >= |AliasTargets(q)| + 2
    ensures !Find(q, p[|p| - 1], depth).Starved?
    decreases depth, 2
  {
    assert PathFrom(q, p[0], p);
    PathLength(q, p);
    FindFromEnds(q, p, Hop(0, 0), depth);
  }

  lemma {:induction false} FindFromEnds(q: Query, p: seq<string>, h: Hop, depth: nat)
    requires AliasPath(q, p) && !LoopReachable(q, p[0])
    requires depth > 0 && |p| + depth >= |AliasTargets(q)| + 2
    requires h.target <= |q.targets| && h.qt <= |q.qts|
    ensures !FindFrom(q, p[|p| - 1], h, depth).Starved?
    decreases depth, 1, |q.targets| - h.target, |q.qts| - h.qt
  {
    var s := p[|p| - 1];
    if h.target == |q.targets| {
    } else if h.qt == |q.qts| {
      FindFromEnds(q, p, Hop(h.target + 1, 0), depth);
    } else {
      FindFromEnds(q, p, Hop(h.target, h.qt + 1), depth);
      if AliasHop(q, s, h) {
        var t := AliasName(q, s, h);
        assert AliasEdge(q, s, t);
        ExtendPath(q, p, t);
        FindEnds(q, p + [t], depth - 1);
      }
    }
  }

  /** `FindLabels` needs at most one nested call more than there are alias targets. */
  lemma LookupDepthBound(q: Query, s: string, depth: nat)
    requires !LoopReachable(q, s) && depth > |AliasTargets(q)|
    ensures !Find(q, s, depth).Starved?
  {
    FindEnds(q, [s], depth);
  }

  // ---------- more depth changes nothing ----------

  lemma {:induction false} MoreDepth(q: Query, s: string, d: nat, d': nat)
    requires d <= d' && !Find(q, s, d).Starved?
    ensures Find(q, s, d') == Find(q, s, d)
    decreases d, 2
  {
    MoreDepthFrom(q, s, Hop(0, 0), d, d');
  }

  lemma {:induction false} MoreDepthFrom(q: Query, s: string, h: Hop, d: nat, d': nat)
    requires 0 < d <= d' && h.target <= |q.targets| && h.qt <= |q.qts|
    requires !FindFrom(q, s, h, d).Starved?
    ensures FindFrom(q, s, h, d') == FindFrom(q, s, h, d)
    decreases d, 1, |q.targets| - h.target, |q.qts| - h.qt
  {
    if h.target == |q.targets| {
    } else if h.qt == |q.qts| {
      MoreDepthFrom(q, s, Hop(h.target + 1, 0), d, d');
    } else {
      if AliasHop(q, s, h) {
        MoreDepth(q, AliasName(q, s, h), d - 1, d' - 1);
      }
      if FindAt(q, s, h, d).Matches? {
        MoreDepthFrom(q, s, Hop(h.target, h.qt + 1), d, d');
      }
    }
  }

  /** A bounded lookup gives one and the same answer for every bound at or above the limit. */
  lemma DepthIrrelevant(q: Query, s: string, d: nat)
    requires !LoopReachable(q, s) && d > |AliasTargets(q)|
    ensures Find(q, s, d) == Find(q, s, |AliasTargets(q)| + 1)
  {
    LookupDepthBound(q, s, |AliasTargets(q)| + 1);
    MoreDepth(q, s, |AliasTargets(q)| + 1, d);
  }

  // ---------- a loop: the lookup never ends ----------

  lemma SubPath(q: Query, p: seq<string>, i: nat, j: nat)
    requires AliasPath(q, p) && i < j <= |p|
    ensures AliasPath(q, p[i..j])
  {
    var r := p[i..j];
    forall k: nat | k + 1 < |r| ensures EdgeAt(q, r, k) {
      assert EdgeAt(q, p, i + k);
    }
  }

  lemma JoinPaths(q: Query, a: seq<string>, b: seq<string>)
    requires AliasPath(q, a) && AliasPath(q, b) && a[|a| - 1] == b[0]
    ensures AliasPath(q, a + b[1..])
  {
    var r := a + b[1..];
    forall k: nat | k + 1 < |r| ensures EdgeAt(q, r, k) {
      if k + 1 < |a| {
        assert EdgeAt(q, a, k);
      } else {
        var m := k - (|a| - 1);
        assert r[k] == b[m] && r[k + 1] == b[m + 1];
        assert EdgeAt(q, b, m);
      }
    }
  }

  /** `p` with the stretch from `i` to `j` gone round once more. */
  function Again(p: seq<string>, i: nat, j: nat): (p': seq<string>)
    requires i < j < |p|
    ensures |p'| > |p| && p'[0] == p[0] && p'[i] == p[i] && p'[j] == p[j]
  {
    p[0..j + 1] + p[i..|p|][1..]
  }

  lemma AgainIsPath(q: Query, p: seq<string>, i: nat, j: nat)
    requires AliasPath(q, p) && i < j < |p| && p[i] == p[j]
    ensures AliasPath(q, Again(p, i, j))
  {
    var a, b := p[0..j + 1], p[i..|p|];
    SubPath(q, p, 0, j + 1);
    SubPath(q, p, i, |p|);
    assert a[|a| - 1] == p[j] && b[0] == p[i];
    JoinPaths(q, a, b);
  }

  /** Going round a loop again makes a path longer. */
  lemma Lengthen(q: Query, s: string, p: seq<string>, i: nat, j: nat) returns (p': seq<string>)
    requires PathFrom(q, s, p) && i < j < |p| && p[i] == p[j]
    ensures PathFrom(q, s, p') && |p'| > |p|
    ensures i < j < |p'| && p'[i] == p'[j]
  {
    AgainIsPath(q, p, i, j);
    p' := Again(p, i, j);
  }

  lemma {:induction false} LongPathExists(q: Query, s: string, p: seq<string>, i: nat, j: nat, n: nat)
    returns (p': seq<string>)
    requires PathFrom(q, s, p) && i < j < |p| && p[i] == p[j]
    ensures PathFrom(q, s, p') && |p'| > n
    decreases if |p| > n then 0 else n - |p| + 1
  {
    if |p| > n {
      p' := p;
    } else {
      p' := Lengthen(q, s, p, i, j);
      p' := LongPathExists(q, s, p', i, j, n);
    }
  }

  /** With a loop in reach no lookup returns matches, however deep it may recurse. */
  lemma LoopNeverMatches(q: Query, s: string, depth: nat)
    requires LoopReachable(q, s)
    ensures !Find(q, s, depth).Matches?
  {
    var p :| PathFrom(q, s, p) && Repeats(p);
    var i, j :| 0 <= i < j < |p| && p[i] == p[j];
    var p' := LongPathExists(q, s, p, i, j, depth);
    if Find(q, s, depth).Matches? { PathsAreShort(q, s, p', depth); }
  }

  // ---------- crashes ----------

  lemma {:induction false} EveryRoundMatches(q: Query, s: string, h: Hop, g: Hop, depth: nat)
    requires depth > 0 && h.target <= |q.targets| && h.qt <= |q.qts| && InRange(q, g)
    requires h.target < g.target || (h.target == g.target && h.qt <= g.qt)
    requires FindFrom(q, s, h, depth).Matches?
    ensures FindAt(q, s, g, depth).Matches?
    decreases |q.targets| - h.target, |q.qts| - h.qt
  {
    if h.qt == |q.qts| {
      EveryRoundMatches(q, s, Hop(h.target + 1, 0), g, depth);
    } else if h != g {
      EveryRoundMatches(q, s, Hop(h.target, h.qt + 1), g, depth);
    }
  }

  /** A lookup that returns matches has followed every path to its end. */
  lemma {:induction false} PathsAreShort(q: Query, s: string, p: seq<string>, depth: nat)
    requires Find(q, s, depth).Matches? && PathFrom(q, s, p)
    ensures |p| <= depth
    decreases |p|
  {
    if |p| > 1 {
      assert EdgeAt(q, p, 0);
      var h :| AliasHop(q, s, h) && AliasName(q, s, h) == p[1];
      EveryRoundMatches(q, s, Hop(0, 0), h, depth);
      SubPath(q, p, 1, |p|);
      PathsAreShort(q, p[1], p[1..|p|], depth - 1);
    }
  }

  /** A lookup that returns matches has met no empty alias list anywhere. */
  lemma {:induction false} NoCrashAlongPath(q: Query, s: string, p: seq<string>, depth: nat)
    requires Find(q, s, depth).Matches? && PathFrom(q, s, p)
    ensures !EmptyAliasAt(q, p[|p| - 1])
    decreases |p|
  {
    if |p| == 1 {
      forall h | HasAlias(q, s, h) ensures AliasHop(q, s, h) {
        EveryRoundMatches(q, s, Hop(0, 0), h, depth);
      }
    } else {
      assert EdgeAt(q, p, 0);
      var h :| AliasHop(q, s, h) && AliasName(q, s, h) == p[1];
      EveryRoundMatches(q, s, Hop(0, 0), h, depth);
      SubPath(q, p, 1, |p|);
      assert p[1..|p|][|p| - 2] == p[|p| - 1];
      NoCrashAlongPath(q, p[1], p[1..|p|], depth - 1);
    }
  }

  lemma {:induction false} CrashCause(q: Query, s: string, depth: nat) returns (p: seq<string>)
    requires Find(q, s, depth).Crash?
    ensures PathFrom(q, s, p) && EmptyAliasAt(q, p[|p| - 1])
    decreases depth, 2
  {
    p := CrashCauseFrom(q, s, Hop(0, 0), depth);
  }

  lemma {:induction false} CrashCauseFrom(q: Query, s: string, h: Hop, depth: nat) returns (p: seq<string>)
    requires depth > 0 && h.target <= |q.targets| && h.qt <= |q.qts| && FindFrom(q, s, h, depth).Crash?
    ensures PathFrom(q, s, p) && EmptyAliasAt(q, p[|p| - 1])
    decreases depth, 1, |q.targets| - h.target, |q.qts| - h.qt
  {
    if h.qt == |q.qts| {
      p := CrashCauseFrom(q, s, Hop(h.target + 1, 0), depth);
    } else if FindAt(q, s, h, depth).Crash? {
      p := [s];
      if AliasHop(q, s, h) {
        var tail := CrashCause(q, AliasName(q, s, h), depth - 1);
        assert AliasEdge(q, s, tail[0]);
        ExtendPath(q, p, tail[0]);
        JoinPaths(q, [s] + [tail[0]], tail);
        p := [s] + [tail[0]] + tail[1..];
      }
    } else {
      p := CrashCauseFrom(q, s, Hop(h.target, h.qt + 1), depth);
    }
  }

  /** A lookup that ends crashes exactly when an empty alias list is reachable from the name. */
  lemma CrashesIff(q: Query, s: string, depth: nat)
    requires !Find(q, s, depth).Starved?
    ensures Find(q, s, depth).Crash? <==> EmptyAliasReachable(q, s)
  {
    if Find(q, s, depth).Crash? {
      var p := CrashCause(q, s, depth);
    } else {
      forall p | PathFrom(q, s, p) ensures !EmptyAliasAt(q, p[|p| - 1]) {
        NoCrashAlongPath(q, s, p, depth);
      }
    }
  }

  /** A lookup returns matches, with a deep enough recursion, exactly when all is fine. */
  lemma MatchesIff(q: Query, s: string)
    ensures (exists depth :: Find(q, s, depth).Matches?) <==> Fine(q, s)
    ensures Fine(q, s) ==> Find(q, s, |AliasTargets(q)| + 1).Matches?
  {
    if Fine(q, s) {
      FineMatches(q, s, |AliasTargets(q)| + 1);
    }
    if depth :| Find(q, s, depth).Matches? {
      MatchIsFine(q, s, depth);
    }
  }

  lemma FineMatches(q: Query, s: string, depth: nat)
    requires Fine(q, s) && depth > |AliasTargets(q)|
    ensures Find(q, s, depth).Matches?
  {
    LookupDepthBound(q, s, depth);
    CrashesIff(q, s, depth);
  }

  lemma MatchIsFine(q: Query, s: string, depth: nat)
    requires Find(q, s, depth).Matches?
    ensures Fine(q, s)
  {
    CrashesIff(q, s, depth);
    if LoopReachable(q, s) { LoopNeverMatches(q, s, depth); }
  }

  // ---------- loops and empty lists together ----------

  /** All rounds before `h` come to an end with matches. */
  ghost predicate FineBefore(q: Query, s: string, h: Hop) {
    forall g :: HopLess(g, h) && HasAlias(q, s, g) ==> AliasHop(q, s, g) && Fine(q, AliasName(q, s, g))
  }

  /** Following the rounds `w` leads to an empty alias list, and everything before it is fine. */
  ghost predicate CrashesBy(q: Query, s: string, w: seq<Hop>)
    decreases |w|
  {
    && w != [] && HasAlias(q, s, w[0]) && FineBefore(q, s, w[0])
    && if |w| == 1 then !AliasHop(q, s, w[0])
       else AliasHop(q, s, w[0]) && CrashesBy(q, AliasName(q, s, w[0]), w[1..])
  }

  /** An empty alias list comes before any loop. */
  ghost predicate CrashesFirst(q: Query, s: string) {
    exists w :: CrashesBy(q, s, w)
  }

  lemma CrashesFirstBy(q: Query, s: string, w: seq<Hop>)
    requires CrashesBy(q, s, w)
    ensures CrashesFirst(q, s)
  {
  }

  /** The first round that crashes decides, if the rounds before it end with matches. */
  lemma {:induction false} CrashFrom(q: Query, s: string, h: Hop, g: Hop, depth: nat)
    requires depth > 0 && h.target <= |q.targets| && h.qt <= |q.qts| && InRange(q, g) && !HopLess(g, h)
    requires FindAt(q, s, g, depth).Crash?
    requires forall x :: InRange(q, x) && HopLess(x, g) ==> FindAt(q, s, x, depth).Matches?
    ensures FindFrom(q, s, h, depth).Crash?
    decreases |q.targets| - h.target, |q.qts| - h.qt
  {
    if h.qt == |q.qts| {
      CrashFrom(q, s, Hop(h.target + 1, 0), g, depth);
    } else if h != g {
      assert HopLess(h, g);
      CrashFrom(q, s, Hop(h.target, h.qt + 1), g, depth);
    }
  }

  lemma {:induction false} CrashHappens(q: Query, s: string, w: seq<Hop>) returns (depth: nat)
    requires CrashesBy(q, s, w)
    ensures Find(q, s, depth).Crash?
    decreases |w|
  {
    var n := |AliasTargets(q)| + 1;
    depth := n + 1;
    if |w| > 1 {
      var d := CrashHappens(q, AliasName(q, s, w[0]), w[1..]);
      depth := n + d + 1;
      MoreDepth(q, AliasName(q, s, w[0]), d, depth - 1);
    }
    forall x | InRange(q, x) && HopLess(x, w[0]) ensures FindAt(q, s, x, depth).Matches? {
      if HasAlias(q, s, x) { FineMatches(q, AliasName(q, s, x), depth - 1); }
    }
    CrashFrom(q, s, Hop(0, 0), w[0], depth);
  }

  lemma {:induction false} FirstCrash(q: Query, s: string, h: Hop, depth: nat) returns (g: Hop)
    requires depth > 0 && h.target <= |q.targets| && h.qt <= |q.qts| && FindFrom(q, s, h, depth).Crash?
    ensures InRange(q, g) && !HopLess(g, h) && FindAt(q, s, g, depth).Crash?
    ensures forall x :: InRange(q, x) && !HopLess(x, h) && HopLess(x, g) ==> FindAt(q, s, x, depth).Matches?
    decreases |q.targets| - h.target, |q.qts| - h.qt
  {
    if h.qt == |q.qts| {
      g := FirstCrash(q, s, Hop(h.target + 1, 0), depth);
    } else if FindAt(q, s, h, depth).Crash? {
      g := h;
    } else {
      g := FirstCrash(q, s, Hop(h.target, h.qt + 1), depth);
    }
  }

  lemma {:induction false} CrashHasWay(q: Query, s: string, depth: nat) returns (w: seq<Hop>)
    requires Find(q, s, depth).Crash?
    ensures CrashesBy(q, s, w)
    decreases depth
  {
    var g := FirstCrash(q, s, Hop(0, 0), depth);
    forall x | HopLess(x, g) && HasAlias(q, s, x) ensures AliasHop(q, s, x) && Fine(q, AliasName(q, s, x)) {
      assert FindAt(q, s, x, depth).Matches?;
      MatchIsFine(q, AliasName(q, s, x), depth - 1);
    }
    w := [g];
    if AliasHop(q, s, g) {
      var tail := CrashHasWay(q, AliasName(q, s, g), depth - 1);
      w := [g] + tail;
      assert w[1..] == tail;
    }
  }

  /**
   `FindLabels` terminates exactly when all is fine, or an empty alias list comes before
   any loop. Where no empty list is in reach, that is exactly when no loop is.
   */
  lemma TerminatesIff(q: Query, s: string)
    ensures (exists depth :: !Find(q, s, depth).Starved?) <==> Fine(q, s) || CrashesFirst(q, s)
    ensures !EmptyAliasReachable(q, s) ==> ((exists depth :: !Find(q, s, depth).Starved?) <==> !LoopReachable(q, s))
  {
    MatchesIff(q, s);
    CrashesFirstIff(q, s);
    if depth: nat :| !Find(q, s, depth).Starved? {
      CrashesIff(q, s, depth);
      assert Find(q, s, depth).Matches? || Find(q, s, depth).Crash?;
    }
  }

  lemma CrashesFirstIff(q: Query, s: string)
    ensures (exists depth :: Find(q, s, depth).Crash?) <==> CrashesFirst(q, s)
  {
    if depth: nat :| Find(q, s, depth).Crash? {
      var w := CrashHasWay(q, s, depth);
      CrashesFirstBy(q, s, w);
    } else if w :| CrashesBy(q, s, w) {
      var d := CrashHappens(q, s, w);
      assert Find(q, s, d).Crash?;
    }
  }

  /** The loop the code does not guard against: a label that is its own alias. */
  lemma SelfAliasLoops(depth: nat)
    ensures var r := Record(RR("a.", TYPE_MF, 60, "a"), 0, None, "");
            var l := Label("a", 2, 0, map[TYPE_MF := [r]], map[], false, false);
            Find(Query(map["a" := l], ["@"], [TYPE_MF, TYPE_CNAME, TYPE_A]), "a", depth).Starved?
  {
    var r := Record(RR("a.", TYPE_MF, 60, "a"), 0, None, "");
    var l := Label("a", 2, 0, map[TYPE_MF := [r]], map[], false, false);
    var q := Query(map["a" := l], ["@"], [TYPE_MF, TYPE_CNAME, TYPE_A]);
    assert AliasHop(q, "a", Hop(0, 0)) && AliasName(q, "a", Hop(0, 0)) == "a";
    assert AliasEdge(q, "a", "a");
    var p := ["a", "a"];
    assert PathFrom(q, "a", p) && p[0] == p[1];
    LoopNeverMatches(q, "a", depth);
    if Find(q, "a", depth).Crash? { var c := CrashCause(q, "a", depth); }
  }
}
