/**
 The "closest" selection of `Picker`: repeated passes, each of which chooses every
 server within 5% of the nearest one not chosen yet, until `max` are chosen.
 Distances are reals in [0, 360] and 1.05 is the exact 21/20.
 */
module Closest {

  const MAX_DISTANCE: real := 360.0
  const TOLERANCE: real := 1.05

  type Distance = d: real | 0.0 <= d <= MAX_DISTANCE

  /** The servers at distance at most `x`. */
  ghost function Within(ds: seq<Distance>, x: real): (s: set<nat>) {
    set j: nat | j < |ds| && ds[j] <= x
  }

  /** The servers strictly closer than `x`. */
  ghost function Closer(ds: seq<Distance>, x: real): (s: set<nat>) {
    set j: nat | j < |ds| && ds[j] < x
  }

  /** The servers that stay closer than `x` even with the 5% margin added. */
  ghost function ClearlyCloser(ds: seq<Distance>, x: real): (s: set<nat>) {
    set j: nat | j < |ds| && 1.05 * ds[j] < x
  }

  /** `m` is the distance of the nearest server beyond `x`. */
  ghost predicate IsNextMin(ds: seq<Distance>, x: real, m: real) {
    && m in ds && m > x
    && forall j :: 0 <= j < |ds| && ds[j] > x ==> m <= ds[j]
  }

  lemma {:induction false} SubsetSize<T>(a: set<T>, b: set<T>)
    requires a <= b
    ensures |a| <= |b|
    ensures |a| == |b| ==> a == b
  {
    assert b == a + (b - a);
    assert |b| == |a| + |b - a|;
  }

  lemma {:induction false} IndexSize(ds: seq<Distance>, s: set<nat>)
    requires forall j: nat :: j in s <==> j < |ds|
    ensures |s| == |ds|
  {
    if ds == [] {
      assert s == {};
    } else {
      var n := |ds| - 1;
      IndexSize(ds[..n], s - {n});
      assert s == (s - {n}) + {n};
    }
  }

  lemma WithinSize(ds: seq<Distance>, x: real)
    ensures |Within(ds, x)| <= |ds|
    ensures |Within(ds, x)| < |ds| ==> exists j :: 0 <= j < |ds| && ds[j] > x
  {
    var all := Within(ds, MAX_DISTANCE);
    IndexSize(ds, all);
    SubsetSize(Within(ds, x) * all, all);
    assert Within(ds, x) == Within(ds, x) * all;
    if forall j :: 0 <= j < |ds| ==> ds[j] <= x {
      assert Within(ds, x) == all;
    }
  }

  lemma {:induction false} NextMinExists(ds: seq<Distance>, x: real)
    requires exists j :: 0 <= j < |ds| && ds[j] > x
    ensures exists m :: IsNextMin(ds, x, m)
  {
    var n := |ds| - 1;
    if j :| 0 <= j < n && ds[j] > x {
      assert ds[..n][j] > x;
      NextMinExists(ds[..n], x);
      var m :| IsNextMin(ds[..n], x, m);
      var m' := if x < ds[n] < m then ds[n] else m;
      assert IsNextMin(ds, x, m');
    } else {
      assert IsNextMin(ds, x, ds[n]);
    }
  }

  /** One pass adds the nearest unchosen server, at least. */
  lemma PassProgress(ds: seq<Distance>, x: real, m: real)
    requires IsNextMin(ds, x, m)
    ensures m * TOLERANCE >= m
    ensures |Within(ds, x)| < |Within(ds, m * TOLERANCE)| <= |ds|
  {
    var j: nat :| j < |ds| && ds[j] == m;
    SubsetSize(Within(ds, x), Within(ds, m * TOLERANCE));
    assert j in Within(ds, m * TOLERANCE) && j !in Within(ds, x);
    WithinSize(ds, m * TOLERANCE);
  }

  /** The inclusion threshold after the last pass, when the current one is `x`. */
  ghost function Threshold(ds: seq<Distance>, max: nat, x: real): (t: real)
    requires max <= |ds|
    decreases |ds| - |Within(ds, x)|
  {
    if |Within(ds, x)| >= max then WithinSize(ds, x); x
    else
      WithinSize(ds, x); NextMinExists(ds, x);
      var m :| IsNextMin(ds, x, m);
      PassProgress(ds, x, m);
      Threshold(ds, max, m * TOLERANCE)
  }

  lemma ThresholdStep(ds: seq<Distance>, max: nat, x: real, m: real)
    requires |Within(ds, x)| < max <= |ds| && IsNextMin(ds, x, m)
    ensures Threshold(ds, max, x) == Threshold(ds, max, m * TOLERANCE)
  {
    PassProgress(ds, x, m);
  }

  lemma NextPass(ds: seq<Distance>, max: nat, x: real, m: real)
    requires |Within(ds, x)| < max <= |ds| && IsNextMin(ds, x, m)
    ensures x <= m * TOLERANCE && |Within(ds, x)| < |Within(ds, m * TOLERANCE)| <= |ds|
    ensures Threshold(ds, max, x) == Threshold(ds, max, m * TOLERANCE)
  {
    PassProgress(ds, x, m);
    ThresholdStep(ds, max, x, m);
  }

  /** Every chosen server has fewer than `max` servers clearly closer than it. */
  ghost predicate Tight(ds: seq<Distance>, max: nat, x: real) {
    forall i :: 0 <= i < |ds| && ds[i] <= x ==> |ClearlyCloser(ds, ds[i])| < max
  }

  lemma PassKeepsTight(ds: seq<Distance>, max: nat, x: real, m: real)
    requires |Within(ds, x)| < max <= |ds| && IsNextMin(ds, x, m)
    ensures Tight(ds, max, m * TOLERANCE)
  {
    forall i | 0 <= i < |ds| && ds[i] <= m * TOLERANCE
      ensures |ClearlyCloser(ds, ds[i])| < max
    {
      assert ClearlyCloser(ds, ds[i]) <= Within(ds, x);
      SubsetSize(ClearlyCloser(ds, ds[i]), Within(ds, x));
    }
  }

  lemma {:induction false} ThresholdTight(ds: seq<Distance>, max: nat, x: real)
    requires max <= |ds| && Tight(ds, max, x)
    ensures Tight(ds, max, Threshold(ds, max, x))
    ensures |Within(ds, Threshold(ds, max, x))| >= max
    decreases |ds| - |Within(ds, x)|
  {
    if |Within(ds, x)| < max {
      WithinSize(ds, x);
      NextMinExists(ds, x);
      var m :| IsNextMin(ds, x, m);
      PassProgress(ds, x, m);
      PassKeepsTight(ds, max, x, m);
      ThresholdTight(ds, max, m * TOLERANCE);
      ThresholdStep(ds, max, x, m);
    }
  }

  /** The threshold the selection ends with: it starts with nothing chosen. */
  ghost function FinalThreshold(ds: seq<Distance>, max: nat): (t: real)
    requires max <= |ds|
  {
    Threshold(ds, max, -1.0)
  }

  /**
   What the selection guarantees, for all distances and every `max` up to the number
   of servers: at least `max` servers are chosen; a server left out has `max` or more
   strictly closer ones; a chosen one has fewer than `max` clearly closer ones.
   */
  lemma ClosestSelection(ds: seq<Distance>, max: nat)
    requires max <= |ds|
    ensures var t := FinalThreshold(ds, max);
            && |Within(ds, t)| >= max
            && (forall i :: 0 <= i < |ds| && ds[i] > t ==> |Closer(ds, ds[i])| >= max)
            && (forall i :: 0 <= i < |ds| && ds[i] <= t ==> |ClearlyCloser(ds, ds[i])| < max)
  {
    var t := FinalThreshold(ds, max);
    ThresholdTight(ds, max, -1.0);
    forall i | 0 <= i < |ds| && ds[i] > t ensures |Closer(ds, ds[i])| >= max {
      SubsetSize(Within(ds, t), Closer(ds, ds[i]));
    }
  }

  /** `v` is the `max`-th smallest distance. */
  ghost predicate IsKthDistance(ds: seq<Distance>, max: nat, v: real) {
    v in ds && |Closer(ds, v)| < max <= |Within(ds, v)|
  }

  /**
   The set chosen is the `max` nearest servers with ties, and at most the servers
   within 5% of the `max`-th nearest.
   */
  lemma ChosenBetween(ds: seq<Distance>, max: nat, v: real)
    requires max <= |ds| && IsKthDistance(ds, max, v)
    ensures Within(ds, v) <= Within(ds, FinalThreshold(ds, max)) <= Within(ds, 1.05 * v)
  {
    var t := FinalThreshold(ds, max);
    ClosestSelection(ds, max);
    forall j | j in Within(ds, v) ensures j in Within(ds, t) {
      SubsetSize(Closer(ds, ds[j]), Closer(ds, v));
    }
    forall j | j in Within(ds, t) ensures j in Within(ds, 1.05 * v) {
      if ds[j] > 1.05 * v {
        assert Within(ds, v) <= ClearlyCloser(ds, ds[j]);
        SubsetSize(Within(ds, v), ClearlyCloser(ds, ds[j]));
      }
    }
  }

  lemma {:induction false} ThresholdGrows(ds: seq<Distance>, max: nat, x: real)
    requires max <= |ds|
    ensures Threshold(ds, max, x) >= x
    decreases |ds| - |Within(ds, x)|
  {
    if |Within(ds, x)| < max {
      WithinSize(ds, x);
      NextMinExists(ds, x);
      var m :| IsNextMin(ds, x, m);
      NextPass(ds, max, x, m);
      ThresholdGrows(ds, max, m * TOLERANCE);
    }
  }

  /** Every server within 5% of the nearest one is chosen. */
  lemma MarginIsChosen(ds: seq<Distance>, max: nat, near: real)
    requires 1 <= max <= |ds| && near in ds && forall j :: 0 <= j < |ds| ==> near <= ds[j]
    ensures Within(ds, 1.05 * near) <= Within(ds, FinalThreshold(ds, max))
  {
    assert Within(ds, -1.0) == {};
    assert IsNextMin(ds, -1.0, near);
    NextPass(ds, max, -1.0, near);
    ThresholdGrows(ds, max, near * TOLERANCE);
  }

  lemma KthDistanceExists(ds: seq<Distance>, max: nat)
    requires 1 <= max <= |ds|
    ensures exists v :: IsKthDistance(ds, max, v)
  {
    assert Within(ds, -1.0) == {};
    KthDistanceFrom(ds, max, -1.0);
  }

  /** Walk up through the distances until enough servers are within reach. */
  lemma {:induction false} KthDistanceFrom(ds: seq<Distance>, max: nat, x: real)
    requires |Within(ds, x)| < max <= |ds|
    ensures exists v :: IsKthDistance(ds, max, v)
    decreases |ds| - |Within(ds, x)|
  {
    WithinSize(ds, x);
    NextMinExists(ds, x);
    var m :| IsNextMin(ds, x, m);
    assert Closer(ds, m) <= Within(ds, x);
    SubsetSize(Closer(ds, m), Within(ds, x));
    if |Within(ds, m)| >= max {
      assert IsKthDistance(ds, max, m);
    } else {
      var j: nat :| j < |ds| && ds[j] == m;
      assert j in Within(ds, m) && j !in Within(ds, x);
      SubsetSize(Within(ds, x), Within(ds, m));
      WithinSize(ds, m);
      KthDistanceFrom(ds, max, m);
    }
  }

  // ---------- the loops ----------

  /** The distance of the nearest server not chosen yet. */
  method NearestUnchosen(distances: array<Distance>, choose: array<bool>, ghost x: real) returns (minDist: Distance)
    requires choose.Length == distances.Length
    requires forall i :: 0 <= i < distances.Length ==> (choose[i] <==> distances[i] <= x)
    requires exists j :: 0 <= j < distances.Length && distances[j] > x
    ensures IsNextMin(distances[..], x, minDist)
  {
    minDist := MAX_DISTANCE;
    ghost var found := false;
    for i := 0 to distances.Length
      invariant found ==> minDist in distances[..] && minDist > x
      invariant !found ==> minDist == MAX_DISTANCE
      invariant forall j :: 0 <= j < i && distances[j] > x ==> found && minDist <= distances[j]
    {
      if !choose[i] && distances[i] <= minDist {
        minDist := distances[i];
        found := true;
      }
    }
  }

  /** The selection loop: one flag per server, set exactly within the final threshold. */
  method ChooseClosest(distances: array<Distance>, max: nat) returns (choose: array<bool>)
    requires max <= distances.Length
    ensures fresh(choose) && choose.Length == distances.Length
    ensures forall i :: 0 <= i < distances.Length ==>
              (choose[i] <==> distances[i] <= FinalThreshold(distances[..], max))
  {
    choose := new bool[distances.Length](_ => false);
    var chosen := 0;
    ghost var ds := distances[..];
    ghost var x := -1.0;
    assert Within(ds, x) == {};
    while chosen < max
      invariant distances[..] == ds
      invariant chosen == |Within(ds, x)|
      invariant forall i :: 0 <= i < |ds| ==> (choose[i] <==> ds[i] <= x)
      invariant Threshold(ds, max, x) == FinalThreshold(ds, max)
      decreases |ds| - |Within(ds, x)|
    {
      WithinSize(ds, x);
      chosen, x := ChooseMore(distances, choose, chosen, x, max);
    }
  }

  /** One round of the loop: the nearest server left, and a pass with 5% more than its distance. */
  method ChooseMore(distances: array<Distance>, choose: array<bool>, chosen: nat, ghost x: real, ghost max: nat)
    returns (chosen': nat, ghost x': real)
    requires choose.Length == distances.Length && chosen == |Within(distances[..], x)| < max <= distances.Length
    requires forall i :: 0 <= i < distances.Length ==> (choose[i] <==> distances[i] <= x)
    modifies choose
    ensures chosen' == |Within(distances[..], x')| && |Within(distances[..], x)| < chosen' <= distances.Length
    ensures forall i :: 0 <= i < distances.Length ==> (choose[i] <==> distances[i] <= x')
    ensures Threshold(distances[..], max, x) == Threshold(distances[..], max, x')
  {
    ghost var ds := distances[..];
    WithinSize(ds, x);
    var m := NearestUnchosen(distances, choose, x);
    NextPass(ds, max, x, m);
    var minDist := m * TOLERANCE;
    chosen' := ChoosePass(distances, choose, chosen, x, minDist);
    x' := minDist;
    assert distances[..] == ds;
  }

  /** One pass: choose all servers within `minDist`. */
  method ChoosePass(distances: array<Distance>, choose: array<bool>, chosen: nat, ghost x: real, minDist: real)
    returns (chosen': nat)
    requires choose.Length == distances.Length
    requires forall i :: 0 <= i < distances.Length ==> (choose[i] <==> distances[i] <= x)
    requires x <= minDist && chosen == |Within(distances[..], x)|
    modifies choose
    ensures forall i :: 0 <= i < distances.Length ==> (choose[i] <==> distances[i] <= minDist)
    ensures chosen' == |Within(distances[..], minDist)|
  {
    chosen' := chosen;
    ghost var ds := distances[..];
    ghost var done := Within(ds, x);
    for i := 0 to distances.Length
      invariant distances[..] == ds
      invariant chosen' == |done|
      invariant done <= Within(ds, minDist)
      invariant forall j: nat :: j < |ds| ==> (j in done <==> ds[j] <= (if j < i then minDist else x))
      invariant forall j :: 0 <= j < |ds| ==> (choose[j] <==> ds[j] <= (if j < i then minDist else x))
    {
      if !choose[i] && distances[i] <= minDist {
        choose[i] := true;
        chosen' := chosen' + 1;
        done := done + {i};
      }
    }
    assert done == Within(ds, minDist);
  }
}
