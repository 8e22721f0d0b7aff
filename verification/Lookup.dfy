/**
 `Zone.FindLabels`: expansion of a name over the client's targets, the requested
 types and aliases. Aliases are stored as MF records and looked up again with the
 same targets and types; the code does not guard against alias loops.
 */
module Lookup {
  import opened Common
  import opened ZoneModel

  /** What stays fixed during one lookup. */
  datatype Query = Query(labels: LabelMap, targets: seq<string>, qts: seq<RRType>)

  /** `key` is the label matched; it is `None` where the code stores a nil label. */
  datatype Match = Match(key: Option<string>, qtype: RRType)

  /** `Starved` is a recursion cut off before it came to an end. */
  datatype Result = Matches(ms: seq<Match>) | Crash | Starved

  function TargetName(s: string, target: string): (name: string) {
    if target == "@" then s
    else if |s| > 0 then s + "." + target
    else target
  }

  /** One round of the two loops: target number `target`, type number `qt`. */
  datatype Hop = Hop(target: nat, qt: nat)

  /** The round `a` comes before the round `b`. */
  predicate HopLess(a: Hop, b: Hop) {
    a.target < b.target || (a.target == b.target && a.qt < b.qt)
  }

  predicate InRange(q: Query, h: Hop) {
    h.target < |q.targets| && h.qt < |q.qts|
  }

  function NameAt(q: Query, s: string, i: nat): (name: string)
    requires i < |q.targets|
  {
    TargetName(s, q.targets[i])
  }

  /** The round finds a label with alias records. */
  predicate HasAlias(q: Query, s: string, h: Hop) {
    && InRange(q, h)
    && q.qts[h.qt] == TYPE_MF
    && NameAt(q, s, h.target) in q.labels
    && TYPE_MF in q.labels[NameAt(q, s, h.target)].records
  }

  /** The round follows an alias: `FirstRR` finds a first record. */
  predicate AliasHop(q: Query, s: string, h: Hop) {
    HasAlias(q, s, h) && q.labels[NameAt(q, s, h.target)].records[TYPE_MF] != []
  }

  function AliasName(q: Query, s: string, h: Hop): (name: string)
    requires AliasHop(q, s, h)
  {
    q.labels[NameAt(q, s, h.target)].records[TYPE_MF][0].rr.data
  }

  /** The round adds `m` itself. The ANY case stores the label of `s`, which may be missing. */
  predicate LeafHop(q: Query, s: string, h: Hop, m: Match) {
    && InRange(q, h)
    && NameAt(q, s, h.target) in q.labels
    && var name, t := NameAt(q, s, h.target), q.qts[h.qt];
       if t == TYPE_ANY then m == Match(if s in q.labels then Some(s) else None, TYPE_ANY)
       else
         && t != TYPE_MF
         && t in q.labels[name].records && q.labels[name].records[t] != []
         && m == Match(Some(name), t)
  }

  function LeafMatch(q: Query, s: string, h: Hop): (m: Match)
    requires InRange(q, h)
  {
    if q.qts[h.qt] == TYPE_ANY then Match(if s in q.labels then Some(s) else None, TYPE_ANY)
    else Match(Some(NameAt(q, s, h.target)), q.qts[h.qt])
  }

  /** First failure wins, as in sequential code. */
  function Append(a: Result, b: Result): (r: Result) {
    if !a.Matches? then a
    else if !b.Matches? then b
    else Matches(a.ms + b.ms)
  }

  /** `FindLabels` with at most `depth` nested calls. */
  function Find(q: Query, s: string, depth: nat): (r: Result)
    decreases depth, 3
  {
    if depth == 0 then Starved
    else
      match FindFrom(q, s, Hop(0, 0), depth)
      case Crash => Crash
      case Starved => Starved
      case Matches(ms) => if ms == [] && s in q.labels then Matches([Match(Some(s), TYPE_NONE)]) else Matches(ms)
  }

  /** The rounds from `h` on, in the order of the loops. */
  function FindFrom(q: Query, s: string, h: Hop, depth: nat): (r: Result)
    requires depth > 0 && h.target <= |q.targets| && h.qt <= |q.qts|
    decreases depth, 2, |q.targets| - h.target, |q.qts| - h.qt
  {
    if h.target == |q.targets| then Matches([])
    else if h.qt == |q.qts| then FindFrom(q, s, Hop(h.target + 1, 0), depth)
    else Append(FindAt(q, s, h, depth), FindFrom(q, s, Hop(h.target, h.qt + 1), depth))
  }

  /** One round. */
  function FindAt(q: Query, s: string, h: Hop, depth: nat): (r: Result)
    requires depth > 0 && InRange(q, h)
    decreases depth, 1
  {
    if HasAlias(q, s, h) then
      if AliasHop(q, s, h) then Find(q, AliasName(q, s, h), depth - 1) else Crash
    else if LeafHop(q, s, h, LeafMatch(q, s, h)) then Matches([LeafMatch(q, s, h)])
    else Matches([])
  }

  /** The loops themselves; `depth` bounds the recursion and is not computed with. */
  method FindLabels(q: Query, s: string, ghost depth: nat) returns (r: Result)
    requires !Find(q, s, depth).Starved?
    ensures r == Find(q, s, depth)
    decreases depth, 1
  {
    var matches: seq<Match> := [];
    ghost var goal := FindFrom(q, s, Hop(0, 0), depth);
    for i := 0 to |q.targets|
      invariant goal == Append(Matches(matches), FindFrom(q, s, Hop(i, 0), depth))
    {
      var name := TargetName(s, q.targets[i]);
      if name in q.labels {
        for j := 0 to |q.qts|
          invariant goal == Append(Matches(matches), FindFrom(q, s, Hop(i, j), depth))
        {
          AppendStep(matches, FindAt(q, s, Hop(i, j), depth), FindFrom(q, s, Hop(i, j + 1), depth));
          var more := FindRound(q, s, Hop(i, j), depth);
          if more.Crash? {
            return Crash;
          }
          matches := matches + more.ms;
        }
      } else {
        SkipTarget(q, s, Hop(i, 0), depth);
      }
    }
    if |matches| == 0 {
      if s in q.labels {
        matches := [Match(Some(s), TYPE_NONE)];
      }
    }
    return Matches(matches);
  }

  /** The body of the inner loop, on a label that exists. */
  method FindRound(q: Query, s: string, h: Hop, ghost depth: nat) returns (r: Result)
    requires depth > 0 && InRange(q, h) && NameAt(q, s, h.target) in q.labels
    requires !FindAt(q, s, h, depth).Starved?
    ensures r == FindAt(q, s, h, depth)
    decreases depth, 0
  {
    var name, qtype := TargetName(s, q.targets[h.target]), q.qts[h.qt];
    var l := q.labels[name];
    if qtype == TYPE_ANY {
      return Matches([Match(if s in q.labels then Some(s) else None, qtype)]);
    } else if qtype == TYPE_MF {
      if TYPE_MF in l.records {
        if l.records[TYPE_MF] == [] {
          return Crash;
        }
        r := FindLabels(q, l.records[TYPE_MF][0].rr.data, depth - 1);
        return;
      }
    } else if qtype in l.records && |l.records[qtype]| > 0 {
      return Matches([Match(Some(name), qtype)]);
    }
    r := Matches([]);
  }

  /** Adding one round to what was found so far. */
  lemma AppendStep(ms: seq<Match>, a: Result, b: Result)
    ensures Append(Matches(ms), Append(a, b)) == if a.Matches? then Append(Matches(ms + a.ms), b) else a
  {
    if a.Matches? && b.Matches? {
      assert ms + (a.ms + b.ms) == ms + a.ms + b.ms;
    }
  }

  lemma {:induction false} SkipTarget(q: Query, s: string, h: Hop, depth: nat)
    requires depth > 0 && h.target < |q.targets| && h.qt <= |q.qts|
    requires NameAt(q, s, h.target) !in q.labels
    ensures FindFrom(q, s, h, depth) == FindFrom(q, s, Hop(h.target + 1, 0), depth)
    decreases |q.qts| - h.qt
  {
    if h.qt < |q.qts| {
      SkipTarget(q, s, Hop(h.target, h.qt + 1), depth);
      var rest := FindFrom(q, s, Hop(h.target, h.qt + 1), depth);
      if rest.Matches? { assert [] + rest.ms == rest.ms; }
    }
  }

  lemma {:induction false} SkipMissing(q: Query, s: string, i: nat, end: nat, depth: nat)
    requires depth > 0 && i <= end <= |q.targets|
    requires forall j: nat :: i <= j < end ==> NameAt(q, s, j) !in q.labels
    ensures FindFrom(q, s, Hop(i, 0), depth) == FindFrom(q, s, Hop(end, 0), depth)
    decreases |q.targets| - i
  {
    if i < end {
      SkipTarget(q, s, Hop(i, 0), depth);
      SkipMissing(q, s, i + 1, end, depth);
    }
  }

  lemma AppendNothing(a: Result)
    ensures Append(a, Matches([])) == a && Append(Matches([]), a) == a
  {
    if a.Matches? { assert a.ms + [] == a.ms && [] + a.ms == a.ms; }
  }

  /** A label that is nothing but an alias: looking it up is looking up what it stands for. */
  lemma AliasIsFollowed(q: Query, s: string, i: nat, t: RRType, depth: nat)
    requires depth > 0 && q.qts == [4, 5, t] && t != 4 && t != 255
    requires i < |q.targets| && q.targets[i] == "@"
    requires forall j: nat :: j < |q.targets| && j != i ==> NameAt(q, s, j) !in q.labels
    requires s in q.labels && q.labels[s].records.Keys == {4} && q.labels[s].records[4] != []
    ensures FindFrom(q, s, Hop(0, 0), depth + 1) == Find(q, q.labels[s].records[4][0].rr.data, depth)
  {
    var d := depth + 1;
    var found := Find(q, q.labels[s].records[4][0].rr.data, depth);
    SkipMissing(q, s, 0, i, d);
    SkipMissing(q, s, i + 1, |q.targets|, d);
    assert NameAt(q, s, i) == s;
    assert FindFrom(q, s, Hop(i, 3), d) == Matches([]);
    assert FindFrom(q, s, Hop(i, 2), d) == Append(FindAt(q, s, Hop(i, 2), d), Matches([])) == Matches([]);
    assert FindFrom(q, s, Hop(i, 1), d) == Append(FindAt(q, s, Hop(i, 1), d), Matches([])) == Matches([]);
    assert FindAt(q, s, Hop(i, 0), d) == found;
    AppendNothing(found);
  }
}
