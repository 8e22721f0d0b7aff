/**
 An independent account of what `FindLabels` returns. A derivation of a match is the
 list of loop rounds (target, type) that lead to it, through zero or more aliases.
 The result is the list of all derivable matches, one per derivation, in the
 lexicographic order of the derivations: targets first, types second, depth first.
 */
module Derivations {
  import opened Common
  import opened ZoneModel
  import opened Lookup

  predicate LexLess(p: seq<Hop>, r: seq<Hop>)
    decreases |p|
  {
    r != [] && (p == [] || HopLess(p[0], r[0]) || (p[0] == r[0] && LexLess(p[1..], r[1..])))
  }

  lemma {:induction false} LexAsymmetric(p: seq<Hop>, r: seq<Hop>)
    requires LexLess(p, r)
    ensures p != r && !LexLess(r, p)
  {
    if p != [] && p[0] == r[0] {
      LexAsymmetric(p[1..], r[1..]);
    }
  }

  /** `w` is a run of rounds that each follow an alias. */
  ghost predicate Walk(q: Query, s: string, w: seq<Hop>)
    decreases |w|
  {
    w == [] || (AliasHop(q, s, w[0]) && Walk(q, AliasName(q, s, w[0]), w[1..]))
  }

  ghost function End(q: Query, s: string, w: seq<Hop>): (t: string)
    requires Walk(q, s, w)
    decreases |w|
  {
    if w == [] then s else End(q, AliasName(q, s, w[0]), w[1..])
  }

  ghost predicate NoLeaf(q: Query, s: string) {
    forall h, m :: !LeafHop(q, s, h, m)
  }

  /** No record is in reach of `s`, and no alias in reach leads to an existing label. */
  ghost predicate Silent(q: Query, s: string) {
    forall w :: Walk(q, s, w) ==> NoLeaf(q, End(q, s, w)) && (w != [] ==> End(q, s, w) !in q.labels)
  }

  /**
   `m` is found from `s` by the rounds `p`: aliases, then a round that adds `m`; or
   aliases to an existing label from which nothing else is found, which stands for
   "the name exists" and has type 0.
   */
  ghost predicate Derives(q: Query, s: string, p: seq<Hop>, m: Match)
    decreases |p|
  {
    if p == [] then s in q.labels && Silent(q, s) && m == Match(Some(s), TYPE_NONE)
    else if AliasHop(q, s, p[0]) then Derives(q, AliasName(q, s, p[0]), p[1..], m)
    else |p| == 1 && LeafHop(q, s, p[0], m)
  }

  // ---------- the rounds, written out ----------

  /** The name looked up for a target: the name itself, the target alone at the apex, or both. */
  ghost predicate LooksUp(s: string, target: string, k: string) {
    if target == "@" then k == s
    else if s == "" then k == target
    else k == s + "." + target
  }

  /** A round for a plain type finds the name for its target, if that has records of the type. */
  lemma PlainRound(q: Query, s: string, i: nat, j: nat, k: string)
    requires i < |q.targets| && j < |q.qts| && q.qts[j] != 255 && q.qts[j] != 4
    ensures Derives(q, s, [Hop(i, j)], Match(Some(k), q.qts[j])) <==>
            && LooksUp(s, q.targets[i], k) && k in q.labels
            && q.qts[j] in q.labels[k].records && q.labels[k].records[q.qts[j]] != []
  {
    assert !AliasHop(q, s, Hop(i, j));
  }

  /** A round for aliases goes on from the first alias of the name for its target. */
  lemma AliasRound(q: Query, s: string, i: nat, j: nat, k: string, p: seq<Hop>, m: Match)
    requires i < |q.targets| && j < |q.qts| && q.qts[j] == 4 && LooksUp(s, q.targets[i], k)
    ensures Derives(q, s, [Hop(i, j)] + p, m) <==>
            && k in q.labels && 4 in q.labels[k].records && q.labels[k].records[4] != []
            && Derives(q, q.labels[k].records[4][0].rr.data, p, m)
  {
    assert NameAt(q, s, i) == k;
    if AliasHop(q, s, Hop(i, j)) {
      AliasDerives(q, s, Hop(i, j), p, m);
    }
  }

  /** A round for ANY finds the label asked for, whatever target led to it. */
  lemma AnyRound(q: Query, s: string, i: nat, j: nat, k: string, m: Match)
    requires i < |q.targets| && j < |q.qts| && q.qts[j] == 255 && LooksUp(s, q.targets[i], k)
    ensures Derives(q, s, [Hop(i, j)], m) <==>
            k in q.labels && m == Match(if s in q.labels then Some(s) else None, 255)
  {
    assert NameAt(q, s, i) == k;
    assert !AliasHop(q, s, Hop(i, j));
  }

  // ---------- silence ----------

  lemma SilentStep(q: Query, s: string)
    ensures Silent(q, s) <==>
            && NoLeaf(q, s)
            && forall h :: AliasHop(q, s, h) ==> AliasName(q, s, h) !in q.labels && Silent(q, AliasName(q, s, h))
  {
    if Silent(q, s) {
      assert Walk(q, s, []) && End(q, s, []) == s;
      forall h | AliasHop(q, s, h)
        ensures AliasName(q, s, h) !in q.labels && Silent(q, AliasName(q, s, h))
      {
        var t := AliasName(q, s, h);
        WalkCons(q, s, h, []);
        forall w | Walk(q, t, w)
          ensures NoLeaf(q, End(q, t, w)) && (w != [] ==> End(q, t, w) !in q.labels)
        {
          WalkCons(q, s, h, w);
        }
      }
    } else {
      var w :| Walk(q, s, w) && !(NoLeaf(q, End(q, s, w)) && (w != [] ==> End(q, s, w) !in q.labels));
      if w != [] && AliasName(q, s, w[0]) !in q.labels {
        assert Walk(q, AliasName(q, s, w[0]), w[1..]);
      }
    }
  }

  lemma WalkCons(q: Query, s: string, h: Hop, w: seq<Hop>)
    requires AliasHop(q, s, h) && Walk(q, AliasName(q, s, h), w)
    ensures Walk(q, s, [h] + w) && End(q, s, [h] + w) == End(q, AliasName(q, s, h), w)
  {
    assert ([h] + w)[1..] == w;
  }

  /** Nothing is found from `s` exactly when it is not a label and is silent. */
  lemma {:induction false} FoundNothing(q: Query, s: string, depth: nat)
    requires Find(q, s, depth).Matches?
    ensures FindFrom(q, s, Hop(0, 0), depth) == Matches([]) <==> Silent(q, s)
    ensures Find(q, s, depth) == Matches([]) <==> s !in q.labels && Silent(q, s)
    decreases depth
  {
    SilentStep(q, s);
    if FindFrom(q, s, Hop(0, 0), depth).ms == [] {
      forall h, m ensures !LeafHop(q, s, h, m) {
        if InRange(q, h) {
          EveryRoundEmpty(q, s, Hop(0, 0), h, depth);
        }
      }
      forall h | AliasHop(q, s, h)
        ensures AliasName(q, s, h) !in q.labels && Silent(q, AliasName(q, s, h))
      {
        EveryRoundEmpty(q, s, Hop(0, 0), h, depth);
        FoundNothing(q, AliasName(q, s, h), depth - 1);
      }
    } else {
      var h := FirstProductive(q, s, Hop(0, 0), depth);
      if AliasHop(q, s, h) {
        FoundNothing(q, AliasName(q, s, h), depth - 1);
      } else {
        assert LeafHop(q, s, h, LeafMatch(q, s, h));
      }
    }
  }

  lemma {:induction false} EveryRoundEmpty(q: Query, s: string, h: Hop, g: Hop, depth: nat)
    requires depth > 0 && h.target <= |q.targets| && h.qt <= |q.qts| && InRange(q, g) && !HopLess(g, h)
    requires FindFrom(q, s, h, depth) == Matches([])
    ensures FindAt(q, s, g, depth) == Matches([])
    decreases |q.targets| - h.target, |q.qts| - h.qt
  {
    if h.qt == |q.qts| {
      EveryRoundEmpty(q, s, Hop(h.target + 1, 0), g, depth);
    } else if h != g {
      EveryRoundEmpty(q, s, Hop(h.target, h.qt + 1), g, depth);
    }
  }

  lemma {:induction false} FirstProductive(q: Query, s: string, h: Hop, depth: nat) returns (g: Hop)
    requires depth > 0 && h.target <= |q.targets| && h.qt <= |q.qts|
    requires FindFrom(q, s, h, depth).Matches? && FindFrom(q, s, h, depth).ms != []
    ensures InRange(q, g) && FindAt(q, s, g, depth).Matches? && FindAt(q, s, g, depth).ms != []
    decreases |q.targets| - h.target, |q.qts| - h.qt
  {
    if h.qt == |q.qts| {
      g := FirstProductive(q, s, Hop(h.target + 1, 0), depth);
    } else if FindAt(q, s, h, depth).ms != [] {
      g := h;
    } else {
      g := FirstProductive(q, s, Hop(h.target, h.qt + 1), depth);
    }
  }

  // ---------- the listing ----------

  ghost predicate LexSorted(ps: seq<seq<Hop>>) {
    forall i, j :: 0 <= i < j < |ps| ==> LexLess(ps[i], ps[j])
  }

  /** `ps` are exactly the derivations from `s`, in order, and `ms` what they derive. */
  ghost predicate Lists(q: Query, s: string, ms: seq<Match>, ps: seq<seq<Hop>>) {
    && |ms| == |ps| && LexSorted(ps)
    && (forall k :: 0 <= k < |ps| ==> Derives(q, s, ps[k], ms[k]))
    && forall p, m :: Derives(q, s, p, m) ==> p in ps
  }

  /** The same, for derivations whose first round is `lo` or later. */
  ghost predicate ListsFrom(q: Query, s: string, lo: Hop, ms: seq<Match>, ps: seq<seq<Hop>>) {
    && |ms| == |ps| && LexSorted(ps)
    && (forall k :: 0 <= k < |ps| ==> ps[k] != [] && !HopLess(ps[k][0], lo) && Derives(q, s, ps[k], ms[k]))
    && forall p, m :: p != [] && !HopLess(p[0], lo) && Derives(q, s, p, m) ==> p in ps
  }

  /** `FindLabels` lists all derivations of a name, each once, in lexicographic order. */
  lemma {:induction false} FindListsDerivations(q: Query, s: string, depth: nat) returns (ps: seq<seq<Hop>>)
    requires Find(q, s, depth).Matches?
    ensures Lists(q, s, Find(q, s, depth).ms, ps)
    decreases depth, 2
  {
    var ms := FindFrom(q, s, Hop(0, 0), depth).ms;
    ps := ListRounds(q, s, Hop(0, 0), depth);
    FoundNothing(q, s, depth);
    if ms == [] && s in q.labels {
      ps := [[]];
      assert Derives(q, s, [], Match(Some(s), TYPE_NONE));
    }
    forall p, m | Derives(q, s, p, m) ensures p in ps {
    }
  }

  lemma {:induction false} ListRounds(q: Query, s: string, h: Hop, depth: nat) returns (ps: seq<seq<Hop>>)
    requires depth > 0 && h.target <= |q.targets| && h.qt <= |q.qts| && FindFrom(q, s, h, depth).Matches?
    ensures ListsFrom(q, s, h, FindFrom(q, s, h, depth).ms, ps)
    decreases depth, 1, |q.targets| - h.target, |q.qts| - h.qt
  {
    if h.target == |q.targets| {
      ps := [];
      NoMoreRounds(q, s, h);
    } else if h.qt == |q.qts| {
      ps := ListRounds(q, s, Hop(h.target + 1, 0), depth);
      NextTarget(q, s, h, FindFrom(q, s, h, depth).ms, ps);
    } else {
      var rest := ListRounds(q, s, Hop(h.target, h.qt + 1), depth);
      var restMs := FindFrom(q, s, Hop(h.target, h.qt + 1), depth).ms;
      if AliasHop(q, s, h) {
        var sub := FindListsDerivations(q, AliasName(q, s, h), depth - 1);
        ps := ConsAlias(q, s, h, Find(q, AliasName(q, s, h), depth - 1).ms, sub, restMs, rest);
      } else if LeafHop(q, s, h, LeafMatch(q, s, h)) {
        ConsLeaf(q, s, h, restMs, rest);
        ps := [[h]] + rest;
      } else {
        ps := rest;
        assert [] + restMs == restMs;
        ConsNothing(q, s, h, restMs, rest);
      }
    }
  }

  lemma DerivesInRange(q: Query, s: string, p: seq<Hop>, m: Match)
    requires p != [] && Derives(q, s, p, m)
    ensures InRange(q, p[0])
  {
  }

  lemma NoMoreRounds(q: Query, s: string, h: Hop)
    requires h.target == |q.targets|
    ensures ListsFrom(q, s, h, [], [])
  {
    forall p, m | p != [] && !HopLess(p[0], h) ensures !Derives(q, s, p, m) {
      if Derives(q, s, p, m) { DerivesInRange(q, s, p, m); }
    }
  }

  lemma NextTarget(q: Query, s: string, h: Hop, ms: seq<Match>, ps: seq<seq<Hop>>)
    requires h.qt == |q.qts| && ListsFrom(q, s, Hop(h.target + 1, 0), ms, ps)
    ensures ListsFrom(q, s, h, ms, ps)
  {
    forall p, m | p != [] && !HopLess(p[0], h) && Derives(q, s, p, m) ensures p in ps {
      DerivesInRange(q, s, p, m);
      assert !HopLess(p[0], Hop(h.target + 1, 0));
    }
  }

  lemma ConsNothing(q: Query, s: string, h: Hop, ms: seq<Match>, ps: seq<seq<Hop>>)
    requires InRange(q, h) && !AliasHop(q, s, h) && !LeafHop(q, s, h, LeafMatch(q, s, h))
    requires ListsFrom(q, s, Hop(h.target, h.qt + 1), ms, ps)
    ensures ListsFrom(q, s, h, ms, ps)
  {
    forall p, m | p != [] && !HopLess(p[0], h) && Derives(q, s, p, m) ensures p in ps {
      assert p[0] != h;
      assert !HopLess(p[0], Hop(h.target, h.qt + 1));
    }
  }

  /** Derivations that start with `h` come before those whose first round is later. */
  lemma SortedConcat(h: Hop, pre: seq<seq<Hop>>, ps: seq<seq<Hop>>)
    requires LexSorted(pre) && LexSorted(ps)
    requires forall i :: 0 <= i < |pre| ==> pre[i] != [] && pre[i][0] == h
    requires forall i :: 0 <= i < |ps| ==> ps[i] != [] && HopLess(h, ps[i][0])
    ensures LexSorted(pre + ps)
  {
    var r := pre + ps;
    forall i, j | 0 <= i < j < |r| ensures LexLess(r[i], r[j]) {
      if j < |pre| {
        assert LexLess(pre[i], pre[j]);
      } else if i >= |pre| {
        assert LexLess(ps[i - |pre|], ps[j - |pre|]);
      }
    }
  }

  lemma ConsLeaf(q: Query, s: string, h: Hop, ms: seq<Match>, ps: seq<seq<Hop>>)
    requires InRange(q, h) && !AliasHop(q, s, h) && LeafHop(q, s, h, LeafMatch(q, s, h))
    requires ListsFrom(q, s, Hop(h.target, h.qt + 1), ms, ps)
    ensures ListsFrom(q, s, h, [LeafMatch(q, s, h)] + ms, [[h]] + ps)
  {
    SortedConcat(h, [[h]], ps);
    var r, rms := [[h]] + ps, [LeafMatch(q, s, h)] + ms;
    forall k | 0 <= k < |r| ensures r[k] != [] && !HopLess(r[k][0], h) && Derives(q, s, r[k], rms[k]) {
      if k > 0 { assert r[k] == ps[k - 1] && rms[k] == ms[k - 1]; }
    }
    forall p, m | p != [] && !HopLess(p[0], h) && Derives(q, s, p, m) ensures p in r {
      if p[0] == h {
        assert p == [h] == r[0];
      } else {
        FoundInRest(q, s, h, ms, ps, p, m);
        assert p in ps;
      }
    }
  }

  lemma FoundInRest(q: Query, s: string, h: Hop, ms: seq<Match>, ps: seq<seq<Hop>>, p: seq<Hop>, m: Match)
    requires ListsFrom(q, s, Hop(h.target, h.qt + 1), ms, ps)
    requires p != [] && !HopLess(p[0], h) && p[0] != h && Derives(q, s, p, m)
    ensures p in ps
  {
    assert !HopLess(p[0], Hop(h.target, h.qt + 1));
  }

  ghost function PrefixAll(h: Hop, ps: seq<seq<Hop>>): (r: seq<seq<Hop>>)
    ensures |r| == |ps| && forall i :: 0 <= i < |ps| ==> r[i] == [h] + ps[i]
  {
    seq(|ps|, i requires 0 <= i < |ps| => [h] + ps[i])
  }

  lemma PrefixSorted(h: Hop, ps: seq<seq<Hop>>)
    requires LexSorted(ps)
    ensures LexSorted(PrefixAll(h, ps))
  {
    var r := PrefixAll(h, ps);
    forall i, j | 0 <= i < j < |r| ensures LexLess(r[i], r[j]) {
      assert r[i][1..] == ps[i] && r[j][1..] == ps[j];
    }
  }

  lemma AliasDerives(q: Query, s: string, h: Hop, p: seq<Hop>, m: Match)
    requires AliasHop(q, s, h)
    ensures Derives(q, s, [h] + p, m) <==> Derives(q, AliasName(q, s, h), p, m)
  {
    assert ([h] + p)[1..] == p;
  }

  lemma ConsAlias(q: Query, s: string, h: Hop, subMs: seq<Match>, sub: seq<seq<Hop>>,
                  ms: seq<Match>, ps: seq<seq<Hop>>) returns (r: seq<seq<Hop>>)
    requires AliasHop(q, s, h) && Lists(q, AliasName(q, s, h), subMs, sub)
    requires ListsFrom(q, s, Hop(h.target, h.qt + 1), ms, ps)
    ensures ListsFrom(q, s, h, subMs + ms, r)
  {
    var pre := PrefixAll(h, sub);
    r := pre + ps;
    PrefixSorted(h, sub);
    SortedConcat(h, pre, ps);
    var rms := subMs + ms;
    forall k | 0 <= k < |r| ensures r[k] != [] && !HopLess(r[k][0], h) && Derives(q, s, r[k], rms[k]) {
      if k < |pre| {
        AliasDerives(q, s, h, sub[k], subMs[k]);
      } else {
        assert r[k] == ps[k - |pre|] && rms[k] == ms[k - |pre|];
      }
    }
    forall p, m | p != [] && !HopLess(p[0], h) && Derives(q, s, p, m) ensures p in r {
      if p[0] == h {
        FoundInAlias(q, s, h, subMs, sub, p, m);
        assert p in pre;
      } else {
        FoundInRest(q, s, h, ms, ps, p, m);
        assert p in ps;
      }
    }
  }

  lemma FoundInAlias(q: Query, s: string, h: Hop, subMs: seq<Match>, sub: seq<seq<Hop>>, p: seq<Hop>, m: Match)
    requires AliasHop(q, s, h) && Lists(q, AliasName(q, s, h), subMs, sub)
    requires p != [] && p[0] == h && Derives(q, s, p, m)
    ensures p in PrefixAll(h, sub)
  {
    assert Derives(q, AliasName(q, s, h), p[1..], m);
    var k :| 0 <= k < |sub| && sub[k] == p[1..];
    assert PrefixAll(h, sub)[k] == p;
  }

  lemma {:induction false} DerivesUnique(q: Query, s: string, p: seq<Hop>, m: Match, m': Match)
    requires Derives(q, s, p, m) && Derives(q, s, p, m')
    ensures m == m'
    decreases |p|
  {
    if p != [] && AliasHop(q, s, p[0]) {
      DerivesUnique(q, AliasName(q, s, p[0]), p[1..], m, m');
    }
  }

  ghost predicate Derivable(q: Query, s: string, m: Match) {
    exists p :: Derives(q, s, p, m)
  }

  lemma DerivationExists(q: Query, s: string, p: seq<Hop>, m: Match)
    requires Derives(q, s, p, m)
    ensures Derivable(q, s, m)
  {
  }

  lemma DerivableIsFound(q: Query, s: string, ms: seq<Match>, ps: seq<seq<Hop>>, p: seq<Hop>, m: Match)
    requires Lists(q, s, ms, ps) && Derives(q, s, p, m)
    ensures m in ms
  {
    assert p in ps;
    var k :| 0 <= k < |ps| && ps[k] == p;
    DerivesUnique(q, s, p, m, ms[k]);
  }

  /** Sound and complete: the matches returned are exactly the derivable ones. */
  lemma FoundIffDerivable(q: Query, s: string, depth: nat, m: Match)
    requires Find(q, s, depth).Matches?
    ensures m in Find(q, s, depth).ms <==> Derivable(q, s, m)
  {
    var ms := Find(q, s, depth).ms;
    var ps := FindListsDerivations(q, s, depth);
    if m in ms {
      var k :| 0 <= k < |ms| && ms[k] == m;
      DerivationExists(q, s, ps[k], m);
    } else if Derivable(q, s, m) {
      var p :| Derives(q, s, p, m);
      DerivableIsFound(q, s, ms, ps, p, m);
    }
  }

  /** An existing name always produces a match, whatever the targets and types. */
  lemma ExistingNameMatches(q: Query, s: string, depth: nat)
    requires Find(q, s, depth).Matches? && s in q.labels
    ensures Find(q, s, depth).ms != []
  {
    FoundNothing(q, s, depth);
  }
}
