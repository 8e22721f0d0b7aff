/** What `Picker` guarantees, for every client, health state and sequence of draws. */
module PickerTheorems {
  import opened Common
  import opened ZoneModel
  import opened WeightedDraw
  import opened Picker
  import C = Closest

  /** A label as zone loading leaves it when no configured weight is negative. */
  ghost predicate Loaded(l: Label) {
    && Consistent(l)
    && forall t :: t in l.records ==>
         && Descending(l.records[t])
         && NonNegative(l.records[t])
         && (AlwaysWeighted(t) && l.records[t] != [] ==> WeightOf(l, t) > 0)
  }

  lemma ServersProperties(l: Label, qtype: RRType, healthy: string -> bool)
    requires qtype in l.records
    ensures var s := Servers(l, qtype, healthy);
            && multiset(s) <= multiset(l.records[qtype])
            && (l.tested ==> forall r :: r in s <==> r in l.records[qtype] && Passes(healthy, r))
            && (!l.tested ==> s == l.records[qtype])
            && (Descending(l.records[qtype]) ==> Descending(s))
            && (NonNegative(l.records[qtype]) ==> NonNegative(s))
  {
    var rs, p := l.records[qtype], PassesTest(healthy);
    FilterSubset(rs, p);
    FilterMembers(rs, p);
    if Descending(rs) { FilterKeepsDescending(rs, p); }
    if NonNegative(rs) { FilterKeepsNonNegative(rs, p); }
  }

  lemma CandidatesProperties(servers: seq<Record>, qtype: RRType, m: nat, client: Option<Client>)
    requires m <= |servers|
    ensures var c := Candidates(servers, qtype, m, client);
            && m <= |c|
            && multiset(c) <= multiset(servers)
            && (Descending(servers) ==> Descending(c))
            && (NonNegative(servers) ==> NonNegative(c))
  {
    CandidatesEnough(servers, qtype, m, client);
    if UsesClosest(qtype, client) && m < |servers| {
      var p := Nearby(client.value, C.FinalThreshold(Distances(client.value, servers), m));
      FilterSubset(servers, p);
      if Descending(servers) { FilterKeepsDescending(servers, p); }
      if NonNegative(servers) { FilterKeepsNonNegative(servers, p); }
    }
  }

  /** How many records a query for one type returns. */
  function PickCount(l: Label, t: RRType, max: int, healthy: string -> bool): (n: int)
    requires t in l.records
  {
    var s := Servers(l, t, healthy);
    if ReturnsAll(l, t, healthy) then |s| else Wanted(t, max, |s|)
  }

  function CountOf(l: Label, max: int, healthy: string -> bool): (count: RRType -> int) {
    t => if t in l.records then PickCount(l, t, max, healthy) else 0
  }

  function SumOf(types: seq<RRType>, count: RRType -> int): (n: int) {
    if types == [] then 0 else SumOf(types[..|types| - 1], count) + count(types[|types| - 1])
  }

  lemma {:induction false} SumZeroIff(types: seq<RRType>, count: RRType -> int)
    requires forall t :: count(t) >= 0
    ensures SumOf(types, count) >= 0
    ensures SumOf(types, count) == 0 <==> forall t :: t in types ==> count(t) == 0
  {
    if types != [] {
      var n := |types| - 1;
      SumZeroIff(types[..n], count);
      assert types == types[..n] + [types[n]];
    }
  }

  /** All records of the given types. */
  function RecordsOf(l: Label, types: seq<RRType>): (rs: multiset<Record>)
    requires forall t :: t in types ==> t in l.records
  {
    if types == [] then multiset{}
    else RecordsOf(l, types[..|types| - 1]) + multiset(l.records[types[|types| - 1]])
  }

  /**
   On a loaded label `Picker` never panics and returns exactly min(max', servers)
   records, or all servers of an unweighted list; they come from distinct positions
   of the label's list and all pass the health filter of a tested label.
   */
  lemma PickReturnsExactly(l: Label, qtype: RRType, max: int, client: Option<Client>,
                           healthy: string -> bool, rand: nat -> nat)
    requires Loaded(l) && qtype in l.records && max >= 0
    ensures var r := Pick(l, qtype, max, client, healthy, rand);
            && r.Value?
            && |r.value| == PickCount(l, qtype, max, healthy)
            && multiset(r.value) <= multiset(l.records[qtype])
            && (l.tested ==> forall x :: x in r.value ==> Passes(healthy, x))
  {
    var s := Servers(l, qtype, healthy);
    ServersProperties(l, qtype, healthy);
    var r := Pick(l, qtype, max, client, healthy, rand);
    if !ReturnsAll(l, qtype, healthy) {
      var m := Wanted(qtype, max, |s|);
      var c := Candidates(s, qtype, m, client);
      CandidatesProperties(s, qtype, m, client);
      NonNegativeIsSolvent(c, m);
      SolventDrawSucceeds(c, m, rand, 0);
      DrawTakesDistinctPositions(c, m, rand, 0);
      assert multiset(r.value) <= multiset(s);
      forall x | x in r.value ensures x in s {
        assert x in multiset(r.value);
      }
    }
  }

  /** `s` are the records of a list that the health filter of the label leaves. */
  ghost predicate HealthyPart(s: seq<Record>, l: Label, t: RRType, healthy: string -> bool)
    requires t in l.records
  {
    forall r :: multiset(s)[r] ==
                if !l.tested || r.test == "" || healthy(r.test) then multiset(l.records[t])[r] else 0
  }

  /**
   How many records come back, written out: all healthy ones if the label's weight or
   theirs is 0; else one for CNAME and MF; else `max`, or as many as there are.
   */
  lemma PickHowMany(l: Label, t: RRType, max: nat, client: Option<Client>, healthy: string -> bool, rand: nat -> nat)
    returns (s: seq<Record>)
    requires Loaded(l) && t in l.records
    ensures HealthyPart(s, l, t, healthy)
    ensures var r := Pick(l, t, max, client, healthy, rand);
            && r.Value? && multiset(r.value) <= multiset(s)
            && |r.value| == if t !in l.weight || l.weight[t] == 0 || (l.tested && Total(s) == 0) then |s|
                            else if t == 5 || t == 4 then (if s == [] then 0 else 1)
                            else if max <= |s| then max else |s|
  {
    s := Servers(l, t, healthy);
    PickReturnsExactly(l, t, max, client, healthy, rand);
    forall x ensures multiset(s)[x] ==
                     if !l.tested || x.test == "" || healthy(x.test) then multiset(l.records[t])[x] else 0
    {
      FilterCopies(l.records[t], PassesTest(healthy), x);
    }
    PickFromServers(l, t, max, client, healthy, rand);
  }

  lemma PickFromServers(l: Label, t: RRType, max: nat, client: Option<Client>, healthy: string -> bool,
                        rand: nat -> nat)
    requires Loaded(l) && t in l.records
    ensures var r := Pick(l, t, max, client, healthy, rand);
            r.Value? && multiset(r.value) <= multiset(Servers(l, t, healthy))
  {
    PickReturnsExactly(l, t, max, client, healthy, rand);
    var s := Servers(l, t, healthy);
    if !ReturnsAll(l, t, healthy) {
      var m := Wanted(t, max, |s|);
      CandidatesProperties(s, t, m, client);
      DrawTakesDistinctPositions(Candidates(s, t, m, client), m, rand, 0);
    }
  }

  /**
   An ANY query on a loaded label: no panic, exactly as many records as queries for the
   single types return, from distinct positions of their lists, healthy on a tested label.
   */
  lemma {:induction false} PickAllReturns(l: Label, types: seq<RRType>, max: int, client: Option<Client>,
                                          healthy: string -> bool, rand: RRType -> nat -> nat)
    requires Loaded(l) && max >= 0 && forall t :: t in types ==> t in l.records
    ensures var r := PickAll(l, types, max, client, healthy, rand);
            && r.Value?
            && |r.value| == SumOf(types, CountOf(l, max, healthy))
            && multiset(r.value) <= RecordsOf(l, types)
            && (l.tested ==> forall x :: x in r.value ==> Passes(healthy, x))
  {
    if types != [] {
      var last := |types| - 1;
      var t := types[last];
      PickAllReturns(l, types[..last], max, client, healthy, rand);
      PickReturnsExactly(l, t, max, client, healthy, rand(t));
    }
  }

  /**
   For weights of any sign in any order: `Picker` returns for every draw sequence exactly
   when it returns all servers, or the number wanted is not negative and no draws that are
   possible among the candidates leave a negative total before the last one.
   */
  lemma PickSucceedsIff(l: Label, qtype: RRType, max: int, client: Option<Client>, healthy: string -> bool)
    requires qtype in l.records
    ensures (forall rand: nat -> nat :: Pick(l, qtype, max, client, healthy, rand).Value?)
            <==> ReturnsAll(l, qtype, healthy) || SurvivingPick(l, qtype, max, client, healthy)
  {
    if !ReturnsAll(l, qtype, healthy) {
      var s := Servers(l, qtype, healthy);
      var m := Wanted(qtype, max, |s|);
      if m < 0 {
        var zero := (_: nat) => 0;
        assert Pick(l, qtype, max, client, healthy, zero).Panic?;
      } else {
        var c := Candidates(s, qtype, m, client);
        CandidatesEnough(s, qtype, m, client);
        DrawSucceedsIff(c, m);
        if Survives(c, m) {
          forall rand: nat -> nat ensures Pick(l, qtype, max, client, healthy, rand).Value? {
            assert Draw(c, m, rand, 0).Value?;
            assert Pick(l, qtype, max, client, healthy, rand) == Draw(c, m, rand, 0);
          }
        } else {
          var rand: nat -> nat :| !Draw(c, m, rand, 0).Value?;
          assert !Pick(l, qtype, max, client, healthy, rand).Value?;
        }
      }
    }
  }

  ghost predicate SurvivingPick(l: Label, qtype: RRType, max: int, client: Option<Client>, healthy: string -> bool)
    requires qtype in l.records
  {
    var s := Servers(l, qtype, healthy);
    var m := Wanted(qtype, max, |s|);
    m >= 0 &&
      var c := Candidates(s, qtype, m, client);
      CandidatesEnough(s, qtype, m, client);
      Survives(c, m)
  }

  /** Where loading has sorted the list, the suffix totals of the candidates decide. */
  lemma SortedPickSucceedsIff(l: Label, qtype: RRType, max: int, client: Option<Client>, healthy: string -> bool)
    requires qtype in l.records && Descending(l.records[qtype])
    ensures SurvivingPick(l, qtype, max, client, healthy) <==> SolventPick(l, qtype, max, client, healthy)
  {
    var s := Servers(l, qtype, healthy);
    var m := Wanted(qtype, max, |s|);
    if m >= 0 {
      ServersProperties(l, qtype, healthy);
      CandidatesProperties(s, qtype, m, client);
      SortedSurvivesIff(Candidates(s, qtype, m, client), m);
    }
  }

  ghost predicate SolventPick(l: Label, qtype: RRType, max: int, client: Option<Client>, healthy: string -> bool)
    requires qtype in l.records
  {
    var s := Servers(l, qtype, healthy);
    var m := Wanted(qtype, max, |s|);
    m >= 0 &&
      var c := Candidates(s, qtype, m, client);
      CandidatesEnough(s, qtype, m, client);
      Solvent(c, m)
  }

  function Server(data: string, weight: int, test: string): (r: Record) {
    Record(RR("w.", TYPE_A, 60, data), weight, None, test)
  }

  /** A negative weight can make a query panic: weights 3 and -1, both records wanted. */
  lemma NegativeWeightPanics(healthy: string -> bool)
    ensures var l := Label("w", 2, 0, map[TYPE_A := [Server("a", 3, ""), Server("b", -1, "")]],
                           map[TYPE_A := 2], false, false);
            Consistent(l) && !forall rand: nat -> nat :: Pick(l, TYPE_A, 2, None, healthy, rand).Value?
  {
    var rs := [Server("a", 3, ""), Server("b", -1, "")];
    var l := Label("w", 2, 0, map[TYPE_A := rs], map[TYPE_A := 2], false, false);
    assert rs[1..] == [Server("b", -1, "")];
    assert TotalFrom(rs, 1) == -1;
    PickSucceedsIff(l, TYPE_A, 2, None, healthy);
    SortedPickSucceedsIff(l, TYPE_A, 2, None, healthy);
    assert !SolventPick(l, TYPE_A, 2, None, healthy);
  }

  /**
   Loading sorts a list only if its total is positive. With weights -5, -1 and 3 it does not,
   and once the health filter has taken out the -5 no draw sequence completes, although no
   suffix of what is left has a negative total before the last draw.
   */
  lemma UnsortedListPanics(rand: nat -> nat)
    ensures var rs := [Server("a", -5, "t/a"), Server("b", -1, ""), Server("c", 3, "")];
            var l := Label("w", 2, 0, map[TYPE_A := rs], map[TYPE_A := -3], false, true);
            && Total(rs) == WeightOf(l, TYPE_A) == -3
            && SolventPick(l, TYPE_A, 2, None, _ => false) && !ReturnsAll(l, TYPE_A, _ => false)
            && Pick(l, TYPE_A, 2, None, _ => false, rand).Panic?
  {
    var a, b, c := Server("a", -5, "t/a"), Server("b", -1, ""), Server("c", 3, "");
    var rs := [a, b, c];
    var l := Label("w", 2, 0, map[TYPE_A := rs], map[TYPE_A := -3], false, true);
    var down := (_: string) => false;
    assert rs[1..] == [b, c] && [b, c][1..] == [c] && [c][1..] == [];
    assert Total([c]) == c.weight + Total([c][1..]) == 3;
    assert Total([b, c]) == b.weight + Total([b, c][1..]) == 2;
    var up := PassesTest(down);
    assert !up(a) && up(b) && up(c);
    assert Filter([c], up) == [c] + Filter([c][1..], up) == [c];
    assert Filter([b, c], up) == [b] + Filter([b, c][1..], up) == [b, c];
    assert Filter(rs, up) == Filter(rs[1..], up) == [b, c];
    assert Servers(l, TYPE_A, down) == [b, c];
    assert TotalFrom([b, c], 0) == 2 && TotalFrom([b, c], 1) == 3;
    assert Solvent([b, c], 2);
    var n := Intn(rand(0), 3);
    assert Select([c], n + 1) == 0 && Select([b, c], n) == 1;
    assert Without([b, c], 1) == [b] && Total([b]) == -1;
    assert Draw([b], 1, rand, 1) == Panic;
    assert Draw([b, c], 2, rand, 0) == Panic;
  }

  /** In the draw, a zero-weight record appears only after every positive-weight candidate. */
  lemma ZeroWeightIsLastResort(l: Label, qtype: RRType, max: nat, client: Option<Client>,
                               healthy: string -> bool, rand: nat -> nat, out: seq<Record>, j: nat, r: Record)
    requires Loaded(l) && qtype in l.records && !ReturnsAll(l, qtype, healthy)
    requires Pick(l, qtype, max, client, healthy, rand) == Value(out)
    requires j < |out| && out[j].weight == 0 && r.weight > 0
    ensures var s := Servers(l, qtype, healthy);
            multiset(out[..j])[r] == multiset(Candidates(s, qtype, Wanted(qtype, max, |s|), client))[r]
  {
    var s := Servers(l, qtype, healthy);
    var m := Wanted(qtype, max, |s|);
    ServersProperties(l, qtype, healthy);
    CandidatesProperties(s, qtype, m, client);
    ZeroWeightComesLast(Candidates(s, qtype, m, client), m, rand, 0, out, j, r);
  }

  /** How far away a server is: 360 degrees if its location is not known. */
  function Far(client: Client, r: Record): (d: real) {
    if r.loc.None? then 360.0 else client(r.loc.value)
  }

  /** The servers that are closer than `x` even with 5% added to their distance. */
  ghost function MuchCloser(client: Client, s: seq<Record>, x: Record): (js: set<nat>) {
    set j: nat | j < |s| && 1.05 * Far(client, s[j]) < Far(client, x)
  }

  /**
   With a located client and more addresses than `max`, no returned address has `max` or
   more servers that are closer by more than 5%.
   */
  lemma ReturnedServersAreClose(l: Label, qtype: RRType, max: nat, client: Client,
                                healthy: string -> bool, rand: nat -> nat, out: seq<Record>, x: Record)
    requires Loaded(l) && qtype in l.records && (qtype == 1 || qtype == 28)
    requires !ReturnsAll(l, qtype, healthy) && max < |Servers(l, qtype, healthy)|
    requires Pick(l, qtype, max, Some(client), healthy, rand) == Value(out) && x in out
    ensures |MuchCloser(client, Servers(l, qtype, healthy), x)| < max
  {
    var s := Servers(l, qtype, healthy);
    var ds := Distances(client, s);
    var i := ReturnedIsNear(l, qtype, max, client, healthy, rand, out, x);
    C.ClosestSelection(ds, max);
    CloserSets(client, s, i);
  }

  lemma DrawnFrom(c: seq<Record>, m: nat, rand: nat -> nat, out: seq<Record>, x: Record)
    requires m <= |c| && Draw(c, m, rand, 0) == Value(out) && x in out
    ensures x in c
  {
    DrawTakesDistinctPositions(c, m, rand, 0);
    assert x in multiset(out);
  }

  /** A returned address is a server within the threshold. */
  lemma ReturnedIsNear(l: Label, qtype: RRType, max: nat, client: Client,
                       healthy: string -> bool, rand: nat -> nat, out: seq<Record>, x: Record) returns (i: nat)
    requires qtype in l.records && (qtype == 1 || qtype == 28)
    requires !ReturnsAll(l, qtype, healthy) && max < |Servers(l, qtype, healthy)|
    requires Pick(l, qtype, max, Some(client), healthy, rand) == Value(out) && x in out
    ensures var s := Servers(l, qtype, healthy);
            var ds := Distances(client, s);
            i < |s| && s[i] == x && ds[i] <= C.FinalThreshold(ds, max)
  {
    var s := Servers(l, qtype, healthy);
    var ds := Distances(client, s);
    var near := Nearby(client, C.FinalThreshold(ds, max));
    var c := Filter(s, near);
    assert Candidates(s, qtype, max, Some(client)) == c;
    CandidatesEnough(s, qtype, max, Some(client));
    DrawnFrom(c, max, rand, out, x);
    FilterMembers(s, near);
    assert x in s && near(x);
    i :| 0 <= i < |s| && s[i] == x;
  }

  /** The servers that are closer than `x`. */
  ghost function Nearer(client: Client, s: seq<Record>, x: Record): (js: set<nat>) {
    set j: nat | j < |s| && Far(client, s[j]) < Far(client, x)
  }

  lemma CloserSets(client: Client, s: seq<Record>, i: nat)
    requires i < |s|
    ensures MuchCloser(client, s, s[i]) == C.ClearlyCloser(Distances(client, s), Distances(client, s)[i])
    ensures Nearer(client, s, s[i]) == C.Closer(Distances(client, s), Distances(client, s)[i])
  {
    var ds := Distances(client, s);
    assert forall j :: 0 <= j < |s| ==> ds[j] == Far(client, s[j]);
  }

  /** A draw can begin with any candidate of positive weight. */
  lemma DrawCanBegin(c: seq<Record>, m: nat, k: nat) returns (rand: nat -> nat)
    requires NonNegative(c) && Descending(c) && 1 <= m <= |c| && k < |c| && c[k].weight > 0
    ensures Draw(c, m, rand, 0).Value? && Draw(c, m, rand, 0).value != [] && Draw(c, m, rand, 0).value[0] == c[k]
  {
    var n := Total(c[..k + 1]);
    assert c[..k + 1] == c[..k] + [c[k]];
    TotalSnoc(c[..k], c[k]);
    PrefixMonotone(c, 0, k);
    PrefixMonotone(c, k + 1, |c|);
    assert c[..|c|] == c;
    SelectInterval(c, k, n);
    rand := _ => n;
    NonNegativeIsSolvent(c, m);
    SolventDrawSucceeds(c, m, rand, 0);
  }

  /**
   Nothing else is held back: every healthy server of positive weight can come first in the
   answer, unless the client is located, the type is A or AAAA, there are more servers than
   `max`, and `max` or more of them are closer.
   */
  lemma MayComeFirst(l: Label, qtype: RRType, max: nat, client: Option<Client>, healthy: string -> bool, i: nat)
    returns (rand: nat -> nat)
    requires Loaded(l) && qtype in l.records && max >= 1 && !ReturnsAll(l, qtype, healthy)
    requires i < |Servers(l, qtype, healthy)| && Servers(l, qtype, healthy)[i].weight > 0
    requires var s := Servers(l, qtype, healthy);
             client.None? || (qtype != 1 && qtype != 28) || max >= |s| || |Nearer(client.value, s, s[i])| < max
    ensures var r := Pick(l, qtype, max, client, healthy, rand);
            r.Value? && r.value != [] && r.value[0] == Servers(l, qtype, healthy)[i]
  {
    var s := Servers(l, qtype, healthy);
    var m := Wanted(qtype, max, |s|);
    var c := Candidates(s, qtype, m, client);
    ServersProperties(l, qtype, healthy);
    CandidatesProperties(s, qtype, m, client);
    NotHeldBack(s, qtype, m, client, i);
    var k :| 0 <= k < |c| && c[k] == s[i];
    rand := DrawCanBegin(c, m, k);
  }

  lemma NotHeldBack(s: seq<Record>, qtype: RRType, m: nat, client: Option<Client>, i: nat)
    requires m <= |s| && i < |s|
    requires client.None? || (qtype != 1 && qtype != 28) || m == |s| || |Nearer(client.value, s, s[i])| < m
    ensures s[i] in Candidates(s, qtype, m, client)
  {
    if UsesClosest(qtype, client) && m < |s| {
      var ds := Distances(client.value, s);
      C.ClosestSelection(ds, m);
      CloserSets(client.value, s, i);
      FilterMembers(s, Nearby(client.value, C.FinalThreshold(ds, m)));
    }
  }

  /**
   Section 10.1 of RFC 2181 allows one CNAME per name. `Picker` returns more exactly
   when the label has a health test, all healthy CNAMEs weigh nothing and there are
   at least two of them.
   */
  lemma ManyCnamesIff(l: Label, max: int, client: Option<Client>, healthy: string -> bool, rand: nat -> nat)
    requires Loaded(l) && TYPE_CNAME in l.records
    ensures var r := Pick(l, TYPE_CNAME, max, client, healthy, rand);
            var s := Servers(l, TYPE_CNAME, healthy);
            r.Value? && (|r.value| > 1 <==> l.tested && Total(s) == 0 && |s| > 1)
  {
    var nonNegative := Max(max, 0);
    assert forall n: nat :: Wanted(TYPE_CNAME, max, n) == Wanted(TYPE_CNAME, nonNegative, n);
    assert Pick(l, TYPE_CNAME, max, client, healthy, rand) == Pick(l, TYPE_CNAME, nonNegative, client, healthy, rand);
    PickReturnsExactly(l, TYPE_CNAME, nonNegative, client, healthy, rand);
    ServersProperties(l, TYPE_CNAME, healthy);
    if WeightOf(l, TYPE_CNAME) == 0 {
      assert l.records[TYPE_CNAME] == [];
      FilterMembers(l.records[TYPE_CNAME], PassesTest(healthy));
    }
  }

  /** The failing case exists: the weighted CNAME is down, two weightless ones have no test. */
  lemma TwoCnames(client: Option<Client>, rand: nat -> nat)
    ensures var rs := [Server("a.", 5, "t/a"), Server("b.", 0, ""), Server("c.", 0, "")];
            var l := Label("w", 1, 0, map[TYPE_CNAME := rs], map[TYPE_CNAME := 5], false, true);
            Loaded(l) && Pick(l, TYPE_CNAME, 1, client, _ => false, rand) == Value(rs[1..])
  {
    var rs := [Server("a.", 5, "t/a"), Server("b.", 0, ""), Server("c.", 0, "")];
    var l := Label("w", 1, 0, map[TYPE_CNAME := rs], map[TYPE_CNAME := 5], false, true);
    var down := (_: string) => false;
    assert rs[1..][1..] == [rs[2]];
    assert Total(rs[1..]) == 0 by { assert Total([rs[2]]) == 0; }
    assert Filter(rs[1..], PassesTest(down)) == rs[1..] by {
      assert Filter([rs[2]], PassesTest(down)) == [rs[2]];
    }
    assert Servers(l, TYPE_CNAME, down) == rs[1..];
  }
}
