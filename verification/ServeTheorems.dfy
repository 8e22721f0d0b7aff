/** From a loaded zone to the reply: what `serve` answers, and when it says "no such name". */
module ServeTheorems {
  import opened Common
  import opened ZoneModel
  import opened Names
  import opened Lookup
  import opened P = Picker
  import opened PickerTheorems
  import opened Derivations
  import opened AliasTermination
  import opened Z = Zones
  import opened ZoneData
  import opened ZoneTheorems
  import opened ZoneOrder
  import opened Serve

  // ---------- names ----------

  /** The labels of a name under the zone; the apex has none of its own. */
  function PartsOf(x: string): (parts: seq<string>) {
    if x == "" then [] else Split(x)
  }

  /** `getQuestionName` takes the zone off a query for `x`, whatever the case. */
  lemma QuestionName(x: string, origin: seq<string>)
    ensures GetQuestionName(PartsOf(x) + origin, |origin|) == ToLower(x)
  {
    JoinSplit(x);
    var parts := PartsOf(x) + origin;
    assert parts[..|parts| - |origin|] == PartsOf(x);
  }

  // ---------- what a match is ----------

  /** A match names an existing label, with records unless it only says "exists"; ANY may name none. */
  ghost predicate GoodMatch(labels: LabelMap, m: Match) {
    match m.key
    case None => m.qtype == TYPE_ANY
    case Some(k) =>
      && k in labels
      && (m.qtype != TYPE_ANY && m.qtype != TYPE_NONE ==>
            m.qtype in labels[k].records && labels[k].records[m.qtype] != [])
  }

  lemma {:induction false} DerivedIsGood(q: Query, s: string, p: seq<Hop>, m: Match)
    requires Derives(q, s, p, m)
    ensures GoodMatch(q.labels, m)
    decreases |p|
  {
    if p != [] && AliasHop(q, s, p[0]) {
      DerivedIsGood(q, AliasName(q, s, p[0]), p[1..], m);
    }
  }

  lemma MatchIsGood(q: Query, s: string, depth: nat, k: nat)
    requires Find(q, s, depth).Matches? && k < |Find(q, s, depth).ms|
    ensures GoodMatch(q.labels, Find(q, s, depth).ms[k])
  {
    var ps := FindListsDerivations(q, s, depth);
    DerivedIsGood(q, s, ps[k], Find(q, s, depth).ms[k]);
  }

  // ---------- panics ----------

  /** Labels fit for the picker, with a sensible number of hosts, and `order` a proper ordering. */
  ghost predicate Servable(labels: LabelMap, c: Chance) {
    forall k :: k in labels ==>
                  Loaded(labels[k]) && labels[k].maxHosts >= 0 && Enumerates(c.order(k), labels[k].records.Keys)
  }

  lemma NoPanicAt(labels: LabelMap, ms: seq<Match>, k: nat, r: Request, c: Chance)
    requires Servable(labels, c) && k < |ms| && GoodMatch(labels, ms[k])
    ensures PickAt(labels, ms, k, r, c).Panic? <==> ms[k].key.None?
  {
    if ms[k].key.Some? {
      var key := ms[k].key.value;
      var l, t := labels[key], ms[k].qtype;
      var client := if KeepsLocation(labels, ms, k + 1) then r.client else None;
      if t == TYPE_ANY {
        PickAllReturns(l, c.order(key), l.maxHosts, client, c.healthy, c.rand(k));
      } else if t in l.records {
        PickReturnsExactly(l, t, l.maxHosts, client, c.healthy, c.rand(k)(t));
      }
    }
  }

  /** The derivation `p` is listed before number `k`, and what it derives yields no record. */
  ghost predicate YieldsNothing(labels: LabelMap, ms: seq<Match>, ps: seq<seq<Hop>>, r: Request, c: Chance,
                                k: nat, p: seq<Hop>, m: Match)
    requires k <= |ms| == |ps|
  {
    exists j :: 0 <= j < k && ps[j] == p && ms[j] == m && PickAt(labels, ms, j, r, c) == Value([])
  }

  lemma SmallerYieldsNothing(q: Query, s: string, ms: seq<Match>, ps: seq<seq<Hop>>, r: Request, c: Chance,
                             k: nat, p: seq<Hop>, m: Match)
    requires Lists(q, s, ms, ps) && k < |ms| && EmptyUpTo(q.labels, ms, k, r, c)
    requires Derives(q, s, p, m) && LexLess(p, ps[k])
    ensures YieldsNothing(q.labels, ms, ps, r, c, k, p, m)
  {
    var j: nat := ListedBefore(q, s, ms, ps, k, p, m);
    assert PickAt(q.labels, ms, j, r, c) == Value([]);
  }

  lemma ListedBefore(q: Query, s: string, ms: seq<Match>, ps: seq<seq<Hop>>, k: nat, p: seq<Hop>, m: Match)
    returns (j: nat)
    requires Lists(q, s, ms, ps) && k < |ms| && Derives(q, s, p, m) && LexLess(p, ps[k])
    ensures j < k && ps[j] == p && ms[j] == m
  {
    assert p in ps;
    j :| 0 <= j < |ps| && ps[j] == p;
    DerivesUnique(q, s, p, m, ms[j]);
    LexAsymmetric(p, ps[k]);
  }

  /**
   Whether a match yields records, by the label's lists and the health of its servers: the
   location, the random numbers and the order of types do not matter. A missing label counts.
   */
  ghost predicate Yields(labels: LabelMap, m: Match, healthy: string -> bool) {
    match m.key
    case None => true
    case Some(k) =>
      && k in labels
      && if m.qtype == TYPE_ANY then
           exists t :: t in labels[k].records && PickCount(labels[k], t, labels[k].maxHosts, healthy) > 0
         else
           m.qtype in labels[k].records && PickCount(labels[k], m.qtype, labels[k].maxHosts, healthy) > 0
  }

  lemma YieldsIff(labels: LabelMap, ms: seq<Match>, k: nat, r: Request, c: Chance)
    requires Servable(labels, c) && k < |ms| && GoodMatch(labels, ms[k])
    ensures PickAt(labels, ms, k, r, c) == Value([]) <==> !Yields(labels, ms[k], c.healthy)
  {
    if ms[k].key.Some? {
      var key := ms[k].key.value;
      var l, t := labels[key], ms[k].qtype;
      var client := if KeepsLocation(labels, ms, k + 1) then r.client else None;
      if t == TYPE_ANY {
        PickAllReturns(l, c.order(key), l.maxHosts, client, c.healthy, c.rand(k));
        SumZeroIff(c.order(key), CountOf(l, l.maxHosts, c.healthy));
      } else if t in l.records {
        PickReturnsExactly(l, t, l.maxHosts, client, c.healthy, c.rand(k)(t));
      }
    }
  }

  /** `p` derives an ANY match without a label, and no smaller derivation yields a record. */
  ghost predicate NamelessFirst(q: Query, s: string, healthy: string -> bool, p: seq<Hop>) {
    && Derives(q, s, p, Match(None, TYPE_ANY))
    && forall p', m :: Derives(q, s, p', m) && LexLess(p', p) ==> !Yields(q.labels, m, healthy)
  }

  /**
   On a servable zone answering panics exactly when the least derivation that is not
   empty-handed is one of an ANY match without a label. This depends on the labels, the
   targets and the health of servers only.
   */
  lemma PanicsIff(labels: LabelMap, r: Request, c: Chance, depth: nat)
    requires Servable(labels, c) && Find(QueryOf(labels, r), r.qlabel, depth).Matches?
    ensures Answers(labels, Find(QueryOf(labels, r), r.qlabel, depth).ms, r, c, Panic)
            <==> exists p :: NamelessFirst(QueryOf(labels, r), r.qlabel, c.healthy, p)
  {
    var q, s := QueryOf(labels, r), r.qlabel;
    var ms := Find(q, s, depth).ms;
    var ps := FindListsDerivations(q, s, depth);
    forall j: nat | j < |ms| ensures GoodMatch(labels, ms[j]) {
      MatchIsGood(q, s, depth, j);
    }
    if Answers(labels, ms, r, c, Panic) {
      var k: nat :| Decides(labels, ms, k, r, c) && PickAt(labels, ms, k, r, c).Panic?;
      NoPanicAt(labels, ms, k, r, c);
      DecidedIsFirst(labels, r, c, ms, ps, k);
    } else if p: seq<Hop> :| NamelessFirst(q, s, c.healthy, p) {
      FirstIsDecided(labels, r, c, ms, ps, p);
    }
  }

  lemma DecidedIsFirst(labels: LabelMap, r: Request, c: Chance, ms: seq<Match>, ps: seq<seq<Hop>>, k: nat)
    requires Servable(labels, c) && Lists(QueryOf(labels, r), r.qlabel, ms, ps)
    requires forall j: nat :: j < |ms| ==> GoodMatch(labels, ms[j])
    requires Decides(labels, ms, k, r, c) && ms[k].key.None?
    ensures NamelessFirst(QueryOf(labels, r), r.qlabel, c.healthy, ps[k])
  {
    var q, s := QueryOf(labels, r), r.qlabel;
    assert GoodMatch(labels, ms[k]);
    forall p', m | Derives(q, s, p', m) && LexLess(p', ps[k]) ensures !Yields(labels, m, c.healthy) {
      SmallerYieldsNothing(q, s, ms, ps, r, c, k, p', m);
      var j: nat :| j < k && ps[j] == p' && ms[j] == m && PickAt(labels, ms, j, r, c) == Value([]);
      YieldsIff(labels, ms, j, r, c);
    }
  }

  lemma FirstIsDecided(labels: LabelMap, r: Request, c: Chance, ms: seq<Match>, ps: seq<seq<Hop>>, p: seq<Hop>)
    requires Servable(labels, c) && Lists(QueryOf(labels, r), r.qlabel, ms, ps)
    requires forall j: nat :: j < |ms| ==> GoodMatch(labels, ms[j])
    requires NamelessFirst(QueryOf(labels, r), r.qlabel, c.healthy, p)
    ensures Answers(labels, ms, r, c, Panic)
  {
    var q, s := QueryOf(labels, r), r.qlabel;
    assert p in ps;
    var k: nat :| k < |ps| && ps[k] == p;
    DerivesUnique(q, s, p, ms[k], Match(None, TYPE_ANY));
    forall j: nat | j < k ensures PickAt(labels, ms, j, r, c) == Value([]) {
      assert LexLess(ps[j], ps[k]);
      YieldsIff(labels, ms, j, r, c);
    }
    assert Decides(labels, ms, k, r, c);
  }

  /** So a query for any type but ANY does not panic. */
  lemma NoPanicUnlessAny(labels: LabelMap, r: Request, c: Chance, depth: nat)
    requires Servable(labels, c) && Find(QueryOf(labels, r), r.qlabel, depth).Matches? && r.qtype != TYPE_ANY
    ensures !Answers(labels, Find(QueryOf(labels, r), r.qlabel, depth).ms, r, c, Panic)
  {
    var q := QueryOf(labels, r);
    PanicsIff(labels, r, c, depth);
    forall p ensures !Derives(q, r.qlabel, p, Match(None, TYPE_ANY)) {
      if Derives(q, r.qlabel, p, Match(None, TYPE_ANY)) {
        OnlyAnyLacksLabel(q, r.qlabel, p, Match(None, TYPE_ANY));
      }
    }
  }

  lemma {:induction false} OnlyAnyLacksLabel(q: Query, s: string, p: seq<Hop>, m: Match)
    requires Derives(q, s, p, m) && TYPE_ANY !in q.qts
    ensures m.key.Some?
    decreases |p|
  {
    if p != [] && AliasHop(q, s, p[0]) {
      OnlyAnyLacksLabel(q, AliasName(q, s, p[0]), p[1..], m);
    }
  }

  // ---------- which match answers ----------

  /**
   The answer is what the picker returns for the least derivation, in the order of the
   loops, that yields any record; all smaller derivations yield none.
   */
  lemma LeastDerivationAnswers(labels: LabelMap, r: Request, c: Chance, depth: nat, out: seq<RR>)
    returns (ps: seq<seq<Hop>>, k: nat)
    requires Find(QueryOf(labels, r), r.qlabel, depth).Matches? && out != []
    requires Answers(labels, Find(QueryOf(labels, r), r.qlabel, depth).ms, r, c, Value(out))
    ensures var q := QueryOf(labels, r);
            var ms := Find(q, r.qlabel, depth).ms;
            && Lists(q, r.qlabel, ms, ps) && k < |ms|
            && PickAt(labels, ms, k, r, c).Value? && out == Renamed(PickAt(labels, ms, k, r, c).value, r.qname)
            && forall p, m :: Derives(q, r.qlabel, p, m) && LexLess(p, ps[k]) ==>
                                YieldsNothing(labels, ms, ps, r, c, k, p, m)
  {
    var q := QueryOf(labels, r);
    var ms := Find(q, r.qlabel, depth).ms;
    ps := FindListsDerivations(q, r.qlabel, depth);
    k :| Decides(labels, ms, k, r, c) && PickAt(labels, ms, k, r, c).Value?
         && out == Renamed(PickAt(labels, ms, k, r, c).value, r.qname);
    forall p, m | Derives(q, r.qlabel, p, m) && LexLess(p, ps[k])
      ensures YieldsNothing(labels, ms, ps, r, c, k, p, m)
    {
      SmallerYieldsNothing(q, r.qlabel, ms, ps, r, c, k, p, m);
    }
  }

  /** A match for a plain type whose label has room for a record, and a record that its test lets pass. */
  ghost predicate Live(labels: LabelMap, m: Match, healthy: string -> bool) {
    && m.key.Some? && m.key.value in labels && m.qtype != TYPE_ANY && m.qtype in labels[m.key.value].records
    && labels[m.key.value].maxHosts > 0
    && exists x :: x in labels[m.key.value].records[m.qtype] && (labels[m.key.value].tested ==> Passes(healthy, x))
  }

  lemma LiveMatchYields(labels: LabelMap, ms: seq<Match>, k: nat, r: Request, c: Chance)
    requires Servable(labels, c) && k < |ms| && Live(labels, ms[k], c.healthy)
    ensures PickAt(labels, ms, k, r, c).Value? && PickAt(labels, ms, k, r, c).value != []
  {
    var l, t := labels[ms[k].key.value], ms[k].qtype;
    LiveCount(l, t, c.healthy);
    PickReturnsExactly(l, t, l.maxHosts, if KeepsLocation(labels, ms, k + 1) then r.client else None,
                       c.healthy, c.rand(k)(t));
  }

  lemma LiveCount(l: Label, t: RRType, healthy: string -> bool)
    requires t in l.records && l.maxHosts > 0
    requires exists x :: x in l.records[t] && (l.tested ==> Passes(healthy, x))
    ensures PickCount(l, t, l.maxHosts, healthy) > 0
  {
    ServersProperties(l, t, healthy);
    var x :| x in l.records[t] && (l.tested ==> Passes(healthy, x));
    assert x in Servers(l, t, healthy);
  }

  /** If any server of the first match is up, the first match answers: the most specific target wins. */
  lemma FirstMatchAnswers(labels: LabelMap, r: Request, c: Chance, depth: nat, out: Outcome<seq<RR>>)
    requires Servable(labels, c) && Find(QueryOf(labels, r), r.qlabel, depth).Matches?
    requires var ms := Find(QueryOf(labels, r), r.qlabel, depth).ms;
             ms != [] && Live(labels, ms[0], c.healthy) && Answers(labels, ms, r, c, out)
    ensures var ms := Find(QueryOf(labels, r), r.qlabel, depth).ms;
            var p := PickAt(labels, ms, 0, r, c);
            p.Value? && p.value != [] && out == Value(Renamed(p.value, r.qname))
  {
    var ms := Find(QueryOf(labels, r), r.qlabel, depth).ms;
    LiveMatchYields(labels, ms, 0, r, c);
    forall k: nat | Decides(labels, ms, k, r, c) ensures k == 0 {
    }
    assert Decides(labels, ms, 0, r, c);
  }

  // ---------- the answer, written out ----------

  /**
   What a match for a plain type answers: records of its label and type under the name asked
   for, as many as the label's own number of hosts allows.
   */
  lemma AnswerWritten(labels: LabelMap, ms: seq<Match>, k: nat, r: Request, c: Chance) returns (s: seq<Record>)
    requires Servable(labels, c) && k < |ms| && ms[k].key.Some? && ms[k].key.value in labels
    requires ms[k].qtype != 255 && ms[k].qtype in labels[ms[k].key.value].records
    ensures HealthyPart(s, labels[ms[k].key.value], ms[k].qtype, c.healthy)
    ensures var l, t := labels[ms[k].key.value], ms[k].qtype;
            var p := PickAt(labels, ms, k, r, c);
            && p.Value?
            && |p.value| == (if t !in l.weight || l.weight[t] == 0 || (l.tested && Total(s) == 0) then |s|
                             else if t == 5 || t == 4 then (if s == [] then 0 else 1)
                             else if l.maxHosts <= |s| then l.maxHosts else |s|)
            && forall i :: 0 <= i < |p.value| ==>
                 p.value[i] in s && Renamed(p.value, r.qname)[i] == p.value[i].rr.(name := r.qname)
  {
    var l, t := labels[ms[k].key.value], ms[k].qtype;
    var client := if KeepsLocation(labels, ms, k + 1) then r.client else None;
    s := PickHowMany(l, t, l.maxHosts, client, c.healthy, c.rand(k)(t));
    var p := Pick(l, t, l.maxHosts, client, c.healthy, c.rand(k)(t)).value;
    forall i | 0 <= i < |p| ensures p[i] in s {
      assert p[i] in multiset(p);
    }
  }

  /** The client's location counts only while all labels so far are "closest" ones. */
  lemma LocationCounts(labels: LabelMap, ms: seq<Match>, k: nat, r: Request, c: Chance)
    requires k < |ms| && forall j :: 0 <= j <= k ==> ms[j].key.Some? && ms[j].key.value in labels
    ensures (exists j :: 0 <= j <= k && !labels[ms[j].key.value].closest) ==>
              PickAt(labels, ms, k, r, c) == PickAt(labels, ms, k, r.(client := None), c)
    ensures ms[k].qtype != 255 && (forall j :: 0 <= j <= k ==> labels[ms[j].key.value].closest) ==>
              PickAt(labels, ms, k, r, c) ==
              Pick(labels[ms[k].key.value], ms[k].qtype, labels[ms[k].key.value].maxHosts, r.client,
                   c.healthy, c.rand(k)(ms[k].qtype))
  {
  }

  /** The answer does not depend on the label asked for, other than through the matches. */
  lemma AnswersByMatches(labels: LabelMap, ms: seq<Match>, r: Request, c: Chance, a: string, out: Outcome<seq<RR>>)
    ensures Answers(labels, ms, r, c, out) <==> Answers(labels, ms, r.(qlabel := a), c, out)
  {
    var r' := r.(qlabel := a);
    assert forall k: nat :: k < |ms| ==> PickAt(labels, ms, k, r, c) == PickAt(labels, ms, k, r', c);
    assert forall k: nat :: Decides(labels, ms, k, r, c) <==> Decides(labels, ms, k, r', c);
  }

  /** A label that is nothing but an alias answers a query as what it stands for does. */
  lemma AliasAnswersAsTarget(labels: LabelMap, r: Request, c: Chance, i: nat, depth: nat, out: Outcome<seq<RR>>)
    requires depth > 0 && r.qtype != 4 && r.qtype != 255 && i < |r.targets| && r.targets[i] == "@"
    requires forall j: nat, k: string ::
               j < |r.targets| && j != i && LooksUp(r.qlabel, r.targets[j], k) ==> k !in labels
    requires r.qlabel in labels && labels[r.qlabel].records.Keys == {4} && labels[r.qlabel].records[4] != []
    ensures var a := labels[r.qlabel].records[4][0].rr.data;
            var f := Find(QueryOf(labels, r), r.qlabel, depth + 1);
            var g := Find(QueryOf(labels, r.(qlabel := a)), a, depth);
            g.Matches? && g.ms != [] ==>
              f.Matches? && (Answers(labels, f.ms, r, c, out) <==> Answers(labels, g.ms, r.(qlabel := a), c, out))
  {
    var a := labels[r.qlabel].records[4][0].rr.data;
    var q := QueryOf(labels, r);
    forall j: nat | j < |q.targets| && j != i ensures NameAt(q, r.qlabel, j) !in q.labels {
      assert LooksUp(r.qlabel, r.targets[j], NameAt(q, r.qlabel, j));
    }
    AliasIsFollowed(q, r.qlabel, i, r.qtype, depth);
    var g := Find(q, a, depth);
    if g.Matches? { AnswersByMatches(labels, g.ms, r, c, a, out); }
  }

  /**
   Without aliases the first match is for the first target whose name has a CNAME or records
   of the type asked for, and the CNAME goes first.
   */
  lemma FirstMatchIs(labels: LabelMap, r: Request, i: nat, k: string, depth: nat)
    requires NoAliases(labels) && depth > 0 && r.qtype != 4 && r.qtype != 255
    requires i < |r.targets| && LooksUp(r.qlabel, r.targets[i], k) && k in labels
    requires HasRecords(labels[k], 5) || HasRecords(labels[k], r.qtype)
    requires forall j :: 0 <= j < i ==> !TargetAnswers(labels, r, j)
    ensures var f := Find(QueryOf(labels, r), r.qlabel, depth);
            f.Matches? && f.ms != [] && f.ms[0] == Match(Some(k), if HasRecords(labels[k], 5) then 5 else r.qtype)
  {
    var q, s := QueryOf(labels, r), r.qlabel;
    NoAliasLookup(q, s, depth);
    var h := Hop(i, if HasRecords(labels[k], 5) then 1 else 2);
    var m := Match(Some(k), q.qts[h.qt]);
    PlainRound(q, s, i, h.qt, k);
    var ps := FindListsDerivations(q, s, depth);
    var ms := Find(q, s, depth).ms;
    assert [h] in ps;
    var n: nat :| n < |ps| && ps[n] == [h];
    DerivesUnique(q, s, [h], m, ms[n]);
    if n > 0 {
      assert LexLess(ps[0], ps[n]);
      NothingBefore(labels, r, i, k, h, ps[0], ms[0]);
    }
  }

  lemma NothingBefore(labels: LabelMap, r: Request, i: nat, k: string, h: Hop, p: seq<Hop>, m: Match)
    requires NoAliases(labels) && r.qtype != 4 && r.qtype != 255
    requires i < |r.targets| && LooksUp(r.qlabel, r.targets[i], k) && k in labels
    requires h == Hop(i, if HasRecords(labels[k], 5) then 1 else 2)
    requires Derives(QueryOf(labels, r), r.qlabel, [h], Match(Some(k), QueryOf(labels, r).qts[h.qt]))
    requires forall j :: 0 <= j < i ==> !TargetAnswers(labels, r, j)
    requires LexLess(p, [h])
    ensures !Derives(QueryOf(labels, r), r.qlabel, p, m)
  {
    var q, s := QueryOf(labels, r), r.qlabel;
    if p == [] {
      SilentStep(q, s);
      assert LeafHop(q, s, h, Match(Some(k), q.qts[h.qt]));
    } else if Derives(q, s, p, m) {
      assert !AliasHop(q, s, p[0]) && LeafHop(q, s, p[0], m) && HopLess(p[0], h);
      if p[0].target < i {
        assert TargetAnswers(labels, r, p[0].target);
      }
    }
  }

  /**
   The names the server answers itself, by their first label `p`: "_country" for everybody,
   "_status" and "_health" for clients that may debug. The answer is one TXT record of TTL 1.
   */
  lemma DebugWritten(labels: LabelMap, origin: string, r: Request, c: Chance, reply: Reply, p: string, rest: string)
    requires SoaDefined(labels) && GoodReply(labels, origin, [], r, c, reply)
    requires '.' !in p && (r.qlabel == p || r.qlabel == p + "." + rest)
    ensures var ours := p == "_country" || (r.permitDebug && (p == "_status" || p == "_health"));
            && (reply.rcode == NameError <==> !ours)
            && reply.answer == (if ours && (r.qtype == 255 || r.qtype == 16)
                                then [RR(if p == "_country" then r.qname else r.qlabel + "." + origin + ".",
                                         16, 1, r.debugText)]
                                else [])
            && reply.authority == (if reply.answer == [] then [labels[""].records[6][0].rr] else [])
  {
    FirstLabel(r.qlabel, p, rest);
  }

  lemma FirstLabel(name: string, p: string, rest: string)
    requires '.' !in p && (name == p || name == p + "." + rest)
    ensures Split(name)[0] == p
  {
    var d := FirstDot(name);
    if name == p {
      assert d == |name|;
    } else {
      assert name[|p|] == '.';
      assert forall j :: 0 <= j < |p| ==> name[j] == p[j] && p[j] != '.';
      assert d == |p| && name[..|p|] == p;
    }
  }

  // ---------- "no such name" ----------

  /** A reply says "no such name" exactly when nothing at all is in reach of a name that is no label. */
  lemma NameErrorIff(labels: LabelMap, origin: string, r: Request, c: Chance, depth: nat, reply: Reply)
    requires SoaDefined(labels) && Find(QueryOf(labels, r), r.qlabel, depth).Matches?
    requires GoodReply(labels, origin, Find(QueryOf(labels, r), r.qlabel, depth).ms, r, c, reply)
    ensures reply.rcode == NameError <==>
            r.qlabel !in labels && Silent(QueryOf(labels, r), r.qlabel) && !DebugName(r)
  {
    FoundNothing(QueryOf(labels, r), r.qlabel, depth);
  }

  /**
   A query under a loaded zone for a configured name, for a name above one, or for the
   apex, in upper or lower case, is never answered with "no such name".
   */
  lemma ZoneNamesResolve(labels: LabelMap, config: Config, o: Options, origin: string, originParts: seq<string>,
                         x: string, r: Request, c: Chance, depth: nat, reply: Reply)
    requires BuiltZone(labels, config, origin, o) && SoaDefined(labels)
    requires x == "" || InClosure(ConfiguredNames(config), ToLower(x))
    requires r.qlabel == GetQuestionName(PartsOf(x) + originParts, |originParts|)
    requires Find(QueryOf(labels, r), r.qlabel, depth).Matches?
    requires GoodReply(labels, origin, Find(QueryOf(labels, r), r.qlabel, depth).ms, r, c, reply)
    ensures reply.rcode == NoError
  {
    QuestionName(x, originParts);
    ZoneNames(labels, config, origin, o, r.qlabel);
    ExistingNameMatches(QueryOf(labels, r), r.qlabel, depth);
  }

  ghost predicate NoAliases(labels: LabelMap) {
    forall k :: k in labels ==> TYPE_MF !in labels[k].records
  }

  predicate HasRecords(l: Label, t: RRType) {
    t in l.records && l.records[t] != []
  }

  /** The name for target `i` exists and has a CNAME or something of the type asked for. */
  predicate TargetAnswers(labels: LabelMap, r: Request, i: nat)
    requires i < |r.targets|
  {
    var name := TargetName(r.qlabel, r.targets[i]);
    && name in labels
    && (r.qtype == TYPE_ANY || HasRecords(labels[name], TYPE_CNAME)
        || (r.qtype != TYPE_MF && HasRecords(labels[name], r.qtype)))
  }

  lemma NoEdges(q: Query)
    requires NoAliases(q.labels)
    ensures forall p, k: nat :: k + 1 < |p| ==> !EdgeAt(q, p, k)
  {
  }

  lemma NoAliasLookup(q: Query, s: string, depth: nat)
    requires NoAliases(q.labels) && depth > 0
    ensures Find(q, s, depth).Matches?
  {
    assert AliasTargets(q) == {};
    NoEdges(q);
    assert forall p :: PathFrom(q, s, p) && |p| > 1 ==> EdgeAt(q, p, 0);
    FineMatches(q, s, depth);
  }

  /**
   Without aliases "no such name" is decided by the labels alone: the name is no label,
   and for no target of this client is there a record of the type asked for or a CNAME.
   */
  lemma NameErrorWithoutAliases(labels: LabelMap, origin: string, r: Request, c: Chance, depth: nat, reply: Reply)
    requires SoaDefined(labels) && NoAliases(labels) && depth > 0
    requires Find(QueryOf(labels, r), r.qlabel, depth).Matches? ==>
             GoodReply(labels, origin, Find(QueryOf(labels, r), r.qlabel, depth).ms, r, c, reply)
    ensures reply.rcode == NameError <==>
            && r.qlabel !in labels && !DebugName(r)
            && forall i :: 0 <= i < |r.targets| ==> !TargetAnswers(labels, r, i)
  {
    var q := QueryOf(labels, r);
    NoAliasLookup(q, r.qlabel, depth);
    NameErrorIff(labels, origin, r, c, depth, reply);
    SilentStep(q, r.qlabel);
    assert Silent(q, r.qlabel) == NoLeaf(q, r.qlabel);
    NoLeafMeans(labels, r);
  }

  lemma NoLeafMeans(labels: LabelMap, r: Request)
    ensures NoLeaf(QueryOf(labels, r), r.qlabel) <==> forall i :: 0 <= i < |r.targets| ==> !TargetAnswers(labels, r, i)
  {
    var q, s := QueryOf(labels, r), r.qlabel;
    if NoLeaf(q, s) {
      forall i | 0 <= i < |r.targets| ensures !TargetAnswers(labels, r, i) {
        assert !LeafHop(q, s, Hop(i, 1), LeafMatch(q, s, Hop(i, 1)));
        assert !LeafHop(q, s, Hop(i, 2), LeafMatch(q, s, Hop(i, 2)));
      }
    } else {
      var h, m :| LeafHop(q, s, h, m);
      assert TargetAnswers(labels, r, h.target);
    }
  }

  /** Target `i` is the first one for which the name exists. */
  ghost predicate FirstExisting(labels: LabelMap, r: Request, i: nat) {
    && i < |r.targets| && TargetName(r.qlabel, r.targets[i]) in labels
    && forall j :: 0 <= j < i ==> TargetName(r.qlabel, r.targets[j]) !in labels
  }

  /** Some CNAME of the label passes its health test. */
  predicate HasLiveCname(l: Label, healthy: string -> bool) {
    TYPE_CNAME in l.records && Servers(l, TYPE_CNAME, healthy) != []
  }

  /**
   Without aliases an answer panics exactly for an ANY query for a name that is no label,
   when the name does exist for some target of the client, and for the first such target
   it has no CNAME that passes its health test.
   */
  ghost predicate NamelessAny(labels: LabelMap, r: Request, healthy: string -> bool) {
    && r.qtype == TYPE_ANY && r.qlabel !in labels
    && exists i: nat ::
         FirstExisting(labels, r, i) && !HasLiveCname(labels[TargetName(r.qlabel, r.targets[i])], healthy)
  }

  lemma PanicsWithoutAliasesIff(labels: LabelMap, r: Request, c: Chance, depth: nat)
    requires Servable(labels, c) && NoAliases(labels) && depth > 0
    ensures var f := Find(QueryOf(labels, r), r.qlabel, depth);
            f.Matches? && (Answers(labels, f.ms, r, c, Panic) <==> NamelessAny(labels, r, c.healthy))
  {
    var q, s := QueryOf(labels, r), r.qlabel;
    NoAliasLookup(q, s, depth);
    PanicsIff(labels, r, c, depth);
    if p: seq<Hop> :| NamelessFirst(q, s, c.healthy, p) {
      var i := ExistingTarget(labels, r, p[0].target);
      CnameComesFirst(labels, r, c.healthy, i, p);
    } else if NamelessAny(labels, r, c.healthy) {
      var i: nat :| FirstExisting(labels, r, i) && !HasLiveCname(labels[TargetName(s, r.targets[i])], c.healthy);
      AnyIsFirst(labels, r, c.healthy, i);
    }
  }

  lemma {:induction false} ExistingTarget(labels: LabelMap, r: Request, n: nat) returns (i: nat)
    requires n < |r.targets| && TargetName(r.qlabel, r.targets[n]) in labels
    ensures i <= n && FirstExisting(labels, r, i)
  {
    i := n;
    if j: nat :| j < n && TargetName(r.qlabel, r.targets[j]) in labels {
      i := ExistingTarget(labels, r, j);
    }
  }

  /** A live CNAME of the first existing target would have answered before the ANY match. */
  lemma CnameComesFirst(labels: LabelMap, r: Request, healthy: string -> bool, i: nat, p: seq<Hop>)
    requires NoAliases(labels) && NamelessFirst(QueryOf(labels, r), r.qlabel, healthy, p)
    requires FirstExisting(labels, r, i) && i <= p[0].target
    ensures r.qtype == TYPE_ANY && r.qlabel !in labels
    ensures !HasLiveCname(labels[TargetName(r.qlabel, r.targets[i])], healthy)
  {
    var q, s := QueryOf(labels, r), r.qlabel;
    var name := TargetName(s, r.targets[i]);
    if HasLiveCname(labels[name], healthy) {
      CnameDerives(labels, r, i);
      LiveCnameYields(labels[name], healthy);
      assert LexLess([Hop(i, 1)], p);
    }
  }

  lemma LiveCnameYields(l: Label, healthy: string -> bool)
    requires TYPE_CNAME in l.records
    ensures PickCount(l, TYPE_CNAME, l.maxHosts, healthy) > 0 <==> HasLiveCname(l, healthy)
    ensures HasLiveCname(l, healthy) ==> l.records[TYPE_CNAME] != []
  {
    ServersProperties(l, TYPE_CNAME, healthy);
    var s := Servers(l, TYPE_CNAME, healthy);
    assert s != [] ==> s[0] in multiset(s);
  }

  lemma CnameDerives(labels: LabelMap, r: Request, i: nat)
    requires NoAliases(labels) && i < |r.targets| && TargetName(r.qlabel, r.targets[i]) in labels
    requires HasRecords(labels[TargetName(r.qlabel, r.targets[i])], TYPE_CNAME)
    ensures Derives(QueryOf(labels, r), r.qlabel, [Hop(i, 1)],
                    Match(Some(TargetName(r.qlabel, r.targets[i])), TYPE_CNAME))
  {
    assert !AliasHop(QueryOf(labels, r), r.qlabel, Hop(i, 1));
  }

  lemma AnyIsFirst(labels: LabelMap, r: Request, healthy: string -> bool, i: nat)
    requires NoAliases(labels) && r.qtype == TYPE_ANY && r.qlabel !in labels && FirstExisting(labels, r, i)
    requires !HasLiveCname(labels[TargetName(r.qlabel, r.targets[i])], healthy)
    ensures NamelessFirst(QueryOf(labels, r), r.qlabel, healthy, [Hop(i, 2)])
  {
    var q, s := QueryOf(labels, r), r.qlabel;
    assert LeafHop(q, s, Hop(i, 2), Match(None, TYPE_ANY));
    forall p', m | Derives(q, s, p', m) && LexLess(p', [Hop(i, 2)]) ensures !Yields(labels, m, healthy) {
      SmallerIsDead(labels, r, healthy, i, p', m);
    }
  }

  lemma SmallerIsDead(labels: LabelMap, r: Request, healthy: string -> bool, i: nat, p: seq<Hop>, m: Match)
    requires NoAliases(labels) && r.qtype == TYPE_ANY && r.qlabel !in labels && FirstExisting(labels, r, i)
    requires !HasLiveCname(labels[TargetName(r.qlabel, r.targets[i])], healthy)
    requires Derives(QueryOf(labels, r), r.qlabel, p, m) && LexLess(p, [Hop(i, 2)])
    ensures !Yields(labels, m, healthy)
  {
    var q, s := QueryOf(labels, r), r.qlabel;
    var h := p[0];
    assert !AliasHop(q, s, h) && LeafHop(q, s, h, m) && HopLess(h, Hop(i, 2));
    assert h == Hop(i, 1);
    LiveCnameYields(labels[TargetName(s, r.targets[i])], healthy);
  }

  /** A name that exists for its one target only, with addresses and nothing else. */
  ghost predicate AddressesOnly(labels: LabelMap, r: Request) {
    && |r.targets| == 1 && r.qlabel !in labels && TargetName(r.qlabel, r.targets[0]) in labels
    && labels[TargetName(r.qlabel, r.targets[0])].records.Keys == {TYPE_A}
    && labels[TargetName(r.qlabel, r.targets[0])].records[TYPE_A] != []
  }

  /** "No such name" depends on the type asked for: there is an address, and yet no such name. */
  lemma TypeDecidesNameError(labels: LabelMap, origin: string, r: Request, c: Chance, depth: nat, reply: Reply)
    requires SoaDefined(labels) && NoAliases(labels) && depth > 0 && AddressesOnly(labels, r) && !DebugName(r)
    requires r.qtype in {TYPE_A, TYPE_AAAA} && Find(QueryOf(labels, r), r.qlabel, depth).Matches?
    requires GoodReply(labels, origin, Find(QueryOf(labels, r), r.qlabel, depth).ms, r, c, reply)
    ensures reply.rcode == if r.qtype == TYPE_A then NoError else NameError
  {
    NameErrorWithoutAliases(labels, origin, r, c, depth, reply);
    assert TargetAnswers(labels, r, 0) <==> r.qtype == TYPE_A;
  }

  /** A zone file in which "foo" has an address, but only for the target "europe". */
  function EuropeOnly(a: Record): (config: Config) {
    [("foo.europe", Decoded(None, None, None, false, map[TYPE_A := [Some(a)]]))]
  }

  /** It loads, and has such a name. */
  lemma EuropeHasAddresses(origin: string, o: Options, a: Record, r: Request) returns (labels: LabelMap)
    requires r.qlabel == "foo" && r.targets == ["europe"]
    ensures BuiltZone(labels, EuropeOnly(a), origin, o)
    ensures SoaDefined(labels) && NoAliases(labels) && AddressesOnly(labels, r) && !DebugName(r)
  {
    var config := EuropeOnly(a);
    EuropeLoads(a);
    labels := BuiltZoneExists(config, origin, o);
    ApexHasSoa(labels, config, origin, o);
    assert TargetName("foo", "europe") == "foo.europe";
    assert Split("foo") == ["foo"];
    ZoneNames(labels, config, origin, o, "foo");
    EuropeNames(a);
    forall k | k in labels ensures TYPE_MF !in labels[k].records {
      RecordTypes(labels, config, origin, o, k);
      SourceFound(config, k);
    }
    ZoneNames(labels, config, origin, o, "foo.europe");
    RecordTypes(labels, config, origin, o, "foo.europe");
    RecordCount(labels, config, origin, o, "foo.europe", TYPE_A);
    assert Present([Some(a)]) == Present([]) + [a];
  }

  lemma EuropeLoads(a: Record)
    ensures Loadable(EuropeOnly(a))
  {
    var config := EuropeOnly(a);
    assert forall t :: !HoleAt(config[0].1, t);
    forall k ensures Whole(config, k) {
      SourceFound(config, k);
    }
    SourceFound(config, "");
  }

  lemma EuropeNames(a: Record)
    ensures ConfiguredNames(EuropeOnly(a)) == {"foo.europe"}
    ensures !InClosure({"foo.europe"}, "foo") && Source(EuropeOnly(a), "foo.europe") == Some(EuropeOnly(a)[0].1)
  {
    assert ToLower("foo.europe") == "foo.europe";
    assert EuropeOnly(a)[0].0 == "foo.europe";
    var k := "foo.europe";
    assert k[6] == 'r' && |k| == 10;
  }

  /** An ANY lookup that finds only the name for its one target, with no label of its own. */
  lemma AnyLookup(q: Query, s: string, t: string, depth: nat)
    requires q.targets == [t] && q.qts == [TYPE_MF, TYPE_CNAME, TYPE_ANY] && depth > 0
    requires NoAliases(q.labels) && s !in q.labels && TargetName(s, t) in q.labels
    requires TYPE_CNAME !in q.labels[TargetName(s, t)].records
    ensures Find(q, s, depth) == Matches([Match(None, TYPE_ANY)])
  {
    assert NameAt(q, s, 0) == TargetName(s, t);
    assert FindFrom(q, s, Hop(1, 0), depth) == Matches([]);
    assert FindFrom(q, s, Hop(0, 3), depth) == Matches([]);
    assert FindFrom(q, s, Hop(0, 2), depth) == Matches([Match(None, TYPE_ANY)]);
    assert FindFrom(q, s, Hop(0, 1), depth) == Matches([Match(None, TYPE_ANY)]);
    assert FindFrom(q, s, Hop(0, 0), depth) == Matches([Match(None, TYPE_ANY)]);
  }

  /** The ANY match without a label does occur in a loaded zone: ANY for a name only under a target. */
  lemma AnyWithoutLabel(origin: string, o: Options, a: Record, r: Request, c: Chance, depth: nat)
    returns (labels: LabelMap)
    requires r.qlabel == "foo" && r.targets == ["europe"] && r.qtype == TYPE_ANY && depth > 0
    ensures BuiltZone(labels, EuropeOnly(a), origin, o)
    ensures var f := Find(QueryOf(labels, r), "foo", depth);
            f.Matches? && Answers(labels, f.ms, r, c, Panic)
  {
    labels := EuropeHasAddresses(origin, o, a, r);
    AnyLookup(QueryOf(labels, r), "foo", "europe", depth);
    assert Decides(labels, [Match(None, TYPE_ANY)], 0, r, c);
  }

  // ---------- whole zones ----------

  ghost predicate SensibleHosts(config: Config, o: Options) {
    o.maxHosts >= 0 && forall i :: 0 <= i < |config| ==> Or(config[i].1.maxHosts, 0) >= 0
  }

  /** A zone loaded from a configuration without negative numbers is servable. */
  lemma BuiltZoneIsServable(labels: LabelMap, config: Config, o: Options, origin: string, c: Chance)
    requires BuiltZone(labels, config, origin, o) && Supported(config)
    requires NonNegativeConfig(config) && SensibleHosts(config, o)
    requires forall k :: k in labels ==> Enumerates(c.order(k), labels[k].records.Keys)
    ensures Servable(labels, c) && SoaDefined(labels)
  {
    ApexHasSoa(labels, config, origin, o);
    forall k | k in labels ensures Loaded(labels[k]) && labels[k].maxHosts >= 0 {
      ZoneIsLoaded(labels, config, origin, o, k);
      var l0 := ZoneContents(labels, config, origin, o, k);
      SourceFound(config, k);
    }
  }

  /** The first match that does not come up empty, if there is one. */
  lemma {:induction false} FirstDeciding(labels: LabelMap, ms: seq<Match>, r: Request, c: Chance, n: nat)
    returns (k: nat)
    requires n < |ms| && PickAt(labels, ms, n, r, c) != Value([])
    ensures Decides(labels, ms, k, r, c)
  {
    k := n;
    if j: nat :| j < n && PickAt(labels, ms, j, r, c) != Value([]) {
      k := FirstDeciding(labels, ms, r, c, j);
    }
  }

  /** The match loop has exactly one outcome. */
  lemma OneAnswer(labels: LabelMap, ms: seq<Match>, r: Request, c: Chance) returns (out: Outcome<seq<RR>>)
    ensures forall x :: Answers(labels, ms, r, c, x) <==> x == out
  {
    out := Value([]);
    if n: nat :| n < |ms| && PickAt(labels, ms, n, r, c) != Value([]) {
      var k := FirstDeciding(labels, ms, r, c, n);
      var p := PickAt(labels, ms, k, r, c);
      out := if p.Panic? then Panic else Value(Renamed(p.value, r.qname));
      forall k' | Decides(labels, ms, k', r, c) ensures k' == k {
      }
    }
  }

  /** A query gets a reply. */
  ghost predicate Answered(labels: LabelMap, origin: string, r: Request, c: Chance, depth: nat)
    requires SoaDefined(labels)
  {
    var f := Find(QueryOf(labels, r), r.qlabel, depth);
    f.Matches? && exists reply :: GoodReply(labels, origin, f.ms, r, c, reply)
  }

  /**
   On a servable zone with no alias loop and no empty alias list in reach, a query gets a reply
   exactly when no ANY match without a label comes first; so every query but ANY gets one.
   */
  lemma AnsweredIff(labels: LabelMap, origin: string, r: Request, c: Chance, depth: nat)
    requires Servable(labels, c) && SoaDefined(labels)
    requires Fine(QueryOf(labels, r), r.qlabel) && depth > |AliasTargets(QueryOf(labels, r))|
    ensures Answered(labels, origin, r, c, depth) <==>
            !exists p :: NamelessFirst(QueryOf(labels, r), r.qlabel, c.healthy, p)
    ensures r.qtype != TYPE_ANY ==> Answered(labels, origin, r, c, depth)
  {
    var q := QueryOf(labels, r);
    FineMatches(q, r.qlabel, depth);
    PanicsIff(labels, r, c, depth);
    if r.qtype != TYPE_ANY { NoPanicUnlessAny(labels, r, c, depth); }
    RepliesIff(labels, origin, Find(q, r.qlabel, depth).ms, r, c);
  }

  /** The same for a zone loaded from a configuration without negative numbers. */
  lemma EveryQueryIsAnswered(labels: LabelMap, config: Config, o: Options, origin: string, r: Request, c: Chance,
                             depth: nat)
    requires BuiltZone(labels, config, origin, o) && Supported(config)
    requires NonNegativeConfig(config) && SensibleHosts(config, o)
    requires forall k :: k in labels ==> Enumerates(c.order(k), labels[k].records.Keys)
    requires Fine(QueryOf(labels, r), r.qlabel) && depth > |AliasTargets(QueryOf(labels, r))|
    ensures SoaDefined(labels)
    ensures Answered(labels, origin, r, c, depth) <==>
            !exists p :: NamelessFirst(QueryOf(labels, r), r.qlabel, c.healthy, p)
    ensures r.qtype != TYPE_ANY ==> Answered(labels, origin, r, c, depth)
  {
    BuiltZoneIsServable(labels, config, o, origin, c);
    AnsweredIff(labels, origin, r, c, depth);
  }

  lemma RepliesIff(labels: LabelMap, origin: string, ms: seq<Match>, r: Request, c: Chance)
    requires SoaDefined(labels)
    ensures (exists reply :: GoodReply(labels, origin, ms, r, c, reply)) <==> !Answers(labels, ms, r, c, Panic)
  {
    var out := OneAnswer(labels, ms, r, c);
    if out.Value? {
      var text := r.qtype == TYPE_ANY || r.qtype == TYPE_TXT;
      var answer := if ms == [] && DebugName(r) && text then [DebugRecord(r, origin)] else out.value;
      var reply := Reply(if ms == [] && !DebugName(r) then NameError else NoError, answer,
                         if answer == [] then [SoaRR(labels)] else []);
      assert ms == [] ==> Answers(labels, ms, r, c, Value([]));
      assert GoodReply(labels, origin, ms, r, c, reply);
    } else {
      assert Answers(labels, ms, r, c, Panic);
      assert ms == [] ==> Answers(labels, ms, r, c, Value([]));
    }
  }
}
