/** What every successfully loaded zone satisfies. */
module ZoneTheorems {
  import opened Common
  import opened ZoneModel
  import opened Names
  import opened ZoneData
  import opened Zones
  import opened PickerTheorems

  function ConfiguredNames(c: Config): (s: set<string>) {
    set i | 0 <= i < |c| :: ToLower(c[i].0)
  }

  /** The record types a zone file can configure; SOA and ANY are not among them. */
  ghost predicate Supported(c: Config) {
    forall i :: 0 <= i < |c| ==> TYPE_ANY !in c[i].1.records && TYPE_SOA !in c[i].1.records
  }

  ghost predicate NonNegativeConfig(c: Config) {
    forall i :: 0 <= i < |c| ==> NonNegativeWeights(c[i].1)
  }

  lemma {:induction false} SourceFound(c: Config, k: string)
    ensures Source(c, k).Some? <==> k in ConfiguredNames(c)
    ensures Source(c, k).Some? ==> exists i :: 0 <= i < |c| && ToLower(c[i].0) == k && c[i].1 == Source(c, k).value
  {
    if c != [] {
      var n := |c| - 1;
      var pre := c[..n];
      SourceFound(pre, k);
      assert c[n].0 == c[n].0;
      if ToLower(c[n].0) != k {
        assert k in ConfiguredNames(c) <==> k in ConfiguredNames(pre) by {
          forall i | 0 <= i < |c| && ToLower(c[i].0) == k ensures k in ConfiguredNames(pre) {
            assert pre[i] == c[i];
          }
          forall i | 0 <= i < |pre| && ToLower(pre[i].0) == k ensures k in ConfiguredNames(c) {
            assert pre[i] == c[i];
          }
        }
        if Source(c, k).Some? {
          var i :| 0 <= i < |pre| && ToLower(pre[i].0) == k && pre[i].1 == Source(pre, k).value;
          assert c[i] == pre[i];
        }
      }
    }
  }

  /**
   A loaded zone has exactly the configured names in lower case, everything that follows
   a dot of one, and the apex, in whatever order Go ranged over its maps.
   */
  lemma ZoneNames(labels: LabelMap, c: Config, origin: string, o: Options, x: string)
    requires BuiltZone(labels, c, origin, o)
    ensures x in labels <==> x == "" || InClosure(ConfiguredNames(c), x)
  {
    var drafts, finished :| BuiltBy(labels, drafts, finished, c, origin, o);
    assert drafts.Keys == ConfiguredNames(c) by {
      forall k ensures k in drafts.Keys <==> k in ConfiguredNames(c) {
        assert DraftedName(drafts, {}, c, o, k);
        SourceFound(c, k);
      }
    }
    assert FinishedName(finished, drafts, o, x);
  }

  /** The label without the SOA that loading adds at the apex. */
  ghost predicate SameButSoa(l: Label, l0: Label) {
    l == l0.(records := l.records) && l.records - {TYPE_SOA} == l0.records - {TYPE_SOA}
  }

  lemma SoaOnly(l: Label, soa: seq<Record>)
    ensures SameButSoa(l.(records := l.records[TYPE_SOA := soa]), l)
    ensures SameButSoa(l, l)
  {
  }

  ghost predicate FinishedFrom(l: Label, k: string, d: Decoded, o: Options) {
    exists draft :: Drafted(draft, k, d, o) && l == Finish(draft, o)
  }

  /** A configured label keeps its own records; an added one is empty. */
  lemma ZoneContents(labels: LabelMap, c: Config, origin: string, o: Options, x: string) returns (l0: Label)
    requires BuiltZone(labels, c, origin, o) && x in labels
    ensures SameButSoa(labels[x], l0) && (x != "" ==> labels[x] == l0)
    ensures match Source(c, x)
            case None => l0 == EmptyLabel(x, o)
            case Some(d) => FinishedFrom(l0, x, d, o)
  {
    var drafts, finished :| BuiltBy(labels, drafts, finished, c, origin, o);
    assert DraftedName(drafts, {}, c, o, x) && FinishedName(finished, drafts, o, x);
    l0 := if x in finished then finished[x] else EmptyLabel(x, o);
    if x in drafts {
      assert Drafted(drafts[x], x, Source(c, x).value, o) && l0 == Finish(drafts[x], o);
    }
    if x == "" {
      SoaOnly(l0, [SoaRecord(l0, origin, o)]);
    } else {
      assert labels[x] == finished[x];
    }
  }

  /** A loaded label has exactly the configured types, and the apex an SOA besides. */
  lemma RecordTypes(labels: LabelMap, c: Config, origin: string, o: Options, x: string)
    requires BuiltZone(labels, c, origin, o) && x in labels
    ensures labels[x].records.Keys ==
            (if Source(c, x).Some? then Source(c, x).value.records.Keys else {}) + (if x == "" then {TYPE_SOA} else {})
  {
    var drafts, finished :| BuiltBy(labels, drafts, finished, c, origin, o);
    assert DraftedName(drafts, {}, c, o, x) && FinishedName(finished, drafts, o, x);
  }

  /** None of its records are lost. */
  lemma RecordCount(labels: LabelMap, c: Config, origin: string, o: Options, x: string, t: RRType)
    requires BuiltZone(labels, c, origin, o) && x in labels && (x == "" ==> t != TYPE_SOA)
    requires Source(c, x).Some? && t in Source(c, x).value.records
    ensures t in labels[x].records && |labels[x].records[t]| == |Present(Source(c, x).value.records[t])|
  {
    var drafts, finished :| BuiltBy(labels, drafts, finished, c, origin, o);
    assert DraftedName(drafts, {}, c, o, x) && FinishedName(finished, drafts, o, x);
    FinishedWeight(drafts[x], x, Source(c, x).value, o, t);
  }

  /**
   What becomes of a configured record `r` of a list of type `t`, written out. Only its TTL
   and weight may change: the label's TTL, or a day for NS and the zone's TTL for others, if
   it has none; and weight 1 in an address or CNAME list without weight.
   */
  ghost predicate LoadedAs(r': Record, r: Record, t: RRType, total: int, labelTtl: Option<int>, zoneTtl: int) {
    && r'.rr.name == r.rr.name && r'.rr.rtype == r.rr.rtype && r'.rr.data == r.rr.data
    && r'.loc == r.loc && r'.test == r.test
    && r'.rr.ttl == (if r.rr.ttl != 0 then r.rr.ttl
                     else if labelTtl.Some? && labelTtl.value > 0 then labelTtl.value % 4294967296
                     else if r.rr.rtype == 2 then 86400
                     else zoneTtl % 4294967296)
    && r'.weight == (if (t == 1 || t == 28 || t == 5) && total == 0 then 1 else r.weight)
  }

  /** Every list of a loaded zone is its configured list, in some order, each record as above. */
  lemma RecordsLoaded(labels: LabelMap, c: Config, origin: string, o: Options, x: string, t: RRType)
    returns (raw: seq<Record>)
    requires BuiltZone(labels, c, origin, o) && x in labels && (x == "" ==> t != 6)
    requires Source(c, x).Some? && t in Source(c, x).value.records
    ensures var d := Source(c, x).value;
            && multiset(raw) == multiset(Present(d.records[t]))
            && t in labels[x].records && |labels[x].records[t]| == |raw|
            && forall i :: 0 <= i < |raw| ==>
                 LoadedAs(labels[x].records[t][i], raw[i], t, Total(Present(d.records[t])), d.ttl, o.ttl)
  {
    var drafts, finished :| BuiltBy(labels, drafts, finished, c, origin, o);
    assert DraftedName(drafts, {}, c, o, x) && FinishedName(finished, drafts, o, x);
    var d, l := Source(c, x).value, drafts[x];
    assert DraftedType(l, d, t);
    FinishedLookup(l, o, t);
    raw := l.records[t];
    assert labels[x].records[t] == FinishList(raw, NeedsWeight(l, t), l.ttl, o.ttl);
    forall i | 0 <= i < |raw|
      ensures LoadedAs(labels[x].records[t][i], raw[i], t, Total(Present(d.records[t])), d.ttl, o.ttl)
    {
      FinishedAs(raw[i], t, Total(Present(d.records[t])), NeedsWeight(l, t), d.ttl, o.ttl);
    }
  }

  lemma FinishedAs(r: Record, t: RRType, total: int, setWeight: bool, labelTtl: Option<int>, zoneTtl: int)
    requires setWeight <==> (t == 1 || t == 28 || t == 5) && total == 0
    ensures LoadedAs(FinishRecord(r, setWeight, Or(labelTtl, 0), zoneTtl), r, t, total, labelTtl, zoneTtl)
  {
  }

  /** The apex of a loaded zone holds an SOA record, so `SoaRR` is defined. */
  lemma ApexHasSoa(labels: LabelMap, c: Config, origin: string, o: Options)
    requires BuiltZone(labels, c, origin, o)
    ensures "" in labels && TYPE_SOA in labels[""].records && |labels[""].records[TYPE_SOA]| == 1
    ensures labels[""].records[TYPE_SOA][0].rr.rtype == TYPE_SOA
  {
    var drafts, finished :| BuiltBy(labels, drafts, finished, c, origin, o);
  }

  lemma SoaKeepsLoaded(l: Label, soa: Record)
    requires Loaded(l) && WeightOf(l, TYPE_SOA) == 0 && soa.weight == 0
    ensures Loaded(l.(records := l.records[TYPE_SOA := [soa]]))
  {
    var l' := l.(records := l.records[TYPE_SOA := [soa]]);
    assert Total([soa]) == 0;
    forall t | t in l'.records
      ensures && WeightOf(l', t) == Total(l'.records[t])
              && Descending(l'.records[t]) && NonNegative(l'.records[t])
              && (AlwaysWeighted(t) && l'.records[t] != [] ==> WeightOf(l', t) > 0)
    {
    }
  }

  lemma FinishedSoaWeight(l: Label, k: string, d: Decoded, o: Options)
    requires Drafted(l, k, d, o) && TYPE_SOA !in d.records
    ensures WeightOf(Finish(l, o), TYPE_SOA) == 0
  {
  }

  /**
   Every label of a loaded zone with non-negative weights is fit for the picker: stored
   weights are sums, lists are in descending order, and non-empty address and CNAME
   lists have positive weight.
   */
  lemma ZoneIsLoaded(labels: LabelMap, c: Config, origin: string, o: Options, x: string)
    requires BuiltZone(labels, c, origin, o) && Supported(c) && NonNegativeConfig(c) && x in labels
    ensures Loaded(labels[x])
  {
    var drafts, finished :| BuiltBy(labels, drafts, finished, c, origin, o);
    assert DraftedName(drafts, {}, c, o, x) && FinishedName(finished, drafts, o, x);
    var l := if x in finished then finished[x] else EmptyLabel(x, o);
    assert Loaded(l) && WeightOf(l, TYPE_SOA) == 0 by {
      if x in finished && x in drafts {
        SourceFound(c, x);
        FinishedIsLoaded(drafts[x], x, Source(c, x).value, o);
        FinishedSoaWeight(drafts[x], x, Source(c, x).value, o);
      }
    }
    if x == "" {
      SoaKeepsLoaded(l, SoaRecord(l, origin, o));
    }
  }

  /** For weights of any sign: stored weights are still sums, and never 0 on an always-weighted list. */
  lemma ZoneWeights(labels: LabelMap, c: Config, origin: string, o: Options, x: string, t: RRType)
    requires BuiltZone(labels, c, origin, o) && Supported(c) && x in labels && t in labels[x].records
    ensures WeightOf(labels[x], t) == Total(labels[x].records[t])
    ensures AlwaysWeighted(t) && labels[x].records[t] != [] ==> WeightOf(labels[x], t) != 0
  {
    var drafts, finished :| BuiltBy(labels, drafts, finished, c, origin, o);
    assert DraftedName(drafts, {}, c, o, x) && FinishedName(finished, drafts, o, x);
    SourceFound(c, x);
    if x in drafts {
      var d := Source(c, x).value;
      if t != TYPE_SOA { FinishedWeight(drafts[x], x, d, o, t); }
      FinishedSoaWeight(drafts[x], x, d, o);
    }
  }
}
