/** `SetLocations`: where the servers of "closest" labels are, as far as the geo provider knows. */
module Locations {
  import opened Common
  import opened ZoneModel
  import opened Picker
  import opened PickerTheorems

  /** The geo provider; it may not know an address. There may be no provider at all. */
  type Geo = string -> Option<Location>

  predicate IsAddress(t: RRType) {
    t == TYPE_A || t == TYPE_AAAA
  }

  function Located(r: Record, geo: Geo): (r': Record) {
    r.(loc := if IsAddress(r.rr.rtype) then geo(r.rr.data) else None)
  }

  function ListLocated(rs: seq<Record>, geo: Geo): (s: seq<Record>)
    ensures |s| == |rs| && forall i :: 0 <= i < |rs| ==> s[i] == Located(rs[i], geo)
  {
    seq(|rs|, i requires 0 <= i < |rs| => Located(rs[i], geo))
  }

  ghost function TypeLocated(l: Label, t: RRType, geo: Geo): (rs: seq<Record>)
    requires t in l.records
  {
    if IsAddress(t) then ListLocated(l.records[t], geo) else l.records[t]
  }

  ghost function LabelLocated(l: Label, geo: Geo): (l': Label) {
    if l.closest then l.(records := map t | t in l.records :: TypeLocated(l, t, geo)) else l
  }

  ghost function WithLocations(labels: LabelMap, geo: Option<Geo>): (m: LabelMap) {
    if geo.None? then labels else map k | k in labels :: LabelLocated(labels[k], geo.value)
  }

  // ---------- the loops ----------

  method LocateList(rs: seq<Record>, geo: Geo) returns (s: seq<Record>)
    ensures s == ListLocated(rs, geo)
  {
    s := [];
    for i := 0 to |rs|
      invariant s == ListLocated(rs[..i], geo)
    {
      var rec := rs[i].(loc := None);
      if IsAddress(rec.rr.rtype) {
        var location := geo(rec.rr.data);
        if location.Some? {
          rec := rec.(loc := location);
        }
      }
      s := s + [rec];
    }
    assert rs[..|rs|] == rs;
  }

  method LocateType(l: Label, t: RRType, geo: Geo) returns (l': Label)
    ensures l' == if t in l.records then l.(records := l.records[t := ListLocated(l.records[t], geo)]) else l
  {
    l' := l;
    if t in l.records && |l.records[t]| > 0 {
      var rs := LocateList(l.records[t], geo);
      l' := l.(records := l.records[t := rs]);
    } else if t in l.records {
      assert l.records[t := ListLocated(l.records[t], geo)] == l.records;
    }
  }

  method LocateLabel(l: Label, geo: Geo) returns (l': Label)
    ensures l' == LabelLocated(l, geo)
  {
    l' := l;
    if l.closest {
      l' := LocateType(l', TYPE_A, geo);
      l' := LocateType(l', TYPE_AAAA, geo);
      assert l'.records == map t | t in l.records :: TypeLocated(l, t, geo);
    }
  }

  method SetLocations(labels: LabelMap, geo: Option<Geo>) returns (m: LabelMap)
    ensures m == WithLocations(labels, geo)
  {
    if geo.None? {
      return labels;
    }
    m := map[];
    var todo := labels.Keys;
    while todo != {}
      invariant todo <= labels.Keys
      invariant m == map k | k in labels && k !in todo :: LabelLocated(labels[k], geo.value)
      decreases |todo|
    {
      var k :| k in todo;
      var l := LocateLabel(labels[k], geo.value);
      todo := todo - {k};
      m := m[k := l];
    }
  }

  // ---------- what it changes and what it keeps ----------

  lemma {:induction false} TotalLocated(rs: seq<Record>, geo: Geo)
    ensures Total(ListLocated(rs, geo)) == Total(rs)
  {
    if rs != [] {
      TotalLocated(rs[1..], geo);
      assert ListLocated(rs, geo)[1..] == ListLocated(rs[1..], geo);
    }
  }

  /** Weights and their order stay as they are. */
  lemma LocationsKeepLoaded(l: Label, geo: Geo)
    requires Loaded(l)
    ensures Loaded(LabelLocated(l, geo))
  {
    var l' := LabelLocated(l, geo);
    forall t | t in l'.records
      ensures && WeightOf(l', t) == Total(l'.records[t])
              && Descending(l'.records[t]) && NonNegative(l'.records[t])
              && (AlwaysWeighted(t) && l'.records[t] != [] ==> WeightOf(l', t) > 0)
    {
      TotalLocated(l.records[t], geo);
    }
  }

  /**
   The distance that a client of a "closest" label is compared by is the one to where the
   provider puts the address, and the maximal one where it does not know it.
   */
  lemma DistanceIsGeo(l: Label, t: RRType, geo: Geo, client: Client, i: nat)
    requires l.closest && (t == 1 || t == 28) && t in l.records && i < |l.records[t]|
    requires l.records[t][i].rr.rtype == t
    ensures t in LabelLocated(l, geo).records && |LabelLocated(l, geo).records[t]| == |l.records[t]|
    ensures Distances(client, LabelLocated(l, geo).records[t])[i] ==
            match geo(l.records[t][i].rr.data) { case None => 360.0 case Some(loc) => client(loc) }
  {
  }

  /** Nothing but the place of a record changes, and only of addresses of "closest" labels. */
  lemma OnlyPlacesChange(l: Label, geo: Geo, t: RRType, i: nat)
    requires t in l.records && i < |l.records[t]|
    ensures LabelLocated(l, geo).(records := l.records) == l && LabelLocated(l, geo).records.Keys == l.records.Keys
    ensures |LabelLocated(l, geo).records[t]| == |l.records[t]|
    ensures var r, r' := l.records[t][i], LabelLocated(l, geo).records[t][i];
            r'.(loc := r.loc) == r && (r' == r || (l.closest && (t == 1 || t == 28)))
  {
  }
}
