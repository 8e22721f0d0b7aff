/**
 The order in which Go ranges over the configured labels, and exactly when it matters to
 the zone that is loaded.
 */
module ZoneOrder {
  import opened Common
  import opened ZoneModel
  import opened Names
  import opened Picker
  import opened ZoneData
  import opened Zones
  import opened ZoneTheorems
  import Decimal

  // ---------- a zone exists for every configuration that loads ----------

  ghost function InsertByWeight(x: Record, rs: seq<Record>): (s: seq<Record>)
    requires Descending(rs)
    ensures multiset(s) == multiset(rs) + multiset{x} && Descending(s)
  {
    if rs == [] || x.weight >= rs[0].weight then
      DescendingCons(x, rs); [x] + rs
    else
      var tail := InsertByWeight(x, rs[1..]);
      assert rs == [rs[0]] + rs[1..];
      InsertedBelow(x, rs, tail); [rs[0]] + tail
  }

  lemma InsertedBelow(x: Record, rs: seq<Record>, tail: seq<Record>)
    requires rs != [] && Descending(rs) && x.weight < rs[0].weight
    requires Descending(tail) && multiset(tail) == multiset(rs[1..]) + multiset{x}
    ensures Descending([rs[0]] + tail)
  {
    forall r | r in tail ensures rs[0].weight >= r.weight {
      assert r in multiset(tail);
      assert r == x || r in rs[1..];
    }
    DescendingCons(rs[0], tail);
  }

  ghost function SortedByWeight(rs: seq<Record>): (s: seq<Record>)
    ensures multiset(s) == multiset(rs) && Descending(s)
  {
    if rs == [] then []
    else
      assert rs == [rs[0]] + rs[1..];
      InsertByWeight(rs[0], SortedByWeight(rs[1..]))
  }

  ghost function ArrangedOf(raw: seq<Record>): (rs: seq<Record>)
    ensures Arranged(rs, raw)
  {
    if Total(raw) > 0 then SortedByWeight(raw) else raw
  }

  ghost function DraftOf(k: string, d: Decoded, o: Options): (l: Label)
    ensures Drafted(l, k, d, o)
  {
    var l := Label(k, Or(d.maxHosts, o.maxHosts), Or(d.ttl, 0),
                   map t | t in d.records :: ArrangedOf(Present(d.records[t])),
                   map t | t in d.records :: Total(Present(d.records[t])),
                   Or(d.closest, o.closest), d.tested);
    assert forall t :: t in d.records ==> DraftedType(l, d, t);
    l
  }

  ghost function DraftsOf(c: Config, o: Options): (drafts: LabelMap) {
    map k | k in ConfiguredNames(c) && Source(c, k).Some? :: DraftOf(k, Source(c, k).value, o)
  }

  ghost function FinishedOf(drafts: LabelMap, o: Options): (labels: LabelMap) {
    map x | x in Suffixes(drafts.Keys) && InClosure(drafts.Keys, x)
      :: if x in drafts then Finish(drafts[x], o) else EmptyLabel(x, o)
  }

  /** What loading promises of a zone can always be met. */
  lemma BuiltZoneExists(c: Config, origin: string, o: Options) returns (labels: LabelMap)
    requires Loadable(c)
    ensures BuiltZone(labels, c, origin, o)
  {
    var drafts := DraftsOf(c, o);
    forall k ensures DraftedName(drafts, {}, c, o, k) {
      SourceFound(c, k);
      assert Whole(c, k);
    }
    var finished := FinishedOf(drafts, o);
    forall x ensures FinishedName(finished, drafts, o, x) {
      if InClosure(drafts.Keys, x) { ClosureSuffix(drafts.Keys, x); }
    }
    ApexNs(finished, drafts, c, o);
    labels := WithSoa(finished, origin, o);
    assert BuiltBy(labels, drafts, finished, c, origin, o);
  }

  // ---------- what a configured label comes to ----------

  /** Same label up to the order of its records. */
  ghost predicate SameRecords(a: Label, b: Label) {
    && a.(records := map[], weight := map[]) == b.(records := map[], weight := map[])
    && a.records.Keys == b.records.Keys
    && forall t :: t in a.records ==> SameType(a, b, t)
  }

  ghost predicate SameType(a: Label, b: Label, t: RRType) {
    && t in a.records && t in b.records
    && multiset(a.records[t]) == multiset(b.records[t]) && WeightOf(a, t) == WeightOf(b, t)
  }

  function Without(l: Label, skip: set<RRType>): (l': Label) {
    l.(records := l.records - skip)
  }

  /** The records of type `t` that the configuration `d` comes to, in any order. */
  ghost function ListOf(d: Decoded, t: RRType, o: Options): (rs: multiset<Record>)
    requires t in d.records
  {
    var raw := Present(d.records[t]);
    multiset(FinishList(raw, AlwaysWeighted(t) && Total(raw) == 0, Or(d.ttl, 0), o.ttl))
  }

  /** Two configurations that come to the same label, the types in `skip` aside. */
  ghost predicate SameConfig(a: Decoded, b: Decoded, o: Options, skip: set<RRType>) {
    && Or(a.maxHosts, o.maxHosts) == Or(b.maxHosts, o.maxHosts)
    && Or(a.closest, o.closest) == Or(b.closest, o.closest)
    && Or(a.ttl, 0) == Or(b.ttl, 0) && a.tested == b.tested
    && a.records.Keys - skip == b.records.Keys - skip
    && forall t :: t in a.records && t !in skip ==> SameList(a, b, t, o)
  }

  ghost predicate SameList(a: Decoded, b: Decoded, t: RRType, o: Options) {
    t in a.records && t in b.records && ListOf(a, t, o) == ListOf(b, t, o)
  }

  /** `f` is `s` with `g` applied to every record. */
  ghost predicate Mapped(f: seq<Record>, s: seq<Record>, g: Record -> Record) {
    |f| == |s| && forall i :: 0 <= i < |s| ==> f[i] == g(s[i])
  }

  lemma {:induction false} MappedPermutation(fa: seq<Record>, a: seq<Record>, fb: seq<Record>, b: seq<Record>,
                                             g: Record -> Record)
    requires multiset(a) == multiset(b) && Mapped(fa, a, g) && Mapped(fb, b, g)
    ensures multiset(fa) == multiset(fb)
    decreases |a|
  {
    if a == [] {
      assert |multiset(b)| == |b|;
    } else {
      var i := FindFirst(a, b);
      var a', b', fa', fb' := a[1..], b[..i] + b[i + 1..], fa[1..], fb[..i] + fb[i + 1..];
      assert Mapped(fa', a', g) && Mapped(fb', b', g);
      MappedPermutation(fa', a', fb', b', g);
      assert fa == [fa[0]] + fa';
      MultisetRemove(fb, i);
    }
  }

  lemma FindFirst(a: seq<Record>, b: seq<Record>) returns (i: nat)
    requires a != [] && multiset(a) == multiset(b)
    ensures i < |b| && b[i] == a[0] && multiset(a[1..]) == multiset(b[..i] + b[i + 1..])
  {
    assert a[0] in multiset(b);
    i :| 0 <= i < |b| && b[i] == a[0];
    var a', b' := a[1..], b[..i] + b[i + 1..];
    assert multiset(a) == multiset(a') + multiset{a[0]} by { assert a == [a[0]] + a'; }
    assert multiset(b) == multiset(b') + multiset{a[0]} by { MultisetRemove(b, i); }
    Cancel(multiset(a'), multiset(b'), a[0]);
  }

  lemma Cancel<T>(x: multiset<T>, y: multiset<T>, e: T)
    requires x + multiset{e} == y + multiset{e}
    ensures x == y
  {
    assert x == (x + multiset{e}) - multiset{e};
    assert y == (y + multiset{e}) - multiset{e};
  }

  lemma FinishListPermutation(a: seq<Record>, b: seq<Record>, setWeight: bool, labelTtl: int, zoneTtl: int)
    requires multiset(a) == multiset(b)
    ensures multiset(FinishList(a, setWeight, labelTtl, zoneTtl))
            == multiset(FinishList(b, setWeight, labelTtl, zoneTtl))
  {
    var g := (r: Record) => FinishRecord(r, setWeight, labelTtl, zoneTtl);
    MappedPermutation(FinishList(a, setWeight, labelTtl, zoneTtl), a,
                      FinishList(b, setWeight, labelTtl, zoneTtl), b, g);
  }

  lemma FinishedShows(l: Label, k: string, d: Decoded, o: Options, t: RRType)
    requires Drafted(l, k, d, o) && t in d.records
    ensures var f := Finish(l, o);
            t in f.records && multiset(f.records[t]) == ListOf(d, t, o) && WeightOf(f, t) == Total(f.records[t])
  {
    assert DraftedType(l, d, t);
    FinishedWeight(l, k, d, o, t);
    FinishedLookup(l, o, t);
    FinishListPermutation(l.records[t], Present(d.records[t]), NeedsWeight(l, t), l.ttl, o.ttl);
  }

  lemma SameTypeOf(fa: Label, fb: Label, t: RRType, skip: set<RRType>)
    requires t in fa.records && t in fb.records && t !in skip
    requires WeightOf(fa, t) == Total(fa.records[t]) && WeightOf(fb, t) == Total(fb.records[t])
    ensures SameType(Without(fa, skip), Without(fb, skip), t) <==> multiset(fa.records[t]) == multiset(fb.records[t])
  {
    var ra, rb := fa.records[t], fb.records[t];
    if multiset(ra) == multiset(rb) { TotalPermutation(ra, rb); }
  }

  lemma SameTypeIff(la: Label, lb: Label, k: string, a: Decoded, b: Decoded, o: Options, skip: set<RRType>, t: RRType)
    requires Drafted(la, k, a, o) && Drafted(lb, k, b, o) && t in a.records && t in b.records && t !in skip
    ensures SameType(Without(Finish(la, o), skip), Without(Finish(lb, o), skip), t) <==> SameList(a, b, t, o)
  {
    FinishedShows(la, k, a, o, t);
    FinishedShows(lb, k, b, o, t);
    SameTypeOf(Finish(la, o), Finish(lb, o), t, skip);
  }

  lemma FinishedKeys(l: Label, k: string, d: Decoded, o: Options, skip: set<RRType>)
    requires Drafted(l, k, d, o)
    ensures Without(Finish(l, o), skip).records.Keys == d.records.Keys - skip
  {
  }

  /** Two drafted labels come to the same exactly when their configurations do. */
  lemma SameLabelIff(la: Label, lb: Label, k: string, a: Decoded, b: Decoded, o: Options, skip: set<RRType>)
    requires Drafted(la, k, a, o) && Drafted(lb, k, b, o)
    ensures SameRecords(Without(Finish(la, o), skip), Without(Finish(lb, o), skip)) <==> SameConfig(a, b, o, skip)
  {
    FinishedKeys(la, k, a, o, skip);
    FinishedKeys(lb, k, b, o, skip);
    var fa, fb := Without(Finish(la, o), skip), Without(Finish(lb, o), skip);
    forall t | t in a.records && t in b.records && t !in skip ensures SameType(fa, fb, t) <==> SameList(a, b, t, o) {
      SameTypeIff(la, lb, k, a, b, o, skip, t);
    }
    if SameRecords(fa, fb) {
      forall t | t in a.records && t !in skip ensures SameList(a, b, t, o) {
        assert t in fa.records.Keys && t in fb.records.Keys;
        assert SameType(fa, fb, t);
      }
    } else if SameConfig(a, b, o, skip) {
      forall t | t in fa.records ensures SameType(fa, fb, t) {
        assert t in fa.records.Keys;
        assert SameList(a, b, t, o);
      }
    }
  }

  // ---------- which entry a name ends up with ----------

  ghost predicate Permutes(d: Config, c: Config) {
    multiset(d) == multiset(c)
  }

  lemma {:induction false} SourceConcat(a: Config, b: Config, k: string)
    ensures Source(a + b, k) == if Source(b, k).Some? then Source(b, k) else Source(a, k)
  {
    if b == [] {
      assert a + b == a;
    } else {
      var n := |b| - 1;
      assert (a + b)[..|a + b| - 1] == a + b[..n];
      SourceConcat(a, b[..n], k);
    }
  }

  function MoveLast(c: Config, i: nat): (d: Config)
    requires i < |c|
  {
    c[..i] + c[i + 1..] + [c[i]]
  }

  /** Moving an entry to the end makes it the one that counts, and changes no other name. */
  lemma MovedSource(c: Config, i: nat, k: string)
    requires i < |c|
    ensures Permutes(MoveLast(c, i), c)
    ensures Source(MoveLast(c, i), k) == if k == ToLower(c[i].0) then Some(c[i].1) else Source(c, k)
  {
    var a, b, e := c[..i], c[i + 1..], c[i];
    assert c == a + [e] + b;
    SourceConcat(a + b, [e], k);
    SourceConcat(a, b, k);
    SourceConcat(a + [e], b, k);
    SourceConcat(a, [e], k);
    assert [e][..0] == [];
  }

  /** Entry `i` configures `x` and leaves a zone that loads when it comes last. */
  ghost predicate Viable(c: Config, x: string, i: nat) {
    && i < |c| && ToLower(c[i].0) == x && !HasHole(c[i].1)
    && (x == "" && TYPE_NS in c[i].1.records ==> c[i].1.records[TYPE_NS] != [])
  }

  lemma MovedLoads(c: Config, i: nat)
    requires Loadable(c) && i < |c| && Viable(c, ToLower(c[i].0), i)
    ensures Loadable(MoveLast(c, i))
  {
    var d := MoveLast(c, i);
    forall j | 0 <= j < |d| ensures !SortCrash(d[j].1) {
      MovedSource(c, i, "");
      assert d[j] in multiset(c);
    }
    forall k ensures Whole(d, k) {
      MovedSource(c, i, k);
      assert Whole(c, k);
    }
    MovedSource(c, i, "");
  }

  /** The entry that counts in a loaded zone is viable in every other order, too. */
  lemma SourceIsViable(labels: LabelMap, d: Config, c: Config, origin: string, o: Options, x: string) returns (i: nat)
    requires BuiltZone(labels, d, origin, o) && Permutes(d, c) && Source(d, x).Some?
    ensures Viable(c, x, i) && c[i].1 == Source(d, x).value
  {
    SourceFound(d, x);
    var j :| 0 <= j < |d| && ToLower(d[j].0) == x && d[j].1 == Source(d, x).value;
    assert d[j] in multiset(c);
    i :| 0 <= i < |c| && c[i] == d[j];
    var drafts, finished :| BuiltBy(labels, drafts, finished, d, origin, o);
    assert DraftedName(drafts, {}, d, o, x);
    ApexNs(finished, drafts, d, o);
  }

  // ---------- the SOA ----------

  /** The name server that the SOA names. */
  function PrimaryNs(d: Option<Decoded>): (ns: string) {
    if d.Some? && TYPE_NS in d.value.records && Present(d.value.records[TYPE_NS]) != []
    then Present(d.value.records[TYPE_NS])[0].rr.data
    else "ns"
  }

  /** NS records have no weights, so their lists are not sorted. */
  ghost predicate PlainNs(c: Config) {
    forall i :: 0 <= i < |c| && TYPE_NS in c[i].1.records ==> Total(Present(c[i].1.records[TYPE_NS])) <= 0
  }

  lemma SoaDiffers(a: string, b: string, origin: string, o: Options)
    ensures SoaOf(a, origin, o) == SoaOf(b, origin, o) <==> a == b
  {
    SameEnd(a, b, SoaFields(o));
  }

  lemma SameEnd(a: string, b: string, tail: string)
    ensures a + tail == b + tail <==> a == b
  {
    if a + tail == b + tail {
      assert |a| == |b|;
      assert a == (a + tail)[..|a|] == (b + tail)[..|b|] == b;
    }
  }

  /** Finishing a list changes no record's data. */
  lemma FirstData(rs: seq<Record>, setWeight: bool, labelTtl: int, zoneTtl: int)
    requires rs != []
    ensures FinishList(rs, setWeight, labelTtl, zoneTtl)[0].rr.data == rs[0].rr.data
  {
  }

  lemma FirstNs(draft: Label, d: Decoded, o: Options, f: Label)
    requires Drafted(draft, "", d, o) && f == Finish(draft, o) && TYPE_NS in d.records
    requires Total(Present(d.records[TYPE_NS])) <= 0
    ensures TYPE_NS in f.records
    ensures f.records[TYPE_NS] != [] ==> f.records[TYPE_NS][0].rr.data == PrimaryNs(Some(d))
  {
    FileOrderKept(draft, "", d, o, TYPE_NS);
    var raw := Present(d.records[TYPE_NS]);
    if raw != [] { FirstData(raw, NeedsWeight(draft, TYPE_NS), draft.ttl, o.ttl); }
  }

  lemma ApexSoa(labels: LabelMap, drafts: LabelMap, finished: LabelMap, c: Config, origin: string, o: Options)
    requires BuiltBy(labels, drafts, finished, c, origin, o)
    ensures "" in labels && TYPE_SOA in labels[""].records
    ensures labels[""].records[TYPE_SOA] == [SoaRecord(ApexOf(finished, o), origin, o)]
    ensures Source(c, "").None? ==> ApexOf(finished, o) == EmptyLabel("", o)
    ensures Source(c, "").Some? ==>
              && "" in drafts && Drafted(drafts[""], "", Source(c, "").value, o)
              && ApexOf(finished, o) == Finish(drafts[""], o)
  {
    assert DraftedName(drafts, {}, c, o, "") && FinishedName(finished, drafts, o, "");
  }

  /** The SOA follows from the apex's configuration. */
  lemma SoaFollows(labels: LabelMap, c: Config, origin: string, o: Options)
    requires BuiltZone(labels, c, origin, o) && PlainNs(c)
    ensures "" in labels && TYPE_SOA in labels[""].records
    ensures labels[""].records[TYPE_SOA] == [SoaOf(PrimaryNs(Source(c, "")), origin, o)]
  {
    var drafts, finished :| BuiltBy(labels, drafts, finished, c, origin, o);
    ApexSoa(labels, drafts, finished, c, origin, o);
    SourceFound(c, "");
    if Source(c, "").Some? {
      var d := Source(c, "").value;
      if TYPE_NS in d.records {
        FirstNs(drafts[""], d, o, ApexOf(finished, o));
      } else {
        FinishedKeys(drafts[""], "", d, o, {});
      }
    }
  }

  /**
   The SOA, written out: the first NS record of the file or "ns", the contact and the serial
   number, and ten times the zone's TTL up to an hour, or ten minutes if that is 0.
   */
  lemma SoaWritten(labels: LabelMap, c: Config, origin: string, o: Options)
    requires BuiltZone(labels, c, origin, o) && PlainNs(c)
    ensures var d := Source(c, "");
            var ns := if d.None? || TYPE_NS !in d.value.records || Present(d.value.records[TYPE_NS]) == [] then "ns"
                      else Present(d.value.records[TYPE_NS])[0].rr.data;
            var ttl := if o.ttl > 360 then 3600 else if o.ttl == 0 then 600 else o.ttl * 10 % 4294967296;
            var text := ns + (" " + o.contact + " " + Decimal.Itoa(o.serial) + " 5400 5400 1209600 3600");
            && "" in labels && 6 in labels[""].records
            && labels[""].records[6] == [Record(RR(origin + ".", 6, ttl, text), 0, None, "")]
  {
    SoaFollows(labels, c, origin, o);
  }

  // ---------- when the order matters ----------

  function Skip(x: string): (skip: set<RRType>) {
    if x == "" then {TYPE_SOA} else {}
  }

  /** The two zones agree on the name `x`; the SOA at the apex is compared if `soa` says so. */
  ghost predicate SameAt(la: LabelMap, lb: LabelMap, x: string, soa: bool) {
    && (x in la <==> x in lb)
    && (x in la ==> SameRecords(Without(la[x], Skip(x)), Without(lb[x], Skip(x))))
    && (soa && x == "" && x in la ==> SameSoa(la[x], lb[x]))
  }

  ghost predicate SameSoa(a: Label, b: Label) {
    TYPE_SOA in a.records && TYPE_SOA in b.records && a.records[TYPE_SOA] == b.records[TYPE_SOA]
  }

  /** Two configurations of the name `x` come to the same, the SOA included if `soa` says so. */
  ghost predicate Agree(a: Decoded, b: Decoded, o: Options, x: string, soa: bool) {
    SameConfig(a, b, o, Skip(x)) && (soa && x == "" ==> PrimaryNs(Some(a)) == PrimaryNs(Some(b)))
  }

  lemma SameNames(c: Config, d: Config)
    requires Permutes(d, c)
    ensures ConfiguredNames(d) == ConfiguredNames(c)
  {
    forall x | x in ConfiguredNames(d) ensures x in ConfiguredNames(c) {
      var j :| 0 <= j < |d| && ToLower(d[j].0) == x;
      assert d[j] in multiset(c);
    }
    forall x | x in ConfiguredNames(c) ensures x in ConfiguredNames(d) {
      var j :| 0 <= j < |c| && ToLower(c[j].0) == x;
      assert c[j] in multiset(d);
    }
  }

  /** The label of a configured name in a loaded zone, up to the SOA. */
  lemma LabelShows(labels: LabelMap, c: Config, origin: string, o: Options, x: string) returns (l0: Label)
    requires BuiltZone(labels, c, origin, o) && x in labels
    ensures Without(labels[x], Skip(x)) == Without(l0, Skip(x))
    ensures Source(c, x).None? ==> l0 == EmptyLabel(x, o)
    ensures Source(c, x).Some? ==> FinishedFrom(l0, x, Source(c, x).value, o)
  {
    l0 := ZoneContents(labels, c, origin, o, x);
  }

  /** Two loaded zones agree on a name exactly when the entries that count come to the same. */
  lemma SameAtIff(la: LabelMap, lb: LabelMap, d: Config, e: Config, origin: string, o: Options, x: string, soa: bool)
    requires BuiltZone(la, d, origin, o) && BuiltZone(lb, e, origin, o) && Permutes(d, e)
    requires soa ==> PlainNs(d) && PlainNs(e)
    ensures Source(d, x).Some? <==> Source(e, x).Some?
    ensures SameAt(la, lb, x, soa) <==>
            (Source(d, x).Some? ==> Agree(Source(d, x).value, Source(e, x).value, o, x, soa))
  {
    SameNames(e, d);
    SourceFound(d, x);
    SourceFound(e, x);
    ZoneNames(la, d, origin, o, x);
    ZoneNames(lb, e, origin, o, x);
    if soa && x == "" {
      SoaFollows(la, d, origin, o);
      SoaFollows(lb, e, origin, o);
      SoaDiffers(PrimaryNs(Source(d, x)), PrimaryNs(Source(e, x)), origin, o);
    }
    if x in la {
      var a := LabelShows(la, d, origin, o, x);
      var b := LabelShows(lb, e, origin, o, x);
      if Source(d, x).Some? {
        var da :| Drafted(da, x, Source(d, x).value, o) && a == Finish(da, o);
        var db :| Drafted(db, x, Source(e, x).value, o) && b == Finish(db, o);
        SameLabelIff(da, db, x, Source(d, x).value, Source(e, x).value, o, Skip(x));
      }
    }
  }

  ghost predicate TwoOrders(d: Config, e: Config, c: Config) {
    Permutes(d, c) && Permutes(e, c)
  }

  /** Whatever order Go takes the labels in, the name `x` comes out the same. */
  ghost predicate OrderIrrelevant(c: Config, origin: string, o: Options, x: string, soa: bool) {
    forall d, e, la, lb | TwoOrders(d, e, c) && BuiltZone(la, d, origin, o) && BuiltZone(lb, e, origin, o)
      :: SameAt(la, lb, x, soa)
  }

  /** All entries that can end up as the label `x` come to the same. */
  ghost predicate EntriesAgree(c: Config, o: Options, x: string, soa: bool) {
    forall i: nat, j: nat :: Viable(c, x, i) && Viable(c, x, j) ==> Agree(c[i].1, c[j].1, o, x, soa)
  }

  /**
   The order does not matter to a name exactly when all its viable entries come to the
   same label; in particular when no two configured names differ in case only. The SOA is
   part of this where NS records have no weights.
   */
  lemma OrderIrrelevantIff(c: Config, origin: string, o: Options, x: string, soa: bool)
    requires Loadable(c) && (soa ==> PlainNs(c))
    ensures OrderIrrelevant(c, origin, o, x, soa) <==> EntriesAgree(c, o, x, soa)
  {
    if EntriesAgree(c, o, x, soa) {
      forall d, e, la, lb | TwoOrders(d, e, c) && BuiltZone(la, d, origin, o) && BuiltZone(lb, e, origin, o)
        ensures SameAt(la, lb, x, soa)
      {
        if soa {
          PlainAnyway(c, d);
          PlainAnyway(c, e);
        }
        SameAtIff(la, lb, d, e, origin, o, x, soa);
        if Source(d, x).Some? {
          var i := SourceIsViable(la, d, c, origin, o, x);
          var j := SourceIsViable(lb, e, c, origin, o, x);
        }
      }
    } else {
      var i: nat, j: nat :| Viable(c, x, i) && Viable(c, x, j) && !Agree(c[i].1, c[j].1, o, x, soa);
      var la, lb := OrderMatters(c, origin, o, x, soa, i, j);
      assert TwoOrders(MoveLast(c, i), MoveLast(c, j), c);
    }
  }

  lemma PlainAnyway(c: Config, d: Config)
    requires PlainNs(c) && Permutes(d, c)
    ensures PlainNs(d)
  {
    forall i | 0 <= i < |d| && TYPE_NS in d[i].1.records ensures Total(Present(d[i].1.records[TYPE_NS])) <= 0 {
      assert d[i] in multiset(c);
    }
  }

  /** Two entries that come to different labels: two orders, two zones. */
  lemma OrderMatters(c: Config, origin: string, o: Options, x: string, soa: bool, i: nat, j: nat)
    returns (la: LabelMap, lb: LabelMap)
    requires Loadable(c) && (soa ==> PlainNs(c))
    requires Viable(c, x, i) && Viable(c, x, j) && !Agree(c[i].1, c[j].1, o, x, soa)
    ensures BuiltZone(la, MoveLast(c, i), origin, o) && BuiltZone(lb, MoveLast(c, j), origin, o)
    ensures Permutes(MoveLast(c, i), c) && Permutes(MoveLast(c, j), c) && !SameAt(la, lb, x, soa)
  {
    MovedLoads(c, i);
    MovedLoads(c, j);
    MovedSource(c, i, x);
    MovedSource(c, j, x);
    la := BuiltZoneExists(MoveLast(c, i), origin, o);
    lb := BuiltZoneExists(MoveLast(c, j), origin, o);
    if soa {
      PlainAnyway(c, MoveLast(c, i));
      PlainAnyway(c, MoveLast(c, j));
    }
    SameAtIff(la, lb, MoveLast(c, i), MoveLast(c, j), origin, o, x, soa);
  }

  /** Without case collisions every name comes out the same in every order. */
  lemma DistinctNamesAgree(c: Config, origin: string, o: Options, x: string, soa: bool)
    requires Loadable(c) && (soa ==> PlainNs(c))
    requires forall i, j :: 0 <= i < j < |c| ==> ToLower(c[i].0) != ToLower(c[j].0)
    ensures OrderIrrelevant(c, origin, o, x, soa)
  {
    OrderIrrelevantIff(c, origin, o, x, soa);
    assert forall i: nat, j: nat :: Viable(c, x, i) && Viable(c, x, j) ==> i == j;
  }

  /** A collision that matters: "Foo" has an address and "foo" has none. */
  lemma CaseDecidesByOrder(origin: string, o: Options, r: Record) returns (la: LabelMap, lb: LabelMap)
    ensures var a := Decoded(None, None, None, false, map[TYPE_A := [Some(r)]]);
            var b := Decoded(None, None, None, false, map[]);
            && BuiltZone(la, [("Foo", a), ("foo", b)], origin, o) && BuiltZone(lb, [("foo", b), ("Foo", a)], origin, o)
            && "foo" in la && "foo" in lb && TYPE_A !in la["foo"].records && TYPE_A in lb["foo"].records
  {
    var a := Decoded(None, None, None, false, map[TYPE_A := [Some(r)]]);
    var b := Decoded(None, None, None, false, map[]);
    var c, d := [("Foo", a), ("foo", b)], [("foo", b), ("Foo", a)];
    assert ToLower("Foo") == "foo" && ToLower("foo") == "foo";
    CollisionLoads(c, a, b);
    CollisionLoads(d, a, b);
    la := BuiltZoneExists(c, origin, o);
    lb := BuiltZoneExists(d, origin, o);
    assert Source(c, "foo") == Some(b) && Source(d, "foo") == Some(a);
    SourceFound(c, "foo");
    SourceFound(d, "foo");
    ZoneNames(la, c, origin, o, "foo");
    ZoneNames(lb, d, origin, o, "foo");
    var la0 := ZoneContents(la, c, origin, o, "foo");
    var lb0 := ZoneContents(lb, d, origin, o, "foo");
  }

  lemma CollisionLoads(c: Config, a: Decoded, b: Decoded)
    requires forall i :: 0 <= i < |c| ==> ToLower(c[i].0) == "foo" && (c[i].1 == a || c[i].1 == b)
    requires !HasHole(a) && !HasHole(b)
    ensures Loadable(c)
  {
    forall k ensures Whole(c, k) {
      SourceFound(c, k);
    }
    SourceFound(c, "");
    forall i | 0 <= i < |c| ensures !SortCrash(c[i].1) {
      assert forall t :: !HoleAt(c[i].1, t);
    }
  }
}
