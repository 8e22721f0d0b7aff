/**
 What `setupZoneData` makes of one configured label: a first pass that collects and
 sorts the records, and a second one that fills in default weights and TTLs.
 */
module ZoneData {
  import opened Common
  import opened ZoneModel
  import Sorting
  import opened PickerTheorems

  datatype Options = Options(ttl: int, maxHosts: int, contact: string, serial: int, closest: bool)

  /**
   A label as decoded from the zone file. A `None` slot is a zero-length TXT or SPF
   record, which the code skips, leaving a nil entry in the list.
   */
  datatype Decoded = Decoded(
    maxHosts: Option<int>,
    closest: Option<bool>,
    ttl: Option<int>,
    tested: bool,
    records: map<RRType, seq<Option<Record>>>)

  function EmptyLabel(k: string, o: Options): (l: Label) {
    Label(k, o.maxHosts, 0, map[], map[], o.closest, false)
  }

  function Or<T>(x: Option<T>, default: T): (v: T) {
    if x.Some? then x.value else default
  }

  function Present(slots: seq<Option<Record>>): (rs: seq<Record>) {
    if slots == [] then []
    else
      var n := |slots| - 1;
      Present(slots[..n]) + (if slots[n].Some? then [slots[n].value] else [])
  }

  predicate HoleAt(d: Decoded, t: RRType) {
    t in d.records && None in d.records[t]
  }

  /**
   Sorting two entries or more compares every one, so it panics on a nil entry. A list with
   a nil entry and weight has two or more.
   */
  predicate CrashAt(d: Decoded, t: RRType) {
    HoleAt(d, t) && Total(Present(d.records[t])) > 0
  }

  ghost predicate SortCrash(d: Decoded) {
    exists t :: CrashAt(d, t)
  }

  ghost predicate HasHole(d: Decoded) {
    exists t :: HoleAt(d, t)
  }

  // ---------- after the first pass ----------

  /** Sorted by descending weight where there is weight, untouched where there is none. */
  ghost predicate Arranged(rs: seq<Record>, raw: seq<Record>) {
    && multiset(rs) == multiset(raw)
    && (if Total(raw) > 0 then Descending(rs) else rs == raw)
  }

  ghost predicate Drafted(l: Label, k: string, d: Decoded, o: Options) {
    && l.name == k && l.tested == d.tested
    && l.maxHosts == Or(d.maxHosts, o.maxHosts)
    && l.closest == Or(d.closest, o.closest)
    && l.ttl == Or(d.ttl, 0)
    && l.records.Keys == d.records.Keys
    && l.weight.Keys <= d.records.Keys
    && forall t :: t in d.records ==> DraftedType(l, d, t)
  }

  ghost predicate DraftedType(l: Label, d: Decoded, t: RRType)
    requires t in d.records
  {
    && t in l.records
    && Arranged(l.records[t], Present(d.records[t]))
    && WeightOf(l, t) == Total(Present(d.records[t]))
  }

  /** One record list: accumulate the weight, skip nil slots, sort if there is weight. */
  method DraftList(slots: seq<Option<Record>>) returns (rs: seq<Record>, weight: int, crash: bool)
    ensures crash <==> None in slots && Total(Present(slots)) > 0
    ensures !crash ==> weight == Total(Present(slots)) && Arranged(rs, Present(slots))
  {
    rs, weight := [], 0;
    var hole := false;
    for i := 0 to |slots|
      invariant rs == Present(slots[..i]) && weight == Total(rs)
      invariant hole <==> None in slots[..i]
    {
      assert slots[..i + 1][..i] == slots[..i];
      assert slots[..i + 1] == slots[..i] + [slots[i]];
      if slots[i].None? {
        hole := true;
      } else {
        TotalSnoc(rs, slots[i].value);
        rs := rs + [slots[i].value];
        weight := weight + slots[i].value.weight;
      }
    }
    assert slots[..|slots|] == slots;
    crash := weight > 0 && hole;
    if weight > 0 {
      rs := Sorting.SortDescending(rs, (r: Record) => r.weight);
    }
  }

  /** Everything but `todo` is drafted. */
  ghost predicate DraftedBut(l: Label, d: Decoded, todo: set<RRType>) {
    && l.records.Keys == d.records.Keys - todo
    && l.weight.Keys <= l.records.Keys
    && forall t :: t in d.records && t !in todo ==> DraftedType(l, d, t)
  }

  /** The label with a list of type `t` added. */
  function WithList(l: Label, t: RRType, rs: seq<Record>, weight: int): (l': Label) {
    l.(records := l.records[t := rs], weight := l.weight[t := weight])
  }

  lemma DraftKept(l: Label, d: Decoded, t: RRType, rs: seq<Record>, weight: int, x: RRType)
    requires x in d.records && x != t && DraftedType(l, d, x)
    ensures DraftedType(WithList(l, t, rs, weight), d, x)
  {
  }

  lemma DraftNew(l: Label, d: Decoded, t: RRType, rs: seq<Record>, weight: int)
    requires t in d.records && Arranged(rs, Present(d.records[t])) && weight == Total(Present(d.records[t]))
    ensures DraftedType(WithList(l, t, rs, weight), d, t)
  {
  }

  lemma DraftStep(l: Label, d: Decoded, todo: set<RRType>, t: RRType, rs: seq<Record>, weight: int)
    requires todo <= d.records.Keys && t in todo && DraftedBut(l, d, todo)
    requires Arranged(rs, Present(d.records[t])) && weight == Total(Present(d.records[t]))
    ensures DraftedBut(WithList(l, t, rs, weight), d, todo - {t})
  {
    DraftNew(l, d, t, rs, weight);
    forall x | x in d.records && x !in todo - {t} ensures DraftedType(WithList(l, t, rs, weight), d, x) {
      if x != t {
        DraftKept(l, d, t, rs, weight, x);
      }
    }
  }

  /** The first pass over one label, its record types taken in any order. */
  method DraftLabel(k: string, d: Decoded, o: Options) returns (l: Label, hole: bool, crash: bool)
    ensures crash <==> SortCrash(d)
    ensures !crash ==> (hole <==> HasHole(d)) && Drafted(l, k, d, o)
  {
    l := EmptyLabel(k, o);
    l := l.(maxHosts := Or(d.maxHosts, o.maxHosts), closest := Or(d.closest, o.closest),
            ttl := Or(d.ttl, 0), tested := d.tested);
    hole, crash := false, false;
    ghost var base := l;
    var todo := d.records.Keys;
    while todo != {}
      invariant todo <= d.records.Keys && DraftedBut(l, d, todo)
      invariant l == base.(records := l.records, weight := l.weight)
      invariant hole <==> HoleOutside(d, todo)
      invariant !CrashOutside(d, todo)
      decreases |todo|
    {
      var t :| t in todo;
      var rs, weight, c := DraftList(d.records[t]);
      OutsideStep(d, todo, t);
      if c {
        assert CrashAt(d, t);
        crash := true;
        return;
      }
      DraftStep(l, d, todo, t, rs, weight);
      hole := hole || None in d.records[t];
      todo := todo - {t};
      l := l.(records := l.records[t := rs], weight := l.weight[t := weight]);
    }
    OutsideAll(d);
  }

  ghost predicate HoleOutside(d: Decoded, todo: set<RRType>) {
    exists t :: HoleAt(d, t) && t !in todo
  }

  ghost predicate CrashOutside(d: Decoded, todo: set<RRType>) {
    exists t :: CrashAt(d, t) && t !in todo
  }

  lemma OutsideStep(d: Decoded, todo: set<RRType>, t: RRType)
    requires t in todo
    ensures HoleOutside(d, todo - {t}) <==> HoleOutside(d, todo) || HoleAt(d, t)
    ensures CrashOutside(d, todo - {t}) <==> CrashOutside(d, todo) || CrashAt(d, t)
  {
    if HoleOutside(d, todo) {
      var x :| HoleAt(d, x) && x !in todo;
      assert x !in todo - {t};
    }
    if CrashOutside(d, todo) {
      var x :| CrashAt(d, x) && x !in todo;
      assert x !in todo - {t};
    }
  }

  lemma OutsideAll(d: Decoded)
    ensures HoleOutside(d, {}) <==> HasHole(d)
    ensures CrashOutside(d, {}) <==> SortCrash(d)
  {
    if HasHole(d) {
      var t :| HoleAt(d, t);
      assert t !in {};
    }
    if SortCrash(d) {
      var t :| CrashAt(d, t);
      assert t !in {};
    }
  }

  // ---------- the second pass ----------

  function ToUint32(n: int): (u: nat) {
    n % 0x1_0000_0000
  }

  /** The label's TTL if it has one; else a day for NS records and the zone's TTL for others. */
  function DefaultTtl(rtype: RRType, labelTtl: int, zoneTtl: int): (ttl: nat) {
    if labelTtl > 0 then ToUint32(labelTtl)
    else if rtype == TYPE_NS then 86400
    else ToUint32(zoneTtl)
  }

  predicate NeedsWeight(l: Label, t: RRType) {
    AlwaysWeighted(t) && WeightOf(l, t) == 0
  }

  function FinishRecord(r: Record, setWeight: bool, labelTtl: int, zoneTtl: int): (r': Record) {
    r.(weight := if setWeight then 1 else r.weight,
       rr := if r.rr.ttl == 0 then r.rr.(ttl := DefaultTtl(r.rr.rtype, labelTtl, zoneTtl)) else r.rr)
  }

  function FinishList(rs: seq<Record>, setWeight: bool, labelTtl: int, zoneTtl: int): (s: seq<Record>)
    ensures |s| == |rs|
    ensures forall i :: 0 <= i < |rs| ==> s[i] == FinishRecord(rs[i], setWeight, labelTtl, zoneTtl)
  {
    seq(|rs|, i requires 0 <= i < |rs| => FinishRecord(rs[i], setWeight, labelTtl, zoneTtl))
  }

  /** The record lists with all types but those in `todo` finished. */
  ghost function RecordsBut(l: Label, o: Options, todo: set<RRType>): (m: map<RRType, seq<Record>>) {
    map t | t in l.records ::
      if t in todo then l.records[t] else FinishList(l.records[t], NeedsWeight(l, t), l.ttl, o.ttl)
  }

  /** The weights with default weights set for all types but those in `todo`. */
  ghost function WeightsBut(l: Label, todo: set<RRType>): (m: map<RRType, int>) {
    l.weight + map t | t in l.records && t !in todo && NeedsWeight(l, t) && l.records[t] != [] :: |l.records[t]|
  }

  /** The label after the second pass. */
  ghost function Finish(l: Label, o: Options): (f: Label) {
    l.(records := RecordsBut(l, o, {}), weight := WeightsBut(l, {}))
  }

  lemma NothingFinished(l: Label, o: Options)
    ensures RecordsBut(l, o, l.records.Keys) == l.records && WeightsBut(l, l.records.Keys) == l.weight
  {
  }

  lemma RecordsStep(l: Label, o: Options, todo: set<RRType>, t: RRType)
    requires t in todo && t in l.records
    ensures RecordsBut(l, o, todo)[t] == l.records[t]
    ensures RecordsBut(l, o, todo - {t})
            == RecordsBut(l, o, todo)[t := FinishList(l.records[t], NeedsWeight(l, t), l.ttl, o.ttl)]
  {
  }

  lemma WeightsStep(l: Label, todo: set<RRType>, t: RRType)
    requires t in todo && t in l.records
    ensures (if t in WeightsBut(l, todo) then WeightsBut(l, todo)[t] else 0) == WeightOf(l, t)
    ensures WeightsBut(l, todo - {t}) ==
            if NeedsWeight(l, t) && l.records[t] != [] then WeightsBut(l, todo)[t := |l.records[t]|]
            else WeightsBut(l, todo)
  {
  }

  /** The innermost loop: one record list, and the weight added to it. */
  method FinishRecords(rs: seq<Record>, setWeight: bool, labelTtl: int, zoneTtl: int) returns (s: seq<Record>, w: int)
    ensures s == FinishList(rs, setWeight, labelTtl, zoneTtl)
    ensures w == if setWeight then |rs| else 0
  {
    s, w := [], 0;
    for i := 0 to |rs|
      invariant s == FinishList(rs[..i], setWeight, labelTtl, zoneTtl)
      invariant w == if setWeight then i else 0
    {
      if setWeight {
        w := w + 1;
      }
      s := s + [FinishRecord(rs[i], setWeight, labelTtl, zoneTtl)];
    }
    assert rs[..|rs|] == rs;
  }

  /** The second pass over one label. */
  method FinishLabel(l: Label, o: Options) returns (f: Label)
    ensures f == Finish(l, o)
  {
    var records, weight := l.records, l.weight;
    var todo := l.records.Keys;
    NothingFinished(l, o);
    while todo != {}
      invariant todo <= l.records.Keys
      invariant records == RecordsBut(l, o, todo) && weight == WeightsBut(l, todo)
      decreases |todo|
    {
      var t :| t in todo;
      RecordsStep(l, o, todo, t);
      WeightsStep(l, todo, t);
      todo := todo - {t};
      var w := if t in weight then weight[t] else 0;
      var rs, added := FinishRecords(records[t], AlwaysWeighted(t) && w == 0, l.ttl, o.ttl);
      records := records[t := rs];
      if added > 0 {
        weight := weight[t := w + added];
      }
    }
    f := l.(records := records, weight := weight);
  }

  // ---------- what a finished label guarantees ----------

  lemma {:induction false} FinishedTotal(rs: seq<Record>, setWeight: bool, labelTtl: int, zoneTtl: int)
    ensures Total(FinishList(rs, setWeight, labelTtl, zoneTtl)) == if setWeight then |rs| else Total(rs)
  {
    if rs != [] {
      FinishedTotal(rs[1..], setWeight, labelTtl, zoneTtl);
      assert FinishList(rs, setWeight, labelTtl, zoneTtl)[1..] == FinishList(rs[1..], setWeight, labelTtl, zoneTtl);
    }
  }

  /** No weight configured for this label is negative. */
  ghost predicate NonNegativeWeights(d: Decoded) {
    forall t :: t in d.records ==> NonNegative(Present(d.records[t]))
  }

  lemma ZeroTotal(rs: seq<Record>)
    requires NonNegative(rs) && Total(rs) == 0
    ensures Descending(rs)
  {
    TotalNonNegative(rs);
  }

  lemma FinishedLookup(l: Label, o: Options, t: RRType)
    requires t in l.records
    ensures var f := Finish(l, o);
            && t in f.records
            && f.records[t] == FinishList(l.records[t], NeedsWeight(l, t), l.ttl, o.ttl)
            && WeightOf(f, t) == if NeedsWeight(l, t) then |l.records[t]| else WeightOf(l, t)
  {
  }

  /**
   In a finished label every list's stored weight is the sum of its record weights and
   is not 0 where the type is always weighted.
   */
  lemma FinishedWeight(l: Label, k: string, d: Decoded, o: Options, t: RRType)
    requires Drafted(l, k, d, o) && t in d.records
    ensures t in Finish(l, o).records
    ensures var f := Finish(l, o);
            && WeightOf(f, t) == Total(f.records[t])
            && |f.records[t]| == |Present(d.records[t])|
            && (AlwaysWeighted(t) && f.records[t] != [] ==> WeightOf(f, t) != 0)
  {
    var raw, rs := Present(d.records[t]), l.records[t];
    assert DraftedType(l, d, t);
    TotalPermutation(rs, raw);
    assert |multiset(rs)| == |rs| && |multiset(raw)| == |raw|;
    FinishedTotal(rs, NeedsWeight(l, t), l.ttl, o.ttl);
    FinishedLookup(l, o, t);
  }

  /** A list whose configured weight is not positive keeps the order of the file. */
  lemma FileOrderKept(l: Label, k: string, d: Decoded, o: Options, t: RRType)
    requires Drafted(l, k, d, o) && t in d.records && Total(Present(d.records[t])) <= 0
    ensures t in Finish(l, o).records
    ensures Finish(l, o).records[t] == FinishList(Present(d.records[t]), NeedsWeight(l, t), l.ttl, o.ttl)
  {
    assert DraftedType(l, d, t);
    FinishedLookup(l, o, t);
  }

  /** A list is in descending order if its configured weight is positive or no weight is negative. */
  lemma FinishedOrder(l: Label, k: string, d: Decoded, o: Options, t: RRType)
    requires Drafted(l, k, d, o) && t in d.records
    ensures t in Finish(l, o).records
    ensures Total(Present(d.records[t])) > 0 ==> Descending(Finish(l, o).records[t])
    ensures NonNegative(Present(d.records[t])) ==>
              Descending(Finish(l, o).records[t]) && NonNegative(Finish(l, o).records[t])
  {
    var raw, rs := Present(d.records[t]), l.records[t];
    assert DraftedType(l, d, t);
    FinishedLookup(l, o, t);
    TotalPermutation(rs, raw);
    if NonNegative(raw) {
      ArrangedOrder(rs, raw);
    }
    FinishKeepsOrder(rs, NeedsWeight(l, t), l.ttl, o.ttl);
  }

  lemma ArrangedOrder(rs: seq<Record>, raw: seq<Record>)
    requires Arranged(rs, raw) && NonNegative(raw)
    ensures Descending(rs) && NonNegative(rs)
  {
    TotalNonNegative(raw);
    forall i | 0 <= i < |rs| ensures rs[i].weight >= 0 {
      assert rs[i] in multiset(raw);
    }
    if Total(raw) == 0 { ZeroTotal(rs); }
  }

  lemma FinishKeepsOrder(rs: seq<Record>, setWeight: bool, labelTtl: int, zoneTtl: int)
    ensures Descending(rs) ==> Descending(FinishList(rs, setWeight, labelTtl, zoneTtl))
    ensures NonNegative(rs) ==> NonNegative(FinishList(rs, setWeight, labelTtl, zoneTtl))
  {
  }

  /** A label with non-negative weights is what the picker relies on. */
  lemma FinishedIsLoaded(l: Label, k: string, d: Decoded, o: Options)
    requires Drafted(l, k, d, o) && NonNegativeWeights(d) && TYPE_ANY !in d.records
    ensures Loaded(Finish(l, o))
  {
    forall t | t in d.records
      ensures var f := Finish(l, o);
              && WeightOf(f, t) == Total(f.records[t])
              && Descending(f.records[t]) && NonNegative(f.records[t])
              && (AlwaysWeighted(t) && f.records[t] != [] ==> WeightOf(f, t) > 0)
    {
      FinishedWeight(l, k, d, o, t);
      FinishedOrder(l, k, d, o, t);
      TotalNonNegative(Finish(l, o).records[t]);
    }
  }
}
