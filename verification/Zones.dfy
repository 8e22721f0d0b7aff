/** The `Zone` object while it is being loaded: its labels and how they are set up. */
module Zones {
  import opened Common
  import opened ZoneModel
  import opened Names
  import opened ZoneData
  import Decimal

  /** The entries of the "data" object, in the order Go happens to range over it. */
  type Config = seq<(string, Decoded)>

  /** The configuration of the label `k`: entries whose names differ only in case replace each other. */
  function Source(c: Config, k: string): (d: Option<Decoded>) {
    if c == [] then None
    else
      var n := |c| - 1;
      if ToLower(c[n].0) == k then Some(c[n].1) else Source(c[..n], k)
  }

  /** A configured name, or what follows a dot of one. */
  ghost predicate InClosure(keys: set<string>, x: string) {
    x in keys || exists k :: k in keys && DotSuffix(x, k)
  }

  // ---------- what the three stages produce ----------

  /** The name `k` after the first pass; `holes` are the labels with a nil record. */
  ghost predicate DraftedName(labels: LabelMap, holes: set<string>, c: Config, o: Options, k: string) {
    match Source(c, k)
    case None => k !in labels && k !in holes
    case Some(d) => k in labels && Drafted(labels[k], k, d, o) && (k in holes <==> HasHole(d))
  }

  ghost predicate DraftedZone(labels: LabelMap, holes: set<string>, c: Config, o: Options) {
    forall k :: DraftedName(labels, holes, c, o, k)
  }

  /** The name `x` after the second pass, which also adds the empty labels. */
  ghost predicate FinishedName(labels: LabelMap, drafts: LabelMap, o: Options, x: string) {
    if x in drafts then x in labels && labels[x] == Finish(drafts[x], o)
    else if InClosure(drafts.Keys, x) then x in labels && labels[x] == EmptyLabel(x, o)
    else x !in labels
  }

  ghost predicate FinishedZone(labels: LabelMap, drafts: LabelMap, o: Options) {
    forall x :: FinishedName(labels, drafts, o, x)
  }

  function ApexOf(labels: LabelMap, o: Options): (l: Label) {
    if "" in labels then labels[""] else EmptyLabel("", o)
  }

  function SoaTtl(o: Options): (ttl: int) {
    var ttl := Min(o.ttl * 10, 3600);
    if ttl == 0 then 600 else ttl
  }

  /** The SOA record, built from the first NS record if there is one. */
  function SoaRecord(apex: Label, origin: string, o: Options): (r: Record)
    requires TYPE_NS in apex.records ==> apex.records[TYPE_NS] != []
  {
    SoaOf(if TYPE_NS in apex.records then apex.records[TYPE_NS][0].rr.data else "ns", origin, o)
  }

  function SoaOf(ns: string, origin: string, o: Options): (r: Record) {
    Record(RR(origin + ".", TYPE_SOA, ToUint32(SoaTtl(o)), ns + SoaFields(o)), 0, None, "")
  }

  /** The SOA text after the name server: contact, serial number and the fixed intervals. */
  function SoaFields(o: Options): (text: string) {
    " " + o.contact + " " + Decimal.Itoa(o.serial) + " 5400 5400 1209600 3600"
  }

  /** `addSOA` indexes the first NS record and panics if the list is empty. */
  predicate SoaPossible(labels: LabelMap, o: Options) {
    TYPE_NS in ApexOf(labels, o).records ==> ApexOf(labels, o).records[TYPE_NS] != []
  }

  function WithSoa(labels: LabelMap, origin: string, o: Options): (m: LabelMap)
    requires SoaPossible(labels, o)
  {
    var apex := ApexOf(labels, o);
    labels["" := apex.(records := apex.records[TYPE_SOA := [SoaRecord(apex, origin, o)]])]
  }

  // ---------- when loading fails ----------

  /** The configuration that `k` ends up with has no nil record. */
  ghost predicate Whole(c: Config, k: string) {
    Source(c, k).Some? ==> !HasHole(Source(c, k).value)
  }

  /** No sort meets a nil record, none is left at the end, and the SOA can be made. */
  ghost predicate Loadable(c: Config) {
    && (forall i :: 0 <= i < |c| ==> !SortCrash(c[i].1))
    && (forall k :: Whole(c, k))
    && (Source(c, "").Some? && TYPE_NS in Source(c, "").value.records ==> Source(c, "").value.records[TYPE_NS] != [])
  }

  /** A zone as loading leaves it. */
  ghost predicate BuiltZone(labels: LabelMap, c: Config, origin: string, o: Options) {
    exists drafts, finished :: BuiltBy(labels, drafts, finished, c, origin, o)
  }

  ghost predicate BuiltBy(labels: LabelMap, drafts: LabelMap, finished: LabelMap, c: Config, origin: string,
                          o: Options)
  {
    && DraftedZone(drafts, {}, c, o)
    && FinishedZone(finished, drafts, o)
    && SoaPossible(finished, o)
    && labels == WithSoa(finished, origin, o)
  }

  class Zone {
    const origin: string
    var labels: LabelMap
    var options: Options

    /** `NewZone`. */
    constructor (name: string)
      ensures origin == name && labels == map[]
      ensures options == Options(120, 2, "hostmaster." + name, 0, false)
    {
      origin, labels := name, map[];
      options := Options(120, 2, "hostmaster." + name, 0, false);
    }

    method AddLabel(name: string)
      modifies this`labels
      ensures labels == old(labels)[ToLower(name) := EmptyLabel(ToLower(name), options)]
    {
      var k := ToLower(name);
      labels := labels[k := EmptyLabel(k, options)];
    }

    /** `valid` says whether the library accepts the SOA text. */
    method AddSOA(valid: bool) returns (ok: bool)
      modifies this`labels
      ensures ok <==> valid && SoaPossible(old(labels), options)
      ensures ok ==> labels == WithSoa(old(labels), origin, options)
    {
      if "" !in labels {
        AddLabel("");
      }
      var l := labels[""];
      var primaryNs := "ns";
      if TYPE_NS in l.records {
        if l.records[TYPE_NS] == [] {
          return false;
        }
        primaryNs := l.records[TYPE_NS][0].rr.data;
      }
      var ttl := options.ttl * 10;
      if ttl > 3600 {
        ttl := 3600;
      }
      if ttl == 0 {
        ttl := 600;
      }
      if !valid {
        return false;
      }
      var rr := RR(origin + ".", TYPE_SOA, ToUint32(ttl), primaryNs + SoaFields(options));
      labels := labels["" := l.(records := l.records[TYPE_SOA := [Record(rr, 0, None, "")]])];
      ok := true;
    }

    /** First pass: every configured label, its records collected and sorted. */
    method DraftLabels(c: Config) returns (ok: bool, holes: set<string>)
      requires labels == map[]
      modifies this`labels
      ensures ok <==> forall i :: 0 <= i < |c| ==> !SortCrash(c[i].1)
      ensures ok ==> DraftedZone(labels, holes, c, options)
    {
      holes := {};
      assert forall k :: DraftedName(labels, holes, c[..0], options, k);
      for i := 0 to |c|
        invariant DraftedZone(labels, holes, c[..i], options)
        invariant forall j :: 0 <= j < i ==> !SortCrash(c[j].1)
      {
        var k := ToLower(c[i].0);
        ghost var before := labels;
        AddLabel(k);
        var l, hole, crash := DraftLabel(k, c[i].1, options);
        if crash {
          return false, {};
        }
        LowerIdempotent(c[i].0);
        DraftZoneStep(before, holes, c, i, options, k, l, hole);
        assert labels[k := l] == before[k := l];
        labels := labels[k := l];
        holes := if hole then holes + {k} else holes - {k};
      }
      assert c[..|c|] == c;
      ok := true;
    }

    method AddParent(parent: string, ghost k: string, ghost start: LabelMap)
      requires ToLower(k) == k && DotSuffix(parent, k) && Extends(labels, start, k, options)
      modifies this`labels
      ensures Extends(labels, start, k, options)
      ensures labels.Keys == old(labels).Keys + {parent}
    {
      LowerSuffix(parent, k);
      if parent !in labels {
        AddLabel(parent);
      }
    }

    /** Adds the missing parents of one label. */
    method AddParents(k: string)
      requires ToLower(k) == k
      modifies this`labels
      ensures WithParents(labels, old(labels), k, options)
    {
      ghost var start := labels;
      if '.' in k {
        for i := 1 to |Split(k)|
          invariant Extends(labels, start, k, options)
          invariant TailsIn(labels.Keys, k, i)
        {
          var subSubLabel := Tail(k, i);
          TailIsSuffix(k, i);
          TailsStep(labels.Keys, k, i);
          AddParent(subSubLabel, k, start);
        }
      }
      AllTailsAdded(labels, k);
    }

    /** One round of the second pass; returns the labels it inserted. */
    method VisitLabel(k: string, ghost drafts: LabelMap, ghost visited: set<string>) returns (inserted: set<string>)
      requires k in labels && k !in visited && InProgress(labels, drafts, visited, options)
      modifies this`labels
      ensures InProgress(labels, drafts, visited + {k}, options)
      ensures labels.Keys == old(labels).Keys + inserted && old(labels).Keys !! inserted
    {
      var before := labels;
      AddParents(k);
      ghost var grown := labels;
      var l := FinishLabel(labels[k], options);
      labels := labels[k := l];
      VisitStep(before, grown, drafts, visited, options, k);
      inserted := labels.Keys - before.Keys;
    }

    /**
     Second pass: ranging over the labels while new ones are inserted. Go may or may
     not visit an inserted label; `visitNew` stands for its choice.
     */
    method FinishLabels(holes: set<string>, visitNew: string -> bool) returns (ok: bool)
      requires forall k :: k in labels ==> ToLower(k) == k
      requires holes <= labels.Keys
      modifies this`labels
      ensures ok <==> holes == {}
      ensures ok ==> FinishedZone(labels, old(labels), options)
    {
      ghost var drafts := labels;
      ghost var visited: set<string> := {};
      var todo := labels.Keys;
      forall k | k in labels ensures NameOk(drafts.Keys, k) && ValueOk(labels[k], k, drafts, visited, options) {
      }
      while todo != {}
        invariant InProgress(labels, drafts, visited, options)
        invariant Pending(labels.Keys, drafts.Keys, todo, visited) && holes !! visited
        decreases |Suffixes(drafts.Keys) - visited|
      {
        var k :| k in todo;
        if k in holes {
          return false;
        }
        LabelIsSuffix(labels, drafts, visited, options, k);
        ghost var before := labels.Keys;
        var inserted := VisitLabel(k, drafts, visited);
        var more := set x | x in inserted && visitNew(x);
        TodoStep(before, inserted, drafts.Keys, todo, visited, k, more);
        todo := (todo - {k}) + more;
        visited := visited + {k};
      }
      AllVisited(labels, drafts, visited, options);
      ok := true;
    }

    /** `setupZoneData`: `ok` is false where the code panics and the zone file is rejected. */
    method SetupZoneData(c: Config, visitNew: string -> bool, validSoa: bool) returns (ok: bool)
      requires labels == map[]
      modifies this`labels
      ensures ok <==> Loadable(c) && validSoa
      ensures ok ==> BuiltZone(labels, c, origin, options)
    {
      var holes;
      ok, holes := DraftLabels(c);
      if !ok {
        return;
      }
      ghost var drafts := labels;
      DraftedLower(drafts, holes, c, options);
      ok := FinishLabels(holes, visitNew);
      NoHoles(drafts, holes, c, options);
      if !ok {
        return;
      }
      ghost var finished := labels;
      ApexNs(finished, drafts, c, options);
      ok := AddSOA(validSoa);
      assert ok ==> BuiltBy(labels, drafts, finished, c, origin, options);
    }
  }

  lemma SourceSnoc(c: Config, e: (string, Decoded), k: string)
    ensures Source(c + [e], k) == if k == ToLower(e.0) then Some(e.1) else Source(c, k)
  {
    assert (c + [e])[..|c|] == c;
  }

  /** One more entry of the first pass. */
  lemma DraftZoneStep(labels: LabelMap, holes: set<string>, c: Config, i: nat, o: Options,
                      k: string, l: Label, hole: bool)
    requires i < |c| && k == ToLower(c[i].0) && DraftedZone(labels, holes, c[..i], o)
    requires Drafted(l, k, c[i].1, o) && (hole <==> HasHole(c[i].1))
    ensures DraftedZone(labels[k := l], if hole then holes + {k} else holes - {k}, c[..i + 1], o)
  {
    var before, after := c[..i], c[..i + 1];
    assert after == before + [c[i]];
    var labels', holes' := labels[k := l], if hole then holes + {k} else holes - {k};
    forall x ensures DraftedName(labels', holes', after, o, x) {
      SourceSnoc(before, c[i], x);
      assert DraftedName(labels, holes, before, o, x);
    }
  }

  lemma {:induction false} SourceLower(c: Config, k: string)
    requires Source(c, k).Some?
    ensures ToLower(k) == k
  {
    var n := |c| - 1;
    if ToLower(c[n].0) == k { LowerIdempotent(c[n].0); } else { SourceLower(c[..n], k); }
  }

  // ---------- when loading fails ----------

  lemma DraftedLower(drafts: LabelMap, holes: set<string>, c: Config, o: Options)
    requires DraftedZone(drafts, holes, c, o)
    ensures forall k :: k in drafts ==> ToLower(k) == k
    ensures holes <= drafts.Keys
  {
    forall k | k in drafts ensures ToLower(k) == k {
      assert DraftedName(drafts, holes, c, o, k);
      SourceLower(c, k);
    }
    forall k | k in holes ensures k in drafts.Keys {
      assert DraftedName(drafts, holes, c, o, k);
    }
  }

  lemma NoHoles(drafts: LabelMap, holes: set<string>, c: Config, o: Options)
    requires DraftedZone(drafts, holes, c, o)
    ensures holes == {} <==> forall k :: Whole(c, k)
  {
    if holes == {} {
      forall k ensures Whole(c, k) {
        assert DraftedName(drafts, holes, c, o, k);
      }
    } else {
      var k :| k in holes;
      assert DraftedName(drafts, holes, c, o, k);
      assert !Whole(c, k);
    }
  }

  lemma {:induction false} AllPresent(slots: seq<Option<Record>>)
    requires None !in slots
    ensures |Present(slots)| == |slots|
  {
    if slots != [] {
      var n := |slots| - 1;
      assert slots[n] in slots && forall x :: x in slots[..n] ==> x in slots;
      AllPresent(slots[..n]);
    }
  }

  /** Without nil records the apex lacks a first NS record exactly when its configured list is empty. */
  lemma ApexNs(finished: LabelMap, drafts: LabelMap, c: Config, o: Options)
    requires DraftedZone(drafts, {}, c, o) && FinishedZone(finished, drafts, o)
    ensures SoaPossible(finished, o) <==>
            (Source(c, "").Some? && TYPE_NS in Source(c, "").value.records
             ==> Source(c, "").value.records[TYPE_NS] != [])
  {
    assert DraftedName(drafts, {}, c, o, "") && FinishedName(finished, drafts, o, "");
    if "" in drafts {
      var d := Source(c, "").value;
      if TYPE_NS in d.records {
        assert !HoleAt(d, TYPE_NS);
        AllPresent(d.records[TYPE_NS]);
        FinishedWeight(drafts[""], "", d, o, TYPE_NS);
      }
    }
  }

  // ---------- the second pass ----------

  /** `labels` is `start` with some empty parents of `k` added. */
  ghost predicate Extends(labels: LabelMap, start: LabelMap, k: string, o: Options) {
    && (forall x :: x in start ==> x in labels)
    && (forall x :: x in labels ==>
          if x in start then labels[x] == start[x] else DotSuffix(x, k) && labels[x] == EmptyLabel(x, o))
  }

  /** All parents of `k` are there. */
  ghost predicate WithParents(labels: LabelMap, start: LabelMap, k: string, o: Options) {
    Extends(labels, start, k, o) && forall x :: DotSuffix(x, k) ==> x in labels
  }

  /** The tails of `k` from its second part up to number `i` are among the names. */
  ghost predicate TailsIn(names: set<string>, k: string, i: nat)
    requires i <= |Split(k)|
  {
    forall j :: 1 <= j < i ==> Tail(k, j) in names
  }

  lemma TailsStep(names: set<string>, k: string, i: nat)
    requires i < |Split(k)| && TailsIn(names, k, i)
    ensures TailsIn(names + {Tail(k, i)}, k, i + 1)
  {
  }

  lemma AllTailsAdded(labels: LabelMap, k: string)
    requires '.' in k ==> TailsIn(labels.Keys, k, |Split(k)|)
    ensures forall x :: DotSuffix(x, k) ==> x in labels
  {
    SplitSeveral(k);
    forall x | DotSuffix(x, k) ensures x in labels {
      TailIffSuffix(x, k);
      var i :| 1 <= i < |Split(k)| && Tail(k, i) == x;
      assert Tail(k, i) in labels;
    }
  }

  /** All suffixes of the given names: a bound for the names that can be inserted. */
  ghost function Suffixes(keys: set<string>): (s: set<string>) {
    set k, j | k in keys && 0 <= j <= |k| :: k[j..]
  }

  ghost predicate InProgress(labels: LabelMap, drafts: LabelMap, visited: set<string>, o: Options) {
    NamesOk(labels.Keys, drafts.Keys, visited) && ValuesOk(labels, drafts, visited, o)
  }

  /** Only parents of configured names have been added, and all parents of visited ones. */
  ghost predicate NamesOk(names: set<string>, drafts: set<string>, visited: set<string>) {
    && drafts <= names && visited <= names
    && (forall x :: x in names ==> NameOk(drafts, x))
    && (forall k :: k in visited ==> ParentsIn(names, k))
  }

  ghost predicate NameOk(drafts: set<string>, x: string) {
    InClosure(drafts, x) && ToLower(x) == x
  }

  ghost predicate ParentsIn(names: set<string>, k: string) {
    forall x :: DotSuffix(x, k) ==> x in names
  }

  ghost predicate ValuesOk(labels: LabelMap, drafts: LabelMap, visited: set<string>, o: Options) {
    forall k :: k in labels ==> ValueOk(labels[k], k, drafts, visited, o)
  }

  ghost predicate ValueOk(l: Label, k: string, drafts: LabelMap, visited: set<string>, o: Options) {
    l == if k !in drafts then EmptyLabel(k, o) else if k in visited then Finish(drafts[k], o) else drafts[k]
  }

  lemma ClosureSuffix(keys: set<string>, x: string)
    requires InClosure(keys, x)
    ensures x in Suffixes(keys)
  {
    if x in keys {
      assert x[0..] == x;
    } else {
      var k :| k in keys && DotSuffix(x, k);
      var j: nat :| SuffixAt(x, k, j);
      assert k[j + 1..] == x;
    }
  }

  lemma LabelIsSuffix(labels: LabelMap, drafts: LabelMap, visited: set<string>, o: Options, k: string)
    requires InProgress(labels, drafts, visited, o) && k in labels && k !in visited
    ensures k in Suffixes(drafts.Keys) - visited
    ensures |Suffixes(drafts.Keys) - (visited + {k})| < |Suffixes(drafts.Keys) - visited|
  {
    assert NameOk(drafts.Keys, k);
    ClosureSuffix(drafts.Keys, k);
    var a, b := Suffixes(drafts.Keys) - visited, Suffixes(drafts.Keys) - (visited + {k});
    assert b == a - {k};
  }

  lemma EmptyIsFinished(k: string, o: Options)
    ensures Finish(EmptyLabel(k, o), o) == EmptyLabel(k, o)
  {
    var l := EmptyLabel(k, o);
    assert RecordsBut(l, o, {}) == map[] && WeightsBut(l, {}) == map[];
  }

  lemma ParentInClosure(keys: set<string>, k: string, x: string)
    requires InClosure(keys, k) && DotSuffix(x, k)
    ensures InClosure(keys, x)
  {
    if k !in keys {
      var k0 :| k0 in keys && DotSuffix(k, k0);
      SuffixOfSuffix(x, k, k0);
    }
  }

  /** What is left to visit: labels not visited yet, among them all remaining configured ones. */
  ghost predicate Pending(labels: set<string>, drafts: set<string>, todo: set<string>, visited: set<string>) {
    todo + visited <= labels && todo !! visited && drafts <= todo + visited
  }

  lemma TodoStep(labels: set<string>, inserted: set<string>, drafts: set<string>, todo: set<string>,
                 visited: set<string>, k: string, more: set<string>)
    requires Pending(labels, drafts, todo, visited) && k in todo && more <= inserted && inserted !! labels
    ensures Pending(labels + inserted, drafts, (todo - {k}) + more, visited + {k})
  {
  }

  lemma NamesStep(before: LabelMap, grown: LabelMap, drafts: set<string>, visited: set<string>, o: Options, k: string)
    requires NamesOk(before.Keys, drafts, visited) && k in before && WithParents(grown, before, k, o)
    ensures NamesOk(grown.Keys, drafts, visited + {k})
  {
    assert NameOk(drafts, k);
    forall x | x in grown.Keys ensures NameOk(drafts, x) {
      if x !in before.Keys {
        ParentInClosure(drafts, k, x);
        LowerSuffix(x, k);
      }
    }
    forall k' | k' in visited ensures ParentsIn(grown.Keys, k') {
      assert ParentsIn(before.Keys, k');
    }
  }

  lemma ValuesStep(before: LabelMap, grown: LabelMap, drafts: LabelMap, visited: set<string>, o: Options, k: string)
    requires ValuesOk(before, drafts, visited, o) && drafts.Keys <= before.Keys && k in before && k !in visited
    requires Extends(grown, before, k, o)
    ensures ValuesOk(grown[k := Finish(grown[k], o)], drafts, visited + {k}, o)
  {
    EmptyIsFinished(k, o);
    var labels := grown[k := Finish(grown[k], o)];
    assert ValueOk(before[k], k, drafts, visited, o);
    forall x | x in labels ensures ValueOk(labels[x], x, drafts, visited + {k}, o) {
      if x in before { assert ValueOk(before[x], x, drafts, visited, o); }
    }
  }

  /** Visiting one label keeps the work in progress well-formed. */
  lemma VisitStep(before: LabelMap, grown: LabelMap, drafts: LabelMap, visited: set<string>, o: Options, k: string)
    requires InProgress(before, drafts, visited, o) && k in before && k !in visited
    requires WithParents(grown, before, k, o)
    ensures InProgress(grown[k := Finish(grown[k], o)], drafts, visited + {k}, o)
  {
    NamesStep(before, grown, drafts.Keys, visited, o, k);
    ValuesStep(before, grown, drafts, visited, o, k);
    assert grown[k := Finish(grown[k], o)].Keys == grown.Keys;
  }

  lemma AllVisited(labels: LabelMap, drafts: LabelMap, visited: set<string>, o: Options)
    requires InProgress(labels, drafts, visited, o) && drafts.Keys <= visited
    ensures FinishedZone(labels, drafts, o)
  {
    assert forall k :: k in drafts.Keys ==> ParentsIn(labels.Keys, k);
    forall x ensures FinishedName(labels, drafts, o, x) {
      if x in labels {
        assert ValueOk(labels[x], x, drafts, visited, o) && NameOk(drafts.Keys, x);
      }
    }
  }
}
