/** From the files in a directory to the answers: what the zones of a running manager guarantee. */
module EndToEnd {
  import opened Common
  import opened ZoneModel
  import opened P = Picker
  import opened PickerTheorems
  import opened AliasTermination
  import opened Z = Zones
  import opened ZoneData
  import opened ZoneTheorems
  import opened ZoneOrder
  import Decimal
  import opened HealthSetup
  import opened Locations
  import R = Reload
  import opened Mux
  import opened Serve
  import opened ServeTheorems

  /** A zone file that asks for nothing negative. */
  ghost predicate Sensible(name: string, served: R.Served<ZoneFile>) {
    var config := served.body.config;
    Supported(config) && NonNegativeConfig(config) && SensibleHosts(config, OptionsOf(name, served))
  }

  /** `c` takes the types of every label in some order. */
  ghost predicate ProperOrder(labels: LabelMap, c: Chance) {
    forall k :: k in labels ==> Enumerates(c.order(k), labels[k].records.Keys)
  }

  /** Setting up health tests keeps a zone servable. */
  lemma TestsKeepServable(labels: LabelMap, c: Chance)
    requires Servable(labels, c) && SoaDefined(labels)
    ensures Servable(WithTests(labels), c) && SoaDefined(WithTests(labels))
  {
    var m := WithTests(labels);
    forall k | k in m
      ensures Loaded(m[k]) && m[k].maxHosts >= 0 && Enumerates(c.order(k), m[k].records.Keys)
    {
      TestsKeepLoaded(labels[k]);
      assert m[k].records.Keys == labels[k].records.Keys;
    }
  }

  /** So does finding out where its servers are. */
  lemma LocationsKeepServable(labels: LabelMap, geo: Option<Geo>, c: Chance)
    requires Servable(labels, c) && SoaDefined(labels)
    ensures Servable(WithLocations(labels, geo), c) && SoaDefined(WithLocations(labels, geo))
  {
    if geo.Some? {
      var m := WithLocations(labels, geo);
      forall k | k in m
        ensures Loaded(m[k]) && m[k].maxHosts >= 0 && Enumerates(c.order(k), m[k].records.Keys)
      {
        LocationsKeepLoaded(labels[k], geo.value);
        assert m[k].records.Keys == labels[k].records.Keys;
      }
    }
  }

  lemma BuiltinIsServable(c: Chance)
    requires ProperOrder(BuiltinLabels(), c)
    ensures Servable(BuiltinLabels(), c) && SoaDefined(BuiltinLabels())
  {
    var apex := Label("", 0, 0, map[], map[], false, false);
    var soa := SoaRecord(apex, R.PGEODNS, OptionsOf(R.PGEODNS, BuiltinServed()));
    SoaKeepsLoaded(apex, soa);
    assert BuiltinLabels() == map["" := apex.(records := map[TYPE_SOA := [soa]])];
  }

  /** The built-in zone has one label, whose only record is an SOA. */
  lemma BuiltinWritten()
    ensures BuiltinLabels().Keys == {""} && BuiltinLabels()[""].records.Keys == {6}
    ensures BuiltinLabels()[""].records[6] ==
            var text := "ns" + (" " + ("hostmaster." + "pgeodns") + " " + "0" + " 5400 5400 1209600 3600");
            [Record(RR("pgeodns" + ".", 6, 1200, text), 0, None, "")]
  {
    assert Decimal.Itoa(0) == "0";
  }

  // ---------- the options of the file ----------

  /** A label keeps its own max_hosts and "closest"; without them it has the file's, or 2 and false. */
  lemma FileOptionsApply(geo: Option<Geo>, labels: LabelMap, name: string, served: R.Served<ZoneFile>, k: string)
    requires Built(geo, labels, name, served) && k in labels
    ensures var b, d := served.body, Source(served.body.config, k);
            && labels[k].maxHosts == (if d.Some? && d.value.maxHosts.Some? then d.value.maxHosts.value
                                      else if b.maxHosts.Some? then b.maxHosts.value else 2)
            && labels[k].closest == (if d.Some? && d.value.closest.Some? then d.value.closest.value
                                     else b.closest == Some(true))
  {
    var o := OptionsOf(name, served);
    var built: LabelMap :|
      BuiltZone(built, served.body.config, name, o) && labels == WithTests(WithLocations(built, geo));
    BuiltOptions(built, served.body.config, name, o, k);
    assert WithLocations(built, geo)[k].(records := built[k].records) == built[k];
  }

  lemma BuiltOptions(labels: LabelMap, c: Config, origin: string, o: Options, k: string)
    requires BuiltZone(labels, c, origin, o) && k in labels
    ensures var d := Source(c, k);
            && labels[k].maxHosts == (if d.Some? then Or(d.value.maxHosts, o.maxHosts) else o.maxHosts)
            && labels[k].closest == (if d.Some? then Or(d.value.closest, o.closest) else o.closest)
  {
    var l0 := ZoneContents(labels, c, origin, o, k);
  }

  /** Records without a TTL of their own or their label's have the file's, or 120; see `LoadedAs`. */
  lemma FileTtlApplies(geo: Option<Geo>, labels: LabelMap, name: string, served: R.Served<ZoneFile>, k: string,
                       t: RRType) returns (raw: seq<Record>)
    requires Built(geo, labels, name, served) && k in labels && (k == "" ==> t != 6)
    requires Source(served.body.config, k).Some? && t in Source(served.body.config, k).value.records
    ensures var d, total := Source(served.body.config, k).value,
                            Total(Present(Source(served.body.config, k).value.records[t]));
            var ttl := if served.body.ttl.Some? then served.body.ttl.value else 120;
            && multiset(raw) == multiset(Present(d.records[t]))
            && t in labels[k].records && |labels[k].records[t]| == |raw|
            && forall i :: 0 <= i < |raw| ==>
                 LoadedAs(labels[k].records[t][i].(loc := raw[i].loc, test := raw[i].test), raw[i],
                          t, total, d.ttl, ttl)
  {
    var o := OptionsOf(name, served);
    var built: LabelMap :|
      BuiltZone(built, served.body.config, name, o) && labels == WithTests(WithLocations(built, geo));
    raw := RecordsLoaded(built, served.body.config, name, o, k, t);
    SameRecordsButPlaceAndTest(built, geo, k, t);
  }

  lemma SameRecordsButPlaceAndTest(labels: LabelMap, geo: Option<Geo>, k: string, t: RRType)
    requires k in labels && t in labels[k].records
    ensures var m, rs := WithTests(WithLocations(labels, geo)), labels[k].records[t];
            && k in m && t in m[k].records && |m[k].records[t]| == |rs|
            && forall i :: 0 <= i < |rs| ==> m[k].records[t][i].(loc := rs[i].loc, test := rs[i].test) == rs[i]
  {
    var located := WithLocations(labels, geo);
    assert |located[k].records[t]| == |labels[k].records[t]|;
    assert forall i :: 0 <= i < |labels[k].records[t]| ==>
        located[k].records[t][i].(loc := labels[k].records[t][i].loc) == labels[k].records[t][i];
  }

  /** The SOA of a zone carries the contact, the serial number and the TTL of its file. */
  lemma FileSoa(geo: Option<Geo>, labels: LabelMap, name: string, served: R.Served<ZoneFile>)
    requires Built(geo, labels, name, served) && PlainNs(served.body.config)
    ensures var b, d := served.body, Source(served.body.config, "");
            var ns := if d.None? || 2 !in d.value.records || Present(d.value.records[2]) == [] then "ns"
                      else Present(d.value.records[2])[0].rr.data;
            var contact := if b.contact.Some? then b.contact.value else "hostmaster." + name;
            var zoneTtl := if b.ttl.Some? then b.ttl.value else 120;
            var ttl := if zoneTtl > 360 then 3600 else if zoneTtl == 0 then 600 else zoneTtl * 10 % 4294967296;
            var text := ns + (" " + contact + " " + Decimal.Itoa(served.serial) + " 5400 5400 1209600 3600");
            && "" in labels && 6 in labels[""].records && |labels[""].records[6]| == 1
            && labels[""].records[6][0].rr == RR(name + ".", 6, ttl, text)
  {
    var o := OptionsOf(name, served);
    var built: LabelMap :|
      BuiltZone(built, served.body.config, name, o) && labels == WithTests(WithLocations(built, geo));
    SoaWritten(built, served.body.config, name, o);
    SoaKept(built, geo);
  }

  /** Neither places nor tests change an SOA. */
  lemma SoaKept(labels: LabelMap, geo: Option<Geo>)
    requires "" in labels && 6 in labels[""].records && |labels[""].records[6]| == 1
    requires labels[""].records[6][0].rr.rtype == 6
    ensures var m := WithTests(WithLocations(labels, geo));
            "" in m && 6 in m[""].records && m[""].records[6] == labels[""].records[6]
  {
    var l := WithLocations(labels, geo)[""];
    assert l.records[6] == labels[""].records[6];
    assert LabelWithTests(l).records[6] == l.records[6];
  }

  /** Every zone a manager lists is servable, if its file asks for nothing negative. */
  lemma ListedZoneIsServable(mm: MuxManager, n: string, c: Chance)
    requires mm.Valid() && n in mm.zonelist && Sensible(n, mm.zonelist[n].served)
    requires ProperOrder(mm.zonelist[n].labels, c)
    ensures Servable(mm.zonelist[n].labels, c) && SoaDefined(mm.zonelist[n].labels)
  {
    var labels, served := mm.zonelist[n].labels, mm.zonelist[n].served;
    assert ListedOk(mm.lib.geo, mm.zonelist, n);
    if Built(mm.lib.geo, labels, n, served) {
      var o, geo := OptionsOf(n, served), mm.lib.geo;
      var built: LabelMap :|
        BuiltZone(built, served.body.config, n, o) && labels == WithTests(WithLocations(built, geo));
      SameOrder(built, geo, c);
      BuiltZoneIsServable(built, served.body.config, o, n, c);
      LocationsKeepServable(built, geo, c);
      TestsKeepServable(WithLocations(built, geo), c);
    } else {
      BuiltinIsServable(c);
    }
  }

  lemma SameOrder(labels: LabelMap, geo: Option<Geo>, c: Chance)
    requires ProperOrder(WithTests(WithLocations(labels, geo)), c)
    ensures ProperOrder(labels, c)
  {
    var located := WithLocations(labels, geo);
    forall k | k in labels ensures Enumerates(c.order(k), labels[k].records.Keys) {
      assert WithTests(located)[k].records.Keys == located[k].records.Keys == labels[k].records.Keys;
    }
  }

  /** So every query but ANY to a listed zone gets a reply, if its aliases are fine. */
  lemma ListedZoneAnswers(mm: MuxManager, n: string, r: Request, c: Chance, depth: nat)
    requires mm.Valid() && n in mm.zonelist && Sensible(n, mm.zonelist[n].served)
    requires ProperOrder(mm.zonelist[n].labels, c)
    requires var q := QueryOf(mm.zonelist[n].labels, r);
             Fine(q, r.qlabel) && depth > |AliasTargets(q)|
    ensures SoaDefined(mm.zonelist[n].labels)
    ensures Answered(mm.zonelist[n].labels, n, r, c, depth) <==>
            !exists p :: NamelessFirst(QueryOf(mm.zonelist[n].labels, r), r.qlabel, c.healthy, p)
    ensures r.qtype != TYPE_ANY ==> Answered(mm.zonelist[n].labels, n, r, c, depth)
  {
    ListedZoneIsServable(mm, n, c);
    AnsweredIff(mm.zonelist[n].labels, n, r, c, depth);
  }

  /** The file that should be served for `n` after the snapshots `dirs`, if the last one has it. */
  ghost function CurrentFile(lib: Library, dirs: seq<Option<seq<R.File>>>, n: string): (f: Option<R.File>) {
    if dirs == [] || dirs[|dirs| - 1].None? then None
    else R.LastGood(SpecEnv(lib), n, R.SightsIn(dirs[|dirs| - 1].value, n))
  }

  /** `n` is listed, with the configuration of the file `f` and the labels built from it. */
  ghost predicate ListsFile(mm: MuxManager, n: string, f: R.File)
    reads mm
  {
    && n in mm.zonelist && f.content.Some? && mm.lib.decode(f.content.value).Some?
    && mm.zonelist[n].served.body == mm.lib.decode(f.content.value).value.body
    && Built(mm.lib.geo, mm.zonelist[n].labels, n, mm.zonelist[n].served)
  }

  /**
   A manager that has seen any history of snapshots lists a zone for every name whose file
   parses in the last one and is newer than every earlier one of other content, and its
   labels are those loading builds from that very file.
   */
  lemma CurrentFileIsBuilt(mm: MuxManager, dirs: seq<Option<seq<R.File>>>, n: string)
    requires mm.Valid() && mm.ViewOf() == R.ReloadAll(SpecEnv(mm.lib), BuiltinView(), dirs) && n != R.PGEODNS
    requires R.GoodHash(SpecEnv(mm.lib)) && R.MtimesTell(SpecEnv(mm.lib), n, R.Sightings(dirs, n))
    requires CurrentFile(mm.lib, dirs, n).Some?
    ensures ListsFile(mm, n, CurrentFile(mm.lib, dirs, n).value)
  {
    R.CurrentFilesAreServed(SpecEnv(mm.lib), BuiltinView(), dirs, n);
    assert mm.ViewOf().zones == ServedMap(mm.zonelist);
    assert ListedOk(mm.lib.geo, mm.zonelist, n);
  }

  /**
   The life of a manager: it is made over a first snapshot and reloads over the others.
   In the end it lists, for every name, the zone of the file that should be served.
   */
  method Watch(lib: Library, first: Option<seq<R.File>>, rest: seq<Option<seq<R.File>>>) returns (mm: MuxManager)
    ensures mm.Valid() && mm.lib == lib
    ensures mm.ViewOf() == R.ReloadAll(SpecEnv(lib), BuiltinView(), [first] + rest)
    ensures R.GoodHash(SpecEnv(lib)) ==>
              forall n :: n != R.PGEODNS && CurrentFile(lib, [first] + rest, n).Some?
                          && R.MtimesTell(SpecEnv(lib), n, R.Sightings([first] + rest, n))
                          ==> ListsFile(mm, n, CurrentFile(lib, [first] + rest, n).value)
  {
    var reg := new Registry();
    mm := new MuxManager(lib, reg, first);
    mm.Run(rest);
    ghost var dirs := [first] + rest;
    assert [first][..0] == [];
    R.ReloadConcat(SpecEnv(lib), BuiltinView(), [first], rest);
    if R.GoodHash(SpecEnv(lib)) {
      forall n | && n != R.PGEODNS && CurrentFile(lib, dirs, n).Some?
                 && R.MtimesTell(SpecEnv(lib), n, R.Sightings(dirs, n))
        ensures ListsFile(mm, n, CurrentFile(lib, dirs, n).value)
      {
        CurrentFileIsBuilt(mm, dirs, n);
      }
    }
  }
}
