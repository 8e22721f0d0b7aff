/** `MuxManager`: the zone list, the read records and the registered handlers. */
module Mux {
  import opened Common
  import opened ZoneModel
  import opened ZoneData
  import opened Zones
  import opened Reload
  import opened HealthSetup
  import opened Locations
  import Stats = LabelStats

  const STATS_SIZE: nat := 10000

  /** A zone file as decoded, apart from the serial number; `validSoa` is as in `AddSOA`. */
  datatype ZoneFile = ZoneFile(
    config: Config,
    ttl: Option<int>,
    maxHosts: Option<int>,
    contact: Option<string>,
    closest: Option<bool>,
    validSoa: bool)

  /**
   What the program does not determine: JSON decoding, hashing, the order of map visits and
   the geo provider, if one is configured.
   */
  datatype Library = Library(
    decode: string -> Option<Parsed<ZoneFile>>,
    sha: string -> string,
    visitNew: string -> bool,
    geo: Option<Geo>)

  /** The options of a zone: the defaults of `NewZone` where the file has none. */
  function OptionsOf(name: string, served: Served<ZoneFile>): (o: Options) {
    var b := served.body;
    Options(Or(b.ttl, 120), Or(b.maxHosts, 2), Or(b.contact, "hostmaster." + name), served.serial, Or(b.closest, false))
  }

  /** A file parses if it can be decoded and its zone can be built. */
  ghost function SpecParse(lib: Library, content: string): (p: Option<Parsed<ZoneFile>>) {
    var d := lib.decode(content);
    if d.Some? && Loadable(d.value.body.config) && d.value.body.validSoa then d else None
  }

  ghost function SpecEnv(lib: Library): (env: Env<ZoneFile>) {
    Env((name, content) => SpecParse(lib, content), lib.sha)
  }

  /** The labels are those that loading builds, with server locations and health tests set. */
  ghost predicate Built(geo: Option<Geo>, labels: LabelMap, name: string, served: Served<ZoneFile>) {
    exists l :: && BuiltZone(l, served.body.config, name, OptionsOf(name, served))
                && labels == WithTests(WithLocations(l, geo))
  }

  function BuiltinServed(): (z: Served<ZoneFile>) {
    Served(ZoneFile([], None, None, None, None, true), 0)
  }

  /** The labels of the built-in zone: an apex with an SOA record. */
  function BuiltinLabels(): (labels: LabelMap) {
    WithSoa(map["" := Label("", 0, 0, map[], map[], false, false)], PGEODNS, OptionsOf(PGEODNS, BuiltinServed()))
  }

  /** A manager that has read nothing yet. */
  function BuiltinView(): (v: View<ZoneFile>)
    ensures Initial(v)
  {
    View(map[PGEODNS := BuiltinServed()], map[])
  }

  ghost predicate ZoneOk(geo: Option<Geo>, name: string, labels: LabelMap, served: Served<ZoneFile>) {
    Built(geo, labels, name, served) || (name == PGEODNS && labels == BuiltinLabels())
  }

  /** The two statistics objects of a zone. */
  datatype Metrics = Metrics(labels: Stats.ZoneLabelStats, clients: Stats.ZoneLabelStats)

  /** A zone once it is installed: its contents no longer change, only its statistics do. */
  class LiveZone {
    const served: Served<ZoneFile>
    const labels: LabelMap
    const metrics: Metrics

    constructor (served: Served<ZoneFile>, labels: LabelMap, metrics: Metrics)
      ensures this.served == served && this.labels == labels && this.metrics == metrics
    {
      this.served, this.labels, this.metrics := served, labels, metrics;
    }

    /** `Zone.Close`. */
    method Close()
      modifies metrics.labels, metrics.clients
      ensures Closed(metrics)
    {
      metrics.labels.Close();
      metrics.clients.Close();
    }
  }

  type ZoneList = map<string, LiveZone>

  /** Statistics that take new entries, of the size the server uses. */
  ghost predicate Sized(m: Metrics)
    reads m.labels, m.labels.log, m.clients, m.clients.log
  {
    && m.labels.Open() && m.labels.log.Length == 10000
    && m.clients.Open() && m.clients.log.Length == 10000
  }

  ghost predicate Closed(m: Metrics)
    reads m.labels, m.clients
  {
    m.labels.log.Length == 0 && m.clients.log.Length == 0
  }

  ghost predicate Apart(a: Metrics, b: Metrics) {
    a.labels != b.labels && a.labels != b.clients && a.clients != b.labels && a.clients != b.clients
  }

  /** No statistics object is used twice. */
  ghost predicate Unshared(zs: ZoneList) {
    && (forall n :: n in zs ==> zs[n].metrics.labels != zs[n].metrics.clients)
    && (forall n, k :: n in zs && k in zs && n != k ==> Apart(zs[n].metrics, zs[k].metrics))
  }

  ghost function LogsOf(zs: ZoneList): (s: set<array<string>>)
    reads StatsOf(zs)
  {
    set x | x in StatsOf(zs) :: x.log
  }

  ghost predicate AllSized(zs: ZoneList)
    reads StatsOf(zs), LogsOf(zs)
  {
    forall n :: SizedAt(zs, n)
  }

  ghost predicate SizedAt(zs: ZoneList, n: string)
    reads StatsOf(zs), LogsOf(zs)
  {
    n in zs ==> Sized(zs[n].metrics)
  }

  lemma SizedAdd(zs: ZoneList, name: string, z: LiveZone)
    requires AllSized(zs) && Sized(z.metrics)
    ensures AllSized(zs[name := z])
  {
    var zs' := zs[name := z];
    forall n ensures SizedAt(zs', n) {
      assert SizedAt(zs, n);
    }
  }

  ghost predicate Unlisted(zs: ZoneList, m: Metrics) {
    m.labels !in StatsOf(zs) && m.clients !in StatsOf(zs)
  }

  /** Closed statistics belong to no listed zone. */
  lemma ClosedIsUnlisted(zs: ZoneList, m: Metrics)
    requires AllSized(zs) && Closed(m)
    ensures Unlisted(zs, m)
  {
    forall n | n in zs ensures Apart(zs[n].metrics, m) {
      assert SizedAt(zs, n);
    }
  }

  /** Statistics that nothing has touched are still in order. */
  twostate lemma StillSized(zs: ZoneList)
    requires old(AllSized(zs))
    requires forall x :: x in StatsOf(zs) ==> unchanged(x) && unchanged(x.log)
    ensures AllSized(zs)
  {
    forall n ensures SizedAt(zs, n) {
      assert old(SizedAt(zs, n));
    }
  }

  twostate lemma StillOpen(m: Metrics)
    requires old(Sized(m)) && unchanged(m.labels) && unchanged(m.clients)
    requires unchanged(m.labels.log) && unchanged(m.clients.log)
    ensures Sized(m)
  {
  }

  lemma SizedRemove(zs: ZoneList, names: set<string>)
    requires forall n :: n in zs && n !in names ==> Sized(zs[n].metrics)
    ensures AllSized(zs - names)
  {
  }

  ghost function StatsOf(zs: ZoneList): (s: set<Stats.ZoneLabelStats>) {
    (set n | n in zs :: zs[n].metrics.labels) + (set n | n in zs :: zs[n].metrics.clients)
  }

  ghost function ServedMap(zs: ZoneList): (m: map<string, Served<ZoneFile>>) {
    map n | n in zs :: zs[n].served
  }

  lemma BuiltIsOk(geo: Option<Geo>, name: string, labels: LabelMap, served: Served<ZoneFile>)
    requires BuiltZone(labels, served.body.config, name, OptionsOf(name, served))
    ensures Built(geo, WithTests(WithLocations(labels, geo)), name, served)
  {
  }

  ghost predicate ListedOk(geo: Option<Geo>, zs: ZoneList, n: string) {
    n in zs ==> ZoneOk(geo, n, zs[n].labels, zs[n].served)
  }

  ghost predicate AllOk(geo: Option<Geo>, zs: ZoneList) {
    forall n :: ListedOk(geo, zs, n)
  }

  lemma OkAdd(geo: Option<Geo>, zs: ZoneList, name: string, z: LiveZone)
    requires AllOk(geo, zs) && ZoneOk(geo, name, z.labels, z.served)
    ensures AllOk(geo, zs[name := z])
  {
    var zs' := zs[name := z];
    forall n ensures ListedOk(geo, zs', n) {
      assert ListedOk(geo, zs, n);
    }
  }

  lemma OkRemove(geo: Option<Geo>, zs: ZoneList, names: set<string>)
    requires AllOk(geo, zs)
    ensures AllOk(geo, zs - names)
  {
    forall n ensures ListedOk(geo, zs - names, n) {
      assert ListedOk(geo, zs, n);
    }
  }

  /** A name in both lists has the same statistics objects in both. */
  ghost predicate Kept(before: ZoneList, after: ZoneList) {
    forall n :: n in before && n in after ==> after[n].metrics == before[n].metrics
  }

  /** The metrics `z` may have when it is listed under `name`: its predecessor's, or unused ones. */
  ghost predicate Fits(zs: ZoneList, name: string, z: LiveZone) {
    && z.metrics.labels != z.metrics.clients
    && if name in zs then z.metrics == zs[name].metrics
       else forall n :: n in zs ==> Apart(zs[n].metrics, z.metrics)
  }

  lemma UnsharedAdd(zs: ZoneList, name: string, z: LiveZone)
    requires Unshared(zs) && Fits(zs, name, z)
    ensures Unshared(zs[name := z]) && Kept(zs, zs[name := z])
  {
  }

  lemma ListAdd(zs: ZoneList, name: string, z: LiveZone)
    requires Fits(zs, name, z)
    ensures ServedMap(zs[name := z]) == ServedMap(zs)[name := z.served]
    ensures StatsOf(zs[name := z]) <= StatsOf(zs) + {z.metrics.labels, z.metrics.clients}
    ensures name in zs ==> StatsOf(zs[name := z]) <= StatsOf(zs)
  {
  }

  lemma ListRemove(zs: ZoneList, names: set<string>)
    ensures ServedMap(zs - names) == ServedMap(zs) - names
  {
  }

  lemma UnsharedRemove(zs: ZoneList, names: set<string>)
    requires Unshared(zs)
    ensures Unshared(zs - names) && Kept(zs, zs - names)
  {
  }

  /** `SetupMetrics`: take over the predecessor's statistics, or start new ones. */
  method SetupMetrics(predecessor: LiveZone?) returns (m: Metrics)
    requires predecessor != null ==> Sized(predecessor.metrics)
    ensures Sized(m)
    ensures predecessor != null ==> m == predecessor.metrics
    ensures predecessor == null ==> fresh(m.labels) && fresh(m.clients) && m.labels != m.clients
  {
    if predecessor != null {
      return predecessor.metrics;
    }
    var labels := new Stats.ZoneLabelStats(STATS_SIZE);
    var clients := new Stats.ZoneLabelStats(STATS_SIZE);
    m := Metrics(labels, clients);
  }

  /** `ReadZoneFile`: nothing where the file cannot be opened, decoded or built. */
  method ReadZoneFile(lib: Library, zoneName: string, f: File) returns (r: Option<(Served<ZoneFile>, LabelMap)>)
    ensures r.Some? <==> ParseOf(SpecEnv(lib), zoneName, f).Some?
    ensures r.Some? ==> r.value.0 == Load(ParseOf(SpecEnv(lib), zoneName, f).value, f.mtime)
    ensures r.Some? ==> Built(lib.geo, WithTests(r.value.1), zoneName, r.value.0)
  {
    if f.content.None? {
      return None;
    }
    var d := lib.decode(f.content.value);
    if d.None? {
      return None;
    }
    var serial := f.mtime;
    if d.value.serial.Some? {
      serial := d.value.serial.value;
    }
    var served := Served(d.value.body, serial);
    var zone := new Zone(zoneName);
    zone.options := OptionsOf(zoneName, served);
    var ok := zone.SetupZoneData(d.value.body.config, lib.visitNew, d.value.body.validSoa);
    if !ok {
      return None;
    }
    BuiltIsOk(lib.geo, zoneName, zone.labels, served);
    var labels := SetLocations(zone.labels, lib.geo);
    r := Some((served, labels));
  }

  /** The server's handlers, behind the registration interface. */
  class Registry {
    var handlers: ZoneList

    constructor ()
      ensures handlers == map[]
    {
      handlers := map[];
    }

    method Add(name: string, z: LiveZone)
      modifies this
      ensures handlers == old(handlers)[name := z]
    {
      handlers := handlers[name := z];
    }

    method Remove(name: string)
      modifies this
      ensures handlers == old(handlers) - {name}
    {
      handlers := handlers - {name};
    }
  }

  class MuxManager {
    const lib: Library
    const reg: Registry
    var zonelist: ZoneList
    var lastRead: map<string, ReadRecord>

    /** The handlers are the listed zones; each has open statistics of its own. */
    ghost predicate Valid()
      reads this`zonelist, reg, StatsOf(zonelist), LogsOf(zonelist)
    {
      reg.handlers == zonelist && Unshared(zonelist) && AllSized(zonelist) && AllOk(lib.geo, zonelist)
    }

    ghost function ViewOf(): (v: View<ZoneFile>)
      reads this
    {
      View(ServedMap(zonelist), lastRead)
    }

    /** `NewMuxManager`: the built-in zone, then a first reload. */
    constructor (lib: Library, reg: Registry, dir: Option<seq<File>>)
      requires reg.handlers == map[]
      modifies reg
      ensures Valid() && this.lib == lib && this.reg == reg
      ensures ViewOf() == ReloadView(SpecEnv(lib), BuiltinView(), dir)
      ensures forall x :: x in StatsOf(zonelist) ==> fresh(x)
    {
      this.lib, this.reg := lib, reg;
      zonelist, lastRead := map[], map[];
      new;
      SetupPgeodnsZone();
      ReloadZones(dir);
    }

    method SetupPgeodnsZone()
      requires Valid() && zonelist == map[] && lastRead == map[]
      modifies this`zonelist, reg
      ensures Valid() && ViewOf() == BuiltinView()
      ensures forall x :: x in StatsOf(zonelist) ==> fresh(x)
    {
      var z := new Zone(PGEODNS);
      z.labels := z.labels["" := Label("", 0, 0, map[], map[], false, false)];
      var ok := z.AddSOA(true);
      assert z.labels == BuiltinLabels();
      assert z.labels[""].tested == false && z.labels.Keys == {""};
      assert WithTests(z.labels) == z.labels;
      AddHandler(PGEODNS, BuiltinServed(), z.labels);
    }

    /** Lists and registers a zone whose statistics are ready. */
    method Install(name: string, z: LiveZone)
      requires Valid() && Fits(zonelist, name, z) && Sized(z.metrics) && ZoneOk(lib.geo, name, z.labels, z.served)
      modifies this`zonelist, reg
      ensures Valid() && zonelist == old(zonelist)[name := z]
    {
      UnsharedAdd(zonelist, name, z);
      OkAdd(lib.geo, zonelist, name, z);
      ghost var before := zonelist;
      zonelist := zonelist[name := z];
      reg.Add(name, z);
      StillSized(before);
      StillOpen(z.metrics);
      SizedAdd(before, name, z);
    }

    /** A zone with its tests and statistics set up, ready to be listed. */
    method MakeZone(name: string, served: Served<ZoneFile>, labels: LabelMap) returns (z: LiveZone)
      requires Valid()
      ensures Valid() && Fits(zonelist, name, z) && Sized(z.metrics)
      ensures z.served == served && z.labels == WithTests(labels)
      ensures name !in zonelist ==> fresh(z.metrics.labels) && fresh(z.metrics.clients)
    {
      assert SizedAt(zonelist, name);
      var withTests := SetupHealthTests(labels);
      var m := SetupMetrics(if name in zonelist then zonelist[name] else null);
      z := new LiveZone(served, withTests, m);
      StillSized(zonelist);
    }

    /** Installs a zone, which inherits the statistics of the one it replaces. */
    method AddHandler(name: string, served: Served<ZoneFile>, labels: LabelMap)
      requires Valid() && ZoneOk(lib.geo, name, WithTests(labels), served)
      modifies this`zonelist, reg
      ensures Valid() && Kept(old(zonelist), zonelist) && old(zonelist).Keys <= zonelist.Keys
      ensures forall x :: x in StatsOf(zonelist) ==> x in StatsOf(old(zonelist)) || fresh(x)
      ensures ServedMap(zonelist) == ServedMap(old(zonelist))[name := served]
    {
      var z := MakeZone(name, served, labels);
      ListAdd(zonelist, name, z);
      UnsharedAdd(zonelist, name, z);
      Install(name, z);
    }

    method RemoveHandler(name: string)
      requires reg.handlers == zonelist && Unshared(zonelist) && AllOk(lib.geo, zonelist)
      modifies this, reg
      ensures reg.handlers == zonelist && Unshared(zonelist) && AllOk(lib.geo, zonelist)
      ensures zonelist == old(zonelist) - {name} && lastRead == old(lastRead) - {name}
    {
      UnsharedRemove(zonelist, {name});
      OkRemove(lib.geo, zonelist, {name});
      lastRead := lastRead - {name};
      zonelist := zonelist - {name};
      reg.Remove(name);
    }

    /** A file with another hash than the one on record: a zone that cannot be loaded changes nothing. */
    method LoadZone(zoneName: string, f: File, sha256: string)
      requires Valid()
      modifies this, reg
      ensures Valid() && Kept(old(zonelist), zonelist) && old(zonelist).Keys <= zonelist.Keys
      ensures forall x :: x in StatsOf(zonelist) ==> x in StatsOf(old(zonelist)) || fresh(x)
      ensures var p := ParseOf(SpecEnv(lib), zoneName, f);
              if p.None? then zonelist == old(zonelist) && lastRead == old(lastRead)
              else && ServedMap(zonelist) == ServedMap(old(zonelist))[zoneName := Load(p.value, f.mtime)]
                   && lastRead == old(lastRead)[zoneName := ReadRecord(f.mtime, sha256)]
    {
      var z := ReadZoneFile(lib, zoneName, f);
      StillSized(zonelist);
      if z.None? {
        return;
      }
      lastRead := lastRead[zoneName := ReadRecord(f.mtime, sha256)];
      StillSized(zonelist);
      AddHandler(zoneName, z.value.0, z.value.1);
    }

    /** A file that is new or newer than its read record. */
    method ReadNewer(zoneName: string, f: File)
      requires Valid()
      modifies this, reg
      ensures Valid() && Kept(old(zonelist), zonelist) && old(zonelist).Keys <= zonelist.Keys
      ensures forall x :: x in StatsOf(zonelist) ==> x in StatsOf(old(zonelist)) || fresh(x)
      ensures var hash := if zoneName in old(lastRead) then old(lastRead)[zoneName].hash else "";
              var p := ParseOf(SpecEnv(lib), zoneName, f);
              if hash == HashOf(SpecEnv(lib), f) || p.None? then
                ViewOf() == old(ViewOf()).(lastRead := old(lastRead)[zoneName := ReadRecord(f.mtime, hash)])
              else
                ViewOf() == View(old(ServedMap(zonelist))[zoneName := Load(p.value, f.mtime)],
                                 old(lastRead)[zoneName := ReadRecord(f.mtime, HashOf(SpecEnv(lib), f))])
    {
      var hash := if zoneName in lastRead then lastRead[zoneName].hash else "";
      lastRead := lastRead[zoneName := ReadRecord(f.mtime, hash)];
      StillSized(zonelist);
      var sha256 := if f.content.Some? then lib.sha(f.content.value) else "";
      if hash == sha256 {
        return;
      }
      LoadZone(zoneName, f, sha256);
    }

    /** One directory entry of the reload loop. */
    method ReadEntry(f: File)
      requires Valid()
      modifies this, reg
      ensures Valid() && Kept(old(zonelist), zonelist) && old(zonelist).Keys <= zonelist.Keys
      ensures forall x :: x in StatsOf(zonelist) ==> x in StatsOf(old(zonelist)) || fresh(x)
      ensures ViewOf() == ReadFile(SpecEnv(lib), old(ViewOf()), f)
    {
      if IsZoneFile(f) {
        var zoneName := ZoneName(f);
        if zoneName !in lastRead || f.mtime > lastRead[zoneName].time {
          ReadNewer(zoneName, f);
        }
      }
    }

    /** Reads all entries of a directory; `seen` are the zones they stand for. */
    method ReadEntries(files: seq<File>) returns (seen: set<string>)
      requires Valid()
      modifies this, reg
      ensures Valid() && Kept(old(zonelist), zonelist) && old(zonelist).Keys <= zonelist.Keys
      ensures forall x :: x in StatsOf(zonelist) ==> x in StatsOf(old(zonelist)) || fresh(x)
      ensures seen == Seen(files) && ViewOf() == ReadFiles(SpecEnv(lib), old(ViewOf()), files)
    {
      seen := {};
      ghost var v := ViewOf();
      for i := 0 to |files|
        invariant Valid() && Kept(old(zonelist), zonelist) && old(zonelist).Keys <= zonelist.Keys
        invariant forall x :: x in StatsOf(zonelist) ==> x in StatsOf(old(zonelist)) || fresh(x)
        invariant seen == Seen(files[..i]) && ViewOf() == ReadFiles(SpecEnv(lib), v, files[..i])
      {
        SeenStep(files, i);
        if IsZoneFile(files[i]) {
          seen := seen + {ZoneName(files[i])};
        }
        ReadEntry(files[i]);
      }
      assert files[..|files|] == files;
    }

    /** Closes one zone and removes it; the statistics of the others are not touched. */
    method DropZone(name: string)
      requires Valid() && name in zonelist
      modifies this, reg, zonelist[name].metrics.labels, zonelist[name].metrics.clients
      ensures Valid() && zonelist == old(zonelist) - {name} && lastRead == old(lastRead) - {name}
      ensures Closed(old(zonelist)[name].metrics)
    {
      ghost var others := zonelist - {name};
      forall n | n in others ensures Sized(others[n].metrics) {
        assert SizedAt(zonelist, n) && Apart(zonelist[n].metrics, zonelist[name].metrics);
      }
      zonelist[name].Close();
      RemoveHandler(name);
      SizedRemove(others, {});
    }

    /** The zones in `removed` have been closed and taken off the list `start`. */
    ghost predicate Dropped(start: ZoneList, read: map<string, ReadRecord>, removed: set<string>)
      reads this, reg, StatsOf(zonelist), LogsOf(zonelist), StatsOf(start)
    {
      && Valid() && Unshared(start) && removed <= start.Keys
      && zonelist == start - removed && lastRead == read - removed
      && forall n :: n in removed ==> Closed(start[n].metrics)
    }

    /** The same for one more zone. */
    method DropAnother(name: string, ghost start: ZoneList, ghost read: map<string, ReadRecord>,
                       ghost removed: set<string>)
      requires Dropped(start, read, removed) && name in start && name !in removed
      modifies this, reg, start[name].metrics.labels, start[name].metrics.clients
      ensures Dropped(start, read, removed + {name})
    {
      DropZone(name);
      forall n | n in removed ensures Closed(start[n].metrics) {
        assert old(Closed(start[n].metrics));
        assert Apart(start[n].metrics, start[name].metrics);
      }
      MinusOne(start, removed, name);
      MinusOne(read, removed, name);
    }

    /** Closes and removes the zones whose files are gone. */
    method RemoveUnseen(seen: set<string>)
      requires Valid()
      modifies this, reg, StatsOf(zonelist)
      ensures Valid() && ViewOf() == Prune(old(ViewOf()), seen)
      ensures zonelist == old(zonelist) - Gone(old(ViewOf()), seen)
      ensures forall n :: n in old(zonelist) && n !in zonelist ==> Closed(old(zonelist)[n].metrics)
    {
      ghost var start, read := zonelist, lastRead;
      ghost var removed: set<string> := {};
      var todo := zonelist.Keys;
      assert start - removed == start && read - removed == read;
      while todo != {}
        invariant Dropped(start, read, removed) && Dropping(start, removed, todo, seen)
        decreases |todo|
      {
        var name :| name in todo;
        DroppingStep(start, removed, todo, seen, name);
        todo := todo - {name};
        if name != PGEODNS && name !in seen {
          DropAnother(name, start, read, removed);
          removed := removed + {name};
        }
      }
      DroppedAll(start, removed, seen, old(ViewOf()));
      ListRemove(start, removed);
    }

    /** `reload`: nothing changes when the directory cannot be listed. */
    method ReloadZones(dir: Option<seq<File>>)
      requires Valid()
      modifies this, reg, StatsOf(zonelist)
      ensures Valid() && ViewOf() == ReloadView(SpecEnv(lib), old(ViewOf()), dir)
      ensures Kept(old(zonelist), zonelist)
      ensures forall n :: n in old(zonelist) && n !in zonelist ==> Closed(old(zonelist)[n].metrics)
      ensures forall x :: x in StatsOf(zonelist) ==> x in StatsOf(old(zonelist)) || fresh(x)
    {
      if dir.None? {
        return;
      }
      var seen := ReadEntries(dir.value);
      ghost var grown := zonelist;
      RemoveUnseen(seen);
      assert StatsOf(zonelist) <= StatsOf(grown);
    }

    /** A zone listed at the start still has its statistics, or they have been closed. */
    ghost predicate Accounted(start: ZoneList, n: string)
      requires n in start
      reads this`zonelist, start[n].metrics.labels, start[n].metrics.clients
    {
      Closed(start[n].metrics) || (n in zonelist && zonelist[n].metrics == start[n].metrics)
    }

    /**
     `Run`: one reload after the other, for any sequence of directory snapshots. A zone that
     vanished on the way has had its statistics closed, even if its file came back later.
     */
    method Run(dirs: seq<Option<seq<File>>>)
      requires Valid()
      modifies this, reg, StatsOf(zonelist)
      ensures Valid() && ViewOf() == ReloadAll(SpecEnv(lib), old(ViewOf()), dirs)
      ensures forall n :: n in old(zonelist) ==> Accounted(old(zonelist), n)
    {
      ghost var v, start := ViewOf(), zonelist;
      for i := 0 to |dirs|
        invariant Valid() && ViewOf() == ReloadAll(SpecEnv(lib), v, dirs[..i])
        invariant forall x :: x in StatsOf(zonelist) ==> x in StatsOf(start) || fresh(x)
        invariant forall n :: n in start ==> Accounted(start, n)
      {
        assert dirs[..i + 1][..i] == dirs[..i];
        RunStep(dirs[i], start);
      }
      assert dirs[..|dirs|] == dirs;
    }

    method RunStep(dir: Option<seq<File>>, ghost start: ZoneList)
      requires Valid() && forall n :: n in start ==> Accounted(start, n)
      modifies this, reg, StatsOf(zonelist)
      ensures Valid() && ViewOf() == ReloadView(SpecEnv(lib), old(ViewOf()), dir)
      ensures forall x :: x in StatsOf(zonelist) ==> x in StatsOf(old(zonelist)) || fresh(x)
      ensures forall n :: n in start ==> Accounted(start, n)
    {
      ghost var before := zonelist;
      ghost var closed := set n | n in start && Closed(start[n].metrics);
      forall n | n in closed ensures Unlisted(before, start[n].metrics) {
        ClosedIsUnlisted(before, start[n].metrics);
      }
      ReloadZones(dir);
      forall n | n in start ensures Accounted(start, n) {
        if n in closed {
          assert Unlisted(before, start[n].metrics);
        }
      }
    }
  }

  /** What has been removed so far: the unseen names that are no longer to be looked at. */
  ghost predicate Dropping(start: ZoneList, removed: set<string>, todo: set<string>, seen: set<string>) {
    && todo <= start.Keys && removed <= start.Keys && removed !! todo
    && forall n :: n in start && n !in todo ==> (n in removed <==> n != PGEODNS && n !in seen)
  }

  lemma DroppingStep(start: ZoneList, removed: set<string>, todo: set<string>, seen: set<string>, name: string)
    requires Dropping(start, removed, todo, seen) && name in todo
    ensures Dropping(start, if name != PGEODNS && name !in seen then removed + {name} else removed, todo - {name}, seen)
  {
  }

  lemma DroppedAll(start: ZoneList, removed: set<string>, seen: set<string>, v: View<ZoneFile>)
    requires Dropping(start, removed, {}, seen) && v.zones == ServedMap(start)
    ensures removed == Gone(v, seen)
  {
  }

  lemma MinusOne<V>(m: map<string, V>, names: set<string>, name: string)
    ensures (m - names) - {name} == m - (names + {name})
  {
  }
}
