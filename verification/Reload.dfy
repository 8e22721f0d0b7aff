/**
 What `MuxManager.reload` does to the zone list and the read records, as functions of
 directory snapshots, and why skipping unchanged files is right.
 */
module Reload {
  import opened Common
  import opened Names

  /** A directory entry; `content` is `None` when the file cannot be read. */
  datatype File = File(name: string, isDir: bool, mtime: int, content: Option<string>)

  /** A zone file as parsed. Without a configured serial number the file's mtime is used. */
  datatype Parsed<Body> = Parsed(body: Body, serial: Option<int>)
  datatype Served<Body> = Served(body: Body, serial: int)

  datatype ReadRecord = ReadRecord(time: int, hash: string)

  /** The library calls reload depends on. */
  datatype Env<!Body> = Env(parse: (string, string) -> Option<Parsed<Body>>, sha: string -> string)

  datatype View<Body> = View(zones: map<string, Served<Body>>, lastRead: map<string, ReadRecord>)

  const PGEODNS := "pgeodns"

  // ---------- one reload ----------

  function LastDot(s: string): (d: nat)
    ensures d <= |s| && (d < |s| ==> s[d] == '.')
    ensures '.' in s ==> d < |s|
    ensures forall i :: d < i < |s| ==> s[i] != '.'
  {
    if s == "" then 0
    else if s[|s| - 1] == '.' then |s| - 1
    else
      var d := LastDot(s[..|s| - 1]);
      if d == |s| - 1 then |s| else d
  }

  predicate EndsInJson(s: string) {
    |s| >= 5 && s[|s| - 5..] == ".json"
  }

  predicate IsZoneFile(f: File) {
    EndsInJson(ToLower(f.name)) && !(|f.name| > 0 && f.name[0] == '.') && !f.isDir
  }

  /** The last dot of a zone file's name is the one of its ".json" suffix, in any case. */
  lemma LastDotOfZoneFile(f: File)
    requires IsZoneFile(f)
    ensures |f.name| >= 5 && LastDot(f.name) == |f.name| - 5
  {
    var low := ToLower(f.name);
    var k := |low| - 5;
    assert low[k..] == ".json";
    assert low[k] == '.' && low[k + 1] == 'j' && low[k + 2] == 's' && low[k + 3] == 'o' && low[k + 4] == 'n';
    assert f.name[k] == '.';
    assert f.name[k + 1] != '.' && f.name[k + 2] != '.' && f.name[k + 3] != '.' && f.name[k + 4] != '.';
  }

  /** `fileName[0:strings.LastIndex(fileName, ".")]`: the file name without its suffix. */
  function ZoneName(f: File): (n: string)
    requires IsZoneFile(f)
    ensures |f.name| >= 5 && n == f.name[..|f.name| - 5]
  {
    LastDotOfZoneFile(f);
    f.name[..LastDot(f.name)]
  }

  /** `sha256File` yields the empty string for a file it cannot read. */
  function HashOf<Body>(env: Env<Body>, f: File): (h: string) {
    if f.content.Some? then env.sha(f.content.value) else ""
  }

  function ParseOf<Body>(env: Env<Body>, n: string, f: File): (p: Option<Parsed<Body>>) {
    if f.content.Some? then env.parse(n, f.content.value) else None
  }

  function Load<Body>(p: Parsed<Body>, mtime: int): (z: Served<Body>) {
    Served(p.body, if p.serial.Some? then p.serial.value else mtime)
  }

  /** What one directory entry does. */
  function ReadFile<Body>(env: Env<Body>, v: View<Body>, f: File): (v': View<Body>) {
    if !IsZoneFile(f) then v
    else
      var n := ZoneName(f);
      if n in v.lastRead && f.mtime <= v.lastRead[n].time then v
      else
        var hash := if n in v.lastRead then v.lastRead[n].hash else "";
        var touched := v.(lastRead := v.lastRead[n := ReadRecord(f.mtime, hash)]);
        if hash == HashOf(env, f) then touched
        else
          match ParseOf(env, n, f)
          case None => touched
          case Some(p) => View(v.zones[n := Load(p, f.mtime)], v.lastRead[n := ReadRecord(f.mtime, HashOf(env, f))])
  }

  function ReadFiles<Body>(env: Env<Body>, v: View<Body>, files: seq<File>): (v': View<Body>) {
    if files == [] then v
    else ReadFile(env, ReadFiles(env, v, files[..|files| - 1]), files[|files| - 1])
  }

  function Seen(files: seq<File>): (s: set<string>) {
    if files == [] then {}
    else
      var f := files[|files| - 1];
      Seen(files[..|files| - 1]) + (if IsZoneFile(f) then {ZoneName(f)} else {})
  }

  lemma SeenStep(files: seq<File>, i: nat)
    requires i < |files|
    ensures Seen(files[..i + 1]) ==
            Seen(files[..i]) + (if IsZoneFile(files[i]) then {ZoneName(files[i])} else {})
    ensures files[..i + 1][..i] == files[..i] && files[..i + 1][i] == files[i]
  {
  }

  /** The zones that disappear: listed, not seen, and not the built-in one. */
  function Gone<Body>(v: View<Body>, seen: set<string>): (s: set<string>) {
    set n | n in v.zones && n != PGEODNS && n !in seen
  }

  function Prune<Body>(v: View<Body>, seen: set<string>): (v': View<Body>) {
    View(v.zones - Gone(v, seen), v.lastRead - Gone(v, seen))
  }

  /** One reload; nothing happens when the directory cannot be read. */
  function ReloadView<Body>(env: Env<Body>, v: View<Body>, dir: Option<seq<File>>): (v': View<Body>) {
    if dir.None? then v else Prune(ReadFiles(env, v, dir.value), Seen(dir.value))
  }

  function ReloadAll<Body>(env: Env<Body>, v: View<Body>, dirs: seq<Option<seq<File>>>): (v': View<Body>) {
    if dirs == [] then v
    else ReloadView(env, ReloadAll(env, v, dirs[..|dirs| - 1]), dirs[|dirs| - 1])
  }

  /** Reloading over one history after another is reloading over both. */
  lemma {:induction false} ReloadConcat<Body>(env: Env<Body>, v: View<Body>, a: seq<Option<seq<File>>>,
                                              b: seq<Option<seq<File>>>)
    ensures ReloadAll(env, v, a + b) == ReloadAll(env, ReloadAll(env, v, a), b)
  {
    if b == [] {
      assert a + b == a;
    } else {
      var k := |b| - 1;
      assert (a + b)[..|a + b| - 1] == a + b[..k];
      ReloadConcat(env, v, a, b[..k]);
    }
  }

  // ---------- which files count, written out ----------

  /** The name ends in ".json", in upper or lower case. */
  ghost predicate JsonName(name: string) {
    && |name| >= 5
    && forall i :: 0 <= i < 5 ==> name[|name| - 5 + i] == ".json"[i] || name[|name| - 5 + i] == ".JSON"[i]
  }

  lemma JsonNameIff(name: string)
    ensures JsonName(name) <==> EndsInJson(ToLower(name))
  {
    if |name| >= 5 {
      var end, low := name[|name| - 5..], ToLower(name)[|name| - 5..];
      assert forall i :: 0 <= i < 5 ==> end[i] == name[|name| - 5 + i] && low[i] == LowerChar(end[i]);
      LowerMeans(end[0], '.', '.');
      LowerMeans(end[1], 'j', 'J');
      LowerMeans(end[2], 's', 'S');
      LowerMeans(end[3], 'o', 'O');
      LowerMeans(end[4], 'n', 'N');
      assert low == ".json" <==>
             low[0] == '.' && low[1] == 'j' && low[2] == 's' && low[3] == 'o' && low[4] == 'n';
    }
  }

  lemma LowerMeans(c: char, low: char, up: char)
    requires (low == up == '.') || ('a' <= low <= 'z' && up == low - 'a' + 'A')
    ensures LowerChar(c) == low <==> c == low || c == up
  {
  }

  /**
   Directories, files that start with a dot and files that do not end in ".json", in any
   case, leave everything as it was.
   */
  lemma OtherEntriesAreIgnored<Body>(env: Env<Body>, v: View<Body>, f: File)
    requires f.isDir || (f.name != "" && f.name[0] == '.') || !JsonName(f.name)
    ensures ReadFile(env, v, f) == v && Seen([f]) == {}
  {
    JsonNameIff(f.name);
    assert [f][..0] == [];
  }

  /** A first reload of a directory with one good file lists its zone, and nothing else changes. */
  lemma OneFileIsServed<Body>(env: Env<Body>, v: View<Body>, n: string, suffix: string, t: int, c: string)
    requires Initial(v) && n != "" && n[0] != '.' && n != "pgeodns" && |suffix| == 5 && JsonName(suffix)
    requires env.parse(n, c).Some? && env.sha(c) != ""
    ensures var dir := Some([File(n + suffix, false, t, Some(c))]);
            var p := env.parse(n, c).value;
            var v' := ReloadView(env, v, dir);
            && v'.zones == v.zones[n := Served(p.body, if p.serial.Some? then p.serial.value else t)]
            && v'.lastRead == map[n := ReadRecord(t, env.sha(c))]
  {
    var f := File(n + suffix, false, t, Some(c));
    NamedFile(n, suffix, t, c);
    FirstReload(env, v, n, f, c);
  }

  lemma FirstReload<Body>(env: Env<Body>, v: View<Body>, n: string, f: File, c: string)
    requires Initial(v) && IsZoneFile(f) && ZoneName(f) == n && f.content == Some(c)
    requires env.parse(n, c).Some? && env.sha(c) != ""
    ensures ReloadView(env, v, Some([f])) ==
            View(v.zones[n := Load(env.parse(n, c).value, f.mtime)], map[n := ReadRecord(f.mtime, env.sha(c))])
  {
    ReloadOne(env, v, f);
    FirstRead(env, v, n, f, c);
    NoneGone(v, n, ReadFile(env, v, f));
  }

  lemma FirstRead<Body>(env: Env<Body>, v: View<Body>, n: string, f: File, c: string)
    requires Initial(v) && IsZoneFile(f) && ZoneName(f) == n && f.content == Some(c)
    requires env.parse(n, c).Some? && env.sha(c) != ""
    ensures ReadFile(env, v, f) ==
            View(v.zones[n := Load(env.parse(n, c).value, f.mtime)], map[n := ReadRecord(f.mtime, env.sha(c))])
  {
  }

  lemma NoneGone<Body>(v: View<Body>, n: string, v': View<Body>)
    requires Initial(v) && n in v'.zones && v'.zones.Keys == v.zones.Keys + {n}
    ensures Prune(v', {n}) == v'
  {
    assert Gone(v', {n}) == {};
  }

  /**
   A directory that cannot be read changes nothing; one without zone files leaves the
   built-in zone and nothing else.
   */
  lemma NothingToServe<Body>(env: Env<Body>, v: View<Body>, files: seq<File>)
    requires "pgeodns" in v.zones
    requires forall f :: f in files ==> f.isDir || (f.name != "" && f.name[0] == '.') || !JsonName(f.name)
    ensures ReloadView(env, v, None) == v
    ensures ReloadView(env, v, Some(files)).zones == map["pgeodns" := v.zones["pgeodns"]]
  {
    ReadsNothing(env, v, files);
  }

  lemma {:induction false} ReadsNothing<Body>(env: Env<Body>, v: View<Body>, files: seq<File>)
    requires forall f :: f in files ==> f.isDir || (f.name != "" && f.name[0] == '.') || !JsonName(f.name)
    ensures ReadFiles(env, v, files) == v && Seen(files) == {}
  {
    if files != [] {
      var f := files[|files| - 1];
      OtherEntriesAreIgnored(env, v, f);
      ReadsNothing(env, v, files[..|files| - 1]);
      JsonNameIff(f.name);
    }
  }

  lemma NamedFile(n: string, suffix: string, t: int, c: string)
    requires n != "" && n[0] != '.' && |suffix| == 5 && JsonName(suffix)
    ensures var f := File(n + suffix, false, t, Some(c));
            IsZoneFile(f) && ZoneName(f) == n
  {
    var name := n + suffix;
    assert forall i :: 0 <= i < 5 ==> name[|name| - 5 + i] == suffix[i];
    JsonNameIff(name);
    assert name[..|n|] == n && name[0] == n[0];
  }

  lemma ReloadOne<Body>(env: Env<Body>, v: View<Body>, f: File)
    requires IsZoneFile(f)
    ensures ReloadView(env, v, Some([f])) == Prune(ReadFile(env, v, f), {ZoneName(f)})
  {
    assert [f][..0] == [];
    assert ReadFiles(env, v, []) == v && Seen([]) == {};
  }

  // ---------- one name at a time ----------

  /** What a snapshot says about one zone name. */
  datatype Sight = NoListing | Absent | Present(f: File)

  datatype NameState<Body> = NameState(zone: Option<Served<Body>>, read: Option<ReadRecord>)

  function Get<V>(m: map<string, V>, n: string): (v: Option<V>) {
    if n in m then Some(m[n]) else None
  }

  function Project<Body>(v: View<Body>, n: string): (st: NameState<Body>) {
    NameState(Get(v.zones, n), Get(v.lastRead, n))
  }

  /** The files of a directory that stand for the zone `n`, in the order they are read. */
  function SightsIn(files: seq<File>, n: string): (s: seq<Sight>) {
    if files == [] then []
    else
      var f := files[|files| - 1];
      SightsIn(files[..|files| - 1], n) + (if IsZoneFile(f) && ZoneName(f) == n then [Present(f)] else [])
  }

  /** What a snapshot shows of the zone `n`; there may be several files, as a.json and a.JSON. */
  function SightsOf(dir: Option<seq<File>>, n: string): (s: seq<Sight>) {
    if dir.None? then [NoListing]
    else if SightsIn(dir.value, n) == [] then [Absent]
    else SightsIn(dir.value, n)
  }

  function ReadName<Body>(env: Env<Body>, st: NameState<Body>, n: string, f: File): (st': NameState<Body>) {
    if st.read.Some? && f.mtime <= st.read.value.time then st
    else
      var hash := if st.read.Some? then st.read.value.hash else "";
      var touched := st.(read := Some(ReadRecord(f.mtime, hash)));
      if hash == HashOf(env, f) then touched
      else
        match ParseOf(env, n, f)
        case None => touched
        case Some(p) => NameState(Some(Load(p, f.mtime)), Some(ReadRecord(f.mtime, HashOf(env, f))))
  }

  /** A vanished file takes its zone and read record with it; without a zone the record stays. */
  function StepName<Body>(env: Env<Body>, st: NameState<Body>, n: string, s: Sight): (st': NameState<Body>) {
    match s
    case NoListing => st
    case Absent => if st.zone.Some? then NameState(None, None) else st
    case Present(f) => ReadName(env, st, n, f)
  }

  /** The steps of a history, from the state `st` on. */
  function RunFrom<Body>(env: Env<Body>, st: NameState<Body>, n: string, h: seq<Sight>): (st': NameState<Body>) {
    if h == [] then st
    else StepName(env, RunFrom(env, st, n, h[..|h| - 1]), n, h[|h| - 1])
  }

  lemma {:induction false} RunConcat<Body>(env: Env<Body>, st: NameState<Body>, n: string, a: seq<Sight>, b: seq<Sight>)
    ensures RunFrom(env, st, n, a + b) == RunFrom(env, RunFrom(env, st, n, a), n, b)
  {
    if b == [] {
      assert a + b == a;
    } else {
      var k := |b| - 1;
      assert (a + b)[..|a + b| - 1] == a + b[..k];
      RunConcat(env, st, n, a, b[..k]);
    }
  }

  lemma ReadFileProjects<Body>(env: Env<Body>, v: View<Body>, f: File, n: string)
    ensures Project(ReadFile(env, v, f), n) ==
            if IsZoneFile(f) && ZoneName(f) == n then ReadName(env, Project(v, n), n, f) else Project(v, n)
  {
  }

  lemma {:induction false} SightsSeen(files: seq<File>, n: string)
    ensures SightsIn(files, n) != [] <==> n in Seen(files)
    ensures forall i :: 0 <= i < |SightsIn(files, n)| ==> SightsIn(files, n)[i].Present?
  {
    if files != [] {
      var k := |files| - 1;
      SightsSeen(files[..k], n);
      SeenStep(files, k);
      assert files[..k + 1] == files;
    }
  }

  lemma {:induction false} ReadFilesProjects<Body>(env: Env<Body>, v: View<Body>, files: seq<File>, n: string)
    ensures Project(ReadFiles(env, v, files), n) == RunFrom(env, Project(v, n), n, SightsIn(files, n))
  {
    if files != [] {
      var k := |files| - 1;
      var pre, f := files[..k], files[k];
      ReadFilesProjects(env, v, pre, n);
      ReadFileProjects(env, ReadFiles(env, v, pre), f, n);
      if IsZoneFile(f) && ZoneName(f) == n {
        RunSnoc(env, Project(v, n), n, SightsIn(pre, n), Present(f));
      } else {
        assert SightsIn(files, n) == SightsIn(pre, n);
      }
    }
  }

  lemma RunSnoc<Body>(env: Env<Body>, st: NameState<Body>, n: string, h: seq<Sight>, s: Sight)
    ensures RunFrom(env, st, n, h + [s]) == StepName(env, RunFrom(env, st, n, h), n, s)
  {
    assert (h + [s])[..|h|] == h;
  }

  /** A reload treats every zone name on its own. */
  lemma ReloadProjects<Body>(env: Env<Body>, v: View<Body>, dir: Option<seq<File>>, n: string)
    requires n != PGEODNS
    ensures Project(ReloadView(env, v, dir), n) == RunFrom(env, Project(v, n), n, SightsOf(dir, n))
  {
    if dir.None? {
      RunSnoc(env, Project(v, n), n, [], NoListing);
    } else {
      var v1, seen := ReadFiles(env, v, dir.value), Seen(dir.value);
      ReadFilesProjects(env, v, dir.value, n);
      SightsSeen(dir.value, n);
      assert n in Gone(v1, seen) <==> n in v1.zones && n !in seen;
      if n in seen {
        assert Project(Prune(v1, seen), n) == Project(v1, n);
      } else {
        RunSnoc(env, Project(v, n), n, [], Absent);
      }
    }
  }

  // ---------- what reloading should amount to ----------

  ghost predicate Parses<Body>(env: Env<Body>, n: string, f: File) {
    ParseOf(env, n, f).Some?
  }

  /**
   Re-parsing everything, every time: the content that should be served for `n` after
   the sightings `h`. An unparseable file keeps the last good one.
   */
  ghost function Ideal<Body>(env: Env<Body>, n: string, h: seq<Sight>): (content: Option<string>) {
    if h == [] then None
    else
      var before := Ideal(env, n, h[..|h| - 1]);
      match h[|h| - 1]
      case NoListing => before
      case Absent => None
      case Present(f) => if Parses(env, n, f) then f.content else before
  }

  /** A history from the beginning, when nothing has been read. */
  function RunName<Body>(env: Env<Body>, n: string, h: seq<Sight>): (st: NameState<Body>) {
    RunFrom(env, NameState(None, None), n, h)
  }

  /** Hashes tell contents apart and are never empty. */
  ghost predicate GoodHash<Body>(env: Env<Body>) {
    && (forall a: string, b: string :: env.sha(a) == env.sha(b) ==> a == b)
    && (forall a: string :: env.sha(a) != "")
  }

  /** The zone is the parse `p`, its serial number included where `p` has one. */
  ghost predicate IsParse<Body>(p: Parsed<Body>, zone: Option<Served<Body>>) {
    zone.Some? && zone.value.body == p.body && (p.serial.Some? ==> zone.value.serial == p.serial.value)
  }

  /** The served zone is the parse of `c`, loaded from some file seen with that content. */
  ghost predicate ServesContent<Body>(env: Env<Body>, n: string, h: seq<Sight>, zone: Option<Served<Body>>, c: string) {
    exists i :: && 0 <= i < |h| && h[i].Present? && h[i].f.content == Some(c)
                && env.parse(n, c).Some? && zone == Some(Load(env.parse(n, c).value, h[i].f.mtime))
  }

  lemma ServesLater<Body>(env: Env<Body>, n: string, h: seq<Sight>, s: Sight, zone: Option<Served<Body>>, c: string)
    requires ServesContent(env, n, h, zone, c)
    ensures ServesContent(env, n, h + [s], zone, c)
  {
    var i :| && 0 <= i < |h| && h[i].Present? && h[i].f.content == Some(c)
             && env.parse(n, c).Some? && zone == Some(Load(env.parse(n, c).value, h[i].f.mtime));
    assert (h + [s])[i] == h[i];
  }

  // ---------- what every history keeps ----------

  /** Sighting `i` gave the record its time; if the file parses, the record's hash is that file's. */
  ghost predicate GaveTime<Body>(env: Env<Body>, n: string, h: seq<Sight>, read: ReadRecord, i: nat) {
    && i < |h| && h[i].Present? && h[i].f.mtime == read.time
    && (Parses(env, n, h[i].f) ==> read.hash == HashOf(env, h[i].f))
  }

  /** The zone, if there is one, is the parse of the content whose hash is on record. */
  ghost predicate HashSound<Body>(env: Env<Body>, n: string, h: seq<Sight>, st: NameState<Body>) {
    && (st.zone.Some? <==> st.read.Some? && st.read.value.hash != "")
    && (st.zone.Some? ==> exists c :: env.sha(c) == st.read.value.hash && ServesContent(env, n, h, st.zone, c))
  }

  ghost predicate TimeSound<Body>(env: Env<Body>, n: string, h: seq<Sight>, st: NameState<Body>) {
    st.read.Some? ==> exists i :: GaveTime(env, n, h, st.read.value, i)
  }

  lemma HashSoundLater<Body>(env: Env<Body>, n: string, h: seq<Sight>, s: Sight, st: NameState<Body>)
    requires HashSound(env, n, h, st)
    ensures HashSound(env, n, h + [s], st)
  {
    if st.zone.Some? {
      var c :| env.sha(c) == st.read.value.hash && ServesContent(env, n, h, st.zone, c);
      ServesLater(env, n, h, s, st.zone, c);
    }
  }

  lemma TimeSoundLater<Body>(env: Env<Body>, n: string, h: seq<Sight>, s: Sight, st: NameState<Body>)
    requires TimeSound(env, n, h, st)
    ensures TimeSound(env, n, h + [s], st)
  {
    if st.read.Some? {
      var i: nat :| GaveTime(env, n, h, st.read.value, i);
      assert GaveTime(env, n, h + [s], st.read.value, i);
    }
  }

  lemma ReadKeepsSound<Body>(env: Env<Body>, n: string, h: seq<Sight>, f: File, st: NameState<Body>)
    requires GoodHash(env) && HashSound(env, n, h, st) && (st.read.Some? ==> f.mtime > st.read.value.time)
    ensures var st' := ReadName(env, st, n, f);
            HashSound(env, n, h + [Present(f)], st') && TimeSound(env, n, h + [Present(f)], st')
  {
    var st', h' := ReadName(env, st, n, f), h + [Present(f)];
    HashSoundLater(env, n, h, Present(f), st);
    assert h'[|h|] == Present(f);
    assert GaveTime(env, n, h', st'.read.value, |h|);
    var hash := if st.read.Some? then st.read.value.hash else "";
    if hash != HashOf(env, f) && Parses(env, n, f) {
      var c := f.content.value;
      assert st'.zone == Some(Load(env.parse(n, c).value, h'[|h|].f.mtime));
      assert ServesContent(env, n, h', st'.zone, c);
    }
  }

  /** The read record and the zone belong together after every history, whatever the mtimes. */
  lemma {:induction false} NameIsSound<Body>(env: Env<Body>, n: string, h: seq<Sight>)
    requires GoodHash(env)
    ensures HashSound(env, n, h, RunName(env, n, h)) && TimeSound(env, n, h, RunName(env, n, h))
  {
    if h != [] {
      var k := |h| - 1;
      var pre, s := h[..k], h[k];
      assert h == pre + [s];
      RunSnoc(env, NameState(None, None), n, pre, s);
      NameIsSound(env, n, pre);
      var st := RunName(env, n, pre);
      if s.Present? && (st.read.None? || s.f.mtime > st.read.value.time) {
        ReadKeepsSound(env, n, pre, s.f, st);
      } else {
        HashSoundLater(env, n, pre, s, st);
        TimeSoundLater(env, n, pre, s, st);
      }
    }
  }

  /** A zone whose record has the hash of a file that parses is that file's parse. */
  lemma SameHashIsParse<Body>(env: Env<Body>, n: string, h: seq<Sight>, f: File, st: NameState<Body>)
    requires GoodHash(env) && HashSound(env, n, h, st) && Parses(env, n, f)
    requires st.read.Some? && st.read.value.hash == HashOf(env, f)
    ensures IsParse(ParseOf(env, n, f).value, st.zone)
  {
    var c :| env.sha(c) == st.read.value.hash && ServesContent(env, n, h, st.zone, c);
    assert c == f.content.value;
  }

  /**
   Exactly when a look at a file that parses leaves the zone right, after any history: unless
   the file is no newer than the read record and the zone served is not its parse.
   */
  lemma StaysRightIff<Body>(env: Env<Body>, n: string, h: seq<Sight>, f: File)
    requires GoodHash(env) && Parses(env, n, f)
    ensures var st := RunName(env, n, h);
            var p := ParseOf(env, n, f).value;
            IsParse(p, RunName(env, n, h + [Present(f)]).zone) <==>
            !(st.read.Some? && f.mtime <= st.read.value.time && !IsParse(p, st.zone))
  {
    var st := RunName(env, n, h);
    RunSnoc(env, NameState(None, None), n, h, Present(f));
    NameIsSound(env, n, h);
    if st.read.Some? && f.mtime > st.read.value.time && st.read.value.hash == HashOf(env, f) {
      SameHashIsParse(env, n, h, f, st);
    }
  }

  /** If the contents of `a` and `b` differ, and `b` parses, then `b` is newer. */
  ghost predicate TellsApart<Body>(env: Env<Body>, n: string, a: Sight, b: Sight) {
    a.Present? && b.Present? && Parses(env, n, b.f) && a.f.content != b.f.content ==> a.f.mtime < b.f.mtime
  }

  /** A file that is newer than every earlier one of other content is served once it is seen. */
  lemma NewerIsServed<Body>(env: Env<Body>, n: string, h: seq<Sight>, f: File)
    requires GoodHash(env) && Parses(env, n, f) && forall i :: 0 <= i < |h| ==> TellsApart(env, n, h[i], Present(f))
    ensures IsParse(ParseOf(env, n, f).value, RunName(env, n, h + [Present(f)]).zone)
  {
    var st := RunName(env, n, h);
    NameIsSound(env, n, h);
    StaysRightIff(env, n, h, f);
    if st.read.Some? && f.mtime <= st.read.value.time {
      var i: nat :| GaveTime(env, n, h, st.read.value, i);
      assert TellsApart(env, n, h[i], Present(f));
      SameHashIsParse(env, n, h, f, st);
    }
  }

  // ---------- the file that should be served ----------

  /** Where in the history the content that should be served was seen last; -1 for nowhere. */
  ghost function GoodAt<Body>(env: Env<Body>, n: string, h: seq<Sight>): (k: int)
    ensures -1 <= k < |h|
    ensures k >= 0 ==> h[k].Present? && Parses(env, n, h[k].f)
  {
    if h == [] then -1
    else
      var last := |h| - 1;
      if h[last].Absent? then -1
      else if h[last].Present? && Parses(env, n, h[last].f) then last
      else GoodAt(env, n, h[..last])
  }

  lemma {:induction false} IdealIsAt<Body>(env: Env<Body>, n: string, h: seq<Sight>)
    ensures Ideal(env, n, h) == if GoodAt(env, n, h) < 0 then None else h[GoodAt(env, n, h)].f.content
  {
    if h != [] {
      IdealIsAt(env, n, h[..|h| - 1]);
    }
  }

  /** What is seen after that does not change the zone; if it is nowhere, there is none. */
  lemma {:induction false} LaterKeepsZone<Body>(env: Env<Body>, n: string, h: seq<Sight>)
    requires GoodHash(env)
    ensures var k := GoodAt(env, n, h);
            RunName(env, n, h).zone == if k < 0 then None else RunName(env, n, h[..k + 1]).zone
  {
    if h != [] {
      var last := |h| - 1;
      LaterKeepsZone(env, n, h[..last]);
      if GoodAt(env, n, h) == last {
        assert h[..last + 1] == h;
      } else if 0 <= GoodAt(env, n, h) {
        assert h[..last][..GoodAt(env, n, h) + 1] == h[..GoodAt(env, n, h) + 1];
      }
    }
  }

  /** The file that should be served is newer than every earlier one of other content. */
  ghost predicate MtimesTell<Body>(env: Env<Body>, n: string, h: seq<Sight>) {
    var k := GoodAt(env, n, h);
    forall i :: 0 <= i < k ==> TellsApart(env, n, h[i], h[k])
  }

  /** The zone of a name, after any history: exactly when it is the one that should be served. */
  lemma NameIsRightIff<Body>(env: Env<Body>, n: string, h: seq<Sight>)
    requires GoodHash(env)
    ensures var k, zone := GoodAt(env, n, h), RunName(env, n, h).zone;
            if k < 0 then zone.None?
            else
              var st, p := RunName(env, n, h[..k]), ParseOf(env, n, h[k].f).value;
              IsParse(p, zone) <==> !(st.read.Some? && h[k].f.mtime <= st.read.value.time && !IsParse(p, st.zone))
    ensures GoodAt(env, n, h) >= 0 && MtimesTell(env, n, h) ==>
              IsParse(ParseOf(env, n, h[GoodAt(env, n, h)].f).value, RunName(env, n, h).zone)
  {
    var k := GoodAt(env, n, h);
    LaterKeepsZone(env, n, h);
    if k >= 0 {
      assert h[..k + 1] == h[..k] + [Present(h[k].f)];
      StaysRightIff(env, n, h[..k], h[k].f);
      if MtimesTell(env, n, h) {
        forall i | 0 <= i < k ensures TellsApart(env, n, h[..k][i], Present(h[k].f)) {
          assert TellsApart(env, n, h[i], h[k]);
        }
        NewerIsServed(env, n, h[..k], h[k].f);
      }
    }
  }

  // ---------- the whole manager ----------

  /** Everything a history of snapshots shows of the zone `n`. */
  function Sightings(dirs: seq<Option<seq<File>>>, n: string): (h: seq<Sight>) {
    if dirs == [] then []
    else Sightings(dirs[..|dirs| - 1], n) + SightsOf(dirs[|dirs| - 1], n)
  }

  /** A manager as `NewMuxManager` makes it: nothing read, only the built-in zone listed. */
  ghost predicate Initial<Body>(v: View<Body>) {
    v.zones.Keys == {PGEODNS} && v.lastRead == map[]
  }

  lemma {:induction false} ReloadAllProjects<Body>(env: Env<Body>, v: View<Body>, dirs: seq<Option<seq<File>>>,
                                                   n: string)
    requires Initial(v) && n != PGEODNS
    ensures Project(ReloadAll(env, v, dirs), n) == RunName(env, n, Sightings(dirs, n))
  {
    if dirs != [] {
      var k := |dirs| - 1;
      ReloadAllProjects(env, v, dirs[..k], n);
      ReloadProjects(env, ReloadAll(env, v, dirs[..k]), dirs[k], n);
      RunConcat(env, NameState(None, None), n, Sightings(dirs[..k], n), SightsOf(dirs[k], n));
    }
  }

  /**
   Incremental reload refines re-parsing every file each time, if the file that should be
   served is newer than every earlier one of other content. A zone is then served exactly
   when the ideal serves one, and it is the parse of the ideal's content.
   */
  lemma ReloadRefinesReparse<Body>(env: Env<Body>, v: View<Body>, dirs: seq<Option<seq<File>>>, n: string)
    requires Initial(v) && n != PGEODNS && GoodHash(env)
    ensures var zone := Get(ReloadAll(env, v, dirs).zones, n);
            match Ideal(env, n, Sightings(dirs, n))
            case None => zone.None?
            case Some(c) => env.parse(n, c).Some? &&
                            (MtimesTell(env, n, Sightings(dirs, n)) ==> IsParse(env.parse(n, c).value, zone))
  {
    var h := Sightings(dirs, n);
    ReloadAllProjects(env, v, dirs, n);
    IdealIsAt(env, n, h);
    NameIsRightIff(env, n, h);
  }

  /** Whatever the mtimes: a zone that is served is the parse of a file that was seen. */
  lemma ServedWasSeen<Body>(env: Env<Body>, v: View<Body>, dirs: seq<Option<seq<File>>>, n: string)
    requires Initial(v) && n != PGEODNS && GoodHash(env) && n in ReloadAll(env, v, dirs).zones
    ensures exists c :: ServesContent(env, n, Sightings(dirs, n), Some(ReloadAll(env, v, dirs).zones[n]), c)
  {
    ReloadAllProjects(env, v, dirs, n);
    NameIsSound(env, n, Sightings(dirs, n));
  }

  /** The last of the files seen that parses. */
  ghost function LastGood<Body>(env: Env<Body>, n: string, s: seq<Sight>): (f: Option<File>) {
    if s == [] then None
    else
      var last := s[|s| - 1];
      if last.Present? && Parses(env, n, last.f) then Some(last.f) else LastGood(env, n, s[..|s| - 1])
  }

  lemma {:induction false} GoodAfter<Body>(env: Env<Body>, n: string, h: seq<Sight>, s: seq<Sight>)
    requires forall i :: 0 <= i < |s| ==> s[i].Present?
    ensures var k := GoodAt(env, n, h + s);
            match LastGood(env, n, s)
            case Some(f) => k >= |h| && (h + s)[k] == Present(f)
            case None => k == GoodAt(env, n, h)
  {
    if s == [] {
      assert h + s == h;
    } else {
      var k := |s| - 1;
      assert (h + s)[..|h + s| - 1] == h + s[..k];
      GoodAfter(env, n, h, s[..k]);
    }
  }

  lemma {:induction false} BadFilesKeepZone<Body>(env: Env<Body>, n: string, st: NameState<Body>, s: seq<Sight>)
    requires (forall i :: 0 <= i < |s| ==> s[i].Present?) && LastGood(env, n, s).None?
    ensures RunFrom(env, st, n, s).zone == st.zone
  {
    if s != [] {
      BadFilesKeepZone(env, n, st, s[..|s| - 1]);
    }
  }

  /**
   After each reload, in any history: without a file there is no zone; if no file parses the
   zone is as it was; otherwise it is the parse of the last file that parses, provided that
   file is newer than every earlier one of other content.
   */
  lemma CurrentFilesAreServed<Body>(env: Env<Body>, v: View<Body>, dirs: seq<Option<seq<File>>>, n: string)
    requires Initial(v) && n != PGEODNS && GoodHash(env) && dirs != [] && dirs[|dirs| - 1].Some?
    ensures var zone := Get(ReloadAll(env, v, dirs).zones, n);
            var s := SightsIn(dirs[|dirs| - 1].value, n);
            if s == [] then zone.None?
            else match LastGood(env, n, s)
                 case None => zone == Get(ReloadAll(env, v, dirs[..|dirs| - 1]).zones, n)
                 case Some(f) => ParseOf(env, n, f).Some? &&
                                 (MtimesTell(env, n, Sightings(dirs, n)) ==> IsParse(ParseOf(env, n, f).value, zone))
  {
    var k := |dirs| - 1;
    var s, before := SightsIn(dirs[k].value, n), Sightings(dirs[..k], n);
    SightsSeen(dirs[k].value, n);
    ReloadAllProjects(env, v, dirs, n);
    NameIsRightIff(env, n, Sightings(dirs, n));
    if s != [] {
      GoodAfter(env, n, before, s);
      if LastGood(env, n, s).None? {
        ReloadProjects(env, ReloadAll(env, v, dirs[..k]), dirs[k], n);
        BadFilesKeepZone(env, n, Project(ReloadAll(env, v, dirs[..k]), n), s);
      }
    }
  }

  /** The built-in zone is never dropped. */
  lemma {:induction false} BuiltinStays<Body>(env: Env<Body>, v: View<Body>, dirs: seq<Option<seq<File>>>)
    requires PGEODNS in v.zones
    ensures PGEODNS in ReloadAll(env, v, dirs).zones
  {
    if dirs != [] {
      var k := |dirs| - 1;
      BuiltinStays(env, v, dirs[..k]);
      if dirs[k].Some? {
        BuiltinRead(env, ReloadAll(env, v, dirs[..k]), dirs[k].value);
      }
    }
  }

  lemma {:induction false} BuiltinRead<Body>(env: Env<Body>, v: View<Body>, files: seq<File>)
    requires PGEODNS in v.zones
    ensures PGEODNS in ReadFiles(env, v, files).zones
  {
    if files != [] {
      BuiltinRead(env, v, files[..|files| - 1]);
    }
  }

  // ---------- what the hypotheses are for ----------

  /**
   Exactly when a newer file without a configured serial number is served with its own
   mtime as serial number, after any history: when its content is not the one on record,
   or the number happens to be the same.
   */
  lemma SerialIsCurrentIff<Body>(env: Env<Body>, n: string, h: seq<Sight>, f: File)
    requires GoodHash(env) && Parses(env, n, f) && ParseOf(env, n, f).value.serial.None?
    requires var st := RunName(env, n, h);
             st.read.Some? ==> f.mtime > st.read.value.time
    ensures var st := RunName(env, n, h);
            RunName(env, n, h + [Present(f)]).zone == Some(Load(ParseOf(env, n, f).value, f.mtime)) <==>
            || st.read.None? || st.read.value.hash != HashOf(env, f)
            || (st.zone.Some? && st.zone.value.serial == f.mtime)
  {
    var st := RunName(env, n, h);
    RunSnoc(env, NameState(None, None), n, h, Present(f));
    NameIsSound(env, n, h);
    if st.read.Some? && st.read.value.hash == HashOf(env, f) {
      SameHashIsParse(env, n, h, f, st);
    }
  }

  /** A file that cannot be read when it is first seen is not loaded later under the same mtime. */
  lemma UnreadableIsMissed<Body>(env: Env<Body>, n: string, a: string, t: int)
    requires GoodHash(env) && env.parse(n, a).Some?
    ensures var fa, fb := File(n + ".json", false, t, None), File(n + ".json", false, t, Some(a));
            RunName(env, n, [Present(fa), Present(fb)]).zone.None? && ParseOf(env, n, fb).Some?
  {
    var fa, fb := File(n + ".json", false, t, None), File(n + ".json", false, t, Some(a));
    RunTwo(env, n, fa, fb);
  }

  lemma RunTwo<Body>(env: Env<Body>, n: string, a: File, b: File)
    ensures RunName(env, n, [Present(a), Present(b)]) == ReadName(env, ReadName(env, NameState(None, None), n, a), n, b)
  {
    var st := NameState(None, None);
    assert [Present(a), Present(b)] == [Present(a)] + [Present(b)] && [] + [Present(a)] == [Present(a)];
    RunSnoc(env, st, n, [Present(a)], Present(b));
    RunSnoc(env, st, n, [], Present(a));
  }

  /** A touched file without a configured serial number keeps the serial of its first load. */
  lemma TouchKeepsSerial<Body>(env: Env<Body>, n: string, c: string, t1: int, t2: int)
    requires GoodHash(env) && env.parse(n, c).Some? && env.parse(n, c).value.serial.None? && t1 < t2
    ensures var f1, f2 := File(n + ".json", false, t1, Some(c)), File(n + ".json", false, t2, Some(c));
            RunName(env, n, [Present(f1), Present(f2)]).zone == Some(Load(env.parse(n, c).value, t1))
            && Load(env.parse(n, c).value, t1) != Load(env.parse(n, c).value, t2)
  {
    var f1, f2 := File(n + ".json", false, t1, Some(c)), File(n + ".json", false, t2, Some(c));
    RunTwo(env, n, f1, f2);
  }

  /** An edit that keeps the mtime is not noticed. */
  lemma SameMtimeIsMissed<Body>(env: Env<Body>, n: string, a: string, b: string, t: int)
    requires GoodHash(env) && env.parse(n, a).Some? && env.parse(n, b).Some?
    ensures var fa, fb := File(n + ".json", false, t, Some(a)), File(n + ".json", false, t, Some(b));
            RunName(env, n, [Present(fa), Present(fb)]).zone == Some(Load(env.parse(n, a).value, t))
  {
    var fa, fb := File(n + ".json", false, t, Some(a)), File(n + ".json", false, t, Some(b));
    RunTwo(env, n, fa, fb);
  }
}
