/** `Server.serve` outside the parseIP branch: which records answer a query, and how. */
module Serve {
  import opened Common
  import opened ZoneModel
  import opened Names
  import opened Lookup
  import opened P = Picker

  datatype Rcode = NoError | NameError

  datatype Reply = Reply(rcode: Rcode, answer: seq<RR>, authority: seq<RR>)

  /**
   A query as `serve` sees it once the client address has been turned into targets and
   a location. `debugText` is the text of the TXT record for a debug name.
   */
  datatype Request = Request(
    qname: string,
    qlabel: string,
    qtype: RRType,
    targets: seq<string>,
    client: Option<Client>,
    permitDebug: bool,
    debugText: string)

  /**
   What the program does not determine: health, random numbers (per match, type and
   draw) and the order in which a label's types are ranged over.
   */
  datatype Chance = Chance(
    healthy: string -> bool,
    rand: nat -> RRType -> nat -> nat,
    order: string -> seq<RRType>)

  function QueryOf(labels: LabelMap, r: Request): (q: Query) {
    Query(labels, r.targets, [TYPE_MF, TYPE_CNAME, r.qtype])
  }

  /** The labels of the question in front of the zone's own, in lower case. */
  function GetQuestionName(parts: seq<string>, labelCount: nat): (s: string)
    requires labelCount <= |parts|
  {
    ToLower(Join(parts[..|parts| - labelCount]))
  }

  ghost predicate SoaDefined(labels: LabelMap) {
    "" in labels && TYPE_SOA in labels[""].records && labels[""].records[TYPE_SOA] != []
  }

  function SoaRR(labels: LabelMap): (rr: RR)
    requires SoaDefined(labels)
  {
    labels[""].records[TYPE_SOA][0].rr
  }

  /** `_country` is open to all; `_status` and `_health` only to permitted clients. */
  predicate DebugName(r: Request) {
    var first := Split(r.qlabel)[0];
    first == "_country" || (r.permitDebug && (first == "_status" || first == "_health"))
  }

  // ---------- which records are picked ----------

  /** All labels of the first `k` matches are "closest" labels, so the location is still set. */
  ghost predicate KeepsLocation(labels: LabelMap, ms: seq<Match>, k: nat)
    requires k <= |ms|
  {
    forall j :: 0 <= j < k ==> ms[j].key.Some? && ms[j].key.value in labels && labels[ms[j].key.value].closest
  }

  /** What `Picker` returns for match number `k`; a nil label crashes. */
  ghost function PickAt(labels: LabelMap, ms: seq<Match>, k: nat, r: Request, c: Chance): (p: Outcome<seq<Record>>)
    requires k < |ms|
  {
    if ms[k].key.None? || ms[k].key.value !in labels then Panic
    else
      var key := ms[k].key.value;
      var l := labels[key];
      PickAny(l, ms[k].qtype, l.maxHosts, if KeepsLocation(labels, ms, k + 1) then r.client else None,
              c.healthy, c.rand(k), c.order(key))
  }

  /** The first `k` matches yield no record. */
  ghost predicate EmptyUpTo(labels: LabelMap, ms: seq<Match>, k: nat, r: Request, c: Chance)
    requires k <= |ms|
  {
    forall j :: 0 <= j < k ==> PickAt(labels, ms, j, r, c) == Value([])
  }

  function Renamed(rs: seq<Record>, qname: string): (rrs: seq<RR>)
    ensures |rrs| == |rs|
    ensures forall i :: 0 <= i < |rs| ==> rrs[i] == rs[i].rr.(name := qname)
  {
    seq(|rs|, i requires 0 <= i < |rs| => rs[i].rr.(name := qname))
  }

  /** Match `k` is the first that does not come up empty. */
  ghost predicate Decides(labels: LabelMap, ms: seq<Match>, k: nat, r: Request, c: Chance) {
    k < |ms| && EmptyUpTo(labels, ms, k, r, c) && PickAt(labels, ms, k, r, c) != Value([])
  }

  /** The answer to a query with matches. */
  ghost predicate Answers(labels: LabelMap, ms: seq<Match>, r: Request, c: Chance, out: Outcome<seq<RR>>) {
    if EmptyUpTo(labels, ms, |ms|, r, c) then out == Value([])
    else
      exists k :: Decides(labels, ms, k, r, c) &&
        match PickAt(labels, ms, k, r, c)
        case Panic => out == Panic
        case Value(rs) => out == Value(Renamed(rs, r.qname))
  }

  /** The labels' record lists as the arrays that all queries share. */
  type Store = map<string, map<RRType, array<Record>>>

  ghost function ArraysOf(store: Store): (s: set<array<Record>>) {
    set k, t | k in store && t in store[k] :: store[k][t]
  }

  ghost predicate Stored(labels: LabelMap, store: Store)
    reads ArraysOf(store)
  {
    store.Keys == labels.Keys && forall k :: k in store ==> Stores(labels[k], store[k])
  }

  /** One round of the match loop: the location is dropped where the label is not "closest". */
  method PickMatch(labels: LabelMap, store: Store, ms: seq<Match>, k: nat, r: Request, c: Chance,
                   location: Option<Client>)
    returns (servers: Outcome<seq<Record>>, location': Option<Client>)
    requires forall k :: k in labels ==> Consistent(labels[k]) && Enumerates(c.order(k), labels[k].records.Keys)
    requires Stored(labels, store) && k < |ms|
    requires location == if KeepsLocation(labels, ms, k) then r.client else None
    ensures servers == PickAt(labels, ms, k, r, c) && Stored(labels, store)
    ensures servers.Value? ==> location' == if KeepsLocation(labels, ms, k + 1) then r.client else None
  {
    location' := location;
    if ms[k].key.None? || ms[k].key.value !in labels {
      return Panic, None;
    }
    var key := ms[k].key.value;
    var l := labels[key];
    if !l.closest {
      location' := None;
    }
    assert Stores(l, store[key]);
    servers := Picker(l, store[key], ms[k].qtype, l.maxHosts, location', c.healthy, c.rand(k), c.order(key));
  }

  /** The match loop: stop at the first match that yields records. */
  method MatchLoop(labels: LabelMap, store: Store, ms: seq<Match>, r: Request, c: Chance)
    returns (out: Outcome<seq<RR>>)
    requires forall k :: k in labels ==> Consistent(labels[k]) && Enumerates(c.order(k), labels[k].records.Keys)
    requires Stored(labels, store)
    ensures Answers(labels, ms, r, c, out) && Stored(labels, store)
  {
    var location := r.client;
    for k := 0 to |ms|
      invariant Stored(labels, store)
      invariant EmptyUpTo(labels, ms, k, r, c)
      invariant location == if KeepsLocation(labels, ms, k) then r.client else None
    {
      var servers;
      servers, location := PickMatch(labels, store, ms, k, r, c, location);
      if servers.Panic? {
        assert Decides(labels, ms, k, r, c);
        return Panic;
      }
      if |servers.value| > 0 {
        assert Decides(labels, ms, k, r, c);
        return Value(Renamed(servers.value, r.qname));
      }
    }
    out := Value([]);
  }

  // ---------- the reply ----------

  /** The one record that answers a debug name, under the name the code gives it. */
  function DebugRecord(r: Request, origin: string): (rr: RR) {
    RR(if Split(r.qlabel)[0] == "_country" then r.qname else r.qlabel + "." + origin + ".", TYPE_TXT, 1, r.debugText)
  }

  /** What `serve` guarantees about its reply. */
  ghost predicate GoodReply(labels: LabelMap, origin: string, ms: seq<Match>, r: Request, c: Chance, reply: Reply)
    requires SoaDefined(labels)
  {
    && reply.authority == (if reply.answer == [] then [SoaRR(labels)] else [])
    && (reply.rcode == NameError <==> ms == [] && !DebugName(r))
    && (ms != [] ==> Answers(labels, ms, r, c, Value(reply.answer)))
    && (ms == [] ==> reply.answer == if DebugName(r) && (r.qtype == TYPE_ANY || r.qtype == TYPE_TXT)
                                     then [DebugRecord(r, origin)] else [])
  }

  /** `serve` itself. The lookup must come to an end; `depth` bounds its recursion. */
  method ServeQuery(labels: LabelMap, store: Store, origin: string, r: Request, c: Chance, ghost depth: nat)
    returns (out: Outcome<Reply>)
    requires SoaDefined(labels)
    requires forall k :: k in labels ==> Consistent(labels[k]) && Enumerates(c.order(k), labels[k].records.Keys)
    requires Stored(labels, store)
    requires !Find(QueryOf(labels, r), r.qlabel, depth).Starved?
    ensures Stored(labels, store)
    ensures match Find(QueryOf(labels, r), r.qlabel, depth)
            case Matches(ms) =>
              (if out.Panic? then Answers(labels, ms, r, c, Panic) else GoodReply(labels, origin, ms, r, c, out.value))
            case _ => out == Panic
  {
    var found := FindLabels(QueryOf(labels, r), r.qlabel, depth);
    if found.Crash? {
      return Panic;
    }
    var ms := found.ms;
    if |ms| == 0 {
      var firstLabel := Split(r.qlabel)[0];
      var text := r.qtype == TYPE_ANY || r.qtype == TYPE_TXT;
      if r.permitDebug && (firstLabel == "_status" || firstLabel == "_health") {
        if text {
          return Value(Reply(NoError, [RR(r.qlabel + "." + origin + ".", TYPE_TXT, 1, r.debugText)], []));
        }
        return Value(Reply(NoError, [], [SoaRR(labels)]));
      }
      if firstLabel == "_country" {
        if text {
          return Value(Reply(NoError, [RR(r.qname, TYPE_TXT, 1, r.debugText)], []));
        }
        return Value(Reply(NoError, [], [SoaRR(labels)]));
      }
      return Value(Reply(NameError, [], [SoaRR(labels)]));
    }
    var answer := MatchLoop(labels, store, ms, r, c);
    if answer.Panic? {
      return Panic;
    }
    var ns: seq<RR> := [];
    if |answer.value| == 0 {
      ns := [SoaRR(labels)];
    }
    out := Value(Reply(NoError, answer.value, ns));
  }
}
