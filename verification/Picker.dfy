/** `Zone.Picker`: health filter, closest selection and weighted draw for one label. */
module Picker {
  import opened Common
  import opened ZoneModel
  import opened WeightedDraw
  import C = Closest

  /** The client's position, seen as its distance to a server location. */
  type Client = Location -> C.Distance

  /** A server of unknown location is at the maximal distance. */
  function DistanceTo(client: Client, r: Record): (d: C.Distance) {
    match r.loc
    case None => C.MAX_DISTANCE
    case Some(l) => client(l)
  }

  function Distances(client: Client, rs: seq<Record>): (ds: seq<C.Distance>) {
    seq(|rs|, i requires 0 <= i < |rs| => DistanceTo(client, rs[i]))
  }

  /** A record without a health test always passes. */
  predicate Passes(healthy: string -> bool, r: Record) {
    r.test == "" || healthy(r.test)
  }

  function PassesTest(healthy: string -> bool): (p: Record -> bool) {
    r => Passes(healthy, r)
  }

  function Nearby(client: Client, t: real): (p: Record -> bool) {
    r => DistanceTo(client, r) <= t
  }

  function Filter(rs: seq<Record>, p: Record -> bool): (s: seq<Record>) {
    if rs == [] then []
    else if p(rs[0]) then [rs[0]] + Filter(rs[1..], p)
    else Filter(rs[1..], p)
  }

  /** What a record list must satisfy: the stored weight is the sum of the record weights. */
  predicate Consistent(l: Label) {
    && TYPE_ANY !in l.records
    && forall t :: t in l.records ==> WeightOf(l, t) == Total(l.records[t])
  }

  /** The records that survive the health filter, which runs only on tested labels. */
  function Servers(l: Label, qtype: RRType, healthy: string -> bool): (s: seq<Record>)
    requires qtype in l.records
  {
    if l.tested then Filter(l.records[qtype], PassesTest(healthy)) else l.records[qtype]
  }

  /** Unweighted lists are returned whole, and so are healthy servers without weight. */
  predicate ReturnsAll(l: Label, qtype: RRType, healthy: string -> bool)
    requires qtype in l.records
  {
    WeightOf(l, qtype) == 0 || (l.tested && Total(Servers(l, qtype, healthy)) == 0)
  }

  /** How many records are wanted: one for CNAME and MF, and never more than there are. */
  function Wanted(qtype: RRType, max: int, n: nat): (m: int) {
    Min(if qtype == TYPE_CNAME || qtype == TYPE_MF then 1 else max, n)
  }

  predicate UsesClosest(qtype: RRType, client: Option<Client>) {
    client.Some? && (qtype == TYPE_A || qtype == TYPE_AAAA)
  }

  /** The records the draw is made from. */
  ghost function Candidates(servers: seq<Record>, qtype: RRType, m: nat, client: Option<Client>): (s: seq<Record>)
    requires m <= |servers|
  {
    if UsesClosest(qtype, client) && m < |servers| then
      var t := C.FinalThreshold(Distances(client.value, servers), m);
      Filter(servers, Nearby(client.value, t))
    else servers
  }

  lemma CandidatesEnough(servers: seq<Record>, qtype: RRType, m: nat, client: Option<Client>)
    requires m <= |servers|
    ensures m <= |Candidates(servers, qtype, m, client)| <= |servers|
  {
    if UsesClosest(qtype, client) && m < |servers| {
      var ds := Distances(client.value, servers);
      var t := C.FinalThreshold(ds, m);
      C.ClosestSelection(ds, m);
      FilterCount(servers, client.value, t);
    }
  }

  /** One query type, `rand` being the oracle for this type's draws. */
  ghost function Pick(l: Label, qtype: RRType, max: int, client: Option<Client>,
                      healthy: string -> bool, rand: nat -> nat): (r: Outcome<seq<Record>>)
  {
    if qtype !in l.records then Value([])
    else
      var servers := Servers(l, qtype, healthy);
      if ReturnsAll(l, qtype, healthy) then Value(servers)
      else
        var m := Wanted(qtype, max, |servers|);
        if m < 0 then Panic
        else
          CandidatesEnough(servers, qtype, m, client);
          Draw(Candidates(servers, qtype, m, client), m, rand, 0)
  }

  /** All types of a label, in the order `types` in which Go happens to range over the map. */
  ghost function PickAll(l: Label, types: seq<RRType>, max: int, client: Option<Client>,
                         healthy: string -> bool, rand: RRType -> nat -> nat): (r: Outcome<seq<Record>>)
  {
    if types == [] then Value([])
    else
      var last := |types| - 1;
      match PickAll(l, types[..last], max, client, healthy, rand)
      case Panic => Panic
      case Value(before) =>
        match Pick(l, types[last], max, client, healthy, rand(types[last]))
        case Panic => Panic
        case Value(more) => Value(before + more)
  }

  ghost predicate Enumerates(types: seq<RRType>, keys: set<RRType>) {
    && (forall t :: t in types <==> t in keys)
    && forall i, j :: 0 <= i < j < |types| ==> types[i] != types[j]
  }

  /** `Picker` as `serve` sees it. */
  ghost function PickAny(l: Label, qtype: RRType, max: int, client: Option<Client>,
                         healthy: string -> bool, rand: RRType -> nat -> nat, types: seq<RRType>)
    : (r: Outcome<seq<Record>>)
  {
    if qtype == TYPE_ANY then PickAll(l, types, max, client, healthy, rand)
    else Pick(l, qtype, max, client, healthy, rand(qtype))
  }

  // ---------- filtering ----------

  lemma {:induction false} FilterMembers(rs: seq<Record>, p: Record -> bool)
    ensures |Filter(rs, p)| <= |rs|
    ensures forall r :: r in Filter(rs, p) <==> r in rs && p(r)
  {
    if rs != [] {
      FilterMembers(rs[1..], p);
    }
  }

  /** Filtering keeps every copy of the records it keeps. */
  lemma {:induction false} FilterCopies(rs: seq<Record>, p: Record -> bool, r: Record)
    ensures multiset(Filter(rs, p))[r] == if p(r) then multiset(rs)[r] else 0
  {
    if rs != [] {
      FilterCopies(rs[1..], p, r);
      assert rs == [rs[0]] + rs[1..];
    }
  }

  lemma FilterSubset(rs: seq<Record>, p: Record -> bool)
    ensures multiset(Filter(rs, p)) <= multiset(rs)
  {
    forall r ensures multiset(Filter(rs, p))[r] <= multiset(rs)[r] {
      FilterCopies(rs, p, r);
    }
  }

  lemma DescendingCons(x: Record, s: seq<Record>)
    ensures Descending([x] + s) <==> Descending(s) && forall r :: r in s ==> x.weight >= r.weight
  {
    var xs := [x] + s;
    assert xs[1..] == s;
    if Descending(xs) {
      forall r | r in s ensures x.weight >= r.weight {
        var k :| 0 <= k < |s| && s[k] == r;
        assert xs[0].weight >= xs[k + 1].weight;
      }
    }
  }

  /** The descending order survives filtering. */
  lemma {:induction false} FilterKeepsDescending(rs: seq<Record>, p: Record -> bool)
    requires Descending(rs)
    ensures Descending(Filter(rs, p))
  {
    if rs != [] {
      assert rs == [rs[0]] + rs[1..];
      DescendingCons(rs[0], rs[1..]);
      FilterKeepsDescending(rs[1..], p);
      FilterMembers(rs[1..], p);
      DescendingCons(rs[0], Filter(rs[1..], p));
    }
  }

  lemma FilterKeepsNonNegative(rs: seq<Record>, p: Record -> bool)
    requires NonNegative(rs)
    ensures NonNegative(Filter(rs, p))
  {
    FilterMembers(rs, p);
    var s := Filter(rs, p);
    forall i | 0 <= i < |s| ensures s[i].weight >= 0 {
      assert s[i] in rs;
    }
  }

  lemma {:induction false} FilterSnoc(rs: seq<Record>, r: Record, p: Record -> bool)
    ensures Filter(rs + [r], p) == Filter(rs, p) + (if p(r) then [r] else [])
  {
    if rs == [] {
      assert [] + [r] == [r];
      assert [r][1..] == [];
    } else {
      assert (rs + [r])[1..] == rs[1..] + [r];
      FilterSnoc(rs[1..], r, p);
    }
  }

  /** The threshold keeps as many records as there are distances within it. */
  lemma {:induction false} FilterCount(rs: seq<Record>, client: Client, t: real)
    ensures |Filter(rs, Nearby(client, t))| == |C.Within(Distances(client, rs), t)| <= |rs|
  {
    var p := Nearby(client, t);
    var w := C.Within(Distances(client, rs), t);
    if rs == [] {
      assert w == {};
    } else {
      var n := |rs| - 1;
      var w' := C.Within(Distances(client, rs[..n]), t);
      FilterCount(rs[..n], client, t);
      FilterSnoc(rs[..n], rs[n], p);
      assert rs == rs[..n] + [rs[n]];
      assert w == if p(rs[n]) then w' + {n} else w';
    }
  }

  // ---------- the imperative code ----------

  /** Compaction over `servers[:0]`: the kept records move to the front of the same array. */
  method FilterHealth(servers: array<Record>, healthy: string -> bool) returns (n: nat, sum: int)
    modifies servers
    ensures n <= servers.Length
    ensures servers[..n] == Filter(old(servers[..]), PassesTest(healthy))
    ensures sum == Total(servers[..n])
  {
    n, sum := 0, 0;
    ghost var rs := servers[..];
    for i := 0 to servers.Length
      invariant n <= i && forall j :: i <= j < servers.Length ==> servers[j] == rs[j]
      invariant servers[..n] == Filter(rs[..i], PassesTest(healthy))
      invariant sum == Total(servers[..n])
    {
      var s := servers[i];
      FilterSnoc(rs[..i], rs[i], PassesTest(healthy));
      assert rs[..i + 1] == rs[..i] + [rs[i]] && s == rs[i];
      if s.test == "" || healthy(s.test) {
        TotalSnoc(servers[..n], s);
        ghost var before := servers[..n];
        servers[n] := s;
        n := n + 1;
        sum := sum + s.weight;
        assert servers[..n] == before + [s];
      }
    }
    assert rs[..servers.Length] == rs;
  }

  /** One flag per server: is it within the final threshold? */
  method ChooseServers(servers: array<Record>, n: nat, max: nat, client: Client) returns (choose: array<bool>)
    requires max <= n <= servers.Length
    ensures fresh(choose) && choose.Length == n
    ensures var near := Nearby(client, C.FinalThreshold(Distances(client, servers[..n]), max));
            forall i :: 0 <= i < n ==> choose[i] == near(servers[i])
  {
    var distances := new C.Distance[n](i requires 0 <= i < n reads servers => DistanceTo(client, servers[i]));
    assert distances[..] == Distances(client, servers[..n]);
    choose := C.ChooseClosest(distances, max);
  }

  /** Keep only the chosen servers, in place, recomputing the total weight. */
  method KeepChosen(servers: array<Record>, n: nat, choose: array<bool>, ghost p: Record -> bool)
    returns (m: nat, sum: int)
    requires n <= servers.Length && choose.Length == n
    requires forall i :: 0 <= i < n ==> choose[i] == p(servers[i])
    modifies servers
    ensures m <= n
    ensures servers[..m] == Filter(old(servers[..n]), p)
    ensures sum == Total(servers[..m])
  {
    m, sum := 0, 0;
    ghost var rs := servers[..n];
    for i := 0 to n
      invariant m <= i && forall j :: i <= j < n ==> servers[j] == rs[j]
      invariant forall i :: 0 <= i < n ==> choose[i] == p(rs[i])
      invariant servers[..m] == Filter(rs[..i], p)
      invariant sum == Total(servers[..m])
    {
      var s := servers[i];
      FilterSnoc(rs[..i], rs[i], p);
      assert rs[..i + 1] == rs[..i] + [rs[i]] && s == rs[i];
      if choose[i] {
        TotalSnoc(servers[..m], s);
        ghost var before := servers[..m];
        servers[m] := s;
        m := m + 1;
        sum := sum + s.weight;
        assert servers[..m] == before + [s];
      }
    }
    assert rs[..n] == rs;
  }

  ghost function Prepend(before: seq<Record>, rest: Outcome<seq<Record>>): Outcome<seq<Record>> {
    if rest.Panic? then Panic else Value(before + rest.value)
  }

  lemma PrependNothing(r: Outcome<seq<Record>>)
    ensures Prepend([], r) == r
  {
    if r.Value? { assert [] + r.value == r.value; }
  }

  lemma DrawStep(before: seq<Record>, rs: seq<Record>, k: nat, rand: nat -> nat, si: nat, x: int,
                 drawn: Record, rest: seq<Record>)
    requires 0 < k <= |rs| && Total(rs) >= 0
    requires x == Intn(rand(si), Total(rs) + 1) && Select(rs, x) < |rs|
    requires drawn == rs[Select(rs, x)] && rest == Without(rs, Select(rs, x))
    ensures Total(rest) == Total(rs) - drawn.weight
    ensures Prepend(before, Draw(rs, k, rand, si)) == Prepend(before + [drawn], Draw(rest, k - 1, rand, si + 1))
  {
    TotalRemove(rs, Select(rs, x));
    var r := Draw(rest, k - 1, rand, si + 1);
    if r.Value? {
      assert before + ([drawn] + r.value) == before + [drawn] + r.value;
    }
  }

  lemma DrawStops(before: seq<Record>, rs: seq<Record>, k: nat, rand: nat -> nat, si: nat)
    requires k <= |rs|
    ensures k == 0 ==> Prepend(before, Draw(rs, k, rand, si)) == Value(before)
    ensures k > 0 && Total(rs) < 0 ==> Prepend(before, Draw(rs, k, rand, si)) == Panic
  {
    assert before + [] == before;
  }

  /** The scan of one draw: the first position whose running weight reaches `x`. */
  method Scan(servers: array<Record>, n: nat, x: int) returns (i: nat)
    requires n <= servers.Length
    ensures i == Select(servers[..n], x)
  {
    var s := 0;
    i := 0;
    while i < n
      invariant i <= n
      invariant Select(servers[..n], x) == i + Select(servers[i..n], x - s)
    {
      s := s + servers[i].weight;
      if s >= x {
        return;
      }
      assert servers[i..n][1..] == servers[i + 1..n];
      i := i + 1;
    }
  }

  /** One iteration of the draw loop: the drawn server is removed by shifting the rest down. */
  method DrawOne(servers: array<Record>, n: nat, sum: int, ghost k: nat, rand: nat -> nat, si: nat,
                 ghost before: seq<Record>)
    returns (drawn: Record, ghost rest: seq<Record>)
    requires 0 < k <= n <= servers.Length && 0 <= sum == Total(servers[..n])
    modifies servers
    ensures rest == servers[..n - 1]
    ensures Total(rest) == sum - drawn.weight
    ensures Prepend(before, Draw(old(servers[..n]), k, rand, si))
            == Prepend(before + [drawn], Draw(rest, k - 1, rand, si + 1))
  {
    ghost var rs := servers[..n];
    var x := Intn(rand(si), sum + 1);
    SelectTotal(rs, x);
    var i := Scan(servers, n, x);
    drawn := servers[i];
    RemoveAt(servers, n, i);
    rest := servers[..n - 1];
    DrawStep(before, rs, k, rand, si, x, drawn, rest);
  }

  /** The draw loop over the first `count` servers, whose weights add up to `total`. */
  method DrawServers(servers: array<Record>, count: nat, total: int, max: nat, rand: nat -> nat)
    returns (r: Outcome<seq<Record>>)
    requires max <= count <= servers.Length && total == Total(servers[..count])
    modifies servers
    ensures r == Draw(old(servers[..count]), max, rand, 0)
  {
    var n, sum := count, total;
    var result: seq<Record> := [];
    ghost var left := servers[..count];
    ghost var goal := Draw(left, max, rand, 0);
    PrependNothing(goal);
    for si := 0 to max
      invariant max - si <= n <= servers.Length && servers[..n] == left && sum == Total(left)
      invariant goal == Prepend(result, Draw(left, max - si, rand, si))
    {
      DrawStops(result, left, max - si, rand, si);
      if sum < 0 {
        return Panic;
      }
      var drawn;
      drawn, left := DrawOne(servers, n, sum, max - si, rand, si, result);
      n := n - 1;
      sum := sum - drawn.weight;
      result := result + [drawn];
    }
    DrawStops(result, left, 0, rand, max);
    r := Value(result);
  }

  /** `append(servers[:i], servers[i+1:]...)`. */
  method RemoveAt(servers: array<Record>, n: nat, i: nat)
    requires i < n <= servers.Length
    modifies servers
    ensures servers[..n - 1] == Without(old(servers[..n]), i)
  {
    forall j | i <= j < n - 1 {
      servers[j] := servers[j + 1];
    }
  }

  lemma {:induction false} PanicSticks(l: Label, types: seq<RRType>, k: nat, max: int, client: Option<Client>,
                                       healthy: string -> bool, rand: RRType -> nat -> nat)
    requires k <= |types| && PickAll(l, types[..k], max, client, healthy, rand).Panic?
    ensures PickAll(l, types, max, client, healthy, rand).Panic?
  {
    if k == |types| {
      assert types[..k] == types;
    } else {
      assert types[..|types| - 1][..k] == types[..k];
      PanicSticks(l, types[..|types| - 1], k, max, client, healthy, rand);
    }
  }

  /** The record lists of a label, as the arrays that all queries share. */
  ghost predicate Stores(l: Label, lists: map<RRType, array<Record>>)
    reads lists.Values
  {
    lists.Keys == l.records.Keys && forall t :: t in lists ==> lists[t][..] == l.records[t]
  }

  /**
   `Picker` for one record type. It works on a copy of the label's list `labelRR`, which
   no call changes; `labelRR` is null where the label has no list of that type.
   */
  method PickType(l: Label, labelRR: array?<Record>, qtype: RRType, maxHosts: int, client: Option<Client>,
                  healthy: string -> bool, rand: nat -> nat)
    returns (r: Outcome<seq<Record>>)
    requires Consistent(l)
    requires labelRR != null <==> qtype in l.records
    requires labelRR != null ==> labelRR[..] == l.records[qtype]
    ensures r == Pick(l, qtype, maxHosts, client, healthy, rand)
    ensures labelRR != null ==> labelRR[..] == l.records[qtype]
  {
    if labelRR == null {
      return Value([]);
    }
    var sum := WeightOf(l, qtype);
    var servers := new Record[labelRR.Length](i requires 0 <= i < labelRR.Length reads labelRR => labelRR[i]);
    var n := servers.Length;
    assert servers[..] == servers[..n] == labelRR[..];
    if l.tested {
      n, sum := FilterHealth(servers, healthy);
      if sum == 0 {
        return Value(servers[..n]);
      }
    }
    if WeightOf(l, qtype) == 0 {
      return Value(servers[..n]);
    }
    var max := maxHosts;
    if qtype == TYPE_CNAME || qtype == TYPE_MF {
      max := 1;
    }
    if max > n {
      max := n;
    }
    if max < 0 {
      return Panic;
    }
    CandidatesEnough(servers[..n], qtype, max, client);
    if client.Some? && (qtype == TYPE_A || qtype == TYPE_AAAA) && max < n {
      ghost var t := C.FinalThreshold(Distances(client.value, servers[..n]), max);
      var choose := ChooseServers(servers, n, max, client.value);
      n, sum := KeepChosen(servers, n, choose, Nearby(client.value, t));
    }
    r := DrawServers(servers, n, sum, max, rand);
  }

  /** `Picker`: the types of an ANY query are picked one by one and concatenated. */
  method Picker(l: Label, lists: map<RRType, array<Record>>, qtype: RRType, maxHosts: int, client: Option<Client>,
                healthy: string -> bool, rand: RRType -> nat -> nat, types: seq<RRType>)
    returns (r: Outcome<seq<Record>>)
    requires Consistent(l) && Stores(l, lists)
    requires Enumerates(types, l.records.Keys)
    ensures r == PickAny(l, qtype, maxHosts, client, healthy, rand, types)
    ensures Stores(l, lists)
  {
    if qtype != TYPE_ANY {
      r := PickType(l, if qtype in lists then lists[qtype] else null, qtype, maxHosts, client, healthy, rand(qtype));
      return;
    }
    var result: seq<Record> := [];
    for k := 0 to |types|
      invariant PickAll(l, types[..k], maxHosts, client, healthy, rand) == Value(result)
    {
      assert types[..k + 1][..k] == types[..k];
      assert types[k] in lists;
      var more := PickType(l, lists[types[k]], types[k], maxHosts, client, healthy, rand(types[k]));
      if more.Panic? {
        PanicSticks(l, types, k + 1, maxHosts, client, healthy, rand);
        return Panic;
      }
      result := result + more.value;
    }
    assert types[..|types|] == types;
    r := Value(result);
  }
}
