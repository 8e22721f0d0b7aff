/** The values a zone is made of: resource records, weighted records, labels. */
module ZoneModel {
  import opened Common

  type RRType = t: nat | t < 0x1_0000

  const TYPE_NONE: RRType := 0
  const TYPE_A: RRType := 1
  const TYPE_NS: RRType := 2
  const TYPE_MF: RRType := 4
  const TYPE_CNAME: RRType := 5
  const TYPE_SOA: RRType := 6
  const TYPE_MX: RRType := 15
  const TYPE_TXT: RRType := 16
  const TYPE_AAAA: RRType := 28
  const TYPE_ANY: RRType := 255

  /** `data` is the presentation form of the RDATA; for MF it is the alias target. */
  datatype RR = RR(name: string, rtype: RRType, ttl: nat, data: string)

  datatype Location = Location(latitude: real, longitude: real)

  /** `test` is the health test name, empty when the record has none. */
  datatype Record = Record(rr: RR, weight: int, loc: Option<Location>, test: string)

  /** `tested` says that a health test is configured on the label. */
  datatype Label = Label(
    name: string,
    maxHosts: int,
    ttl: int,
    records: map<RRType, seq<Record>>,
    weight: map<RRType, int>,
    closest: bool,
    tested: bool)

  type LabelMap = map<string, Label>

  /** Types that always honour max_hosts. */
  predicate AlwaysWeighted(t: RRType) {
    t == TYPE_A || t == TYPE_AAAA || t == TYPE_CNAME
  }

  /** Reading a missing key of `Label.Weight` yields 0. */
  function WeightOf(l: Label, t: RRType): (w: int) {
    if t in l.weight then l.weight[t] else 0
  }

  function Total(rs: seq<Record>): (w: int) {
    if rs == [] then 0 else rs[0].weight + Total(rs[1..])
  }

  ghost predicate Descending(rs: seq<Record>) {
    forall i, j :: 0 <= i < j < |rs| ==> rs[i].weight >= rs[j].weight
  }

  ghost predicate NonNegative(rs: seq<Record>) {
    forall i :: 0 <= i < |rs| ==> rs[i].weight >= 0
  }

  lemma {:induction false} TotalConcat(a: seq<Record>, b: seq<Record>)
    ensures Total(a + b) == Total(a) + Total(b)
  {
    if a == [] {
      assert a + b == b;
    } else {
      assert (a + b)[1..] == a[1..] + b;
      TotalConcat(a[1..], b);
    }
  }

  lemma TotalSnoc(a: seq<Record>, r: Record)
    ensures Total(a + [r]) == Total(a) + r.weight
  {
    TotalConcat(a, [r]);
  }

  /** Removing position `i` removes exactly that record's weight. */
  lemma TotalRemove(rs: seq<Record>, i: nat)
    requires i < |rs|
    ensures Total(rs[..i] + rs[i + 1..]) == Total(rs) - rs[i].weight
  {
    assert rs == rs[..i] + ([rs[i]] + rs[i + 1..]);
    TotalConcat(rs[..i], [rs[i]] + rs[i + 1..]);
    TotalConcat([rs[i]], rs[i + 1..]);
    TotalConcat(rs[..i], rs[i + 1..]);
  }

  lemma {:induction false} TotalNonNegative(rs: seq<Record>)
    requires NonNegative(rs)
    ensures Total(rs) >= 0
    ensures forall i :: 0 <= i < |rs| ==> rs[i].weight <= Total(rs)
  {
    if rs != [] {
      TotalNonNegative(rs[1..]);
      forall i | 0 <= i < |rs| ensures rs[i].weight <= Total(rs) {
        if i > 0 { assert rs[i] == rs[1..][i - 1]; }
      }
    }
  }

  lemma MultisetRemove<T>(s: seq<T>, i: nat)
    requires i < |s|
    ensures multiset(s) == multiset(s[..i] + s[i + 1..]) + multiset{s[i]}
  {
    assert s == s[..i] + ([s[i]] + s[i + 1..]);
  }

  /** The total depends only on which records there are, not on their order. */
  lemma {:induction false} TotalPermutation(a: seq<Record>, b: seq<Record>)
    requires multiset(a) == multiset(b)
    ensures Total(a) == Total(b)
    decreases |a|
  {
    assert |multiset(a)| == |a| && |multiset(b)| == |b|;
    if a != [] {
      var r := a[0];
      assert r in multiset(b);
      var i :| 0 <= i < |b| && b[i] == r;
      assert a == [r] + a[1..];
      MultisetRemove(b, i);
      assert multiset(a[1..]) == multiset(a) - multiset{r};
      TotalPermutation(a[1..], b[..i] + b[i + 1..]);
      TotalRemove(b, i);
    }
  }
}
