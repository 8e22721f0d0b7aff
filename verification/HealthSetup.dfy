/** `setupHealthTests`: which records of a zone are subject to which health test. */
module HealthSetup {
  import opened ZoneModel
  import opened Picker
  import opened PickerTheorems
  import Status

  /** The mail host in the text of an MX record, which starts with the preference. */
  function AfterSpace(s: string): (t: string) {
    if s == "" then "" else if s[0] == ' ' then s[1..] else AfterSpace(s[1..])
  }

  /** The test a record gets when it has none of its own: its address or mail host. */
  function TestOf(r: Record): (test: string) {
    if r.rr.rtype == TYPE_A || r.rr.rtype == TYPE_AAAA then r.rr.data
    else if r.rr.rtype == TYPE_MX then AfterSpace(r.rr.data)
    else ""
  }

  function WithTest(r: Record): (r': Record) {
    if r.test == "" then r.(test := TestOf(r)) else r
  }

  function ListWithTests(rs: seq<Record>): (s: seq<Record>)
    ensures |s| == |rs| && forall i :: 0 <= i < |rs| ==> s[i] == WithTest(rs[i])
  {
    seq(|rs|, i requires 0 <= i < |rs| => WithTest(rs[i]))
  }

  /** Only tested labels are touched. */
  ghost function LabelWithTests(l: Label): (l': Label) {
    if l.tested then l.(records := map t | t in l.records :: ListWithTests(l.records[t])) else l
  }

  ghost function WithTests(labels: LabelMap): (m: LabelMap) {
    map k | k in labels :: LabelWithTests(labels[k])
  }

  // ---------- the loops ----------

  method SetupList(rs: seq<Record>) returns (s: seq<Record>)
    ensures s == ListWithTests(rs)
  {
    s := [];
    for i := 0 to |rs|
      invariant s == ListWithTests(rs[..i])
    {
      var rec := rs[i];
      if |rec.test| == 0 {
        if rec.rr.rtype == TYPE_A || rec.rr.rtype == TYPE_AAAA {
          rec := rec.(test := rec.rr.data);
        } else if rec.rr.rtype == TYPE_MX {
          rec := rec.(test := AfterSpace(rec.rr.data));
        }
      }
      s := s + [rec];
    }
    assert rs[..|rs|] == rs;
  }

  method SetupLabel(l: Label) returns (l': Label)
    ensures l' == LabelWithTests(l)
  {
    if !l.tested {
      return l;
    }
    var records: map<RRType, seq<Record>> := map[];
    var todo := l.records.Keys;
    while todo != {}
      invariant todo <= l.records.Keys
      invariant records == map t | t in l.records && t !in todo :: ListWithTests(l.records[t])
      decreases |todo|
    {
      var t :| t in todo;
      var rs := SetupList(l.records[t]);
      todo := todo - {t};
      records := records[t := rs];
    }
    l' := l.(records := records);
  }

  method SetupHealthTests(labels: LabelMap) returns (m: LabelMap)
    ensures m == WithTests(labels)
  {
    m := map[];
    var todo := labels.Keys;
    while todo != {}
      invariant todo <= labels.Keys
      invariant m == map k | k in labels && k !in todo :: LabelWithTests(labels[k])
      decreases |todo|
    {
      var k :| k in todo;
      var l := SetupLabel(labels[k]);
      todo := todo - {k};
      m := m[k := l];
    }
  }

  // ---------- what it changes and what it keeps ----------

  /** Setting up the tests again changes nothing. */
  lemma SetupIdempotent(l: Label)
    ensures LabelWithTests(LabelWithTests(l)) == LabelWithTests(l)
  {
    forall r: Record ensures WithTest(WithTest(r)) == WithTest(r) {
    }
    forall t | t in l.records ensures ListWithTests(ListWithTests(l.records[t])) == ListWithTests(l.records[t]) {
    }
  }

  /**
   Afterwards every address and mail record of a tested label answers to a test: its own
   if it had one, and otherwise its address; so the health filter keeps exactly the healthy ones.
   */
  lemma AddressesAreTested(l: Label, t: RRType, healthy: string -> bool, x: Record)
    requires l.tested && t in l.records
    requires forall r :: r in l.records[t] ==> r.test != "" || TestOf(r) != ""
    ensures x in Servers(LabelWithTests(l), t, healthy) <==>
            exists r :: r in l.records[t] && x == WithTest(r) && healthy(if r.test != "" then r.test else TestOf(r))
  {
    var l' := LabelWithTests(l);
    var rs := l.records[t];
    ServersProperties(l', t, healthy);
    if x in l'.records[t] && Passes(healthy, x) {
      var i :| 0 <= i < |rs| && l'.records[t][i] == x;
      assert rs[i] in rs && x == WithTest(rs[i]);
    }
    if r :| r in rs && x == WithTest(r) && healthy(if r.test != "" then r.test else TestOf(r)) {
      var i :| 0 <= i < |rs| && rs[i] == r;
      assert l'.records[t][i] == x;
    }
  }

  lemma {:induction false} HostAfterSpace(preference: string, host: string)
    requires ' ' !in preference
    ensures AfterSpace(preference + " " + host) == host
  {
    var s := preference + " " + host;
    if preference == "" {
      assert s == " " + host && s[1..] == host;
    } else {
      assert s[0] == preference[0] && s[1..] == preference[1..] + " " + host;
      HostAfterSpace(preference[1..], host);
    }
  }

  /**
   On a tested label an address without a test is tested by its address and a mail record by
   its host; other records and other labels stay as they are.
   */
  lemma TestsWritten(l: Label, t: RRType, i: nat, preference: string, host: string)
    requires t in l.records && i < |l.records[t]| && ' ' !in preference
    ensures LabelWithTests(l).(records := l.records) == l && LabelWithTests(l).records.Keys == l.records.Keys
    ensures |LabelWithTests(l).records[t]| == |l.records[t]|
    ensures var r, r' := l.records[t][i], LabelWithTests(l).records[t][i];
            if l.tested && r.test == "" && (r.rr.rtype == 1 || r.rr.rtype == 28) then r' == r.(test := r.rr.data)
            else if l.tested && r.test == "" && r.rr.rtype == 15 then
              r'.(test := "") == r && (r.rr.data == preference + " " + host ==> r'.test == host)
            else r' == r
  {
    HostAfterSpace(preference, host);
  }

  /**
   The address that a record gets as test is no name of a check, so no source reports it
   healthy: on a tested label the records with a test of their own that passes are all
   that is left of a list of addresses.
   */
  lemma OnlyOwnTestsPass(l: Label, t: RRType, reg: Status.Registry, x: Record)
    requires l.tested && t in l.records
    requires forall r :: r in l.records[t] && r.test == "" ==> TestOf(r) != "" && '/' !in TestOf(r)
    ensures x in Servers(LabelWithTests(l), t, Status.Oracle(reg)) <==>
            x in l.records[t] && x.test != "" && Status.GetStatus(reg, x.test)
  {
    var healthy := Status.Oracle(reg);
    AddressesAreTested(l, t, healthy, x);
    forall r | r in l.records[t] && r.test == "" ensures !healthy(TestOf(r)) {
      Status.BareNameIsUnhealthy(reg, TestOf(r));
    }
    if x in l.records[t] && x.test != "" && healthy(x.test) {
      assert x == WithTest(x);
    }
  }

  lemma {:induction false} TotalWithTests(rs: seq<Record>)
    ensures Total(ListWithTests(rs)) == Total(rs)
  {
    if rs != [] {
      TotalWithTests(rs[1..]);
      assert ListWithTests(rs)[1..] == ListWithTests(rs[1..]);
    }
  }

  /** Weights and their order stay as they are. */
  lemma TestsKeepLoaded(l: Label)
    requires Loaded(l)
    ensures Loaded(LabelWithTests(l))
  {
    var l' := LabelWithTests(l);
    forall t | t in l'.records
      ensures && WeightOf(l', t) == Total(l'.records[t])
              && Descending(l'.records[t]) && NonNegative(l'.records[t])
              && (AlwaysWeighted(t) && l'.records[t] != [] ==> WeightOf(l', t) > 0)
    {
      TotalWithTests(l.records[t]);
    }
  }
}
