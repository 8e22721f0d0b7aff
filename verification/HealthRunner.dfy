/** `HealthTestRunner`: reference-counted health test instances, one per distinct test. */
module HealthRunner {
  import opened HealthProtocol

  /** `HealthTest.String()`: tests with equal keys are the same test. */
  datatype Key = Key(ip: string, params: Params, global: bool, tester: string)

  /** A running instance; `failCount` is the run loop's own counter. */
  datatype Entry = Entry(id: nat, references: set<string>, failCount: nat, healthy: bool)

  /** What happens to instances; each started instance has its own number. */
  datatype Event =
    | Started(id: nat, key: Key, initial: bool)
    | Polled(id: nat, key: Key, result: bool)
    | Stopped(id: nat, key: Key)

  datatype Op = AddRef(key: Key, ref: string) | RemoveRef(key: Key, ref: string) | RefAll(ref: string, add: bool)

  class HealthTest {
    const ip: string
    const params: Params
    const global: bool
    const tester: string
    var healthy: bool

    constructor (ip: string, params: Params, global: bool, tester: string)
      ensures this.ip == ip && this.params == Clamp(params) && this.global == global && this.tester == tester
      ensures healthy == params.healthyInitially
    {
      this.ip, this.params, this.global, this.tester := ip, Clamp(params), global, tester;
      healthy := params.healthyInitially;
    }

    /** Global tests leave the address out, so that one instance serves all addresses. */
    function KeyOf(): (k: Key) {
      Key(if global then "" else ip, params, global, tester)
    }
  }

  /**
   Two tests are one exactly when they agree in scope, parameters and tester and, unless
   they are global, in address.
   */
  ghost predicate OneTest(a: HealthTest, b: HealthTest) {
    a.global == b.global && a.params == b.params && a.tester == b.tester && (a.global || a.ip == b.ip)
  }

  lemma SameKeyIff(a: HealthTest, b: HealthTest)
    ensures a.KeyOf() == b.KeyOf() <==> OneTest(a, b)
  {
  }

  // ---------- what the references mean ----------

  /** What one operation does to the users of the test `k`. */
  function UsersAfter(before: set<string>, k: Key, op: Op): (refs: set<string>) {
    match op
    case AddRef(k', r) => if k' == k then before + {r} else before
    case RemoveRef(k', r) => if k' == k then before - {r} else before
    case RefAll(r, add) =>
      if !k.global then before
      else if !add then before - {r}
      else if before == {} then {} else before + {r}
  }

  /** The users of the test `k` after a history of operations. */
  ghost function Users(ops: seq<Op>, k: Key): (refs: set<string>) {
    if ops == [] then {} else UsersAfter(Users(ops[..|ops| - 1], k), k, ops[|ops| - 1])
  }

  lemma UsersStep(ops: seq<Op>, op: Op)
    ensures forall k :: Users(ops + [op], k) == UsersAfter(Users(ops, k), k, op)
  {
    assert (ops + [op])[..|ops|] == ops;
  }

  // ---------- what a log of starts and stops must satisfy ----------

  /** The instance running for `k` after the events of `log`. */
  ghost function Running(log: seq<Event>, k: Key): (ids: set<nat>) {
    if log == [] then {}
    else
      var before := Running(log[..|log| - 1], k);
      match log[|log| - 1]
      case Started(id, k', _) => if k' == k then before + {id} else before
      case Polled(_, _, _) => before
      case Stopped(id, k') => if k' == k then before - {id} else before
  }

  ghost function StartedIds(log: seq<Event>): (ids: set<nat>) {
    set i | 0 <= i < |log| && log[i].Started? :: log[i].id
  }

  /** Instances start under a new number when none runs for their key, and poll and stop while they run. */
  ghost predicate LogOk(log: seq<Event>) {
    log == [] ||
    (var before := log[..|log| - 1];
     && LogOk(before)
     && match log[|log| - 1]
        case Started(id, k, _) => id !in StartedIds(before) && Running(before, k) == {}
        case Polled(id, k, _) => id in Running(before, k)
        case Stopped(id, k) => id in Running(before, k))
  }

  lemma StartStep(log: seq<Event>, id: nat, k: Key, initial: bool)
    requires LogOk(log) && id !in StartedIds(log) && Running(log, k) == {}
    ensures var log' := log + [Started(id, k, initial)];
            && LogOk(log') && StartedIds(log') == StartedIds(log) + {id}
            && forall x :: Running(log', x) == if x == k then {id} else Running(log, x)
  {
    var log' := log + [Started(id, k, initial)];
    assert log'[..|log|] == log;
    assert log'[|log|].id == id;
    forall x ensures x in StartedIds(log') <==> x in StartedIds(log) + {id} {
      if x in StartedIds(log) {
        var i :| 0 <= i < |log| && log[i].Started? && log[i].id == x;
        assert log'[i].id == x;
      }
    }
  }

  lemma PollStep(log: seq<Event>, id: nat, k: Key, result: bool)
    requires LogOk(log) && id in Running(log, k)
    ensures var log' := log + [Polled(id, k, result)];
            && LogOk(log') && StartedIds(log') == StartedIds(log)
            && forall x :: Running(log', x) == Running(log, x)
  {
    var log' := log + [Polled(id, k, result)];
    assert log'[..|log|] == log;
    forall x ensures x in StartedIds(log') <==> x in StartedIds(log) {
      if x in StartedIds(log) {
        var i :| 0 <= i < |log| && log[i].Started? && log[i].id == x;
        assert log'[i].id == x;
      }
    }
  }

  lemma StopStep(log: seq<Event>, id: nat, k: Key)
    requires LogOk(log) && Running(log, k) == {id}
    ensures var log' := log + [Stopped(id, k)];
            && LogOk(log') && StartedIds(log') == StartedIds(log)
            && forall x :: Running(log', x) == if x == k then {} else Running(log, x)
  {
    var log' := log + [Stopped(id, k)];
    assert log'[..|log|] == log;
    forall x ensures x in StartedIds(log') <==> x in StartedIds(log) {
      if x in StartedIds(log) {
        var i :| 0 <= i < |log| && log[i].Started? && log[i].id == x;
        assert log'[i].id == x;
      }
    }
  }

  lemma {:induction false} RunningWereStarted(log: seq<Event>, k: Key)
    ensures Running(log, k) <= StartedIds(log)
  {
    if log != [] {
      var n := |log| - 1;
      RunningWereStarted(log[..n], k);
      assert forall i :: 0 <= i < n ==> log[..n][i] == log[i];
      assert StartedIds(log[..n]) <= StartedIds(log);
      if log[n].Started? { assert log[n].id in StartedIds(log); }
    }
  }

  /** There is never more than one instance for a key, and no instance serves two keys. */
  lemma {:induction false} OneInstancePerKey(log: seq<Event>, k: Key, k': Key)
    requires LogOk(log)
    ensures |Running(log, k)| <= 1
    ensures k != k' ==> Running(log, k) !! Running(log, k')
  {
    if log != [] {
      var before := log[..|log| - 1];
      OneInstancePerKey(before, k, k');
      OneInstancePerKey(before, k', k);
      RunningWereStarted(before, k);
      RunningWereStarted(before, k');
      match log[|log| - 1]
      case Started(id, x, _) =>
      case Polled(_, _, _) =>
      case Stopped(id, x) =>
        assert Running(log, k) <= Running(before, k);
        if Running(before, k) == {} {
        } else {
          var y :| y in Running(before, k);
          assert Running(before, k) == {y} by { Singleton(Running(before, k), y); }
        }
    }
  }

  lemma Singleton<T>(s: set<T>, x: T)
    requires x in s && |s| <= 1
    ensures s == {x}
  {
    assert |s - {x}| == |s| - 1;
  }

  /** A number that has been stopped, or never started, does not run for any key later on. */
  lemma {:induction false} StoppedForGood(log: seq<Event>, i: nat, n: nat, k: Key)
    requires LogOk(log) && i < n <= |log| && log[i].Stopped?
    ensures log[i].id !in Running(log[..n], k)
    ensures log[i].id in StartedIds(log[..n])
    decreases n
  {
    PrefixOk(log, n);
    var id := log[i].id;
    var pre := log[..n - 1];
    assert log[..n][..n - 1] == pre;
    PrefixOk(log, n - 1);
    if i == n - 1 {
      var k0 := log[i].key;
      assert id in Running(pre, k0);
      RunningWereStarted(pre, k0);
      if k != k0 { OneInstancePerKey(pre, k, k0); }
      StartedGrow(log, n - 1, n);
    } else {
      StoppedForGood(log, i, n - 1, k);
      StartedGrow(log, n - 1, n);
    }
  }

  lemma StartedGrow(log: seq<Event>, m: nat, n: nat)
    requires m <= n <= |log|
    ensures StartedIds(log[..m]) <= StartedIds(log[..n])
  {
    forall x | x in StartedIds(log[..m]) ensures x in StartedIds(log[..n]) {
      var i :| 0 <= i < m && log[..m][i].Started? && log[..m][i].id == x;
      assert log[..n][i] == log[..m][i];
    }
  }

  lemma {:induction false} PrefixOk(log: seq<Event>, n: nat)
    requires LogOk(log) && n <= |log|
    ensures LogOk(log[..n])
  {
    if n == |log| {
      assert log[..n] == log;
    } else {
      assert log[..|log| - 1][..n] == log[..n];
      PrefixOk(log[..|log| - 1], n);
    }
  }

  /** Each started instance is stopped at most once. */
  lemma StoppedAtMostOnce(log: seq<Event>, i: nat, j: nat)
    requires LogOk(log) && i < j < |log| && log[i].Stopped? && log[j].Stopped?
    ensures log[i].id != log[j].id
  {
    StoppedForGood(log, i, j, log[j].key);
    PrefixOk(log, j + 1);
    assert log[..j + 1][..j] == log[..j];
  }

  // ---------- the health of an instance ----------

  /** The results that the polls of instance `id` have delivered since it was started. */
  ghost function ResultsOf(log: seq<Event>, id: nat): (rs: seq<bool>) {
    if log == [] then []
    else
      var before := ResultsOf(log[..|log| - 1], id);
      match log[|log| - 1]
      case Started(i, _, _) => if i == id then [] else before
      case Polled(i, _, r) => if i == id then before + [r] else before
      case Stopped(_, _) => before
  }

  /** The health that instance `id` was started with. */
  ghost function InitialOf(log: seq<Event>, id: nat): (h: bool) {
    if log == [] then false
    else if log[|log| - 1].Started? && log[|log| - 1].id == id then log[|log| - 1].initial
    else InitialOf(log[..|log| - 1], id)
  }

  /** The verdict on the results of instance `id` of the test `k`. */
  ghost function HealthOf(log: seq<Event>, k: Key, id: nat): (h: bool) {
    Verdict(k.params, InitialOf(log, id), ResultsOf(log, id))
  }

  lemma HistoryStep(log: seq<Event>, e: Event, id: nat)
    ensures ResultsOf(log + [e], id) ==
            if e.id != id || e.Stopped? then ResultsOf(log, id)
            else if e.Started? then [] else ResultsOf(log, id) + [e.result]
    ensures InitialOf(log + [e], id) == if e.Started? && e.id == id then e.initial else InitialOf(log, id)
  {
    assert (log + [e])[..|log|] == log;
  }

  /** The instance of `k` knows its failures in a row and its health. */
  ghost predicate KnowsHealth(m: map<Key, Entry>, log: seq<Event>, k: Key)
    requires k in m
  {
    Judges(k.params, InitialOf(log, m[k].id), m[k].failCount, m[k].healthy, ResultsOf(log, m[k].id))
  }

  ghost predicate AllKnowHealth(m: map<Key, Entry>, log: seq<Event>) {
    forall k :: k in m ==> KnowsHealth(m, log, k)
  }

  /** What the run loop does with a result, on the entry. */
  function AfterPoll(e: Entry, p: Params, h: bool): (e': Entry) {
    var fails := if h then 0 else e.failCount + 1;
    e.(failCount := fails, healthy := if h then true else if fails >= p.retries then false else e.healthy)
  }

  /** This is what the run loop of the protocol does to its own counter and health. */
  lemma PollIsRunLoop(e: Entry, p: Params, s: State, h: bool)
    requires e.failCount == s.failCount && e.healthy == s.healthy
    ensures AfterPoll(e, p, h).failCount == AfterResult(p, s, h).failCount
    ensures AfterPoll(e, p, h).healthy == AfterResult(p, s, h).healthy
  {
  }

  /** A new instance knows its health, and no other instance is affected. */
  lemma StartKeepsHealth(m: map<Key, Entry>, log: seq<Event>, id: nat, key: Key, refs: set<string>, h: bool)
    requires AllKnowHealth(m, log) && key !in m && forall k :: k in m ==> m[k].id != id
    ensures AllKnowHealth(m[key := Entry(id, refs, 0, h)], log + [Started(id, key, h)])
  {
    var m', log' := m[key := Entry(id, refs, 0, h)], log + [Started(id, key, h)];
    forall k | k in m' ensures KnowsHealth(m', log', k) {
      HistoryStep(log, Started(id, key, h), m'[k].id);
      if k != key { assert KnowsHealth(m, log, k); }
    }
  }

  lemma PollKeepsHealth(m: map<Key, Entry>, log: seq<Event>, key: Key, h: bool)
    requires AllKnowHealth(m, log) && key in m && forall k :: k in m && k != key ==> m[k].id != m[key].id
    ensures AllKnowHealth(m[key := AfterPoll(m[key], key.params, h)], log + [Polled(m[key].id, key, h)])
  {
    var id := m[key].id;
    var m', log' := m[key := AfterPoll(m[key], key.params, h)], log + [Polled(id, key, h)];
    forall k | k in m' ensures KnowsHealth(m', log', k) {
      HistoryStep(log, Polled(id, key, h), m'[k].id);
      assert KnowsHealth(m, log, k);
      if k == key { VerdictStep(k.params, InitialOf(log, id), ResultsOf(log, id), h); }
    }
  }

  /** Neither a stop nor a change of users affects any health. */
  lemma UsersKeepHealth(m: map<Key, Entry>, m': map<Key, Entry>, log: seq<Event>, log': seq<Event>)
    requires AllKnowHealth(m, log) && forall k :: k in m' ==> k in m && SameTest(m'[k], m[k])
    requires log' == log || (|log'| == |log| + 1 && log'[..|log|] == log && log'[|log|].Stopped?)
    ensures AllKnowHealth(m', log')
  {
    forall k | k in m' ensures KnowsHealth(m', log', k) {
      assert KnowsHealth(m, log, k);
    }
  }

  /** The entries are the tests that have users, with exactly those users. */
  ghost predicate Tracks(m: map<Key, Entry>, ops: seq<Op>) {
    && (forall k :: k in m <==> Users(ops, k) != {})
    && forall k :: k in m ==> m[k].references == Users(ops, k)
  }

  /** An operation on one key changes the users of that key only. */
  lemma TracksOne(m: map<Key, Entry>, m': map<Key, Entry>, ops: seq<Op>, op: Op)
    requires Tracks(m, ops) && !op.RefAll?
    requires forall k :: k != op.key ==> (k in m' <==> k in m) && (k in m ==> m'[k] == m[k])
    requires var users := UsersAfter(Users(ops, op.key), op.key, op);
             if users == {} then op.key !in m' else op.key in m' && m'[op.key].references == users
    ensures Tracks(m', ops + [op])
  {
    UsersStep(ops, op);
    forall k ensures k in m' <==> Users(ops + [op], k) != {} {
      assert Users(ops + [op], k) == UsersAfter(Users(ops, k), k, op);
    }
  }

  /** The log agrees with the entries. */
  ghost predicate Logged(m: map<Key, Entry>, log: seq<Event>, nextId: nat) {
    && LogOk(log)
    && (forall id :: id in StartedIds(log) ==> id < nextId)
    && (forall k :: Running(log, k) == if k in m then {m[k].id} else {})
    && AllKnowHealth(m, log)
  }

  /** Running instances have different numbers, all below the next. */
  lemma NumbersDiffer(m: map<Key, Entry>, log: seq<Event>, nextId: nat)
    requires Logged(m, log, nextId)
    ensures forall k :: k in m ==> m[k].id < nextId
    ensures forall k, k' :: k in m && k' in m && k != k' ==> m[k].id != m[k'].id
  {
    forall k | k in m ensures m[k].id < nextId {
      RunningWereStarted(log, k);
      assert m[k].id in Running(log, k);
    }
    forall k, k' | k in m && k' in m && k != k' ensures m[k].id != m[k'].id {
      OneInstancePerKey(log, k, k');
      assert m[k].id in Running(log, k) && m[k'].id in Running(log, k');
    }
  }

  /** Only the users differ. */
  predicate SameTest(a: Entry, b: Entry) {
    a == b.(references := a.references)
  }

  /** What dropping a reference adds to the log: a stop if it was the last one. */
  function StopIf(m: map<Key, Entry>, key: Key, ref: string): (es: seq<Event>)
    requires key in m
  {
    if m[key].references - {ref} == {} then [Stopped(m[key].id, key)] else []
  }

  ghost predicate OnlyStops(before: seq<Event>, after: seq<Event>) {
    before <= after && forall i :: |before| <= i < |after| ==> after[i].Stopped?
  }

  class HealthTestRunner {
    var entries: map<Key, Entry>
    /** Numbers handed out to instances. */
    var nextId: nat
    ghost var ops: seq<Op>
    ghost var log: seq<Event>

    /** An instance runs for a key exactly while the key has users, and its entry knows both. */
    ghost predicate Valid()
      reads this
    {
      Logged(entries, log, nextId) && Tracks(entries, ops)
    }

    constructor ()
      ensures Valid() && ops == [] && entries == map[]
    {
      entries, nextId, ops, log := map[], 0, [], [];
    }

    /** Starts an instance for a key that has none. */
    method StartInstance(key: Key, ref: string, healthy: bool)
      requires key !in entries && Logged(entries, log, nextId)
      modifies this`entries, this`nextId, this`log
      ensures Logged(entries, log, nextId)
      ensures entries == old(entries)[key := Entry(old(nextId), {ref}, 0, healthy)]
      ensures log == old(log) + [Started(old(nextId), key, healthy)]
    {
      NumbersDiffer(entries, log, nextId);
      StartStep(log, nextId, key, healthy);
      StartKeepsHealth(entries, log, nextId, key, {ref}, healthy);
      log := log + [Started(nextId, key, healthy)];
      entries := entries[key := Entry(nextId, {ref}, 0, healthy)];
      nextId := nextId + 1;
    }

    method AddTest(ht: HealthTest, ref: string)
      requires Valid()
      modifies this
      ensures Valid() && ops == old(ops) + [AddRef(ht.KeyOf(), ref)]
      ensures log == old(log) + (if ht.KeyOf() in old(entries) then []
                                 else [Started(old(nextId), ht.KeyOf(), ht.healthy)])
      ensures forall k :: k in old(entries) ==> k in entries && SameTest(entries[k], old(entries)[k])
    {
      var key := ht.KeyOf();
      TracksAdded(entries, ops, key, ref, Entry(nextId, {}, 0, ht.healthy));
      if key in entries {
        AddReference(key, ref);
      } else {
        StartInstance(key, ref, ht.healthy);
      }
      ops := ops + [AddRef(key, ref)];
    }

    method AddReference(key: Key, ref: string)
      requires key in entries && Logged(entries, log, nextId)
      modifies this`entries
      ensures Logged(entries, log, nextId)
      ensures entries == WithUser(old(entries), key, ref, old(entries)[key])
    {
      var t := entries[key];
      UsersKeepHealth(entries, entries[key := t.(references := t.references + {ref})], log, log);
      entries := entries[key := t.(references := t.references + {ref})];
    }

    /** Drops a reference; an instance without references is stopped and forgotten. */
    method Release(key: Key, ref: string)
      requires key in entries && Logged(entries, log, nextId)
      modifies this`entries, this`log
      ensures Logged(entries, log, nextId)
      ensures log == old(log) + StopIf(old(entries), key, ref)
      ensures entries == WithUsers(old(entries), key, old(entries)[key].references - {ref})
    {
      var t := entries[key];
      var left := t.references - {ref};
      if left == {} {
        StopStep(log, t.id, key);
        UsersKeepHealth(entries, entries - {key}, log, log + [Stopped(t.id, key)]);
        log := log + [Stopped(t.id, key)];
        entries := entries - {key};
      } else {
        UsersKeepHealth(entries, entries[key := t.(references := left)], log, log);
        entries := entries[key := t.(references := left)];
      }
    }

    /** The run loop of a running instance takes in a poll result, between two calls of the runner. */
    method TakeResult(key: Key, h: bool)
      requires Valid() && key in entries
      modifies this`entries, this`log
      ensures Valid() && log == old(log) + [Polled(old(entries)[key].id, key, h)]
      ensures entries == old(entries)[key := AfterPoll(old(entries)[key], key.params, h)]
    {
      var t := entries[key];
      NumbersDiffer(entries, log, nextId);
      PollStep(log, t.id, key, h);
      PollKeepsHealth(entries, log, key, h);
      log := log + [Polled(t.id, key, h)];
      entries := entries[key := AfterPoll(t, key.params, h)];
    }

    method RemoveTest(ht: HealthTest, ref: string)
      requires Valid()
      modifies this, ht`healthy
      ensures Valid() && ops == old(ops) + [RemoveRef(ht.KeyOf(), ref)]
      ensures log == old(log) + (if ht.KeyOf() in old(entries) then StopIf(old(entries), ht.KeyOf(), ref) else [])
      ensures ht.healthy == old(if ht.KeyOf() in entries
                                then HealthOf(log, ht.KeyOf(), entries[ht.KeyOf()].id) else ht.healthy)
      ensures forall k :: k in entries ==> k in old(entries) && SameTest(entries[k], old(entries)[k])
    {
      var key := ht.KeyOf();
      TracksRemoved(entries, ops, key, ref);
      if key in entries {
        assert KnowsHealth(entries, log, key);
        ht.healthy := entries[key].healthy;
        Release(key, ref);
      }
      ops := ops + [RemoveRef(key, ref)];
    }

    /** One round of `refAllGlobalHealthChecks`. */
    method RefOne(key: Key, ref: string, add: bool)
      requires key in entries && entries[key].references != {} && Logged(entries, log, nextId)
      modifies this`entries, this`log
      ensures Logged(entries, log, nextId)
      ensures OnlyStops(old(log), log) && (add ==> log == old(log))
      ensures entries == WithUsers(old(entries), key, UsersAfter(old(entries)[key].references, key, RefAll(ref, add)))
    {
      if key.global {
        if add {
          AddReference(key, ref);
        } else {
          Release(key, ref);
        }
      }
    }

    method RefAllGlobalHealthChecks(ref: string, add: bool)
      requires Valid()
      modifies this
      ensures Valid() && ops == old(ops) + [RefAll(ref, add)]
      ensures OnlyStops(old(log), log) && (add ==> log == old(log))
      ensures forall k :: k in entries ==> k in old(entries) && SameTest(entries[k], old(entries)[k])
    {
      ghost var op := RefAll(ref, add);
      ghost var before := entries;
      var todo := entries.Keys;
      SweepNothing(before, op);
      while todo != {}
        invariant todo <= before.Keys
        invariant Logged(entries, log, nextId) && ops == old(ops)
        invariant OnlyStops(old(log), log) && (add ==> log == old(log))
        invariant entries == Swept(before, todo, op)
        decreases |todo|
      {
        var key :| key in todo;
        SweepStep(before, todo, key, op);
        todo := todo - {key};
        RefOne(key, ref, add);
      }
      SweptAll(before, ops, op);
      ops := ops + [op];
    }
  }

  /** The entry of `key` with new users; no entry when there are none. */
  function WithUsers(m: map<Key, Entry>, key: Key, users: set<string>): (m': map<Key, Entry>)
    requires key in m
  {
    if users == {} then m - {key} else m[key := m[key].(references := users)]
  }

  /** Adding two tests to an empty runner starts two instances, unless they are one test. */
  method AddTwo(a: HealthTest, b: HealthTest, refA: string, refB: string) returns (instances: nat)
    ensures instances == if OneTest(a, b) then 1 else 2
  {
    SameKeyIff(a, b);
    var runner := new HealthTestRunner();
    runner.AddTest(a, refA);
    runner.AddTest(b, refB);
    TwoEntries(runner.entries, runner.ops, a.KeyOf(), refA, b.KeyOf(), refB);
    instances := |runner.entries|;
  }

  lemma TwoEntries(m: map<Key, Entry>, ops: seq<Op>, k: Key, ref: string, k': Key, ref': string)
    requires Tracks(m, ops) && ops == [AddRef(k, ref), AddRef(k', ref')]
    ensures |m| == if k == k' then 1 else 2
  {
    TwoUsers(k, ref, k', ref');
    assert m.Keys == {k, k'};
    assert |m| == |m.Keys|;
  }

  lemma TwoUsers(k: Key, ref: string, k': Key, ref': string)
    ensures forall x :: Users([AddRef(k, ref), AddRef(k', ref')], x) != {} <==> x == k || x == k'
  {
    assert [AddRef(k, ref), AddRef(k', ref')] == [] + [AddRef(k, ref)] + [AddRef(k', ref')];
    UsersStep([], AddRef(k, ref));
    UsersStep([] + [AddRef(k, ref)], AddRef(k', ref'));
  }

  // ---------- who the users are ----------

  /** Operation `i` makes `r` a user of `k`; a sweep adds only to global tests in use. */
  ghost predicate Adds(ops: seq<Op>, i: nat, k: Key, r: string)
    requires i < |ops|
  {
    || ops[i] == AddRef(k, r)
    || (ops[i] == RefAll(r, true) && k.global && Users(ops[..i], k) != {})
  }

  predicate Removes(op: Op, k: Key, r: string) {
    op == RemoveRef(k, r) || (op == RefAll(r, false) && k.global)
  }

  ghost predicate AddedForGood(ops: seq<Op>, i: nat, k: Key, r: string)
    requires i < |ops|
  {
    Adds(ops, i, k, r) && forall j :: i < j < |ops| ==> !Removes(ops[j], k, r)
  }

  /** The users of a test are those whose last reference has not been taken back. */
  lemma {:induction false} UserIff(ops: seq<Op>, k: Key, r: string)
    ensures r in Users(ops, k) <==> exists i: nat :: i < |ops| && AddedForGood(ops, i, k, r)
  {
    if ops != [] {
      var n := |ops| - 1;
      var pre := ops[..n];
      UserIff(pre, k, r);
      if r in Users(ops, k) {
        if Adds(ops, n, k, r) {
          assert AddedForGood(ops, n, k, r);
        } else {
          var i: nat :| i < |pre| && AddedForGood(pre, i, k, r);
          assert pre[..i] == ops[..i] && pre[i] == ops[i];
          assert forall j :: i < j < n ==> ops[j] == pre[j];
          assert AddedForGood(ops, i, k, r);
        }
      } else if i: nat :| i < |ops| && AddedForGood(ops, i, k, r) {
        if i < n {
          assert pre[..i] == ops[..i] && pre[i] == ops[i];
          assert forall j :: i < j < n ==> ops[j] == pre[j];
          assert AddedForGood(pre, i, k, r);
        }
      }
    }
  }

  /** One more user of the test `key`, whose entry is `e` if it has none yet. */
  function WithUser(m: map<Key, Entry>, key: Key, ref: string, e: Entry): (m': map<Key, Entry>) {
    var t := if key in m then m[key] else e;
    m[key := t.(references := t.references + {ref})]
  }

  lemma TracksAdded(m: map<Key, Entry>, ops: seq<Op>, key: Key, ref: string, e: Entry)
    requires Tracks(m, ops) && e.references == {}
    ensures Tracks(WithUser(m, key, ref, e), ops + [AddRef(key, ref)])
    ensures forall k :: k in m ==> SameTest(WithUser(m, key, ref, e)[k], m[k])
  {
    TracksOne(m, WithUser(m, key, ref, e), ops, AddRef(key, ref));
  }

  lemma TracksRemoved(m: map<Key, Entry>, ops: seq<Op>, key: Key, ref: string)
    requires Tracks(m, ops)
    ensures var m' := if key in m then WithUsers(m, key, m[key].references - {ref}) else m;
            Tracks(m', ops + [RemoveRef(key, ref)]) && forall k :: k in m' ==> k in m && SameTest(m'[k], m[k])
  {
    var m' := if key in m then WithUsers(m, key, m[key].references - {ref}) else m;
    TracksOne(m, m', ops, RemoveRef(key, ref));
  }

  /** The entries once all keys but those in `todo` have seen the operation. */
  ghost function Swept(m: map<Key, Entry>, todo: set<Key>, op: Op): (m': map<Key, Entry>) {
    map k | k in m && (k in todo || UsersAfter(m[k].references, k, op) != {})
      :: if k in todo then m[k] else m[k].(references := UsersAfter(m[k].references, k, op))
  }

  lemma SweepNothing(m: map<Key, Entry>, op: Op)
    ensures Swept(m, m.Keys, op) == m
  {
  }

  lemma SweepStep(m: map<Key, Entry>, todo: set<Key>, key: Key, op: Op)
    requires key in m && key in todo
    ensures key in Swept(m, todo, op) && Swept(m, todo, op)[key] == m[key]
    ensures Swept(m, todo - {key}, op)
            == WithUsers(Swept(m, todo, op), key, UsersAfter(m[key].references, key, op))
  {
  }

  lemma SweptAll(m: map<Key, Entry>, ops: seq<Op>, op: Op)
    requires Tracks(m, ops) && op.RefAll?
    ensures Tracks(Swept(m, {}, op), ops + [op])
    ensures forall k :: k in Swept(m, {}, op) ==> k in m && SameTest(Swept(m, {}, op)[k], m[k])
  {
    UsersStep(ops, op);
    var m' := Swept(m, {}, op);
    forall k ensures k in m' <==> Users(ops + [op], k) != {} {
      assert Users(ops + [op], k) == UsersAfter(Users(ops, k), k, op);
    }
  }
}
