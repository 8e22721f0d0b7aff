/**
 The weighted draw without replacement at the end of `Picker`, on lists of any
 integer weights. `rand(k)` is an oracle for the k-th random number: every sequence
 of values `rand.Intn(sum + 1)` can return is produced by some oracle, so a claim
 for all oracles is a claim for all draw sequences.
 */
module WeightedDraw {
  import opened Common
  import opened ZoneModel

  /** First position whose running weight total reaches `n`; `|rs|` if there is none. */
  function Select(rs: seq<Record>, n: int): (i: nat)
    ensures i <= |rs|
  {
    if rs == [] then 0
    else if rs[0].weight >= n then 0
    else 1 + Select(rs[1..], n - rs[0].weight)
  }

  function Without(rs: seq<Record>, i: nat): (s: seq<Record>)
    requires i < |rs|
  {
    rs[..i] + rs[i + 1..]
  }

  /** `rand.Intn(n)`: the oracle's number where it is in range; Go panics when `n` is not positive. */
  function Intn(raw: nat, n: int): (v: int)
    requires n > 0
    ensures 0 <= v < n && (raw < n ==> v == raw)
  {
    if raw < n then raw else 0
  }

  /**
   `k` draws without replacement from `rs`, random numbers taken from `rand`
   starting at `si`. The running sum is the total of what is left.
   */
  function Draw(rs: seq<Record>, k: nat, rand: nat -> nat, si: nat): (r: Outcome<seq<Record>>)
    requires k <= |rs|
    decreases k
  {
    if k == 0 then Value([])
    else if Total(rs) < 0 then Panic
    else
      var n := Intn(rand(si), Total(rs) + 1);
      SelectTotal(rs, n);
      var i := Select(rs, n);
      match Draw(Without(rs, i), k - 1, rand, si + 1)
      case Panic => Panic
      case Value(rest) => Value([rs[i]] + rest)
  }

  // ---------- one draw ----------

  /** `Select` is the least position at which the running total reaches `n`. */
  lemma {:induction false} SelectIsFirst(rs: seq<Record>, n: int)
    ensures var i := Select(rs, n);
            && (i < |rs| ==> Total(rs[..i + 1]) >= n)
            && forall j :: 0 < j <= i ==> Total(rs[..j]) < n
  {
    if rs != [] {
      var tail := rs[1..];
      SelectIsFirst(tail, n - rs[0].weight);
      forall j | 0 < j <= |rs|
        ensures Total(rs[..j]) == rs[0].weight + Total(tail[..j - 1])
      {
        assert rs[..j][1..] == tail[..j - 1];
      }
    }
  }

  /** No draw within [0, sum] misses, whatever the signs of the weights. */
  lemma SelectTotal(rs: seq<Record>, n: int)
    requires rs != [] && n <= Total(rs)
    ensures Select(rs, n) < |rs|
  {
    SelectIsFirst(rs, n);
    assert rs[..|rs|] == rs;
  }

  lemma {:induction false} PrefixMonotone(rs: seq<Record>, i: nat, j: nat)
    requires NonNegative(rs) && i <= j <= |rs|
    ensures Total(rs[..i]) <= Total(rs[..j])
  {
    var a, b := rs[..i], rs[i..j];
    TotalConcat(a, b);
    assert NonNegative(b);
    TotalNonNegative(b);
    assert a + b == rs[..j];
  }

  /** The numbers that select position `i` are those after the total before it, up to its own. */
  lemma SelectInterval(rs: seq<Record>, i: nat, n: int)
    requires NonNegative(rs) && i < |rs| && 0 <= n
    ensures Select(rs, n) == i <==> (i == 0 || Total(rs[..i]) < n) && n <= Total(rs[..i + 1])
  {
    var k := Select(rs, n);
    SelectIsFirst(rs, n);
    if k < i {
      PrefixMonotone(rs, k + 1, i);
    } else if i < k {
      assert Total(rs[..i + 1]) < n;
    } else if i > 0 {
      assert Total(rs[..i]) < n;
    }
  }

  lemma {:induction false} RunSize(s: set<int>, lo: int, hi: int)
    requires lo <= hi + 1
    requires forall n :: n in s <==> lo <= n <= hi
    ensures |s| == hi - lo + 1
    decreases hi - lo + 1
  {
    if lo <= hi {
      RunSize(s - {hi}, lo, hi - 1);
      assert s == (s - {hi}) + {hi};
    } else {
      assert forall n :: n !in s;
    }
  }

  /** The random numbers in [0, sum] that select position `i`. */
  function Preimage(rs: seq<Record>, i: nat): (s: set<int>) {
    set n | 0 <= n <= Total(rs) && Select(rs, n) == i
  }

  /** Selection is proportional to weight, up to one extra number for the first position. */
  lemma DrawIsProportional(rs: seq<Record>, i: nat)
    requires NonNegative(rs) && i < |rs|
    ensures |Preimage(rs, i)| == rs[i].weight + (if i == 0 then 1 else 0)
  {
    var lo := if i == 0 then 0 else Total(rs[..i]) + 1;
    var hi := Total(rs[..i + 1]);
    assert rs[..i + 1] == rs[..i] + [rs[i]];
    TotalSnoc(rs[..i], rs[i]);
    PrefixMonotone(rs, 0, i);
    PrefixMonotone(rs, i + 1, |rs|);
    assert rs[..|rs|] == rs;
    forall n | 0 <= n <= Total(rs) ensures n in Preimage(rs, i) <==> lo <= n <= hi {
      SelectInterval(rs, i, n);
    }
    RunSize(Preimage(rs, i), lo, hi);
  }

  // ---------- the whole draw ----------

  ghost predicate AllZero(rs: seq<Record>) {
    forall r :: r in rs ==> r.weight == 0
  }

  /** The total of what is left once the first `j` records are gone. */
  function TotalFrom(rs: seq<Record>, j: nat): (w: int)
    requires j <= |rs|
  {
    Total(rs[j..])
  }

  /** Dropping the heaviest records one by one never leaves a negative total before draw `k`. */
  ghost predicate Solvent(rs: seq<Record>, k: nat)
    requires k <= |rs|
  {
    forall j :: 0 <= j < k ==> TotalFrom(rs, j) >= 0
  }

  lemma RemoveKeepsSolvent(rs: seq<Record>, k: nat, i: nat)
    requires 0 < k <= |rs| && i < |rs| && Descending(rs) && Solvent(rs, k)
    ensures Solvent(Without(rs, i), k - 1)
  {
    var rs' := Without(rs, i);
    forall j | 0 <= j < k - 1 ensures TotalFrom(rs', j) >= 0 {
      assert TotalFrom(rs, j + 1) >= 0;
      if j <= i {
        assert rs'[j..] == Without(rs[j..], i - j);
        TotalRemove(rs[j..], i - j);
        assert rs[j..][1..] == rs[j + 1..];
      } else {
        assert rs'[j..] == rs[j + 1..];
      }
    }
  }

  /** What taking position `Select(rs, n)` out of the list keeps. */
  lemma RemoveSelected(rs: seq<Record>, k: nat, n: int)
    requires 0 < k <= |rs| && 0 <= n <= Total(rs) && Select(rs, n) < |rs| && Descending(rs)
    ensures var rest := Without(rs, Select(rs, n));
            && Descending(rest)
            && (NonNegative(rs) ==> NonNegative(rest))
            && (Solvent(rs, k) ==> Solvent(rest, k - 1))
            && (n == 0 ==> rest == rs[1..])
  {
    var i := Select(rs, n);
    if Solvent(rs, k) { RemoveKeepsSolvent(rs, k, i); }
    if rs[0].weight < 0 { AllNegative(rs); }
  }

  /** The first draw of a run: the record taken and what is left. */
  lemma FirstDraw(rs: seq<Record>, k: nat, rand: nat -> nat, si: nat) returns (x: Record, rest: seq<Record>)
    requires 0 < k <= |rs| && Total(rs) >= 0
    ensures |rest| == |rs| - 1 && multiset(rs) == multiset(rest) + multiset{x}
    ensures var r := Draw(rest, k - 1, rand, si + 1);
            Draw(rs, k, rand, si) == if r.Panic? then Panic else Value([x] + r.value)
    ensures Descending(rs) ==> Descending(rest)
    ensures Descending(rs) && NonNegative(rs) ==> NonNegative(rest)
    ensures Descending(rs) && Solvent(rs, k) ==> Solvent(rest, k - 1)
    ensures Descending(rs) && rand(si) == 0 ==> rest == rs[1..]
    ensures Descending(rs) && NonNegative(rs) && x.weight == 0 ==> AllZero(rs)
  {
    var n := Intn(rand(si), Total(rs) + 1);
    SelectTotal(rs, n);
    x, rest := rs[Select(rs, n)], Without(rs, Select(rs, n));
    MultisetRemove(rs, Select(rs, n));
    if Descending(rs) {
      RemoveSelected(rs, k, n);
      if NonNegative(rs) && x.weight == 0 { FirstZeroMeansAllZero(rs, n); }
    }
  }

  /** A successful draw returns `k` records, taken from distinct positions of the list. */
  lemma {:induction false} DrawTakesDistinctPositions(rs: seq<Record>, k: nat, rand: nat -> nat, si: nat)
    requires k <= |rs|
    ensures var r := Draw(rs, k, rand, si);
            r.Value? ==> |r.value| == k && multiset(r.value) <= multiset(rs)
    decreases k
  {
    if k > 0 && Total(rs) >= 0 {
      var _, rest := FirstDraw(rs, k, rand, si);
      DrawTakesDistinctPositions(rest, k - 1, rand, si + 1);
    }
  }

  /** Drawing 0 every time takes the heaviest record each time, and runs into the first negative total. */
  lemma {:induction false} InsolventDrawPanics(rs: seq<Record>, k: nat, rand: nat -> nat, si: nat)
    requires k <= |rs| && Descending(rs) && !Solvent(rs, k)
    requires forall j :: rand(j) == 0
    ensures Draw(rs, k, rand, si).Panic?
    decreases k
  {
    if Total(rs) >= 0 {
      var _, rest := FirstDraw(rs, k, rand, si);
      TailInsolvent(rs, k);
      InsolventDrawPanics(rest, k - 1, rand, si + 1);
    }
  }

  lemma TailInsolvent(rs: seq<Record>, k: nat)
    requires k <= |rs| && Total(rs) >= 0 && !Solvent(rs, k)
    ensures k > 0 && !Solvent(rs[1..], k - 1)
  {
    var j :| 0 <= j < k && TotalFrom(rs, j) < 0;
    assert rs[0..] == rs;
    assert rs[1..][j - 1..] == rs[j..];
    assert TotalFrom(rs[1..], j - 1) < 0;
  }

  lemma {:induction false} AllNegative(rs: seq<Record>)
    requires rs != [] && Descending(rs) && rs[0].weight < 0
    ensures Total(rs) < 0
  {
    if |rs| > 1 {
      AllNegative(rs[1..]);
    }
  }

  // ---------- when the draw completes ----------

  /** `n` is above every running total before position `i` and at most its own. */
  ghost predicate Selects(rs: seq<Record>, i: nat, n: int)
    requires i < |rs|
  {
    n <= Total(rs[..i + 1]) && forall j :: 0 < j <= i ==> Total(rs[..j]) < n
  }

  lemma SelectsIff(rs: seq<Record>, i: nat, n: int)
    requires i < |rs|
    ensures Select(rs, n) == i <==> Selects(rs, i, n)
  {
    SelectIsFirst(rs, n);
    var k := Select(rs, n);
    if k < i {
      assert Total(rs[..k + 1]) >= n;
    }
  }

  /** Some random number draws position `i`. */
  ghost predicate Drawable(rs: seq<Record>, i: nat)
    requires i < |rs|
  {
    exists n :: 0 <= n <= Total(rs) && Selects(rs, i, n)
  }

  /** No order in which `k` records can be drawn leaves a negative total before a draw. */
  ghost predicate Survives(rs: seq<Record>, k: nat)
    requires k <= |rs|
    decreases k
  {
    k == 0 || (Total(rs) >= 0 && forall i: nat :: i < |rs| && Drawable(rs, i) ==> Survives(Without(rs, i), k - 1))
  }

  /** The draw reads the oracle from `si` on only. */
  lemma {:induction false} DrawReadsOn(rs: seq<Record>, k: nat, f: nat -> nat, g: nat -> nat, si: nat)
    requires k <= |rs| && forall x :: x >= si ==> f(x) == g(x)
    ensures Draw(rs, k, f, si) == Draw(rs, k, g, si)
    decreases k
  {
    if k > 0 && Total(rs) >= 0 {
      var n := Intn(f(si), Total(rs) + 1);
      SelectTotal(rs, n);
      DrawReadsOn(Without(rs, Select(rs, n)), k - 1, f, g, si + 1);
    }
  }

  lemma {:induction false} SurvivorCompletes(rs: seq<Record>, k: nat, rand: nat -> nat, si: nat)
    requires k <= |rs| && Survives(rs, k)
    ensures Draw(rs, k, rand, si).Value?
    decreases k
  {
    if k > 0 {
      var n := Intn(rand(si), Total(rs) + 1);
      SelectTotal(rs, n);
      var i := Select(rs, n);
      SelectsIff(rs, i, n);
      assert Drawable(rs, i);
      SurvivorCompletes(Without(rs, i), k - 1, rand, si + 1);
    }
  }

  /** Otherwise some sequence of random numbers runs into a negative total. */
  lemma {:induction false} FatalOracle(rs: seq<Record>, k: nat, si: nat) returns (rand: nat -> nat)
    requires k <= |rs| && !Survives(rs, k)
    ensures Draw(rs, k, rand, si).Panic?
    decreases k
  {
    rand := _ => 0;
    if Total(rs) >= 0 {
      var i: nat :| i < |rs| && Drawable(rs, i) && !Survives(Without(rs, i), k - 1);
      var n :| 0 <= n <= Total(rs) && Selects(rs, i, n);
      SelectsIff(rs, i, n);
      var later := FatalOracle(Without(rs, i), k - 1, si + 1);
      rand := x => if x == si then n else later(x);
      DrawReadsOn(Without(rs, i), k - 1, rand, later, si + 1);
    }
  }

  /**
   Exactly when the draw loop completes for every sequence of random numbers, for
   weights of any sign in any order.
   */
  lemma DrawSucceedsIff(rs: seq<Record>, k: nat)
    requires k <= |rs|
    ensures (forall rand: nat -> nat :: Draw(rs, k, rand, 0).Value?) <==> Survives(rs, k)
  {
    if Survives(rs, k) {
      forall rand: nat -> nat ensures Draw(rs, k, rand, 0).Value? {
        SurvivorCompletes(rs, k, rand, 0);
      }
    } else {
      var rand := FatalOracle(rs, k, 0);
    }
  }

  lemma RemoveKeepsDescending(rs: seq<Record>, i: nat)
    requires Descending(rs) && i < |rs|
    ensures Descending(Without(rs, i))
  {
  }

  lemma {:induction false} SolventSurvives(rs: seq<Record>, k: nat)
    requires k <= |rs| && Descending(rs) && Solvent(rs, k)
    ensures Survives(rs, k)
    decreases k
  {
    if k > 0 {
      assert TotalFrom(rs, 0) >= 0 && rs[0..] == rs;
      forall i: nat | i < |rs| && Drawable(rs, i) ensures Survives(Without(rs, i), k - 1) {
        RemoveKeepsSolvent(rs, k, i);
        RemoveKeepsDescending(rs, i);
        SolventSurvives(Without(rs, i), k - 1);
      }
    }
  }

  lemma SolventDrawSucceeds(rs: seq<Record>, k: nat, rand: nat -> nat, si: nat)
    requires k <= |rs| && Descending(rs) && Solvent(rs, k)
    ensures Draw(rs, k, rand, si).Value?
  {
    SolventSurvives(rs, k);
    SurvivorCompletes(rs, k, rand, si);
  }

  /** On a list in descending order it is enough to look at the suffixes. */
  lemma SortedSurvivesIff(rs: seq<Record>, k: nat)
    requires k <= |rs| && Descending(rs)
    ensures Survives(rs, k) <==> Solvent(rs, k)
  {
    DrawSucceedsIff(rs, k);
    if Solvent(rs, k) {
      SolventSurvives(rs, k);
    } else {
      var zero := (_: nat) => 0;
      InsolventDrawPanics(rs, k, zero, 0);
    }
  }

  lemma NonNegativeIsSolvent(rs: seq<Record>, k: nat)
    requires k <= |rs| && NonNegative(rs)
    ensures Solvent(rs, k)
  {
    forall j | 0 <= j < k ensures TotalFrom(rs, j) >= 0 {
      TotalNonNegative(rs[j..]);
    }
  }

  /** `x` is taken out of `rs`, and is weightless only if all of `rs` is. */
  ghost predicate Takes(rs: seq<Record>, x: Record, rest: seq<Record>) {
    multiset(rs) == multiset(rest) + multiset{x} && (x.weight == 0 ==> AllZero(rs))
  }

  /** `out` is taken out of `rs` one by one, weightless records last. */
  ghost predicate TakesInOrder(rs: seq<Record>, out: seq<Record>)
    decreases |out|
  {
    out == [] || exists rest :: Takes(rs, out[0], rest) && TakesInOrder(rest, out[1..])
  }

  lemma {:induction false} DrawTakesInOrder(rs: seq<Record>, k: nat, rand: nat -> nat, si: nat, out: seq<Record>)
    requires k <= |rs| && NonNegative(rs) && Descending(rs) && Draw(rs, k, rand, si) == Value(out)
    ensures TakesInOrder(rs, out)
    decreases k
  {
    if k > 0 {
      TotalNonNegative(rs);
      var x, rest := FirstDraw(rs, k, rand, si);
      DrawTakesInOrder(rest, k - 1, rand, si + 1, out[1..]);
      assert Takes(rs, out[0], rest);
    }
  }

  lemma {:induction false} OrderPutsZeroLast(rs: seq<Record>, out: seq<Record>, j: nat, r: Record)
    requires TakesInOrder(rs, out) && j < |out| && out[j].weight == 0 && r.weight > 0
    ensures multiset(out[..j])[r] == multiset(rs)[r]
    decreases |out|
  {
    var rest :| Takes(rs, out[0], rest) && TakesInOrder(rest, out[1..]);
    if j == 0 {
      NoneLeft(rs, r);
    } else {
      OrderPutsZeroLast(rest, out[1..], j - 1, r);
      CountFirst(out, j, r);
    }
  }

  /**
   A zero-weight record is drawn only once every positive-weight record has been:
   all copies of each positive record precede it in the result.
   */
  lemma ZeroWeightComesLast(rs: seq<Record>, k: nat, rand: nat -> nat, si: nat,
                            out: seq<Record>, j: nat, r: Record)
    requires k <= |rs| && NonNegative(rs) && Descending(rs)
    requires Draw(rs, k, rand, si) == Value(out)
    requires j < |out| && out[j].weight == 0 && r.weight > 0
    ensures multiset(out[..j])[r] == multiset(rs)[r]
  {
    DrawTakesInOrder(rs, k, rand, si, out);
    OrderPutsZeroLast(rs, out, j, r);
  }

  lemma NoneLeft(rs: seq<Record>, r: Record)
    requires AllZero(rs) && r.weight > 0
    ensures multiset(rs)[r] == 0
  {
    assert r !in rs;
  }

  lemma CountFirst(out: seq<Record>, j: nat, r: Record)
    requires 0 < j <= |out|
    ensures multiset(out[..j])[r] == (if out[0] == r then 1 else 0) + multiset(out[1..][..j - 1])[r]
  {
    assert out[..j] == [out[0]] + out[1..][..j - 1];
  }

  lemma FirstZeroMeansAllZero(rs: seq<Record>, n: int)
    requires rs != [] && NonNegative(rs) && Descending(rs) && 0 <= n <= Total(rs)
    requires Select(rs, n) < |rs| && rs[Select(rs, n)].weight == 0
    ensures AllZero(rs)
  {
    var i := Select(rs, n);
    SelectInterval(rs, i, n);
    assert rs[..i + 1] == rs[..i] + [rs[i]];
    TotalSnoc(rs[..i], rs[i]);
  }
}
