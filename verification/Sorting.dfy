/**
 `sort.Sort` belongs to the Go library and is not stable. Callers here rely only on
 its contract: some permutation in descending key order.
 */
module Sorting {

  ghost predicate DescendingBy<T>(s: seq<T>, key: T -> int) {
    forall i, j :: 0 <= i < j < |s| ==> key(s[i]) >= key(s[j])
  }

  method SortDescending<T>(s: seq<T>, key: T -> int) returns (r: seq<T>)
    ensures multiset(r) == multiset(s) && |r| == |s|
    ensures DescendingBy(r, key)
  {
    r := [];
    for i := 0 to |s|
      invariant multiset(r) == multiset(s[..i]) && |r| == i
      invariant DescendingBy(r, key)
    {
      r := Insert(r, s[i], key);
      assert s[..i + 1] == s[..i] + [s[i]];
    }
    assert s[..|s|] == s;
  }

  method Insert<T>(s: seq<T>, x: T, key: T -> int) returns (r: seq<T>)
    requires DescendingBy(s, key)
    ensures multiset(r) == multiset(s) + multiset{x} && |r| == |s| + 1
    ensures DescendingBy(r, key)
  {
    var k := 0;
    while k < |s| && key(s[k]) >= key(x)
      invariant 0 <= k <= |s|
      invariant forall i :: 0 <= i < k ==> key(s[i]) >= key(x)
    {
      k := k + 1;
    }
    r := s[..k] + [x] + s[k..];
    InsertKeepsElements(s, k, x);
    InsertKeepsOrder(s, k, x, key);
  }

  lemma InsertKeepsElements<T>(s: seq<T>, k: nat, x: T)
    requires k <= |s|
    ensures multiset(s[..k] + [x] + s[k..]) == multiset(s) + multiset{x}
  {
    assert s == s[..k] + s[k..];
  }

  lemma InsertKeepsOrder<T>(s: seq<T>, k: nat, x: T, key: T -> int)
    requires k <= |s| && DescendingBy(s, key)
    requires forall i :: 0 <= i < k ==> key(s[i]) >= key(x)
    requires k < |s| ==> key(s[k]) < key(x)
    ensures DescendingBy(s[..k] + [x] + s[k..], key)
  {
    var r := s[..k] + [x] + s[k..];
    forall i, j | 0 <= i < j < |r| ensures key(r[i]) >= key(r[j]) {
      assert r[i] == if i < k then s[i] else if i == k then x else s[i - 1];
      assert r[j] == if j < k then s[j] else if j == k then x else s[j - 1];
      if i <= k < j {
        assert key(s[k]) >= key(s[j - 1]);
      }
    }
  }
}
