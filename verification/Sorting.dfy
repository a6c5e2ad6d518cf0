/** Sorting by an integer key. Callers rely on the contract alone: as with `std::sort`, the order of
    equal keys is unspecified. */
module Sorting {

  predicate SortedBy<T>(s: seq<T>, key: T -> int)
  {
    forall i, j :: 0 <= i < j < |s| ==> key(s[i]) <= key(s[j])
  }

  lemma InsertedIsSorted<T>(r: seq<T>, k: nat, e: T, key: T -> int)
    requires k <= |r| && SortedBy(r, key)
    requires k > 0 ==> key(r[k - 1]) <= key(e)
    requires forall j :: k <= j < |r| ==> key(r[j]) > key(e)
    ensures SortedBy(r[..k] + [e] + r[k..], key)
  {
    assert forall j :: 0 <= j < k ==> key(r[j]) <= key(r[k - 1]);
  }

  lemma InsertedIsPermutation<T>(r: seq<T>, k: nat, e: T)
    requires k <= |r|
    ensures multiset(r[..k] + [e] + r[k..]) == multiset(r) + multiset{e}
  {
    assert r == r[..k] + r[k..];
  }

  method Insert<T>(r: seq<T>, e: T, key: T -> int) returns (r': seq<T>)
    requires SortedBy(r, key)
    ensures SortedBy(r', key) && multiset(r') == multiset(r) + multiset{e}
  {
    hide SortedBy;
    var k := |r|;
    while k > 0 && key(r[k - 1]) > key(e)
      invariant 0 <= k <= |r| && forall j :: k <= j < |r| ==> key(r[j]) > key(e)
    {
      k := k - 1;
    }
    InsertedIsSorted(r, k, e, key);
    InsertedIsPermutation(r, k, e);
    r' := r[..k] + [e] + r[k..];
  }

  method SortBy<T>(s: seq<T>, key: T -> int) returns (r: seq<T>)
    ensures SortedBy(r, key) && multiset(r) == multiset(s)
  {
    r := [];
    for i := 0 to |s|
      invariant SortedBy(r, key) && multiset(r) == multiset(s[..i])
    {
      assert s[..i + 1] == s[..i] + [s[i]];
      r := Insert(r, s[i], key);
    }
    assert s[..|s|] == s;
  }
}
