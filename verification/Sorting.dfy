/** What callers may rely on from the library's sort.Slice: the result is a permutation in which no
    element is less than an earlier one. The sort is not stable, so equal elements may come out in
    any order; everything proved about its callers holds for every such order. */
module Sorting {
  ghost predicate StrictWeakOrder<T(!new)>(less: (T, T) -> bool)
  {
    && (forall x, y :: less(x, y) ==> !less(y, x))
    && (forall x, y, z :: !less(y, x) && !less(z, y) ==> !less(z, x))
  }

  ghost predicate Ordered<T>(s: seq<T>, less: (T, T) -> bool)
  {
    forall i, j :: 0 <= i < j < |s| ==> !less(s[j], s[i])
  }

  method SortSlice<T(!new)>(s: seq<T>, less: (T, T) -> bool) returns (r: seq<T>)
    requires StrictWeakOrder(less)
    ensures multiset(r) == multiset(s) && Ordered(r, less)
  {
    r := [];
    for i := 0 to |s|
      invariant multiset(r) == multiset(s[..i]) && Ordered(r, less)
    {
      assert s[..i + 1] == s[..i] + [s[i]];
      r := Insert(r, s[i], less);
    }
    assert s[..|s|] == s;
  }

  method Insert<T(!new)>(s: seq<T>, x: T, less: (T, T) -> bool) returns (r: seq<T>)
    requires StrictWeakOrder(less) && Ordered(s, less)
    ensures multiset(r) == multiset(s + [x]) && Ordered(r, less)
  {
    var k := |s|;
    while k > 0 && less(x, s[k - 1])
      invariant 0 <= k <= |s|
      invariant forall i :: k <= i < |s| ==> less(x, s[i])
    {
      k := k - 1;
    }
    r := s[..k] + [x] + s[k..];
    InsertKeepsElements(s, k, x);
    InsertKeepsOrder(s, k, x, less);
  }

  lemma InsertKeepsElements<T>(s: seq<T>, k: nat, x: T)
    requires k <= |s|
    ensures multiset(s[..k] + [x] + s[k..]) == multiset(s + [x])
  {
    assert s == s[..k] + s[k..];
  }

  lemma InsertKeepsOrder<T(!new)>(s: seq<T>, k: nat, x: T, less: (T, T) -> bool)
    requires StrictWeakOrder(less) && Ordered(s, less) && k <= |s|
    requires k > 0 ==> !less(x, s[k - 1])
    requires forall i :: k <= i < |s| ==> less(x, s[i])
    ensures Ordered(s[..k] + [x] + s[k..], less)
  {
    var r := s[..k] + [x] + s[k..];
    forall i, j | 0 <= i < j < |r| ensures !less(r[j], r[i]) {
      if j == k && i < k - 1 {
        assert !less(s[k - 1], s[i]);
      } else if i == k {
        assert r[j] == s[j - 1];
      } else {
        assert r[i] == s[if i < k then i else i - 1];
        assert r[j] == if j == k then x else s[if j < k then j else j - 1];
      }
    }
  }
}
