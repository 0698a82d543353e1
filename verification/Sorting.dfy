/** std::sort by an address key: some ascending rearrangement; nothing is promised about ties. */
module Sorting {
  import opened Intervals

  ghost predicate SortedBy<T>(s: seq<T>, key: T -> Address) {
    forall i, j | 0 <= i < j < |s| :: key(s[i]) <= key(s[j])
  }

  method Sort<T>(a: seq<T>, key: T -> Address) returns (s: seq<T>)
    ensures multiset(s) == multiset(a)
    ensures SortedBy(s, key)
  {
    s := [];
    for n := 0 to |a|
      invariant multiset(s) == multiset(a[..n])
      invariant SortedBy(s, key)
    {
      assert a[..n + 1] == a[..n] + [a[n]];
      s := Insert(s, a[n], key);
    }
    assert a[..|a|] == a;
  }

  method Insert<T>(s: seq<T>, x: T, key: T -> Address) returns (s': seq<T>)
    requires SortedBy(s, key)
    ensures multiset(s') == multiset(s) + multiset{x}
    ensures SortedBy(s', key)
  {
    var k := |s|;
    while k > 0 && key(x) < key(s[k - 1])
      invariant 0 <= k <= |s|
      invariant forall j | k <= j < |s| :: key(x) < key(s[j])
    {
      k := k - 1;
    }
    InsertedMultiset(s, k, x);
    InsertedSorted(s, k, x, key);
    s' := s[..k] + [x] + s[k..];
  }

  lemma InsertedMultiset<T>(s: seq<T>, k: nat, x: T)
    requires k <= |s|
    ensures multiset(s[..k] + [x] + s[k..]) == multiset(s) + multiset{x}
  {
    assert s == s[..k] + s[k..];
  }

  lemma InsertedSorted<T>(s: seq<T>, k: nat, x: T, key: T -> Address)
    requires SortedBy(s, key) && k <= |s|
    requires k > 0 ==> key(s[k - 1]) <= key(x)
    requires forall j | k <= j < |s| :: key(x) < key(s[j])
    ensures SortedBy(s[..k] + [x] + s[k..], key)
  {
    forall i | 0 <= i < k
      ensures key(s[i]) <= key(x)
    {
      assert i < k - 1 ==> key(s[i]) <= key(s[k - 1]);
    }
    Joined(s[..k], x, s[k..], key);
  }

  lemma Joined<T>(a: seq<T>, x: T, b: seq<T>, key: T -> Address)
    requires SortedBy(a, key) && SortedBy(b, key)
    requires forall i | 0 <= i < |a| :: key(a[i]) <= key(x)
    requires forall j | 0 <= j < |b| :: key(x) <= key(b[j])
    ensures SortedBy(a + [x] + b, key)
  {
  }

  lemma SameMembers<T>(a: seq<T>, b: seq<T>, x: T)
    requires multiset(a) == multiset(b)
    ensures x in a <==> x in b
  {
    assert x in a <==> x in multiset(a);
    assert x in b <==> x in multiset(b);
  }

  lemma TwiceIn<T>(b: seq<T>, i: nat, j: nat)
    requires i < j < |b| && b[i] == b[j]
    ensures multiset(b)[b[i]] >= 2
  {
    assert b == b[..j] + [b[j]] + b[j + 1..];
    assert b[i] in b[..j];
  }

  lemma TwoPlaces<T>(a: seq<T>, x: T) returns (i: nat, j: nat)
    requires multiset(a)[x] >= 2
    ensures i < j < |a| && a[i] == x && a[j] == x
  {
    assert x in multiset(a);
    i :| i < |a| && a[i] == x && x !in a[..i] by { FirstPlace(a, x); }
    assert a == a[..i] + [a[i]] + a[i + 1..];
    assert x in a[i + 1..];
    var k :| 0 <= k < |a[i + 1..]| && a[i + 1..][k] == x;
    j := i + 1 + k;
  }

  lemma {:induction false} FirstPlace<T>(a: seq<T>, x: T)
    requires x in a
    ensures exists i: nat :: i < |a| && a[i] == x && x !in a[..i]
  {
    if a[0] == x {
      assert x !in a[..0];
    } else {
      FirstPlace(a[1..], x);
      var k: nat :| k < |a[1..]| && a[1..][k] == x && x !in a[1..][..k];
      assert a[..k + 1] == [a[0]] + a[1..][..k];
    }
  }

  /** A symmetric relation between distinct places survives rearrangement. */
  lemma Rearranged<T>(a: seq<T>, b: seq<T>, apart: (T, T) -> bool)
    requires multiset(a) == multiset(b)
    requires forall i, j | 0 <= i < j < |a| :: apart(a[i], a[j]) && apart(a[j], a[i])
    ensures forall i, j | 0 <= i < j < |b| :: apart(b[i], b[j])
  {
    forall i, j | 0 <= i < j < |b|
      ensures apart(b[i], b[j])
    {
      SameMembers(a, b, b[i]);
      SameMembers(a, b, b[j]);
      if b[i] == b[j] {
        TwiceIn(b, i, j);
        var k, m := TwoPlaces(a, b[i]);
      } else {
        assert b[i] in b && b[j] in b;
        var k :| 0 <= k < |a| && a[k] == b[i];
        var m :| 0 <= m < |a| && a[m] == b[j];
        assert k != m;
      }
    }
  }
}
