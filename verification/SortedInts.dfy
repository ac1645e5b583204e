/** Ascending integer lists: the searching and listing helpers of the cron engine. */
module SortedInts {
  import opened SetIteration

  ghost predicate Sorted(a: seq<int>) {
    forall i, j :: 0 <= i < j < |a| ==> a[i] <= a[j]
  }

  ghost predicate Ascending(a: seq<int>) {
    forall i, j :: 0 <= i < j < |a| ==> a[i] < a[j]
  }

  /** Strictly ascending lists are determined by their elements. */
  lemma {:induction false} AscendingUnique(a: seq<int>, b: seq<int>)
    requires Ascending(a) && Ascending(b)
    requires forall v :: v in a <==> v in b
    ensures a == b
  {
    var first := if b == [] then 0 else b[0];
    assert b == [] || first in b;
    if a == [] {
    } else {
      assert a[0] in a && a[0] in b;
      assert b[0] in b && b[0] in a;
      assert a[0] == b[0];
      forall v ensures v in a[1..] <==> v in b[1..] {
        assert v in a <==> v == a[0] || v in a[1..] by { assert a == [a[0]] + a[1..]; }
        assert v in b <==> v == b[0] || v in b[1..] by { assert b == [b[0]] + b[1..]; }
      }
      AscendingUnique(a[1..], b[1..]);
      assert a == [a[0]] + a[1..] && b == [b[0]] + b[1..];
    }
  }

  /** All of `a` from index `i` on is at least `x`, all before it below. */
  ghost predicate Splits(a: seq<int>, i: nat, x: int) {
    && i <= |a|
    && (forall k :: 0 <= k < i ==> a[k] < x)
    && (forall k :: i <= k < |a| ==> x <= a[k])
  }

  lemma SplitLeast(a: seq<int>, i: nat, x: int, v: int)
    requires Ascending(a) && Splits(a, i, x) && v in a && x <= v
    ensures i < |a| && a[i] <= v
  {
    var k :| 0 <= k < |a| && a[k] == v;
    assert i <= k;
  }

  /** Binary search: the least index whose element is at least `x`. */
  method SearchInts(a: seq<int>, x: int) returns (i: nat)
    requires Sorted(a)
    ensures Splits(a, i, x)
  {
    i := 0;
    var j := |a|;
    while i < j
      invariant 0 <= i <= j <= |a|
      invariant forall k :: 0 <= k < i ==> a[k] < x
      invariant forall k :: j <= k < |a| ==> x <= a[k]
    {
      var h := (i + j) / 2;
      if a[h] < x {
        i := h + 1;
      } else {
        j := h;
      }
    }
  }

  lemma InsertedBag(r: seq<int>, i: nat, v: int)
    requires i <= |r|
    ensures multiset(r[..i] + [v] + r[i..]) == multiset(r) + multiset{v}
  {
    assert r == r[..i] + r[i..];
  }

  /** Stands for the library sort: sorted, and a permutation of the input. */
  method Ints(a: seq<int>) returns (r: seq<int>)
    ensures Sorted(r) && multiset(r) == multiset(a)
  {
    r := [];
    for n := 0 to |a|
      invariant Sorted(r) && multiset(r) == multiset(a[..n])
    {
      var i := SearchInts(r, a[n]);
      InsertedBag(r, i, a[n]);
      assert a[..n + 1] == a[..n] + [a[n]];
      r := r[..i] + [a[n]] + r[i..];
    }
    assert a[..|a|] == a;
  }

  lemma DistinctWhenFromSet(r: seq<int>, s: set<int>)
    requires Sorted(r) && multiset(r) == multiset(s)
    ensures Ascending(r)
    ensures forall v :: v in r <==> v in s
  {
    forall i, j | 0 <= i < j < |r| ensures r[i] < r[j] {
      assert r == r[..j] + [r[j]] + r[j + 1..];
      assert r[i] in r[..j];
      assert multiset(r)[r[j]] == multiset(r[..j])[r[j]] + 1 + multiset(r[j + 1..])[r[j]];
      assert multiset(s)[r[j]] <= 1;
    }
    forall v ensures v in r <==> v in s {
      assert v in r <==> v in multiset(r);
    }
  }

  /** The members of a set, visited in arbitrary order and then sorted. */
  method ToList(s: set<int>) returns (list: seq<int>)
    ensures Ascending(list)
    ensures forall v :: v in list <==> v in s
  {
    list := [];
    var rest := s;
    ghost var listed: set<int> := {};
    while rest != {}
      invariant listed + rest == s && listed !! rest
      invariant multiset(list) == multiset(listed)
      decreases |rest|
    {
      var k := Pick(rest);
      list := list + [k];
      listed, rest := listed + {k}, rest - {k};
    }
    assert listed == s;
    list := Ints(list);
    DistinctWhenFromSet(list, s);
  }
}
