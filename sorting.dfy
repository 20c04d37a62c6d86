/** Orderings of result lists: the in-place sort that `Array.prototype.sort`
    performs with a descending numeric comparator, and subsequences, which is
    what `Array.prototype.filter` produces. */
module Sorting {

  ghost predicate SortedDesc<T>(s: seq<T>, key: T -> int) {
    forall i, j :: 0 <= i < j < |s| ==> key(s[i]) >= key(s[j])
  }

  /** Sorts `a` so that keys never increase, as `a.sort((x, y) => key(y) - key(x))`
      does. */
  method SortDesc<T>(a: array<T>, key: T -> int)
    modifies a
    ensures SortedDesc(a[..], key)
    ensures multiset(a[..]) == old(multiset(a[..]))
  {
    var i := 0;
    while i < a.Length
      invariant 0 <= i <= a.Length
      invariant forall p, q :: 0 <= p < q < i ==> key(a[p]) >= key(a[q])
      invariant multiset(a[..]) == old(multiset(a[..]))
    {
      InsertDown(a, i, key);
      i := i + 1;
    }
  }

  /** Moves `a[i]` left past the elements with smaller keys, so that a
      sorted prefix `a[..i]` becomes a sorted prefix `a[..i + 1]`. */
  method InsertDown<T>(a: array<T>, i: int, key: T -> int)
    requires 0 <= i < a.Length
    requires forall p, q :: 0 <= p < q < i ==> key(a[p]) >= key(a[q])
    modifies a
    ensures forall p, q :: 0 <= p < q <= i ==> key(a[p]) >= key(a[q])
    ensures multiset(a[..]) == old(multiset(a[..]))
  {
    var j := i;
    while j > 0 && key(a[j - 1]) < key(a[j])
      invariant 0 <= j <= i
      invariant forall p, q :: 0 <= p < q <= i && p != j && q != j ==> key(a[p]) >= key(a[q])
      invariant forall q :: j < q <= i ==> key(a[j]) > key(a[q])
      invariant multiset(a[..]) == old(multiset(a[..]))
    {
      SwapDown(a, j);
      j := j - 1;
    }
  }

  method SwapDown<T>(a: array<T>, j: int)
    requires 0 < j < a.Length
    modifies a
    ensures a[j - 1] == old(a[j]) && a[j] == old(a[j - 1])
    ensures forall k :: 0 <= k < a.Length && k != j - 1 && k != j ==> a[k] == old(a[k])
    ensures multiset(a[..]) == old(multiset(a[..]))
  {
    a[j - 1], a[j] := a[j], a[j - 1];
  }

  /** `r` is `s` with some elements dropped and the rest in their order. */
  predicate Subseq<T(==)>(r: seq<T>, s: seq<T>)
    decreases |s|
  {
    if r == [] then true
    else if s == [] then false
    else (r[0] == s[0] && Subseq(r[1..], s[1..])) || Subseq(r, s[1..])
  }

  lemma {:induction false} SubseqReflexive<T>(s: seq<T>)
    ensures Subseq(s, s)
  {
    if s != [] {
      SubseqReflexive(s[1..]);
    }
  }

  lemma {:induction false} SubseqTransitive<T>(a: seq<T>, b: seq<T>, c: seq<T>)
    requires Subseq(a, b) && Subseq(b, c)
    ensures Subseq(a, c)
    decreases |c|
  {
    if a != [] && c != [] {
      if Subseq(b, c[1..]) {
        SubseqTransitive(a, b, c[1..]);
      } else if a[0] == b[0] && Subseq(a[1..], b[1..]) {
        SubseqTransitive(a[1..], b[1..], c[1..]);
      } else {
        SubseqTransitive(a, b[1..], c[1..]);
      }
    }
  }

  lemma {:induction false} SubseqMembers<T>(r: seq<T>, s: seq<T>)
    requires Subseq(r, s)
    ensures forall x :: x in r ==> x in s
    decreases |s|
  {
    if r != [] {
      if r[0] == s[0] && Subseq(r[1..], s[1..]) {
        SubseqMembers(r[1..], s[1..]);
        forall x | x in r ensures x in s {
          if x != r[0] {
            assert x in r[1..];
          }
        }
      } else {
        SubseqMembers(r, s[1..]);
      }
    }
  }

  /** A subsequence of a list sorted by descending key is sorted the same way. */
  lemma {:induction false} SubseqKeepsOrder<T>(r: seq<T>, s: seq<T>, key: T -> int)
    requires Subseq(r, s) && SortedDesc(s, key)
    ensures SortedDesc(r, key)
    decreases |s|
  {
    if r != [] {
      assert SortedDesc(s[1..], key);
      if r[0] == s[0] && Subseq(r[1..], s[1..]) {
        SubseqKeepsOrder(r[1..], s[1..], key);
        SubseqMembers(r[1..], s[1..]);
        forall i, j | 0 <= i < j < |r|
          ensures key(r[i]) >= key(r[j])
        {
          if i > 0 {
            assert r[i] == r[1..][i - 1] && r[j] == r[1..][j - 1];
          } else {
            assert r[j] == r[1..][j - 1];
            assert r[j] in s[1..];
          }
        }
      } else {
        SubseqKeepsOrder(r, s[1..], key);
      }
    }
  }
  /** A subsequence of a list whose elements have pairwise different `f`
      values has that property too. */
  lemma {:induction false} SubseqKeepsDistinct<T, K>(r: seq<T>, s: seq<T>, f: T -> K)
    requires Subseq(r, s)
    requires forall i, j :: 0 <= i < j < |s| ==> f(s[i]) != f(s[j])
    ensures forall i, j :: 0 <= i < j < |r| ==> f(r[i]) != f(r[j])
    decreases |s|
  {
    if r != [] {
      assert forall i, j :: 0 <= i < j < |s[1..]| ==> f(s[1..][i]) != f(s[1..][j]) by {
        forall i, j | 0 <= i < j < |s[1..]| ensures f(s[1..][i]) != f(s[1..][j]) {
          assert s[1..][i] == s[i + 1] && s[1..][j] == s[j + 1];
        }
      }
      if r[0] == s[0] && Subseq(r[1..], s[1..]) {
        SubseqKeepsDistinct(r[1..], s[1..], f);
        SubseqMembers(r[1..], s[1..]);
        forall i, j | 0 <= i < j < |r|
          ensures f(r[i]) != f(r[j])
        {
          assert r[j] == r[1..][j - 1] && r[j] in r[1..];
          if i > 0 {
            assert r[i] == r[1..][i - 1];
          } else {
            var k :| 0 <= k < |s[1..]| && s[1..][k] == r[j];
            assert s[k + 1] == r[j];
          }
        }
      } else {
        SubseqKeepsDistinct(r, s[1..], f);
      }
    }
  }

  /** A list without repeats holds each value at most once. */
  lemma {:induction false} DistinctCount<T>(s: seq<T>, x: T)
    requires forall i, j :: 0 <= i < j < |s| ==> s[i] != s[j]
    ensures multiset(s)[x] <= 1
  {
    if s != [] {
      assert s == [s[0]] + s[1..];
      assert forall i, j :: 0 <= i < j < |s[1..]| ==> s[1..][i] != s[1..][j] by {
        forall i, j | 0 <= i < j < |s[1..]| ensures s[1..][i] != s[1..][j] {
          assert s[1..][i] == s[i + 1] && s[1..][j] == s[j + 1];
        }
      }
      DistinctCount(s[1..], x);
      if x == s[0] {
        assert x !in s[1..] by {
          forall k | 0 <= k < |s[1..]| ensures s[1..][k] != x {
            assert s[1..][k] == s[k + 1];
          }
        }
      }
    }
  }

  /** A value at two positions occurs at least twice. */
  lemma CountTwice<T>(s: seq<T>, i: int, j: int)
    requires 0 <= i < j < |s|
    ensures s[i] == s[j] ==> multiset(s)[s[i]] >= 2
  {
    if s[i] == s[j] {
      assert s == s[..j] + [s[j]] + s[j + 1..];
      assert s[i] in s[..j];
    }
  }

  /** A permutation of a list without repeats has none either. */
  lemma PermutationKeepsDistinct<T>(a: seq<T>, b: seq<T>)
    requires multiset(a) == multiset(b)
    requires forall i, j :: 0 <= i < j < |a| ==> a[i] != a[j]
    ensures forall i, j :: 0 <= i < j < |b| ==> b[i] != b[j]
  {
    forall i, j | 0 <= i < j < |b|
      ensures b[i] != b[j]
    {
      DistinctCount(a, b[i]);
      CountTwice(b, i, j);
    }
  }
}
