/** Generic sequence operations the controllers use the way JavaScript uses
    Array.prototype.findIndex, filter, reverse and a MongoDB `sort` + `limit`. */
module Seqs {

  datatype Option<T> = None | Some(value: T)

  /** Index of the first element satisfying `p` (findIndex); None stands for -1. */
  function FindFirst<T>(s: seq<T>, p: T -> bool): (r: Option<nat>)
    ensures r.Some? ==> r.value < |s| && p(s[r.value])
    ensures r.Some? ==> forall j :: 0 <= j < r.value ==> !p(s[j])
    ensures r.None? ==> forall j :: 0 <= j < |s| ==> !p(s[j])
  {
    if s == [] then None
    else if p(s[0]) then Some(0)
    else match FindFirst(s[1..], p)
      case None => None
      case Some(k) => Some(k + 1)
  }

  /** The first match in a prefix is the first match overall; without a match in the prefix,
      the first match overall (if any) lies after it. */
  lemma {:induction false} FindFirstPrefix<T>(s: seq<T>, n: nat, p: T -> bool)
    requires n <= |s|
    ensures FindFirst(s[..n], p).Some? ==> FindFirst(s, p) == FindFirst(s[..n], p)
    ensures FindFirst(s[..n], p).None? && FindFirst(s, p).Some? ==> FindFirst(s, p).value >= n
  {
    if n > 0 && !p(s[0]) {
      assert s[..n][0] == s[0];
      assert s[..n][1..] == s[1..][..n - 1];
      FindFirstPrefix(s[1..], n - 1, p);
    }
  }

  /** The elements satisfying `p`, in their original order (Array.prototype.filter). */
  function Filter<T>(s: seq<T>, p: T -> bool): (r: seq<T>)
    ensures |r| <= |s|
    ensures forall i :: 0 <= i < |r| ==> r[i] in s && p(r[i])
    ensures forall i :: 0 <= i < |s| && p(s[i]) ==> s[i] in r
  {
    if s == [] then [] else (if p(s[0]) then [s[0]] else []) + Filter(s[1..], p)
  }

  /** Filtering distributes over concatenation, so it keeps the relative order of what it keeps. */
  lemma {:induction false} FilterConcat<T>(a: seq<T>, b: seq<T>, p: T -> bool)
    ensures Filter(a + b, p) == Filter(a, p) + Filter(b, p)
  {
    if a == [] {
      assert a + b == b;
    } else {
      assert (a + b)[1..] == a[1..] + b;
      FilterConcat(a[1..], b, p);
    }
  }

  /** Filtering drops every element failing `p` and keeps every other one as often as it occurs. */
  lemma {:induction false} FilterMultiset<T>(s: seq<T>, p: T -> bool, x: T)
    ensures multiset(Filter(s, p))[x] == if p(x) then multiset(s)[x] else 0
  {
    if s != [] {
      FilterMultiset(s[1..], p, x);
      assert s == [s[0]] + s[1..];
    }
  }

  /** Filtering twice with the same test is filtering once. */
  lemma {:induction false} FilterIdempotent<T>(s: seq<T>, p: T -> bool)
    ensures Filter(Filter(s, p), p) == Filter(s, p)
  {
    if s != [] {
      FilterIdempotent(s[1..], p);
      var head := if p(s[0]) then [s[0]] else [];
      FilterConcat(head, Filter(s[1..], p), p);
    }
  }

  function Reverse<T>(s: seq<T>): (r: seq<T>)
    ensures |r| == |s|
    ensures forall i :: 0 <= i < |s| ==> r[i] == s[|s| - 1 - i]
    ensures multiset(r) == multiset(s)
  {
    if s == [] then []
    else
      assert s == [s[0]] + s[1..];
      Reverse(s[1..]) + [s[0]]
  }

  /** The first `n` elements, or all of them when there are fewer (a MongoDB `limit`). */
  function Take<T>(s: seq<T>, n: nat): (r: seq<T>)
    ensures |r| == if |s| <= n then |s| else n
    ensures forall i :: 0 <= i < |r| ==> r[i] == s[i]
  {
    if |s| <= n then s else s[..n]
  }

  /** A prefix holds no element more often than the whole sequence. */
  lemma TakeSubMultiset<T>(s: seq<T>, n: nat)
    ensures multiset(Take(s, n)) <= multiset(s)
  {
    if n < |s| {
      assert s == s[..n] + s[n..];
    }
  }

  predicate Distinct<T(==)>(s: seq<T>)
  {
    forall i, j :: 0 <= i < j < |s| ==> s[i] != s[j]
  }

  /** No two elements of `s` share a key. */
  predicate DistinctBy<T, K(==)>(s: seq<T>, key: T -> K)
  {
    forall i, j :: 0 <= i < j < |s| ==> key(s[i]) != key(s[j])
  }

  /** Filtering keeps keys distinct: it only drops elements, in order. */
  lemma {:induction false} FilterKeepsDistinctBy<T, K>(s: seq<T>, p: T -> bool, key: T -> K)
    requires DistinctBy(s, key)
    ensures DistinctBy(Filter(s, p), key)
  {
    if s != [] {
      var tail := s[1..];
      assert DistinctBy(tail, key) by {
        forall i, j | 0 <= i < j < |tail| ensures key(tail[i]) != key(tail[j]) {
          assert tail[i] == s[i + 1] && tail[j] == s[j + 1];
        }
      }
      FilterKeepsDistinctBy(tail, p, key);
      var rest := Filter(tail, p);
      if p(s[0]) {
        forall i | 0 <= i < |rest| ensures key(rest[i]) != key(s[0]) {
          var k :| 0 <= k < |tail| && tail[k] == rest[i];
          assert s[k + 1] == rest[i];
        }
        var r := Filter(s, p);
        assert r == [s[0]] + rest;
        forall i, j | 0 <= i < j < |r| ensures key(r[i]) != key(r[j]) {
          if i > 0 {
            assert r[i] == rest[i - 1];
          }
          assert r[j] == rest[j - 1];
        }
      } else {
        assert Filter(s, p) == rest;
      }
    }
  }

  /** `key` does not increase along `s` (a descending sort). */
  predicate SortedDesc<T>(s: seq<T>, key: T -> int)
  {
    forall i, j :: 0 <= i < j < |s| ==> key(s[j]) <= key(s[i])
  }

  /** A prefix of a descending sequence is itself descending. */
  lemma TakeSorted<T>(s: seq<T>, key: T -> int, n: nat)
    requires SortedDesc(s, key)
    ensures SortedDesc(Take(s, n), key)
  {
    var t := Take(s, n);
    forall i, j | 0 <= i < j < |t| ensures key(t[j]) <= key(t[i]) {
      assert t[i] == s[i] && t[j] == s[j];
    }
  }

  /** Whatever a prefix of a descending sequence leaves out keys no higher than anything it
      keeps, and the prefix is then full. */
  lemma TakeOfSortedIsTop<T>(s: seq<T>, key: T -> int, n: nat, x: T)
    requires SortedDesc(s, key) && x in s && x !in Take(s, n)
    ensures |Take(s, n)| == n && forall j :: 0 <= j < n ==> key(x) <= key(Take(s, n)[j])
  {
    var t := Take(s, n);
    TakeLeavesTail(s, n, x);
    var k :| n <= k < |s| && s[k] == x;
    forall j | 0 <= j < n ensures key(x) <= key(t[j]) {
      assert t[j] == s[j];
    }
  }

  /** `key` strictly increases along `s`. */
  predicate StrictlyIncreasing<T>(s: seq<T>, key: T -> int)
  {
    forall i, j :: 0 <= i < j < |s| ==> key(s[i]) < key(s[j])
  }

  function Insert<T>(x: T, s: seq<T>, key: T -> int): (r: seq<T>)
    ensures |r| == |s| + 1
    ensures multiset(r) == multiset(s) + multiset{x}
    ensures forall i :: 0 <= i < |r| ==> r[i] == x || r[i] in s
  {
    if s == [] then [x]
    else if key(s[0]) <= key(x) then [x] + s
    else
      assert s == [s[0]] + s[1..];
      [s[0]] + Insert(x, s[1..], key)
  }

  lemma {:induction false} InsertSorted<T>(x: T, s: seq<T>, key: T -> int)
    requires SortedDesc(s, key)
    ensures SortedDesc(Insert(x, s, key), key)
  {
    if s != [] && key(x) < key(s[0]) {
      var tail := s[1..];
      var t := Insert(x, tail, key);
      InsertSorted(x, tail, key);
      InsertBounded(x, tail, key, key(s[0]));
      SortedCons(s[0], t, key);
      assert Insert(x, s, key) == [s[0]] + t;
    }
  }

  /** Inserting below a bound keeps every key below it. */
  lemma InsertBounded<T>(x: T, s: seq<T>, key: T -> int, bound: int)
    requires key(x) <= bound && forall i :: 0 <= i < |s| ==> key(s[i]) <= bound
    ensures forall k :: 0 <= k < |Insert(x, s, key)| ==> key(Insert(x, s, key)[k]) <= bound
  {
    var t := Insert(x, s, key);
    forall k | 0 <= k < |t| ensures key(t[k]) <= bound {
      if t[k] != x {
        var m :| 0 <= m < |s| && s[m] == t[k];
      }
    }
  }

  lemma SortedCons<T>(h: T, t: seq<T>, key: T -> int)
    requires SortedDesc(t, key)
    requires forall k :: 0 <= k < |t| ==> key(t[k]) <= key(h)
    ensures SortedDesc([h] + t, key)
  {
    var r := [h] + t;
    forall i, j | 0 <= i < j < |r| ensures key(r[j]) <= key(r[i]) {
      assert r[j] == t[j - 1];
      if i > 0 {
        assert r[i] == t[i - 1];
      }
    }
  }

  /** An insertion sort by descending `key`: one admissible outcome of a database sort. */
  function SortDesc<T>(s: seq<T>, key: T -> int): (r: seq<T>)
    ensures multiset(r) == multiset(s)
    ensures |r| == |s|
  {
    if s == [] then []
    else
      assert s == [s[0]] + s[1..];
      Insert(s[0], SortDesc(s[1..], key), key)
  }

  lemma {:induction false} SortDescSorted<T>(s: seq<T>, key: T -> int)
    ensures SortedDesc(SortDesc(s, key), key)
  {
    if s != [] {
      SortDescSorted(s[1..], key);
      InsertSorted(s[0], SortDesc(s[1..], key), key);
    }
  }

  /** Reversing a strictly increasing sequence gives a descending one. */
  lemma ReverseOfIncreasing<T>(s: seq<T>, key: T -> int)
    requires StrictlyIncreasing(s, key)
    ensures SortedDesc(Reverse(s), key)
    ensures forall i, j :: 0 <= i < j < |s| ==> key(Reverse(s)[j]) < key(Reverse(s)[i])
  {
    var r := Reverse(s);
    forall i, j | 0 <= i < j < |s| ensures key(r[j]) < key(r[i]) {
      assert r[i] == s[|s| - 1 - i] && r[j] == s[|s| - 1 - j];
    }
  }

  /** Every element of a filtered sequence comes from a strictly increasing one, so it is too. */
  lemma {:induction false} FilterKeepsIncreasing<T>(s: seq<T>, p: T -> bool, key: T -> int)
    requires StrictlyIncreasing(s, key)
    ensures StrictlyIncreasing(Filter(s, p), key)
  {
    if s != [] {
      FilterKeepsIncreasing(s[1..], p, key);
      var rest := Filter(s[1..], p);
      forall y | y in rest ensures key(s[0]) < key(y) {
        var k :| 0 <= k < |s[1..]| && s[1..][k] == y;
        assert s[k + 1] == y;
      }
    }
  }

  /** The sum of `f` over the elements (an `Array.prototype.reduce` adding up one field). */
  function SumOf<T>(s: seq<T>, f: T -> int): int
  {
    if s == [] then 0 else SumOf(s[..|s| - 1], f) + f(s[|s| - 1])
  }

  lemma {:induction false} SumOfConcat<T>(a: seq<T>, b: seq<T>, f: T -> int)
    ensures SumOf(a + b, f) == SumOf(a, f) + SumOf(b, f)
  {
    if b == [] {
      assert a + b == a;
    } else {
      assert (a + b)[..|a + b| - 1] == a + b[..|b| - 1];
      SumOfConcat(a, b[..|b| - 1], f);
    }
  }

  /** Replacing one element changes the sum by the difference of the two values. */
  lemma {:induction false} SumOfUpdate<T>(s: seq<T>, k: nat, x: T, f: T -> int)
    requires k < |s|
    ensures SumOf(s[k := x], f) == SumOf(s, f) - f(s[k]) + f(x)
  {
    var n := |s| - 1;
    var u := s[k := x];
    if k == n {
      assert u[..n] == s[..n];
    } else {
      assert u[..n] == s[..n][k := x];
      SumOfUpdate(s[..n], k, x, f);
    }
  }

  /** Removing one element lowers the sum by its value. */
  lemma {:induction false} SumOfRemove<T>(s: seq<T>, k: nat, f: T -> int)
    requires k < |s|
    ensures SumOf(s[..k] + s[k + 1..], f) == SumOf(s, f) - f(s[k])
  {
    var n := |s| - 1;
    if k == n {
      assert s[..k] + s[k + 1..] == s[..n];
    } else {
      var t := s[..n];
      assert s[..k] + s[k + 1..] == (t[..k] + t[k + 1..]) + [s[n]];
      assert ((t[..k] + t[k + 1..]) + [s[n]])[..|s| - 2] == t[..k] + t[k + 1..];
      SumOfRemove(t, k, f);
    }
  }

  /** Values between `lo` and `hi` add up to between |s| * lo and |s| * hi. */
  lemma {:induction false} SumOfBounds<T>(s: seq<T>, f: T -> int, lo: int, hi: int)
    requires forall i :: 0 <= i < |s| ==> lo <= f(s[i]) <= hi
    ensures |s| * lo <= SumOf(s, f) <= |s| * hi
  {
    if s != [] {
      SumOfBounds(s[..|s| - 1], f, lo, hi);
    }
  }

  /** The elements satisfying `p`, the last stored first. */
  function LatestFirst<T>(s: seq<T>, p: T -> bool): (r: seq<T>)
    ensures |r| == |Filter(s, p)|
    ensures forall i :: 0 <= i < |r| ==> p(r[i]) && r[i] in s
    ensures forall i :: 0 <= i < |s| && p(s[i]) ==> s[i] in r
  {
    LatestFirstMembers(s, p);
    Reverse(Filter(s, p))
  }

  lemma LatestFirstMembers<T>(s: seq<T>, p: T -> bool)
    ensures var r := Reverse(Filter(s, p));
      && (forall i :: 0 <= i < |r| ==> p(r[i]) && r[i] in s)
      && (forall i :: 0 <= i < |s| && p(s[i]) ==> s[i] in r)
  {
    var kept := Filter(s, p);
    var r := Reverse(kept);
    forall i | 0 <= i < |r| ensures p(r[i]) && r[i] in s {
      assert r[i] == kept[|kept| - 1 - i];
    }
    forall i | 0 <= i < |s| && p(s[i]) ensures s[i] in r {
      assert s[i] in multiset(kept);
    }
  }

  /** With `key` strictly increasing along the store, it strictly falls along the latest-first view. */
  lemma LatestFirstDescending<T>(s: seq<T>, p: T -> bool, key: T -> int)
    requires StrictlyIncreasing(s, key)
    ensures forall i, j :: 0 <= i < j < |LatestFirst(s, p)| ==>
      key(LatestFirst(s, p)[j]) < key(LatestFirst(s, p)[i])
  {
    FilterKeepsIncreasing(s, p, key);
    ReverseOfIncreasing(Filter(s, p), key);
  }

  /** An element just stored that satisfies `p` heads the latest-first view. */
  lemma LatestFirstAppend<T>(s: seq<T>, x: T, p: T -> bool)
    requires p(x)
    ensures |LatestFirst(s + [x], p)| > 0 && LatestFirst(s + [x], p)[0] == x
  {
    FilterConcat(s, [x], p);
    assert Filter([x], p) == [x];
    var kept := Filter(s + [x], p);
    assert kept[|kept| - 1] == x;
  }

  /** What a `limit(n)` leaves out of a sequence lies at position `n` or later. */
  lemma TakeLeavesTail<T>(s: seq<T>, n: nat, x: T)
    requires x in s && x !in Take(s, n)
    ensures |Take(s, n)| == n < |s|
    ensures exists k :: n <= k < |s| && s[k] == x
  {
    var k :| 0 <= k < |s| && s[k] == x;
    if k < n {
      assert false;
    }
  }
}
