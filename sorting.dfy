/**
 * Stable sorting by a key of integer sequences. The tree renderers sort
 * the entries of a directory with a comparator that puts directories
 * first and then compares names; here the comparator is a key
 * (`[kind] + codes of the name`) under lexicographic order, and the sort
 * is stable, as `Array.prototype.sort` and Python's `sorted` are.
 */
module Sorting {

  /** Strict lexicographic order on integer sequences (a proper prefix is smaller). */
  predicate Less(a: seq<int>, b: seq<int>)
    decreases |a|
  {
    if |a| == 0 then |b| > 0
    else if |b| == 0 then false
    else a[0] < b[0] || (a[0] == b[0] && Less(a[1..], b[1..]))
  }

  lemma {:induction false} LessIrreflexive(a: seq<int>)
    ensures !Less(a, a)
  {
    if |a| > 0 {
      LessIrreflexive(a[1..]);
    }
  }

  lemma {:induction false} LessTransitive(a: seq<int>, b: seq<int>, c: seq<int>)
    requires Less(a, b) && Less(b, c)
    ensures Less(a, c)
  {
    if |a| > 0 && |b| > 0 && |c| > 0 && a[0] == b[0] == c[0] {
      LessTransitive(a[1..], b[1..], c[1..]);
    }
  }

  lemma {:induction false} LessTotal(a: seq<int>, b: seq<int>)
    ensures a == b || Less(a, b) || Less(b, a)
  {
    if |a| > 0 && |b| > 0 && a[0] == b[0] {
      LessTotal(a[1..], b[1..]);
      if a[1..] == b[1..] {
        assert a == [a[0]] + a[1..];
        assert b == [b[0]] + b[1..];
      }
    }
  }

  lemma LessAsymmetric(a: seq<int>, b: seq<int>)
    requires Less(a, b)
    ensures !Less(b, a)
  {
    if Less(b, a) {
      LessTransitive(a, b, a);
      LessIrreflexive(a);
    }
  }

  /** "Not greater" is transitive: the non-strict order is a total preorder. */
  lemma NotLessTransitive(a: seq<int>, b: seq<int>, c: seq<int>)
    requires !Less(b, a) && !Less(c, b)
    ensures !Less(c, a)
  {
    LessTotal(a, b);
    if Less(c, a) && a != b {
      LessTransitive(c, a, b);
    }
  }

  /** Every element's key is at least the key of every earlier element. */
  predicate SortedBy<T>(s: seq<T>, key: T -> seq<int>)
  {
    forall i, j :: 0 <= i < j < |s| ==> !Less(key(s[j]), key(s[i]))
  }

  /** Inserts `x` before the first element whose key is not smaller than `x`'s. */
  function Insert<T>(x: T, xs: seq<T>, key: T -> seq<int>): (r: seq<T>)
    ensures |r| == |xs| + 1
    ensures multiset(r) == multiset(xs) + multiset{x}
  {
    if |xs| == 0 then [x]
    else if Less(key(xs[0]), key(x)) then
      assert xs == [xs[0]] + xs[1..];
      [xs[0]] + Insert(x, xs[1..], key)
    else [x] + xs
  }

  /** Stable insertion sort: the head is inserted into the sorted tail ahead of equal keys. */
  function Sort<T>(xs: seq<T>, key: T -> seq<int>): (r: seq<T>)
    ensures |r| == |xs|
    ensures multiset(r) == multiset(xs)
  {
    if |xs| == 0 then []
    else
      assert xs == [xs[0]] + xs[1..];
      Insert(xs[0], Sort(xs[1..], key), key)
  }

  lemma {:induction false} InsertSorted<T>(x: T, xs: seq<T>, key: T -> seq<int>)
    requires SortedBy(xs, key)
    ensures SortedBy(Insert(x, xs, key), key)
  {
    if |xs| > 0 {
      if Less(key(xs[0]), key(x)) {
        var tail := Insert(x, xs[1..], key);
        assert SortedBy(xs[1..], key) by {
          forall i, j | 0 <= i < j < |xs[1..]|
            ensures !Less(key(xs[1..][j]), key(xs[1..][i]))
          {
            assert xs[1..][j] == xs[j + 1] && xs[1..][i] == xs[i + 1];
          }
        }
        InsertSorted(x, xs[1..], key);
        forall j | 0 <= j < |tail|
          ensures !Less(key(tail[j]), key(xs[0]))
        {
          assert tail[j] in multiset(tail);
          if tail[j] == x {
            LessAsymmetric(key(xs[0]), key(x));
          } else {
            assert tail[j] in multiset(xs[1..]);
            var k :| 0 <= k < |xs[1..]| && xs[1..][k] == tail[j];
            assert xs[k + 1] == tail[j];
          }
        }
        ConsSorted(xs[0], tail, key);
      } else {
        forall j | 0 <= j < |xs|
          ensures !Less(key(xs[j]), key(x))
        {
          if j > 0 {
            NotLessTransitive(key(x), key(xs[0]), key(xs[j]));
          }
        }
        ConsSorted(x, xs, key);
      }
    }
  }

  /** A sorted sequence stays sorted under a head whose key is not above any element's. */
  lemma ConsSorted<T>(y: T, tail: seq<T>, key: T -> seq<int>)
    requires SortedBy(tail, key)
    requires forall j :: 0 <= j < |tail| ==> !Less(key(tail[j]), key(y))
    ensures SortedBy([y] + tail, key)
  {
    var r := [y] + tail;
    forall i, j | 0 <= i < j < |r|
      ensures !Less(key(r[j]), key(r[i]))
    {
      assert r[j] == tail[j - 1];
      if i > 0 {
        assert r[i] == tail[i - 1];
      }
    }
  }

  lemma {:induction false} SortSorted<T>(xs: seq<T>, key: T -> seq<int>)
    ensures SortedBy(Sort(xs, key), key)
  {
    if |xs| > 0 {
      SortSorted(xs[1..], key);
      InsertSorted(xs[0], Sort(xs[1..], key), key);
    }
  }

  /** Sorting keeps exactly the elements it was given. */
  lemma SortMembers<T>(xs: seq<T>, key: T -> seq<int>)
    ensures forall y :: y in Sort(xs, key) <==> y in xs
  {
    var r := Sort(xs, key);
    forall y
      ensures y in r <==> y in xs
    {
      assert y in r <==> y in multiset(r);
      assert y in xs <==> y in multiset(xs);
    }
  }

  /** No element occurs twice. */
  predicate NoDup<T(==)>(s: seq<T>)
  {
    forall i, j :: 0 <= i < j < |s| ==> s[i] != s[j]
  }

  lemma {:induction false} InsertNoDup<T>(x: T, xs: seq<T>, key: T -> seq<int>)
    requires NoDup(xs) && x !in xs
    ensures NoDup(Insert(x, xs, key))
  {
    if |xs| > 0 && Less(key(xs[0]), key(x)) {
      var tail := Insert(x, xs[1..], key);
      assert NoDup(xs[1..]) by {
        forall i, j | 0 <= i < j < |xs[1..]|
          ensures xs[1..][i] != xs[1..][j]
        {
          assert xs[1..][i] == xs[i + 1] && xs[1..][j] == xs[j + 1];
        }
      }
      InsertNoDup(x, xs[1..], key);
      var r := [xs[0]] + tail;
      forall j | 0 < j < |r|
        ensures r[j] != xs[0]
      {
        assert r[j] in multiset(tail);
        if r[j] != x {
          assert r[j] in multiset(xs[1..]);
          var k :| 0 <= k < |xs[1..]| && xs[1..][k] == r[j];
          assert xs[k + 1] == r[j];
        }
      }
      forall i, j | 0 <= i < j < |r|
        ensures r[i] != r[j]
      {
        if i > 0 {
          assert r[i] == tail[i - 1] && r[j] == tail[j - 1];
        }
      }
    } else if |xs| > 0 {
      var r := [x] + xs;
      forall i, j | 0 <= i < j < |r|
        ensures r[i] != r[j]
      {
        if i > 0 {
          assert r[i] == xs[i - 1] && r[j] == xs[j - 1];
        } else {
          assert r[j] == xs[j - 1];
        }
      }
    }
  }

  /** Sorting a sequence without repetitions yields one without repetitions. */
  lemma {:induction false} SortNoDup<T>(xs: seq<T>, key: T -> seq<int>)
    requires NoDup(xs)
    ensures NoDup(Sort(xs, key))
  {
    if |xs| > 0 {
      assert NoDup(xs[1..]) by {
        forall i, j | 0 <= i < j < |xs[1..]|
          ensures xs[1..][i] != xs[1..][j]
        {
          assert xs[1..][i] == xs[i + 1] && xs[1..][j] == xs[j + 1];
        }
      }
      SortNoDup(xs[1..], key);
      SortMembers(xs[1..], key);
      InsertNoDup(xs[0], Sort(xs[1..], key), key);
    }
  }
}
