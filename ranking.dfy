/**
 * `Array.prototype.sort` with a descending comparator `(a, b) => key(b) - key(a)`.
 * The engine's sort is stable; it is modelled as a stable insertion sort.
 */
module Ranking {

  /** Non-increasing by `key`. */
  predicate SortedDesc<T>(s: seq<T>, key: T -> real) {
    forall i, j :: 0 <= i < j < |s| ==> key(s[i]) >= key(s[j])
  }

  /** No two positions hold elements with the same projection `f`. */
  predicate DistinctBy<T, U(==)>(s: seq<T>, f: T -> U) {
    forall i, j :: 0 <= i < j < |s| ==> f(s[i]) != f(s[j])
  }

  /** Places `x` in front of the first element whose key is not greater than its own, so ahead of equal keys. */
  function InsertDesc<T(==)>(x: T, s: seq<T>, key: T -> real): (r: seq<T>)
    requires SortedDesc(s, key)
    ensures SortedDesc(r, key)
    ensures multiset(r) == multiset(s) + multiset{x}
    ensures |r| == |s| + 1 && (r[0] == x || (s != [] && r[0] == s[0]))
  {
    if s == [] || key(x) >= key(s[0]) then
      InsertFront(x, s, key);
      [x] + s
    else
      var rest := InsertDesc(x, s[1..], key);
      InsertBehind(x, s, rest, key);
      [s[0]] + rest
  }

  /** The step of `InsertDesc` that puts `x` in front of a sorted sequence whose head it outranks. */
  lemma InsertFront<T>(x: T, s: seq<T>, key: T -> real)
    requires SortedDesc(s, key) && (s == [] || key(x) >= key(s[0]))
    ensures SortedDesc([x] + s, key)
  {
    if s != [] {
      SortedHead(s, key);
      forall y | y in s ensures key(y) <= key(x) {
        if y != s[0] {
          assert y in s[1..] by {
            var k :| 0 <= k < |s| && s[k] == y;
            assert s[1..][k - 1] == y;
          }
        }
      }
    }
    ConsSorted(x, s, key);
  }

  /** The step of `InsertDesc` that keeps the head of `s` in front of the insertion into its tail. */
  lemma InsertBehind<T>(x: T, s: seq<T>, rest: seq<T>, key: T -> real)
    requires SortedDesc(s, key) && s != [] && key(x) < key(s[0])
    requires SortedDesc(rest, key) && multiset(rest) == multiset(s[1..]) + multiset{x}
    ensures SortedDesc([s[0]] + rest, key)
    ensures multiset([s[0]] + rest) == multiset(s) + multiset{x}
  {
    SortedHead(s, key);
    forall y | y in rest ensures key(y) <= key(s[0]) {
      MemberOfInsert(y, rest, s[1..], x);
    }
    ConsSorted(s[0], rest, key);
    assert s == [s[0]] + s[1..];
  }

  lemma MemberOfInsert<T>(y: T, rest: seq<T>, t: seq<T>, x: T)
    requires multiset(rest) == multiset(t) + multiset{x} && y in rest
    ensures y == x || y in t
  {
    assert y in multiset(rest);
  }

  function SortDesc<T(==)>(s: seq<T>, key: T -> real): (r: seq<T>)
    ensures SortedDesc(r, key)
    ensures multiset(r) == multiset(s) && |r| == |s|
  {
    if s == [] then []
    else
      assert s == [s[0]] + s[1..];
      InsertDesc(s[0], SortDesc(s[1..], key), key)
  }

  /** Sorting never puts two elements with the same projection next to each other where there were none. */
  lemma {:induction false} SortDescDistinctBy<T, U>(s: seq<T>, key: T -> real, f: T -> U)
    requires DistinctBy(s, f)
    ensures DistinctBy(SortDesc(s, key), f)
  {
    if s != [] {
      SortDescDistinctBy(s[1..], key, f);
      var rest := SortDesc(s[1..], key);
      forall y | y in rest ensures f(y) != f(s[0]) {
        assert y in multiset(rest);
        assert y in multiset(s[1..]);
        var k :| 0 <= k < |s[1..]| && s[1..][k] == y;
        assert s[k + 1] == y;
      }
      InsertDescDistinctBy(s[0], rest, key, f);
    }
  }

  lemma {:induction false} InsertDescDistinctBy<T, U>(x: T, s: seq<T>, key: T -> real, f: T -> U)
    requires SortedDesc(s, key)
    requires DistinctBy(s, f)
    requires forall y :: y in s ==> f(y) != f(x)
    ensures DistinctBy(InsertDesc(x, s, key), f)
  {
    if s != [] && key(x) < key(s[0]) {
      InsertDescDistinctBy(x, s[1..], key, f);
      var rest := InsertDesc(x, s[1..], key);
      DistinctHead(s, f);
      forall y | y in rest ensures f(y) != f(s[0]) {
        MemberOfInsert(y, rest, s[1..], x);
      }
      ConsDistinct(s[0], rest, f);
    } else {
      ConsDistinct(x, s, f);
    }
  }

  /** An element that outranks every element of a sorted sequence can head it. */
  lemma ConsSorted<T>(x: T, s: seq<T>, key: T -> real)
    requires SortedDesc(s, key)
    requires forall y :: y in s ==> key(y) <= key(x)
    ensures SortedDesc([x] + s, key)
  {
    forall i, j | 0 <= i < j < |[x] + s| ensures key(([x] + s)[i]) >= key(([x] + s)[j]) {
      assert ([x] + s)[j] == s[j - 1];
      if i > 0 {
        assert ([x] + s)[i] == s[i - 1];
      } else {
        assert s[j - 1] in s;
      }
    }
  }

  /** An element whose projection no element of a sequence shares can head it. */
  lemma ConsDistinct<T, U>(x: T, s: seq<T>, f: T -> U)
    requires DistinctBy(s, f)
    requires forall y :: y in s ==> f(y) != f(x)
    ensures DistinctBy([x] + s, f)
  {
    forall i, j | 0 <= i < j < |[x] + s| ensures f(([x] + s)[i]) != f(([x] + s)[j]) {
      assert ([x] + s)[j] == s[j - 1];
      if i > 0 {
        assert ([x] + s)[i] == s[i - 1];
      } else {
        assert s[j - 1] in s;
      }
    }
  }

  /** The head of a sorted sequence outranks the rest. */
  lemma SortedHead<T>(s: seq<T>, key: T -> real)
    requires SortedDesc(s, key) && s != []
    ensures SortedDesc(s[1..], key)
    ensures forall y :: y in s[1..] ==> key(y) <= key(s[0])
  {
    forall y | y in s[1..] ensures key(y) <= key(s[0]) {
      var k :| 0 <= k < |s[1..]| && s[1..][k] == y;
      assert s[k + 1] == y;
    }
  }

  /** The head of a sequence with distinct projections shares its projection with nothing after it. */
  lemma DistinctHead<T, U>(s: seq<T>, f: T -> U)
    requires DistinctBy(s, f) && s != []
    ensures DistinctBy(s[1..], f)
    ensures forall y :: y in s[1..] ==> f(y) != f(s[0])
  {
    forall y | y in s[1..] ensures f(y) != f(s[0]) {
      var k :| 0 <= k < |s[1..]| && s[1..][k] == y;
      assert s[k + 1] == y;
    }
  }

  /** The first n elements of a sorted sequence are sorted and drawn from it. */
  lemma SortedPrefix<T>(s: seq<T>, n: nat, key: T -> real)
    requires SortedDesc(s, key) && n <= |s|
    ensures SortedDesc(s[..n], key)
    ensures multiset(s[..n]) <= multiset(s)
  {
    assert s == s[..n] + s[n..];
  }

  /** In a sorted sequence no element after the first n has a larger key than one of the first n. */
  lemma SortedPrefixDominates<T>(s: seq<T>, n: nat, key: T -> real)
    requires SortedDesc(s, key) && n <= |s|
    ensures forall x, k :: x in multiset(s) - multiset(s[..n]) && 0 <= k < n ==> key(x) <= key(s[k])
  {
    assert s == s[..n] + s[n..];
    assert multiset(s) - multiset(s[..n]) == multiset(s[n..]);
    forall x, k | x in multiset(s) - multiset(s[..n]) && 0 <= k < n
      ensures key(x) <= key(s[k])
    {
      assert x in s[n..];
      var j :| 0 <= j < |s[n..]| && s[n..][j] == x;
      assert s[n + j] == x;
    }
  }
}
