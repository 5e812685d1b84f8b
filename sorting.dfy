/** `Array.prototype.sort` with a comparator of the form `key(a) - key(b)`: a stable sort by a
    real-valued key. A stable sort is determined by its input, so the insertion sort here has
    exactly the result of JavaScript's (stable) sort for such comparators. */
module Sorting {

  /** Non-decreasing keys. */
  predicate SortedBy<T>(s: seq<T>, key: T -> real) {
    forall i, j :: 0 <= i < j < |s| ==> key(s[i]) <= key(s[j])
  }

  /** The elements of `s` whose key is `v`, in their order in `s`: the elements a comparator
      cannot tell apart. */
  function KeyClass<T>(s: seq<T>, key: T -> real, v: real): (r: seq<T>)
    ensures |r| <= |s|
    ensures forall x :: x in r ==> x in s && key(x) == v
    decreases |s|
  {
    if s == [] then []
    else if key(s[0]) == v then [s[0]] + KeyClass(s[1..], key, v)
    else KeyClass(s[1..], key, v)
  }

  /** Inserts `x` in front of the first element whose key is not smaller than its own. */
  function Insert<T>(x: T, s: seq<T>, key: T -> real): (r: seq<T>)
    ensures multiset(r) == multiset(s) + multiset{x}
    decreases |s|
  {
    if s == [] || key(x) <= key(s[0]) then [x] + s
    else
      assert s == [s[0]] + s[1..];
      [s[0]] + Insert(x, s[1..], key)
  }

  /** Insertion sort: each element is inserted, from the last to the first, into the sorted rest. */
  function Sort<T>(s: seq<T>, key: T -> real): (r: seq<T>)
    ensures multiset(r) == multiset(s)
    decreases |s|
  {
    if s == [] then []
    else
      assert s == [s[0]] + s[1..];
      Insert(s[0], Sort(s[1..], key), key)
  }

  lemma {:induction false} InsertSorted<T>(x: T, s: seq<T>, key: T -> real)
    requires SortedBy(s, key)
    ensures SortedBy(Insert(x, s, key), key)
    decreases |s|
  {
    if s != [] && key(x) > key(s[0]) {
      var t := Insert(x, s[1..], key);
      InsertSorted(x, s[1..], key);
      forall y | y in t ensures key(s[0]) <= key(y) {
        assert y in multiset(t);
        assert y == x || y in multiset(s[1..]);
      }
      SortedCons(s[0], t, key);
    }
  }

  /** An element whose key is at most every key of a sorted list can go in front of it. */
  lemma SortedCons<T>(y: T, t: seq<T>, key: T -> real)
    requires SortedBy(t, key)
    requires forall z :: z in t ==> key(y) <= key(z)
    ensures SortedBy([y] + t, key)
  {
    var r := [y] + t;
    forall i, j | 0 <= i < j < |r| ensures key(r[i]) <= key(r[j]) {
      assert r[j] == t[j - 1];
      if i > 0 {
        assert r[i] == t[i - 1];
      }
    }
  }

  /** The sort orders the keys. */
  lemma {:induction false} SortSorted<T>(s: seq<T>, key: T -> real)
    ensures SortedBy(Sort(s, key), key)
    decreases |s|
  {
    if s != [] {
      SortSorted(s[1..], key);
      InsertSorted(s[0], Sort(s[1..], key), key);
    }
  }

  /** Inserting into a sorted list puts `x` before every element with the same key. */
  lemma {:induction false} InsertKeyClass<T>(x: T, s: seq<T>, key: T -> real, v: real)
    requires SortedBy(s, key)
    ensures KeyClass(Insert(x, s, key), key, v) == (if key(x) == v then [x] else []) + KeyClass(s, key, v)
    decreases |s|
  {
    if s == [] || key(x) <= key(s[0]) {
      assert ([x] + s)[1..] == s;
    } else {
      var t := Insert(x, s[1..], key);
      assert ([s[0]] + t)[1..] == t;
      InsertKeyClass(x, s[1..], key, v);
    }
  }

  /** Stability: the elements with equal keys keep their relative order. */
  lemma {:induction false} SortStable<T>(s: seq<T>, key: T -> real, v: real)
    ensures KeyClass(Sort(s, key), key, v) == KeyClass(s, key, v)
    decreases |s|
  {
    if s != [] {
      SortSorted(s[1..], key);
      InsertKeyClass(s[0], Sort(s[1..], key), key, v);
      SortStable(s[1..], key, v);
    }
  }

  /** A comparator that always answers 0 leaves the list as it is. */
  lemma {:induction false} SortConstantKey<T>(s: seq<T>, key: T -> real, c: real)
    requires forall x :: key(x) == c
    ensures Sort(s, key) == s
    decreases |s|
  {
    if s != [] {
      SortConstantKey(s[1..], key, c);
      assert Sort(s, key) == Insert(s[0], s[1..], key);
      assert s[1..] == [] || key(s[0]) == key(s[1..][0]);
      assert s == [s[0]] + s[1..];
    }
  }

  /** The default order of `Array.prototype.sort()` on strings: lexicographic by character. */
  predicate LexLe(a: string, b: string)
    decreases |a|
  {
    a == [] || (b != [] && (a[0] < b[0] || (a[0] == b[0] && LexLe(a[1..], b[1..]))))
  }

  lemma {:induction false} LexTotal(a: string, b: string)
    ensures LexLe(a, b) || LexLe(b, a)
    decreases |a|
  {
    if a != [] && b != [] && a[0] == b[0] {
      LexTotal(a[1..], b[1..]);
    }
  }

  lemma {:induction false} LexTrans(a: string, b: string, c: string)
    requires LexLe(a, b) && LexLe(b, c)
    ensures LexLe(a, c)
    decreases |a|
  {
    if a != [] && a[0] == b[0] && b[0] == c[0] {
      LexTrans(a[1..], b[1..], c[1..]);
    }
  }

  predicate LexSorted(s: seq<string>) {
    forall i, j :: 0 <= i < j < |s| ==> LexLe(s[i], s[j])
  }

  function InsertString(x: string, s: seq<string>): (r: seq<string>)
    ensures multiset(r) == multiset(s) + multiset{x}
    decreases |s|
  {
    if s == [] || LexLe(x, s[0]) then [x] + s
    else
      assert s == [s[0]] + s[1..];
      [s[0]] + InsertString(x, s[1..])
  }

  /** Insertion sort of strings in the default order. */
  function SortStrings(s: seq<string>): (r: seq<string>)
    ensures multiset(r) == multiset(s)
    decreases |s|
  {
    if s == [] then []
    else
      assert s == [s[0]] + s[1..];
      InsertString(s[0], SortStrings(s[1..]))
  }

  lemma {:induction false} InsertStringSorted(x: string, s: seq<string>)
    requires LexSorted(s)
    ensures LexSorted(InsertString(x, s))
    decreases |s|
  {
    if s == [] {
    } else if LexLe(x, s[0]) {
      forall z | z in s ensures LexLe(x, z) {
        var k :| 0 <= k < |s| && s[k] == z;
        if k > 0 {
          LexTrans(x, s[0], z);
        }
      }
      LexSortedCons(x, s);
    } else {
      LexTotal(x, s[0]);
      var t := InsertString(x, s[1..]);
      InsertStringSorted(x, s[1..]);
      forall y | y in t ensures LexLe(s[0], y) {
        assert y in multiset(t);
        assert y == x || y in multiset(s[1..]);
      }
      LexSortedCons(s[0], t);
    }
  }

  /** A string that comes before every string of a sorted list can go in front of it. */
  lemma LexSortedCons(y: string, t: seq<string>)
    requires LexSorted(t)
    requires forall z :: z in t ==> LexLe(y, z)
    ensures LexSorted([y] + t)
  {
    var r := [y] + t;
    forall i, j | 0 <= i < j < |r| ensures LexLe(r[i], r[j]) {
      assert r[j] == t[j - 1];
      if i > 0 {
        assert r[i] == t[i - 1];
      }
    }
  }

  lemma {:induction false} SortStringsSorted(s: seq<string>)
    ensures LexSorted(SortStrings(s))
    decreases |s|
  {
    if s != [] {
      SortStringsSorted(s[1..]);
      InsertStringSorted(s[0], SortStrings(s[1..]));
    }
  }
}
