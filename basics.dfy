/** Small generic helpers shared by every module: an optional value and list filtering. */
module Basics {

  /** A value that may be absent (JavaScript's `undefined` / `null`). */
  datatype Option<+T> = None | Some(value: T) {
    function GetOr(default: T): T {
      if Some? then value else default
    }
  }

  /** `Array.prototype.filter`: the elements satisfying `keep`, in their original order. */
  function Filter<T(!new)>(s: seq<T>, keep: T -> bool): (r: seq<T>)
    ensures |r| <= |s|
    ensures forall x :: x in r <==> x in s && keep(x)
    ensures multiset(r) <= multiset(s)
    decreases |s|
  {
    if s == [] then []
    else
      assert s == [s[0]] + s[1..];
      if keep(s[0]) then [s[0]] + Filter(s[1..], keep)
      else Filter(s[1..], keep)
  }

  lemma {:induction false} FilterAppend<T(!new)>(a: seq<T>, b: seq<T>, keep: T -> bool)
    ensures Filter(a + b, keep) == Filter(a, keep) + Filter(b, keep)
    decreases |a|
  {
    if a != [] {
      assert (a + b)[1..] == a[1..] + b;
      FilterAppend(a[1..], b, keep);
    } else {
      assert a + b == b;
    }
  }

  /** Filtering works element by element: an element anywhere in the list is kept or dropped in
      its place, and the parts before and after it are filtered on their own. */
  lemma FilterInOrder<T(!new)>(a: seq<T>, x: T, b: seq<T>, keep: T -> bool)
    ensures Filter(a + [x] + b, keep) == Filter(a, keep) + (if keep(x) then [x] else []) + Filter(b, keep)
  {
    FilterAppend(a + [x], b, keep);
    FilterAppend(a, [x], keep);
    FilterOne(x, keep);
  }

  /** Dropping the one element that fails `keep` leaves the elements around it as they are. */
  lemma FilterDropOne<T(!new)>(a: seq<T>, x: T, b: seq<T>, keep: T -> bool)
    requires forall i :: 0 <= i < |a| ==> keep(a[i])
    requires !keep(x)
    requires forall i :: 0 <= i < |b| ==> keep(b[i])
    ensures Filter(a + [x] + b, keep) == a + b
  {
    calc {
      Filter(a + [x] + b, keep);
      { FilterInOrder(a, x, b, keep); }
      Filter(a, keep) + [] + Filter(b, keep);
      { FilterAllKept(a, keep); FilterAllKept(b, keep); }
      a + [] + b;
      { DropEmpty(a, b); }
      a + b;
    }
  }

  lemma DropEmpty<T>(a: seq<T>, b: seq<T>)
    ensures a + [] + b == a + b
  {
    assert a + [] == a;
  }

  lemma FilterOne<T(!new)>(x: T, keep: T -> bool)
    ensures Filter([x], keep) == if keep(x) then [x] else []
  {
    assert [x][1..] == [];
    assert Filter([x][1..], keep) == [];
  }

  /** Filtering keeps every copy of a kept element and no copy of a dropped one. */
  lemma {:induction false} FilterCount<T(!new)>(s: seq<T>, keep: T -> bool, x: T)
    ensures multiset(Filter(s, keep))[x] == if keep(x) then multiset(s)[x] else 0
    decreases |s|
  {
    if s != [] {
      assert s == [s[0]] + s[1..];
      FilterCount(s[1..], keep, x);
    }
  }

  /** Filtering a list that has no element to drop leaves it as it is. */
  lemma {:induction false} FilterAllKept<T(!new)>(s: seq<T>, keep: T -> bool)
    requires forall i :: 0 <= i < |s| ==> keep(s[i])
    ensures Filter(s, keep) == s
    decreases |s|
  {
    if s != [] {
      FilterAllKept(s[1..], keep);
    }
  }

  /** `Array.from(new Set(s))`: the distinct elements of `s` in order of first occurrence. */
  function Distinct<T(==, !new)>(s: seq<T>): (r: seq<T>)
    ensures forall x :: x in r <==> x in s
    ensures forall i, j :: 0 <= i < j < |r| ==> r[i] != r[j]
    decreases |s|
  {
    var r := DistinctFrom(s, []);
    assert [] + r == r;
    r
  }

  /** Appends to `seen` the elements of `s` not already in it, in first-occurrence order, and
      returns only the appended part. */
  function DistinctFrom<T(==, !new)>(s: seq<T>, seen: seq<T>): (r: seq<T>)
    requires forall i, j :: 0 <= i < j < |seen| ==> seen[i] != seen[j]
    ensures forall x :: x in r <==> x in s && x !in seen
    ensures forall i, j :: 0 <= i < j < |seen + r| ==> (seen + r)[i] != (seen + r)[j]
    decreases |s|
  {
    if s == [] then []
    else if s[0] in seen then DistinctFrom(s[1..], seen)
    else
      var rest := DistinctFrom(s[1..], seen + [s[0]]);
      assert seen + [s[0]] + rest == seen + ([s[0]] + rest);
      [s[0]] + rest
  }

  /** The index of the first occurrence of `x` in `s`. */
  function IndexOf<T(==)>(s: seq<T>, x: T): (i: nat)
    requires x in s
    ensures i < |s| && s[i] == x
    ensures forall j :: 0 <= j < i ==> s[j] != x
    decreases |s|
  {
    if s[0] == x then 0 else IndexOf(s[1..], x) + 1
  }

  /** The elements `DistinctFrom` keeps come in the order of their first occurrence in `s`. */
  lemma {:induction false} DistinctFromOrder<T(!new)>(s: seq<T>, seen: seq<T>)
    requires forall i, j :: 0 <= i < j < |seen| ==> seen[i] != seen[j]
    ensures forall i, j :: 0 <= i < j < |DistinctFrom(s, seen)| ==>
              IndexOf(s, DistinctFrom(s, seen)[i]) < IndexOf(s, DistinctFrom(s, seen)[j])
    decreases |s|
  {
    if s != [] {
      var r := DistinctFrom(s, seen);
      if s[0] in seen {
        DistinctFromOrder(s[1..], seen);
        forall x | x in r ensures IndexOf(s, x) == IndexOf(s[1..], x) + 1 {
          assert x !in seen;
        }
      } else {
        var seen' := seen + [s[0]];
        var rest := DistinctFrom(s[1..], seen');
        assert r == [s[0]] + rest;
        DistinctFromOrder(s[1..], seen');
        forall x | x in rest ensures IndexOf(s, x) == IndexOf(s[1..], x) + 1 {
          assert x !in seen';
        }
        OrderedCons(s, rest);
      }
    }
  }

  /** Putting the head of `s` in front of a list of later elements, ordered by first occurrence,
      keeps it ordered. */
  lemma OrderedCons<T(!new)>(s: seq<T>, rest: seq<T>)
    requires s != [] && forall x :: x in rest ==> x in s[1..]
    requires forall x :: x in rest ==> IndexOf(s, x) == IndexOf(s[1..], x) + 1
    requires forall i, j :: 0 <= i < j < |rest| ==> IndexOf(s[1..], rest[i]) < IndexOf(s[1..], rest[j])
    ensures var r := [s[0]] + rest;
            && (forall k :: 0 <= k < |r| ==> r[k] in s)
            && forall i, j :: 0 <= i < j < |r| ==> IndexOf(s, r[i]) < IndexOf(s, r[j])
  {
    var r := [s[0]] + rest;
    forall k | 0 <= k < |r| ensures r[k] in s {
      if k > 0 {
        assert r[k] == rest[k - 1];
      }
    }
    forall i, j | 0 <= i < j < |r| ensures IndexOf(s, r[i]) < IndexOf(s, r[j]) {
      assert r[j] == rest[j - 1];
      if i > 0 {
        assert r[i] == rest[i - 1];
      }
    }
  }

  /** `Array.from(new Set(s))` lists each element in the order of its first occurrence. */
  lemma DistinctOrder<T(!new)>(s: seq<T>)
    ensures forall i, j :: 0 <= i < j < |Distinct(s)| ==> IndexOf(s, Distinct(s)[i]) < IndexOf(s, Distinct(s)[j])
  {
    DistinctFromOrder(s, []);
  }

  ghost predicate AllDistinct<T(!new)>(s: seq<T>) {
    forall i, j :: 0 <= i < j < |s| ==> s[i] != s[j]
  }

  lemma {:induction false} DistinctCount<T(!new)>(s: seq<T>, x: T)
    requires AllDistinct(s)
    ensures multiset(s)[x] <= 1
    decreases |s|
  {
    if s != [] {
      assert s == [s[0]] + s[1..];
      DistinctCount(s[1..], x);
      if s[0] == x {
        assert x !in s[1..] by {
          forall k | 0 <= k < |s[1..]| ensures s[1..][k] != x {
            assert s[1..][k] == s[k + 1];
          }
        }
      }
    }
  }

  /** A rearrangement of a list without repetitions has none either. */
  lemma DistinctPermutation<T(!new)>(a: seq<T>, b: seq<T>)
    requires AllDistinct(a) && multiset(a) == multiset(b)
    ensures AllDistinct(b)
  {
    forall i, j | 0 <= i < j < |b| ensures b[i] != b[j] {
      var x := b[j];
      DistinctCount(a, x);
      assert b == b[..j] + b[j..];
      assert x in b[j..];
      assert multiset(b)[x] == multiset(b[..j])[x] + multiset(b[j..])[x];
      assert x !in b[..j];
      assert b[i] == b[..j][i];
    }
  }
}
