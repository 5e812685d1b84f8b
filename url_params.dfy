/** `URLSearchParams` as the catalogue uses it: an ordered list of name/value pairs with the
    first-value lookup, the removal of a name and the replacement of a name's values, as the
    URL Standard (section 6.2, "Interface URLSearchParams") defines them. Percent-encoding is
    not modelled: the pairs are the decoded names and values. */
module UrlParams {
  import opened Basics

  type Params = seq<(string, string)>

  /** `getAll(name)`: the values of the pairs named `name`, in order. */
  function Values(p: Params, name: string): (r: seq<string>)
    ensures |r| <= |p|
    ensures forall v :: v in r <==> (name, v) in p
    decreases |p|
  {
    if p == [] then []
    else
      assert p == [p[0]] + p[1..];
      (if p[0].0 == name then [p[0].1] else []) + Values(p[1..], name)
  }

  /** `get(name)`: the first value, or null. */
  function FirstValue(p: Params, name: string): (r: Option<string>)
    ensures r.None? <==> forall v :: (name, v) !in p
    ensures r.Some? ==> (name, r.value) in p
    ensures r.Some? ==> r.value == Values(p, name)[0]
    ensures r.Some? ==> exists i :: 0 <= i < |p| && p[i] == (name, r.value) && forall j :: 0 <= j < i ==> p[j].0 != name
  {
    var vs := Values(p, name);
    if vs == [] then None else assert vs[0] in vs; FirstPair(p, name); Some(vs[0])
  }

  /** The first value of a name comes from the first pair with that name. */
  lemma {:induction false} FirstPair(p: Params, name: string)
    requires Values(p, name) != []
    ensures exists i :: 0 <= i < |p| && p[i] == (name, Values(p, name)[0]) && forall j :: 0 <= j < i ==> p[j].0 != name
    decreases |p|
  {
    if p[0].0 != name {
      assert Values(p, name) == Values(p[1..], name);
      FirstPair(p[1..], name);
      var i :| 0 <= i < |p[1..]| && p[1..][i] == (name, Values(p, name)[0]) && forall j :: 0 <= j < i ==> p[1..][j].0 != name;
      assert p[i + 1] == p[1..][i];
      forall j | 0 <= j < i + 1 ensures p[j].0 != name {
        if j > 0 {
          assert p[j] == p[1..][j - 1];
        }
      }
    } else {
      assert p[0] == (name, Values(p, name)[0]);
    }
  }

  /** `delete(name)`: every pair named `name` goes; the others stay, in order. */
  function DeleteKey(p: Params, name: string): (r: Params)
    ensures Values(r, name) == []
    ensures forall k :: k != name ==> Values(r, k) == Values(p, k)
    ensures forall e :: e in r <==> e in p && e.0 != name
    decreases |p|
  {
    if p == [] then []
    else
      assert p == [p[0]] + p[1..];
      ValuesCons(p[0], p[1..]);
      var t := DeleteKey(p[1..], name);
      if p[0].0 == name then t
      else
        ValuesCons(p[0], t);
        assert forall e :: e in [p[0]] + t <==> e == p[0] || e in t;
        [p[0]] + t
  }

  /** The values of a list with one more pair in front. */
  lemma ValuesCons(e: (string, string), t: Params)
    ensures forall k :: Values([e] + t, k) == (if e.0 == k then [e.1] else []) + Values(t, k)
  {
    assert ([e] + t)[1..] == t;
  }

  /** `set(name, value)`: the first pair named `name` takes the value in place and the later
      ones go; without such a pair, the pair is appended. */
  function SetKey(p: Params, name: string, value: string): (r: Params)
    ensures Values(r, name) == [value]
    ensures forall k :: k != name ==> Values(r, k) == Values(p, k)
    decreases |p|
  {
    if p == [] then [(name, value)]
    else if p[0].0 == name then
      var r := [(name, value)] + DeleteKey(p[1..], name);
      assert r[1..] == DeleteKey(p[1..], name);
      r
    else
      var r := [p[0]] + SetKey(p[1..], name, value);
      assert r[1..] == SetKey(p[1..], name, value);
      r
  }

  /** Deleting a name that is absent changes nothing. */
  lemma {:induction false} DeleteAbsent(p: Params, name: string)
    requires Values(p, name) == []
    ensures DeleteKey(p, name) == p
    decreases |p|
  {
    if p != [] {
      ValuesTail(p, name);
      DeleteAbsent(p[1..], name);
      assert DeleteKey(p, name) == [p[0]] + DeleteKey(p[1..], name);
      assert p == [p[0]] + p[1..];
    }
  }

  /** Removing the first pair does not bring back a name. */
  lemma ValuesTail(p: Params, name: string)
    requires p != [] && Values(p, name) == []
    ensures Values(p[1..], name) == [] && p[0].0 != name
  {
    assert p[0] in p;
    forall v ensures (name, v) !in p[1..] {
      assert (name, v) in p[1..] ==> (name, v) in p;
    }
  }

  /** Setting an absent name appends the pair, so deleting the name gives the list back. */
  lemma {:induction false} DeleteAfterSetAbsent(p: Params, name: string, value: string)
    requires Values(p, name) == []
    ensures DeleteKey(SetKey(p, name, value), name) == p
    decreases |p|
  {
    if p == [] {
      assert [(name, value)][1..] == [];
    } else {
      ValuesTail(p, name);
      DeleteAfterSetAbsent(p[1..], name, value);
      var t := SetKey(p[1..], name, value);
      assert ([p[0]] + t)[1..] == t;
      assert p == [p[0]] + p[1..];
    }
  }

  /** A name with a single pair: setting it twice is setting it to the second value, and setting
      it back to its own value changes nothing. */
  lemma {:induction false} SetSingleTwice(p: Params, name: string, x: string, y: string)
    requires Values(p, name) == [y]
    ensures SetKey(SetKey(p, name, x), name, y) == p
    decreases |p|
  {
    assert p != [];
    assert Values(p, name) == (if p[0].0 == name then [p[0].1] else []) + Values(p[1..], name);
    if p[0].0 == name {
      assert Values(p[1..], name) == [];
      DeleteAbsent(p[1..], name);
      var r1 := SetKey(p, name, x);
      assert r1 == [(name, x)] + p[1..];
      assert r1[1..] == p[1..];
      assert p == [p[0]] + p[1..];
    } else {
      SetSingleTwice(p[1..], name, x, y);
      var r1 := SetKey(p, name, x);
      assert r1[0] == p[0] && r1[1..] == SetKey(p[1..], name, x);
      assert p == [p[0]] + p[1..];
    }
  }

  /** The `URLSearchParams` object that `updateParams` builds from the current parameters and
      changes in place. */
  class SearchParams {
    var entries: Params

    constructor(init: Params)
      ensures entries == init
    {
      entries := init;
    }

    function Get(name: string): (r: Option<string>)
      reads this
      ensures r.None? <==> forall v :: (name, v) !in entries
    {
      FirstValue(entries, name)
    }

    method Delete(name: string)
      modifies this
      ensures entries == DeleteKey(old(entries), name)
    {
      entries := DeleteKey(entries, name);
    }

    method Set(name: string, value: string)
      modifies this
      ensures entries == SetKey(old(entries), name, value)
    {
      entries := SetKey(entries, name, value);
    }
  }
}
