/** The filter panel of components/wine/FilterBar.tsx: the facet options derived from the wines
    shown, the change of the URL parameters when a facet is clicked, and the list of active
    filters shown above the catalogue. Navigation and rendering are not modelled: a parameter
    change is the new parameter list. */
module FilterBar {
  import opened Basics
  import opened Text
  import opened ProductTypes
  import opened Sorting
  import opened UrlParams

  // ----- Facet options -----

  /** The (name, slug) pairs of a list of categories. */
  function Pairs(cats: seq<Term>): (r: seq<(string, string)>)
    ensures forall e :: e in r <==> exists c :: c in cats && e == (c.name, c.slug)
  {
    var r := seq(|cats|, k requires 0 <= k < |cats| => (cats[k].name, cats[k].slug));
    assert forall k :: 0 <= k < |cats| ==> r[k] == (cats[k].name, cats[k].slug);
    r
  }

  /** The (name, slug) pairs of the wines' categories, wine by wine, in order. */
  function CategoryPairs(wines: seq<WineInfo>): (r: seq<(string, string)>)
    ensures forall e :: e in r <==> exists w :: w in wines && e in Pairs(w.categories)
    decreases |wines|
  {
    if wines == [] then []
    else
      var rest := CategoryPairs(wines[1..]);
      assert forall w :: w in wines <==> w == wines[0] || w in wines[1..] by {
        assert wines == [wines[0]] + wines[1..];
      }
      Pairs(wines[0].categories) + rest
  }

  /** The category options: each (name, slug) pair once, in order of first occurrence. */
  function Categories(wines: seq<WineInfo>): (r: seq<(string, string)>)
    ensures forall e :: e in r <==> e in CategoryPairs(wines)
    ensures AllDistinct(r)
    ensures forall i, j :: 0 <= i < j < |r| ==> IndexOf(CategoryPairs(wines), r[i]) < IndexOf(CategoryPairs(wines), r[j])
  {
    DistinctOrder(CategoryPairs(wines));
    Distinct(CategoryPairs(wines))
  }

  /** The options of the first attribute named "rebsorte" (ignoring case), or none. */
  function GrapeOptions(attrs: seq<Attribute>): (r: seq<string>)
    ensures r != [] ==> exists i :: 0 <= i < |attrs| && Lower(attrs[i].name) == "rebsorte" && r == attrs[i].options
                                    && forall j :: 0 <= j < i ==> Lower(attrs[j].name) != "rebsorte"
    ensures forall i :: (0 <= i < |attrs| && Lower(attrs[i].name) == "rebsorte"
                         && forall j :: 0 <= j < i ==> Lower(attrs[j].name) != "rebsorte") ==> r == attrs[i].options
    ensures (forall a :: a in attrs ==> Lower(a.name) != "rebsorte") ==> r == []
    decreases |attrs|
  {
    if attrs == [] then []
    else if Lower(attrs[0].name) == "rebsorte" then attrs[0].options
    else
      var r := GrapeOptions(attrs[1..]);
      assert r != [] ==> exists i :: 0 <= i < |attrs| && Lower(attrs[i].name) == "rebsorte" && r == attrs[i].options
                                    && forall j :: 0 <= j < i ==> Lower(attrs[j].name) != "rebsorte" by {
        if r != [] {
          var i :| 0 <= i < |attrs[1..]| && Lower(attrs[1..][i].name) == "rebsorte" && r == attrs[1..][i].options
                   && forall j :: 0 <= j < i ==> Lower(attrs[1..][j].name) != "rebsorte";
          assert attrs[1..][i] == attrs[i + 1];
          forall j | 0 <= j < i + 1 ensures Lower(attrs[j].name) != "rebsorte" {
            if j > 0 {
              assert attrs[j] == attrs[1..][j - 1];
            }
          }
        }
      }
      r
  }

  /** The grape options of all wines, wine by wine. */
  function AllGrapes(wines: seq<WineInfo>): (r: seq<string>)
    ensures forall g :: g in r <==> exists i :: 0 <= i < |wines| && g in GrapeOptions(wines[i].attributes)
    decreases |wines|
  {
    if wines == [] then []
    else
      var rest := AllGrapes(wines[1..]);
      assert forall g :: g in rest <==> exists i :: 1 <= i < |wines| && g in GrapeOptions(wines[i].attributes) by {
        forall g ensures g in rest <==> exists i :: 1 <= i < |wines| && g in GrapeOptions(wines[i].attributes) {
          if g in rest {
            var i :| 0 <= i < |wines[1..]| && g in GrapeOptions(wines[1..][i].attributes);
            assert wines[1..][i] == wines[i + 1];
          }
          if exists i :: 1 <= i < |wines| && g in GrapeOptions(wines[i].attributes) {
            var i :| 1 <= i < |wines| && g in GrapeOptions(wines[i].attributes);
            assert wines[1..][i - 1] == wines[i];
          }
        }
      }
      GrapesCons(wines, rest);
      GrapeOptions(wines[0].attributes) + rest
  }

  lemma GrapesCons(wines: seq<WineInfo>, rest: seq<string>)
    requires wines != []
    requires forall g :: g in rest <==> exists i :: 1 <= i < |wines| && g in GrapeOptions(wines[i].attributes)
    ensures forall g :: g in GrapeOptions(wines[0].attributes) + rest <==>
              exists i :: 0 <= i < |wines| && g in GrapeOptions(wines[i].attributes)
  {
  }

  /** The grape options: each grape once, in ascending order. */
  function Grapes(wines: seq<WineInfo>): (r: seq<string>)
    ensures forall g :: g in r <==> exists i :: 0 <= i < |wines| && g in GrapeOptions(wines[i].attributes)
    ensures AllDistinct(r)
    ensures LexSorted(r)
  {
    var grapes := Distinct(AllGrapes(wines));
    var r := SortStrings(grapes);
    forall g ensures g in r <==> g in grapes {
      assert g in r <==> g in multiset(r);
      assert g in grapes <==> g in multiset(grapes);
    }
    DistinctPermutation(grapes, r);
    SortStringsSorted(grapes);
    r
  }

  function Vintages(wines: seq<WineInfo>): (r: seq<int>)
    ensures |r| == |wines|
    ensures forall i :: 0 <= i < |wines| ==> r[i] == wines[i].year
  {
    seq(|wines|, i requires 0 <= i < |wines| => wines[i].year)
  }

  /** The comparator `b - a`, as the key it subtracts. */
  function Descending(y: int): real {
    -(y as real)
  }

  /** The year options: each vintage once, newest first. */
  function Years(wines: seq<WineInfo>): (r: seq<int>)
    ensures forall y :: y in r <==> exists w :: w in wines && w.year == y
    ensures forall i, j :: 0 <= i < j < |r| ==> r[i] > r[j]
  {
    var r := Sort(Distinct(Vintages(wines)), Descending);
    YearsList(wines, r);
    r
  }

  lemma YearsList(wines: seq<WineInfo>, r: seq<int>)
    requires r == Sort(Distinct(Vintages(wines)), Descending)
    ensures forall y :: y in r <==> exists w :: w in wines && w.year == y
    ensures forall i, j :: 0 <= i < j < |r| ==> r[i] > r[j]
  {
    var years := Distinct(Vintages(wines));
    forall y ensures y in r <==> y in years {
      assert y in r <==> y in multiset(r);
      assert y in years <==> y in multiset(years);
    }
    DistinctPermutation(years, r);
    SortSorted(years, Descending);
    forall i, j | 0 <= i < j < |r| ensures r[i] > r[j] {
      assert Descending(r[i]) <= Descending(r[j]);
      assert r[i] != r[j];
    }
    VintagesMembers(wines);
  }

  lemma VintagesMembers(wines: seq<WineInfo>)
    ensures forall y :: y in Vintages(wines) <==> exists w :: w in wines && w.year == y
  {
    forall y ensures y in Vintages(wines) <==> exists w :: w in wines && w.year == y {
      if y in Vintages(wines) {
        var i :| 0 <= i < |Vintages(wines)| && Vintages(wines)[i] == y;
        assert wines[i] in wines;
      }
      if exists w :: w in wines && w.year == y {
        var w :| w in wines && w.year == y;
        var i :| 0 <= i < |wines| && wines[i] == w;
        assert Vintages(wines)[i] == y;
      }
    }
  }

  // ----- Parameter update -----

  /** The comma-separated list held by a multi-select parameter: `get(key)?.split(',') || []`.
      A present but empty value is the list with one empty piece. */
  function CommaList(p: Params, key: string): (r: seq<string>)
    ensures forall k :: 0 <= k < |r| ==> ',' !in r[k]
    ensures r == [] <==> FirstValue(p, key).None?
  {
    match FirstValue(p, key)
    case None => []
    case Some(s) => SplitPiecesFree(s, ','); Split(s, ",")
  }

  /** `current.filter(v => v !== value)`. */
  function RemoveAll(s: seq<string>, v: string): (r: seq<string>)
    ensures forall x :: x in r <==> x in s && x != v
  {
    Filter(s, (x: string) => x != v)
  }

  /** Removal keeps the other values where they were. */
  lemma RemoveAllInOrder(a: seq<string>, x: string, b: seq<string>, v: string)
    ensures RemoveAll(a + [x] + b, v) == RemoveAll(a, v) + (if x != v then [x] else []) + RemoveAll(b, v)
  {
    FilterInOrder(a, x, b, (x: string) => x != v);
  }

  /** Every copy of another value stays; no copy of the value does. */
  lemma RemoveAllCount(s: seq<string>, v: string, x: string)
    ensures multiset(RemoveAll(s, v))[x] == if x != v then multiset(s)[x] else 0
  {
    FilterCount(s, (x: string) => x != v, x);
  }

  predicate MultiSelect(key: string) {
    key == "grape" || key == "year"
  }

  /** `updateParams(key, value)`: null deletes the key; for grape and year the value is toggled
      in the comma list (an emptied list deletes the key); any other key is single-select, the
      same value clearing it. Other keys are never touched. */
  function UpdatedParams(p: Params, key: string, value: Option<string>): (r: Params)
    ensures forall k :: k != key ==> Values(r, k) == Values(p, k)
  {
    match value
    case None => DeleteKey(p, key)
    case Some(v) =>
      if MultiSelect(key) then
        var current := CommaList(p, key);
        if v in current then
          var rest := RemoveAll(current, v);
          if |rest| > 0 then SetKey(p, key, Join(rest, ",")) else DeleteKey(p, key)
        else SetKey(p, key, Join(current + [v], ","))
      else if FirstValue(p, key) == Some(v) then DeleteKey(p, key)
      else SetKey(p, key, v)
  }

  /** The handler itself: it copies the parameters into a fresh `URLSearchParams`, changes it
      in place, pushing onto the comma list when a value is added, and hands the result to the
      router. */
  method UpdateParams(current: Params, key: string, value: Option<string>) returns (next: Params)
    ensures next == UpdatedParams(current, key, value)
  {
    var params := new SearchParams(current);
    if value.None? {
      params.Delete(key);
    } else if MultiSelect(key) {
      var v := value.value;
      var list := CommaList(params.entries, key);
      if v in list {
        var rest := RemoveAll(list, v);
        if |rest| > 0 {
          params.Set(key, Join(rest, ","));
        } else {
          params.Delete(key);
        }
      } else {
        list := list + [v];
        params.Set(key, Join(list, ","));
      }
    } else {
      if params.Get(key) == value {
        params.Delete(key);
      } else {
        params.Set(key, value.value);
      }
    }
    next := params.entries;
  }

  /** A null value removes the key. */
  lemma NullDeletes(p: Params, key: string)
    ensures Values(UpdatedParams(p, key, None), key) == []
  {
  }

  /** Reading back a list written with `join(',')` gives the list, when no piece holds a comma. */
  lemma CommaListOfJoin(p: Params, key: string, xs: seq<string>)
    requires xs != [] && forall k :: 0 <= k < |xs| ==> ',' !in xs[k]
    ensures CommaList(SetKey(p, key, Join(xs, ",")), key) == xs
  {
    SplitJoin(xs, ',');
  }

  /** Clicking a grape or year already selected removes it, every copy of it, and keeps the
      other selected values in order. */
  lemma TogglePresent(p: Params, key: string, v: string)
    requires MultiSelect(key) && v in CommaList(p, key)
    ensures CommaList(UpdatedParams(p, key, Some(v)), key) == RemoveAll(CommaList(p, key), v)
    ensures v !in CommaList(UpdatedParams(p, key, Some(v)), key)
  {
    var current := CommaList(p, key);
    var rest := RemoveAll(current, v);
    if |rest| > 0 {
      forall k | 0 <= k < |rest| ensures ',' !in rest[k] {
        assert rest[k] in rest;
      }
      CommaListOfJoin(p, key, rest);
    }
  }

  /** Clicking a grape or year not selected appends it to the list. */
  lemma ToggleAbsent(p: Params, key: string, v: string)
    requires MultiSelect(key) && v !in CommaList(p, key) && ',' !in v
    ensures CommaList(UpdatedParams(p, key, Some(v)), key) == CommaList(p, key) + [v]
  {
    var xs := CommaList(p, key) + [v];
    forall k | 0 <= k < |xs| ensures ',' !in xs[k] {
      if k < |xs| - 1 {
        assert xs[k] == CommaList(p, key)[k];
      }
    }
    CommaListOfJoin(p, key, xs);
  }

  lemma RemoveAllAppended(xs: seq<string>, v: string)
    requires v !in xs
    ensures RemoveAll(xs + [v], v) == xs
  {
    var keep := (x: string) => x != v;
    FilterAppend(xs, [v], keep);
    FilterAllKept(xs, keep);
    assert Filter([v], keep) == [] by {
      assert [v][1..] == [];
    }
  }

  /** Clicking the same unselected grape or year twice gives the parameters back, when the key
      was set at most once and the value holds no comma. */
  lemma ToggleTwice(p: Params, key: string, v: string)
    requires MultiSelect(key) && v !in CommaList(p, key) && ',' !in v
    requires |Values(p, key)| <= 1
    ensures UpdatedParams(UpdatedParams(p, key, Some(v)), key, Some(v)) == p
  {
    ToggleTwiceSteps(p, key, v);
    SetThenUndo(p, key, Join(CommaList(p, key) + [v], ","));
  }

  /** Setting a key held at most once and then restoring its comma list gives the parameters
      back. */
  lemma SetThenUndo(p: Params, key: string, joined: string)
    requires |Values(p, key)| <= 1
    ensures var current := CommaList(p, key);
            var r1 := SetKey(p, key, joined);
            (if current == [] then DeleteKey(r1, key) else SetKey(r1, key, Join(current, ","))) == p
  {
    var current := CommaList(p, key);
    if current == [] {
      assert Values(p, key) == [] by {
        assert FirstValue(p, key).None?;
      }
      DeleteAfterSetAbsent(p, key, joined);
    } else {
      var s := FirstValue(p, key).value;
      assert Values(p, key) == [s];
      JoinSplit(s, ",");
      SetSingleTwice(p, key, joined, s);
    }
  }

  /** The first click appends the value; the second one takes it off again, deleting the key
      when nothing else was selected. */
  lemma ToggleTwiceSteps(p: Params, key: string, v: string)
    requires MultiSelect(key) && v !in CommaList(p, key) && ',' !in v
    ensures var current := CommaList(p, key);
            var r1 := SetKey(p, key, Join(current + [v], ","));
            && UpdatedParams(p, key, Some(v)) == r1
            && UpdatedParams(r1, key, Some(v)) == if current == [] then DeleteKey(r1, key) else SetKey(r1, key, Join(current, ","))
  {
    ToggleAbsent(p, key, v);
    RemoveAllAppended(CommaList(p, key), v);
  }

  /** Any other key holds one value: its own value clears it, another value replaces it. */
  lemma SingleSelect(p: Params, key: string, v: string)
    requires !MultiSelect(key)
    ensures FirstValue(p, key) == Some(v) ==> FirstValue(UpdatedParams(p, key, Some(v)), key).None?
    ensures FirstValue(p, key) != Some(v) ==> Values(UpdatedParams(p, key, Some(v)), key) == [v]
  {
  }

  // ----- Active filters -----

  /** An entry of `activeFiltersList`; its `title` is the entry's `label` (a reserved word here). */
  datatype ActiveFilter = ActiveFilter(key: string, title: string, value: string, displayValue: string)

  /** The name shown for the selected category: the name of the first option with that slug,
      or the slug itself when there is none or its name is empty. */
  function CategoryName(categories: seq<(string, string)>, slug: string): (r: string)
    ensures (forall c :: c in categories ==> c.1 != slug) ==> r == slug
    ensures |categories| > 0 && categories[0].1 == slug ==> r == (if categories[0].0 != "" then categories[0].0 else slug)
    ensures r == slug || exists c :: c in categories && c.1 == slug && c.0 == r
    ensures forall i :: (0 <= i < |categories| && categories[i].1 == slug
                         && forall j :: 0 <= j < i ==> categories[j].1 != slug) ==>
              r == (if categories[i].0 != "" then categories[i].0 else slug)
    decreases |categories|
  {
    if categories == [] then slug
    else if categories[0].1 == slug then (if categories[0].0 != "" then categories[0].0 else slug)
    else
      var r := CategoryName(categories[1..], slug);
      assert forall c :: c in categories[1..] ==> c in categories;
      r
  }

  /** One entry per piece, each showing the piece itself. */
  function Entries(key: string, title: string, pieces: seq<string>): (r: seq<ActiveFilter>)
    ensures |r| == |pieces|
    ensures forall i :: 0 <= i < |pieces| ==> r[i] == ActiveFilter(key, title, pieces[i], pieces[i])
  {
    seq(|pieces|, i requires 0 <= i < |pieces| => ActiveFilter(key, title, pieces[i], pieces[i]))
  }

  /** The entries of a non-empty comma-separated multi-select parameter. */
  function ListEntries(p: Params, key: string, title: string): (r: seq<ActiveFilter>)
    ensures forall i :: 0 <= i < |r| ==> r[i].key == key
  {
    match FirstValue(p, key)
    case Some(s) => if s != "" then Entries(key, title, Split(s, ",")) else []
    case None => []
  }

  function CategoryEntries(p: Params, categories: seq<(string, string)>, title: string): (r: seq<ActiveFilter>)
    ensures |r| <= 1
    ensures forall i :: 0 <= i < |r| ==> r[i].key == "category"
  {
    match FirstValue(p, "category")
    case Some(c) => if c != "" then [ActiveFilter("category", title, c, CategoryName(categories, c))] else []
    case None => []
  }

  /** `activeFiltersList`: the category entry, then one entry per grape, then one per year. */
  function ActiveFiltersOf(p: Params, categories: seq<(string, string)>, translate: string -> string): (r: seq<ActiveFilter>)
    ensures forall i :: 0 <= i < |r| ==> r[i].key == "category" || r[i].key == "grape" || r[i].key == "year"
    ensures forall i :: 0 < i < |r| ==> r[i].key != "category"
  {
    CategoryEntries(p, categories, translate("filter_category"))
    + ListEntries(p, "grape", translate("filter_grape"))
    + ListEntries(p, "year", translate("filter_year"))
  }

  /** Pushes one entry per piece of the parameter onto `list`. */
  method PushEntries(list: seq<ActiveFilter>, p: Params, key: string, title: string) returns (r: seq<ActiveFilter>)
    ensures r == list + ListEntries(p, key, title)
  {
    r := list;
    var param := FirstValue(p, key);
    if param.Some? && param.value != "" {
      var pieces := Split(param.value, ",");
      var i := 0;
      while i < |pieces|
        invariant 0 <= i <= |pieces|
        invariant r == list + Entries(key, title, pieces[..i])
      {
        r := r + [ActiveFilter(key, title, pieces[i], pieces[i])];
        i := i + 1;
        assert Entries(key, title, pieces[..i]) == Entries(key, title, pieces[..i - 1]) + [ActiveFilter(key, title, pieces[i - 1], pieces[i - 1])];
      }
      assert pieces[..i] == pieces;
    }
  }

  method ActiveFiltersList(p: Params, categories: seq<(string, string)>, translate: string -> string)
    returns (list: seq<ActiveFilter>)
    ensures list == ActiveFiltersOf(p, categories, translate)
  {
    var categoryTitle, grapeTitle, yearTitle := translate("filter_category"), translate("filter_grape"), translate("filter_year");
    list := [];
    var currentCategory := FirstValue(p, "category");
    if currentCategory.Some? && currentCategory.value != "" {
      var c := currentCategory.value;
      list := list + [ActiveFilter("category", categoryTitle, c, CategoryName(categories, c))];
    }
    assert list == CategoryEntries(p, categories, categoryTitle);
    list := PushEntries(list, p, "grape", grapeTitle);
    list := PushEntries(list, p, "year", yearTitle);
  }

  /** The grape entries list the selected grapes in order: joining their values gives back the
      parameter. */
  lemma ActiveGrapesRoundTrip(p: Params, title: string, s: string)
    requires FirstValue(p, "grape") == Some(s)
    ensures |ListEntries(p, "grape", title)| > 0 <==> s != ""
    ensures s != "" ==> Join(CommaPieces(ListEntries(p, "grape", title)), ",") == s
  {
    if s != "" {
      var pieces := Split(s, ",");
      assert CommaPieces(ListEntries(p, "grape", title)) == pieces;
      JoinSplit(s, ",");
    }
  }

  /** The values of a list of entries. */
  function CommaPieces(entries: seq<ActiveFilter>): (r: seq<string>)
    ensures |r| == |entries|
    ensures forall i :: 0 <= i < |entries| ==> r[i] == entries[i].value
  {
    seq(|entries|, i requires 0 <= i < |entries| => entries[i].value)
  }

  /** The rank of an entry of `a + b + c` is the rank of the part it comes from. */
  lemma RankAt(a: seq<ActiveFilter>, b: seq<ActiveFilter>, c: seq<ActiveFilter>, i: nat)
    requires forall k :: 0 <= k < |a| ==> a[k].key == "category"
    requires forall k :: 0 <= k < |b| ==> b[k].key == "grape"
    requires forall k :: 0 <= k < |c| ==> c[k].key == "year"
    requires i < |a + b + c|
    ensures KeyRank((a + b + c)[i].key) == if i < |a| then 0 else if i < |a| + |b| then 1 else 2
  {
    if i < |a| {
      assert (a + b + c)[i] == a[i];
    } else if i < |a| + |b| {
      assert (a + b + c)[i] == b[i - |a|];
    } else {
      assert (a + b + c)[i] == c[i - |a| - |b|];
    }
  }

  /** Entries come in the order category, grapes, years. */
  lemma ActiveFiltersOrder(p: Params, categories: seq<(string, string)>, translate: string -> string)
    ensures forall i, j :: 0 <= i < j < |ActiveFiltersOf(p, categories, translate)| ==>
              KeyRank(ActiveFiltersOf(p, categories, translate)[i].key) <= KeyRank(ActiveFiltersOf(p, categories, translate)[j].key)
  {
    var a := CategoryEntries(p, categories, translate("filter_category"));
    var b := ListEntries(p, "grape", translate("filter_grape"));
    var c := ListEntries(p, "year", translate("filter_year"));
    var r := ActiveFiltersOf(p, categories, translate);
    assert r == a + b + c;
    forall i, j | 0 <= i < j < |r| ensures KeyRank(r[i].key) <= KeyRank(r[j].key) {
      RankAt(a, b, c, i);
      RankAt(a, b, c, j);
    }
  }

  function KeyRank(key: string): nat {
    if key == "category" then 0 else if key == "grape" then 1 else 2
  }
}
