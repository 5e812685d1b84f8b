/** The catalogue page of app/shop/page.tsx: the search and type filter, the sort order chosen by
    the user, the list of wine types offered as filters, and the page state taken over from the
    `type` and `search` URL parameters. */
module Shop {
  import opened Basics
  import opened Text
  import opened ProductTypes
  import opened Sorting
  import opened UrlParams

  /** The query, lowercased, occurs in the lowercased name, grape variety, type or (when there
      is one) description. */
  predicate MatchesSearch(w: WineInfo, query: string) {
    var q := Lower(query);
    || Contains(Lower(w.name), q)
    || Contains(Lower(w.grapeVariety), q)
    || Contains(Lower(TypeName(w.wineType)), q)
    || (w.description != "" && Contains(Lower(w.description), q))
  }

  predicate MatchesType(w: WineInfo, selectedType: string) {
    selectedType == "All" || TypeName(w.wineType) == selectedType
  }

  predicate Matches(w: WineInfo, query: string, selectedType: string) {
    MatchesSearch(w, query) && MatchesType(w, selectedType)
  }

  /** The wines the filter keeps, in catalogue order. */
  function Kept(wines: seq<WineInfo>, query: string, selectedType: string): (r: seq<WineInfo>)
    ensures forall w :: w in r <==> w in wines && Matches(w, query, selectedType)
    ensures forall w :: multiset(r)[w] == if Matches(w, query, selectedType) then multiset(wines)[w] else 0
  {
    var keep := (w: WineInfo) => Matches(w, query, selectedType);
    forall w ensures multiset(Filter(wines, keep))[w] == if keep(w) then multiset(wines)[w] else 0 {
      FilterCount(wines, keep, w);
    }
    Filter(wines, keep)
  }

  /** The kept wines stay in catalogue order: a wine anywhere in the catalogue is in its place in
      the result exactly when it matches. */
  lemma KeptInOrder(a: seq<WineInfo>, x: WineInfo, b: seq<WineInfo>, query: string, selectedType: string)
    ensures Kept(a + [x] + b, query, selectedType)
            == Kept(a, query, selectedType) + (if Matches(x, query, selectedType) then [x] else []) + Kept(b, query, selectedType)
  {
    FilterInOrder(a, x, b, (w: WineInfo) => Matches(w, query, selectedType));
  }

  /** The comparators of the sort menu, each as the key it subtracts: ascending price,
      descending price, descending year, and 0 (no reordering) for anything else. */
  function SortKey(sortBy: string): WineInfo -> real {
    if sortBy == "price-asc" then (w: WineInfo) => w.price
    else if sortBy == "price-desc" then (w: WineInfo) => -w.price
    else if sortBy == "year" then (w: WineInfo) => -(w.year as real)
    else (w: WineInfo) => 0.0
  }

  predicate KnownSort(sortBy: string) {
    sortBy == "price-asc" || sortBy == "price-desc" || sortBy == "year"
  }

  /** `filteredWines`: the kept wines, each as often as in the catalogue, in the chosen order;
      wines the comparator cannot tell apart keep their catalogue order, and an unknown order
      keeps the catalogue order altogether. */
  function FilteredWines(wines: seq<WineInfo>, query: string, selectedType: string, sortBy: string): (r: seq<WineInfo>)
    ensures forall w :: multiset(r)[w] == if Matches(w, query, selectedType) then multiset(wines)[w] else 0
    ensures sortBy == "price-asc" ==> forall i, j :: 0 <= i < j < |r| ==> r[i].price <= r[j].price
    ensures sortBy == "price-desc" ==> forall i, j :: 0 <= i < j < |r| ==> r[i].price >= r[j].price
    ensures sortBy == "year" ==> forall i, j :: 0 <= i < j < |r| ==> r[i].year >= r[j].year
    ensures forall v :: KeyClass(r, SortKey(sortBy), v) == KeyClass(Kept(wines, query, selectedType), SortKey(sortBy), v)
    ensures !KnownSort(sortBy) ==> r == Kept(wines, query, selectedType)
  {
    var kept := Kept(wines, query, selectedType);
    var key := SortKey(sortBy);
    SortSorted(kept, key);
    forall v ensures KeyClass(Sort(kept, key), key, v) == KeyClass(kept, key, v) {
      SortStable(kept, key, v);
    }
    assert !KnownSort(sortBy) ==> Sort(kept, key) == kept by {
      if !KnownSort(sortBy) {
        SortConstantKey(kept, key, 0.0);
      }
    }
    Sort(kept, key)
  }

  /** The empty query matches every wine, so only the type filter is left. */
  lemma EmptyQuery(wines: seq<WineInfo>, selectedType: string, sortBy: string)
    ensures forall w :: w in FilteredWines(wines, "", selectedType, sortBy) <==> w in wines && MatchesType(w, selectedType)
  {
    forall w: WineInfo ensures MatchesSearch(w, "") {
      assert OccursAt(Lower(w.name), "", 0);
    }
    forall w ensures w in FilteredWines(wines, "", selectedType, sortBy) <==> w in wines && MatchesType(w, selectedType) {
      var r := FilteredWines(wines, "", selectedType, sortBy);
      assert w in r <==> multiset(r)[w] > 0;
      assert w in wines <==> multiset(wines)[w] > 0;
    }
  }

  /** With every type selected, a wine is listed when its name contains the query. */
  lemma NameMatchCounts(wines: seq<WineInfo>, w: WineInfo, query: string, sortBy: string)
    requires w in wines && Contains(Lower(w.name), Lower(query))
    ensures w in FilteredWines(wines, query, "All", sortBy)
  {
    var r := FilteredWines(wines, query, "All", sortBy);
    assert multiset(r)[w] == multiset(wines)[w];
  }

  /** The type names of the catalogue's wines, in catalogue order. */
  function TypeNames(wines: seq<WineInfo>): (r: seq<string>)
    ensures |r| == |wines|
    ensures forall i :: 0 <= i < |wines| ==> r[i] == TypeName(wines[i].wineType)
  {
    seq(|wines|, i requires 0 <= i < |wines| => TypeName(wines[i].wineType))
  }

  lemma TypeNamesMembers(wines: seq<WineInfo>)
    ensures forall t :: t in TypeNames(wines) <==> exists w :: w in wines && TypeName(w.wineType) == t
  {
    var names := TypeNames(wines);
    forall t ensures t in names <==> exists w :: w in wines && TypeName(w.wineType) == t {
      if t in names {
        var i :| 0 <= i < |names| && names[i] == t;
        assert wines[i] in wines;
      }
      if exists w :: w in wines && TypeName(w.wineType) == t {
        var w :| w in wines && TypeName(w.wineType) == t;
        var i :| 0 <= i < |wines| && wines[i] == w;
        assert names[i] == t;
      }
    }
  }

  /** `wineTypes`: "All", then each type of the catalogue once, in order of first occurrence. */
  function WineTypes(wines: seq<WineInfo>): (r: seq<string>)
    ensures |r| >= 1 && r[0] == "All"
    ensures forall t :: t in r[1..] <==> exists w :: w in wines && TypeName(w.wineType) == t
    ensures forall i, j :: 0 <= i < j < |r| ==> r[i] != r[j]
    ensures forall i :: 1 <= i < |r| ==> r[i] in TypeNames(wines)
    ensures forall i, j :: 1 <= i < j < |r| ==> IndexOf(TypeNames(wines), r[i]) < IndexOf(TypeNames(wines), r[j])
  {
    WineTypesList(wines);
    ["All"] + Distinct(TypeNames(wines))
  }

  lemma WineTypesList(wines: seq<WineInfo>)
    ensures var r := ["All"] + Distinct(TypeNames(wines));
            && (forall t :: t in r[1..] <==> exists w :: w in wines && TypeName(w.wineType) == t)
            && (forall i, j :: 0 <= i < j < |r| ==> r[i] != r[j])
            && (forall i :: 1 <= i < |r| ==> r[i] in TypeNames(wines))
            && forall i, j :: 1 <= i < j < |r| ==> IndexOf(TypeNames(wines), r[i]) < IndexOf(TypeNames(wines), r[j])
  {
    var names := TypeNames(wines);
    var types := Distinct(names);
    DistinctOrder(names);
    var r := ["All"] + types;
    assert r[1..] == types;
    TypeNamesMembers(wines);
    forall i, j | 0 <= i < j < |r| ensures r[i] != r[j] {
      assert r[j] == types[j - 1];
      assert r[j] in names;
      if i > 0 {
        assert r[i] == types[i - 1];
      }
    }
    forall i | 1 <= i < |r| ensures r[i] in names {
      assert r[i] == types[i - 1];
    }
    forall i, j | 1 <= i < j < |r| ensures IndexOf(names, r[i]) < IndexOf(names, r[j]) {
      assert r[i] == types[i - 1] && r[j] == types[j - 1];
    }
  }

  /** The page's filter state. */
  class CatalogPage {
    var searchQuery: string
    var selectedType: string
    var sortBy: string

    /** The first render: no query, every type, newest vintage first. */
    constructor()
      ensures searchQuery == "" && selectedType == "All" && sortBy == "year"
    {
      searchQuery := "";
      selectedType := "All";
      sortBy := "year";
    }

    /** The effect run when the URL parameters change: a non-empty `type` selects that type and
        anything else selects every type; a non-empty `search` becomes the query, decoded once
        more with `decode`, and anything else leaves the query as it was. */
    method SyncFromParams(params: Params, decode: string -> string)
      modifies this
      ensures FirstValue(params, "type").Some? && FirstValue(params, "type").value != "" ==>
                selectedType == FirstValue(params, "type").value
      ensures FirstValue(params, "type").None? || FirstValue(params, "type").value == "" ==> selectedType == "All"
      ensures FirstValue(params, "search").Some? && FirstValue(params, "search").value != "" ==>
                searchQuery == decode(FirstValue(params, "search").value)
      ensures FirstValue(params, "search").None? || FirstValue(params, "search").value == "" ==>
                searchQuery == old(searchQuery)
      ensures sortBy == old(sortBy)
    {
      var typeParam := FirstValue(params, "type");
      var searchParam := FirstValue(params, "search");
      if typeParam.Some? && typeParam.value != "" {
        selectedType := typeParam.value;
      } else {
        selectedType := "All";
      }
      if searchParam.Some? && searchParam.value != "" {
        searchQuery := decode(searchParam.value);
      }
    }

  }
}
