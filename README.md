# Fellbacher Weingärtner storefront: a verified model of its client logic

This project models, in Dafny, the logic the storefront of the Fellbacher Weingärtner wine
cooperative runs in the browser:

- the **product normaliser**, which turns a raw commerce record into a wine or an event;
- the **catalogue**:
  - the product store with its five-minute cache and in-flight gate;
  - the wine provider that falls back to the bundled wines;
  - the shop page's search, type filter and stable sort;
  - the filter bar's facets, URL-parameter toggles and list of active filters;
- the **client collections**: cart, wishlist, bookings and orders, each as a store and as a
  provider that mirrors its list into browser storage;
- the **mock authentication**: a registered-users table, plus a session with register, login
  and logout;
- the **translation lookup** with `{name}` parameters, and the remembered language;
- the **password-strength meter** and the submit step of the sign-in dialog.

Pure code is modelled as functions and lemmas. Anything that changes state step by step is a
class: its fields are the source's state, and its methods carry `modifies` clauses.

- A React effect is a method of its provider.
- A first render is the constructor, which runs the mount effects in order.
- A browser-storage key is a plain `Option` field holding the decoded value. An absent value and
  an unreadable one are both `None`.
- The network reply, the clock, random ids and `decodeURIComponent` are inputs to the methods.

Each regular-expression match (the event date, the decimal litres, the millilitres) is a
hand-written scanner, proved sound and complete against a declarative description of what it
matches, and proved to find the leftmost match. Tag stripping is a scan proved to keep plain
text and to drop every `<…>` run, closed or not. The `includes` tests of the type, size,
quality and flavour rules are substring tests, tried in the source's order.
`parseInt` and `parseFloat` are decimal-prefix parsers. Lowercasing covers ASCII plus Ä, Ö, Ü and É.

## Model

| member | source | states |
|---|---|---|
| MapProduct.IsEventCategory | lib/utils/map-product.ts:18-23 | true exactly when some category's lowercased slug or name contains one of the five event keywords |
| MapProduct.MapProduct | lib/utils/map-product.ts:29-30 | the record maps to an event exactly when `IsEventCategory` holds, otherwise to a wine |
| MapProduct.OrElse | lib/utils/map-product.ts:35 | JavaScript `a \|\| b` on strings: the first operand unless it is empty |
| MapProduct.PriceText | lib/utils/map-product.ts:35 | price, else regular price, else "0" (an empty string counts as absent); never empty |
| MapProduct.MainImage | lib/utils/map-product.ts:37 | the first image's src, or the placeholder path when there are no images |
| MapProduct.CommonFields | lib/utils/map-product.ts:33-37 | both shapes carry the price fallback and the image; a wine's prices are the parsed fallback texts |
| MapProduct.FindAttribute | lib/utils/map-product.ts:43 | the index of the first attribute whose name equals the wanted name ignoring case, or none when no attribute matches |
| MapProduct.GetAttr | lib/utils/map-product.ts:42-45 | the first option of the first case-insensitively matching attribute; "" when there is no match or no option |
| MapProduct.GetAttrIgnoresCase | lib/utils/map-product.ts:43 | an attribute named in another case is found, and the first one wins |
| MapProduct.EventDate | lib/utils/map-product.ts:51-58 | with a date in the name, the leftmost date spelling, a substring of the name; otherwise the `Datum` attribute, else `date` |
| MapProduct.EventDateFromName | lib/utils/map-product.ts:51-58 | the mapped event's date is that leftmost substring of the name, or the attribute fallback |
| MapProduct.Spots | lib/utils/map-product.ts:66 | a missing or zero stock gives "100"; any other stock gives its decimal text |
| MapProduct.EventDefaults | lib/utils/map-product.ts:60-68 | time "18:00" and location "Fellbach" when the attributes are empty, 100 places for a missing or zero stock, the first category's name as category, the name as title |
| MapProduct.EventFlags | lib/utils/map-product.ts:71-76 | exactly the six series flags come from case-sensitive slug matches, and the puzzle-tour flag is never set |
| MapProduct.FlagsAreCaseSensitive | lib/utils/map-product.ts:19-71 | an upper-case "KELLERBLICKE" slug makes an event but does not set its Kellerblicke flag |
| MapProduct.DetermineType | lib/utils/map-product.ts:94-102 | the first marker group found in a lowercased slug decides: "rot" red; else "weiss"/"weiß" white; else "rose"/"rosé" rosé; else "sekt" sparkling; else "alkohol" alcohol-free; red when none occurs; white, rosé, sparkling and alcohol-free each as an if-and-only-if; never Paket or Sonstiges |
| MapProduct.CleanDescription | lib/utils/map-product.ts:83-87 | the cleaned description contains no '<' and is no longer than the raw one; without the heading it is the tag-stripped text itself (the section rule is `StrippedDescriptionSection`) |
| MapProduct.DescriptionSection | lib/utils/map-product.ts:85-87 | with the "Weinbeschreibung:" heading, the text before its first occurrence is dropped and the trimmed section up to the next occurrence is kept |
| MapProduct.StrippedDescriptionSection | lib/utils/map-product.ts:83-87 | for any raw description whose tag-stripped text is x, the heading and y with no heading in x, the result is the trimmed part of y before its next heading |
| MapProduct.SplitWithoutSeparator | lib/utils/map-product.ts:86 | a section without a further heading is kept whole |
| MapProduct.VolumeByKeyword | lib/utils/map-product.ts:146-150 | each marker gives its size only when no earlier marker occurs: "0,75"; then "1,0" or "literwein"; then "1,5" or "magnum"; then "0,33"; then "0,5"; no size exactly when no marker occurs |
| MapProduct.VolumeFromKeyword | lib/utils/map-product.ts:146-156 | with no litre and no millilitre spelling, the volume is the keyword size; with no keyword either, the raw weight when strictly between 0.1 and 2, else "0.75" |
| MapProduct.LitreVolume | lib/utils/map-product.ts:138-139 | a found litre volume is non-empty |
| MapProduct.MillilitreVolume | lib/utils/map-product.ts:142-143 | a found millilitre volume is non-empty |
| MapProduct.ResolveVolume | lib/utils/map-product.ts:132-157 | the volume fallback chain never yields the empty string; each step of the chain is stated by `VolumeFromLitres`, `VolumeFromMillilitres` and `VolumeFromKeyword` |
| MapProduct.SeparatorAsPoint | lib/utils/map-product.ts:139 | replacing the first comma of a captured number writes its separator as a decimal point |
| MapProduct.LitreVolumeIs | lib/utils/map-product.ts:138-139 | the leftmost decimal-litre spelling gives its number with a point for the separator |
| MapProduct.VolumeFromLitres | lib/utils/map-product.ts:137-139 | a decimal-litre spelling in "<volume attribute> <name>" decides the volume |
| MapProduct.MillilitreVolumeIs | lib/utils/map-product.ts:142-143 | the leftmost millilitre spelling gives the thousandths text of its digits |
| MapProduct.NoLitreVolume | lib/utils/map-product.ts:138 | without a decimal-litre spelling, the litre pattern finds nothing |
| MapProduct.VolumeFromMillilitres | lib/utils/map-product.ts:141-143 | without a litre spelling, the leftmost millilitre spelling decides: the volume is its digits' value in litres, written by `ThousandthsText` (which `Numbers.ThousandthsRoundTrip` parses back to exactly millilitres / 1000) |
| MapProduct.TagNames | lib/utils/map-product.ts:165 | the tag names, one per tag, in order |
| MapProduct.ResolveQualityLevel | lib/utils/map-product.ts:161-173 | an attribute mentioning an edition or litre wine wins; otherwise, in this order, edition C, P, S, then "Literweine" when the product text mentions them, else the attribute; the result is always one of these |
| MapProduct.AllOptions | lib/utils/map-product.ts:184-189 | exactly the options of all attributes |
| MapProduct.AllOptionsAppend | lib/utils/map-product.ts:184-189 | the options of two attribute lists joined are those of the first list followed by those of the second: attribute by attribute, in option order |
| MapProduct.FirstKnown | lib/utils/map-product.ts:184-195 | the index of the first known flavour word compared in lower case, or none when there is no known word |
| MapProduct.KnownWord | lib/utils/map-product.ts:186-196 | the entry at the first index whose lowercased text is a known flavour word, in its original case; none when no entry is |
| MapProduct.ResolveFlavor | lib/utils/map-product.ts:177-198 | a direct flavour attribute wins; otherwise the first option (attribute by attribute) that is a known word ignoring case, else the first such tag name, in original case; "" exactly when neither has one |
| MapProduct.Year | lib/utils/map-product.ts:122 | a digits-only text gives its value; a text without a numeric prefix gives 0 |
| MapProduct.AttributelessWine | lib/utils/map-product.ts:122-200 | without attributes: year 0, grape "Cuvée", the cooperative as producer, and "" for alcohol, acidity, sugar, location, soil and temperature |
| MapProduct.VintageFromAttribute | lib/utils/map-product.ts:122 | a `Jahrgang` spelled in digits is the year |
| MapProduct.WineFields | lib/utils/map-product.ts:104-128 | a wine keeps the listing fields of its record; its type is never Paket or Sonstiges, its descriptions have no '<', and its volume is non-empty |
| MapProduct.MapWine | lib/utils/map-product.ts:80-202 | the wine keeps the decimal id, name, slug and listing fields; its descriptions have no '<'; volume, grape variety and producer are never empty; its type is never Paket or Sonstiges |
| MapProduct.MapEvent | lib/utils/map-product.ts:60-77 | the event has the decimal id and the name as title; time, location, places and price are never empty; the puzzle-tour flag is unset |
| Patterns.DateAt | lib/utils/map-product.ts:52 | the scanner's end of a date spelling starting at an index |
| Patterns.DateAtSound | lib/utils/map-product.ts:52 | whatever the scanner finds is a date spelling: 1-2 digits, an optional '.', optional blank, letters, optional blank, 4 digits |
| Patterns.DateAtComplete | lib/utils/map-product.ts:52 | every date spelling starting at an index is found, ending where the greedy regex ends it |
| Patterns.FindDate | lib/utils/map-product.ts:52 | the start and end of the leftmost date spelling from a position |
| Patterns.FindDateLeftmost | lib/utils/map-product.ts:52-54 | the match found is a date spelling, and no date spelling starts further left |
| Patterns.LitreAt | lib/utils/map-product.ts:138 | the end of the captured number of a litre volume at an index |
| Patterns.LitreAtSound | lib/utils/map-product.ts:138 | what the scanner finds is digits, a point or comma, digits, blanks, 'l' |
| Patterns.LitreAtComplete | lib/utils/map-product.ts:138 | every litre spelling at an index is found with the regex's greedy capture |
| Patterns.FindLitre | lib/utils/map-product.ts:138 | the leftmost litre volume's captured number |
| Patterns.FindLitreLeftmost | lib/utils/map-product.ts:138-139 | the leftmost match, and no litre spelling starts further left |
| Patterns.MillilitreAt | lib/utils/map-product.ts:142 | the end of the captured digits of a millilitre volume at an index |
| Patterns.MillilitreAtSound | lib/utils/map-product.ts:142 | what the scanner finds is digits, blanks, "ml" |
| Patterns.MillilitreAtComplete | lib/utils/map-product.ts:142 | every millilitre spelling at an index is found |
| Patterns.FindMillilitre | lib/utils/map-product.ts:142 | the leftmost millilitre volume's digits |
| Patterns.FindMillilitreLeftmost | lib/utils/map-product.ts:142-143 | the leftmost match, and no millilitre spelling starts further left |
| Patterns.StripTags | lib/utils/map-product.ts:83 | the stripped text contains no '<' |
| Patterns.StripTagsPlain | lib/utils/map-product.ts:83 | text without '<' is unchanged |
| Patterns.StripTagsClosed | lib/utils/map-product.ts:83 | text before the first '<' is kept, a closed tag through its '>' is dropped, and stripping goes on after it |
| Patterns.StripTagsUnclosed | lib/utils/map-product.ts:83 | a '<' without a later '>' removes everything after it |
| Numbers.NatToString | lib/utils/map-product.ts:33 | the decimal digits of a natural number without leading zeros, reading back to the number |
| Numbers.IntToString | lib/utils/map-product.ts:66 | the decimal text of an integer, with a minus sign for negatives |
| Numbers.ParseInt | lib/utils/map-product.ts:122 | `parseInt` of a text of decimal digits only is the value of those digits |
| Numbers.ParseIntDecimal | lib/utils/map-product.ts:122 | after the leading white space and an optional sign, `parseInt` reads the decimal run up to the first non-digit (unless it is a lone `0` before `x`/`X`); a minus negates the value |
| Numbers.ParseIntHex | lib/utils/map-product.ts:122 | after the white space, a sign and `0x`/`0X`, `parseInt` reads the hexadecimal run up to the first other character, negated after a minus; NaN when the run is empty |
| Numbers.ParseIntNoDigits | lib/utils/map-product.ts:122 | `parseInt` is NaN when no digit follows the white space and the sign |
| Numbers.ParseIntRoundTrip | lib/utils/map-product.ts:122 | `parseInt` reads an integer's decimal text back to the integer |
| Numbers.ParseFloat | lib/utils/map-product.ts:108-109 | `parseFloat` of a text of decimal digits only is the value of those digits |
| Numbers.ParseFloatInteger | lib/utils/map-product.ts:108-109 | after the white space and an optional sign, digits followed by no digit, point or exponent mark read as their value, negated after a minus |
| Numbers.ParseFloatPoint | lib/utils/map-product.ts:108-109 | after the white space and a sign, `whole.fraction` with either digit string empty (not both) and no exponent after it reads as the whole value plus the fraction scaled down, negated after a minus |
| Numbers.ParseFloatExponent | lib/utils/map-product.ts:108-109 | whole digits followed by `e`/`E`, an optional exponent sign and exponent digits read as the digits times ten to the signed exponent |
| Numbers.ParseFloatPointExponent | lib/utils/map-product.ts:108-109 | `whole.fraction` followed by a complete exponent reads as the decimal times ten to the signed exponent |
| Numbers.ParseFloatNoDigits | lib/utils/map-product.ts:108-109 | `parseFloat` is NaN when the white space and the sign are followed neither by a digit nor by a point with a digit after it |
| Numbers.ParseFloatDecimal | lib/utils/map-product.ts:108 | "whole.fraction" parses to the whole part plus the fraction digits scaled down |
| Numbers.ThousandthsText | lib/utils/map-product.ts:143 | the decimal text of n / 1000 |
| Numbers.ThousandthsRoundTrip | lib/utils/map-product.ts:143 | the text of n / 1000 parses back to exactly n / 1000 |
| ProductTypes.TypeName | lib/types/wine.ts:33 | the display name of a wine type, never "All" |
| ProductTypes.TypeNameInjective | lib/types/wine.ts:33 | different wine types have different display names |
| WinesStore.FirstIdOrSlug | lib/store/useWinesStore.ts:77 | the index of the first product whose id or (wine) slug matches, or none when nothing matches |
| WinesStore.WineById | lib/store/useWinesStore.ts:76-79 | some wine is returned exactly when the first id-or-slug match is a wine; it is the product at that first match's index |
| WinesStore.FirstWithId | lib/store/useWinesStore.ts:85 | the index of the first product with the id, or none |
| WinesStore.EventById | lib/store/useWinesStore.ts:84-87 | an event is returned exactly when the first id match has no slug; it is the product at that first match's index |
| WinesStore.WineBySlug | lib/store/useWinesStore.ts:77-78 | a wine is found by its slug even when its id differs |
| WinesStore.EventShadowsWine | lib/store/useWinesStore.ts:77-86 | an event listed first hides a wine with the same id from the wine lookup, and the event lookup finds it |
| WinesStore.Store.constructor | lib/store/useWinesStore.ts:28-31 | the empty store: no wines, not loading, no error, no fetch time |
| WinesStore.Store.BeginFetch | lib/store/useWinesStore.ts:38-49 | a fresh cache (unless forced) or a fetch in flight (even when forced) changes nothing; otherwise loading starts with the error cleared |
| WinesStore.Store.CompleteFetch | lib/store/useWinesStore.ts:50-70 | an array replaces the list, stamps the time and sets the error exactly when it is empty; an error payload or a failure keeps list and time and sets the load error; loading ends |
| WinesStore.Store.FetchProducts | lib/store/useWinesStore.ts:38-71 | the whole call when the reply comes before anything else touches the store, with the outcomes of the two steps |
| WinesStore.Store.SetWines | lib/store/useWinesStore.ts:92 | the list is replaced and the time stamped; the loading flag and the error stay |
| WinesContext.Provider.constructor | lib/contexts/WinesContext.tsx:21-23 | the bundled wines, loading, no error |
| WinesContext.Provider.LoadWines | lib/contexts/WinesContext.tsx:26-53 | a non-empty array replaces the list; an empty array or another body keeps it silently; not-ok or a failure keeps it and sets the fallback message; never loading afterwards |
| WinesContext.FirstWithId | lib/contexts/WinesContext.tsx:59 | the index of the first wine with the id, or none |
| WinesContext.WineWithId | lib/contexts/WinesContext.tsx:58-60 | the first wine with an equal id; none exactly when no wine has that id |
| WinesContext.SlugIsNoId | lib/contexts/WinesContext.tsx:59 | the lookup matches on id only: a slug that differs from the id finds nothing |
| WinesContext.Provider.GetWineById | lib/contexts/WinesContext.tsx:58-60 | the first displayed wine with the id, made equal to `WineWithId`; none exactly when no displayed wine has it |
| Shop.Kept | app/shop/page.tsx:43-52 | a wine is kept iff it matches the query and the type; each kept wine as often as in the catalogue |
| Shop.KeptInOrder | app/shop/page.tsx:43-52 | the filter keeps catalogue order: each wine stays in its place exactly when it matches, and the wines before and after it are filtered on their own |
| Shop.FilteredWines | app/shop/page.tsx:42-59 | a permutation of the kept wines; ascending price, descending price or descending year as chosen; wines equal under the comparator keep their order; an unknown order keeps the catalogue order |
| Shop.EmptyQuery | app/shop/page.tsx:45-50 | an empty query keeps exactly the wines of the selected type |
| Shop.NameMatchCounts | app/shop/page.tsx:46-50 | with every type selected, a wine whose name contains the query is listed |
| Shop.TypeNames | app/shop/page.tsx:61 | the type names of the wines, one per wine, in catalogue order |
| Shop.TypeNamesMembers | app/shop/page.tsx:61 | a name is among them exactly when some wine has that type |
| Shop.WineTypes | app/shop/page.tsx:61 | "All" first, then each type of the catalogue exactly once, in order of first occurrence |
| Shop.CatalogPage.constructor | app/shop/page.tsx:22-24 | no query, every type, newest first |
| Shop.CatalogPage.SyncFromParams | app/shop/page.tsx:26-39 | a non-empty `type` selects it and anything else selects "All"; a non-empty `search` becomes the decoded query and anything else leaves the query unchanged; the sort stays |
| Sorting.Sort | app/shop/page.tsx:53-58 | `sort` with a key-difference comparator: a permutation of its input |
| Sorting.SortSorted | app/shop/page.tsx:53-58 | the result is in non-decreasing key order |
| Sorting.SortStable | app/shop/page.tsx:53-58 | elements with equal keys keep their relative order |
| Sorting.SortConstantKey | app/shop/page.tsx:57 | a comparator that always answers 0 leaves the list as it is |
| Sorting.SortStrings | components/wine/FilterBar.tsx:48 | the default `sort()` of strings: a permutation of its input |
| Sorting.SortStringsSorted | components/wine/FilterBar.tsx:48 | the result is in lexicographic character order |
| Text.Lower | app/shop/page.tsx:45-49 | `toLowerCase`: same length, each character lowercased |
| Text.Trim | lib/utils/map-product.ts:86 | `trim`: the slice left after removing leading and trailing blanks, and no blank at either end |
| Text.ReplaceFirst | lib/utils/map-product.ts:139 | `replace` with a string pattern: unchanged without an occurrence, else the leftmost occurrence replaced |
| Text.JoinSplit | lib/utils/map-product.ts:86 | joining the pieces of `split` with the separator gives the text back |
| Text.SplitJoin | components/wine/FilterBar.tsx:76-83 | splitting a comma-free list joined with a comma gives the list back |
| UrlParams.Values | components/wine/FilterBar.tsx:76 | the values of a name, in order: exactly the values paired with it |
| UrlParams.FirstValue | components/wine/FilterBar.tsx:76 | `get`: none exactly when the name has no pair; otherwise the value of the first pair with that name |
| UrlParams.FirstPair | components/wine/FilterBar.tsx:76 | the first of the values of a name belongs to the first pair with that name |
| UrlParams.DeleteKey | components/wine/FilterBar.tsx:70 | `delete`: the name has no values left, every other name keeps its values, and the other pairs stay |
| UrlParams.SetKey | components/wine/FilterBar.tsx:79-88 | `set`: the name has exactly the one value, every other name keeps its values |
| UrlParams.DeleteAbsent | components/wine/FilterBar.tsx:70 | deleting an absent name changes nothing |
| UrlParams.DeleteAfterSetAbsent | components/wine/FilterBar.tsx:80-83 | setting an absent name and deleting it gives the parameters back |
| UrlParams.SetSingleTwice | components/wine/FilterBar.tsx:79-83 | for a name with one pair, setting another value and then its own value gives the parameters back |
| UrlParams.SearchParams.Get | components/wine/FilterBar.tsx:76 | none exactly when the name has no pair in the object |
| UrlParams.SearchParams.Delete | components/wine/FilterBar.tsx:70 | the object's pairs become the deletion of the name from the old pairs |
| UrlParams.SearchParams.Set | components/wine/FilterBar.tsx:79-88 | the object's pairs become the old pairs with the name set |
| FilterBar.CategoryPairs | components/wine/FilterBar.tsx:42 | exactly the (name, slug) pairs of the wines' categories |
| FilterBar.Categories | components/wine/FilterBar.tsx:41-43 | each (name, slug) pair of the wines once, in order of first occurrence |
| FilterBar.GrapeOptions | components/wine/FilterBar.tsx:47 | the options of the first attribute named "rebsorte" ignoring case, whatever they are; none when no attribute has that name |
| FilterBar.AllGrapes | components/wine/FilterBar.tsx:47 | exactly the grape options of all wines |
| FilterBar.Grapes | components/wine/FilterBar.tsx:46-48 | each grape of the wines once, in ascending string order |
| FilterBar.Years | components/wine/FilterBar.tsx:51 | each vintage of the wines once, strictly newest first |
| FilterBar.VintagesMembers | components/wine/FilterBar.tsx:51 | a year is a vintage exactly when some wine has it |
| FilterBar.CommaList | components/wine/FilterBar.tsx:76 | the comma-separated pieces of the first value, none containing a comma; empty exactly when the key is absent |
| FilterBar.RemoveAll | components/wine/FilterBar.tsx:78 | the values left are exactly the other values of the list |
| FilterBar.RemoveAllInOrder | components/wine/FilterBar.tsx:78 | removal keeps the other values in their places and order |
| FilterBar.RemoveAllCount | components/wine/FilterBar.tsx:78 | every copy of another value stays and no copy of the removed value does |
| FilterBar.UpdatedParams | components/wine/FilterBar.tsx:66-90 | the new parameters; every key other than the clicked one keeps its values |
| FilterBar.UpdateParams | components/wine/FilterBar.tsx:66-90 | the handler working on a `URLSearchParams` object computes exactly `UpdatedParams` |
| FilterBar.NullDeletes | components/wine/FilterBar.tsx:69-70 | a null value removes the key and keeps every other key |
| FilterBar.CommaListOfJoin | components/wine/FilterBar.tsx:76-83 | the list written with `join(',')` reads back as the list when no piece holds a comma |
| FilterBar.TogglePresent | components/wine/FilterBar.tsx:77-80 | a selected grape or year is removed with all its copies; an emptied list deletes the key |
| FilterBar.ToggleAbsent | components/wine/FilterBar.tsx:81-84 | an unselected grape or year is appended at the end of the list |
| FilterBar.RemoveAllAppended | components/wine/FilterBar.tsx:78-82 | removing a value just appended to a list without it gives the list back |
| FilterBar.ToggleTwice | components/wine/FilterBar.tsx:75-84 | clicking the same unselected grape or year twice restores the parameters |
| FilterBar.SingleSelect | components/wine/FilterBar.tsx:86-88 | any other key: its own value clears it and another value replaces it |
| FilterBar.CategoryName | components/wine/FilterBar.tsx:109 | the name of the first category option with the slug, or the slug when no option has it or that name is empty |
| FilterBar.ListEntries | components/wine/FilterBar.tsx:114-127 | one entry per comma piece of the parameter, all under its key |
| FilterBar.CategoryEntries | components/wine/FilterBar.tsx:108-111 | at most one entry, under "category" |
| FilterBar.PushEntries | components/wine/FilterBar.tsx:114-126 | the push loop appends exactly the entries of the pieces to the list |
| FilterBar.ActiveFiltersList | components/wine/FilterBar.tsx:104-130 | the list the pushes build is the category entry, then the grape entries, then the year entries |
| FilterBar.ActiveGrapesRoundTrip | components/wine/FilterBar.tsx:114-118 | joining the values of the grape entries gives the grape parameter back |
| FilterBar.ActiveFiltersOrder | components/wine/FilterBar.tsx:104-127 | entries come in the order category, grapes, years |
| FilterBar.ActiveFiltersOf | components/wine/FilterBar.tsx:104-127 | every entry is a category, grape or year entry, and only the first can be the category entry |
| Cart.AddedToCart | lib/store/useCartStore.ts:36-51 | a present id gains one in place with order and other entries kept; an absent id is appended with 1; a valid cart (unique ids, positive quantities) stays valid; the id is then present |
| Cart.AddRaisesCount | lib/store/useCartStore.ts:36-51 | on a valid cart, adding raises the bottle count by exactly one |
| Cart.CountAppend | lib/store/useCartStore.ts:87 | the count of two lists joined is the sum of their counts |
| Cart.CountBump | lib/store/useCartStore.ts:43 | one entry one higher makes the count one higher |
| Cart.Count | lib/store/useCartStore.ts:87 | an empty cart counts 0; a cart of positive quantities counts at least one per entry |
| Cart.RemovedFromCart | lib/store/useCartStore.ts:54-58 | exactly the entries with other ids remain; the id is gone; a valid cart stays valid |
| Cart.RemovedInOrder | lib/store/useCartStore.ts:54-58 | removal keeps the other entries in their places and order |
| Cart.RemoveTheEntry | lib/store/useCartStore.ts:54-58 | removing the one entry with the id from `a + [x] + b` leaves exactly `a + b` |
| Cart.RemovedCount | lib/store/useCartStore.ts:54-58 | every copy of an entry with another id stays, no entry with the id does |
| Cart.RemoveAbsent | lib/store/useCartStore.ts:56 | removing an absent id changes nothing |
| Cart.Adjusted | lib/store/useCartStore.ts:65-69 | the matching entry gets max(0, quantity + delta); others are untouched |
| Cart.AdjustAll | lib/store/useCartStore.ts:63-70 | each entry adjusted in place, one result per entry |
| Cart.UpdatedQuantity | lib/store/useCartStore.ts:61-75 | exactly the adjusted entries with a positive quantity remain; a valid cart stays valid |
| Cart.UpdatedInOrder | lib/store/useCartStore.ts:61-75 | the update works entry by entry in cart order: each adjusted entry stays in its place when its quantity is positive and is dropped otherwise |
| Cart.UpdatedCount | lib/store/useCartStore.ts:61-75 | every copy of an adjusted entry with a positive quantity stays, none of the others does |
| Cart.UpdateRemovesOrSets | lib/store/useCartStore.ts:66-71 | an entry driven to zero or below disappears; one that stays positive holds the new quantity |
| Cart.UpdateToZero | lib/store/useCartStore.ts:66-71 | two bottles and a change of -2 leave an empty cart |
| Cart.UpdateAbsent | lib/store/useCartStore.ts:63-71 | an absent id leaves a valid cart unchanged |
| Cart.ValidIdsFilter | lib/store/useCartStore.ts:71 | filtering a list with unique ids down to positive quantities gives a valid cart |
| CartStore.Store.AddToCart | lib/store/useCartStore.ts:36-51 | the cart becomes `AddedToCart` of the old cart, and on a valid cart the count rises by one |
| CartStore.Store.RemoveFromCart | lib/store/useCartStore.ts:54-58 | the cart becomes `RemovedFromCart` of the old cart |
| CartStore.Store.UpdateQuantity | lib/store/useCartStore.ts:61-75 | the cart becomes `UpdatedQuantity` of the old cart |
| CartStore.Store.ClearCart | lib/store/useCartStore.ts:78 | the cart is empty |
| CartStore.Store.IsInCart | lib/store/useCartStore.ts:81-83 | true exactly when some entry has the id, as `Cart.HasId` says |
| CartStore.Store.GetCartCount | lib/store/useCartStore.ts:86-88 | the bottle count `Count` of the cart, at least one per entry on a valid cart |
| CartContext.Provider.constructor | lib/contexts/CartContext.tsx:35-56 | the saved cart is restored, the flag remembered, and an initial logged-out state does not clear it |
| CartContext.Provider.SyncLogin | lib/contexts/CartContext.tsx:47-56 | cart and stored copy are dropped only on a logged-in to logged-out transition; the flag is remembered in every case |
| CartContext.Provider.AddToCart | lib/contexts/CartContext.tsx:63-82 | the same next cart as the store, and the stored 'cart' equals it |
| CartContext.Provider.RemoveFromCart | lib/contexts/CartContext.tsx:87-93 | the same next cart as the store, and the stored 'cart' equals it |
| CartContext.Provider.UpdateQuantity | lib/contexts/CartContext.tsx:99-113 | the same next cart as the store, and the stored 'cart' equals it |
| CartContext.Provider.ClearCart | lib/contexts/CartContext.tsx:118-121 | the cart is empty and the key removed |
| CartContext.Provider.IsInCart | lib/contexts/CartContext.tsx:124 | true exactly when some entry has the id, as `Cart.HasId` says |
| CartContext.Provider.GetCartCount | lib/contexts/CartContext.tsx:127-129 | the bottle count `Count` of the cart, at least one per entry on a valid cart |
| CartContext.LogoutScenario | lib/contexts/CartContext.tsx:47-56 | a session starting logged out keeps its restored cart, and a later logout empties it |
| Wishlist.Toggled | lib/store/useWishlistStore.ts:26-35 | an absent id is appended; a present id goes with every copy and the other ids stay; the id is present afterwards exactly when it was absent before |
| Wishlist.ToggleRemovesInOrder | lib/store/useWishlistStore.ts:31 | removing an id that occurs once keeps the ids around it in their order |
| Wishlist.ToggleTwice | lib/store/useWishlistStore.ts:26-35 | two toggles restore membership, and restore the very list when the id was absent |
| Wishlist.ToggleKeepsDistinct | lib/store/useWishlistStore.ts:28-32 | a toggle keeps a list free of repeated ids |
| WishlistStore.Store.ToggleWishlist | lib/store/useWishlistStore.ts:26-35 | the list becomes `Toggled` of the old list, and the id is in it exactly when it was not before |
| WishlistStore.Store.ClearWishlist | lib/store/useWishlistStore.ts:43 | the list is empty |
| WishlistStore.Store.IsInWishlist | lib/store/useWishlistStore.ts:38-40 | true exactly when some entry of the list is the id |
| WishlistContext.Provider.constructor | lib/WishlistContext.tsx:28-45 | the list is restored, then cleared together with its key when the first render is logged out |
| WishlistContext.Provider.SyncLogin | lib/WishlistContext.tsx:40-45 | whenever the flag is false, the list and the stored key are cleared; otherwise nothing changes |
| WishlistContext.Provider.ToggleWishlist | lib/WishlistContext.tsx:51-61 | the list becomes `Toggled` of the old list, and the stored 'wishlist' equals it |
| WishlistContext.Provider.ClearWishlist | lib/WishlistContext.tsx:66-69 | the list is empty and the key removed |
| WishlistContext.Provider.IsInWishlist | lib/WishlistContext.tsx:74 | true exactly when some entry of the list is the id |
| Bookings.Added | lib/store/useBookingStore.ts:39-50 | one confirmed booking with the given fields, id and creation time in front; the earlier bookings follow unchanged and in order |
| Bookings.CancelledAll | lib/store/useBookingStore.ts:53-59 | same length and order; a booking with the id is cancelled, any other keeps its status; no field but the status changes |
| Bookings.EventBookings | lib/store/useBookingStore.ts:62-64 | exactly the bookings of the event |
| Bookings.EventBookingsInOrder | lib/store/useBookingStore.ts:62-64 | the bookings of the event keep list order: each booking stays in its place exactly when it belongs to the event |
| Bookings.EventBookingsAppend | lib/store/useBookingStore.ts:62-64 | the bookings of the event in `a + b` are those in `a` followed by those in `b` |
| Bookings.EventBookingsCount | lib/store/useBookingStore.ts:62-64 | each booking of the event appears as often as in the list, no other booking appears |
| Bookings.CancelIdempotent | lib/store/useBookingStore.ts:53-59 | cancelling twice is cancelling once |
| Bookings.CancelUnknown | lib/store/useBookingStore.ts:53-59 | cancelling an id no booking has changes nothing |
| Bookings.NeverPending | lib/store/useBookingStore.ts:43-56 | neither adding nor cancelling produces a pending booking |
| Bookings.EventBookingsOfAdded | lib/store/useBookingStore.ts:48-63 | a new booking comes first among its event's bookings and is in no other event's list; the rest keep their order |
| BookingStore.Store.AddBooking | lib/store/useBookingStore.ts:39-50 | the list becomes `Added` of the old list: a confirmed booking with the given id in front of the old list |
| BookingStore.Store.CancelBooking | lib/store/useBookingStore.ts:53-59 | the list becomes `CancelledAll` of the old list |
| BookingStore.Store.GetEventBookings | lib/store/useBookingStore.ts:62-64 | exactly the listed bookings of the event, as `EventBookings` of the list, in list order |
| BookingContext.Provider.constructor | lib/contexts/BookingContext.tsx:35-49 | the saved list is restored (none gives the empty list) and the stored value equals the list |
| BookingContext.Provider.Persist | lib/contexts/BookingContext.tsx:47-49 | the stored 'fellbacher_bookings' value becomes the list, which does not change |
| BookingContext.Provider.AddBooking | lib/contexts/BookingContext.tsx:51-59 | the list becomes `Added` of the old list, and the stored value equals it |
| BookingContext.Provider.CancelBooking | lib/contexts/BookingContext.tsx:61-63 | the list becomes `CancelledAll` of the old list, and the stored value equals it |
| BookingContext.Provider.GetEventBookings | lib/contexts/BookingContext.tsx:65-67 | exactly the listed bookings of the event, as `EventBookings` of the list, in list order |
| Orders.Prepended | lib/contexts/OrdersContext.tsx:75 | one longer, the new order first, the earlier orders after it in their order |
| OrdersContext.Provider.constructor | lib/contexts/OrdersContext.tsx:35-67 | logged out: empty list, no stored key; logged in: the saved orders, or the single seed order, stored |
| OrdersContext.Provider.SyncLogin | lib/contexts/OrdersContext.tsx:39-67 | logged out: the list is empty and the key removed; logged in: saved orders are restored, else exactly the delivered order ORD-2023-001 is set and stored |
| OrdersContext.Provider.AddOrder | lib/contexts/OrdersContext.tsx:72-79 | the list becomes `Prepended` of the old list, and the stored 'orders' equals it |
| OrdersContext.Provider.ClearOrders | lib/contexts/OrdersContext.tsx:84-87 | the list is empty and the key removed |
| OrdersContext.LoggedOutStart | lib/contexts/OrdersContext.tsx:39-67 | a history saved before a logged-out first render is gone, and logging in then shows only the seed order |
| OrdersContext.OrderSurvivesRemount | lib/contexts/OrdersContext.tsx:39-79 | an order placed while logged in comes first and survives a logged-in remount |
| OrdersSeedContext.Provider.constructor | lib/OrdersContext.tsx:36-56 | saved orders are restored; otherwise the single seed order is set and stored, whatever the login state |
| OrdersSeedContext.Provider.AddOrder | lib/OrdersContext.tsx:61-68 | the list becomes `Prepended` of the old list, and the stored 'orders' equals it |
| OrdersSeedContext.FirstOrder | lib/OrdersContext.tsx:36-68 | with nothing saved, the first order placed comes before the seed order |
| AuthContext.SessionOf | lib/contexts/AuthContext.tsx:55 | the session user is the account's id, name and email, without the password |
| AuthContext.FirstMatch | lib/contexts/AuthContext.tsx:52 | the index of the first account with both the email and the password; none exactly when no account has both |
| AuthContext.Registered | lib/contexts/AuthContext.tsx:68-78 | a taken email leaves the table; a new one appends the account; unique emails stay unique; the email is then taken |
| AuthContext.LoginAfterRegister | lib/contexts/AuthContext.tsx:52-76 | a freshly registered account is the first match for its own email and password |
| AuthContext.RegisterTwice | lib/contexts/AuthContext.tsx:70-72 | registering an email a second time leaves the table as after the first time |
| AuthContext.Provider.constructor | lib/contexts/AuthContext.tsx:32-42 | the saved session is restored |
| AuthContext.Provider.IsLoggedIn | lib/contexts/AuthContext.tsx:99 | true exactly when there is a user |
| AuthContext.Provider.Login | lib/contexts/AuthContext.tsx:48-62 | success exactly when some account has the email and password, and the session and its stored copy become the first such account; failure gives 'Invalid email or password' with the session unchanged; the table never changes |
| AuthContext.Provider.Register | lib/contexts/AuthContext.tsx:67-84 | a taken email fails with 'Email already exists' and changes nothing; otherwise the account is appended and the session is the new user without the password; unique emails stay unique |
| AuthContext.Provider.Logout | lib/contexts/AuthContext.tsx:90-93 | no user, no stored session, not logged in; the table stays |
| AuthContext.RegisterLogoutLogin | lib/contexts/AuthContext.tsx:48-93 | register, logout, login with the same credentials: the same session as right after registering |
| I18n.Translated | lib/i18n.tsx:277-291 | an unknown key is its own text; a known key without parameters is its text in the language |
| I18n.ApplyParams | lib/i18n.tsx:285-289 | no parameters leave the text as it is |
| I18n.ApplyParamsPlain | lib/i18n.tsx:285-289 | parameters on a text without braces, with values without braces, leave it as it is: `replace` finds no placeholder |
| I18n.ApplyOne | lib/i18n.tsx:286-288 | one parameter is one first-occurrence replacement of its placeholder |
| I18n.ReplaceAfterPrefix | lib/i18n.tsx:287 | a placeholder after a brace-free prefix is replaced there and everything after it, later occurrences included, stays |
| I18n.ShowingWines | lib/i18n.tsx:90 | `showing_wines` with count n is "Results: n" in English and "Ergebnisse: n" in German |
| I18n.OnlyFirstOccurrence | lib/i18n.tsx:287 | a parameter replaces only the first of two occurrences of its placeholder |
| I18n.RestoredLanguage | lib/i18n.tsx:254-262 | English exactly when the stored value is "en"; anything else keeps German |
| I18n.RestoreRoundTrip | lib/i18n.tsx:259-269 | the value written for a language restores that language |
| I18n.LanguageProvider.constructor | lib/i18n.tsx:254-262 | German, unless the stored value is exactly "de" or "en" |
| I18n.LanguageProvider.SetLanguage | lib/i18n.tsx:267-271 | the language is set and its code stored under 'language' |
| I18n.LanguageProvider.Translate | lib/i18n.tsx:277-291 | the loop over the parameters computes exactly `Translated` in the current language |
| I18n.LanguageSurvivesReload | lib/i18n.tsx:257-271 | the language chosen is the one a reload restores |
| AuthModal.RawScore | app/components/UI/AuthModal.tsx:33-38 | the number of criteria met, at most five |
| AuthModal.Level | app/components/UI/AuthModal.tsx:31-43 | 0 exactly for the empty password; any other password gets a level from 1 to 3 |
| AuthModal.PasswordStrength | app/components/UI/AuthModal.tsx:31-43 | the counter-based computation gives exactly `Level` |
| AuthModal.StrongIffAll | app/components/UI/AuthModal.tsx:34-42 | strong exactly when ten characters or more, an upper-case letter, a digit and a symbol |
| AuthModal.ShortNotStrong | app/components/UI/AuthModal.tsx:34-42 | fewer than six characters is never strong |
| AuthModal.LowerCaseOnly | app/components/UI/AuthModal.tsx:34-40 | lower-case letters only are weak at any length |
| AuthModal.StrengthColor | app/components/UI/AuthModal.tsx:45-52 | level 0 gives the neutral bar and levels 1 to 3 do not |
| AuthModal.StrengthColorsDistinct | app/components/UI/AuthModal.tsx:45-52 | the four bars differ from one another |
| AuthModal.StrengthLabel | app/components/UI/AuthModal.tsx:54-61 | level 0 has the empty label and levels 1 to 3 a non-empty one |
| AuthModal.StrengthWords | app/components/UI/AuthModal.tsx:56-58 | the labels are Weak/Medium/Strong in English and Schwach/Mittel/Stark in German |
| AuthModal.AuthForm.Submit | app/components/UI/AuthModal.tsx:63-79 | the error is cleared; in registration mode a differing confirmation sets the mismatch message and calls nothing; otherwise loading starts and `login` or `register` is called with the form's values |
| AuthModal.AuthForm.Settle | app/components/UI/AuthModal.tsx:74-86 | success closes the dialog; a failure shows its message, or 'Something went wrong' when it is empty; loading ends |
| AuthModal.MismatchScenario | app/components/UI/AuthModal.tsx:67-70 | registering with a mistyped confirmation, in English, shows "Passwords do not match" and requests nothing |

## Left out

- Network, HTTP and the product API routes are not modelled. The replies of `/api/products` and `/api/wines` are inputs: a datatype of the outcomes the code tells apart.
- The clock (`Date.now`, `toISOString`), the random ids (`Math.random`) and `decodeURIComponent` are parameters. So `decodeURIComponent` throwing on a malformed escape is not modelled.
- Browser storage is an `Option` field per key holding the decoded value. JSON encoding, decoding and its errors are not modelled. The zustand `persist` layer of the three stores is not modelled at all.
- React scheduling is not modelled. Each effect is a method, and the state it leaves is the last state it sets. The booking provider's first-render write of the empty list is immediately overwritten by the restored list, so only the final stored value is stated.
- UI rendering, navigation (`router.push`), the `lang` attribute of the document and the dialog's open/close state are not modelled. A parameter change is the new parameter list.
- The percent-encoding of URL parameters is not modelled: the pairs are the decoded names and values.
- Floating point is modelled with exact reals. JavaScript number formatting is not modelled, except for the integer and thousandths texts the normaliser produces.
- `parseFloat`'s "Infinity" is not modelled. A price without a numeric prefix (NaN in the source) is held as 0, so the sort does not model NaN comparisons.
- Cart quantities, guests and stock are unbounded integers, not JavaScript numbers.
- Lowercasing only covers ASCII plus Ä, Ö, Ü and É. The default string sort compares characters, not UTF-16 units.
- String lengths, such as the password lengths of the sign-in dialog, count characters, not UTF-16 units, so a character outside the Basic Multilingual Plane counts once rather than twice.
- Numbers.ThousandthsText: the source divides a JavaScript double and prints the shortest decimal that reads back to it; the model divides exactly. The two agree while the millilitre count is below about 10^15, where every count and its thousandths are exact in a double; beyond that (for example 12345678901234567 ml) the double is rounded and the texts can differ. The exponent notation JavaScript uses from 10^21 on is not modelled either.
- Numbers.ParseFloat: an exponent mark without exponent digits (`5e`, read as 5) follows from the definition but has no lemma of its own; the other prefix shapes are stated by the `ParseFloat…` lemmas.
- I18n.ApplyParams: states the empty case only, and `ApplyParamsPlain` the brace-free case; the replacement of each placeholder is stated for one parameter, by `ApplyOne`, and for the translation loop, by `LanguageProvider.Translate`.
- `String.replace` in the translation lookup is modelled for replacement texts without `$` patterns.
- The order of `Object.entries` is the order of the parameter list. Integer-like parameter names, which JavaScript lists first, are not modelled.
- Keys such as "constructor" are not modelled; in the source these find inherited properties of the translation table.
- The translation table holds only the entries this model uses (the result count, the strength words and the password mismatch); the rest is static text.
- The bundled wine list and the raw-field mapping of every listing field the normaliser copies unchanged are not modelled.
- The category options are compared as (name, slug) pairs, which is what `JSON.stringify` of exactly those two fields compares.
- WinesStore.Store.CompleteFetch: an error payload whose `error` field is empty (falsy) is treated like the other error payloads. Also not modelled: a non-array reply without an `error` field being stored as the list.
- lib/AuthContext.tsx, which the sign-in dialog imports, is not part of this model. The dialog's call is returned as a request and its outcome passed back in.
- The user's optional `avatar` field is not modelled.
- The boolean UI toggles, the header and cart totals, and the product card's discount and price-per-litre figures are not modelled.
