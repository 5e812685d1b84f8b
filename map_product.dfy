/** The product normaliser of lib/utils/map-product.ts: one raw commerce record becomes either an
    event (when one of its categories names an event keyword) or a wine whose characteristics are
    pulled out of attributes, categories and free text by total fallback rules. */
module MapProduct {
  import opened Basics
  import opened Text
  import opened Numbers
  import opened Patterns
  import opened ProductTypes

  /** JavaScript `a || b` on strings: the empty string is falsy. */
  function OrElse(a: string, b: string): (r: string)
    ensures a != "" ==> r == a
    ensures a == "" ==> r == b
  {
    if a != "" then a else b
  }

  // ----- Event classification -----

  const EventKeywords: seq<string> := ["events", "weinproben", "kellerblicke", "kartenvorverkauf", "veranstaltungen"]

  /** One category names one of `keywords` in its lowercased slug or name. */
  predicate HasKeyword(c: Term, keywords: seq<string>) {
    exists k | 0 <= k < |keywords| ::
      Contains(Lower(c.slug), keywords[k]) || Contains(Lower(c.name), keywords[k])
  }

  /** `isEventCategory`: some category mentions an event keyword, scanned category by category. */
  function IsEventCategory(cats: seq<Term>): (r: bool)
    ensures r <==> exists i, k :: 0 <= i < |cats| && 0 <= k < |EventKeywords|
                       && (Contains(Lower(cats[i].slug), EventKeywords[k]) || Contains(Lower(cats[i].name), EventKeywords[k]))
    decreases |cats|
  {
    if cats == [] then false
    else
      var rest := IsEventCategory(cats[1..]);
      assert rest <==> exists i :: 1 <= i < |cats| && HasKeyword(cats[i], EventKeywords) by {
        forall i | 1 <= i < |cats| ensures cats[1..][i - 1] == cats[i] { }
      }
      HasKeyword(cats[0], EventKeywords) || rest
  }

  // ----- Attribute lookup -----

  predicate NameMatches(a: Attribute, name: string) {
    Lower(a.name) == Lower(name)
  }

  /** Index `i` holds the first attribute whose name equals `name` ignoring case. */
  predicate IsFirstMatch(attrs: seq<Attribute>, name: string, i: int) {
    0 <= i < |attrs| && NameMatches(attrs[i], name)
    && forall j :: 0 <= j < i ==> !NameMatches(attrs[j], name)
  }

  /** `attributes.find(...)` from index `from`. */
  function FindAttribute(attrs: seq<Attribute>, name: string, from: nat): (r: Option<nat>)
    requires from <= |attrs|
    requires forall j :: 0 <= j < from ==> !NameMatches(attrs[j], name)
    ensures r.Some? ==> IsFirstMatch(attrs, name, r.value)
    ensures r.None? ==> forall j :: 0 <= j < |attrs| ==> !NameMatches(attrs[j], name)
    decreases |attrs| - from
  {
    if from == |attrs| then None
    else if NameMatches(attrs[from], name) then Some(from)
    else FindAttribute(attrs, name, from + 1)
  }

  /** `getAttr(name)`: the first option of the first attribute named `name` (ignoring case), or
      the empty string when there is no such attribute or it has no option. */
  function GetAttr(attrs: seq<Attribute>, name: string): (r: string)
    ensures forall i :: IsFirstMatch(attrs, name, i) ==>
              r == (if |attrs[i].options| > 0 then attrs[i].options[0] else "")
    ensures (forall j :: 0 <= j < |attrs| ==> !NameMatches(attrs[j], name)) ==> r == ""
  {
    match FindAttribute(attrs, name, 0)
    case None => ""
    case Some(i) =>
      assert forall i' :: IsFirstMatch(attrs, name, i') ==> i' == i;
      if |attrs[i].options| > 0 then attrs[i].options[0] else ""
  }

  /** Attributes named alike in a different case are found, and the first one wins. */
  lemma GetAttrIgnoresCase(attrs: seq<Attribute>, name: string, other: string, value: string)
    requires Lower(other) == Lower(name)
    ensures GetAttr([Attribute(other, [value])] + attrs, name) == value
  {
    assert IsFirstMatch([Attribute(other, [value])] + attrs, name, 0);
  }

  // ----- Common fields -----

  /** `price || regular_price || '0'`. */
  function PriceText(p: RawProduct): (r: string)
    ensures r != ""
    ensures p.price != "" ==> r == p.price
    ensures p.price == "" && p.regularPrice != "" ==> r == p.regularPrice
    ensures p.price == "" && p.regularPrice == "" ==> r == "0"
  {
    OrElse(OrElse(p.price, p.regularPrice), "0")
  }

  const Placeholder: string := "/images/placeholder.png"

  function MainImage(p: RawProduct): (r: string)
    ensures |p.images| > 0 ==> r == p.images[0].src
    ensures |p.images| == 0 ==> r == Placeholder
  {
    if |p.images| > 0 then p.images[0].src else Placeholder
  }

  // ----- Events -----

  /** The event date: the leftmost date spelling in the name, else the `Datum` or `date`
      attribute. */
  function EventDate(p: RawProduct): (r: string)
    ensures FindDate(p.name, 0).Some? ==>
              exists i: nat, e: nat :: i < e <= |p.name| && r == p.name[i..e] && IsDateAt(p.name, i, e)
                && forall j: nat, e': nat :: j < i ==> !IsDateAt(p.name, j, e')
    ensures FindDate(p.name, 0).None? ==> r == OrElse(GetAttr(p.attributes, "Datum"), GetAttr(p.attributes, "date"))
  {
    FindDateLeftmost(p.name);
    match FindDate(p.name, 0)
    case Some((i, e)) => p.name[i..e]
    case None => OrElse(GetAttr(p.attributes, "Datum"), GetAttr(p.attributes, "date"))
  }

  /** `(stock_quantity || 100).toString()`: a missing or zero stock shows as 100 places. */
  function Spots(stock: Option<int>): (r: string)
    ensures stock.None? || stock == Some(0) ==> r == "100"
    ensures stock.Some? && stock.value != 0 ==> r == IntToString(stock.value)
  {
    match stock
    case Some(n) => if n != 0 then IntToString(n) else "100"
    case None => "100"
  }

  /** Some category slug contains `word`, case-sensitively. */
  predicate SlugMentions(cats: seq<Term>, word: string) {
    exists i | 0 <= i < |cats| :: Contains(cats[i].slug, word)
  }

  /** The event shape: decimal id, the name as title, and a time, a location, a number of
      places and a price that are never empty; the riddle-tour flag is never set. */
  function MapEvent(p: RawProduct): (r: EventInfo)
    ensures r.id == NatToString(p.id) && r.title == p.name
    ensures r.time != "" && r.location != "" && r.spots != "" && r.price != ""
    ensures !r.isWeinRaetselTour
  {
    EventInfo(
      id := NatToString(p.id),
      title := p.name,
      date := EventDate(p),
      time := OrElse(OrElse(GetAttr(p.attributes, "Uhrzeit"), GetAttr(p.attributes, "time")), "18:00"),
      location := OrElse(GetAttr(p.attributes, "Ort"), "Fellbach"),
      spots := Spots(p.stockQuantity),
      price := PriceText(p),
      category := if |p.categories| > 0 then p.categories[0].name else "Events",
      image := MainImage(p),
      isAfterwork := SlugMentions(p.categories, "afterwork"),
      isWeinfeste := SlugMentions(p.categories, "weinfeste"),
      isWeinproben := SlugMentions(p.categories, "weinproben"),
      isKellerblicke := SlugMentions(p.categories, "kellerblicke"),
      isWeintreff := SlugMentions(p.categories, "weintreff"),
      isWeinWeiter := SlugMentions(p.categories, "weiter"),
      isWeinRaetselTour := false)
  }

  // ----- Wine type -----

  /** Some lowercased category slug contains `word`. */
  predicate AnySlugContains(cats: seq<Term>, word: string) {
    exists i | 0 <= i < |cats| :: Contains(Lower(cats[i].slug), word)
  }

  /** `determineType`: the first of red, white, rosé, sparkling and alcohol-free whose marker
      occurs in a lowercased category slug, red by default. */
  function DetermineType(cats: seq<Term>): (r: WineType)
    ensures r != Paket && r != Sonstiges
    ensures AnySlugContains(cats, "rot") ==> r == Rotwein
    ensures r == Weisswein <==>
              !AnySlugContains(cats, "rot") && (AnySlugContains(cats, "weiss") || AnySlugContains(cats, "weiß"))
    ensures r == Rosewein <==>
              !AnySlugContains(cats, "rot") && !AnySlugContains(cats, "weiss") && !AnySlugContains(cats, "weiß")
              && (AnySlugContains(cats, "rose") || AnySlugContains(cats, "rosé"))
    ensures r == Sekt <==>
              !AnySlugContains(cats, "rot") && !AnySlugContains(cats, "weiss") && !AnySlugContains(cats, "weiß")
              && !AnySlugContains(cats, "rose") && !AnySlugContains(cats, "rosé") && AnySlugContains(cats, "sekt")
    ensures r == Alkoholfrei <==>
              !AnySlugContains(cats, "rot") && !AnySlugContains(cats, "weiss") && !AnySlugContains(cats, "weiß")
              && !AnySlugContains(cats, "rose") && !AnySlugContains(cats, "rosé") && !AnySlugContains(cats, "sekt")
              && AnySlugContains(cats, "alkohol")
    ensures (!AnySlugContains(cats, "rot") && !AnySlugContains(cats, "weiss") && !AnySlugContains(cats, "weiß")
             && !AnySlugContains(cats, "rose") && !AnySlugContains(cats, "rosé") && !AnySlugContains(cats, "sekt")
             && !AnySlugContains(cats, "alkohol")) ==> r == Rotwein
  {
    var slugs := seq(|cats|, i requires 0 <= i < |cats| => Lower(cats[i].slug));
    assert forall w :: SomeContains(slugs, w) == AnySlugContains(cats, w) by {
      forall w ensures SomeContains(slugs, w) == AnySlugContains(cats, w) {
        assert forall i :: 0 <= i < |cats| ==> slugs[i] == Lower(cats[i].slug);
      }
    }
    if SomeContains(slugs, "rot") then Rotwein
    else if SomeContains(slugs, "weiss") || SomeContains(slugs, "weiß") then Weisswein
    else if SomeContains(slugs, "rose") || SomeContains(slugs, "rosé") then Rosewein
    else if SomeContains(slugs, "sekt") then Sekt
    else if SomeContains(slugs, "alkohol") then Alkoholfrei
    else Rotwein
  }

  /** `cats.some(c => c.includes(word))` over the lowercased slugs. */
  predicate SomeContains(slugs: seq<string>, word: string) {
    exists i | 0 <= i < |slugs| :: Contains(slugs[i], word)
  }

  // ----- Description -----

  const DescriptionMarker: string := "Weinbeschreibung:"

  /** The wine description: tags stripped, and when the marker heading occurs, only the trimmed
      text after its first occurrence up to the next one. */
  function CleanDescription(description: string): (r: string)
    ensures '<' !in r
    ensures !Contains(StripTags(description), DescriptionMarker) ==> r == StripTags(description)
    ensures |r| <= |description|
  {
    var clean := StripTags(description);
    if Contains(clean, DescriptionMarker) then
      SplitContains(clean, DescriptionMarker);
      var piece := Split(clean, DescriptionMarker)[1];
      SplitPieceChars(clean, DescriptionMarker, 1);
      TrimChars(piece);
      Trim(piece)
    else clean
  }

  lemma SplitContains(s: string, sep: string)
    requires |sep| > 0 && Contains(s, sep)
    ensures |Split(s, sep)| >= 2
  {
    ContainsIndexOf(s, sep);
  }

  /** Every piece of a split is made of characters of the original string. */
  lemma {:induction false} SplitPieceChars(s: string, sep: string, k: nat)
    requires |sep| > 0 && k < |Split(s, sep)|
    ensures forall c :: c in Split(s, sep)[k] ==> c in s
    decreases |s|
  {
    match IndexOfFrom(s, sep, 0)
    case None =>
    case Some(i) =>
      if k > 0 {
        SplitPieceChars(s[i + |sep|..], sep, k - 1);
        assert Split(s, sep)[k] == Split(s[i + |sep|..], sep)[k - 1];
      }
  }

  lemma TrimChars(s: string)
    ensures forall c :: c in Trim(s) ==> c in s
  {
    var t := Trim(s);
    var a: nat, b: nat :| TrimmedSlice(s, t, a, b);
    forall c | c in t ensures c in s {
      var k :| 0 <= k < |t| && t[k] == c;
      assert t[k] == s[a + k];
    }
  }

  /** The marker heading ends with the only colon it contains, so it cannot overlap itself. */
  lemma MarkerNotBefore(x: string, y: string, j: nat)
    requires !Contains(x, DescriptionMarker) && j < |x|
    ensures !OccursAt(x + DescriptionMarker + y, DescriptionMarker, j)
  {
    var s := x + DescriptionMarker + y;
    var m := |DescriptionMarker|;
    var last := j + m - 1;
    if last < |x| {
      assert s[j..j + m] == x[j..j + m];
      assert !OccursAt(x, DescriptionMarker, j);
    } else {
      assert s[last] == DescriptionMarker[last - |x|];
      assert s[last] != ':';
      assert s[j..j + m][m - 1] == s[last];
    }
  }

  /** Text before the first heading is dropped, and the section after it up to the next heading
      is kept, trimmed. */
  lemma DescriptionSection(x: string, y: string)
    requires '<' !in x && '<' !in y
    requires !Contains(x, DescriptionMarker)
    ensures CleanDescription(x + DescriptionMarker + y) == Trim(Split(y, DescriptionMarker)[0])
  {
    DescriptionPieces(x, y);
    CleanDescriptionSection(x + DescriptionMarker + y);
  }

  /** The same rule for any raw description: once its tags are stripped, the text before the
      first heading is dropped and the trimmed section up to the next heading is kept. */
  lemma StrippedDescriptionSection(description: string, x: string, y: string)
    requires StripTags(description) == x + DescriptionMarker + y
    requires !Contains(x, DescriptionMarker)
    ensures CleanDescription(description) == Trim(Split(y, DescriptionMarker)[0])
  {
    var s := x + DescriptionMarker + y;
    assert '<' !in x by {
      assert forall k :: 0 <= k < |x| ==> x[k] == s[k];
    }
    assert '<' !in y by {
      assert forall k :: 0 <= k < |y| ==> y[k] == s[|x| + |DescriptionMarker| + k];
    }
    DescriptionPieces(x, y);
  }

  /** The text of a single heading between plain parts: nothing to strip, and its second piece
      is the first piece of what follows the heading. */
  lemma DescriptionPieces(x: string, y: string)
    requires '<' !in x && '<' !in y
    requires !Contains(x, DescriptionMarker)
    ensures StripTags(x + DescriptionMarker + y) == x + DescriptionMarker + y
    ensures Contains(x + DescriptionMarker + y, DescriptionMarker)
    ensures Split(x + DescriptionMarker + y, DescriptionMarker)[1] == Split(y, DescriptionMarker)[0]
  {
    var s := x + DescriptionMarker + y;
    StripTagsPlain(s);
    MarkerFirstAt(x, y);
    SplitAfterFirst(s, DescriptionMarker, |x|);
    assert s[|x| + |DescriptionMarker|..] == y;
  }

  /** Text without tags that holds the heading keeps its trimmed second piece. */
  lemma CleanDescriptionSection(s: string)
    requires StripTags(s) == s && Contains(s, DescriptionMarker)
    ensures CleanDescription(s) == Trim(Split(s, DescriptionMarker)[1])
  {
  }

  /** In `x`, the heading and `y`, with no heading inside `x`, the first heading starts right
      after `x`. */
  lemma MarkerFirstAt(x: string, y: string)
    requires !Contains(x, DescriptionMarker)
    ensures OccursAt(x + DescriptionMarker + y, DescriptionMarker, |x|)
    ensures forall j :: 0 <= j < |x| ==> !OccursAt(x + DescriptionMarker + y, DescriptionMarker, j)
  {
    var s := x + DescriptionMarker + y;
    assert s[|x|..|x| + |DescriptionMarker|] == DescriptionMarker;
    forall j | 0 <= j < |x| ensures !OccursAt(s, DescriptionMarker, j) {
      MarkerNotBefore(x, y, j);
    }
  }

  /** The piece after the first separator is the first piece of the rest of the text. */
  lemma SplitAfterFirst(s: string, sep: string, i: nat)
    requires |sep| > 0 && OccursAt(s, sep, i)
    requires forall j :: 0 <= j < i ==> !OccursAt(s, sep, j)
    ensures Contains(s, sep)
    ensures Split(s, sep)[1] == Split(s[i + |sep|..], sep)[0]
  {
    FirstOccurrence(s, sep, i);
  }

  /** A section without a further heading is kept whole. */
  lemma SplitWithoutSeparator(y: string, sep: string)
    requires |sep| > 0 && !Contains(y, sep)
    ensures Split(y, sep) == [y]
  {
    ContainsIndexOf(y, sep);
  }

  // ----- Volume -----

  /** The standard bottle sizes recognised by a comma notation or a word, in order. */
  function VolumeByKeyword(text: string): (r: Option<string>)
    ensures r.Some? ==> r.value in ["0.75", "1.0", "1.5", "0.33", "0.5"]
    ensures Contains(text, "0,75") ==> r == Some("0.75")
    ensures !Contains(text, "0,75") && (Contains(text, "1,0") || Contains(text, "literwein")) ==> r == Some("1.0")
    ensures (!Contains(text, "0,75") && !Contains(text, "1,0") && !Contains(text, "literwein")
             && (Contains(text, "1,5") || Contains(text, "magnum"))) ==> r == Some("1.5")
    ensures (!Contains(text, "0,75") && !Contains(text, "1,0") && !Contains(text, "literwein")
             && !Contains(text, "1,5") && !Contains(text, "magnum") && Contains(text, "0,33")) ==> r == Some("0.33")
    ensures (!Contains(text, "0,75") && !Contains(text, "1,0") && !Contains(text, "literwein")
             && !Contains(text, "1,5") && !Contains(text, "magnum") && !Contains(text, "0,33")
             && Contains(text, "0,5")) ==> r == Some("0.5")
    ensures r.None? <==>
              !Contains(text, "0,75") && !Contains(text, "1,0") && !Contains(text, "literwein")
              && !Contains(text, "1,5") && !Contains(text, "magnum") && !Contains(text, "0,33") && !Contains(text, "0,5")
  {
    if Contains(text, "0,75") then Some("0.75")
    else if Contains(text, "1,0") || Contains(text, "literwein") then Some("1.0")
    else if Contains(text, "1,5") || Contains(text, "magnum") then Some("1.5")
    else if Contains(text, "0,33") then Some("0.33")
    else if Contains(text, "0,5") then Some("0.5")
    else None
  }

  /** The raw weight looks like a volume in litres when its numeric prefix lies strictly
      between 0.1 and 2. */
  predicate PlausibleWeight(w: string) {
    w != "" && ParseFloat(w).Some? && 0.1 < ParseFloat(w).value < 2.0
  }

  /** The text the volume patterns are looked for in. */
  function VolumeText(volumeAttr: string, name: string): string {
    Lower(volumeAttr + " " + name)
  }

  /** The captured number of the leftmost decimal-litre spelling, with its comma made a point. */
  function LitreVolume(text: string): (r: Option<string>)
    ensures r.Some? ==> r.value != ""
  {
    match FindLitre(text, 0)
    case Some((i, b)) => Some(ReplaceFirst(text[i..b], ",", "."))
    case None => None
  }

  /** The leftmost millilitre spelling, divided by 1000 and rendered as a number. */
  function MillilitreVolume(text: string): (r: Option<string>)
    ensures r.Some? ==> r.value != ""
  {
    match FindMillilitre(text, 0)
    case Some((i, a)) => Some(ThousandthsText(DigitsValue(text[i..a])))
    case None => None
  }

  /** The volume in litres as text: a decimal-litre spelling, else millilitres divided by 1000,
      else a standard size named in the text, else a plausible weight, else 0.75. */
  function ResolveVolume(volumeAttr: string, name: string, weight: string): (r: string)
    ensures r != ""
  {
    var text := VolumeText(volumeAttr, name);
    match LitreVolume(text)
    case Some(v) => v
    case None =>
      match MillilitreVolume(text)
      case Some(v) => v
      case None =>
        match VolumeByKeyword(text)
        case Some(v) => v
        case None => if PlausibleWeight(weight) then weight else "0.75"
  }

  /** Replacing the first comma of digits, a separator and digits writes the separator as a
      decimal point. */
  lemma SeparatorAsPoint(text: string, i: nat, a: nat, b: nat)
    requires i <= a < b <= |text| && DigitsIn(text, i, a) && (text[a] == '.' || text[a] == ',') && DigitsIn(text, a + 1, b)
    ensures ReplaceFirst(text[i..b], ",", ".") == text[i..a] + "." + text[a + 1..b]
  {
    var g := text[i..b];
    var k := a - i;
    assert g == text[i..a] + [text[a]] + text[a + 1..b];
    forall j | 0 <= j < k ensures !OccursAt(g, ",", j) {
      assert g[j..j + 1] == [g[j]];
      assert IsDigit(text[i + j]);
    }
    if text[a] == ',' {
      assert OccursAt(g, ",", k) by { assert g[k..k + 1] == [text[a]]; }
      FirstOccurrence(g, ",", k);
      assert g[k + 1..] == text[a + 1..b];
    } else {
      assert ',' !in g by {
        forall j | 0 <= j < |g| ensures g[j] != ',' {
          assert g[j] == text[i + j];
        }
      }
      ContainsChar(g, ',');
    }
  }

  /** The captured number of a decimal-litre spelling, written with a decimal point. */
  lemma LitreVolumeIs(text: string, i: nat, a: nat, b: nat, c: nat)
    requires LitreShape(text, i, a, b, c) && forall j: nat, a': nat, b': nat, c': nat :: j < i ==> !LitreShape(text, j, a', b', c')
    ensures LitreVolume(text) == Some(text[i..a] + "." + text[a + 1..b])
  {
    FindLitreLeftmost(text);
    LitreAtComplete(text, i, a, b, c);
    assert FindLitre(text, 0) == Some((i, b));
    SeparatorAsPoint(text, i, a, b);
  }

  /** The leftmost decimal-litre spelling wins, written with a decimal point. */
  lemma VolumeFromLitres(volumeAttr: string, name: string, weight: string, i: nat, a: nat, b: nat, c: nat)
    requires var text := VolumeText(volumeAttr, name);
             LitreShape(text, i, a, b, c) && forall j: nat, a': nat, b': nat, c': nat :: j < i ==> !LitreShape(text, j, a', b', c')
    ensures var text := VolumeText(volumeAttr, name);
            ResolveVolume(volumeAttr, name, weight) == text[i..a] + "." + text[a + 1..b]
  {
    LitreVolumeIs(VolumeText(volumeAttr, name), i, a, b, c);
  }

  lemma MillilitreVolumeIs(text: string, i: nat, a: nat, c: nat)
    requires MillilitreShape(text, i, a, c) && forall j: nat, a': nat, c': nat :: j < i ==> !MillilitreShape(text, j, a', c')
    ensures MillilitreVolume(text) == Some(ThousandthsText(DigitsValue(text[i..a])))
  {
    FindMillilitreLeftmost(text);
    MillilitreAtComplete(text, i, a, c);
    assert FindMillilitre(text, 0) == Some((i, a));
  }

  lemma NoLitreVolume(text: string)
    requires forall j: nat, a': nat, b': nat, c': nat :: j <= |text| ==> !LitreShape(text, j, a', b', c')
    ensures LitreVolume(text).None?
  {
    forall j | 0 <= j <= |text| ensures LitreAt(text, j).None? {
      LitreAtSound(text, j);
    }
  }

  lemma NoMillilitreVolume(text: string)
    requires forall j: nat, a': nat, c': nat :: j <= |text| ==> !MillilitreShape(text, j, a', c')
    ensures MillilitreVolume(text).None?
  {
    forall j | 0 <= j <= |text| ensures MillilitreAt(text, j).None? {
      MillilitreAtSound(text, j);
    }
  }

  /** Without a decimal-litre or a millilitre spelling, a standard size named in the text gives
      the volume; without one either, a plausible raw weight is kept as it is, and 0.75 is the
      last resort. */
  lemma VolumeFromKeyword(volumeAttr: string, name: string, weight: string)
    requires var text := VolumeText(volumeAttr, name);
             && (forall j: nat, a': nat, b': nat, c': nat :: j <= |text| ==> !LitreShape(text, j, a', b', c'))
             && (forall j: nat, a': nat, c': nat :: j <= |text| ==> !MillilitreShape(text, j, a', c'))
    ensures VolumeByKeyword(VolumeText(volumeAttr, name)).Some? ==>
              ResolveVolume(volumeAttr, name, weight) == VolumeByKeyword(VolumeText(volumeAttr, name)).value
    ensures VolumeByKeyword(VolumeText(volumeAttr, name)).None? ==>
              ResolveVolume(volumeAttr, name, weight) == if PlausibleWeight(weight) then weight else "0.75"
  {
    NoLitreVolume(VolumeText(volumeAttr, name));
    NoMillilitreVolume(VolumeText(volumeAttr, name));
  }

  /** Without a decimal-litre spelling, the leftmost millilitre spelling gives the volume: its
      millilitres rendered as litres, which `ThousandthsRoundTrip` reads back as exactly a
      thousandth of the millilitres. */
  lemma VolumeFromMillilitres(volumeAttr: string, name: string, weight: string, i: nat, a: nat, c: nat)
    requires var text := VolumeText(volumeAttr, name);
             && (forall j: nat, a': nat, b': nat, c': nat :: j <= |text| ==> !LitreShape(text, j, a', b', c'))
             && MillilitreShape(text, i, a, c)
             && forall j: nat, a': nat, c': nat :: j < i ==> !MillilitreShape(text, j, a', c')
    ensures AllDigits(VolumeText(volumeAttr, name)[i..a])
    ensures ResolveVolume(volumeAttr, name, weight) == ThousandthsText(DigitsValue(VolumeText(volumeAttr, name)[i..a]))
  {
    MillilitreFound(VolumeText(volumeAttr, name), i, a, c);
  }

  /** The leftmost millilitre spelling, when no litre spelling exists, is a run of digits and
      gives the millilitre volume. */
  lemma MillilitreFound(text: string, i: nat, a: nat, c: nat)
    requires && (forall j: nat, a': nat, b': nat, c': nat :: j <= |text| ==> !LitreShape(text, j, a', b', c'))
             && MillilitreShape(text, i, a, c)
             && forall j: nat, a': nat, c': nat :: j < i ==> !MillilitreShape(text, j, a', c')
    ensures LitreVolume(text).None? && AllDigits(text[i..a])
    ensures MillilitreVolume(text) == Some(ThousandthsText(DigitsValue(text[i..a])))
  {
    NoLitreVolume(text);
    SliceDigits(text, i, a);
    MillilitreVolumeIs(text, i, a, c);
  }

  // ----- Quality level -----

  function TagNames(tags: seq<Term>): (r: seq<string>)
    ensures |r| == |tags| && forall i :: 0 <= i < |tags| ==> r[i] == tags[i].name
  {
    seq(|tags|, i requires 0 <= i < |tags| => tags[i].name)
  }

  /** Name, raw description, raw short description and tag names, lowercased. */
  function SearchableText(p: RawProduct): string {
    Lower(p.name + " " + p.description + " " + p.shortDescription + " " + Join(TagNames(p.tags), " "))
  }

  /** A `Qualitätsstufe` attribute that names an edition or litre wines is taken as it is. */
  predicate AttributeDecides(attr: string) {
    attr != "" && (Contains(Lower(attr), "edition") || Contains(Lower(attr), "liter"))
  }

  predicate MentionsLitreWine(text: string) {
    Contains(text, "literwein") || Contains(text, "liter-wein") || Contains(text, "1,0 l")
  }

  predicate MentionsEdition(text: string, letter: char) {
    Contains(text, "edition") && (Contains(text, [' ', letter]) || Contains(text, ['>', letter, '<']))
  }

  /** The quality level: a `Qualitätsstufe` attribute mentioning an edition or litre wines wins;
      otherwise the editions C, P and S and then the litre-wine markers are looked for in the
      product text; otherwise the attribute as it is. */
  function ResolveQualityLevel(p: RawProduct): (r: string)
    ensures r in {GetAttr(p.attributes, "Qualitätsstufe"), "Edition >C<", "Edition >P<", "Edition >S<", "Literweine"}
    ensures var attr := GetAttr(p.attributes, "Qualitätsstufe");
            attr != "" && (Contains(Lower(attr), "edition") || Contains(Lower(attr), "liter")) ==> r == attr
    ensures !AttributeDecides(GetAttr(p.attributes, "Qualitätsstufe")) && MentionsEdition(SearchableText(p), 'c') ==> r == "Edition >C<"
    ensures (!AttributeDecides(GetAttr(p.attributes, "Qualitätsstufe")) && !MentionsEdition(SearchableText(p), 'c') && MentionsEdition(SearchableText(p), 'p')) ==> r == "Edition >P<"
    ensures (!AttributeDecides(GetAttr(p.attributes, "Qualitätsstufe")) && !MentionsEdition(SearchableText(p), 'c') && !MentionsEdition(SearchableText(p), 'p')
             && MentionsEdition(SearchableText(p), 's')) ==> r == "Edition >S<"
    ensures (!AttributeDecides(GetAttr(p.attributes, "Qualitätsstufe")) && !MentionsEdition(SearchableText(p), 'c') && !MentionsEdition(SearchableText(p), 'p')
             && !MentionsEdition(SearchableText(p), 's') && MentionsLitreWine(SearchableText(p))) ==> r == "Literweine"
    ensures (!AttributeDecides(GetAttr(p.attributes, "Qualitätsstufe")) && !MentionsEdition(SearchableText(p), 'c') && !MentionsEdition(SearchableText(p), 'p')
             && !MentionsEdition(SearchableText(p), 's') && !MentionsLitreWine(SearchableText(p))) ==> r == GetAttr(p.attributes, "Qualitätsstufe")
  {
    var attr := GetAttr(p.attributes, "Qualitätsstufe");
    if AttributeDecides(attr) then attr
    else
      var text := SearchableText(p);
      if MentionsEdition(text, 'c') then "Edition >C<"
      else if MentionsEdition(text, 'p') then "Edition >P<"
      else if MentionsEdition(text, 's') then "Edition >S<"
      else if MentionsLitreWine(text) then "Literweine"
      else attr
  }

  // ----- Flavour -----

  const KnownFlavors: seq<string> :=
    ["trocken", "feinherb", "halbtrocken", "fruchtig", "lieblich", "süß", "suess", "dry", "off-dry", "fruity", "sweet"]

  predicate IsKnownFlavor(s: string) {
    Lower(s) in KnownFlavors
  }

  /** Every option of every attribute, attribute by attribute, in option order. */
  function AllOptions(attrs: seq<Attribute>): (r: seq<string>)
    ensures forall x :: x in r <==> exists i :: 0 <= i < |attrs| && x in attrs[i].options
    decreases |attrs|
  {
    if attrs == [] then []
    else
      var rest := AllOptions(attrs[1..]);
      assert forall x :: (exists i :: 1 <= i < |attrs| && x in attrs[i].options) <==> x in rest by {
        forall x, i | 1 <= i < |attrs| && x in attrs[i].options ensures x in rest {
          assert attrs[1..][i - 1] == attrs[i];
        }
      }
      attrs[0].options + rest
  }

  /** The options of several attributes are those of each in turn. */
  lemma {:induction false} AllOptionsAppend(a: seq<Attribute>, b: seq<Attribute>)
    ensures AllOptions(a + b) == AllOptions(a) + AllOptions(b)
    decreases |a|
  {
    if a == [] {
      assert a + b == b;
    } else {
      assert (a + b)[1..] == a[1..] + b;
      AllOptionsAppend(a[1..], b);
    }
  }

  /** The index of the first known flavour word, compared in lower case. */
  function FirstKnown(xs: seq<string>, from: nat): (r: Option<nat>)
    requires from <= |xs|
    ensures r.Some? ==> from <= r.value < |xs| && IsKnownFlavor(xs[r.value])
    ensures r.Some? ==> forall j :: from <= j < r.value ==> !IsKnownFlavor(xs[j])
    ensures r.None? ==> forall j :: from <= j < |xs| ==> !IsKnownFlavor(xs[j])
    decreases |xs| - from
  {
    if from == |xs| then None
    else if IsKnownFlavor(xs[from]) then Some(from)
    else FirstKnown(xs, from + 1)
  }

  function DirectFlavor(attrs: seq<Attribute>): string {
    OrElse(OrElse(OrElse(GetAttr(attrs, "Geschmacksrichtung"), GetAttr(attrs, "Geschmack")), GetAttr(attrs, "Taste")),
           GetAttr(attrs, "Flavor"))
  }

  /** The first known flavour word of a list, in its original case. */
  function KnownWord(xs: seq<string>): (r: Option<string>)
    ensures FirstKnown(xs, 0).Some? ==> r == Some(xs[FirstKnown(xs, 0).value])
    ensures FirstKnown(xs, 0).None? ==> r.None?
    ensures r.Some? ==> r.value != "" && IsKnownFlavor(r.value) && r.value in xs
  {
    match FirstKnown(xs, 0)
    case Some(i) =>
      assert xs[i] in xs;
      assert xs[i] != "" by {
        assert Lower("") == "";
      }
      Some(xs[i])
    case None => None
  }

  /** The flavour: a direct flavour attribute, else the first attribute option that is a known
      flavour word, else the first such tag name, in their original case; else empty. */
  function ResolveFlavor(p: RawProduct): (r: string)
    ensures DirectFlavor(p.attributes) != "" ==> r == DirectFlavor(p.attributes)
    ensures DirectFlavor(p.attributes) == "" ==>
              r == "" || (IsKnownFlavor(r) && (r in AllOptions(p.attributes) || r in TagNames(p.tags)))
    ensures DirectFlavor(p.attributes) == "" && r == "" ==>
              (forall x :: x in AllOptions(p.attributes) ==> !IsKnownFlavor(x))
              && (forall t :: t in p.tags ==> !IsKnownFlavor(t.name))
    ensures DirectFlavor(p.attributes) == "" && FirstKnown(AllOptions(p.attributes), 0).Some? ==>
              r == AllOptions(p.attributes)[FirstKnown(AllOptions(p.attributes), 0).value]
    ensures DirectFlavor(p.attributes) == "" && FirstKnown(AllOptions(p.attributes), 0).None?
            && FirstKnown(TagNames(p.tags), 0).Some? ==>
              r == TagNames(p.tags)[FirstKnown(TagNames(p.tags), 0).value]
  {
    var direct := DirectFlavor(p.attributes);
    if direct != "" then direct
    else
      var options := AllOptions(p.attributes);
      match KnownWord(options)
      case Some(v) => v
      case None =>
        match KnownWord(TagNames(p.tags))
        case Some(v) => v
        case None => NoKnownFlavor(options, p.tags); ""
  }

  /** Without a known flavour word among the options or the tag names, no option and no tag is
      one. */
  lemma NoKnownFlavor(options: seq<string>, tags: seq<Term>)
    requires FirstKnown(options, 0).None? && FirstKnown(TagNames(tags), 0).None?
    ensures forall x :: x in options ==> !IsKnownFlavor(x)
    ensures forall t :: t in tags ==> !IsKnownFlavor(t.name)
  {
    forall t | t in tags ensures !IsKnownFlavor(t.name) {
      var i :| 0 <= i < |tags| && tags[i] == t;
      assert TagNames(tags)[i] == t.name;
    }
  }

  // ----- The whole mapping -----

  /** `parseInt(getAttr('Jahrgang')) || 0`. */
  function Year(text: string): (r: int)
    ensures text != [] && AllDigits(text) ==> r == DigitsValue(text)
    ensures ParseInt(text).None? ==> r == 0
  {
    match ParseInt(text)
    case Some(n) => n
    case None => 0
  }

  /** The wine shape: decimal id, tag-free descriptions, a volume, a still-wine or sparkling
      type, and a grape variety and a producer that are never empty. */
  function MapWine(p: RawProduct): (r: WineInfo)
    ensures r.id == NatToString(p.id) && r.name == p.name && r.slug == p.slug
    ensures '<' !in r.description && '<' !in r.shortDescription
    ensures r.weight != ""
    ensures r.wineType != Paket && r.wineType != Sonstiges
    ensures r.grapeVariety != "" && r.producer != ""
    ensures r.images == p.images && r.categories == p.categories && r.tags == p.tags && r.attributes == p.attributes
  {
    var attrs := p.attributes;
    var price := PriceText(p);
    WineInfo(
      id := NatToString(p.id),
      name := p.name,
      slug := p.slug,
      price := ParseFloat(price).GetOr(0.0),
      regularPrice := ParseFloat(OrElse(p.regularPrice, price)).GetOr(0.0),
      description := CleanDescription(p.description),
      shortDescription := StripTags(p.shortDescription),
      inStock := p.stockStatus == InStock,
      images := p.images,
      categories := p.categories,
      tags := p.tags,
      attributes := attrs,
      sku := p.sku,
      weight := ResolveVolume(OrElse(OrElse(GetAttr(attrs, "Inhalt"), GetAttr(attrs, "Flaschengröße")), GetAttr(attrs, "Volume")),
                              p.name, p.weight),
      stockQuantity := p.stockQuantity,
      taxStatus := p.taxStatus,
      taxClass := p.taxClass,
      image := MainImage(p),
      year := Year(GetAttr(attrs, "Jahrgang")),
      wineType := DetermineType(p.categories),
      grapeVariety := OrElse(GetAttr(attrs, "Rebsorte"), "Cuvée"),
      alcohol := GetAttr(attrs, "Alkohol"),
      acidity := GetAttr(attrs, "Säure"),
      sugar := GetAttr(attrs, "Restzucker"),
      location := OrElse(GetAttr(attrs, "Lage / Herkunft"), GetAttr(attrs, "Gemarkung")),
      qualityLevel := ResolveQualityLevel(p),
      flavor := ResolveFlavor(p),
      soil := GetAttr(attrs, "Bodenart"),
      producer := OrElse(GetAttr(attrs, "Erzeuger / Abfüller"), "Fellbacher Weingärtner eG"),
      temp := GetAttr(attrs, "Trinktemperatur"))
  }

  /** `mapProduct`: an event exactly when a category names an event keyword, a wine otherwise. */
  function MapProduct(p: RawProduct): (r: UnifiedProduct)
    ensures r.Event? <==> IsEventCategory(p.categories)
    ensures r.Id() == NatToString(p.id)
  {
    if IsEventCategory(p.categories) then Event(MapEvent(p)) else Wine(MapWine(p))
  }

  // ----- Properties of the mapping -----

  /** Identity, price and image are shared by both shapes: the decimal id, the price falling back
      to the regular price and then to "0", and the first image or the placeholder. */
  lemma CommonFields(p: RawProduct)
    ensures MapProduct(p).Event? ==> MapProduct(p).event.price == PriceText(p)
    ensures MapProduct(p).Wine? ==> MapProduct(p).wine.price == ParseFloat(PriceText(p)).GetOr(0.0)
    ensures MapProduct(p).Wine? ==>
              MapProduct(p).wine.regularPrice == ParseFloat(OrElse(p.regularPrice, PriceText(p))).GetOr(0.0)
    ensures MapProduct(p).Event? ==> MapProduct(p).event.image == MainImage(p)
    ensures MapProduct(p).Wine? ==> MapProduct(p).wine.image == MainImage(p)
  {
  }

  /** An event is dated by the leftmost date spelled in its name, which is a substring of the
      name, and by the `Datum` or `date` attribute only when the name has none. */
  lemma EventDateFromName(p: RawProduct)
    requires IsEventCategory(p.categories)
    ensures var d := MapProduct(p).event.date;
            if FindDate(p.name, 0).Some? then
              exists i: nat, e: nat :: i < e <= |p.name| && d == p.name[i..e] && IsDateAt(p.name, i, e)
                && forall j: nat, e': nat :: j < i ==> !IsDateAt(p.name, j, e')
            else d == OrElse(GetAttr(p.attributes, "Datum"), GetAttr(p.attributes, "date"))
  {
  }

  /** The defaults of an event: 18:00, Fellbach and 100 places when nothing says otherwise; its
      category is the name of its first category, which always exists. */
  lemma EventDefaults(p: RawProduct)
    requires IsEventCategory(p.categories)
    ensures var ev := MapProduct(p).event;
            && (GetAttr(p.attributes, "Uhrzeit") == "" && GetAttr(p.attributes, "time") == "" ==> ev.time == "18:00")
            && (GetAttr(p.attributes, "Ort") == "" ==> ev.location == "Fellbach")
            && (p.stockQuantity.None? || p.stockQuantity == Some(0) ==> ev.spots == "100")
            && |p.categories| > 0 && ev.category == p.categories[0].name
            && ev.title == p.name
  {
  }

  /** Exactly six series flags come from the category slugs, matched case-sensitively; the
      puzzle-tour flag is never set. */
  lemma EventFlags(p: RawProduct)
    requires IsEventCategory(p.categories)
    ensures var ev := MapProduct(p).event;
            && ev.isKellerblicke == SlugMentions(p.categories, "kellerblicke")
            && ev.isWeinproben == SlugMentions(p.categories, "weinproben")
            && ev.isWeinfeste == SlugMentions(p.categories, "weinfeste")
            && ev.isAfterwork == SlugMentions(p.categories, "afterwork")
            && ev.isWeinWeiter == SlugMentions(p.categories, "weiter")
            && ev.isWeintreff == SlugMentions(p.categories, "weintreff")
            && !ev.isWeinRaetselTour
  {
  }

  /** A slug in upper case does not set a series flag, although it still makes the product an
      event. */
  lemma FlagsAreCaseSensitive(p: RawProduct)
    requires p.categories == [Term(1, "Kellerblicke", "KELLERBLICKE")]
    ensures MapProduct(p).Event? && !MapProduct(p).event.isKellerblicke
  {
    var c := p.categories[0];
    assert Lower(c.slug) == "kellerblicke";
    assert OccursAt(Lower(c.slug), "kellerblicke", 0);
    assert EventKeywords[2] == "kellerblicke";
    assert IsEventCategory(p.categories);
    assert !OccursAt(c.slug, "kellerblicke", 0) by {
      assert c.slug[0] == 'K';
    }
    assert !SlugMentions(p.categories, "kellerblicke");
    EventFlags(p);
  }

  /** A wine without attributes gets the documented defaults: year 0, grape Cuvée, the
      cooperative as producer and empty characteristics. */
  lemma AttributelessWine(p: RawProduct)
    requires !IsEventCategory(p.categories) && p.attributes == []
    ensures var w := MapProduct(p).wine;
            && w.year == 0 && w.grapeVariety == "Cuvée" && w.producer == "Fellbacher Weingärtner eG"
            && w.alcohol == "" && w.acidity == "" && w.sugar == "" && w.location == ""
            && w.soil == "" && w.temp == "" && w.flavor == ResolveFlavor(p)
  {
    assert ParseInt("") == None;
  }

  /** The vintage is the number a `Jahrgang` attribute spells in digits. */
  lemma VintageFromAttribute(p: RawProduct, vintage: string)
    requires !IsEventCategory(p.categories)
    requires GetAttr(p.attributes, "Jahrgang") == vintage && vintage != [] && AllDigits(vintage)
    ensures MapProduct(p).wine.year == DigitsValue(vintage)
  {
  }

  /** A wine keeps the listing fields of its record and carries the derived ones. */
  lemma WineFields(p: RawProduct)
    requires !IsEventCategory(p.categories)
    ensures var w := MapProduct(p).wine;
            && w.name == p.name && w.slug == p.slug && w.categories == p.categories && w.tags == p.tags
            && w.attributes == p.attributes && w.images == p.images && w.stockQuantity == p.stockQuantity
            && (w.inStock <==> p.stockStatus == InStock)
            && w.wineType == DetermineType(p.categories) && w.wineType != Paket && w.wineType != Sonstiges
            && '<' !in w.description && '<' !in w.shortDescription
            && w.weight != ""
            && w.qualityLevel == ResolveQualityLevel(p)
  {
  }
}
