/** Hand-written scanners for the four regular expressions of the product normaliser
    (lib/utils/map-product.ts): the event date in a product name, the decimal-litre and the
    millilitre volume, and the HTML tag remover. Each scanner is shown to accept exactly the
    strings of a declarative shape, and each search to return the leftmost match, which is what
    `String.prototype.match` returns for these backtracking-free patterns. */
module Patterns {
  import opened Basics
  import opened Text
  import opened Numbers

  /** The letter class `[A-Za-zäöüÄÖÜ]`. */
  predicate IsDateLetter(c: char) {
    if c <= 'z' then 'A' <= c <= 'Z' || 'a' <= c
    else c == 'ä' || c == 'ö' || c == 'ü' || c == 'Ä' || c == 'Ö' || c == 'Ü'
  }

  predicate IsLetterL(c: char) {
    c == 'l' || c == 'L'
  }

  predicate IsLetterM(c: char) {
    c == 'm' || c == 'M'
  }

  predicate IsNotClose(c: char) {
    c != '>'
  }

  predicate IsPoint(c: char) {
    c == '.'
  }

  /** The index after an optional character satisfying `p` at index `k`. */
  function Optionally(s: string, k: nat, p: char -> bool): (r: nat)
    requires k <= |s|
    ensures r == k || (r == k + 1 && k < |s| && p(s[k]))
    ensures k < |s| && p(s[k]) ==> r == k + 1
  {
    if k < |s| && p(s[k]) then k + 1 else k
  }

  predicate DigitsIn(s: string, lo: nat, hi: nat)
    requires lo <= hi <= |s|
  {
    forall k :: lo <= k < hi ==> IsDigit(s[k])
  }

  lemma SliceDigits(s: string, lo: nat, hi: nat)
    requires lo <= hi <= |s| && DigitsIn(s, lo, hi)
    ensures AllDigits(s[lo..hi])
  {
    assert forall k :: 0 <= k < hi - lo ==> s[lo..hi][k] == s[lo + k];
  }

  /** The leftmost index in `[from, n]` at which `at` finds a match, with the end of that match:
      the search `String.prototype.match` performs for a pattern without the global flag. */
  function Leftmost(n: nat, from: nat, at: nat -> Option<nat>): (r: Option<(nat, nat)>)
    requires from <= n
    ensures r.Some? ==> from <= r.value.0 <= n && at(r.value.0) == Some(r.value.1)
    ensures r.Some? ==> forall j :: from <= j < r.value.0 ==> at(j).None?
    ensures r.None? ==> forall j :: from <= j <= n ==> at(j).None?
    decreases n - from
  {
    match at(from)
    case Some(e) => Some((from, e))
    case None => if from == n then None else Leftmost(n, from + 1, at)
  }

  // ----- Event date: \d{1,2}\.?\s?[A-Za-zäöüÄÖÜ]+\s?\d{4} -----

  /** `s[i..e]` spells a date, split at `a` (after the day), `b` (after the optional point),
      `c` (after the optional blank), `d` (after the month word) and `f` (after the second
      optional blank). */
  ghost predicate DateShape(s: string, i: nat, a: nat, b: nat, c: nat, d: nat, f: nat, e: nat) {
    i < a <= i + 2 && a <= b <= a + 1 && b <= c <= b + 1 && c < d <= f <= d + 1 && e == f + 4
    && e <= |s|
    && DigitsIn(s, i, a)
    && (b == a + 1 ==> s[a] == '.')
    && (c == b + 1 ==> IsSpace(s[b]))
    && (forall k :: c <= k < d ==> IsDateLetter(s[k]))
    && (f == d + 1 ==> IsSpace(s[d]))
    && DigitsIn(s, f, e)
  }

  ghost predicate IsDateAt(s: string, i: nat, e: nat) {
    exists a: nat, b: nat, c: nat, d: nat, f: nat :: DateShape(s, i, a, b, c, d, f, e)
  }

  /** The end of the date starting at index `i`, if one starts there. */
  function DateAt(s: string, i: nat): (r: Option<nat>)
    requires i <= |s|
    ensures r.Some? ==> i < r.value <= |s|
  {
    if i < |s| && IsDigit(s[i]) then
      var a := Optionally(s, i + 1, IsDigit);
      var b := Optionally(s, a, IsPoint);
      var c := Optionally(s, b, IsSpace);
      var d := RunEnd(s, c, IsDateLetter);
      var f := Optionally(s, d, IsSpace);
      if d > c && f + 4 <= |s| && DigitsIn(s, f, f + 4) then Some(f + 4) else None
    else None
  }

  lemma DateAtSound(s: string, i: nat)
    requires i <= |s|
    ensures DateAt(s, i).Some? ==> IsDateAt(s, i, DateAt(s, i).value)
  {
    if DateAt(s, i).Some? {
      DateShapeFound(s, i);
    }
  }

  lemma DateShapeFound(s: string, i: nat)
    requires i <= |s| && DateAt(s, i).Some?
    ensures IsDateAt(s, i, DateAt(s, i).value)
  {
    var a := Optionally(s, i + 1, IsDigit);
    var b := Optionally(s, a, IsPoint);
    var c := Optionally(s, b, IsSpace);
    var d := RunEnd(s, c, IsDateLetter);
    var f := Optionally(s, d, IsSpace);
    assert DateAt(s, i) == if d > c && f + 4 <= |s| && DigitsIn(s, f, f + 4) then Some(f + 4) else None;
    assert DigitsIn(s, i, a) by {
      assert IsDigit(s[i]);
    }
    assert forall k :: c <= k < d ==> IsDateLetter(s[k]);
    assert DateShape(s, i, a, b, c, d, f, f + 4);
  }

  /** Whatever way a date can be read from index `i`, the scanner finds it and ends where it
      ends, so the date starting at a given index is unique. */
  lemma DateAtComplete(s: string, i: nat, a: nat, b: nat, c: nat, d: nat, f: nat, e: nat)
    requires DateShape(s, i, a, b, c, d, f, e)
    ensures DateAt(s, i) == Some(e)
  {
    DateDayComplete(s, i, a, b, c, d, f, e);
    DateMonthComplete(s, i, a, b, c, d, f, e);
    assert IsDigit(s[i]);
  }

  /** The day, the optional point and the optional blank are read as the shape splits them. */
  lemma DateDayComplete(s: string, i: nat, a: nat, b: nat, c: nat, d: nat, f: nat, e: nat)
    requires DateShape(s, i, a, b, c, d, f, e)
    ensures a == Optionally(s, i + 1, IsDigit)
    ensures b == Optionally(s, a, IsPoint)
    ensures c == Optionally(s, b, IsSpace)
  {
    assert IsDateLetter(s[c]);
    assert a < |s| && IsDigit(s[a]) ==> b == a by {
      assert b == a + 1 ==> s[a] == '.';
    }
    assert c == b + 1 ==> IsSpace(s[b]);
  }

  /** The month word and the optional blank after it are read as the shape splits them. */
  lemma DateMonthComplete(s: string, i: nat, a: nat, b: nat, c: nat, d: nat, f: nat, e: nat)
    requires DateShape(s, i, a, b, c, d, f, e)
    ensures RunEnd(s, c, IsDateLetter) == d
    ensures f == Optionally(s, d, IsSpace)
    ensures DigitsIn(s, f, f + 4)
  {
    assert f == d ==> IsDigit(s[d]);
    assert !IsDateLetter(s[d]) by {
      assert f == d + 1 ==> IsSpace(s[d]);
    }
    RunEndIs(s, c, d, IsDateLetter);
  }


  /** The leftmost date in `s[from..]`, as the pair of its start and end. */
  /** `DateAt` as a matcher defined at every index. */
  function DateMatcher(s: string): nat -> Option<nat> {
    (j: nat) => if j <= |s| then DateAt(s, j) else None
  }

  function FindDate(s: string, from: nat): (r: Option<(nat, nat)>)
    requires from <= |s|
    ensures r.Some? ==> from <= r.value.0 < r.value.1 <= |s| && DateAt(s, r.value.0) == Some(r.value.1)
    ensures r.Some? ==> forall j :: from <= j < r.value.0 ==> DateAt(s, j).None?
    ensures r.None? ==> forall j :: from <= j <= |s| ==> DateAt(s, j).None?
  {
    var r := Leftmost(|s|, from, DateMatcher(s));
    assert forall j :: 0 <= j <= |s| ==> DateMatcher(s)(j) == DateAt(s, j);
    r
  }

  /** `name.match(date)[0]` is the leftmost match: a date spelling that occurs in the name, and
      no date spelling starts further left. */
  lemma {:induction false} FindDateLeftmost(s: string)
    ensures FindDate(s, 0).Some? ==> IsDateAt(s, FindDate(s, 0).value.0, FindDate(s, 0).value.1)
    ensures FindDate(s, 0).Some? ==>
              forall j: nat, e: nat :: j < FindDate(s, 0).value.0 ==> !IsDateAt(s, j, e)
    ensures FindDate(s, 0).None? ==> forall j: nat, e': nat :: j <= |s| ==> !IsDateAt(s, j, e')
  {
    forall j: nat, e': nat | j <= |s| && IsDateAt(s, j, e')
      ensures DateAt(s, j) == Some(e')
    {
      var a, b, c, d, f :| DateShape(s, j, a, b, c, d, f, e');
      DateAtComplete(s, j, a, b, c, d, f, e');
    }
    if FindDate(s, 0).Some? {
      DateAtSound(s, FindDate(s, 0).value.0);
    }
  }

  // ----- Decimal litres: (\d+[.,]\d+)\s*l, case-insensitive -----

  /** `s[i..b]` is a decimal number with its separator at `a`, followed by blanks up to `c` and
      the letter l at `c`. */
  ghost predicate LitreShape(s: string, i: nat, a: nat, b: nat, c: nat) {
    i < a && a + 1 < b <= c < |s|
    && DigitsIn(s, i, a) && (s[a] == '.' || s[a] == ',') && DigitsIn(s, a + 1, b)
    && (forall k :: b <= k < c ==> IsSpace(s[k])) && IsLetterL(s[c])
  }

  /** The end of the captured number of a litre volume starting at index `i`. */
  function LitreAt(s: string, i: nat): (r: Option<nat>)
    requires i <= |s|
    ensures r.Some? ==> i < r.value <= |s|
  {
    var a := RunEnd(s, i, IsDigit);
    if a > i && a < |s| && (s[a] == '.' || s[a] == ',') then
      var b := RunEnd(s, a + 1, IsDigit);
      var c := RunEnd(s, b, IsSpace);
      if b > a + 1 && c < |s| && IsLetterL(s[c]) then Some(b) else None
    else None
  }

  lemma LitreAtSound(s: string, i: nat)
    requires i <= |s|
    ensures LitreAt(s, i).Some? ==> exists a: nat, c: nat :: LitreShape(s, i, a, LitreAt(s, i).value, c)
  {
    if LitreAt(s, i).Some? {
      var a := RunEnd(s, i, IsDigit);
      var b := RunEnd(s, a + 1, IsDigit);
      var c := RunEnd(s, b, IsSpace);
      assert LitreShape(s, i, a, b, c);
    }
  }

  lemma LitreAtComplete(s: string, i: nat, a: nat, b: nat, c: nat)
    requires LitreShape(s, i, a, b, c)
    ensures LitreAt(s, i) == Some(b)
  {
    RunEndIs(s, i, a, IsDigit);
    assert !IsDigit(s[b]) by {
      assert b < c ==> IsSpace(s[b]);
      assert b == c ==> IsLetterL(s[b]);
    }
    RunEndIs(s, a + 1, b, IsDigit);
    RunEndIs(s, b, c, IsSpace);
  }

  /** The leftmost litre volume in `s[from..]`, as the start and end of the captured number. */
  /** `LitreAt` as a matcher defined at every index. */
  function LitreMatcher(s: string): nat -> Option<nat> {
    (j: nat) => if j <= |s| then LitreAt(s, j) else None
  }

  function FindLitre(s: string, from: nat): (r: Option<(nat, nat)>)
    requires from <= |s|
    ensures r.Some? ==> from <= r.value.0 < r.value.1 <= |s| && LitreAt(s, r.value.0) == Some(r.value.1)
    ensures r.Some? ==> forall j :: from <= j < r.value.0 ==> LitreAt(s, j).None?
    ensures r.None? ==> forall j :: from <= j <= |s| ==> LitreAt(s, j).None?
  {
    var r := Leftmost(|s|, from, LitreMatcher(s));
    assert forall j :: 0 <= j <= |s| ==> LitreMatcher(s)(j) == LitreAt(s, j);
    r
  }

  lemma {:induction false} FindLitreLeftmost(s: string)
    ensures FindLitre(s, 0).Some? ==>
              exists a: nat, c: nat :: LitreShape(s, FindLitre(s, 0).value.0, a, FindLitre(s, 0).value.1, c)
    ensures FindLitre(s, 0).Some? ==>
              forall j: nat, a: nat, b: nat, c: nat :: j < FindLitre(s, 0).value.0 ==> !LitreShape(s, j, a, b, c)
    ensures FindLitre(s, 0).None? ==> forall j: nat, a: nat, b: nat, c: nat :: j <= |s| ==> !LitreShape(s, j, a, b, c)
  {
    forall j: nat, a: nat, b: nat, c: nat | j <= |s| && LitreShape(s, j, a, b, c)
      ensures LitreAt(s, j) == Some(b)
    {
      LitreAtComplete(s, j, a, b, c);
    }
    if FindLitre(s, 0).Some? {
      LitreAtSound(s, FindLitre(s, 0).value.0);
    }
  }

  // ----- Millilitres: (\d+)\s*ml, case-insensitive -----

  ghost predicate MillilitreShape(s: string, i: nat, a: nat, c: nat) {
    i < a <= c && c + 1 < |s|
    && DigitsIn(s, i, a) && (forall k :: a <= k < c ==> IsSpace(s[k]))
    && IsLetterM(s[c]) && IsLetterL(s[c + 1])
  }

  /** The end of the captured digits of a millilitre volume starting at index `i`. */
  function MillilitreAt(s: string, i: nat): (r: Option<nat>)
    requires i <= |s|
    ensures r.Some? ==> i < r.value <= |s|
  {
    var a := RunEnd(s, i, IsDigit);
    var c := RunEnd(s, a, IsSpace);
    if a > i && c + 1 < |s| && IsLetterM(s[c]) && IsLetterL(s[c + 1]) then Some(a) else None
  }

  lemma MillilitreAtSound(s: string, i: nat)
    requires i <= |s|
    ensures MillilitreAt(s, i).Some? ==> exists c: nat :: MillilitreShape(s, i, MillilitreAt(s, i).value, c)
  {
    if MillilitreAt(s, i).Some? {
      var a := RunEnd(s, i, IsDigit);
      assert MillilitreShape(s, i, a, RunEnd(s, a, IsSpace));
    }
  }

  lemma MillilitreAtComplete(s: string, i: nat, a: nat, c: nat)
    requires MillilitreShape(s, i, a, c)
    ensures MillilitreAt(s, i) == Some(a)
  {
    assert !IsDigit(s[a]) by {
      assert a < c ==> IsSpace(s[a]);
      assert a == c ==> IsLetterM(s[a]);
    }
    RunEndIs(s, i, a, IsDigit);
    RunEndIs(s, a, c, IsSpace);
  }

  /** `MillilitreAt` as a matcher defined at every index. */
  function MillilitreMatcher(s: string): nat -> Option<nat> {
    (j: nat) => if j <= |s| then MillilitreAt(s, j) else None
  }

  function FindMillilitre(s: string, from: nat): (r: Option<(nat, nat)>)
    requires from <= |s|
    ensures r.Some? ==> from <= r.value.0 < r.value.1 <= |s| && MillilitreAt(s, r.value.0) == Some(r.value.1)
    ensures r.Some? ==> forall j :: from <= j < r.value.0 ==> MillilitreAt(s, j).None?
    ensures r.None? ==> forall j :: from <= j <= |s| ==> MillilitreAt(s, j).None?
  {
    var r := Leftmost(|s|, from, MillilitreMatcher(s));
    assert forall j :: 0 <= j <= |s| ==> MillilitreMatcher(s)(j) == MillilitreAt(s, j);
    r
  }

  lemma {:induction false} FindMillilitreLeftmost(s: string)
    ensures FindMillilitre(s, 0).Some? ==>
              exists c: nat :: MillilitreShape(s, FindMillilitre(s, 0).value.0, FindMillilitre(s, 0).value.1, c)
    ensures FindMillilitre(s, 0).Some? ==>
              forall j: nat, a: nat, c: nat :: j < FindMillilitre(s, 0).value.0 ==> !MillilitreShape(s, j, a, c)
    ensures FindMillilitre(s, 0).None? ==> forall j: nat, a: nat, c: nat :: j <= |s| ==> !MillilitreShape(s, j, a, c)
  {
    forall j: nat, a: nat, c: nat | j <= |s| && MillilitreShape(s, j, a, c)
      ensures MillilitreAt(s, j) == Some(a)
    {
      MillilitreAtComplete(s, j, a, c);
    }
    if FindMillilitre(s, 0).Some? {
      MillilitreAtSound(s, FindMillilitre(s, 0).value.0);
    }
  }

  // ----- HTML tags: s.replace(/<[^>]*>?/gm, '') -----

  /** Removes every span from a `<` through the next `>`; a `<` without a later `>` removes the
      rest of the text. */
  function StripTags(s: string): (r: string)
    ensures '<' !in r
    ensures |r| <= |s|
    decreases |s|
  {
    if s == [] then []
    else if s[0] == '<' then
      var e := RunEnd(s, 1, IsNotClose);
      if e < |s| then StripTags(s[e + 1..]) else []
    else [s[0]] + StripTags(s[1..])
  }

  /** Text without `<` is left as it is. */
  lemma {:induction false} StripTagsPlain(s: string)
    requires '<' !in s
    ensures StripTags(s) == s
    decreases |s|
  {
    if s != [] {
      assert s[0] in s;
      assert forall c :: c in s[1..] ==> c in s;
      StripTagsPlain(s[1..]);
      assert s == [s[0]] + s[1..];
    }
  }

  /** Text before the first `<` is kept, a closed tag is dropped and stripping goes on after it. */
  lemma {:induction false} StripTagsClosed(x: string, t: string, y: string)
    requires '<' !in x && '>' !in t
    ensures StripTags(x + "<" + t + ">" + y) == x + StripTags(y)
    decreases |x|
  {
    var s := x + "<" + t + ">" + y;
    if x == [] {
      assert s == "<" + t + ">" + y;
      forall k | 1 <= k < 1 + |t| ensures IsNotClose(s[k]) {
        assert s[k] == t[k - 1];
      }
      RunEndIs(s, 1, 1 + |t|, IsNotClose);
      assert s[1 + |t| + 1..] == y;
    } else {
      assert x[0] in x;
      assert forall c :: c in x[1..] ==> c in x;
      assert s[1..] == x[1..] + "<" + t + ">" + y;
      StripTagsClosed(x[1..], t, y);
      assert s == [x[0]] + s[1..];
    }
  }

  /** An unclosed tag removes everything after it. */
  lemma StripTagsUnclosed(x: string, t: string)
    requires '<' !in x && '>' !in t
    ensures StripTags(x + "<" + t) == x
    decreases |x|
  {
    var s := x + "<" + t;
    if x == [] {
      assert s == "<" + t;
      forall k | 1 <= k < |s| ensures IsNotClose(s[k]) {
        assert s[k] == t[k - 1];
      }
      RunEndIs(s, 1, |s|, IsNotClose);
    } else {
      assert x[0] in x;
      assert forall c :: c in x[1..] ==> c in x;
      assert s[1..] == x[1..] + "<" + t;
      StripTagsUnclosed(x[1..], t);
      assert s == [x[0]] + s[1..];
    }
  }
}
