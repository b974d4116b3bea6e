/** Two checks of the image scraper: whether an image URL plausibly belongs
    to a fighter (some upper-cased pattern built from the fighter's name
    occurs in the upper-cased URL), and the normalisation of scraped URLs to
    absolute ones. */
module ScrapeImg {
  import opened Text
  import Sequences

  // ---------------------------------------------------------------------
  // Name normalisation and Python's str.split()

  predicate NotApostrophe(c: char) {
    c != '\''
  }

  predicate NotPySpace(c: char) {
    !IsPySpace(c)
  }

  /** `name.lower().replace("'", "").replace("-", "_")`. */
  function NormalizeName(name: string): (r: string)
    ensures |r| <= |name|
    ensures forall i :: 0 <= i < |r| ==> r[i] != '\'' && r[i] != '-'
  {
    var t := Sequences.Select(LowerAll(name), NotApostrophe);
    seq(|t|, i requires 0 <= i < |t| => if t[i] == '-' then '_' else t[i])
  }

  /** Without apostrophes nothing is dropped: each character is lower-cased,
      and a hyphen becomes an underscore. */
  lemma NormalizeNameChars(name: string)
    requires forall i :: 0 <= i < |name| ==> name[i] != '\''
    ensures |NormalizeName(name)| == |name|
    ensures forall i :: 0 <= i < |name| ==>
      NormalizeName(name)[i] == if name[i] == '-' then '_' else Lower(name[i])
  {
    var low := LowerAll(name);
    Sequences.SelectAll(low, NotApostrophe);
  }

  /** The longest prefix without whitespace. */
  function WordPrefix(s: string): (w: string)
    ensures |w| <= |s| && w == s[..|w|]
    ensures forall i :: 0 <= i < |w| ==> !IsPySpace(w[i])
    ensures |w| < |s| ==> IsPySpace(s[|w|])
  {
    if s == [] || IsPySpace(s[0]) then [] else [s[0]] + WordPrefix(s[1..])
  }

  /** `s.split()`: the maximal runs of non-whitespace, in order. */
  function Words(s: string): (ws: seq<string>)
    ensures forall k :: 0 <= k < |ws| ==> ws[k] != []
    ensures forall k :: 0 <= k < |ws| ==> forall i :: 0 <= i < |ws[k]| ==> !IsPySpace(ws[k][i])
    decreases |s|
  {
    if s == [] then []
    else if IsPySpace(s[0]) then Words(s[1..])
    else
      var w := WordPrefix(s);
      [w] + Words(s[|w|..])
  }

  function Flatten(ws: seq<string>): string {
    if ws == [] then [] else ws[0] + Flatten(ws[1..])
  }

  /** The words hold every non-whitespace character of the text, in order,
      and nothing else. */
  lemma {:induction false} WordsCover(s: string)
    ensures Flatten(Words(s)) == Sequences.Select(s, NotPySpace)
    decreases |s|
  {
    if s != [] {
      if IsPySpace(s[0]) {
        WordsCover(s[1..]);
      } else {
        var w := WordPrefix(s);
        var rest := s[|w|..];
        WordsCover(rest);
        assert s == w + rest;
        Sequences.SelectAppend(w, rest, NotPySpace);
        Sequences.SelectAll(w, NotPySpace);
        assert ([w] + Words(rest))[1..] == Words(rest);
      }
    }
  }

  lemma {:induction false} WordPrefixWhole(s: string)
    requires forall i :: 0 <= i < |s| ==> !IsPySpace(s[i])
    ensures WordPrefix(s) == s
  {
    if s != [] {
      WordPrefixWhole(s[1..]);
    }
  }

  /** A text without whitespace is one word, or none when it is empty. */
  lemma OneWord(s: string)
    requires forall i :: 0 <= i < |s| ==> !IsPySpace(s[i])
    ensures Words(s) == if s == [] then [] else [s]
  {
    if s != [] {
      WordPrefixWhole(s);
      assert s[|s|..] == [];
    }
  }

  // ---------------------------------------------------------------------
  // validate_image_belongs_to_fighter

  /** The individual-name patterns: every part longer than two characters,
      upper-cased, in order. */
  function LongParts(parts: seq<string>): (r: seq<string>)
    ensures |r| <= |parts|
  {
    if parts == [] then []
    else
      var last := parts[|parts| - 1];
      LongParts(parts[..|parts| - 1]) + (if |last| > 2 then [UpperAll(last)] else [])
  }

  /** The patterns for the name parts: none for fewer than two parts;
      otherwise LAST_FIRST, FIRST_LAST, FIRSTLAST, LASTFIRST, then the long
      parts. */
  function NamePatterns(parts: seq<string>): (r: seq<string>)
    ensures |parts| < 2 ==> r == []
    ensures |parts| >= 2 ==> |r| >= 4 && r[4..] == LongParts(parts)
  {
    if |parts| < 2 then []
    else
      var first, last := parts[0], parts[|parts| - 1];
      [UpperAll(last + "_" + first), UpperAll(first + "_" + last), UpperAll(first + last), UpperAll(last + first)]
        + LongParts(parts)
  }

  /** Every pattern is upper-case, so matching against the upper-cased URL
      is matching without regard to case. */
  lemma PatternsAreUpper(parts: seq<string>)
    ensures forall k :: 0 <= k < |NamePatterns(parts)| ==> UpperAll(NamePatterns(parts)[k]) == NamePatterns(parts)[k]
  {
    LongPartsUpper(parts);
    if |parts| >= 2 {
      var first, last := parts[0], parts[|parts| - 1];
      UpperAllUpper(last + "_" + first);
      UpperAllUpper(first + "_" + last);
      UpperAllUpper(first + last);
      UpperAllUpper(last + first);
      var r := NamePatterns(parts);
      forall k | 4 <= k < |r| ensures UpperAll(r[k]) == r[k] {
        assert r[k] == r[4..][k - 4];
      }
    }
  }

  lemma {:induction false} LongPartsUpper(parts: seq<string>)
    ensures forall k :: 0 <= k < |LongParts(parts)| ==> UpperAll(LongParts(parts)[k]) == LongParts(parts)[k]
    decreases |parts|
  {
    if parts != [] {
      var init, last := parts[..|parts| - 1], parts[|parts| - 1];
      LongPartsUpper(init);
      UpperAllUpper(last);
      var tail := if |last| > 2 then [UpperAll(last)] else [];
      assert LongParts(parts) == LongParts(init) + tail;
      forall k | 0 <= k < |LongParts(parts)| ensures UpperAll(LongParts(parts)[k]) == LongParts(parts)[k] {
        if k < |LongParts(init)| {
          assert LongParts(parts)[k] == LongParts(init)[k];
        }
      }
    }
  }

  lemma UpperAllUpper(s: string)
    ensures UpperAll(UpperAll(s)) == UpperAll(s)
  {
  }

  /** The pattern list as the scraper builds it, by appending. */
  method BuildPatterns(parts: seq<string>) returns (patterns: seq<string>)
    ensures patterns == NamePatterns(parts)
  {
    patterns := [];
    if |parts| >= 2 {
      var first, last := parts[0], parts[|parts| - 1];
      patterns := patterns + [UpperAll(last + "_" + first)];
      patterns := patterns + [UpperAll(first + "_" + last)];
      patterns := patterns + [UpperAll(first + last)];
      patterns := patterns + [UpperAll(last + first)];
      ghost var fixed := patterns;
      var i := 0;
      while i < |parts|
        invariant 0 <= i <= |parts|
        invariant patterns == fixed + LongParts(parts[..i])
      {
        var part := parts[i];
        assert parts[..i + 1][..i] == parts[..i];
        if |part| > 2 {
          patterns := patterns + [UpperAll(part)];
        }
        i := i + 1;
      }
      assert parts[..|parts|] == parts;
    }
  }

  /** The patterns of a fighter's name. */
  function PatternsOf(fighterName: string): seq<string> {
    NamePatterns(Words(NormalizeName(fighterName)))
  }

  /** The property the scraper tests: both texts non-empty and some pattern
      of the name a substring of the upper-cased URL. */
  predicate BelongsToFighter(imageUrl: string, fighterName: string) {
    && imageUrl != ""
    && fighterName != ""
    && exists k :: 0 <= k < |PatternsOf(fighterName)| && Contains(UpperAll(imageUrl), PatternsOf(fighterName)[k])
  }

  /** `validate_image_belongs_to_fighter`: builds the patterns, then returns
      at the first one found in the URL. */
  method ValidateImageBelongsToFighter(imageUrl: string, fighterName: string) returns (ok: bool)
    ensures ok == BelongsToFighter(imageUrl, fighterName)
  {
    if imageUrl == "" || fighterName == "" {
      return false;
    }
    var parts := Words(NormalizeName(fighterName));
    var patterns := BuildPatterns(parts);
    var upper := UpperAll(imageUrl);
    var i := 0;
    while i < |patterns|
      invariant 0 <= i <= |patterns|
      invariant forall k :: 0 <= k < i ==> !Contains(upper, patterns[k])
    {
      if Contains(upper, patterns[i]) {
        assert 0 <= i < |PatternsOf(fighterName)| && Contains(upper, PatternsOf(fighterName)[i]);
        return true;
      }
      i := i + 1;
    }
    return false;
  }

  /** Normalisation adds no whitespace: a lower-cased character is
      whitespace exactly when the original is, and `_` is not whitespace. */
  lemma NormalizeKeepsSpaces(name: string)
    ensures (forall i :: 0 <= i < |name| ==> !IsPySpace(name[i])) ==>
      forall j :: 0 <= j < |NormalizeName(name)| ==> !IsPySpace(NormalizeName(name)[j])
  {
    var low := LowerAll(name);
    var t := Sequences.Select(low, NotApostrophe);
    Sequences.SelectMembership(low, NotApostrophe);
    if forall i :: 0 <= i < |name| ==> !IsPySpace(name[i]) {
      forall j | 0 <= j < |t| ensures !IsPySpace(t[j]) {
        assert t[j] in low;
        var i :| 0 <= i < |low| && low[i] == t[j];
        assert !IsPySpace(name[i]);
      }
    }
  }

  /** A name without whitespace is never validated: it has at most one part,
      so there is no pattern. */
  lemma SingleWordNameRejected(imageUrl: string, fighterName: string)
    requires forall i :: 0 <= i < |fighterName| ==> !IsPySpace(fighterName[i])
    ensures !BelongsToFighter(imageUrl, fighterName)
  {
    NormalizeKeepsSpaces(fighterName);
    OneWord(NormalizeName(fighterName));
  }

  /** A URL that contains a validated URL is validated too. */
  lemma SuperstringValidates(imageUrl: string, longerUrl: string, fighterName: string)
    requires BelongsToFighter(imageUrl, fighterName)
    requires Contains(longerUrl, imageUrl)
    ensures BelongsToFighter(longerUrl, fighterName)
  {
    var ps := PatternsOf(fighterName);
    var k :| 0 <= k < |ps| && Contains(UpperAll(imageUrl), ps[k]);
    ContainsUpper(longerUrl, imageUrl);
    ContainsTransitive(UpperAll(longerUrl), UpperAll(imageUrl), ps[k]);
    ContainsIff(longerUrl, imageUrl);
    var i :| OccursAt(longerUrl, imageUrl, i);
    assert longerUrl != "";
  }

  predicate LowerWord(w: string) {
    w != [] && forall i :: 0 <= i < |w| ==> 'a' <= w[i] <= 'z'
  }

  /** `"first last"` in lower-case letters: a URL holding `LAST_FIRST` (the
      UFC's own file naming) belongs to the fighter. */
  lemma LastFirstValidates(first: string, last: string, imageUrl: string)
    requires LowerWord(first) && LowerWord(last)
    requires Contains(UpperAll(imageUrl), UpperAll(last + "_" + first))
    ensures BelongsToFighter(imageUrl, first + " " + last)
  {
    var name := first + " " + last;
    LowerNameNormal(name);
    assert NormalizeName(name) == name;
    NameParts(first, last);
    assert PatternsOf(name)[0] == UpperAll(last + "_" + first);
    ContainsIff(UpperAll(imageUrl), UpperAll(last + "_" + first));
    var i :| OccursAt(UpperAll(imageUrl), UpperAll(last + "_" + first), i);
    assert imageUrl != "";
  }

  /** Lower-case letters and spaces are left alone by the normalisation. */
  lemma LowerNameNormal(name: string)
    requires forall i :: 0 <= i < |name| ==> 'a' <= name[i] <= 'z' || name[i] == ' '
    ensures NormalizeName(name) == name
  {
    var low := LowerAll(name);
    assert low == name;
    Sequences.SelectAll(low, NotApostrophe);
  }

  /** Two lower-case words separated by one space split into those two. */
  lemma NameParts(first: string, last: string)
    requires LowerWord(first) && LowerWord(last)
    ensures Words(first + " " + last) == [first, last]
  {
    var s := first + " " + last;
    WordPrefixStops(first, " " + last);
    assert s == first + (" " + last);
    assert s[|first|..] == " " + last;
    assert (" " + last)[1..] == last;
    OneWord(last);
  }

  lemma {:induction false} WordPrefixStops(w: string, t: string)
    requires forall i :: 0 <= i < |w| ==> !IsPySpace(w[i])
    requires t != [] && IsPySpace(t[0])
    ensures WordPrefix(w + t) == w
  {
    if w == [] {
      assert w + t == t;
    } else {
      WordPrefixStops(w[1..], t);
      assert (w + t)[1..] == w[1..] + t;
    }
  }

  // ---------------------------------------------------------------------
  // ensure_absolute_url

  /** The value of `ensure_absolute_url`: a URL it returns as such, or the
      path it hands to `urljoin` with the site's base URL. */
  datatype UrlResult = Absolute(url: string) | JoinWithBase(path: string)

  function EnsureAbsoluteUrl(url: string): (r: UrlResult)
    ensures url == "" ==> r == Absolute("")
    ensures url != "" && StartsWith(url, "//") ==> r == Absolute("https:" + url)
    ensures StartsWith(url, "http") ==> r == Absolute(url)
    ensures r.JoinWithBase? <==> url != "" && !StartsWith(url, "//") && (StartsWith(url, "/") || !StartsWith(url, "http"))
    ensures r.JoinWithBase? ==> r.path == url
  {
    assert url != "" ==> url[..1][0] == url[0];
    assert |url| >= 2 ==> url[..2][0] == url[0];
    assert |url| >= 4 ==> url[..4][0] == url[0];
    if url == "" then Absolute("")
    else if StartsWith(url, "//") then Absolute("https:" + url)
    else if StartsWith(url, "/") then JoinWithBase(url)
    else if !StartsWith(url, "http") then JoinWithBase(url)
    else Absolute(url)
  }

  /** Every URL the function returns itself is left as it is by a second
      application. */
  lemma EnsureAbsoluteIdempotent(url: string)
    requires EnsureAbsoluteUrl(url).Absolute?
    ensures EnsureAbsoluteUrl(EnsureAbsoluteUrl(url).url) == EnsureAbsoluteUrl(url)
  {
    if url != "" && StartsWith(url, "//") {
      var u := "https:" + url;
      assert u[..4] == "http";
    }
  }
}
