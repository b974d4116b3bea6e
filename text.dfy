/** String operations the browser code and the scraper perform: ASCII case
    mapping, whitespace as JavaScript and Python see it, `trim`, `split`/`join`
    on one separator character, substring search, and the decimal text of
    numbers. */
module Text {

  /** `toLowerCase` / Python `lower` on one character, for ASCII letters. */
  function Lower(c: char): char {
    if 'A' <= c <= 'Z' then (c as int + 32) as char else c
  }

  /** `toUpperCase` / Python `upper` on one character, for ASCII letters. */
  function Upper(c: char): char {
    if 'a' <= c <= 'z' then (c as int - 32) as char else c
  }

  function LowerAll(s: string): (r: string)
    ensures |r| == |s|
    ensures forall i :: 0 <= i < |s| ==> r[i] == Lower(s[i])
  {
    seq(|s|, i requires 0 <= i < |s| => Lower(s[i]))
  }

  function UpperAll(s: string): (r: string)
    ensures |r| == |s|
    ensures forall i :: 0 <= i < |s| ==> r[i] == Upper(s[i])
  {
    seq(|s|, i requires 0 <= i < |s| => Upper(s[i]))
  }

  lemma UpperAllSlice(s: string, i: int, j: int)
    requires 0 <= i <= j <= |s|
    ensures UpperAll(s[i..j]) == UpperAll(s)[i..j]
  {
    var a, b := UpperAll(s[i..j]), UpperAll(s)[i..j];
    forall k | 0 <= k < |a| ensures a[k] == b[k] {
      assert s[i..j][k] == s[i + k];
    }
  }

  lemma LowerAllSlice(s: string, i: int, j: int)
    requires 0 <= i <= j <= |s|
    ensures LowerAll(s[i..j]) == LowerAll(s)[i..j]
  {
    var a, b := LowerAll(s[i..j]), LowerAll(s)[i..j];
    forall k | 0 <= k < |a| ensures a[k] == b[k] {
      assert s[i..j][k] == s[i + k];
    }
  }

  /** Lower-casing is idempotent, and lower-casing an upper-cased text is
      lower-casing it. */
  lemma LowerAllCanonical(s: string)
    ensures LowerAll(LowerAll(s)) == LowerAll(s)
    ensures LowerAll(UpperAll(s)) == LowerAll(s)
  {
  }

  lemma UpperAllAppend(a: string, b: string)
    ensures UpperAll(a + b) == UpperAll(a) + UpperAll(b)
  {
  }

  /** The characters `String.prototype.trim` removes: ECMAScript WhiteSpace
      (tab, vertical tab, form feed, the no-break spaces, category Zs) and
      LineTerminator (line feed, carriage return, U+2028, U+2029). */
  predicate IsJsSpace(c: char) {
    var n := c as int;
    (9 <= n <= 13) || n == 32 || n == 0xA0 || n == 0x1680 || (0x2000 <= n <= 0x200A)
    || n == 0x2028 || n == 0x2029 || n == 0x202F || n == 0x205F || n == 0x3000 || n == 0xFEFF
  }

  /** The characters Python's argument-less `str.split` separates on
      (`str.isspace`): ASCII 9-13 and 28-32, and the Unicode spaces. */
  predicate IsPySpace(c: char) {
    var n := c as int;
    (9 <= n <= 13) || (28 <= n <= 32) || n == 0x85 || n == 0xA0 || n == 0x1680
    || (0x2000 <= n <= 0x200A) || n == 0x2028 || n == 0x2029 || n == 0x202F
    || n == 0x205F || n == 0x3000
  }

  /** `trimStart`: drops the leading JavaScript whitespace. */
  function TrimStart(s: string): (r: string)
    ensures |r| <= |s| && r == s[|s| - |r|..]
    ensures r == [] || !IsJsSpace(r[0])
    ensures forall i :: 0 <= i < |s| - |r| ==> IsJsSpace(s[i])
  {
    if s != [] && IsJsSpace(s[0]) then TrimStart(s[1..]) else s
  }

  /** `trimEnd`: drops the trailing JavaScript whitespace. */
  function TrimEnd(s: string): (r: string)
    ensures |r| <= |s| && r == s[..|r|]
    ensures r == [] || !IsJsSpace(r[|r| - 1])
    ensures forall i :: |r| <= i < |s| ==> IsJsSpace(s[i])
  {
    if s != [] && IsJsSpace(s[|s| - 1]) then TrimEnd(s[..|s| - 1]) else s
  }

  /** `trim`: the input without its leading and trailing whitespace; empty
      exactly when every character is whitespace. */
  function Trim(s: string): (r: string)
    ensures r == [] || (!IsJsSpace(r[0]) && !IsJsSpace(r[|r| - 1]))
    ensures r == [] <==> forall i :: 0 <= i < |s| ==> IsJsSpace(s[i])
  {
    var t := TrimStart(s);
    var u := TrimEnd(t);
    TrimParts(s, t, u);
    u
  }

  /** The trimmed text is the slice of `s` that starts after the leading
      whitespace, and only whitespace lies outside it; with `Trim`'s own
      contract this fixes the result. */
  lemma TrimIsSlice(s: string)
    ensures var a, r := |s| - |TrimStart(s)|, Trim(s);
      && a + |r| <= |s| && (forall i :: 0 <= i < |r| ==> r[i] == s[a + i])
      && (forall i :: 0 <= i < a ==> IsJsSpace(s[i]))
      && (forall i :: a + |r| <= i < |s| ==> IsJsSpace(s[i]))
  {
    TrimIsSliceAt(s);
    TrimOutside(s);
  }

  lemma TrimIsSliceAt(s: string)
    ensures var a, r := |s| - |TrimStart(s)|, Trim(s);
      a + |r| <= |s| && forall i :: 0 <= i < |r| ==> r[i] == s[a + i]
  {
    var t := TrimStart(s);
    var u := TrimEnd(t);
    assert Trim(s) == u;
    TrimSlice(s, t, u);
    forall i | 0 <= i < |u| ensures u[i] == s[|s| - |t| + i] {
      assert u[i] == s[|s| - |t|..|s| - |t| + |u|][i];
    }
  }

  lemma TrimOutside(s: string)
    ensures var a, r := |s| - |TrimStart(s)|, Trim(s);
      && (forall i :: 0 <= i < a ==> IsJsSpace(s[i]))
      && (forall i :: a + |r| <= i < |s| ==> IsJsSpace(s[i]))
  {
    var t := TrimStart(s);
    var u := TrimEnd(t);
    assert Trim(s) == u;
    TrimSlice(s, t, u);
  }

  /** Trimming both ends, from what `TrimStart` and `TrimEnd` promise. */
  lemma TrimParts(s: string, t: string, u: string)
    requires |t| <= |s| && t == s[|s| - |t|..]
    requires t == [] || !IsJsSpace(t[0])
    requires forall i :: 0 <= i < |s| - |t| ==> IsJsSpace(s[i])
    requires |u| <= |t| && u == t[..|u|]
    requires u == [] || !IsJsSpace(u[|u| - 1])
    requires forall i :: |u| <= i < |t| ==> IsJsSpace(t[i])
    ensures u == [] || (!IsJsSpace(u[0]) && !IsJsSpace(u[|u| - 1]))
    ensures u == [] <==> forall i :: 0 <= i < |s| ==> IsJsSpace(s[i])
  {
    if u == [] {
      assert t == [];
    }
  }

  /** Where the trimmed text lies in the input. */
  lemma TrimSlice(s: string, t: string, u: string)
    requires |t| <= |s| && t == s[|s| - |t|..]
    requires |u| <= |t| && u == t[..|u|]
    requires forall i :: |u| <= i < |t| ==> IsJsSpace(t[i])
    requires forall i :: 0 <= i < |s| - |t| ==> IsJsSpace(s[i])
    ensures var a := |s| - |t|;
      && a + |u| <= |s| && u == s[a..a + |u|]
      && (forall i :: 0 <= i < a ==> IsJsSpace(s[i]))
      && (forall i :: a + |u| <= i < |s| ==> IsJsSpace(s[i]))
  {
    var a := |s| - |t|;
    assert t == s[a..];
    assert u == t[..|u|] == s[a..a + |u|];
    forall i | a + |u| <= i < |s| ensures IsJsSpace(s[i]) {
      assert s[i] == t[i - a];
    }
  }

  predicate StartsWith(s: string, p: string) {
    |p| <= |s| && s[..|p|] == p
  }

  predicate EndsWith(s: string, p: string) {
    |p| <= |s| && s[|s| - |p|..] == p
  }

  /** A text ends with whatever was appended to it, and with every ending
      of that. */
  lemma EndsWithAppended(a: string, b: string, c: string)
    ensures EndsWith(a + (b + c), b + c) && EndsWith(a + (b + c), c)
  {
    var s := a + (b + c);
    assert s[|a|..] == b + c;
    assert s[|a| + |b|..] == c;
  }

  /** A text whose last character is a digit does not end with a suffix
      whose last character is not one. */
  lemma EndsWithDigit(a: string, b: string, c: string)
    requires |b| >= 1 && IsDigit(b[|b| - 1])
    requires |c| >= 1 && !IsDigit(c[|c| - 1])
    ensures !EndsWith(a + b, c)
  {
    var s := a + b;
    assert s[|s| - 1] == b[|b| - 1];
  }

  predicate OccursAt(s: string, t: string, i: int) {
    0 <= i && i + |t| <= |s| && s[i..i + |t|] == t
  }

  /** `s.includes(t)` in JavaScript, `t in s` in Python. */
  predicate Contains(s: string, t: string) {
    exists i :: 0 <= i <= |s| - |t| && OccursAt(s, t, i)
  }

  lemma ContainsIff(s: string, t: string)
    ensures Contains(s, t) <==> exists i :: OccursAt(s, t, i)
  {
  }

  /** Substring containment is transitive. */
  lemma ContainsTransitive(a: string, b: string, c: string)
    requires Contains(a, b) && Contains(b, c)
    ensures Contains(a, c)
  {
    ContainsIff(a, b);
    ContainsIff(b, c);
    var i :| OccursAt(a, b, i);
    var j :| OccursAt(b, c, j);
    forall k | 0 <= k < |c| ensures a[i + j + k] == c[k] {
      assert b[j + k] == c[k];
      assert a[i..i + |b|][j + k] == a[i + j + k];
    }
    assert a[i + j..i + j + |c|] == c;
    assert OccursAt(a, c, i + j);
    ContainsIff(a, c);
  }

  /** A text that lacks one of the characters of `t` does not contain `t`. */
  lemma MissingChar(s: string, t: string, c: char)
    requires c in t && c !in s
    ensures !Contains(s, t)
  {
    var k :| 0 <= k < |t| && t[k] == c;
    forall i ensures !OccursAt(s, t, i) {
      if 0 <= i && i + |t| <= |s| {
        assert s[i + k] in s;
        assert s[i..i + |t|][k] == s[i + k];
      }
    }
    ContainsIff(s, t);
  }

  /** Upper-casing both sides keeps a substring a substring. */
  lemma ContainsUpper(s: string, t: string)
    requires Contains(s, t)
    ensures Contains(UpperAll(s), UpperAll(t))
  {
    ContainsIff(s, t);
    var i :| OccursAt(s, t, i);
    var u := UpperAll(s);
    UpperAllSlice(s, i, i + |t|);
    assert u[i..i + |t|] == UpperAll(t);
    assert OccursAt(u, UpperAll(t), i);
    ContainsIff(u, UpperAll(t));
  }

  /** Lower-casing both sides keeps a substring a substring. */
  lemma ContainsLower(s: string, t: string)
    requires Contains(s, t)
    ensures Contains(LowerAll(s), LowerAll(t))
  {
    ContainsIff(s, t);
    var i :| OccursAt(s, t, i);
    var u := LowerAll(s);
    LowerAllSlice(s, i, i + |t|);
    assert u[i..i + |t|] == LowerAll(t);
    assert OccursAt(u, LowerAll(t), i);
    ContainsIff(u, LowerAll(t));
  }

  /** JavaScript's `s.split(sep)` for a one-character separator: the pieces
      between separators, empty pieces included, always at least one. */
  function Split(s: string, sep: char): (r: seq<string>)
    ensures |r| >= 1
    ensures forall k :: 0 <= k < |r| ==> sep !in r[k]
  {
    if s == [] then [""]
    else
      var rest := Split(s[1..], sep);
      if s[0] == sep then [""] + rest else [[s[0]] + rest[0]] + rest[1..]
  }

  /** JavaScript's `ws.join(sep)`. */
  function Join(ws: seq<string>, sep: char): string {
    if ws == [] then ""
    else if |ws| == 1 then ws[0]
    else ws[0] + [sep] + Join(ws[1..], sep)
  }

  lemma JoinCons(w: string, ws: seq<string>, sep: char)
    requires ws != []
    ensures Join([w] + ws, sep) == w + [sep] + Join(ws, sep)
  {
    assert ([w] + ws)[1..] == ws;
  }

  /** Joining the pieces of a split gives back the original text. */
  lemma {:induction false} JoinSplit(s: string, sep: char)
    ensures Join(Split(s, sep), sep) == s
  {
    if s != [] {
      JoinSplit(s[1..], sep);
      var rest := Split(s[1..], sep);
      if s[0] != sep && |rest| > 1 {
        assert Join(rest, sep) == rest[0] + [sep] + Join(rest[1..], sep);
        assert ([s[0]] + rest[0]) + [sep] + Join(rest[1..], sep) == [s[0]] + Join(rest, sep);
      }
    }
  }

  /** A text without the separator splits into itself alone. */
  lemma {:induction false} SplitNoSep(w: string, sep: char)
    requires sep !in w
    ensures Split(w, sep) == [w]
  {
    if w != [] {
      SplitNoSep(w[1..], sep);
      assert [w[0]] + w[1..] == w;
    }
  }

  /** Splitting `w + sep + t` where `w` holds no separator: `w` comes first. */
  lemma {:induction false} SplitFirst(w: string, sep: char, t: string)
    requires sep !in w
    ensures Split(w + [sep] + t, sep) == [w] + Split(t, sep)
  {
    if w == [] {
      assert w + [sep] + t == [sep] + t;
      assert ([sep] + t)[1..] == t;
    } else {
      SplitFirst(w[1..], sep, t);
      assert (w + [sep] + t)[1..] == w[1..] + [sep] + t;
      assert [w[0]] + w[1..] == w;
    }
  }

  /** Two texts with the separator at the same places split into the same
      number of pieces. */
  lemma {:induction false} SplitCountBySeparators(s: string, s': string, sep: char)
    requires |s| == |s'|
    requires forall i :: 0 <= i < |s| ==> (s[i] == sep <==> s'[i] == sep)
    ensures |Split(s, sep)| == |Split(s', sep)|
  {
    if s != [] {
      SplitCountBySeparators(s[1..], s'[1..], sep);
    }
  }

  predicate IsDigit(c: char) {
    '0' <= c <= '9'
  }

  predicate AllDigits(s: string) {
    forall i :: 0 <= i < |s| ==> IsDigit(s[i])
  }

  function DigitChar(d: nat): (c: char)
    requires d < 10
    ensures IsDigit(c) && c as int - '0' as int == d
  {
    ('0' as int + d) as char
  }

  /** The decimal numeral of a natural number. */
  function NatText(n: nat): (r: string)
    ensures |r| >= 1 && AllDigits(r)
    decreases n
  {
    if n < 10 then [DigitChar(n)] else NatText(n / 10) + [DigitChar(n % 10)]
  }

  /** The value of a string of decimal digits (0 for the empty string). */
  function DigitsValue(s: string): nat
    requires AllDigits(s)
  {
    if s == [] then 0 else DigitsValue(s[..|s| - 1]) * 10 + (s[|s| - 1] as int - '0' as int)
  }

  lemma {:induction false} DigitsValueNatText(n: nat)
    ensures DigitsValue(NatText(n)) == n
    decreases n
  {
    if n >= 10 {
      DigitsValueNatText(n / 10);
      var r := NatText(n);
      assert r[..|r| - 1] == NatText(n / 10);
    }
  }

  /** The decimal numeral of an integer, with a leading `-` when negative. */
  function IntText(i: int): (r: string)
    ensures |r| >= 1 && IsDigit(r[|r| - 1])
    ensures i >= 0 ==> r == NatText(i)
  {
    if i < 0 then "-" + NatText(-i) else NatText(i)
  }

  /** Up to `k` decimal digits of a fraction in [0, 1), most significant first. */
  function FracDigits(f: real, k: nat): (r: string)
    requires 0.0 <= f < 1.0
    ensures AllDigits(r)
    decreases k
  {
    if k == 0 then ""
    else
      var t := f * 10.0;
      var d := t.Floor;
      [DigitChar(d)] + FracDigits(t - d as real, k - 1)
  }

  function DropTrailingZeros(s: string): (r: string)
    ensures |r| <= |s| && r == s[..|r|]
  {
    if s != [] && s[|s| - 1] == '0' then DropTrailingZeros(s[..|s| - 1]) else s
  }

  /** `String(x)` for a non-negative number: the integer part, then up to six
      decimals with trailing zeros dropped. */
  function NonNegText(r: real): string
    requires r >= 0.0
  {
    var whole := r.Floor;
    var ds := DropTrailingZeros(FracDigits(r - whole as real, 6));
    if ds == "" then NatText(whole) else NatText(whole) + "." + ds
  }

  /** `String(x)` for a number. Exact for integers, which is what every
      count and rank of the data set is. */
  function NumberText(r: real): (t: string)
    ensures |t| >= 1
    ensures r == r.Floor as real ==> t == IntText(r.Floor)
    ensures r == r.Floor as real && r >= 0.0 ==> AllDigits(t)
  {
    if r == r.Floor as real then IntText(r.Floor)
    else if r < 0.0 then "-" + NonNegText(-r)
    else NonNegText(r)
  }
}
