/** The values a parsed CSV row holds, and the JavaScript coercions the
    normaliser applies to them: truthiness and `||`, string conversion,
    `Math.round` and `parseInt`. */
module Cells {
  import opened Text

  datatype Option<T> = None | Some(value: T)

  /** One cell as the CSV parser delivers it with dynamic typing: nothing
      (`null` for an empty cell, `undefined` for a missing column), a number,
      or a string that did not look like a number. */
  datatype Cell = Empty | Num(n: real) | Str(s: string)

  /** JavaScript truthiness: `null`, `undefined`, `0` and `""` are falsy. */
  predicate Truthy(c: Cell) {
    match c
    case Empty => false
    case Num(r) => r != 0.0
    case Str(s) => s != ""
  }

  /** `c || d`: the cell itself when truthy, the default otherwise. */
  function Or(c: Cell, d: Cell): Cell {
    if Truthy(c) then c else d
  }

  /** `String(c)` as far as the model uses it; a truthy cell never yields the
      empty text. */
  function CellText(c: Cell): (t: string)
    ensures Truthy(c) ==> t != ""
  {
    match c
    case Empty => ""
    case Num(r) => NumberText(r)
    case Str(s) => s
  }

  /** The result of `Math.round` on a coerced cell: an integer, or NaN. */
  datatype Rounded = Whole(value: int) | NaN

  /** `Math.round(r)`: the nearest integer, halves rounded up. */
  function RoundHalfUp(r: real): (k: int)
    ensures r - 0.5 < k as real <= r + 0.5
  {
    (r + 0.5).Floor
  }

  /** `Number(s)` for a string the CSV parser left as a string: a blank string
      is 0, and every other string is taken as NaN. */
  function StringNumber(s: string): Option<real> {
    if Trim(s) == "" then Some(0.0) else None
  }

  /** `Math.round(c || 75)`, the rule for the six headline stats: 75 when the
      cell is falsy, the rounded number when it is a non-zero number, the
      rounded coercion when it is a non-empty string. */
  function RoundStat(c: Cell): (r: Rounded)
    ensures !Truthy(c) ==> r == Whole(75)
    ensures c.Num? && Truthy(c) ==> r == Whole(RoundHalfUp(c.n))
  {
    match c
    case Empty => Whole(75)
    case Num(x) => if x != 0.0 then Whole(RoundHalfUp(x)) else Whole(75)
    case Str(s) =>
      if s == "" then Whole(75)
      else match StringNumber(s)
        case Some(x) => Whole(RoundHalfUp(x))
        case None => NaN
  }

  /** The longest prefix of decimal digits. */
  function LeadingDigits(s: string): (r: string)
    ensures AllDigits(r) && StartsWith(s, r)
    ensures |r| < |s| ==> !IsDigit(s[|r|])
  {
    if s != [] && IsDigit(s[0]) then [s[0]] + LeadingDigits(s[1..]) else ""
  }

  /** `parseInt(s)` on a string, read as decimal: leading whitespace skipped,
      an optional sign, then as many decimal digits as there are; NaN (None)
      without any. A `0x` prefix is read as the digit 0. */
  function ParseIntText(s: string): Option<int> {
    var t := TrimStart(s);
    var neg := t != [] && t[0] == '-';
    var u := if t != [] && (t[0] == '-' || t[0] == '+') then t[1..] else t;
    var ds := LeadingDigits(u);
    if ds == "" then None else Some(if neg then -(DigitsValue(ds) as int) else DigitsValue(ds))
  }

  /** The integer part of a number, towards zero. */
  function Truncate(r: real): int {
    if r >= 0.0 then r.Floor else -((-r).Floor)
  }

  /** `parseInt(c)`: NaN for null and undefined, the integer part of a
      number written without an exponent, and the numeral prefix of a
      string. */
  function ParseInt(c: Cell): Option<int> {
    match c
    case Empty => None
    case Num(r) => Some(Truncate(r))
    case Str(s) => ParseIntText(s)
  }

  /** `parseInt(c) || 0`. */
  function ParseIntOrZero(c: Cell): int {
    match ParseInt(c)
    case None => 0
    case Some(v) => v
  }

  /** `String(parseInt(c))`. */
  function ParsedText(c: Cell): (t: string)
    ensures |t| >= 1
  {
    match ParseInt(c)
    case None => "NaN"
    case Some(v) => IntText(v)
  }

  /** `parseInt` reads back the numeral of every integer. */
  lemma ParseIntTextRoundTrip(i: int)
    ensures ParseIntText(IntText(i)) == Some(i)
  {
    var t := IntText(i);
    var n: nat := if i < 0 then -i else i;
    var digits := NatText(n);
    LeadingDigitsOfDigits(digits);
    DigitsValueNatText(n);
    if i < 0 {
      assert t == "-" + digits;
      assert t[0] == '-' && !IsJsSpace(t[0]);
      assert TrimStart(t) == t;
      assert t[1..] == digits;
    } else {
      assert t == digits;
      assert IsDigit(t[0]) && !IsJsSpace(t[0]);
      assert TrimStart(t) == t;
    }
  }

  lemma {:induction false} LeadingDigitsOfDigits(s: string)
    requires AllDigits(s)
    ensures LeadingDigits(s) == s
  {
    if s != [] {
      LeadingDigitsOfDigits(s[1..]);
      assert [s[0]] + s[1..] == s;
    }
  }
}
