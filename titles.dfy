/** The word-wise title case both pages apply to display text:
    `s.split(" ").map(w => w.charAt(0).toUpperCase() + rest(w.slice(1))).join(" ")`,
    where the rest of each word is either lower-cased or left as it is. It is
    proved equal to a character-by-character reference: a character is
    upper-cased when it begins the text or follows a space, and the others
    get the rest mapping. */
module Titles {
  import opened Text

  /** What happens to the characters of a word after its first. */
  function RestChar(c: char, lowerRest: bool): char {
    if lowerRest then Lower(c) else c
  }

  /** `w.charAt(0).toUpperCase() + rest(w.slice(1))`; the empty word stays empty. */
  function Capitalize(w: string, lowerRest: bool): (r: string)
    ensures |r| == |w|
    ensures forall i :: 0 <= i < |w| ==> r[i] == if i == 0 then Upper(w[0]) else RestChar(w[i], lowerRest)
  {
    if w == [] then []
    else [Upper(w[0])] + seq(|w| - 1, i requires 0 <= i < |w| - 1 => RestChar(w[i + 1], lowerRest))
  }

  /** The `map` over the words. */
  function CapitalizeAll(ws: seq<string>, lowerRest: bool): (r: seq<string>)
    ensures |r| == |ws|
  {
    seq(|ws|, k requires 0 <= k < |ws| => Capitalize(ws[k], lowerRest))
  }

  /** The whole chain: split on single spaces, capitalise, join. */
  function TitleCase(s: string, lowerRest: bool): string {
    Join(CapitalizeAll(Split(s, ' '), lowerRest), ' ')
  }

  /** The reference: the first character, and every character after a
      space, is upper-cased; the others get the rest mapping. */
  function TitleChars(s: string, lowerRest: bool): (r: string)
    ensures |r| == |s|
  {
    seq(|s|, i requires 0 <= i < |s| =>
      if i == 0 || s[i - 1] == ' ' then Upper(s[i]) else RestChar(s[i], lowerRest))
  }

  /** The position of the first space. */
  function SpaceIndex(s: string): (k: nat)
    requires ' ' in s
    ensures k < |s| && s[k] == ' ' && ' ' !in s[..k]
  {
    if s[0] == ' ' then 0
    else
      var k := SpaceIndex(s[1..]) + 1;
      assert s[..k] == [s[0]] + s[1..][..k - 1];
      k
  }

  /** A single word, one without a space, is title-cased by `Capitalize`. */
  lemma WordChars(w: string, lowerRest: bool)
    requires ' ' !in w
    ensures TitleChars(w, lowerRest) == Capitalize(w, lowerRest)
  {
    forall i | 0 <= i < |w| ensures w[i] != ' ' {
      assert w[i] in w;
    }
  }

  /** The reference on `w + " " + t` is `w` capitalised, the space, and the
      reference on `t`. */
  lemma FirstWordChars(w: string, t: string, lowerRest: bool)
    requires ' ' !in w
    ensures TitleChars(w + [' '] + t, lowerRest) == Capitalize(w, lowerRest) + [' '] + TitleChars(t, lowerRest)
  {
    var s := w + [' '] + t;
    var lhs, cw, ct := TitleChars(s, lowerRest), Capitalize(w, lowerRest), TitleChars(t, lowerRest);
    var rhs := cw + [' '] + ct;
    forall k | 0 <= k < |w| ensures lhs[k] == rhs[k] {
      assert s[k] == w[k] && rhs[k] == cw[k];
      if k > 0 {
        assert s[k - 1] == w[k - 1] && w[k - 1] in w;
      }
    }
    CaseFacts(' ', lowerRest);
    assert lhs[|w|] == ' ' == rhs[|w|];
    forall k | |w| < k < |s| ensures lhs[k] == rhs[k] {
      var j := k - |w| - 1;
      assert s[k] == t[j] && rhs[k] == ct[j];
      assert j > 0 ==> s[k - 1] == t[j - 1];
    }
  }

  /** The chain on one word is that word capitalised. */
  lemma TitleCaseWord(w: string, lowerRest: bool)
    requires ' ' !in w
    ensures TitleCase(w, lowerRest) == Capitalize(w, lowerRest)
  {
    SplitNoSep(w, ' ');
    assert CapitalizeAll([w], lowerRest) == [Capitalize(w, lowerRest)];
  }

  /** The chain on `w + " " + t` is `w` capitalised, the space, and the chain
      on `t`. */
  lemma TitleCaseFirstWord(w: string, t: string, lowerRest: bool)
    requires ' ' !in w
    ensures TitleCase(w + [' '] + t, lowerRest) == Capitalize(w, lowerRest) + [' '] + TitleCase(t, lowerRest)
  {
    var s := w + [' '] + t;
    var ws := Split(t, ' ');
    SplitFirst(w, ' ', t);
    assert Split(s, ' ') == [w] + ws;
    CapitalizeAllCons(w, ws, lowerRest);
    JoinCons(Capitalize(w, lowerRest), CapitalizeAll(ws, lowerRest), ' ');
  }

  /** Capitalising the words of `[w] + ws` capitalises `w`, then `ws`. */
  lemma CapitalizeAllCons(w: string, ws: seq<string>, lowerRest: bool)
    ensures CapitalizeAll([w] + ws, lowerRest) == [Capitalize(w, lowerRest)] + CapitalizeAll(ws, lowerRest)
  {
    var l, r := CapitalizeAll([w] + ws, lowerRest), [Capitalize(w, lowerRest)] + CapitalizeAll(ws, lowerRest);
    assert |l| == |r|;
    forall k | 0 <= k < |l| ensures l[k] == r[k] {
      var x := ([w] + ws)[k];
      assert l[k] == Capitalize(x, lowerRest);
      if k == 0 {
        assert x == w;
      } else {
        assert x == ws[k - 1] && r[k] == CapitalizeAll(ws, lowerRest)[k - 1];
      }
    }
  }

  /** The word-wise chain computes the character-wise reference. */
  lemma {:induction false} TitleCaseIsTitleChars(s: string, lowerRest: bool)
    ensures TitleCase(s, lowerRest) == TitleChars(s, lowerRest)
    decreases |s|
  {
    if ' ' !in s {
      TitleCaseWord(s, lowerRest);
      WordChars(s, lowerRest);
    } else {
      var k := SpaceIndex(s);
      var w, t := s[..k], s[k + 1..];
      assert s == w + [' '] + t;
      TitleCaseFirstWord(w, t, lowerRest);
      TitleCaseIsTitleChars(t, lowerRest);
      FirstWordChars(w, t, lowerRest);
    }
  }

  /** Title case keeps the length, upper-cases the first character and every
      character after a space, and maps the others by the rest rule. */
  lemma TitleCaseChars(s: string, lowerRest: bool)
    ensures |TitleCase(s, lowerRest)| == |s|
    ensures forall i :: 0 <= i < |s| ==>
      TitleCase(s, lowerRest)[i] ==
        if i == 0 || s[i - 1] == ' ' then Upper(s[i]) else RestChar(s[i], lowerRest)
  {
    TitleCaseIsTitleChars(s, lowerRest);
  }

  /** Title case moves no space, so the text has as many words afterwards. */
  lemma TitleCaseWordCount(s: string, lowerRest: bool)
    ensures |Split(TitleCase(s, lowerRest), ' ')| == |Split(s, ' ')|
  {
    var r := TitleChars(s, lowerRest);
    forall i | 0 <= i < |s| ensures s[i] == ' ' <==> r[i] == ' ' {
      CaseFacts(s[i], lowerRest);
    }
    SplitCountBySeparators(s, r, ' ');
    TitleCaseIsTitleChars(s, lowerRest);
  }

  /** Ignoring case, title case changes nothing. */
  lemma TitleCaseIgnoringCase(s: string, lowerRest: bool)
    ensures LowerAll(TitleCase(s, lowerRest)) == LowerAll(s)
  {
    var r := TitleChars(s, lowerRest);
    forall i | 0 <= i < |s| ensures Lower(r[i]) == Lower(s[i]) {
      CaseFacts(s[i], lowerRest);
    }
    assert LowerAll(r) == LowerAll(s);
    TitleCaseIsTitleChars(s, lowerRest);
  }

  /** Case mapping moves no character to or from a space and does not
      change a character's lower-case form. */
  lemma CaseFacts(c: char, lowerRest: bool)
    ensures (Upper(c) == ' ') == (c == ' ') && (RestChar(c, lowerRest) == ' ') == (c == ' ')
    ensures Lower(Upper(c)) == Lower(c) && Lower(RestChar(c, lowerRest)) == Lower(c)
  {
  }
}
