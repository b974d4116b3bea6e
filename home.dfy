/** The home page: the card grid shows a growing prefix of the filtered
    list (the whole list while searching), an infinite-scroll paginator
    extends it 25 cards at a time, and a click navigates to the fighter's
    slug. */
module Home {
  import opened Text
  import opened Sequences
  import opened FighterData
  import App

  const PageSize: nat := 25

  /** Pixels from the bottom at which a scroll loads more. */
  const ScrollMargin: real := 200.0

  /** `searchTerm.trim() !== ""`. */
  predicate IsSearching(term: string) {
    Trim(term) != ""
  }

  /** Searching means the term holds a character other than whitespace. */
  lemma IsSearchingIff(term: string)
    ensures IsSearching(term) <==> exists i :: 0 <= i < |term| && !IsJsSpace(term[i])
  {
  }

  function Min(a: nat, b: nat): nat {
    if a <= b then a else b
  }

  /** `displayedFighters`: the whole list while searching, otherwise
      `slice(0, displayCount)`. */
  function Displayed(filtered: seq<Fighter>, term: string, count: nat): (r: seq<Fighter>)
    ensures IsSearching(term) ==> r == filtered
    ensures !IsSearching(term) ==> |r| == Min(count, |filtered|)
    ensures IsPrefix(r, filtered)
  {
    if IsSearching(term) then filtered else filtered[..Min(count, |filtered|)]
  }

  predicate IsPrefix<T(==)>(a: seq<T>, b: seq<T>) {
    |a| <= |b| && b[..|a|] == a
  }

  /** `hasMoreToLoad`. */
  predicate HasMore(filtered: seq<Fighter>, term: string, count: nat) {
    !IsSearching(term) && |filtered| > count
  }

  /** The ` of N` part of the count line. */
  predicate ShowsOfTotal(filtered: seq<Fighter>, term: string, count: nat) {
    !IsSearching(term) && |filtered| > |Displayed(filtered, term, count)|
  }

  /** The "All N fighters loaded" line. */
  predicate ShowsAllLoaded(filtered: seq<Fighter>, term: string, count: nat) {
    !IsSearching(term) && !HasMore(filtered, term, count) && |filtered| > PageSize
  }

  /** The total is shown exactly when more remain to load, and "all loaded"
      exactly when the whole list is displayed and it is longer than one
      page. */
  lemma CountLineConditions(filtered: seq<Fighter>, term: string, count: nat)
    ensures ShowsOfTotal(filtered, term, count) <==> HasMore(filtered, term, count)
    ensures ShowsAllLoaded(filtered, term, count) <==>
      !IsSearching(term) && Displayed(filtered, term, count) == filtered && |filtered| > PageSize
  {
    if !IsSearching(term) && |filtered| <= count {
      assert filtered[..|filtered|] == filtered;
    }
  }

  /** The proximity test: within 200 pixels of the bottom. */
  predicate NearBottom(scrollTop: real, windowHeight: real, documentHeight: real) {
    scrollTop + windowHeight >= documentHeight - ScrollMargin
  }

  /** The paginator's state hooks, and whether the 300 ms timer the scroll
      handler starts is still pending. */
  class Paginator {
    var displayCount: nat
    var isLoadingMore: bool
    var timerPending: bool

    /** `displayCount` is always 25 + 25k, and the latch is set exactly
        while a timer is pending. */
    ghost predicate Valid()
      reads this
    {
      && displayCount >= PageSize
      && displayCount % PageSize == 0
      && (isLoadingMore <==> timerPending)
    }

    constructor ()
      ensures displayCount == PageSize && !isLoadingMore && !timerPending
      ensures Valid()
    {
      displayCount := PageSize;
      isLoadingMore := false;
      timerPending := false;
    }

    /** The scroll handler: ignored while searching, while latched, or when
        nothing remains; otherwise, near the bottom, it latches and starts
        the timer. */
    method Scroll(filtered: seq<Fighter>, term: string, scrollTop: real, windowHeight: real, documentHeight: real)
      returns (scheduled: bool)
      requires Valid()
      modifies this
      ensures scheduled <==>
        !IsSearching(term) && !old(isLoadingMore) && HasMore(filtered, term, old(displayCount))
        && NearBottom(scrollTop, windowHeight, documentHeight)
      ensures scheduled ==> isLoadingMore && timerPending
      ensures !scheduled ==> isLoadingMore == old(isLoadingMore) && timerPending == old(timerPending)
      ensures displayCount == old(displayCount)
      ensures Valid()
    {
      scheduled := false;
      if IsSearching(term) || isLoadingMore || !HasMore(filtered, term, displayCount) {
        return;
      }
      if NearBottom(scrollTop, windowHeight, documentHeight) {
        isLoadingMore := true;
        timerPending := true;
        scheduled := true;
      }
    }

    /** The timer callback: one more page, and the latch is released. */
    method TimerFires()
      requires Valid() && timerPending
      modifies this
      ensures displayCount == old(displayCount) + PageSize
      ensures !isLoadingMore && !timerPending
      ensures Valid()
    {
      displayCount := displayCount + PageSize;
      isLoadingMore := false;
      timerPending := false;
    }

    /** The reset effect on a new search term or weight class. It does not
        touch the latch. */
    method Reset()
      requires Valid()
      modifies this
      ensures displayCount == PageSize
      ensures isLoadingMore == old(isLoadingMore) && timerPending == old(timerPending)
      ensures Valid()
    {
      displayCount := PageSize;
    }
  }

  /** Scroll events that arrive while the latch is set add nothing: two
      near-bottom scrolls and one timer grow the window by exactly one page. */
  method CoalescedScrolls(p: Paginator, filtered: seq<Fighter>, term: string, windowHeight: real, documentHeight: real)
    requires p.Valid() && !p.isLoadingMore && HasMore(filtered, term, p.displayCount)
    requires NearBottom(documentHeight, windowHeight, documentHeight)
    modifies p
    ensures p.Valid() && p.displayCount == old(p.displayCount) + PageSize && !p.isLoadingMore
  {
    var first := p.Scroll(filtered, term, documentHeight, windowHeight, documentHeight);
    var second := p.Scroll(filtered, term, documentHeight, windowHeight, documentHeight);
    assert first && !second;
    p.TimerFires();
  }

  /** Sixty unsearched fighters: two load cycles take `displayCount` to 75,
      one page past the list, and then all sixty are shown and nothing more
      is loaded. */
  method SixtyFighters(filtered: seq<Fighter>, term: string) returns (count: nat, shown: nat, again: bool)
    requires |filtered| == 60 && !IsSearching(term)
    ensures count == 75 && shown == 60 && !again
  {
    var p := new Paginator();
    var s := p.Scroll(filtered, term, 0.0, 0.0, 0.0);
    p.TimerFires();
    s := p.Scroll(filtered, term, 0.0, 0.0, 0.0);
    p.TimerFires();
    again := p.Scroll(filtered, term, 0.0, 0.0, 0.0);
    count := p.displayCount;
    shown := |Displayed(filtered, term, count)|;
  }

  // ---------------------------------------------------------------------
  // createSlug

  predicate SlugChar(c: char) {
    'a' <= c <= 'z' || '0' <= c <= '9'
  }

  /** Only `[a-z0-9-]`, no leading or trailing `-`, no `--`. */
  predicate IsSlug(s: string) {
    && (forall i :: 0 <= i < |s| ==> SlugChar(s[i]) || s[i] == '-')
    && (s != [] ==> s[0] != '-' && s[|s| - 1] != '-')
    && NoDoubleDash(s)
  }

  predicate NoDoubleDash(s: string) {
    forall i :: 0 <= i < |s| - 1 ==> !(s[i] == '-' && s[i + 1] == '-')
  }

  /** `.replace(/[^a-z0-9]+/g, "-")`: every maximal run of other characters
      becomes one `-`; `inRun` says the previous character was in such a run. */
  function Collapse(s: string, inRun: bool): (r: string)
    ensures forall i :: 0 <= i < |r| ==> SlugChar(r[i]) || r[i] == '-'
    ensures inRun && r != [] ==> r[0] != '-'
    ensures NoDoubleDash(r)
    decreases |s|
  {
    if s == [] then []
    else if SlugChar(s[0]) then [s[0]] + Collapse(s[1..], false)
    else if inRun then Collapse(s[1..], true)
    else ['-'] + Collapse(s[1..], true)
  }

  /** `.replace(/(^-|-$)/g, "")`: one leading and one trailing `-` removed. */
  function Strip(s: string): string {
    var t := if s != [] && s[0] == '-' then s[1..] else s;
    if t != [] && t[|t| - 1] == '-' then t[..|t| - 1] else t
  }

  lemma StripClean(s: string)
    requires forall i :: 0 <= i < |s| ==> SlugChar(s[i]) || s[i] == '-'
    requires NoDoubleDash(s)
    ensures IsSlug(Strip(s))
  {
    var t := if s != [] && s[0] == '-' then s[1..] else s;
    assert t != [] && s != [] && s[0] == '-' ==> t[0] == s[1];
    if t != [] && t[|t| - 1] == '-' {
      var u := t[..|t| - 1];
      if u != [] {
        assert u[|u| - 1] == t[|t| - 2];
      }
    }
  }

  /** `createSlug(name)`. */
  function Slug(name: string): (r: string)
    ensures IsSlug(r)
  {
    var c := Collapse(LowerAll(name), false);
    StripClean(c);
    Strip(c)
  }

  /** A clean text is left alone by the collapse. */
  lemma {:induction false} CollapseClean(s: string, inRun: bool)
    requires forall i :: 0 <= i < |s| ==> SlugChar(s[i]) || s[i] == '-'
    requires NoDoubleDash(s)
    requires inRun && s != [] ==> s[0] != '-'
    ensures Collapse(s, inRun) == s
    decreases |s|
  {
    if s != [] {
      forall i | 0 <= i < |s[1..]| - 1 ensures !(s[1..][i] == '-' && s[1..][i + 1] == '-') {
        assert s[1..][i] == s[i + 1] && s[1..][i + 1] == s[i + 2];
      }
      if SlugChar(s[0]) {
        CollapseClean(s[1..], false);
      } else {
        assert |s| > 1 ==> s[1] != '-';
        CollapseClean(s[1..], true);
      }
      assert [s[0]] + s[1..] == s;
    }
  }

  /** Every slug is its own slug, so the slug function is idempotent. */
  lemma SlugFixedPoint(s: string)
    requires IsSlug(s)
    ensures Slug(s) == s
  {
    assert LowerAll(s) == s;
    CollapseClean(s, false);
  }

  lemma SlugIdempotent(name: string)
    ensures Slug(Slug(name)) == Slug(name)
  {
    SlugFixedPoint(Slug(name));
  }

  // ---------------------------------------------------------------------
  // The two notions of "a search term is set"

  /** A term of one space counts as no search on this page (the whole
      filtered list is paginated) yet the shell's filter still applies it,
      and drops every fighter whose name and nickname hold no space. */
  lemma SpaceTermContrast(all: seq<Fighter>, cls: string, f: Fighter)
    requires f in all && ' ' !in f.name && ' ' !in f.nickname
    ensures !IsSearching(" ")
    ensures f !in App.FilterFighters(all, " ", cls)
  {
    assert Trim(" ") == "" by {
      assert IsJsSpace(" "[0]);
    }
    assert LowerAll(" ") == " ";
    NoSpaceNoMatch(f.name);
    NoSpaceNoMatch(f.nickname);
    App.FilterMembership(all, " ", cls);
  }

  lemma NoSpaceNoMatch(s: string)
    requires ' ' !in s
    ensures !Contains(LowerAll(s), " ")
  {
    var u := LowerAll(s);
    forall i ensures !OccursAt(u, " ", i) {
      if 0 <= i < |u| {
        assert s[i] != ' ';
        assert u[i..i + 1] == [u[i]];
      }
    }
    ContainsIff(u, " ");
  }
}
