# UFC fighter cards: a Dafny model of the data pipeline and display rules

This project models the browser side of the UFC fighter card site, plus two
checks of its image scraper:

- **Normaliser** (`loadFighterData`). Each parsed CSV row becomes one
  fixed-shape fighter record:
  - header keys are trimmed;
  - every field gets its JavaScript `||` default;
  - the `W-L-D` record strings are built and the six headline stats rounded.
  Records without a name are dropped, and the rest are sorted stably by
  `rank || 999`. `getDetailedStats` projects a record into five groups of
  four metrics.
- **Application shell**. It loads the data (success or failure) and
  re-filters the list by search term and weight class.
- **Home page**:
  - the 25-card infinite-scroll paginator, with its loading latch;
  - the prefix of the filtered list it displays;
  - the count and end-of-list conditions;
  - the `createSlug` URL slug.
- **Profile page**:
  - lookup of the fighter by slug;
  - the champion, title-win and rank labels;
  - the division text;
  - the radar chart data and the `%` suffix of the metric lines.
- **Card**: the weight-class badge colour, the title-cased weight class, the
  rank shown for the selected category, and the radar chart data.
- **Scraper**: `validate_image_belongs_to_fighter` (name patterns matched
  against the upper-cased URL) and the non-library branches of
  `ensure_absolute_url`.

Code that updates state step by step is imperative Dafny:

- the shell and the paginator are classes whose methods update their fields;
- the `forEach` that fills the cleaned row and the `map` over the rows are
  loops;
- the sort is an in-place insertion sort on an array;
- the scraper builds its pattern list with an appending loop and scans it
  with an early return.

The loops and the sort are each proved equal to a function, and the
properties are proved about that function. The shell's and the paginator's
methods state each field's new value in their postconditions and keep the
class invariant. Pure expressions (ternaries, `map`/`join`
chains, regular-expression replaces) are functions.

JavaScript and Python semantics are written out explicitly:

- truthiness and `||`;
- `??`, which replaces only `null` and `undefined`;
- `Number(null) === 0`;
- `Math.round`, which rounds halves up;
- `parseInt`;
- `String(x)` for integers;
- `trim` and Python's `split()` with their own whitespace sets;
- ASCII `toLowerCase`/`upper`;
- `includes`/`in` as substring search;
- `split(" ")`/`join(" ")` on single spaces.

Modules:

- `Text`, `Sequences`, `Cells`: string, filter and cell semantics;
- `Sorting`: the stable sort;
- `FighterData`, `App`, `Home`, `FighterPage`, `FighterCard`, `ScrapeImg`:
  one each for the program's files;
- `Titles`: the word-wise title case that the card, the selector and the
  profile page share.

Where the code's behaviour may surprise, the model follows the code:

- A name made only of spaces is kept. The filter tests only for a truthy,
  non-empty name.
- An explicit `0` in a rank or stat column is replaced by the default, like
  a missing value.
- With sixty fighters, `displayCount` grows to 75 (two pages past the
  first) while the grid shows all sixty. The count is not capped at the list
  length.
- A missing or zero `div_rank` makes the fighter count as a champion on the
  profile page ("UFC Champion"). So the career rank label's "N/A" fallback
  is never shown.

## Model

| member | source | states |
|---|---|---|
| Text.Trim | UFCCardsFullStack/src/pages/Home.jsx:19 | the trimmed text has no whitespace at either end, and it is empty exactly when every character is JavaScript whitespace |
| Text.TrimIsSlice | UFCCardsFullStack/src/pages/Home.jsx:19 | the trimmed text is the part of the input that starts right after its leading whitespace, and only whitespace lies before and after that part |
| Text.LowerAllCanonical | UFCCardsFullStack/src/App.jsx:52-54 | lower-casing is idempotent and erases a prior upper-casing, so both sides of the search test are in one canonical case |
| Text.ContainsTransitive | UFCCardsFullStack/src/App.jsx:56 | a substring of a substring is a substring |
| Text.ContainsLower | UFCCardsFullStack/src/App.jsx:52-56 | lower-casing both texts keeps a substring a substring |
| Text.ContainsUpper | Data/src/scrapeimg.py:208-210 | upper-casing both texts keeps a substring a substring |
| Text.MissingChar | UFCCardsFullStack/src/pages/FighterPage.jsx:305-307 | a text lacking one of the characters of `t` does not contain `t` |
| Text.Split | UFCCardsFullStack/src/pages/FighterPage.jsx:110 | `split(" ")` yields at least one piece and no piece holds the separator |
| Text.JoinSplit | UFCCardsFullStack/src/pages/FighterPage.jsx:110-116 | joining the pieces of a split with the same separator gives back the text |
| Text.SplitFirst | UFCCardsFullStack/src/pages/FighterPage.jsx:110 | splitting `w + " " + t`, `w` free of spaces, yields `w` followed by the pieces of `t` |
| Text.SplitCountBySeparators | UFCCardsFullStack/src/components/FighterCard.jsx:73-76 | two texts with spaces at the same positions split into equally many words |
| Text.DigitsValueNatText | UFCCardsFullStack/src/components/FighterData.jsx:68-70 | the decimal numeral of a count reads back as that count |
| Text.NumberText | UFCCardsFullStack/src/components/FighterData.jsx:68-70 | `String(x)` is never empty; an integer prints as its numeral, all digits when non-negative |
| Sequences.SelectIsSubsequence | UFCCardsFullStack/src/App.jsx:51 | `filter` returns an order-preserving subsequence of its input |
| Sequences.SelectMultiset | UFCCardsFullStack/src/App.jsx:51 | `filter` keeps every passing element exactly as often as it occurs, and no failing one |
| Sequences.SelectMembership | UFCCardsFullStack/src/App.jsx:62 | an element is in the filtered list exactly when it is in the input and passes |
| Sequences.SelectAll | UFCCardsFullStack/src/components/FighterData.jsx:115-116 | a filter every element passes returns its input |
| Sequences.SelectSelect | UFCCardsFullStack/src/App.jsx:50-64 | two filters in a row are one filter by the conjunction |
| Sequences.SelectAppend | UFCCardsFullStack/src/components/FighterData.jsx:115-116 | filtering a concatenation filters each part |
| Sequences.SelectMonotone | UFCCardsFullStack/src/App.jsx:51-57 | a filter by a stronger test keeps a subsequence of the filter by a weaker one |
| Sequences.SelectIdempotent | UFCCardsFullStack/src/App.jsx:51-57 | filtering twice by the same test equals filtering once |
| Cells.CellText | UFCCardsFullStack/src/components/FighterData.jsx:56 | the text of a truthy cell is never empty, so `cleanRow.name \|\| ...` always names the record |
| Cells.RoundHalfUp | UFCCardsFullStack/src/components/FighterData.jsx:77-83 | `Math.round` yields the integer within half of its argument, halves going up |
| Cells.RoundStat | UFCCardsFullStack/src/components/FighterData.jsx:77-83 | `Math.round(c \|\| 75)` is 75 for a falsy cell and the rounded number for a non-zero number |
| Cells.LeadingDigits | UFCCardsFullStack/src/components/FighterData.jsx:72-74 | `parseInt` reads the longest digit prefix: all digits, a prefix of the text, stopped by a non-digit |
| Cells.ParseIntTextRoundTrip | UFCCardsFullStack/src/components/FighterData.jsx:72-75 | `parseInt` of an integer's numeral gives back that integer |
| Cells.ParsedText | UFCCardsFullStack/src/components/FighterData.jsx:75 | `String(parseInt(nc))` is never empty |
| Cells.StringNumber | UFCCardsFullStack/src/pages/FighterPage.jsx:140 | no contract of its own; `ChampionByCareerRank` states what it decides: a blank text counts as 0 |
| Cells.Truncate | UFCCardsFullStack/src/components/FighterData.jsx:72-75 | no contract of its own; `ParsedCountText` states that it leaves a natural count unchanged |
| Cells.ParseIntText | UFCCardsFullStack/src/components/FighterData.jsx:72-75 | no contract of its own; `LeadingDigits` and `ParseIntTextRoundTrip` state what it reads |
| Cells.ParseInt | UFCCardsFullStack/src/components/FighterData.jsx:72-75 | no contract of its own; `ParsedCountText` and `NoContestCount` state its value on count cells |
| Sorting.InsertSorted | UFCCardsFullStack/src/components/FighterData.jsx:117 | inserting into a key-ordered sequence keeps it ordered |
| Sorting.InsertMultiset | UFCCardsFullStack/src/components/FighterData.jsx:117 | insertion adds exactly the inserted element |
| Sorting.InsertWithKey | UFCCardsFullStack/src/components/FighterData.jsx:117 | insertion appends the element to those of its key and leaves other keys alone |
| Sorting.SortBySorted | UFCCardsFullStack/src/components/FighterData.jsx:117 | the reference sort's result is ordered by the comparator's key |
| Sorting.SortByPermutes | UFCCardsFullStack/src/components/FighterData.jsx:117 | the reference sort's result is a permutation of its input |
| Sorting.SortByStable | UFCCardsFullStack/src/components/FighterData.jsx:117 | elements of equal key keep their input order (ES2019 stable `sort`) |
| Sorting.InsertPass | UFCCardsFullStack/src/components/FighterData.jsx:117 | one in-place pass swaps `a[i]` left past larger keys: the prefix becomes the insertion of `a[i]`, the rest is untouched |
| Sorting.SortedCopy | UFCCardsFullStack/src/components/FighterData.jsx:117 | sorting a fresh array holding the filtered list yields the stable reference sort of that list |
| Sorting.SortInPlace | UFCCardsFullStack/src/components/FighterData.jsx:117 | the in-place sort leaves the array equal to the stable reference sort of its old contents |
| FighterData.RekeyKeys | UFCCardsFullStack/src/components/FighterData.jsx:50-54 | the re-keyed dictionary holds each entry's new key and no other |
| FighterData.RekeyLastWins | UFCCardsFullStack/src/components/FighterData.jsx:50-54 | each key holds the value of the last entry mapped to it |
| FighterData.CleanMapLastWins | UFCCardsFullStack/src/components/FighterData.jsx:50-54 | `cleanRow` holds exactly the trimmed header keys; when two trim alike, the later one's cell wins |
| FighterData.CleanMap | UFCCardsFullStack/src/components/FighterData.jsx:50-54 | no contract of its own; `CleanMapLastWins` states it |
| FighterData.CleanRow | UFCCardsFullStack/src/components/FighterData.jsx:50-54 | the `forEach` loop builds exactly that dictionary |
| FighterData.CountsRoundTrip | UFCCardsFullStack/src/components/FighterData.jsx:68-70 | three counts joined with `-` read back as themselves |
| FighterData.CountText | UFCCardsFullStack/src/components/FighterData.jsx:68-70 | an empty, zero or natural count cell with `\|\| 0` prints as its count's numeral |
| FighterData.RecordRoundTrip | UFCCardsFullStack/src/components/FighterData.jsx:68-70 | `record` is `W-L-D` with missing counts as 0, and reads back as the three counts |
| FighterData.RecordText | UFCCardsFullStack/src/components/FighterData.jsx:68-70 | no contract of its own; `RecordRoundTrip` states what it yields and how it reads back |
| FighterData.ParsedCountText | UFCCardsFullStack/src/components/FighterData.jsx:72-74 | `parseInt(c) \|\| 0` of an empty, zero or natural count cell prints as that count's numeral |
| FighterData.NoContestCount | UFCCardsFullStack/src/components/FighterData.jsx:74-75 | a positive no-contest count is truthy and `parseInt` reads it as itself |
| FighterData.UfcRecordText | UFCCardsFullStack/src/components/FighterData.jsx:71-76 | the UFC record text is never empty, so its trailing `\|\| 0` never applies |
| FighterData.UfcRecordRoundTrip | UFCCardsFullStack/src/components/FighterData.jsx:71-75 | without no-contests, `ufcrecord` is `W-L-D` of the three counts and reads back as them; a missing or zero count reads as 0 |
| FighterData.UfcRecordNoContests | UFCCardsFullStack/src/components/FighterData.jsx:71-75 | with `N > 0` no-contests, `ufcrecord` is exactly `W-L-D-N NC` |
| FighterData.UfcRecordSuffix | UFCCardsFullStack/src/components/FighterData.jsx:74-75 | the text ends in ` NC` exactly when the no-contest cell is truthy, and then it ends in `-` followed by `parseInt` of that cell and ` NC` |
| FighterData.ToFighter | UFCCardsFullStack/src/components/FighterData.jsx:55-112 | the record's name is the raw name when truthy, else `Fighter {index+1}`; `rank` and `pfprank` are the raw value when truthy, else the 1-based position |
| FighterData.StatDefaults | UFCCardsFullStack/src/components/FighterData.jsx:77-83 | each of the six headline stats is 75 for a missing, empty or zero cell and the nearest integer to any other number |
| FighterData.Transform | UFCCardsFullStack/src/components/FighterData.jsx:48-113 | the `map` yields one record per row, in row order: record `k` is built from the trimmed row `k` with position `k`; each is named and has a truthy rank |
| FighterData.TransformRows | UFCCardsFullStack/src/components/FighterData.jsx:48-113 | the loop over the rows computes that `map` |
| FighterData.NameFilterKeepsAll | UFCCardsFullStack/src/components/FighterData.jsx:115-116 | the name filter drops no record, since every record is named |
| FighterData.Normalize | UFCCardsFullStack/src/components/FighterData.jsx:48-117 | transform, filter and in-place sort yield the reference normalisation |
| FighterData.NormalizedProperties | UFCCardsFullStack/src/components/FighterData.jsx:115-117 | the output is named records with truthy ranks: a permutation of all records, ordered by `rank \|\| 999`, equal ranks in row order |
| FighterData.SortKey | UFCCardsFullStack/src/components/FighterData.jsx:117 | no contract of its own; `NormalizedProperties` states the order it gives |
| FighterData.Normalized | UFCCardsFullStack/src/components/FighterData.jsx:115-117 | no contract of its own; `NormalizedProperties` states it and `Normalize` computes it |
| FighterData.DetailedStats | UFCCardsFullStack/src/components/FighterData.jsx:133-237 | five groups of four metrics, no value ever absent |
| FighterData.DetailedStatsLayout | UFCCardsFullStack/src/components/FighterData.jsx:133-237 | group names, metric names and maxima are the fixed tables, in order |
| FighterData.StrikingColumns | UFCCardsFullStack/src/components/FighterData.jsx:88-93 | each striking metric of a normalised record is its CSV column or 0 |
| FighterData.WrestlingColumns | UFCCardsFullStack/src/components/FighterData.jsx:94-99 | each wrestling metric of a normalised record is its CSV column or 0 |
| FighterData.GrapplingColumns | UFCCardsFullStack/src/components/FighterData.jsx:100-105 | each grappling metric of a normalised record is its CSV column or 0 |
| FighterData.DefenseColumns | UFCCardsFullStack/src/components/FighterData.jsx:106-111 | each defense metric of a normalised record is its CSV column or 0 |
| FighterData.FinishingDerived | UFCCardsFullStack/src/components/FighterData.jsx:223-236 | KO power and dominance are the rounded stats; sub threat is within half of 0.8 × grappling, finish rate within half of 0.9 × KO power |
| FighterData.FinishingGroup | UFCCardsFullStack/src/components/FighterData.jsx:223-236 | with finishing, grappling and dominance all missing, the group reads 75, 60, 75, 68 |
| App.SearchStageIsSelect | UFCCardsFullStack/src/App.jsx:50-59 | the search stage is one filter by "empty term, or name or nickname contains it, ignoring case" |
| App.MatchesSearch | UFCCardsFullStack/src/App.jsx:52-56 | no contract of its own; `SearchIgnoresCase` and `FilterMembership` state it |
| App.SearchStage | UFCCardsFullStack/src/App.jsx:50-59 | no contract of its own; `SearchStageIsSelect` states it |
| App.CategoryStage | UFCCardsFullStack/src/App.jsx:61-64 | no contract of its own; `CategoryStageIsSelect` states it |
| App.FilterFighters | UFCCardsFullStack/src/App.jsx:40-68 | no contract of its own; `FilterIsSelect`, `FilterMembership` and the other filter lemmas state it |
| App.CategoryStageIsSelect | UFCCardsFullStack/src/App.jsx:61-64 | the category stage is one filter by "sentinel selected, or equal weight class" |
| App.FilterIsSelect | UFCCardsFullStack/src/App.jsx:40-68 | the whole effect is one filter by both tests |
| App.FilterIsSubsequence | UFCCardsFullStack/src/App.jsx:41-62 | the filtered list is an order-preserving subsequence of the loaded list |
| App.FilterMembership | UFCCardsFullStack/src/App.jsx:50-64 | a fighter is shown iff loaded and passing both tests, and as often as loaded |
| App.FilterKeepsAllIff | UFCCardsFullStack/src/App.jsx:41-64 | the list stays whole iff every fighter passes; an empty term with the sentinel keeps all |
| App.FilterIdempotent | UFCCardsFullStack/src/App.jsx:50-67 | filtering the result again with the same inputs changes nothing |
| App.FilterStagesCommute | UFCCardsFullStack/src/App.jsx:50-64 | running the category stage first gives the same list |
| App.SearchIgnoresCase | UFCCardsFullStack/src/App.jsx:52-56 | an upper- or lower-cased term filters the same as the term |
| App.LongerTermNarrows | UFCCardsFullStack/src/App.jsx:50-57 | a term that contains another keeps a subsequence of what the shorter term keeps |
| App.Shell.constructor | UFCCardsFullStack/src/App.jsx:10-15 | on mount: loading, no error, empty lists, empty term, sentinel class |
| App.Shell.StartLoad | UFCCardsFullStack/src/App.jsx:21 | loading is set and nothing else changes |
| App.Shell.FinishLoad | UFCCardsFullStack/src/App.jsx:20-33 | success stores the data in both lists and clears the error; failure sets the fixed message and empties both; loading ends either way |
| App.Shell.SetSearchTerm | UFCCardsFullStack/src/pages/Home.jsx:134 | only the term changes |
| App.Shell.SetWeightClass | UFCCardsFullStack/src/pages/Home.jsx:146 | only the class changes |
| App.Shell.ApplyFilter | UFCCardsFullStack/src/App.jsx:40-68 | the effect stores the filter of the loaded list and brings the state in sync |
| App.Shell.View | UFCCardsFullStack/src/App.jsx:70-120 | loading screen iff loading, error screen iff not loading with an error, otherwise the routes with both lists |
| App.FailedLoadShowsError | UFCCardsFullStack/src/App.jsx:26-33 | a failed load shows the error screen with the fixed message |
| Home.IsSearchingIff | UFCCardsFullStack/src/pages/Home.jsx:19 | searching iff the term holds a non-whitespace character |
| Home.IsSearching | UFCCardsFullStack/src/pages/Home.jsx:19 | no contract of its own; `IsSearchingIff` states it |
| Home.HasMore | UFCCardsFullStack/src/pages/Home.jsx:24 | no contract of its own; `CountLineConditions` and `Paginator.Scroll` state its use |
| Home.ShowsOfTotal | UFCCardsFullStack/src/pages/Home.jsx:174-212 | no contract of its own; `CountLineConditions` states it |
| Home.NearBottom | UFCCardsFullStack/src/pages/Home.jsx:36-37 | no contract of its own; `Paginator.Scroll` states its use |
| Home.Displayed | UFCCardsFullStack/src/pages/Home.jsx:20-22 | the whole filtered list while searching, else its prefix of length `min(displayCount, n)` |
| Home.CountLineConditions | UFCCardsFullStack/src/pages/Home.jsx:174-212 | the ` of N` total shows iff more remain; "All N fighters loaded" shows iff the whole list is displayed, not searching, and there are more than 25 |
| Home.Paginator.constructor | UFCCardsFullStack/src/pages/Home.jsx:16-17 | `displayCount` starts at 25 with the latch clear |
| Home.Paginator.Scroll | UFCCardsFullStack/src/pages/Home.jsx:28-45 | the handler schedules a load iff not searching, not latched, more to load and near the bottom; it then latches, else changes nothing |
| Home.Paginator.TimerFires | UFCCardsFullStack/src/pages/Home.jsx:41-44 | the timer adds exactly 25 and clears the latch |
| Home.Paginator.Reset | UFCCardsFullStack/src/pages/Home.jsx:52-54 | the reset effect sets the count back to 25 and leaves the latch |
| Home.CoalescedScrolls | UFCCardsFullStack/src/pages/Home.jsx:29-44 | a second scroll while latched adds nothing: two scrolls and one timer grow the window by exactly 25 |
| Home.SixtyFighters | UFCCardsFullStack/src/pages/Home.jsx:22-44 | with sixty fighters two load cycles reach a count of 75, all sixty show, and no further load is scheduled |
| Home.Collapse | UFCCardsFullStack/src/pages/Home.jsx:59 | the run replace leaves only `[a-z0-9-]` and never two dashes in a row |
| Home.StripClean | UFCCardsFullStack/src/pages/Home.jsx:60 | stripping one leading and one trailing dash from such a text leaves a slug |
| Home.Slug | UFCCardsFullStack/src/pages/Home.jsx:56-61 | `createSlug` yields only `[a-z0-9-]`, no leading or trailing `-`, no `--` |
| Home.CollapseClean | UFCCardsFullStack/src/pages/Home.jsx:59 | the run replace leaves a clean text unchanged |
| Home.SlugFixedPoint | UFCCardsFullStack/src/pages/Home.jsx:56-61 | every slug is its own slug |
| Home.SlugIdempotent | UFCCardsFullStack/src/pages/Home.jsx:56-61 | `createSlug(createSlug(s)) == createSlug(s)` |
| Home.SpaceTermContrast | UFCCardsFullStack/src/App.jsx:50 | a one-space term does not count as searching on the home page, yet the shell filters by it and drops every fighter whose name and nickname hold no space |
| Titles.Capitalize | UFCCardsFullStack/src/components/FighterCard.jsx:75 | the capitalised word has the word's length: its first character upper-cased, the rest by the rest rule |
| Titles.CapitalizeAll | UFCCardsFullStack/src/components/FighterCard.jsx:75 | the `map` keeps the number of words; `CapitalizeAllCons` states it word by word |
| Titles.TitleCase | UFCCardsFullStack/src/components/FighterCard.jsx:73-76 | no contract of its own; `TitleCaseIsTitleChars`, `TitleCaseChars`, `TitleCaseWordCount` and `TitleCaseIgnoringCase` state it |
| Titles.TitleCaseIsTitleChars | UFCCardsFullStack/src/pages/FighterPage.jsx:110-116 | split, capitalise each word, join equals the character-wise rule: first character and every character after a space upper-cased |
| Titles.TitleCaseChars | UFCCardsFullStack/src/components/FighterCard.jsx:73-76 | title case keeps the length and maps each character by its position's rule |
| Titles.TitleCaseWordCount | UFCCardsFullStack/src/components/FighterCard.jsx:73-76 | title case keeps the number of words |
| Titles.TitleCaseIgnoringCase | UFCCardsFullStack/src/pages/Home.jsx:151-156 | title case changes nothing but letter case |
| FighterPage.FindBySlug | UFCCardsFullStack/src/pages/FighterPage.jsx:18-26 | none iff no fighter's slug matches, else the fighter at the first matching position |
| FighterPage.FindCardTarget | UFCCardsFullStack/src/pages/FighterPage.jsx:18-29 | the page a card click opens finds a fighter with that slug, and that card's fighter when no earlier fighter shares the slug |
| FighterPage.Lookup | UFCCardsFullStack/src/pages/FighterPage.jsx:179 | reading a key the record does not have gives `undefined` |
| FighterPage.LabelsOfRow | UFCCardsFullStack/src/pages/FighterPage.jsx:140-160 | on a normalised record: champion iff `div_rank` is falsy or blank; Title Wins is `Titlefighs_wins \|\| 0` for a champion, else "N/A"; career rank is "UFC Champion" or the raw rank |
| FighterPage.IsChampion | UFCCardsFullStack/src/pages/FighterPage.jsx:140 | no contract of its own; `ChampionByCareerRank` states it |
| FighterPage.ChampionByCareerRank | UFCCardsFullStack/src/pages/FighterPage.jsx:140 | a fighter is champion iff the career rank is falsy or a blank text |
| FighterPage.TitleWinsLabel | UFCCardsFullStack/src/pages/FighterPage.jsx:140-142 | no contract of its own; `LabelsOfRow` states it |
| FighterPage.RankLabel | UFCCardsFullStack/src/pages/FighterPage.jsx:158-160 | no contract of its own; `LabelsOfRow` and `RankFallbacksUnreachable` state it |
| FighterPage.CareerRankLabel | UFCCardsFullStack/src/pages/FighterPage.jsx:158-160 | no contract of its own; `LabelsOfRow` states it |
| FighterPage.HighestRankLabelAsWritten | UFCCardsFullStack/src/pages/FighterPage.jsx:177-179 | no contract of its own; `HighestRankAsWrittenIgnoresRank` states it |
| FighterPage.HighestRankLabel | UFCCardsFullStack/src/pages/FighterPage.jsx:177-179 | no contract of its own; `RankFallbacksUnreachable` and `HighestRankCounterexample` state it |
| FighterPage.RankFallbacksUnreachable | UFCCardsFullStack/src/pages/FighterPage.jsx:158-160 | the career rank label is "UFC Champion" or the career rank, never "N/A"; the corrected highest-rank label equals it |
| FighterPage.HighestRankAsWrittenIgnoresRank | UFCCardsFullStack/src/pages/FighterPage.jsx:177-179 | as written, the highest-rank label is "UFC Champion" or "Unranked", whatever the rank |
| FighterPage.HighestRankCounterexample | UFCCardsFullStack/src/pages/FighterPage.jsx:177-179 | for a fighter ranked 3, as written shows "Unranked", corrected shows 3 |
| FighterPage.StripBracketsExact | UFCCardsFullStack/src/pages/FighterPage.jsx:109 | the replace keeps an order-preserving subsequence: each kept character as often as before, no bracket or quote |
| FighterPage.StripBrackets | UFCCardsFullStack/src/pages/FighterPage.jsx:109 | no contract of its own; `StripBracketsExact` states it |
| FighterPage.DivisionsText | UFCCardsFullStack/src/pages/FighterPage.jsx:108-116 | no contract of its own; `DivisionsTextShape` states it |
| FighterPage.DivisionsTextShape | UFCCardsFullStack/src/pages/FighterPage.jsx:108-116 | for any divisions text, the shown text has no bracket or quote and the stripped text's length; the first character and each character after a space are upper-cased, the others lower-cased; same letters ignoring case; same word count |
| FighterPage.DetailChart | UFCCardsFullStack/src/pages/FighterPage.jsx:42-48 | the chart keeps length and order, each point copying metric and value with full mark 100 |
| FighterPage.DetailChartsOfFighter | UFCCardsFullStack/src/pages/FighterPage.jsx:243-269 | each group's chart has its four metrics in order, values present, full mark 100 |
| FighterPage.MetricLine | UFCCardsFullStack/src/pages/FighterPage.jsx:304-309 | a metric line starts with the value's text and ends with its suffix |
| FighterPage.SuffixAt | UFCCardsFullStack/src/pages/FighterPage.jsx:305-309 | a name containing "Accuracy", "Defense" or "Resistance" gets the `%` |
| FighterPage.PercentSuffix | UFCCardsFullStack/src/pages/FighterPage.jsx:305-309 | no contract of its own; `SuffixAt`, `NoSuffix` and `PercentMetricNames` state it |
| FighterPage.NoSuffix | UFCCardsFullStack/src/pages/FighterPage.jsx:305-309 | a name missing a character of each of the three words gets no suffix |
| FighterPage.PercentMetricNames | UFCCardsFullStack/src/pages/FighterPage.jsx:305-309 | of the twenty detail metrics exactly the five percentages get the `%` |
| FighterPage.PercentLines | UFCCardsFullStack/src/pages/FighterPage.jsx:295-309 | every metric line of a fighter is its value's text plus `%` exactly for those five |
| FighterCard.BadgesOfClasses | UFCCardsFullStack/src/components/FighterCard.jsx:44-69 | each named weight class maps to its fixed badge classes |
| FighterCard.Badge | UFCCardsFullStack/src/components/FighterCard.jsx:44-70 | no contract of its own; `BadgesOfClasses`, `BadgesDistinct` and `BadgeDefault` state it |
| FighterCard.BadgesDistinct | UFCCardsFullStack/src/components/FighterCard.jsx:44-70 | the twelve badges differ from each other and from the default |
| FighterCard.BadgeDefault | UFCCardsFullStack/src/components/FighterCard.jsx:70 | any other value, "Unknown" and the sentinel included, gets `bg-gray-500 text-white` |
| FighterCard.WeightClassTitleShape | UFCCardsFullStack/src/components/FighterCard.jsx:73-76 | same length and word count; only each word's first character may change, to upper case |
| FighterCard.WeightClassTitle | UFCCardsFullStack/src/components/FighterCard.jsx:73-76 | no contract of its own; `WeightClassTitleShape` states it |
| FighterCard.CardRankOfRow | UFCCardsFullStack/src/components/FighterCard.jsx:81-83 | the card shows `pfprank` iff the sentinel is selected, else `rank`: the raw column when truthy, else the 1-based row position |
| FighterCard.CardRank | UFCCardsFullStack/src/components/FighterCard.jsx:81-83 | no contract of its own; `CardRankOfRow` states it |
| FighterCard.OverallChart | UFCCardsFullStack/src/components/FighterCard.jsx:14-20 | five points in the fixed category order, each with full mark 100; the profile page builds the same list |
| FighterCard.ChartOfRow | UFCCardsFullStack/src/components/FighterCard.jsx:14-20 | each axis of a normalised record shows its CSV column rounded, 75 when missing, empty or zero |
| ScrapeImg.NormalizeName | Data/src/scrapeimg.py:189 | the normalised name is no longer than the name and holds no apostrophe and no hyphen |
| ScrapeImg.NormalizeNameChars | Data/src/scrapeimg.py:189 | a name without apostrophes keeps its length; each character is lower-cased and each hyphen becomes an underscore |
| ScrapeImg.WordsCover | Data/src/scrapeimg.py:189 | `split()` yields non-empty, whitespace-free words holding every non-whitespace character in order |
| ScrapeImg.Words | Data/src/scrapeimg.py:189 | `split()` yields non-empty words free of whitespace |
| ScrapeImg.OneWord | Data/src/scrapeimg.py:189 | a whitespace-free text splits into itself alone, or nothing when empty |
| ScrapeImg.NamePatterns | Data/src/scrapeimg.py:192-205 | no patterns for fewer than two parts; else four combinations followed by the long parts |
| ScrapeImg.LongParts | Data/src/scrapeimg.py:203-205 | there are no more individual-name patterns than parts; `PatternsAreUpper` states they are upper-case |
| ScrapeImg.PatternsOf | Data/src/scrapeimg.py:189-205 | no contract of its own; `NamePatterns` and `PatternsAreUpper` state it |
| ScrapeImg.PatternsAreUpper | Data/src/scrapeimg.py:195-205 | every pattern is upper-case, so matching ignores case |
| ScrapeImg.BuildPatterns | Data/src/scrapeimg.py:192-205 | the appending loop builds exactly that pattern list |
| ScrapeImg.ValidateImageBelongsToFighter | Data/src/scrapeimg.py:183-213 | true iff URL and name are non-empty and some pattern is a substring of the upper-cased URL |
| ScrapeImg.BelongsToFighter | Data/src/scrapeimg.py:185-213 | no contract of its own; `ValidateImageBelongsToFighter` computes it and the lemmas below state it |
| ScrapeImg.NormalizeKeepsSpaces | Data/src/scrapeimg.py:189 | a name without whitespace still has none after normalisation |
| ScrapeImg.SingleWordNameRejected | Data/src/scrapeimg.py:193 | a name without whitespace is never validated, whatever the URL |
| ScrapeImg.SuperstringValidates | Data/src/scrapeimg.py:208-213 | a URL containing a validated URL is validated too |
| ScrapeImg.LastFirstValidates | Data/src/scrapeimg.py:195 | for "first last" in lower-case letters, a URL holding `LAST_FIRST` in any case validates |
| ScrapeImg.NameParts | Data/src/scrapeimg.py:189 | two lower-case words joined by one space split into those two |
| ScrapeImg.EnsureAbsoluteUrl | Data/src/scrapeimg.py:355-367 | '' stays ''; `//x` becomes `https://x`; an `http` URL is unchanged; every other URL goes to the base join |
| ScrapeImg.EnsureAbsoluteIdempotent | Data/src/scrapeimg.py:355-367 | a URL the function returns itself comes back unchanged the second time |

## Left out

- CSV parsing (`Papa.parse` with delimiter guessing, dynamic typing and empty-line skipping): its output is taken as given rows of keyed cells.
- The `fetch` and `Promise` plumbing, and the `getFallbackData` call: loading is modelled only as a success or failure outcome.
- `null` and `undefined` are both `Empty`. Of the operations the code applies, only `Number` (0 against NaN) and `String` (`"null"` against `"undefined"`) tell them apart. The model's `Number` of `Empty` is 0, which is right where the code applies it: `div_rank_career` is `null` when missing. The model's text of `Empty` is empty. The code never turns a missing cell into text: it first gives a default (`divisions || ""`), and React renders both as nothing.
- Cells.StringNumber: every non-blank text that reaches `Number` is taken as NaN. JavaScript reads some of the texts the CSV parser leaves as strings as numbers (`+5`, `0x10`, `Infinity`, padded numerals); those are not modelled.
- Cells.ParseIntText: reads decimal digits only. The code passes no radix, so JavaScript reads a text starting with `0x` or `0X` as hexadecimal; the model reads it as 0.
- Text.NumberText: `String(x)` is exact for integers below 10^21 in magnitude. JavaScript writes larger integers in exponent form (`"1e+21"`), which the model does not. For other numbers it prints at most six decimals and not JavaScript's shortest round-trip form.
- Cells.ParseInt: a number is truncated towards zero. JavaScript's `parseInt` first turns the number into text, so a number whose text uses an exponent (magnitude at least 10^21, or below 10^-6 and non-zero) reads as its leading digit: `parseInt(1e21)` is 1 and `parseInt(5e-7)` is 5. The model gives 10^21 and 0. This reaches the `ufcrecord` parts only for such counts.
- Floating point: the ` * 0.8` and ` * 0.9` of the finishing group are computed on reals, not IEEE doubles.
- Unicode case mapping: `toLowerCase`, `toUpperCase`, `lower` and `upper` are ASCII-only.
- FighterData.SortKey: a string rank is given the 999 fallback. For such a rank the JavaScript comparator returns NaN and the resulting order depends on the engine.
- A name, nickname or weight class that the CSV delivers as a number is kept as its text. The source's `.toLowerCase` and `.split` would throw on a number.
- Home.Paginator.Scroll: the handler is modelled as seeing the current state. The listener's stale closure between a state change and the next effect run is not modelled.
- Browser timers and window metrics: the 300 ms `setTimeout` is an explicit call, and the scroll position (`pageYOffset || scrollTop`), the window height and the document height are parameters.
- `FighterPage.jsx` builds `overallChartData` and `getDetailedStats` from `fighter` (lines 31-40) before its not-found check (line 49), so an unknown slug would throw. The lookup returns an option, and that throw is not modelled.
- FighterPage.Lookup covers only the cell-valued keys and the key the record lacks. Reading the text-valued fields by name is not needed by any label.
- The `#` rank cells of the profile page (`pfp_rank_career` and `rank`) and `overall` are displayed unchanged and not modelled.
- Rendering: JSX layout, recharts, icons, CSS other than the badge strings, routing, and `FighterCard`'s `isHovered` hover state.
- The scraper's I/O: HTTP, HTML parsing, the image-priority chain, pagination, sleeping, export and logging.
- The normaliser's console output: `console.log` of the parse results, `console.warn` of the parsing errors, and the two `console.error` calls on a parse or load failure (`UFCCardsFullStack/src/components/FighterData.jsx` lines 42-44, 122 and 128). They change no state.
- The `urljoin` branches of `ensure_absolute_url` are a library call: the model returns the path handed to the base join (`JoinWithBase`) and does not compute it.
- `Searching.jsx` renders the lists it is handed and has no logic of its own.

## Findings

| source | as written | input that shows it | evidently intended | confidence | as-written member | corrected member |
|---|---|---|---|---|---|---|
| UFCCardsFullStack/src/pages/FighterPage.jsx:177-179 | the Highest Divisional Rank cell reads `fighter.div_rank`, a key the normalised record never has (the normaliser stores it as `div_rank_career`), so every non-champion shows "Unranked" | a fighter with `div_rank_career` = 3 | read `fighter.div_rank_career`, as the Career Division Rank cell does, and show 3 | not executed | FighterPage.HighestRankCounterexample | FighterPage.HighestRankLabel |
