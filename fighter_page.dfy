/** The fighter profile page: the lookup of the fighter named by the URL
    slug, the labels derived from the career division rank, the division
    text, the per-group radar chart data and the percent suffix of the metric
    lines. */
module FighterPage {
  import opened Text
  import opened Cells
  import opened FighterData
  import opened Titles
  import Sequences
  import Home

  // ---------------------------------------------------------------------
  // findFighterBySlug

  /** `i` is the first position whose fighter has the slug. */
  ghost predicate FirstWithSlug(all: seq<Fighter>, slug: string, i: int) {
    && 0 <= i < |all|
    && Home.Slug(all[i].name) == slug
    && forall j :: 0 <= j < i ==> Home.Slug(all[j].name) != slug
  }

  /** `allFighters.find(f => createSlug(f.name) === slug)`: the first fighter
      whose slug matches, none when no slug matches. */
  function FindBySlug(all: seq<Fighter>, slug: string): (r: Option<Fighter>)
    ensures r.None? <==> forall i :: 0 <= i < |all| ==> Home.Slug(all[i].name) != slug
    ensures r.Some? ==> exists i :: FirstWithSlug(all, slug, i) && all[i] == r.value
  {
    if all == [] then None
    else if Home.Slug(all[0].name) == slug then
      assert FirstWithSlug(all, slug, 0);
      Some(all[0])
    else
      var r := FindBySlug(all[1..], slug);
      assert r.Some? ==> exists i :: FirstWithSlug(all, slug, i) && all[i] == r.value by {
        if r.Some? {
          var i :| FirstWithSlug(all[1..], slug, i) && all[1..][i] == r.value;
          assert FirstWithSlug(all, slug, i + 1);
        }
      }
      r
  }

  /** The page a card click opens shows that card's fighter, unless an
      earlier fighter has the same slug; in every case it shows a fighter
      with that slug. */
  lemma FindCardTarget(all: seq<Fighter>, i: int)
    requires 0 <= i < |all|
    ensures FindBySlug(all, Home.Slug(all[i].name)).Some?
    ensures Home.Slug(FindBySlug(all, Home.Slug(all[i].name)).value.name) == Home.Slug(all[i].name)
    ensures (forall j :: 0 <= j < i ==> Home.Slug(all[j].name) != Home.Slug(all[i].name)) ==>
      FindBySlug(all, Home.Slug(all[i].name)) == Some(all[i])
  {
    FindSlugAt(all, Home.Slug(all[i].name), i);
  }

  /** The lookup of a slug that the fighter at `i` has. */
  lemma FindSlugAt(all: seq<Fighter>, slug: string, i: int)
    requires 0 <= i < |all| && Home.Slug(all[i].name) == slug
    ensures FindBySlug(all, slug).Some? && Home.Slug(FindBySlug(all, slug).value.name) == slug
    ensures (forall j :: 0 <= j < i ==> Home.Slug(all[j].name) != slug) ==> FindBySlug(all, slug) == Some(all[i])
    decreases |all|
  {
    if Home.Slug(all[0].name) != slug {
      assert all[1..][i - 1] == all[i];
      FindSlugAt(all[1..], slug, i - 1);
      if forall j :: 0 <= j < i ==> Home.Slug(all[j].name) != slug {
        assert forall j :: 0 <= j < i - 1 ==> all[1..][j] == all[j + 1];
      }
    }
  }

  // ---------------------------------------------------------------------
  // Labels derived from the career division rank

  /** `Number(c)`, `None` standing for NaN. An empty value of the record's
      rank fields is the `null` the normaliser writes, and `Number(null)` is 0. */
  function ToNumber(c: Cell): Option<real> {
    match c
    case Empty => Some(0.0)
    case Num(r) => Some(r)
    case Str(s) => StringNumber(s)
  }

  /** `Number(fighter.div_rank_career) === 0`. */
  predicate IsChampion(f: Fighter) {
    ToNumber(f.divRankCareer) == Some(0.0)
  }

  /** The keys of the record the normaliser builds. */
  const RecordKeys: set<string> := {
    "name", "nickname", "stance", "overall", "pfprank", "rank", "pfp_rank_career",
    "div_rank_career", "titlefights_wins", "divisions", "weight_class", "record",
    "ufcrecord", "striking", "wrestling", "grappling", "defense", "career_score",
    "finishing", "dominance", "dob", "image", "striking_details", "wrestling_details",
    "grappling_details", "defense_details"}

  /** The keys whose values are cells. */
  const CellKeys: set<string> := {
    "stance", "overall", "pfprank", "rank", "pfp_rank_career", "div_rank_career",
    "titlefights_wins", "divisions", "career_score", "dob", "image"}

  /** `fighter[key]` for a cell-valued key; `undefined` (Empty) for a key the
      record does not have. */
  function Lookup(f: Fighter, key: string): (c: Cell)
    requires key in CellKeys || key !in RecordKeys
    ensures key !in RecordKeys ==> c == Empty
  {
    match key
    case "stance" => f.stance
    case "overall" => f.overall
    case "pfprank" => f.pfprank
    case "rank" => f.rank
    case "pfp_rank_career" => f.pfpRankCareer
    case "div_rank_career" => f.divRankCareer
    case "titlefights_wins" => f.titleFightWins
    case "divisions" => f.divisions
    case "career_score" => f.careerScore
    case "dob" => f.dob
    case "image" => f.image
    case _ => Empty
  }

  /** `c ?? d`: the default only for `null` and `undefined`. */
  function Nullish(c: Cell, d: Cell): Cell {
    if c == Empty then d else c
  }

  /** The Title Wins cell. */
  function TitleWinsLabel(f: Fighter): Cell {
    if IsChampion(f) then f.titleFightWins else Str("N/A")
  }

  /** `Number(div_rank_career) === 0 ? "UFC Champion" : fighter[key] ?? fallback`,
      the shape of both rank labels. */
  function RankLabel(f: Fighter, key: string, fallback: string): Cell
    requires key in CellKeys || key !in RecordKeys
  {
    if IsChampion(f) then Str("UFC Champion") else Nullish(Lookup(f, key), Str(fallback))
  }

  /** The Career Division Rank cell. */
  function CareerRankLabel(f: Fighter): Cell {
    RankLabel(f, "div_rank_career", "N/A")
  }

  /** The Highest Divisional Rank cell as written: it reads `div_rank`, a key
      the normalised record does not have. */
  function HighestRankLabelAsWritten(f: Fighter): Cell {
    RankLabel(f, "div_rank", "Unranked")
  }

  /** The Highest Divisional Rank cell reading the record's own key. */
  function HighestRankLabel(f: Fighter): Cell {
    RankLabel(f, "div_rank_career", "Unranked")
  }

  /** On a normalised record: the fighter counts as champion exactly when the
      CSV `div_rank` is missing, zero, empty or blank; the title wins show
      only then, and otherwise the career rank label shows the CSV value. */
  lemma LabelsOfRow(row: map<string, Cell>, index: nat)
    ensures var d := Get(row, "div_rank");
      IsChampion(ToFighter(row, index)) <==> !Truthy(d) || (d.Str? && Trim(d.s) == "")
    ensures var f := ToFighter(row, index);
      TitleWinsLabel(f) == if IsChampion(f) then Or(Get(row, "Titlefighs_wins"), Num(0.0)) else Str("N/A")
    ensures var f := ToFighter(row, index);
      CareerRankLabel(f) == if IsChampion(f) then Str("UFC Champion") else Get(row, "div_rank")
  {
    var f := ToFighter(row, index);
    CareerFieldsOfRow(row, index);
    ChampionByCareerRank(f);
  }

  /** The two record fields the labels read, as the normaliser fills them. */
  lemma CareerFieldsOfRow(row: map<string, Cell>, index: nat)
    ensures ToFighter(row, index).divRankCareer == Or(Get(row, "div_rank"), Empty)
    ensures ToFighter(row, index).titleFightWins == Or(Get(row, "Titlefighs_wins"), Num(0.0))
  {
  }

  /** A fighter is champion exactly when the career rank is falsy or a
      blank string. */
  lemma ChampionByCareerRank(f: Fighter)
    ensures IsChampion(f) <==>
      !Truthy(f.divRankCareer) || (f.divRankCareer.Str? && Trim(f.divRankCareer.s) == "")
  {
  }

  /** The fallbacks of the rank labels are never shown: an absent career
      rank already counts as champion. With the record's own key the highest
      rank label is the career rank label. */
  lemma RankFallbacksUnreachable(f: Fighter)
    ensures CareerRankLabel(f) == if IsChampion(f) then Str("UFC Champion") else f.divRankCareer
    ensures HighestRankLabel(f) == CareerRankLabel(f)
  {
    LookupCareerRank(f);
  }

  lemma LookupCareerRank(f: Fighter)
    ensures Lookup(f, "div_rank_career") == f.divRankCareer
  {
  }

  /** As written, the highest rank label ignores the record: a fighter who
      is not champion is always "Unranked". */
  lemma HighestRankAsWrittenIgnoresRank(f: Fighter)
    ensures HighestRankLabelAsWritten(f) == if IsChampion(f) then Str("UFC Champion") else Str("Unranked")
  {
    assert "div_rank" !in RecordKeys;
  }

  /** A fighter ranked 3rd in their division: the label as written says
      "Unranked", the intended label says 3. */
  lemma HighestRankCounterexample(f: Fighter)
    requires f.divRankCareer == Num(3.0)
    ensures HighestRankLabelAsWritten(f) == Str("Unranked")
    ensures HighestRankLabel(f) == Num(3.0)
  {
    HighestRankAsWrittenIgnoresRank(f);
  }

  // ---------------------------------------------------------------------
  // Division text

  /** The characters the division text drops: `[`, `]`, `'` and `"`. */
  predicate Kept(c: char) {
    !(c == '[' || c == ']' || c == '\'' || c == '"')
  }

  /** `.replace(/[\[\]'"]+/g, "")`. */
  function StripBrackets(s: string): string {
    Sequences.Select(s, Kept)
  }

  /** The Weight Class cell: `String(divisions)` without brackets and quotes,
      each space-separated word capitalised with the rest lower-cased. */
  function DivisionsText(divisions: Cell): string {
    TitleDivisions(CellText(divisions))
  }

  /** The same chain on the text `String(divisions)` gives. */
  function TitleDivisions(s: string): string {
    TitleCase(StripBrackets(s), true)
  }

  /** The bracket removal keeps every other character, as often as it occurs
      and in order, and nothing else. */
  lemma StripBracketsExact(s: string)
    ensures Sequences.IsSubsequence(StripBrackets(s), s)
    ensures forall c :: multiset(StripBrackets(s))[c] == if Kept(c) then multiset(s)[c] else 0
  {
    Sequences.SelectIsSubsequence(s, Kept);
    Sequences.SelectMultiset(s, Kept);
  }

  /** The division text holds no bracket or quote, has the characters of the
      stripped text up to case, the same words, each with its first character
      upper-cased and the rest lower-cased. */
  lemma DivisionsTextShape(s: string)
    ensures var t, r := StripBrackets(s), TitleDivisions(s);
      && |r| == |t|
      && (forall i :: 0 <= i < |r| ==> Kept(r[i]))
      && (|t| > 0 ==> r[0] == Upper(t[0]))
      && (forall i :: 0 < i < |t| && t[i - 1] == ' ' ==> r[i] == Upper(t[i]))
      && (forall i :: 0 < i < |t| && t[i - 1] != ' ' ==> r[i] == Lower(t[i]))
      && LowerAll(r) == LowerAll(t)
      && |Split(r, ' ')| == |Split(t, ' ')|
  {
    NoBracketsTitled(StripBrackets(s));
  }

  /** Title-casing a text without brackets or quotes, the rest lower-cased. */
  lemma NoBracketsTitled(t: string)
    requires forall i :: 0 <= i < |t| ==> Kept(t[i])
    ensures var r := TitleCase(t, true);
      && |r| == |t|
      && (forall i :: 0 <= i < |r| ==> Kept(r[i]))
      && (|t| > 0 ==> r[0] == Upper(t[0]))
      && (forall i :: 0 < i < |t| && t[i - 1] == ' ' ==> r[i] == Upper(t[i]))
      && (forall i :: 0 < i < |t| && t[i - 1] != ' ' ==> r[i] == Lower(t[i]))
      && LowerAll(r) == LowerAll(t)
      && |Split(r, ' ')| == |Split(t, ' ')|
  {
    TitleCaseChars(t, true);
    TitleCaseIgnoringCase(t, true);
    TitleCaseWordCount(t, true);
    TitleCaseIsTitleChars(t, true);
    var r, ref := TitleCase(t, true), TitleChars(t, true);
    forall i | 0 <= i < |r| ensures Kept(r[i]) {
      assert Kept(t[i]);
    }
    forall i | 0 <= i < |t| && (i == 0 || t[i - 1] == ' ') ensures r[i] == Upper(t[i]) {
      assert r[i] == ref[i];
    }
    assert |t| > 0 ==> r[0] == Upper(t[0]);
    forall i | 0 < i < |t| && t[i - 1] != ' ' ensures r[i] == Lower(t[i]) {
      assert r[i] == ref[i] == RestChar(t[i], true);
    }
  }

  // ---------------------------------------------------------------------
  // createDetailChart

  datatype MetricPoint = MetricPoint(metric: string, value: Cell, fullMark: nat)

  /** `stats.map(s => ({metric: s.metric, value: s.value, fullMark: 100}))`. */
  function DetailChart(stats: seq<Metric>): (r: seq<MetricPoint>)
    ensures |r| == |stats|
    ensures forall i :: 0 <= i < |stats| ==>
      r[i].metric == stats[i].metric && r[i].value == stats[i].value && r[i].fullMark == 100
  {
    if stats == [] then []
    else [MetricPoint(stats[0].metric, stats[0].value, 100)] + DetailChart(stats[1..])
  }

  /** Each group's chart has its four metrics in order, every value present,
      and the scale 100 whatever the metric's own maximum. */
  lemma DetailChartsOfFighter(f: Fighter)
    ensures forall g :: 0 <= g < 5 ==> |DetailChart(DetailedStats(f)[g].metrics)| == 4
    ensures forall g, m :: 0 <= g < 5 && 0 <= m < 4 ==>
      var p := DetailChart(DetailedStats(f)[g].metrics)[m];
      p.metric == MetricNames[g][m] && p.value != Empty && p.fullMark == 100
  {
    DetailedStatsLayout(f);
  }

  // ---------------------------------------------------------------------
  // Metric lines

  /** The `%` shown after a metric whose name mentions accuracy, defense or
      resistance. */
  function PercentSuffix(metric: string): string {
    if Contains(metric, "Accuracy") || Contains(metric, "Defense") || Contains(metric, "Resistance")
    then "%" else ""
  }

  /** `{stat.value}{suffix}`. */
  function MetricLine(m: Metric): (line: string)
    ensures EndsWith(line, PercentSuffix(m.metric))
    ensures StartsWith(line, CellText(m.value))
  {
    CellText(m.value) + PercentSuffix(m.metric)
  }

  /** The metrics shown as percentages. */
  const PercentMetrics: set<string> := {"Accuracy", "TD Accuracy", "Sub Resistance", "Strike Defense", "TD Defense"}

  lemma SuffixAt(n: string, p: string, i: int)
    requires p == "Accuracy" || p == "Defense" || p == "Resistance"
    requires OccursAt(n, p, i)
    ensures PercentSuffix(n) == "%"
  {
    ContainsIff(n, p);
  }

  lemma NoSuffix(n: string, a: char, d: char, r: char)
    requires a in "Accuracy" && a !in n
    requires d in "Defense" && d !in n
    requires r in "Resistance" && r !in n
    ensures PercentSuffix(n) == ""
  {
    MissingChar(n, "Accuracy", a);
    MissingChar(n, "Defense", d);
    MissingChar(n, "Resistance", r);
  }

  /** Of the twenty detail metrics exactly five carry the `%`: the two
      accuracies, the two defenses and the submission resistance. */
  lemma PercentMetricNames()
    ensures forall g, m :: 0 <= g < 5 && 0 <= m < 4 ==>
      PercentSuffix(MetricNames[g][m]) == if MetricNames[g][m] in PercentMetrics then "%" else ""
  {
    forall g, m | 0 <= g < 5 && 0 <= m < 4
      ensures PercentSuffix(MetricNames[g][m]) == if MetricNames[g][m] in PercentMetrics then "%" else ""
    {
      if g == 0 {
        PercentGroup0(m);
      } else if g == 1 {
        PercentGroup1(m);
      } else if g == 2 {
        PercentGroup2(m);
      } else if g == 3 {
        PercentGroup3(m);
      } else {
        PercentGroup4(m);
      }
    }
  }

  lemma PercentGroup0(m: int)
    requires 0 <= m < 4
    ensures PercentSuffix(MetricNames[0][m]) == if m == 1 then "%" else ""
  {
    SuffixOfStrikesPerMin(); SuffixOfAccuracy(); SuffixOfKnockdownsPerMin(); SuffixOfSigAttempts();
  }

  lemma PercentGroup1(m: int)
    requires 0 <= m < 4
    ensures PercentSuffix(MetricNames[1][m]) == if m == 1 then "%" else ""
  {
    SuffixOfTdLanded(); SuffixOfTdAccuracy(); SuffixOfControlTime(); SuffixOfTdAttempts();
  }

  lemma PercentGroup2(m: int)
    requires 0 <= m < 4
    ensures PercentSuffix(MetricNames[2][m]) == if m == 3 then "%" else ""
  {
    SuffixOfTotalSubs(); SuffixOfSubAverage(); SuffixOfSubAttempts(); SuffixOfSubResistance();
  }

  lemma PercentGroup3(m: int)
    requires 0 <= m < 4
    ensures PercentSuffix(MetricNames[3][m]) == if m == 0 || m == 2 then "%" else ""
  {
    SuffixOfStrikeDefense(); SuffixOfDurability(); SuffixOfTdDefense(); SuffixOfStrikeAbsorb();
  }

  lemma PercentGroup4(m: int)
    requires 0 <= m < 4
    ensures PercentSuffix(MetricNames[4][m]) == ""
  {
    SuffixOfKoPower(); SuffixOfSubThreat(); SuffixOfDominance(); SuffixOfFinishRate();
  }

  // One lemma per metric name: each proof evaluates the name literal, and
  // those evaluations are cheap only one at a time.

  lemma SuffixOfStrikesPerMin()
    ensures PercentSuffix("Strikes/Min") == ""
  {
    NoSuffix("Strikes/Min", 'A', 'D', 'R');
  }

  lemma SuffixOfAccuracy()
    ensures PercentSuffix("Accuracy") == "%"
  {
    SuffixAt("Accuracy", "Accuracy", 0);
  }

  lemma SuffixOfKnockdownsPerMin()
    ensures PercentSuffix("Knockdowns/Min") == ""
  {
    NoSuffix("Knockdowns/Min", 'A', 'D', 'R');
  }

  lemma SuffixOfSigAttempts()
    ensures PercentSuffix("Sig Attempts") == ""
  {
    NoSuffix("Sig Attempts", 'c', 'D', 'R');
  }

  lemma SuffixOfTdLanded()
    ensures PercentSuffix("TD Landed") == ""
  {
    NoSuffix("TD Landed", 'A', 'f', 'R');
  }

  lemma SuffixOfTdAccuracy()
    ensures PercentSuffix("TD Accuracy") == "%"
  {
    SuffixAt("TD Accuracy", "Accuracy", 3);
  }

  lemma SuffixOfControlTime()
    ensures PercentSuffix("Control Time") == ""
  {
    NoSuffix("Control Time", 'A', 'D', 'R');
  }

  lemma SuffixOfTdAttempts()
    ensures PercentSuffix("TD Attempts") == ""
  {
    NoSuffix("TD Attempts", 'c', 'f', 'R');
  }

  lemma SuffixOfTotalSubs()
    ensures PercentSuffix("Total Subs") == ""
  {
    NoSuffix("Total Subs", 'A', 'D', 'R');
  }

  lemma SuffixOfSubAverage()
    ensures PercentSuffix("Sub Average") == ""
  {
    NoSuffix("Sub Average", 'c', 'D', 'R');
  }

  lemma SuffixOfSubAttempts()
    ensures PercentSuffix("Sub Attempts") == ""
  {
    NoSuffix("Sub Attempts", 'c', 'D', 'R');
  }

  lemma SuffixOfSubResistance()
    ensures PercentSuffix("Sub Resistance") == "%"
  {
    SuffixAt("Sub Resistance", "Resistance", 4);
  }

  lemma SuffixOfStrikeDefense()
    ensures PercentSuffix("Strike Defense") == "%"
  {
    SuffixAt("Strike Defense", "Defense", 7);
  }

  lemma SuffixOfDurability()
    ensures PercentSuffix("Durability") == ""
  {
    NoSuffix("Durability", 'A', 'e', 'R');
  }

  lemma SuffixOfTdDefense()
    ensures PercentSuffix("TD Defense") == "%"
  {
    SuffixAt("TD Defense", "Defense", 3);
  }

  lemma SuffixOfStrikeAbsorb()
    ensures PercentSuffix("Strike Absorb") == ""
  {
    NoSuffix("Strike Absorb", 'c', 'D', 'R');
  }

  lemma SuffixOfKoPower()
    ensures PercentSuffix("KO Power") == ""
  {
    NoSuffix("KO Power", 'A', 'D', 'R');
  }

  lemma SuffixOfSubThreat()
    ensures PercentSuffix("Sub Threat") == ""
  {
    NoSuffix("Sub Threat", 'A', 'D', 'R');
  }

  lemma SuffixOfDominance()
    ensures PercentSuffix("Dominance") == ""
  {
    NoSuffix("Dominance", 'A', 'f', 'R');
  }

  lemma SuffixOfFinishRate()
    ensures PercentSuffix("Finish Rate") == ""
  {
    NoSuffix("Finish Rate", 'A', 'D', 'c');
  }

  /** So on the page, a metric line ends in `%` exactly for those five. */
  lemma PercentLines(f: Fighter)
    ensures forall g, m :: 0 <= g < 5 && 0 <= m < 4 ==>
      var metric := DetailedStats(f)[g].metrics[m];
      MetricLine(metric) == CellText(metric.value) + (if metric.metric in PercentMetrics then "%" else "")
  {
    DetailedStatsLayout(f);
    PercentMetricNames();
  }
}
