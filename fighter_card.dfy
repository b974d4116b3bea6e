/** A card of the home page grid: the weight-class badge colour, the
    title-cased weight class, the rank shown for the selected category and
    the five-axis radar chart of the headline stats. */
module FighterCard {
  import opened Text
  import opened Cells
  import opened FighterData
  import opened Titles

  const DefaultBadge: string := "bg-gray-500 text-white"

  /** The badge classes of the named weight classes, compared exactly
      (case-sensitively); any other value gets the grey default. */
  function Badge(weightClass: string): string {
    if weightClass == "heavyweight" then "bg-red-500 text-white"
    else if weightClass == "light heavyweight" then "bg-orange-500 text-white"
    else if weightClass == "middleweight" then "bg-yellow-500 text-black"
    else if weightClass == "welterweight" then "bg-green-500 text-white"
    else if weightClass == "lightweight" then "bg-blue-500 text-white"
    else if weightClass == "featherweight" then "bg-indigo-500 text-white"
    else if weightClass == "bantamweight" then "bg-purple-500 text-white"
    else if weightClass == "flyweight" then "bg-pink-500 text-white"
    else if weightClass == "women's featherweight" then "bg-fuchsia-500 text-white"
    else if weightClass == "women's bantamweight" then "bg-rose-500 text-white"
    else if weightClass == "women's flyweight" then "bg-teal-500 text-white"
    else if weightClass == "women's strawweight" then "bg-cyan-500 text-white"
    else DefaultBadge
  }

  /** The badges of the selector's weight classes after the first (the
      all-classes sentinel), in selector order. */
  const ClassBadges: seq<string> := [
    "bg-red-500 text-white", "bg-orange-500 text-white", "bg-yellow-500 text-black",
    "bg-green-500 text-white", "bg-blue-500 text-white", "bg-indigo-500 text-white",
    "bg-purple-500 text-white", "bg-pink-500 text-white", "bg-teal-500 text-white",
    "bg-rose-500 text-white", "bg-fuchsia-500 text-white", "bg-cyan-500 text-white"]

  lemma BadgesOfClasses()
    ensures forall i :: 1 <= i < |WeightClasses| ==> Badge(WeightClasses[i]) == ClassBadges[i - 1]
  {
  }

  /** Every named weight class has a badge of its own, different from the
      others and from the default. */
  lemma BadgesDistinct()
    ensures forall i :: 1 <= i < |WeightClasses| ==> Badge(WeightClasses[i]) != DefaultBadge
    ensures forall i, j :: 1 <= i < j < |WeightClasses| ==> Badge(WeightClasses[i]) != Badge(WeightClasses[j])
  {
    BadgesOfClasses();
    assert forall i, j :: 0 <= i < j < |ClassBadges| ==> ClassBadges[i] != ClassBadges[j];
  }

  /** Any value that is not one of those twelve, "Unknown" and the sentinel
      included, gets the default. */
  lemma BadgeDefault(weightClass: string)
    requires forall i :: 1 <= i < |WeightClasses| ==> weightClass != WeightClasses[i]
    ensures Badge(weightClass) == DefaultBadge
  {
    assert weightClass != WeightClasses[1] && weightClass != WeightClasses[2] && weightClass != WeightClasses[3];
    assert weightClass != WeightClasses[4] && weightClass != WeightClasses[5] && weightClass != WeightClasses[6];
    assert weightClass != WeightClasses[7] && weightClass != WeightClasses[8] && weightClass != WeightClasses[9];
    assert weightClass != WeightClasses[10] && weightClass != WeightClasses[11] && weightClass != WeightClasses[12];
  }

  /** The badge text: each word's first character upper-cased, the rest
      kept as it is. */
  function WeightClassTitle(weightClass: string): string {
    TitleCase(weightClass, false)
  }

  /** The badge text has the length and the words of the weight class; only
      the first character of each word may change, to its upper case. */
  lemma WeightClassTitleShape(weightClass: string)
    ensures var r := WeightClassTitle(weightClass);
      && |r| == |weightClass|
      && (forall i :: 0 <= i < |r| ==>
            r[i] == if i == 0 || weightClass[i - 1] == ' ' then Upper(weightClass[i]) else weightClass[i])
      && |Split(r, ' ')| == |Split(weightClass, ' ')|
  {
    var r := WeightClassTitle(weightClass);
    TitleCaseChars(weightClass, false);
    TitleCaseWordCount(weightClass, false);
    forall i | 0 <= i < |r|
      ensures r[i] == if i == 0 || weightClass[i - 1] == ' ' then Upper(weightClass[i]) else weightClass[i]
    {
      assert RestChar(weightClass[i], false) == weightClass[i];
    }
  }

  /** The rank after `#`: the pound-for-pound rank when that category is
      selected, the division rank otherwise. */
  function CardRank(f: Fighter, selectedWeightClass: string): Cell {
    if selectedWeightClass == AllClasses then f.pfprank else f.rank
  }

  /** On a normalised record the card always shows a rank: the CSV value
      of the selected rank column when it is set, the row's 1-based
      position otherwise. */
  lemma CardRankOfRow(row: map<string, Cell>, index: nat, selectedWeightClass: string)
    ensures var key := if selectedWeightClass == AllClasses then "pfprank" else "rank";
      var shown := CardRank(ToFighter(row, index), selectedWeightClass);
      && Truthy(shown)
      && shown == if Truthy(Get(row, key)) then Get(row, key) else Num((index + 1) as real)
  {
  }

  datatype CategoryPoint = CategoryPoint(category: string, value: Rounded, fullMark: nat)

  const ChartCategories: seq<string> := ["Striking", "Wrestling", "Grappling", "Defense", "Finishing"]

  /** `overallChartData`: the five headline stats on a 0-100 scale. The
      profile page builds the same list. */
  function OverallChart(f: Fighter): (r: seq<CategoryPoint>)
    ensures |r| == |ChartCategories|
    ensures forall i :: 0 <= i < |r| ==> r[i].category == ChartCategories[i] && r[i].fullMark == 100
  {
    [
      CategoryPoint("Striking", f.striking, 100),
      CategoryPoint("Wrestling", f.wrestling, 100),
      CategoryPoint("Grappling", f.grappling, 100),
      CategoryPoint("Defense", f.defense, 100),
      CategoryPoint("Finishing", f.finishing, 100)
    ]
  }

  /** The CSV columns behind the chart's axes. */
  const ChartColumns: seq<string> := ["striking", "wrestling", "grappling", "defense", "finishing"]

  /** On a normalised record each axis shows its CSV column rounded, 75 when
      the column is missing, empty or zero. */
  lemma ChartOfRow(row: map<string, Cell>, index: nat)
    ensures forall i :: 0 <= i < 5 ==>
      OverallChart(ToFighter(row, index))[i].value == RoundStat(Get(row, ChartColumns[i]))
    ensures forall i :: 0 <= i < 5 && !Truthy(Get(row, ChartColumns[i])) ==>
      OverallChart(ToFighter(row, index))[i].value == Whole(75)
  {
    var f := ToFighter(row, index);
    var values := [f.striking, f.wrestling, f.grappling, f.defense, f.finishing];
    assert values == [RoundStat(Get(row, "striking")), RoundStat(Get(row, "wrestling")),
      RoundStat(Get(row, "grappling")), RoundStat(Get(row, "defense")), RoundStat(Get(row, "finishing"))];
    forall i | 0 <= i < 5 ensures OverallChart(f)[i].value == RoundStat(Get(row, ChartColumns[i])) {
      assert OverallChart(f)[i].value == values[i];
    }
  }
}
