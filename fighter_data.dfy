/** The normaliser of `loadFighterData`: every parsed CSV row becomes one
    fixed-shape fighter record with JavaScript `||` defaults, records without
    a name are dropped, and the rest are sorted in place, stably, by rank.
    Also the weight-class list and `getDetailedStats`. */
module FighterData {
  import opened Text
  import opened Cells
  import opened Sequences
  import opened Sorting

  /** The category selector's values in display order. The first one is the
      sentinel that means "every weight class". */
  const WeightClasses: seq<string> := [
    "Pound for Pound",
    "heavyweight",
    "light heavyweight",
    "middleweight",
    "welterweight",
    "lightweight",
    "featherweight",
    "bantamweight",
    "flyweight",
    "women's flyweight",
    "women's bantamweight",
    "women's featherweight",
    "women's strawweight"
  ]

  const AllClasses: string := "Pound for Pound"

  /** One parsed row: header keys, untrimmed, with their cells, in the order
      `Object.keys` lists them. */
  type RawRow = seq<(string, Cell)>

  datatype StrikingDetails = StrikingDetails(splm: Cell, stracc: Cell, kd: Cell, sigatt: Cell)
  datatype WrestlingDetails = WrestlingDetails(tdl: Cell, tdavg: Cell, ctrl: Cell, tatt: Cell)
  datatype GrapplingDetails = GrapplingDetails(tsub: Cell, subavg: Cell, subatt: Cell, sublosses: Cell)
  datatype DefenseDetails = DefenseDetails(strdef: Cell, dur: Cell, takdef: Cell, strabs: Cell)

  /** The canonical fighter record. */
  datatype Fighter = Fighter(
    name: string,
    nickname: string,
    stance: Cell,
    overall: Cell,
    pfprank: Cell,
    rank: Cell,
    pfpRankCareer: Cell,
    divRankCareer: Cell,
    titleFightWins: Cell,
    divisions: Cell,
    weightClass: string,
    record: string,
    ufcRecord: string,
    striking: Rounded,
    wrestling: Rounded,
    grappling: Rounded,
    defense: Rounded,
    careerScore: Cell,
    finishing: Rounded,
    dominance: Rounded,
    dob: Cell,
    image: Cell,
    strikingDetails: StrikingDetails,
    wrestlingDetails: WrestlingDetails,
    grapplingDetails: GrapplingDetails,
    defenseDetails: DefenseDetails)

  /** `cleanRow.key`: the cell, or `undefined` when the column is absent. */
  function Get(row: map<string, Cell>, key: string): Cell {
    if key in row then row[key] else Empty
  }

  // ---------------------------------------------------------------------
  // Header-key trimming

  /** The dictionary built from `entries` by storing each value under the
      key `key` makes of its name, a later entry overwriting an earlier one
      with the same key. */
  function Rekey<V>(entries: seq<(string, V)>, key: string -> string): map<string, V>
    decreases |entries|
  {
    if entries == [] then map[]
    else Rekey(entries[..|entries| - 1], key)[key(entries[|entries| - 1].0) := entries[|entries| - 1].1]
  }

  /** The dictionary the `forEach` over `Object.keys(row)` builds: each
      header key trimmed. */
  function CleanMap(row: RawRow): map<string, Cell> {
    Rekey(row, Trim)
  }

  /** Entry `i` is the last one whose name `key` maps to `k`. */
  ghost predicate IsLastWithKey<V>(entries: seq<(string, V)>, key: string -> string, k: string, i: int) {
    0 <= i < |entries| && key(entries[i].0) == k
    && forall j :: i < j < |entries| ==> key(entries[j].0) != k
  }

  lemma RekeySnoc<V>(entries: seq<(string, V)>, key: string -> string, i: int)
    requires 0 <= i < |entries|
    ensures Rekey(entries[..i + 1], key) == Rekey(entries[..i], key)[key(entries[i].0) := entries[i].1]
  {
    assert entries[..i + 1][..i] == entries[..i];
  }

  /** Every entry's key is present, and nothing else is. */
  lemma {:induction false} RekeyKeys<V>(entries: seq<(string, V)>, key: string -> string)
    ensures forall i :: 0 <= i < |entries| ==> key(entries[i].0) in Rekey(entries, key)
    ensures forall k :: k in Rekey(entries, key) ==>
      exists i :: 0 <= i < |entries| && key(entries[i].0) == k
    decreases |entries|
  {
    if entries != [] {
      var front := entries[..|entries| - 1];
      RekeyKeys(front, key);
      assert forall i :: 0 <= i < |front| ==> front[i] == entries[i];
    }
  }

  /** Each key holds the value of the last entry with that key. */
  lemma {:induction false} RekeyLastWins<V>(entries: seq<(string, V)>, key: string -> string, k: string)
    requires k in Rekey(entries, key)
    ensures exists i :: IsLastWithKey(entries, key, k, i) && Rekey(entries, key)[k] == entries[i].1
    decreases |entries|
  {
    var n := |entries|;
    var front := entries[..n - 1];
    if k == key(entries[n - 1].0) {
      assert IsLastWithKey(entries, key, k, n - 1);
    } else {
      RekeyLastWins(front, key, k);
      var i :| IsLastWithKey(front, key, k, i) && Rekey(front, key)[k] == front[i].1;
      assert entries[i] == front[i];
      assert IsLastWithKey(entries, key, k, i);
    }
  }

  /** `cleanRow` holds exactly the trimmed header keys, each with the cell of
      the last column whose header trims to it. */
  lemma CleanMapLastWins(row: RawRow)
    ensures forall i :: 0 <= i < |row| ==> Trim(row[i].0) in CleanMap(row)
    ensures forall k :: k in CleanMap(row) ==> exists i :: 0 <= i < |row| && Trim(row[i].0) == k
    ensures forall k :: k in CleanMap(row) ==>
      exists i :: IsLastWithKey(row, Trim, k, i) && CleanMap(row)[k] == row[i].1
  {
    RekeyKeys(row, Trim);
    forall k | k in CleanMap(row)
      ensures exists i :: IsLastWithKey(row, Trim, k, i) && CleanMap(row)[k] == row[i].1
    {
      RekeyLastWins(row, Trim, k);
    }
  }

  /** The `forEach` loop that fills `cleanRow`. */
  method CleanRow(row: RawRow) returns (clean: map<string, Cell>)
    ensures clean == CleanMap(row)
  {
    clean := map[];
    var i := 0;
    while i < |row|
      invariant 0 <= i <= |row|
      invariant clean == CleanMap(row[..i])
    {
      RekeySnoc(row, Trim, i);
      clean := clean[Trim(row[i].0) := row[i].1];
      i := i + 1;
    }
    assert row[..|row|] == row;
  }

  // ---------------------------------------------------------------------
  // Record strings

  /** `${wins || 0}-${losses || 0}-${draws || 0}`. */
  function RecordText(wins: Cell, losses: Cell, draws: Cell): string {
    CellText(Or(wins, Num(0.0))) + "-" + CellText(Or(losses, Num(0.0))) + "-" + CellText(Or(draws, Num(0.0)))
  }

  /** `${parseInt(w) || 0}-${parseInt(l) || 0}-${parseInt(d) || 0}` followed
      by `-${parseInt(nc)} NC` when `nc` is truthy. The source's trailing
      `|| 0` never applies: the text is never empty. */
  function UfcRecordText(w: Cell, l: Cell, d: Cell, nc: Cell): (r: string)
    ensures r != ""
  {
    IntText(ParseIntOrZero(w)) + "-" + IntText(ParseIntOrZero(l)) + "-" + IntText(ParseIntOrZero(d))
    + (if Truthy(nc) then "-" + ParsedText(nc) + " NC" else "")
  }

  /** Reads a `W-L-D` text back: three non-empty digit strings. */
  function ParseRecord(s: string): Option<(nat, nat, nat)> {
    var p := Split(s, '-');
    if |p| == 3 && p[0] != "" && p[1] != "" && p[2] != ""
       && AllDigits(p[0]) && AllDigits(p[1]) && AllDigits(p[2])
    then Some((DigitsValue(p[0]), DigitsValue(p[1]), DigitsValue(p[2])))
    else None
  }

  lemma DigitsHaveNoDash(s: string)
    requires AllDigits(s)
    ensures '-' !in s
  {
    forall i | 0 <= i < |s| ensures s[i] != '-' {
      assert IsDigit(s[i]);
    }
  }

  /** Three natural counts joined with `-` read back as themselves. */
  lemma CountsRoundTrip(a: nat, b: nat, c: nat)
    ensures ParseRecord(NatText(a) + "-" + NatText(b) + "-" + NatText(c)) == Some((a, b, c))
  {
    var ta, tb, tc := NatText(a), NatText(b), NatText(c);
    DigitsHaveNoDash(ta);
    DigitsHaveNoDash(tb);
    DigitsHaveNoDash(tc);
    var u := tb + ['-'] + tc;
    SplitNoSep(tc, '-');
    SplitFirst(tb, '-', tc);
    assert Split(u, '-') == [tb, tc];
    SplitFirst(ta, '-', u);
    assert ta + "-" + tb + "-" + tc == ta + ['-'] + u;
    assert Split(ta + "-" + tb + "-" + tc, '-') == [ta, tb, tc];
    DigitsValueNatText(a);
    DigitsValueNatText(b);
    DigitsValueNatText(c);
  }

  /** The text of a count cell that is empty, zero or a natural number. */
  lemma CountText(c: Cell, n: nat)
    requires c == Num(n as real) || (n == 0 && !Truthy(c))
    ensures CellText(Or(c, Num(0.0))) == NatText(n)
  {
  }

  /** `record` is `W-L-D` and reads back as the three counts, a missing or
      zero count reading as 0. */
  lemma RecordRoundTrip(wins: Cell, losses: Cell, draws: Cell, w: nat, l: nat, d: nat)
    requires wins == Num(w as real) || (w == 0 && !Truthy(wins))
    requires losses == Num(l as real) || (l == 0 && !Truthy(losses))
    requires draws == Num(d as real) || (d == 0 && !Truthy(draws))
    ensures ParseRecord(RecordText(wins, losses, draws)) == Some((w, l, d))
  {
    CountText(wins, w);
    CountText(losses, l);
    CountText(draws, d);
    CountsRoundTrip(w, l, d);
  }

  /** `parseInt(c) || 0` of a count cell that is empty, zero or a natural
      number, as text. */
  lemma ParsedCountText(c: Cell, n: nat)
    requires c == Num(n as real) || (n == 0 && !Truthy(c))
    ensures IntText(ParseIntOrZero(c)) == NatText(n)
  {
    if c.Num? {
      assert Truncate(c.n) == n;
    }
  }

  /** `ufcrecord` without no-contests is `W-L-D` and reads back as the three
      counts, a missing or zero count reading as 0. */
  lemma UfcRecordRoundTrip(wins: Cell, losses: Cell, draws: Cell, nc: Cell, w: nat, l: nat, d: nat)
    requires wins == Num(w as real) || (w == 0 && !Truthy(wins))
    requires losses == Num(l as real) || (l == 0 && !Truthy(losses))
    requires draws == Num(d as real) || (d == 0 && !Truthy(draws))
    requires !Truthy(nc)
    ensures UfcRecordText(wins, losses, draws, nc) == NatText(w) + "-" + NatText(l) + "-" + NatText(d)
    ensures ParseRecord(UfcRecordText(wins, losses, draws, nc)) == Some((w, l, d))
  {
    ParsedCountText(wins, w);
    ParsedCountText(losses, l);
    ParsedCountText(draws, d);
    CountsRoundTrip(w, l, d);
  }

  /** The no-contest text of `n > 0`: the cell is truthy and reads as `n`. */
  lemma NoContestCount(n: nat)
    requires n > 0
    ensures Truthy(Num(n as real)) && ParsedText(Num(n as real)) == NatText(n)
  {
    assert Truncate(n as real) == n;
  }

  /** With `n > 0` no-contests, `ufcrecord` is `W-L-D-N NC`. */
  lemma UfcRecordNoContests(wins: Cell, losses: Cell, draws: Cell, w: nat, l: nat, d: nat, n: nat)
    requires wins == Num(w as real) || (w == 0 && !Truthy(wins))
    requires losses == Num(l as real) || (l == 0 && !Truthy(losses))
    requires draws == Num(d as real) || (d == 0 && !Truthy(draws))
    requires n > 0
    ensures UfcRecordText(wins, losses, draws, Num(n as real))
      == NatText(w) + "-" + NatText(l) + "-" + NatText(d) + ("-" + NatText(n) + " NC")
  {
    ParsedCountText(wins, w);
    ParsedCountText(losses, l);
    ParsedCountText(draws, d);
    NoContestCount(n);
  }

  /** The text ends in `-N NC`, `N` being `parseInt` of the no-contest cell,
      exactly when that cell is truthy. */
  lemma UfcRecordSuffix(w: Cell, l: Cell, d: Cell, nc: Cell)
    ensures EndsWith(UfcRecordText(w, l, d, nc), " NC") <==> Truthy(nc)
    ensures Truthy(nc) ==> EndsWith(UfcRecordText(w, l, d, nc), "-" + ParsedText(nc) + " NC")
  {
    var init := IntText(ParseIntOrZero(w)) + "-" + IntText(ParseIntOrZero(l)) + "-";
    var last := IntText(ParseIntOrZero(d));
    if Truthy(nc) {
      var n := "-" + ParsedText(nc);
      assert UfcRecordText(w, l, d, nc) == init + last + (n + " NC");
      EndsWithAppended(init + last, n, " NC");
    } else {
      assert UfcRecordText(w, l, d, nc) == init + last;
      EndsWithDigit(init, last, " NC");
    }
  }

  // ---------------------------------------------------------------------
  // Row transform

  /** The record the `map` callback builds for the row at 0-based `index`. */
  function ToFighter(row: map<string, Cell>, index: nat): (f: Fighter)
    ensures f.name != ""
    ensures Truthy(Get(row, "name")) ==> f.name == CellText(Get(row, "name"))
    ensures !Truthy(Get(row, "name")) ==> f.name == "Fighter " + NatText(index + 1)
    ensures Truthy(f.rank) && Truthy(f.pfprank)
    ensures f.rank == if Truthy(Get(row, "rank")) then Get(row, "rank") else Num((index + 1) as real)
    ensures f.pfprank == if Truthy(Get(row, "pfprank")) then Get(row, "pfprank") else Num((index + 1) as real)
  {
    Fighter(
      name := if Truthy(Get(row, "name")) then CellText(Get(row, "name")) else "Fighter " + NatText(index + 1),
      nickname := CellText(Or(Get(row, "nickname"), Str(""))),
      stance := Or(Get(row, "stance"), Str("Orthodox")),
      overall := Get(row, "overall"),
      pfprank := Or(Get(row, "pfprank"), Num((index + 1) as real)),
      rank := Or(Get(row, "rank"), Num((index + 1) as real)),
      pfpRankCareer := Or(Get(row, "pfp_rank"), Empty),
      divRankCareer := Or(Get(row, "div_rank"), Empty),
      titleFightWins := Or(Get(row, "Titlefighs_wins"), Num(0.0)),
      divisions := Or(Get(row, "divisions"), Str("")),
      weightClass := CellText(Or(Get(row, "maindiv"), Str("Unknown"))),
      record := RecordText(Get(row, "wins"), Get(row, "losses"), Get(row, "draws")),
      ufcRecord := UfcRecordText(Get(row, "ufcwins"), Get(row, "ufclosses"), Get(row, "ufcdraws"), Get(row, "ufcnocon")),
      striking := RoundStat(Get(row, "striking")),
      wrestling := RoundStat(Get(row, "wrestling")),
      grappling := RoundStat(Get(row, "grappling")),
      defense := RoundStat(Get(row, "defense")),
      careerScore := Or(Get(row, "career_score"), Num(0.0)),
      finishing := RoundStat(Get(row, "finishing")),
      dominance := RoundStat(Get(row, "dominance")),
      dob := Or(Get(row, "dob"), Empty),
      image := Get(row, "image_url"),
      strikingDetails := StrikingDetails(
        Or(Get(row, "strikes_landed_permin"), Num(0.0)), Or(Get(row, "striking_acc"), Num(0.0)),
        Or(Get(row, "kd_permin"), Num(0.0)), Or(Get(row, "sigstrikes_attempted"), Num(0.0))),
      wrestlingDetails := WrestlingDetails(
        Or(Get(row, "takedown_landed"), Num(0.0)), Or(Get(row, "takedown_acc"), Num(0.0)),
        Or(Get(row, "control_time"), Num(0.0)), Or(Get(row, "takedown_attempted"), Num(0.0))),
      grapplingDetails := GrapplingDetails(
        Or(Get(row, "total_sub"), Num(0.0)), Or(Get(row, "sub_avg15"), Num(0.0)),
        Or(Get(row, "sub_attempted"), Num(0.0)), Or(Get(row, "sub_resistance"), Num(0.0))),
      defenseDetails := DefenseDetails(
        Or(Get(row, "striking_def"), Num(0.0)), Or(Get(row, "durability"), Num(0.0)),
        Or(Get(row, "takedown_def"), Num(0.0)), Or(Get(row, "strabsorbpm"), Num(0.0))))
  }

  /** The six headline stats of a record: 75 for a missing, empty or zero
      cell, the rounded number for any other number. */
  lemma StatDefaults(row: map<string, Cell>, index: nat, key: string)
    requires key in {"striking", "wrestling", "grappling", "defense", "finishing", "dominance"}
    ensures var f := ToFighter(row, index);
      var stat := match key
        case "striking" => f.striking
        case "wrestling" => f.wrestling
        case "grappling" => f.grappling
        case "defense" => f.defense
        case "finishing" => f.finishing
        case _ => f.dominance;
      && (!Truthy(Get(row, key)) ==> stat == Whole(75))
      && (Get(row, key).Num? && Truthy(Get(row, key)) ==>
            stat.Whole? && Get(row, key).n - 0.5 < stat.value as real <= Get(row, key).n + 0.5)
  {
  }

  /** The `.filter` test: a truthy, non-empty name. */
  predicate NameValid(f: Fighter) {
    f.name != ""
  }

  /** The `map` over the parsed rows, with each row's 0-based position: it
      keeps the order of the rows, record `k` being built from row `k`. */
  function Transform(rows: seq<RawRow>): (r: seq<Fighter>)
    ensures |r| == |rows|
    ensures forall k :: 0 <= k < |r| ==> r[k] == ToFighter(CleanMap(rows[k]), k)
    ensures forall k :: 0 <= k < |r| ==> NameValid(r[k]) && Truthy(r[k].rank)
  {
    seq(|rows|, k requires 0 <= k < |rows| => ToFighter(CleanMap(rows[k]), k))
  }

  // ---------------------------------------------------------------------
  // Stable sort by rank

  /** `a.rank || 999` as the comparator subtracts it. A string rank, for
      which the comparator would yield NaN, is given the fallback. */
  function SortKey(f: Fighter): real {
    match Or(f.rank, Num(999.0))
    case Num(r) => r
    case _ => 999.0
  }

  /** The comparator's order, by `SortKey`. */
  function SortByRank(s: seq<Fighter>): seq<Fighter> {
    SortBy(s, SortKey)
  }

  /** The whole `complete` callback: transform, drop nameless records, sort. */
  function Normalized(rows: seq<RawRow>): seq<Fighter> {
    SortByRank(Select(Transform(rows), NameValid))
  }

  lemma TransformSnoc(rows: seq<RawRow>, i: int)
    requires 0 <= i < |rows|
    ensures Transform(rows[..i + 1]) == Transform(rows[..i]) + [ToFighter(CleanMap(rows[i]), i)]
  {
    var a, b := Transform(rows[..i + 1]), Transform(rows[..i]) + [ToFighter(CleanMap(rows[i]), i)];
    forall k | 0 <= k <= i ensures a[k] == b[k] {
      assert rows[..i + 1][k] == rows[k];
      if k < i {
        assert rows[..i][k] == rows[k];
      }
    }
  }

  /** The `map` over the parsed rows: each row's keys trimmed, then the
      record built. */
  method TransformRows(rows: seq<RawRow>) returns (transformed: seq<Fighter>)
    ensures transformed == Transform(rows)
  {
    transformed := [];
    var i := 0;
    while i < |rows|
      invariant 0 <= i <= |rows|
      invariant transformed == Transform(rows[..i])
    {
      var clean := CleanRow(rows[i]);
      var f := ToFighter(clean, i);
      TransformSnoc(rows, i);
      transformed := transformed + [f];
      i := i + 1;
    }
    assert rows[..|rows|] == rows;
  }

  /** The `complete` callback: transform, filter, then sort the filtered
      array in place. */
  method Normalize(rows: seq<RawRow>) returns (fighters: seq<Fighter>)
    ensures fighters == Normalized(rows)
  {
    var transformed := TransformRows(rows);
    var valid := Select(transformed, NameValid);
    fighters := SortedCopy(valid, SortKey);
  }

  /** No record is dropped by the name filter: every record has a name. */
  lemma NameFilterKeepsAll(rows: seq<RawRow>)
    ensures Select(Transform(rows), NameValid) == Transform(rows)
  {
    SelectAll(Transform(rows), NameValid);
  }

  /** What `loadFighterData` delivers: every record named, ranks truthy (so
      the comparator's `|| 999` never applies), a permutation of all records,
      ordered by rank, with the records of equal rank in row order. */
  lemma NormalizedProperties(rows: seq<RawRow>)
    ensures forall f :: f in Normalized(rows) ==> f.name != "" && Truthy(f.rank)
    ensures multiset(Normalized(rows)) == multiset(Transform(rows))
    ensures SortedBy(Normalized(rows), SortKey)
    ensures forall k :: WithKey(Normalized(rows), SortKey, k) == WithKey(Transform(rows), SortKey, k)
  {
    NameFilterKeepsAll(rows);
    var t := Transform(rows);
    SortByPermutes(t, SortKey);
    SortBySorted(t, SortKey);
    forall k ensures WithKey(Normalized(rows), SortKey, k) == WithKey(t, SortKey, k) {
      SortByStable(t, SortKey, k);
    }
    forall f | f in Normalized(rows) ensures f.name != "" && Truthy(f.rank) {
      assert f in multiset(t);
    }
  }

  // ---------------------------------------------------------------------
  // getDetailedStats

  datatype Metric = Metric(metric: string, value: Cell, max: nat)
  datatype StatGroup = StatGroup(category: string, metrics: seq<Metric>)

  const GroupNames: seq<string> := ["striking", "wrestling", "grappling", "defense", "finishing"]

  const MetricNames: seq<seq<string>> := [
    ["Strikes/Min", "Accuracy", "Knockdowns/Min", "Sig Attempts"],
    ["TD Landed", "TD Accuracy", "Control Time", "TD Attempts"],
    ["Total Subs", "Sub Average", "Sub Attempts", "Sub Resistance"],
    ["Strike Defense", "Durability", "TD Defense", "Strike Absorb"],
    ["KO Power", "Sub Threat", "Dominance", "Finish Rate"]
  ]

  const MetricMaxes: seq<seq<nat>> := [
    [10, 100, 25, 100],
    [5, 100, 10, 100],
    [15, 3, 25, 100],
    [100, 100, 100, 100],
    [100, 100, 100, 100]
  ]

  /** `x || 0` on a rounded stat: NaN and 0 both give 0. */
  function RoundedOrZero(r: Rounded): int {
    match r
    case Whole(k) => k
    case NaN => 0
  }

  function M(metric: string, value: Cell, max: nat): Metric {
    Metric(metric, value, max)
  }

  /** `getDetailedStats(fighter)`: five groups of four metrics; no value is
      ever absent. */
  function DetailedStats(f: Fighter): (groups: seq<StatGroup>)
    ensures |groups| == 5
    ensures forall g :: 0 <= g < 5 ==> |groups[g].metrics| == 4
    ensures forall g :: 0 <= g < 5 ==> forall m :: 0 <= m < 4 ==> groups[g].metrics[m].value != Empty
  {
    var z := Num(0.0);
    [
      StatGroup("striking", [
        M("Strikes/Min", Or(f.strikingDetails.splm, z), 10),
        M("Accuracy", Or(f.strikingDetails.stracc, z), 100),
        M("Knockdowns/Min", Or(f.strikingDetails.kd, z), 25),
        M("Sig Attempts", Or(f.strikingDetails.sigatt, z), 100)]),
      StatGroup("wrestling", [
        M("TD Landed", Or(f.wrestlingDetails.tdl, z), 5),
        M("TD Accuracy", Or(f.wrestlingDetails.tdavg, z), 100),
        M("Control Time", Or(f.wrestlingDetails.ctrl, z), 10),
        M("TD Attempts", Or(f.wrestlingDetails.tatt, z), 100)]),
      StatGroup("grappling", [
        M("Total Subs", Or(f.grapplingDetails.tsub, z), 15),
        M("Sub Average", Or(f.grapplingDetails.subavg, z), 3),
        M("Sub Attempts", Or(f.grapplingDetails.subatt, z), 25),
        M("Sub Resistance", Or(f.grapplingDetails.sublosses, z), 100)]),
      StatGroup("defense", [
        M("Strike Defense", Or(f.defenseDetails.strdef, z), 100),
        M("Durability", Or(f.defenseDetails.dur, z), 100),
        M("TD Defense", Or(f.defenseDetails.takdef, z), 100),
        M("Strike Absorb", Or(f.defenseDetails.strabs, z), 100)]),
      StatGroup("finishing", [
        M("KO Power", Num(RoundedOrZero(f.finishing) as real), 100),
        M("Sub Threat", Num(RoundHalfUp(RoundedOrZero(f.grappling) as real * 0.8) as real), 100),
        M("Dominance", Num(RoundedOrZero(f.dominance) as real), 100),
        M("Finish Rate", Num(RoundHalfUp(RoundedOrZero(f.finishing) as real * 0.9) as real), 100)])
    ]
  }

  /** The groups appear in a fixed order, with fixed metric names and
      maxima, whatever the record. */
  lemma DetailedStatsLayout(f: Fighter)
    ensures forall g :: 0 <= g < 5 ==> DetailedStats(f)[g].category == GroupNames[g]
    ensures forall g, m :: 0 <= g < 5 && 0 <= m < 4 ==>
      DetailedStats(f)[g].metrics[m].metric == MetricNames[g][m]
      && DetailedStats(f)[g].metrics[m].max == MetricMaxes[g][m]
  {
  }

  /** For a normalised record, each detail metric of the first four groups
      shows its CSV column, 0 when the cell is falsy. */
  lemma StrikingColumns(row: map<string, Cell>, index: nat)
    ensures var ms := DetailedStats(ToFighter(row, index))[0].metrics;
      && ms[0].value == Or(Get(row, "strikes_landed_permin"), Num(0.0))
      && ms[1].value == Or(Get(row, "striking_acc"), Num(0.0))
      && ms[2].value == Or(Get(row, "kd_permin"), Num(0.0))
      && ms[3].value == Or(Get(row, "sigstrikes_attempted"), Num(0.0))
  {
  }

  lemma WrestlingColumns(row: map<string, Cell>, index: nat)
    ensures var ms := DetailedStats(ToFighter(row, index))[1].metrics;
      && ms[0].value == Or(Get(row, "takedown_landed"), Num(0.0))
      && ms[1].value == Or(Get(row, "takedown_acc"), Num(0.0))
      && ms[2].value == Or(Get(row, "control_time"), Num(0.0))
      && ms[3].value == Or(Get(row, "takedown_attempted"), Num(0.0))
  {
  }

  lemma GrapplingColumns(row: map<string, Cell>, index: nat)
    ensures var ms := DetailedStats(ToFighter(row, index))[2].metrics;
      && ms[0].value == Or(Get(row, "total_sub"), Num(0.0))
      && ms[1].value == Or(Get(row, "sub_avg15"), Num(0.0))
      && ms[2].value == Or(Get(row, "sub_attempted"), Num(0.0))
      && ms[3].value == Or(Get(row, "sub_resistance"), Num(0.0))
  {
  }

  lemma DefenseColumns(row: map<string, Cell>, index: nat)
    ensures var ms := DetailedStats(ToFighter(row, index))[3].metrics;
      && ms[0].value == Or(Get(row, "striking_def"), Num(0.0))
      && ms[1].value == Or(Get(row, "durability"), Num(0.0))
      && ms[2].value == Or(Get(row, "takedown_def"), Num(0.0))
      && ms[3].value == Or(Get(row, "strabsorbpm"), Num(0.0))
  {
  }

  /** The finishing group: knock-out power and dominance are the rounded
      stats, the submission threat is four fifths of grappling and the
      finish rate nine tenths of knock-out power, each rounded to the
      nearest integer. */
  lemma FinishingDerived(f: Fighter)
    ensures var ms := DetailedStats(f)[4].metrics;
      && ms[0].value == Num(RoundedOrZero(f.finishing) as real)
      && ms[2].value == Num(RoundedOrZero(f.dominance) as real)
      && ms[1].value.Num? && ms[1].value.n - 0.5 <= RoundedOrZero(f.grappling) as real * 0.8 < ms[1].value.n + 0.5
      && ms[3].value.Num? && ms[3].value.n - 0.5 <= ms[0].value.n * 0.9 < ms[3].value.n + 0.5
  {
  }

  /** A normalised record whose three source stats are all missing: each
      stat is 75, so the group reads 75, 60, 75 and 68. */
  lemma FinishingGroup(row: map<string, Cell>, index: nat)
    requires !Truthy(Get(row, "finishing")) && !Truthy(Get(row, "grappling")) && !Truthy(Get(row, "dominance"))
    ensures [DetailedStats(ToFighter(row, index))[4].metrics[0].value,
             DetailedStats(ToFighter(row, index))[4].metrics[1].value,
             DetailedStats(ToFighter(row, index))[4].metrics[2].value,
             DetailedStats(ToFighter(row, index))[4].metrics[3].value]
         == [Num(75.0), Num(60.0), Num(75.0), Num(68.0)]
  {
  }
}
