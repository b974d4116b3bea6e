/** The application shell: it owns the loaded fighter list and the two
    filter controls, and recomputes the filtered list whenever the search
    term, the selected weight class or the loaded data change. */
module App {
  import opened Text
  import opened Cells
  import opened Sequences
  import opened FighterData

  /** The search test: the lower-cased name or nickname contains the
      lower-cased term. */
  predicate MatchesSearch(f: Fighter, term: string) {
    Contains(LowerAll(f.name), LowerAll(term)) || Contains(LowerAll(f.nickname), LowerAll(term))
  }

  /** The callbacks the two `filter` calls pass. */
  function MatchTest(term: string): Fighter -> bool {
    (f: Fighter) => MatchesSearch(f, term)
  }

  function ClassTest(cls: string): Fighter -> bool {
    (f: Fighter) => f.weightClass == cls
  }

  /** The search stage, applied only for a non-empty term. The term is not
      trimmed, so a term of spaces still filters. */
  function SearchStage(fs: seq<Fighter>, term: string): seq<Fighter> {
    if term != "" then Select(fs, MatchTest(term)) else fs
  }

  /** The category stage, applied unless the sentinel class is selected. */
  function CategoryStage(fs: seq<Fighter>, cls: string): seq<Fighter> {
    if cls != AllClasses then Select(fs, ClassTest(cls)) else fs
  }

  /** What the effect stores in `filteredFighters`. */
  function FilterFighters(all: seq<Fighter>, term: string, cls: string): seq<Fighter> {
    CategoryStage(SearchStage(all, term), cls)
  }

  predicate SearchOk(f: Fighter, term: string) {
    term == "" || MatchesSearch(f, term)
  }

  predicate ClassOk(f: Fighter, cls: string) {
    cls == AllClasses || f.weightClass == cls
  }

  /** The one test a fighter must pass to be shown. */
  predicate Admits(f: Fighter, term: string, cls: string) {
    SearchOk(f, term) && ClassOk(f, cls)
  }

  function SearchOkTest(term: string): Fighter -> bool {
    (f: Fighter) => SearchOk(f, term)
  }

  function ClassOkTest(cls: string): Fighter -> bool {
    (f: Fighter) => ClassOk(f, cls)
  }

  function AdmitsTest(term: string, cls: string): Fighter -> bool {
    (f: Fighter) => Admits(f, term, cls)
  }

  lemma SearchStageIsSelect(fs: seq<Fighter>, term: string)
    ensures SearchStage(fs, term) == Select(fs, SearchOkTest(term))
  {
    if term == "" {
      SelectAll(fs, SearchOkTest(term));
    } else {
      SelectAgree(fs, MatchTest(term), SearchOkTest(term));
    }
  }

  lemma CategoryStageIsSelect(fs: seq<Fighter>, cls: string)
    ensures CategoryStage(fs, cls) == Select(fs, ClassOkTest(cls))
  {
    if cls == AllClasses {
      SelectAll(fs, ClassOkTest(cls));
    } else {
      SelectAgree(fs, ClassTest(cls), ClassOkTest(cls));
    }
  }

  /** The two stages together are one filter by `Admits`. */
  lemma FilterIsSelect(all: seq<Fighter>, term: string, cls: string)
    ensures FilterFighters(all, term, cls) == Select(all, AdmitsTest(term, cls))
  {
    var search := SearchOkTest(term);
    var category := ClassOkTest(cls);
    SearchStageIsSelect(all, term);
    CategoryStageIsSelect(SearchStage(all, term), cls);
    SelectSelect(all, search, category, AdmitsTest(term, cls));
  }

  /** The filtered list keeps the loaded order and invents nothing. */
  lemma FilterIsSubsequence(all: seq<Fighter>, term: string, cls: string)
    ensures IsSubsequence(FilterFighters(all, term, cls), all)
  {
    FilterIsSelect(all, term, cls);
    SelectIsSubsequence(all, AdmitsTest(term, cls));
  }

  /** A fighter is shown exactly when it is loaded and passes both stages;
      it is shown as often as it was loaded. */
  lemma FilterMembership(all: seq<Fighter>, term: string, cls: string)
    ensures forall f :: f in FilterFighters(all, term, cls) <==> f in all && Admits(f, term, cls)
    ensures forall f :: Admits(f, term, cls) ==>
      multiset(FilterFighters(all, term, cls))[f] == multiset(all)[f]
  {
    FilterIsSelect(all, term, cls);
    SelectMembership(all, AdmitsTest(term, cls));
    SelectMultiset(all, AdmitsTest(term, cls));
  }

  /** The effect leaves the list whole exactly when every loaded fighter
      passes; with no term and the sentinel class it always does. */
  lemma FilterKeepsAllIff(all: seq<Fighter>, term: string, cls: string)
    ensures FilterFighters(all, term, cls) == all <==> forall k :: 0 <= k < |all| ==> Admits(all[k], term, cls)
    ensures FilterFighters(all, "", AllClasses) == all
  {
    FilterIsSelect(all, term, cls);
    if forall k :: 0 <= k < |all| ==> Admits(all[k], term, cls) {
      SelectAll(all, AdmitsTest(term, cls));
    }
    if FilterFighters(all, term, cls) == all {
      FilterMembership(all, term, cls);
      forall k | 0 <= k < |all| ensures Admits(all[k], term, cls) {
        assert all[k] in FilterFighters(all, term, cls);
      }
    }
  }

  /** Re-running the effect on its own output changes nothing. */
  lemma FilterIdempotent(all: seq<Fighter>, term: string, cls: string)
    ensures FilterFighters(FilterFighters(all, term, cls), term, cls) == FilterFighters(all, term, cls)
  {
    FilterIsSelect(all, term, cls);
    FilterIsSelect(FilterFighters(all, term, cls), term, cls);
    SelectIdempotent(all, AdmitsTest(term, cls));
  }

  /** Applying the stages in the other order gives the same list. */
  lemma FilterStagesCommute(all: seq<Fighter>, term: string, cls: string)
    ensures SearchStage(CategoryStage(all, cls), term) == FilterFighters(all, term, cls)
  {
    var search := SearchOkTest(term);
    var category := ClassOkTest(cls);
    FilterIsSelect(all, term, cls);
    CategoryStageIsSelect(all, cls);
    SearchStageIsSelect(CategoryStage(all, cls), term);
    SelectSelect(all, category, search, AdmitsTest(term, cls));
  }

  /** The search ignores the case of the term. */
  lemma SearchIgnoresCase(all: seq<Fighter>, term: string, cls: string)
    ensures FilterFighters(all, UpperAll(term), cls) == FilterFighters(all, term, cls)
    ensures FilterFighters(all, LowerAll(term), cls) == FilterFighters(all, term, cls)
  {
    LowerAllCanonical(term);
    FilterIsSelect(all, term, cls);
    FilterIsSelect(all, UpperAll(term), cls);
    FilterIsSelect(all, LowerAll(term), cls);
    SelectAgree(all, AdmitsTest(UpperAll(term), cls), AdmitsTest(term, cls));
    SelectAgree(all, AdmitsTest(LowerAll(term), cls), AdmitsTest(term, cls));
  }

  /** Typing more characters only narrows the result: a term that extends
      another keeps a subsequence of what the shorter one keeps. */
  lemma LongerTermNarrows(all: seq<Fighter>, term: string, longer: string, cls: string)
    requires Contains(longer, term)
    ensures IsSubsequence(FilterFighters(all, longer, cls), FilterFighters(all, term, cls))
  {
    FilterIsSelect(all, term, cls);
    FilterIsSelect(all, longer, cls);
    ContainsLower(longer, term);
    forall k | 0 <= k < |all| && Admits(all[k], longer, cls) ensures Admits(all[k], term, cls) {
      if term != "" {
        var f := all[k];
        assert longer != "";
        if Contains(LowerAll(f.name), LowerAll(longer)) {
          ContainsTransitive(LowerAll(f.name), LowerAll(longer), LowerAll(term));
        } else {
          ContainsTransitive(LowerAll(f.nickname), LowerAll(longer), LowerAll(term));
        }
      }
    }
    SelectMonotone(all, AdmitsTest(longer, cls), AdmitsTest(term, cls));
  }

  /** How the data load ended. */
  datatype LoadOutcome = Loaded(data: seq<Fighter>) | LoadFailed

  const LoadErrorMessage: string :=
    "Failed to load fighter data. Please make sure fighters.csv is available."

  /** What the shell renders. */
  datatype Screen = LoadingScreen | ErrorScreen(message: string) | Routes(filtered: seq<Fighter>, all: seq<Fighter>)

  /** The shell's state hooks. */
  class Shell {
    var loading: bool
    var error: Option<string>
    var allFighters: seq<Fighter>
    var filteredFighters: seq<Fighter>
    var searchTerm: string
    var selectedWeightClass: string

    /** The filtered list is always drawn from the loaded one, in order, and
        an error leaves both lists empty. */
    ghost predicate Valid()
      reads this
    {
      && IsSubsequence(filteredFighters, allFighters)
      && (error.Some? ==> allFighters == [] && filteredFighters == [])
    }

    /** The filtered list is what the effect computes from the current
        inputs. */
    ghost predicate Synced()
      reads this
    {
      filteredFighters == FilterFighters(allFighters, searchTerm, selectedWeightClass)
    }

    /** The state on mount. */
    constructor ()
      ensures loading && error == None
      ensures allFighters == [] && filteredFighters == []
      ensures searchTerm == "" && selectedWeightClass == AllClasses
      ensures Valid() && Synced()
    {
      loading := true;
      error := None;
      allFighters := [];
      filteredFighters := [];
      searchTerm := "";
      selectedWeightClass := AllClasses;
    }

    /** `setLoading(true)` at the start of `loadData`. */
    method StartLoad()
      requires Valid()
      modifies this
      ensures loading
      ensures error == old(error) && allFighters == old(allFighters) && filteredFighters == old(filteredFighters)
      ensures searchTerm == old(searchTerm) && selectedWeightClass == old(selectedWeightClass)
      ensures Valid()
    {
      loading := true;
    }

    /** The end of `loadData`: on success both lists become the data and
        the error is cleared; on failure the fixed message is set and both
        lists are emptied; either way loading ends. */
    method FinishLoad(outcome: LoadOutcome)
      requires Valid()
      modifies this
      ensures !loading
      ensures outcome.Loaded? ==>
        allFighters == outcome.data && filteredFighters == outcome.data && error == None
      ensures outcome.LoadFailed? ==>
        allFighters == [] && filteredFighters == [] && error == Some(LoadErrorMessage)
      ensures searchTerm == old(searchTerm) && selectedWeightClass == old(selectedWeightClass)
      ensures Valid()
    {
      match outcome {
        case Loaded(data) =>
          allFighters := data;
          filteredFighters := data;
          error := None;
          SubsequenceReflexive(data);
        case LoadFailed =>
          error := Some(LoadErrorMessage);
          allFighters := [];
          filteredFighters := [];
      }
      loading := false;
    }

    /** `setSearchTerm`: only the term changes until the effect runs. */
    method SetSearchTerm(term: string)
      requires Valid()
      modifies this
      ensures searchTerm == term
      ensures loading == old(loading) && error == old(error)
      ensures allFighters == old(allFighters) && filteredFighters == old(filteredFighters)
      ensures selectedWeightClass == old(selectedWeightClass)
      ensures Valid()
    {
      searchTerm := term;
    }

    /** `setSelectedWeightClass`: only the class changes until the effect
        runs. */
    method SetWeightClass(cls: string)
      requires Valid()
      modifies this
      ensures selectedWeightClass == cls
      ensures loading == old(loading) && error == old(error)
      ensures allFighters == old(allFighters) && filteredFighters == old(filteredFighters)
      ensures searchTerm == old(searchTerm)
      ensures Valid()
    {
      selectedWeightClass := cls;
    }

    /** The filtering effect: the search stage when a term is set, then the
        category stage unless every class is selected. */
    method ApplyFilter()
      requires Valid()
      modifies this
      ensures filteredFighters == FilterFighters(allFighters, searchTerm, selectedWeightClass)
      ensures loading == old(loading) && error == old(error) && allFighters == old(allFighters)
      ensures searchTerm == old(searchTerm) && selectedWeightClass == old(selectedWeightClass)
      ensures Valid() && Synced()
    {
      var term, cls := searchTerm, selectedWeightClass;
      var filtered := allFighters;
      if term != "" {
        filtered := Select(filtered, MatchTest(term));
      }
      if cls != AllClasses {
        filtered := Select(filtered, ClassTest(cls));
      }
      FilterIsSubsequence(allFighters, term, cls);
      filteredFighters := filtered;
    }

    /** The loading screen first, then the error screen, then the routes. */
    function View(): (s: Screen)
      reads this
      ensures loading <==> s == LoadingScreen
      ensures s.ErrorScreen? <==> !loading && error.Some?
      ensures s.Routes? ==> s.filtered == filteredFighters && s.all == allFighters
    {
      if loading then LoadingScreen
      else if error.Some? then ErrorScreen(error.value)
      else Routes(filteredFighters, allFighters)
    }
  }

  /** A failed load shows the error screen with the fixed message, whatever
      the shell held before. */
  method FailedLoadShowsError(shell: Shell) returns (screen: Screen)
    requires shell.Valid()
    modifies shell
    ensures screen == ErrorScreen(LoadErrorMessage)
  {
    shell.StartLoad();
    shell.FinishLoad(LoadFailed);
    screen := shell.View();
  }
}
