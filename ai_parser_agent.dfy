/**
 * The 999.md listing agent: the feature catalogue indexed by id, the tools the
 * agent calls to pick an option by its title, to build a numeric feature with
 * its unit and to read a default value, and the cleaning of the agent's final
 * JSON list into the listing answer.
 *
 * The language model, the HTTP fetch of dependent options and `json.loads` are
 * parameters: the agent's last message (`None` when the call raises), the
 * options as fetched, and a decoder whose `None` is a `JSONDecodeError`. Tool
 * answers are returned as values rather than `json.dumps` text.
 */
module AiParserAgent {
  import opened Wrappers
  import opened Text
  import opened Json
  import opened Lists
  import AiParserService

  // ---------------------------------------------------------------------------
  // The catalogue

  /** An option of a drop-down feature: its id and title. */
  datatype Choice = Choice(id: Json, title: string)

  /** A default that names an option (a dictionary with an `options` entry), or any other value. */
  datatype DefaultValue = OptionDefault(choice: Choice) | PlainDefault(value: Json)

  datatype CatalogueFeature = CatalogueFeature(id: Json, title: string, options: seq<Choice>,
                                               units: seq<string>, defaultValue: DefaultValue)

  /** `FLATTENED_FEATURES`: the features keyed by `str(feature["id"])`. */
  type Catalogue = map<string, CatalogueFeature>

  /** The features of all groups, group after group. */
  function Concat(groups: seq<seq<CatalogueFeature>>): seq<CatalogueFeature>
    decreases |groups|
  {
    if |groups| == 0 then [] else Concat(groups[..|groups| - 1]) + groups[|groups| - 1]
  }

  /** `base` with the features stored one after the other under their stringified id. */
  function Store(base: Catalogue, features: seq<CatalogueFeature>): Catalogue
    decreases |features|
  {
    if |features| == 0 then base
    else
      var last := features[|features| - 1];
      Store(base, features[..|features| - 1])[PyStr(last.id) := last]
  }

  function Index(features: seq<CatalogueFeature>): Catalogue {
    Store(map[], features)
  }

  function Flattened(groups: seq<seq<CatalogueFeature>>): Catalogue {
    Index(Concat(groups))
  }

  /** Storing two runs of features is storing the first, then the second. */
  lemma {:induction false} StoreAppend(base: Catalogue, xs: seq<CatalogueFeature>, ys: seq<CatalogueFeature>)
    ensures Store(base, xs + ys) == Store(Store(base, xs), ys)
    decreases |ys|
  {
    if |ys| > 0 {
      var init := ys[..|ys| - 1];
      assert (xs + ys)[..|xs + ys| - 1] == xs + init;
      StoreAppend(base, xs, init);
    } else {
      assert xs + ys == xs;
    }
  }

  /** The inner loop: one group's features stored in turn. */
  method StoreGroup(flattened: Catalogue, group: seq<CatalogueFeature>) returns (r: Catalogue)
    ensures r == Store(flattened, group)
  {
    r := flattened;
    for i := 0 to |group|
      invariant r == Store(flattened, group[..i])
    {
      var feature := group[i];
      assert group[..i + 1][..i] == group[..i];
      r := r[PyStr(feature.id) := feature];
    }
    assert group[..|group|] == group;
  }

  /** The module-level loops that fill `FLATTENED_FEATURES`. */
  method FlattenFeatures(groups: seq<seq<CatalogueFeature>>) returns (flattened: Catalogue)
    ensures flattened == Flattened(groups)
  {
    flattened := map[];
    for g := 0 to |groups|
      invariant flattened == Index(Concat(groups[..g]))
    {
      assert groups[..g + 1][..g] == groups[..g];
      StoreAppend(map[], Concat(groups[..g]), groups[g]);
      flattened := StoreGroup(flattened, groups[g]);
    }
    assert groups[..|groups|] == groups;
  }

  /** A key is present exactly when some feature has that stringified id. */
  lemma {:induction false} IndexKeys(features: seq<CatalogueFeature>, key: string)
    ensures key in Index(features) <==> exists i :: 0 <= i < |features| && PyStr(features[i].id) == key
    decreases |features|
  {
    if |features| > 0 {
      var init := features[..|features| - 1];
      IndexKeys(init, key);
      assert Index(features) == Index(init)[PyStr(features[|features| - 1].id) := features[|features| - 1]];
      assert forall i :: 0 <= i < |init| ==> init[i] == features[i];
    }
  }

  /** Under each id is the last feature carrying it: a later duplicate overwrites an earlier one. */
  lemma {:induction false} IndexLastWins(features: seq<CatalogueFeature>, i: nat)
    requires i < |features|
    requires forall j :: i < j < |features| ==> PyStr(features[j].id) != PyStr(features[i].id)
    ensures PyStr(features[i].id) in Index(features)
    ensures Index(features)[PyStr(features[i].id)] == features[i]
    decreases |features|
  {
    var init := features[..|features| - 1];
    assert Index(features) == Index(init)[PyStr(features[|features| - 1].id) := features[|features| - 1]];
    if i < |features| - 1 {
      assert init[i] == features[i];
      assert forall j :: i < j < |init| ==> init[j] == features[j];
      IndexLastWins(init, i);
    }
  }

  // ---------------------------------------------------------------------------
  // Matching an option by its title

  /** The title equals the query, ignoring case. */
  predicate Exact(query: string, c: Choice) {
    Lower(c.title) == query
  }

  /** The query and the lowered title contain one another, in either direction. */
  predicate Partial(query: string, c: Choice) {
    Contains(Lower(c.title), query) || Contains(query, Lower(c.title))
  }

  /** The option chosen: the first exact match, else the first partial match. */
  function MatchIndex(options: seq<Choice>, query: string): (r: Option<nat>)
    ensures r.Some? ==> r.value < |options|
  {
    match FirstIndex(options, (c: Choice) => Exact(query, c))
    case Some(k) => Some(k)
    case None => FirstIndex(options, (c: Choice) => Partial(query, c))
  }

  /** The two loops over the options shared by `find_make_option` and `find_dropdown_option`. */
  method MatchOption(options: seq<Choice>, query: string) returns (found: Option<nat>)
    ensures found == MatchIndex(options, query)
  {
    for i := 0 to |options|
      invariant forall j :: 0 <= j < i ==> !Exact(query, options[j])
    {
      if Lower(options[i].title) == query {
        FirstIndexAt(options, (c: Choice) => Exact(query, c), i);
        return Some(i);
      }
    }
    for i := 0 to |options|
      invariant forall j :: 0 <= j < i ==> !Partial(query, options[j])
    {
      var title := Lower(options[i].title);
      if Contains(title, query) || Contains(query, title) {
        FirstIndexAt(options, (c: Choice) => Partial(query, c), i);
        return Some(i);
      }
    }
    return None;
  }

  /** An exact match wins over any partial match, even one earlier in the list. */
  lemma ExactBeatsPartial(options: seq<Choice>, query: string, k: nat)
    requires k < |options| && Exact(query, options[k])
    requires forall j :: 0 <= j < k ==> !Exact(query, options[j])
    ensures MatchIndex(options, query) == Some(k)
  {
    FirstIndexAt(options, (c: Choice) => Exact(query, c), k);
  }

  /** Without an exact match, the first option that matches partially is chosen. */
  lemma FirstPartialChosen(options: seq<Choice>, query: string, k: nat)
    requires forall j :: 0 <= j < |options| ==> !Exact(query, options[j])
    requires k < |options| && Partial(query, options[k])
    requires forall j :: 0 <= j < k ==> !Partial(query, options[j])
    ensures MatchIndex(options, query) == Some(k)
  {
    FirstIndexAt(options, (c: Choice) => Partial(query, c), k);
  }

  /** Nothing is chosen only when no option matches either way. */
  lemma NoMatch(options: seq<Choice>, query: string)
    ensures MatchIndex(options, query).None? <==>
      forall j :: 0 <= j < |options| ==> !Exact(query, options[j]) && !Partial(query, options[j])
  {
  }

  /**
   * An empty query is contained in every title, so with no blank title to match it
   * exactly it picks the first option.
   */
  lemma EmptyQueryFirst(options: seq<Choice>)
    requires |options| > 0
    requires forall j :: 0 <= j < |options| ==> |options[j].title| > 0
    ensures MatchIndex(options, "") == Some(0)
  {
    assert forall j :: 0 <= j < |options| ==> !Exact("", options[j]);
    assert OccursAt(Lower(options[0].title), "", 0);
    ContainsAt(Lower(options[0].title), "", 0);
    FirstIndexAt(options, (c: Choice) => Partial("", c), 0);
  }

  // ---------------------------------------------------------------------------
  // The tools' answers

  /**
   * What a tool returns: a chosen option (`{"id", "value", "title"}`), a numeric
   * feature (`{"id", "value", "unit"?}`), a raw default value, or a message.
   */
  datatype ToolAnswer =
    | Selected(featureId: string, value: string, title: string)
    | Numeric(featureId: string, amount: Json, unit: Option<string>)
    | RawDefault(default: Json)
    | Message(text: string)

  function Pick(featureId: string, c: Choice): ToolAnswer {
    Selected(featureId, PyStr(c.id), c.title)
  }

  /** A Python list of strings, for `f"...{titles}"`. */
  function StrList(titles: seq<string>): Json {
    JArr(seq(|titles|, i requires 0 <= i < |titles| => JStr(titles[i])))
  }

  function Titles(options: seq<Choice>): (r: seq<string>)
    ensures |r| == |options| && forall i :: 0 <= i < |options| ==> r[i] == options[i].title
  {
    seq(|options|, i requires 0 <= i < |options| => options[i].title)
  }

  /** `query[:3]`. */
  function Lead(query: string): string {
    if |query| <= 3 then query else query[..3]
  }

  /** The titles whose lowered form contains `part`, in order. */
  function TitlesContaining(options: seq<Choice>, part: string): (r: seq<string>)
    ensures |r| <= |options|
    ensures forall t :: t in r ==> Contains(Lower(t), part) && t in Titles(options)
    decreases |options|
  {
    if |options| == 0 then []
    else
      var rest := TitlesContaining(options[1..], part);
      assert forall t :: t in Titles(options[1..]) ==> t in Titles(options) by {
        forall t | t in Titles(options[1..]) ensures t in Titles(options) {
          var i :| 0 <= i < |options[1..]| && Titles(options[1..])[i] == t;
          assert Titles(options)[i + 1] == t;
        }
      }
      assert Titles(options)[0] == options[0].title;
      if Contains(Lower(options[0].title), part) then [options[0].title] + rest else rest
  }

  /** The titles offered when no make matches: at most five, each containing the query's first three characters. */
  function Similar(options: seq<Choice>, query: string): (r: seq<string>)
    ensures |r| <= 5
    ensures forall t :: t in r ==> Contains(Lower(t), Lead(query)) && t in Titles(options)
  {
    var all := TitlesContaining(options, Lead(query));
    if |all| <= 5 then all
    else
      assert forall t :: t in all[..5] ==> t in all;
      all[..5]
  }

  const MakeFeature := "20"
  const NoMakeFeature := "Ошибка: характеристика Марка не найдена"

  /** What `find_make_option` answers. */
  function MakeAnswer(catalogue: Catalogue, makeName: string): (r: ToolAnswer)
    ensures r.Selected? || r.Message?
    ensures r.Selected? ==>
      MakeFeature in catalogue && r.featureId == MakeFeature
      && exists c :: c in catalogue[MakeFeature].options && r == Pick(MakeFeature, c)
    ensures MakeFeature !in catalogue ==> r == Message(NoMakeFeature)
  {
    if MakeFeature !in catalogue || |catalogue[MakeFeature].options| == 0 then Message(NoMakeFeature)
    else
      var options := catalogue[MakeFeature].options;
      var query := Strip(Lower(makeName));
      match MatchIndex(options, query)
      case Some(k) => assert options[k] in options; Pick(MakeFeature, options[k])
      case None =>
        Message("Марка '" + makeName + "' не найдена. Похожие: " + PyStr(StrList(Similar(options, query))))
  }

  /** `find_make_option`. */
  method FindMakeOption(catalogue: Catalogue, makeName: string) returns (answer: ToolAnswer)
    ensures answer == MakeAnswer(catalogue, makeName)
  {
    if MakeFeature !in catalogue || |catalogue[MakeFeature].options| == 0 {
      return Message(NoMakeFeature);
    }
    var options := catalogue[MakeFeature].options;
    var query := Strip(Lower(makeName));
    var found := MatchOption(options, query);
    if found.Some? {
      return Pick(MakeFeature, options[found.value]);
    }
    var similar := Similar(options, query);
    return Message("Марка '" + makeName + "' не найдена. Похожие: " + PyStr(StrList(similar)));
  }

  /** A chosen make is one of the make options, the exact match when there is one. */
  lemma MakeAnswerChoice(catalogue: Catalogue, makeName: string)
    requires MakeFeature in catalogue
    ensures var options := catalogue[MakeFeature].options;
      var query := Strip(Lower(makeName));
      (MakeAnswer(catalogue, makeName).Selected? <==> MatchIndex(options, query).Some?)
      && (MakeAnswer(catalogue, makeName).Selected? ==>
            MakeAnswer(catalogue, makeName) == Pick(MakeFeature, options[MatchIndex(options, query).value]))
  {
  }

  function MissingFeature(featureId: string): string {
    "Характеристика с ID " + featureId + " не найдена"
  }

  /** What `find_dropdown_option` answers. */
  function DropdownAnswer(catalogue: Catalogue, featureId: string, searchText: string): (r: ToolAnswer)
    ensures r.Selected? || r.Message?
    ensures r.Selected? ==>
      featureId in catalogue && r.featureId == featureId
      && exists c :: c in catalogue[featureId].options && r == Pick(featureId, c)
    ensures featureId !in catalogue ==> r == Message(MissingFeature(featureId))
  {
    if featureId !in catalogue then Message(MissingFeature(featureId))
    else
      var feature := catalogue[featureId];
      if |feature.options| == 0 then Message("У характеристики '" + feature.title + "' нет опций")
      else
        match MatchIndex(feature.options, Strip(Lower(searchText)))
        case Some(k) => assert feature.options[k] in feature.options; Pick(featureId, feature.options[k])
        case None =>
          Message("Значение '" + searchText + "' не найдено в '" + feature.title + "'. Доступные: "
                  + PyStr(StrList(Titles(feature.options))))
  }

  /** `find_dropdown_option`. */
  method FindDropdownOption(catalogue: Catalogue, featureId: string, searchText: string) returns (answer: ToolAnswer)
    ensures answer == DropdownAnswer(catalogue, featureId, searchText)
  {
    if featureId !in catalogue {
      return Message(MissingFeature(featureId));
    }
    var feature := catalogue[featureId];
    if |feature.options| == 0 {
      return Message("У характеристики '" + feature.title + "' нет опций");
    }
    var found := MatchOption(feature.options, Strip(Lower(searchText)));
    if found.Some? {
      return Pick(featureId, feature.options[found.value]);
    }
    return Message("Значение '" + searchText + "' не найдено в '" + feature.title + "'. Доступные: "
                   + PyStr(StrList(Titles(feature.options))));
  }

  /**
   * A chosen value is an option of the feature asked for, under that feature's id; it is
   * chosen exactly when `MatchIndex` finds one, and it is the option found.
   */
  lemma DropdownAnswerChoice(catalogue: Catalogue, featureId: string, searchText: string)
    ensures var answer := DropdownAnswer(catalogue, featureId, searchText);
      answer.Selected? ==> (featureId in catalogue && answer.featureId == featureId
        && exists k :: 0 <= k < |catalogue[featureId].options| && answer == Pick(featureId, catalogue[featureId].options[k]))
    ensures featureId in catalogue ==>
      var options := catalogue[featureId].options;
      var query := Strip(Lower(searchText));
      (DropdownAnswer(catalogue, featureId, searchText).Selected? <==> MatchIndex(options, query).Some?)
      && (MatchIndex(options, query).Some? ==>
            DropdownAnswer(catalogue, featureId, searchText) == Pick(featureId, options[MatchIndex(options, query).value]))
  {
    var answer := DropdownAnswer(catalogue, featureId, searchText);
    if answer.Selected? {
      var k := MatchIndex(catalogue[featureId].options, Strip(Lower(searchText))).value;
      assert answer == Pick(featureId, catalogue[featureId].options[k]);
    }
  }

  // ---------------------------------------------------------------------------
  // find_generation_option after the fetch

  /** A dependent option as the API returns it: `title` and `value` are each optional. */
  datatype ApiOption = ApiOption(id: Json, title: Option<string>, value: Option<string>)

  /** `opt.get("title", opt.get("value", missing))`. */
  function ApiTitle(o: ApiOption, missing: string): string {
    if o.title.Some? then o.title.value else if o.value.Some? then o.value.value else missing
  }

  const GenerationFeature := "2095"
  const NoGenerations := "Поколения не найдены для этой модели"

  function GenerationFits(query: string, o: ApiOption): bool {
    Contains(Lower(ApiTitle(o, "")), query)
  }

  function PickGeneration(o: ApiOption): ToolAnswer {
    Selected(GenerationFeature, PyStr(o.id), ApiTitle(o, ""))
  }

  function AvailableGenerations(options: seq<ApiOption>): seq<string> {
    seq(|options|, i requires 0 <= i < |options| => ApiTitle(options[i], "???"))
  }

  function GenerationNotFound(options: seq<ApiOption>): string {
    "Поколение не найдено. Доступные: " + PyStr(StrList(AvailableGenerations(options)))
  }

  /** What `find_generation_option` answers once the options are fetched. */
  function GenerationAnswer(options: seq<ApiOption>, generationText: string): (r: ToolAnswer)
    ensures r.Selected? || r.Message?
    ensures r.Selected? ==> r.featureId == GenerationFeature && exists o :: o in options && r == PickGeneration(o)
    ensures |options| == 0 ==> r == Message(NoGenerations)
  {
    if |options| == 0 then Message(NoGenerations)
    else
      var query := Strip(Lower(generationText));
      match FirstIndex(options, (o: ApiOption) => GenerationFits(query, o))
      case Some(k) => assert options[k] in options; PickGeneration(options[k])
      case None =>
        if |options| == 1 then assert options[0] in options; PickGeneration(options[0])
        else Message(GenerationNotFound(options))
  }

  /** The loop looking for a title that contains the query. */
  method FirstFitting(options: seq<ApiOption>, query: string) returns (found: Option<nat>)
    ensures found == FirstIndex(options, (o: ApiOption) => GenerationFits(query, o))
  {
    for i := 0 to |options|
      invariant forall j :: 0 <= j < i ==> !GenerationFits(query, options[j])
    {
      var title := ApiTitle(options[i], "");
      if Contains(Lower(title), query) {
        FirstIndexAt(options, (o: ApiOption) => GenerationFits(query, o), i);
        return Some(i);
      }
    }
    return None;
  }

  /** `find_generation_option` once the options are fetched. */
  method FindGeneration(options: seq<ApiOption>, generationText: string) returns (answer: ToolAnswer)
    ensures answer == GenerationAnswer(options, generationText)
  {
    if |options| == 0 {
      return Message(NoGenerations);
    }
    var found := FirstFitting(options, Strip(Lower(generationText)));
    if found.Some? {
      return PickGeneration(options[found.value]);
    }
    if |options| == 1 {
      return PickGeneration(options[0]);
    }
    return Message(GenerationNotFound(options));
  }

  /**
   * The first option whose title contains the query is chosen; when none does, the only
   * option is chosen if there is exactly one, and nothing is chosen otherwise.
   */
  lemma GenerationChoice(options: seq<ApiOption>, generationText: string)
    ensures var query := Strip(Lower(generationText));
      var answer := GenerationAnswer(options, generationText);
      (forall k :: 0 <= k < |options| && GenerationFits(query, options[k])
         && (forall j :: 0 <= j < k ==> !GenerationFits(query, options[j]))
         ==> answer == PickGeneration(options[k]))
      && ((forall j :: 0 <= j < |options| ==> !GenerationFits(query, options[j])) ==>
            (answer.Selected? <==> |options| == 1))
  {
    var query := Strip(Lower(generationText));
    forall k | 0 <= k < |options| && GenerationFits(query, options[k])
         && (forall j :: 0 <= j < k ==> !GenerationFits(query, options[j]))
      ensures GenerationAnswer(options, generationText) == PickGeneration(options[k])
    {
      FirstIndexAt(options, (o: ApiOption) => GenerationFits(query, o), k);
    }
  }

  // ---------------------------------------------------------------------------
  // create_numeric_feature

  /** The given unit matches one of the feature's units, ignoring case. */
  predicate KnownUnit(units: seq<string>, unit: string) {
    exists i :: 0 <= i < |units| && Lower(units[i]) == Lower(unit)
  }

  /** The unit stored with a numeric feature. */
  function UnitFor(units: seq<string>, unit: Option<string>): (r: Option<string>)
    ensures r.None? <==> |units| == 0
    ensures r.Some? ==> r.value == units[0] || (unit.Some? && r.value == Lower(unit.value) && KnownUnit(units, unit.value))
  {
    if unit.Some? && |unit.value| > 0 && |units| > 0 then
      if KnownUnit(units, unit.value) then Some(Lower(unit.value)) else Some(units[0])
    else if |units| > 0 then Some(units[0])
    else None
  }

  /** A known unit is stored lowercased; an unknown unit, or none, gives the first listed unit. */
  lemma UnitChoice(units: seq<string>, unit: Option<string>)
    requires |units| > 0
    ensures unit.Some? && |unit.value| > 0 && KnownUnit(units, unit.value) ==> UnitFor(units, unit) == Some(Lower(unit.value))
    ensures unit.Some? && !KnownUnit(units, unit.value) ==> UnitFor(units, unit) == Some(units[0])
    ensures unit.None? ==> UnitFor(units, unit) == Some(units[0])
  {
    if unit.Some? && !KnownUnit(units, unit.value) && |unit.value| == 0 {
      assert UnitFor(units, unit) == Some(units[0]);
    }
  }

  /** An empty unit is falsy, so the first listed unit is stored. */
  lemma EmptyUnitIsFirst(units: seq<string>)
    requires |units| > 0
    ensures UnitFor(units, Some("")) == Some(units[0])
  {
  }

  /** `create_numeric_feature`. */
  function NumericAnswer(catalogue: Catalogue, featureId: string, value: Json, unit: Option<string>): (r: ToolAnswer)
    ensures featureId !in catalogue <==> r.Message?
    ensures r.Numeric? ==> (r.featureId == featureId && r.amount == value
      && r.unit == UnitFor(catalogue[featureId].units, unit))
  {
    if featureId !in catalogue then Message(MissingFeature(featureId))
    else Numeric(featureId, value, UnitFor(catalogue[featureId].units, unit))
  }

  // ---------------------------------------------------------------------------
  // get_feature_default_value

  function DefaultAnswer(catalogue: Catalogue, featureId: string): (r: ToolAnswer)
    ensures !r.Numeric?
    ensures r.Selected? ==> featureId in catalogue && r.featureId == featureId
    ensures r.RawDefault? ==> PyTruthy(r.default)
    ensures featureId !in catalogue ==> r == Message(MissingFeature(featureId))
  {
    if featureId !in catalogue then Message(MissingFeature(featureId))
    else
      var feature := catalogue[featureId];
      match feature.defaultValue
      case OptionDefault(c) => Pick(featureId, c)
      case PlainDefault(v) =>
        if !PyTruthy(v) then Message("У характеристики '" + feature.title + "' нет значения по умолчанию")
        else RawDefault(v)
  }

  /** An option default answers with that option's id and title; any other truthy default is returned as it is. */
  lemma DefaultAnswerShape(catalogue: Catalogue, featureId: string)
    requires featureId in catalogue
    ensures var d := catalogue[featureId].defaultValue;
      var answer := DefaultAnswer(catalogue, featureId);
      (answer.Selected? <==> d.OptionDefault?)
      && (d.OptionDefault? ==> answer.featureId == featureId && answer.value == PyStr(d.choice.id)
                               && answer.title == d.choice.title)
      && (answer.RawDefault? <==> d.PlainDefault? && PyTruthy(d.value))
      && (answer.RawDefault? ==> answer.default == d.value)
  {
  }

  // ---------------------------------------------------------------------------
  // AIParserAgent.parse after the agent call

  const CategoryId := "658"
  const SubcategoryId := "659"
  const OfferType := "776"

  /** Which handler produced an error answer: the decoding one or the catch-all. */
  datatype ParseError = JsonParsingFailed | ParsingFailed

  datatype Listing = Listing(categoryId: string, subcategoryId: string, offerType: string,
                             features: seq<map<string, Json>>, error: Option<ParseError>)

  /** The answer with a feature list, or the error answer with no features. */
  function ListingOf(features: seq<map<string, Json>>, error: Option<ParseError>): Listing {
    Listing(CategoryId, SubcategoryId, OfferType, if error.Some? then [] else features, error)
  }

  /** The index of the last `]`, or -1. */
  function LastClose(s: string): (r: int)
    ensures -1 <= r < |s|
    ensures r >= 0 ==> s[r] == ']' && forall j :: r < j < |s| ==> s[j] != ']'
    ensures r == -1 ==> forall j :: 0 <= j < |s| ==> s[j] != ']'
    decreases |s|
  {
    if |s| == 0 then -1
    else if s[|s| - 1] == ']' then |s| - 1
    else LastClose(s[..|s| - 1])
  }

  /**
   * `re.search(r'\[[\s\S]*\]', output)`: from the first `[` to the last `]` after it, greedily;
   * the text unchanged when there is no such pair.
   */
  function ArraySpan(s: string): (r: string)
    ensures |r| <= |s|
  {
    var i := IndexOf(s, "[");
    var j := LastClose(s);
    if 0 <= i < j then s[i..j + 1] else s
  }

  /** A span found runs from the first `[` to the last `]` of the text. */
  lemma ArraySpanShape(s: string)
    requires IndexOf(s, "[") >= 0 && IndexOf(s, "[") < LastClose(s)
    ensures var r := ArraySpan(s);
      |r| >= 2 && r[0] == '[' && r[|r| - 1] == ']'
      && r == s[IndexOf(s, "[")..LastClose(s) + 1]
      && (forall k :: 0 <= k < IndexOf(s, "[") ==> s[k] != '[')
      && (forall k :: LastClose(s) < k < |s| ==> s[k] != ']')
  {
    var i := IndexOf(s, "[");
    assert OccursAt(s, "[", i);
    assert s[i..i + 1] == "[";
    forall k | 0 <= k < i ensures s[k] != '[' {
      assert !OccursAt(s, "[", k);
      assert s[k..k + 1] == [s[k]];
    }
  }

  /**
   * The pattern matches exactly when some `[` comes before some `]`; when none does, the
   * text is kept as it is.
   */
  lemma ArraySpanFound(s: string)
    ensures (0 <= IndexOf(s, "[") < LastClose(s))
      <==> exists a, b :: 0 <= a < b < |s| && s[a] == '[' && s[b] == ']'
    ensures (forall a, b :: 0 <= a < b < |s| && s[a] == '[' ==> s[b] != ']') ==> ArraySpan(s) == s
  {
    var i := IndexOf(s, "[");
    var j := LastClose(s);
    if 0 <= i < j {
      assert OccursAt(s, "[", i);
      assert s[i..i + 1] == "[";
      assert s[i] == '[' && s[j] == ']';
    }
    if exists a, b :: 0 <= a < b < |s| && s[a] == '[' && s[b] == ']' {
      var a, b :| 0 <= a < b < |s| && s[a] == '[' && s[b] == ']';
      assert s[a..a + 1] == "[";
      assert OccursAt(s, "[", a);
      assert 0 <= i <= a;
      assert b <= j;
    }
  }

  /** The agent's text with any Markdown fence removed, then narrowed to the JSON array. */
  function CleanedOutput(output: string): string {
    var unfenced :=
      if Contains(output, AiParserService.JsonFence) || Contains(output, AiParserService.Fence)
      then AiParserService.CleanJsonResponse(output)
      else output;
    ArraySpan(unfenced)
  }

  /** `{"id": str(f["id"]), "value": f["value"]}` plus `unit` when present; `None` when `f["id"]` or `f["value"]` raises. */
  function CleanFeature(f: Json): (r: Option<map<string, Json>>)
    ensures r.Some? <==> f.JObj? && "id" in f.fields && "value" in f.fields
    ensures r.Some? ==> (r.value.Keys <= {"id", "value", "unit"}
      && "id" in r.value && r.value["id"] == JStr(PyStr(f.fields["id"]))
      && "value" in r.value && r.value["value"] == f.fields["value"]
      && ("unit" in r.value <==> "unit" in f.fields)
      && ("unit" in r.value ==> r.value["unit"] == f.fields["unit"]))
  {
    if f.JObj? && "id" in f.fields && "value" in f.fields then
      var base := map["id" := JStr(PyStr(f.fields["id"])), "value" := f.fields["value"]];
      Some(if "unit" in f.fields then base["unit" := f.fields["unit"]] else base)
    else None
  }

  /** Every item cleaned, or `None` when one of them raises. */
  function CleanFeatures(items: seq<Json>): (r: Option<seq<map<string, Json>>>)
    ensures r.Some? <==> forall i :: 0 <= i < |items| ==> CleanFeature(items[i]).Some?
    ensures r.Some? ==> (|r.value| == |items|
      && forall i :: 0 <= i < |items| ==> Some(r.value[i]) == CleanFeature(items[i]))
    decreases |items|
  {
    if |items| == 0 then Some([])
    else
      var init := items[..|items| - 1];
      assert forall i :: 0 <= i < |init| ==> init[i] == items[i];
      match CleanFeatures(init)
      case None => None
      case Some(cleaned) =>
        match CleanFeature(items[|items| - 1])
        case None => None
        case Some(f) => Some(cleaned + [f])
  }

  /**
   * Iterating the decoded value: a list yields its items; an empty dictionary or string
   * yields nothing; a non-empty dictionary or string yields strings, on which `f["id"]`
   * raises; any other value is not iterable.
   */
  function CleanedList(v: Json): Option<seq<map<string, Json>>> {
    match v
    case JArr(items) => CleanFeatures(items)
    case JObj(m) => if |m| == 0 then Some([]) else None
    case JStr(s) => if |s| == 0 then Some([]) else None
    case _ => None
  }

  /** The answer of `parse` for the agent's last message. */
  function ParseOf(output: Option<string>, loads: AiParserService.JsonLoads): (r: Listing)
    ensures r.categoryId == CategoryId && r.subcategoryId == SubcategoryId && r.offerType == OfferType
    ensures r.error.Some? ==> r.features == []
    ensures output.Some? && loads(CleanedOutput(output.value)).None? ==> r.error == Some(JsonParsingFailed)
  {
    match output
    case None => ListingOf([], Some(ParsingFailed))
    case Some(o) =>
      match loads(CleanedOutput(o))
      case None => ListingOf([], Some(JsonParsingFailed))
      case Some(v) =>
        match CleanedList(v)
        case None => ListingOf([], Some(ParsingFailed))
        case Some(features) => ListingOf(features, None)
  }

  /** The loop over the decoded list. */
  method CleanFeatureList(items: seq<Json>) returns (cleaned: Option<seq<map<string, Json>>>)
    ensures cleaned == CleanFeatures(items)
  {
    var features: seq<map<string, Json>> := [];
    for i := 0 to |items|
      invariant CleanFeatures(items[..i]) == Some(features)
    {
      assert items[..i + 1][..i] == items[..i];
      var f := items[i];
      if !(f.JObj? && "id" in f.fields && "value" in f.fields) {
        assert CleanFeature(items[..i + 1][i]).None?;
        CleanFailsOnce(items, i);
        return None;
      }
      var cleanF := map["id" := JStr(PyStr(f.fields["id"])), "value" := f.fields["value"]];
      if "unit" in f.fields {
        cleanF := cleanF["unit" := f.fields["unit"]];
      }
      features := features + [cleanF];
    }
    assert items[..|items|] == items;
    return Some(features);
  }

  /** One item that raises makes the whole cleaning fail. */
  lemma CleanFailsOnce(items: seq<Json>, i: nat)
    requires i < |items| && CleanFeature(items[i]).None?
    ensures CleanFeatures(items).None?
  {
  }

  /** `AIParserAgent.parse` once the agent has answered. */
  method Parse(output: Option<string>, loads: AiParserService.JsonLoads) returns (listing: Listing)
    ensures listing == ParseOf(output, loads)
  {
    if output.None? {
      return ListingOf([], Some(ParsingFailed));
    }
    var featuresList := loads(CleanedOutput(output.value));
    if featuresList.None? {
      return ListingOf([], Some(JsonParsingFailed));
    }
    var cleaned: Option<seq<map<string, Json>>>;
    match featuresList.value {
      case JArr(items) => cleaned := CleanFeatureList(items);
      case JObj(m) => cleaned := if |m| == 0 then Some([]) else None;
      case JStr(s) => cleaned := if |s| == 0 then Some([]) else None;
      case _ => cleaned := None;
    }
    if cleaned.None? {
      return ListingOf([], Some(ParsingFailed));
    }
    return ListingOf(cleaned.value, None);
  }

  /** Cleaning is idempotent: a cleaned feature, given back, cleans to itself. */
  lemma CleanFeatureIdempotent(f: Json)
    requires CleanFeature(f).Some?
    ensures CleanFeature(JObj(CleanFeature(f).value)) == CleanFeature(f)
  {
    var c := CleanFeature(f).value;
    assert PyStr(c["id"]) == PyStr(f.fields["id"]);
  }

  /** A decoded list of features comes back with exactly those features cleaned, in order. */
  lemma ParsedFeatures(output: string, loads: AiParserService.JsonLoads, items: seq<Json>)
    requires loads(CleanedOutput(output)) == Some(JArr(items))
    requires forall i :: 0 <= i < |items| ==> CleanFeature(items[i]).Some?
    ensures var r := ParseOf(Some(output), loads);
      r.error.None? && |r.features| == |items|
      && forall i :: 0 <= i < |items| ==> Some(r.features[i]) == CleanFeature(items[i])
  {
  }
}
