/**
 * The 999.md feature-form helpers: option lookup by id and by title, the AI
 * request that lists the dynamic fields, and the per-feature processing that
 * picks a label from the AI result, the static defaults or the feature's own
 * default, in that order of precedence.
 *
 * The two configuration tables are parameters; `StaticDefaults` and
 * `DynamicIdsMap` below are the values the service ships with.
 */
module FeaturesHelpers {
  import opened Wrappers
  import opened Text
  import opened Json
  import opened Lists

  // ---------------------------------------------------------------------------
  // The configuration tables

  /** Feature id to the id of its default option. */
  const StaticDefaults: map<string, string> := map[
    "775" := "18592", "593" := "18668", "1761" := "29670", "1763" := "33044",
    "795" := "23241", "1196" := "21978", "846" := "19119", "851" := "19085"]

  /** The test `feature_id in DYNAMIC_IDS_MAP` looks at this map's keys, which are field names. */
  const DynamicIdsMap: map<string, string> := map[
    "make" := "20", "model" := "21", "year" := "19", "vin" := "2512", "price" := "2",
    "mileage" := "104", "engine" := "2553", "power" := "107", "fuel_type" := "151",
    "transmission" := "101", "drive" := "108", "body_type" := "102", "color" := "17",
    "description" := "13", "range" := "2513", "battery" := "2554", "charge_time" := "2555",
    "title" := "12", "generation" := "2095"]

  /** Every key of the shipped dynamic map starts with a lower-case letter. */
  lemma DynamicKeysAreNames(k: string)
    requires k in DynamicIdsMap
    ensures |k| > 0 && 'a' <= k[0] <= 'z'
  {
  }

  /**
   * With the shipped table, an id that starts with a digit or a minus sign, which is what
   * `str()` makes of a numeric id, is never a key of the dynamic map.
   */
  lemma NumericIdNeverDynamic(id: string)
    requires |id| > 0 && (IsDigit(id[0]) || id[0] == '-')
    ensures id !in DynamicIdsMap
  {
    if id in DynamicIdsMap {
      DynamicKeysAreNames(id);
      assert false;
    }
  }

  /**
   * The dynamic table keyed the way its own documentation describes it, by feature id, with
   * the field name of the AI result as the value: `DynamicIdsMap` read backwards.
   */
  const DynamicKeysByFeatureId: map<string, string> := map[
    "20" := "make", "21" := "model", "19" := "year", "2512" := "vin", "2" := "price",
    "104" := "mileage", "2553" := "engine", "107" := "power", "151" := "fuel_type",
    "101" := "transmission", "108" := "drive", "102" := "body_type", "17" := "color",
    "13" := "description", "2513" := "range", "2554" := "battery", "2555" := "charge_time",
    "12" := "title", "2095" := "generation"]

  /** The corrected table maps each feature id of the shipped one back to its field name. */
  lemma DynamicTablesInverse(name: string)
    requires name in DynamicIdsMap
    ensures DynamicIdsMap[name] in DynamicKeysByFeatureId
    ensures DynamicKeysByFeatureId[DynamicIdsMap[name]] == name
  {
  }

  // ---------------------------------------------------------------------------
  // Options

  /** An option of a dropdown feature: its id as stored, and its title (`None` when absent). */
  datatype FeatureOption = FeatureOption(id: Json, title: Option<string>)

  /** `opt.get("title", "")`. */
  function TitleOf(o: FeatureOption): string {
    o.title.GetOr("")
  }

  /** `{"id": str(opt["id"]), "title": opt.get("title", "")}`. */
  datatype OptionRef = OptionRef(id: string, title: string)

  function RefOf(o: FeatureOption): OptionRef {
    OptionRef(PyStr(o.id), TitleOf(o))
  }

  predicate HasId(optionId: string, o: FeatureOption) {
    PyStr(o.id) == optionId
  }

  /** `find_option_by_id`: the first option whose id, as text, is the given id. */
  function FindOptionById(options: seq<FeatureOption>, optionId: string): (r: Option<OptionRef>)
    ensures r.None? <==> forall k :: 0 <= k < |options| ==> !HasId(optionId, options[k])
    ensures forall k :: (0 <= k < |options| && HasId(optionId, options[k])
                         && forall j :: 0 <= j < k ==> !HasId(optionId, options[j]))
                        ==> r == Some(RefOf(options[k]))
  {
    match FirstIndex(options, o => HasId(optionId, o))
    case None => None
    case Some(k) => Some(RefOf(options[k]))
  }

  /** The query `title.lower().strip()`. */
  function TitleQuery(title: string): string {
    Strip(Lower(title))
  }

  /** An exact match: the option's title, lower-cased and stripped, is the query. */
  predicate ExactTitle(q: string, o: FeatureOption) {
    Strip(Lower(TitleOf(o))) == q
  }

  /** A partial match: the query occurs in the option's lower-cased title. */
  predicate PartialTitle(q: string, o: FeatureOption) {
    Contains(Lower(TitleOf(o)), q)
  }

  /** `find_option_by_title`: the first exact match, else the first partial match. */
  function FindOptionByTitle(options: seq<FeatureOption>, title: string): (r: Option<OptionRef>)
    ensures |options| == 0 || title == "" ==> r.None?
  {
    if |options| == 0 || title == "" then None
    else
      var q := TitleQuery(title);
      match FirstIndex(options, o => ExactTitle(q, o))
      case Some(k) => Some(RefOf(options[k]))
      case None =>
        match FirstIndex(options, o => PartialTitle(q, o))
        case Some(k) => Some(RefOf(options[k]))
        case None => None
  }

  /** The first exact match is returned, whatever partial matches come before it. */
  lemma ExactTitleWins(options: seq<FeatureOption>, title: string, k: nat)
    requires title != "" && k < |options| && ExactTitle(TitleQuery(title), options[k])
    requires forall j :: 0 <= j < k ==> !ExactTitle(TitleQuery(title), options[j])
    ensures FindOptionByTitle(options, title) == Some(RefOf(options[k]))
  {
    FirstIndexAt(options, o => ExactTitle(TitleQuery(title), o), k);
  }

  /** Without an exact match, the first partial match is returned. */
  lemma PartialTitleFallback(options: seq<FeatureOption>, title: string, k: nat)
    requires title != "" && k < |options| && PartialTitle(TitleQuery(title), options[k])
    requires forall j :: 0 <= j < |options| ==> !ExactTitle(TitleQuery(title), options[j])
    requires forall j :: 0 <= j < k ==> !PartialTitle(TitleQuery(title), options[j])
    ensures FindOptionByTitle(options, title) == Some(RefOf(options[k]))
  {
    var q := TitleQuery(title);
    FirstIndexAt(options, o => PartialTitle(q, o), k);
  }

  /** An exact match is also a partial match. */
  lemma ExactIsPartial(q: string, o: FeatureOption)
    requires ExactTitle(q, o)
    ensures PartialTitle(q, o)
  {
    var a, b := StripIsSlice(Lower(TitleOf(o)));
    assert OccursAt(Lower(TitleOf(o)), q, a);
    ContainsAt(Lower(TitleOf(o)), q, a);
  }

  /** Nothing is found exactly when there is no option, no title, or no option containing the query. */
  lemma TitleNotFound(options: seq<FeatureOption>, title: string)
    ensures FindOptionByTitle(options, title).None?
      <==> (|options| == 0 || title == ""
            || forall j :: 0 <= j < |options| ==> !PartialTitle(TitleQuery(title), options[j]))
  {
    var q := TitleQuery(title);
    if |options| > 0 && title != "" {
      if FindOptionByTitle(options, title).None? {
        forall j | 0 <= j < |options|
          ensures !PartialTitle(q, options[j])
        {
        }
      } else {
        var ex := FirstIndex(options, o => ExactTitle(q, o));
        if ex.Some? {
          ExactIsPartial(q, options[ex.value]);
        }
      }
    }
  }

  // ---------------------------------------------------------------------------
  // Features

  /**
   * A feature as read from the features file; each field holds what the source's
   * `feature.get(key, default)` returns, so an absent key shows up as that default.
   */
  datatype Feature = Feature(
    id: Json,                      // feature.get("id", "")
    title: Json,                   // feature.get("title", "")
    kind: string,                  // feature.get("type", "")
    required: Json,                // feature.get("required", False)
    options: seq<FeatureOption>,   // feature.get("options", [])
    units: Json,                   // feature.get("units"), JNull when absent
    defaultValue: Json)            // feature.get("default_value"), JNull when absent

  /** A group of features: `group.get("title", "")` and `group.get("features", [])`. */
  datatype Group = Group(title: Json, features: seq<Feature>)

  /** `str(feature.get("id", ""))`. */
  function FeatureId(f: Feature): string {
    PyStr(f.id)
  }

  predicate IsDropdown(f: Feature) {
    |f.options| > 0 && f.kind == "drop_down_options"
  }

  /** What the AI request holds for a dynamic field: the option titles of a dropdown, or `""`. */
  datatype AiSlot = Blank | Choices(titles: seq<string>)

  function Titles(options: seq<FeatureOption>): (r: seq<string>)
    ensures |r| == |options| && forall k :: 0 <= k < |options| ==> r[k] == TitleOf(options[k])
  {
    seq(|options|, k requires 0 <= k < |options| => TitleOf(options[k]))
  }

  function SlotOf(f: Feature): AiSlot {
    if IsDropdown(f) then Choices(Titles(f.options)) else Blank
  }

  /** The features of all groups, in order. */
  function AllFeatures(groups: seq<Group>): seq<Feature> {
    if |groups| == 0 then [] else AllFeatures(groups[..|groups| - 1]) + groups[|groups| - 1].features
  }

  predicate IsDynamic(f: Feature, dynamic: map<string, string>) {
    FeatureId(f) in dynamic
  }

  /** The AI request after the given features: each dynamic one sets the slot of its AI key. */
  function RequestOf(fs: seq<Feature>, dynamic: map<string, string>): (r: map<string, AiSlot>)
    ensures r.Keys <= dynamic.Values
    ensures |fs| == 0 ==> r == map[]
  {
    if |fs| == 0 then map[]
    else
      var acc := RequestOf(fs[..|fs| - 1], dynamic);
      var f := fs[|fs| - 1];
      if IsDynamic(f, dynamic) then acc[dynamic[FeatureId(f)] := SlotOf(f)] else acc
  }

  /** `build_ai_request`. */
  method BuildAiRequest(groups: seq<Group>, dynamic: map<string, string>) returns (request: map<string, AiSlot>)
    ensures request == RequestOf(AllFeatures(groups), dynamic)
  {
    request := map[];
    var g := 0;
    while g < |groups|
      invariant 0 <= g <= |groups|
      invariant request == RequestOf(AllFeatures(groups[..g]), dynamic)
    {
      var features := groups[g].features;
      var done := AllFeatures(groups[..g]);
      var i := 0;
      assert done + features[..0] == done;
      while i < |features|
        invariant 0 <= i <= |features|
        invariant request == RequestOf(done + features[..i], dynamic)
      {
        var feature := features[i];
        var featureId := PyStr(feature.id);
        assert (done + features[..i + 1])[..|done| + i] == done + features[..i];
        if featureId in dynamic {
          var aiKey := dynamic[featureId];
          request := request[aiKey := SlotOf(feature)];
        }
        i := i + 1;
      }
      assert groups[..g + 1][..g] == groups[..g];
      assert features[..|features|] == features;
      g := g + 1;
    }
    assert groups[..|groups|] == groups;
  }

  /** The request has a key exactly for the AI key of each dynamic feature, and no other. */
  lemma {:induction false} RequestKeys(fs: seq<Feature>, dynamic: map<string, string>, key: string)
    ensures key in RequestOf(fs, dynamic)
      <==> exists i :: 0 <= i < |fs| && IsDynamic(fs[i], dynamic) && dynamic[FeatureId(fs[i])] == key
  {
    if |fs| > 0 {
      var init := fs[..|fs| - 1];
      RequestKeys(init, dynamic, key);
      if exists i :: 0 <= i < |init| && IsDynamic(init[i], dynamic) && dynamic[FeatureId(init[i])] == key {
        var i :| 0 <= i < |init| && IsDynamic(init[i], dynamic) && dynamic[FeatureId(init[i])] == key;
        assert fs[i] == init[i];
      }
      if exists i :: 0 <= i < |fs| && IsDynamic(fs[i], dynamic) && dynamic[FeatureId(fs[i])] == key {
        var i :| 0 <= i < |fs| && IsDynamic(fs[i], dynamic) && dynamic[FeatureId(fs[i])] == key;
        if i < |init| {
          assert init[i] == fs[i];
        }
      }
    }
  }

  /** A key's slot is the slot of the last dynamic feature with that AI key: later duplicates win. */
  lemma {:induction false} RequestSlot(fs: seq<Feature>, dynamic: map<string, string>, i: nat)
    requires i < |fs| && IsDynamic(fs[i], dynamic)
    requires forall j :: i < j < |fs| ==> !(IsDynamic(fs[j], dynamic) && dynamic[FeatureId(fs[j])] == dynamic[FeatureId(fs[i])])
    ensures dynamic[FeatureId(fs[i])] in RequestOf(fs, dynamic)
    ensures RequestOf(fs, dynamic)[dynamic[FeatureId(fs[i])]] == SlotOf(fs[i])
  {
    var init := fs[..|fs| - 1];
    if i < |fs| - 1 {
      assert init[i] == fs[i];
      forall j | i < j < |init|
        ensures !(IsDynamic(init[j], dynamic) && dynamic[FeatureId(init[j])] == dynamic[FeatureId(init[i])])
      {
        assert init[j] == fs[j];
      }
      RequestSlot(init, dynamic, i);
    }
  }

  /** With the shipped table and numeric ids, the request is empty. */
  lemma {:induction false} NumericIdsGiveEmptyRequest(fs: seq<Feature>)
    requires forall i :: 0 <= i < |fs| ==> fs[i].id.JInt?
    ensures RequestOf(fs, DynamicIdsMap) == map[]
  {
    if |fs| > 0 {
      var f := fs[|fs| - 1];
      var id := FeatureId(f);
      assert id == IntToString(f.id.i);
      assert IsDigit(NatToString(if f.id.i < 0 then -f.id.i else f.id.i)[0]);
      NumericIdNeverDynamic(id);
      NumericIdsGiveEmptyRequest(fs[..|fs| - 1]);
    }
  }

  /** With the shipped table, the make feature (id 20) is left out of the AI request. */
  lemma MakeFeatureNotRequested(f: Feature)
    requires f.id == JInt(20)
    ensures RequestOf([f], DynamicIdsMap) == map[]
  {
    NumericIdsGiveEmptyRequest([f]);
  }

  /** With the table keyed by feature id, the make feature asks the AI for `make`. */
  lemma MakeFeatureRequested(f: Feature)
    requires f.id == JInt(20)
    ensures RequestOf([f], DynamicKeysByFeatureId) == map["make" := SlotOf(f)]
  {
    assert FeatureId(f) == "20" by {
      assert NatToString(20) == NatToString(2) + [DigitChar(0)];
    }
    assert [f][..0] == [];
  }

  // ---------------------------------------------------------------------------
  // Processing one feature

  /** A label and the id of the option it names. */
  datatype Label = Label(text: string, optionId: string)

  /** A stage that sets a non-empty label. */
  predicate Fills(w: Option<Label>) {
    w.Some? && w.value.text != ""
  }

  /** The last stage that sets anything. */
  function LastWrite(stages: seq<Option<Label>>): Option<Label> {
    if |stages| == 0 then None
    else if stages[|stages| - 1].Some? then stages[|stages| - 1]
    else LastWrite(stages[..|stages| - 1])
  }

  /**
   * The precedence rule: the first stage that sets a non-empty label decides; when none
   * does, what the last stage to set anything wrote stays.
   */
  function Chosen(stages: seq<Option<Label>>): Label {
    match FirstIndex(stages, Fills)
    case Some(k) => stages[k].value
    case None => LastWrite(stages).GetOr(Label("", ""))
  }

  lemma LastWriteOfThree(s1: Option<Label>, s2: Option<Label>, s3: Option<Label>)
    ensures LastWrite([s1, s2, s3]) == if s3.Some? then s3 else if s2.Some? then s2 else s1
  {
    assert LastWrite([s1]) == s1 by {
      assert [s1][..0] == [];
    }
    assert LastWrite([s1, s2]) == if s2.Some? then s2 else s1 by {
      assert [s1, s2][..1] == [s1];
    }
    assert [s1, s2, s3][..2] == [s1, s2];
  }

  /** The rule for three stages, case by case. */
  lemma ChosenOfThree(s1: Option<Label>, s2: Option<Label>, s3: Option<Label>)
    ensures Chosen([s1, s2, s3])
      == if Fills(s1) then s1.value
         else if Fills(s2) then s2.value
         else if s3.Some? then s3.value
         else if s2.Some? then s2.value
         else if s1.Some? then s1.value
         else Label("", "")
  {
    var st := [s1, s2, s3];
    if Fills(s1) {
      FirstIndexAt(st, Fills, 0);
    } else if Fills(s2) {
      FirstIndexAt(st, Fills, 1);
    } else if Fills(s3) {
      FirstIndexAt(st, Fills, 2);
    } else {
      assert FirstIndex(st, Fills).None?;
      LastWriteOfThree(s1, s2, s3);
    }
  }

  /** A stage that sets nothing can be dropped. */
  lemma ChosenSkipsFirstNone(s2: Option<Label>, s3: Option<Label>)
    ensures Chosen([None, s2, s3]) == Chosen([s2, s3])
  {
    ChosenOfThree(None, s2, s3);
    var st := [s2, s3];
    if Fills(s2) {
      FirstIndexAt(st, Fills, 0);
    } else if Fills(s3) {
      FirstIndexAt(st, Fills, 1);
    } else {
      assert FirstIndex(st, Fills).None?;
      assert LastWrite([s2]) == s2 by {
        assert [s2][..0] == [];
      }
      assert LastWrite(st) == if s3.Some? then s3 else s2 by {
        assert st[..1] == [s2];
      }
    }
  }

  /** Stage 1: the AI value of a dynamic feature, matched against the options of a dropdown. */
  function AiStage(f: Feature, aiResult: map<string, Json>, dynamic: map<string, string>): Option<Label> {
    if !IsDynamic(f, dynamic) then None
    else
      var aiKey := dynamic[FeatureId(f)];
      var aiValue := if aiKey in aiResult then aiResult[aiKey] else JNull;
      if !PyTruthy(aiValue) then None
      else if IsDropdown(f) then
        match FindOptionByTitle(f.options, PyStr(aiValue))
        case Some(m) => Some(Label(m.title, m.id))
        case None => Some(Label(PyStr(aiValue), ""))
      else Some(Label(PyStr(aiValue), ""))
  }

  /** Stage 2: the static default option, when the feature has it among its options. */
  function StaticStage(f: Feature, statics: map<string, string>): Option<Label> {
    if FeatureId(f) !in statics || |f.options| == 0 then None
    else
      match FindOptionById(f.options, statics[FeatureId(f)])
      case Some(m) => Some(Label(m.title, m.id))
      case None => None
  }

  /** Stage 3: `default_value.options` of the feature itself. */
  function DefaultStage(f: Feature): Option<Label> {
    var d := f.defaultValue;
    if PyTruthy(d) && d.JObj? && "options" in d.fields then
      var opt := d.fields["options"];
      Some(Label(StrOrEmpty(GetOr(opt, "title", JStr(""))), PyStr(GetOr(opt, "id", JStr("")))))
    else None
  }

  /** The processed feature `process_feature` returns. */
  datatype Processed = Processed(
    id: string, title: Json, kind: string, required: Json,
    labelText: string, labelId: string,
    options: Option<seq<OptionRef>>, units: Option<Json>)

  function Refs(options: seq<FeatureOption>): (r: seq<OptionRef>)
    ensures |r| == |options| && forall k :: 0 <= k < |options| ==> r[k] == RefOf(options[k])
  {
    seq(|options|, k requires 0 <= k < |options| => RefOf(options[k]))
  }

  /** What processing a feature yields: its fields, its normalised options and units, and the chosen label. */
  function ProcessedOf(f: Feature, aiResult: map<string, Json>, dynamic: map<string, string>,
                       statics: map<string, string>): (r: Processed)
    ensures r.id == PyStr(f.id) && r.title == f.title && r.kind == f.kind && r.required == f.required
    ensures (r.options.Some? <==> |f.options| > 0) && (r.options.Some? ==> |r.options.value| == |f.options|)
    ensures r.options.Some? ==> forall k :: 0 <= k < |f.options| ==> r.options.value[k] == RefOf(f.options[k])
    ensures r.units.Some? <==> PyTruthy(f.units)
    ensures r.units.Some? ==> r.units.value == f.units
    ensures Fills(AiStage(f, aiResult, dynamic)) ==> r.labelText == AiStage(f, aiResult, dynamic).value.text
    ensures !Fills(AiStage(f, aiResult, dynamic)) && Fills(StaticStage(f, statics)) ==>
      r.labelText == StaticStage(f, statics).value.text
  {
    ChosenOfThree(AiStage(f, aiResult, dynamic), StaticStage(f, statics), DefaultStage(f));
    var l := Chosen([AiStage(f, aiResult, dynamic), StaticStage(f, statics), DefaultStage(f)]);
    Processed(FeatureId(f), f.title, f.kind, f.required, l.text, l.optionId,
              if |f.options| > 0 then Some(Refs(f.options)) else None,
              if PyTruthy(f.units) then Some(f.units) else None)
  }

  /** `process_feature`: the label is set stage by stage, each stage only while it is still empty. */
  method ProcessFeature(feature: Feature, aiResult: map<string, Json>, dynamic: map<string, string>,
                        statics: map<string, string>) returns (p: Processed)
    ensures p == ProcessedOf(feature, aiResult, dynamic, statics)
  {
    ghost var s1, s2, s3 := AiStage(feature, aiResult, dynamic), StaticStage(feature, statics), DefaultStage(feature);
    var featureId := PyStr(feature.id);
    var options := feature.options;
    var processed := Processed(featureId, feature.title, feature.kind, feature.required, "", "", None, None);
    if |options| > 0 {
      processed := processed.(options := Some(Refs(options)));
    }
    if PyTruthy(feature.units) {
      processed := processed.(units := Some(feature.units));
    }
    if featureId in dynamic {
      var aiKey := dynamic[featureId];
      var aiValue := if aiKey in aiResult then aiResult[aiKey] else JNull;
      if PyTruthy(aiValue) {
        if |options| > 0 && feature.kind == "drop_down_options" {
          var matched := FindOptionByTitle(options, PyStr(aiValue));
          if matched.Some? {
            processed := processed.(labelText := matched.value.title, labelId := matched.value.id);
          } else {
            processed := processed.(labelText := PyStr(aiValue));
          }
        } else {
          processed := processed.(labelText := PyStr(aiValue));
        }
      }
    }
    assert Label(processed.labelText, processed.labelId) == s1.GetOr(Label("", ""));
    if processed.labelText == "" && featureId in statics {
      var defaultOptionId := statics[featureId];
      if |options| > 0 {
        var matched := FindOptionById(options, defaultOptionId);
        if matched.Some? {
          processed := processed.(labelText := matched.value.title, labelId := matched.value.id);
        }
      }
    }
    assert Label(processed.labelText, processed.labelId)
      == if Fills(s1) then s1.value else if s2.Some? then s2.value else s1.GetOr(Label("", ""));
    if processed.labelText == "" && PyTruthy(feature.defaultValue) {
      var defaultVal := feature.defaultValue;
      if defaultVal.JObj? && "options" in defaultVal.fields {
        var opt := defaultVal.fields["options"];
        processed := processed.(labelText := StrOrEmpty(GetOr(opt, "title", JStr(""))),
                                labelId := PyStr(GetOr(opt, "id", JStr(""))));
      }
    }
    assert Label(processed.labelText, processed.labelId)
      == if Fills(s1) then s1.value
         else if Fills(s2) then s2.value
         else if s3.Some? then s3.value
         else s2.GetOr(s1.GetOr(Label("", "")));
    ChosenOfThree(s1, s2, s3);
    ghost var l := Chosen([s1, s2, s3]);
    assert ProcessedOf(feature, aiResult, dynamic, statics)
      == Processed(featureId, feature.title, feature.kind, feature.required, l.text, l.optionId,
                   if |options| > 0 then Some(Refs(options)) else None,
                   if PyTruthy(feature.units) then Some(feature.units) else None);
    p := processed;
  }

  /** An AI value for a dropdown that matches no option becomes the label, with no option id. */
  lemma UnmatchedAiDropdown(f: Feature, aiResult: map<string, Json>, dynamic: map<string, string>,
                            statics: map<string, string>, value: string)
    requires IsDynamic(f, dynamic) && IsDropdown(f)
    requires dynamic[FeatureId(f)] in aiResult && aiResult[dynamic[FeatureId(f)]] == JStr(value) && value != ""
    requires FindOptionByTitle(f.options, value).None?
    ensures ProcessedOf(f, aiResult, dynamic, statics).labelText == value
    ensures ProcessedOf(f, aiResult, dynamic, statics).labelId == ""
  {
    ChosenOfThree(AiStage(f, aiResult, dynamic), StaticStage(f, statics), DefaultStage(f));
  }

  /** Without an AI result only the static default and the feature's own default can set the label. */
  lemma NoAiResult(f: Feature, dynamic: map<string, string>, statics: map<string, string>)
    ensures var p := ProcessedOf(f, map[], dynamic, statics);
      Label(p.labelText, p.labelId) == Chosen([StaticStage(f, statics), DefaultStage(f)])
  {
    assert AiStage(f, map[], dynamic) == None;
    ChosenSkipsFirstNone(StaticStage(f, statics), DefaultStage(f));
  }

  /** Precedence: a non-empty label from an earlier stage is never overwritten by a later one. */
  lemma EarlierStageWins(f: Feature, aiResult: map<string, Json>, dynamic: map<string, string>,
                         statics: map<string, string>)
    ensures var p := ProcessedOf(f, aiResult, dynamic, statics);
      (Fills(AiStage(f, aiResult, dynamic)) ==> Label(p.labelText, p.labelId) == AiStage(f, aiResult, dynamic).value)
      && (!Fills(AiStage(f, aiResult, dynamic)) && Fills(StaticStage(f, statics))
          ==> Label(p.labelText, p.labelId) == StaticStage(f, statics).value)
  {
    ChosenOfThree(AiStage(f, aiResult, dynamic), StaticStage(f, statics), DefaultStage(f));
  }
}
