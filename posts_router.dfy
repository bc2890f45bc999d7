/**
 * `POST /api/post-config`: loads the feature groups, asks the AI parser for the
 * dynamic fields when the request carries text, and returns every group with
 * its features processed.
 *
 * The features file, the AI parser and the configuration tables are parameters:
 * the groups as loaded (an unreadable file loads as no groups), the parser as a
 * function whose `Err` stands for a raised exception.
 */
module PostsRouter {
  import opened Wrappers
  import opened Json
  import opened FeaturesHelpers

  const LoadError := "Не удалось загрузить конфигурацию полей"

  datatype ProcessedGroup = ProcessedGroup(title: Json, features: seq<Processed>)

  datatype Response =
    | ErrorResponse(status: int, message: string)
    | Config(groups: seq<ProcessedGroup>)

  /** `ai_parser_service.parse_with_schema(text, request)`; `Err` is an exception. */
  type SchemaParser = (string, map<string, AiSlot>) -> Result<Json, string>

  /**
   * The AI result the features are processed against: nothing without text; otherwise the
   * parser's answer when it is a dictionary, and nothing when it is not or the parser fails.
   */
  function AiResultOf(groups: seq<Group>, text: Option<string>, parse: SchemaParser,
                      dynamic: map<string, string>): map<string, Json>
  {
    if text.None? || text.value == "" then map[]
    else
      match parse(text.value, RequestOf(AllFeatures(groups), dynamic))
      case Ok(JObj(answer)) => answer
      case _ => map[]
  }

  function GroupOf(g: Group, aiResult: map<string, Json>, dynamic: map<string, string>,
                   statics: map<string, string>): ProcessedGroup
  {
    ProcessedGroup(g.title, seq(|g.features|, j requires 0 <= j < |g.features| =>
      ProcessedOf(g.features[j], aiResult, dynamic, statics)))
  }

  /** The body of the loop over the groups: the group's title and each of its features processed. */
  method ProcessGroup(group: Group, aiResult: map<string, Json>, dynamic: map<string, string>,
                      statics: map<string, string>) returns (processedGroup: ProcessedGroup)
    ensures processedGroup.title == group.title
    ensures |processedGroup.features| == |group.features|
    ensures forall k :: 0 <= k < |group.features| ==>
      processedGroup.features[k] == ProcessedOf(group.features[k], aiResult, dynamic, statics)
  {
    var features: seq<Processed> := [];
    var j := 0;
    while j < |group.features|
      invariant 0 <= j <= |group.features|
      invariant |features| == j
      invariant forall k :: 0 <= k < j ==> features[k] == ProcessedOf(group.features[k], aiResult, dynamic, statics)
    {
      var processedFeature := ProcessFeature(group.features[j], aiResult, dynamic, statics);
      features := features + [processedFeature];
      j := j + 1;
    }
    processedGroup := ProcessedGroup(group.title, features);
  }

  /** `get_post_config`. */
  method GetPostConfig(groups: seq<Group>, text: Option<string>, parse: SchemaParser,
                       dynamic: map<string, string>, statics: map<string, string>) returns (r: Response)
    ensures |groups| == 0 ==> r == ErrorResponse(500, LoadError)
    ensures |groups| > 0 ==> r.Config? && |r.groups| == |groups|
    ensures |groups| > 0 ==> forall i :: 0 <= i < |groups| ==>
      r.groups[i] == GroupOf(groups[i], AiResultOf(groups, text, parse, dynamic), dynamic, statics)
  {
    if |groups| == 0 {
      return ErrorResponse(500, LoadError);
    }
    var aiResult := AskParser(groups, text, parse, dynamic);
    var resultGroups: seq<ProcessedGroup> := [];
    var g := 0;
    while g < |groups|
      invariant 0 <= g <= |groups|
      invariant |resultGroups| == g
      invariant forall i :: 0 <= i < g ==> resultGroups[i] == GroupOf(groups[i], aiResult, dynamic, statics)
    {
      var processedGroup := ProcessGroup(groups[g], aiResult, dynamic, statics);
      resultGroups := resultGroups + [processedGroup];
      g := g + 1;
    }
    return Config(resultGroups);
  }

  /** The first half of `get_post_config`: the AI request, when there is text, and the parser's dictionary. */
  method AskParser(groups: seq<Group>, text: Option<string>, parse: SchemaParser,
                   dynamic: map<string, string>) returns (aiResult: map<string, Json>)
    ensures aiResult == AiResultOf(groups, text, parse, dynamic)
  {
    aiResult := map[];
    if text.Some? && text.value != "" {
      var aiRequest := BuildAiRequest(groups, dynamic);
      var answer := parse(text.value, aiRequest);
      if answer.Ok? && answer.value.JObj? {
        aiResult := answer.value.fields;
      }
    }
  }

  /** Without text, the parser is never consulted and no AI stage sets a label. */
  lemma NoTextNoAi(groups: seq<Group>, parse: SchemaParser, dynamic: map<string, string>,
                   statics: map<string, string>, f: Feature)
    ensures AiResultOf(groups, None, parse, dynamic) == map[]
    ensures AiResultOf(groups, Some(""), parse, dynamic) == map[]
    ensures var p := ProcessedOf(f, map[], dynamic, statics);
      Label(p.labelText, p.labelId) == Chosen([StaticStage(f, statics), DefaultStage(f)])
  {
    NoAiResult(f, dynamic, statics);
  }

  /** A failing parser, or one that answers with anything but a dictionary, yields no AI result. */
  lemma ParserFailureIgnored(groups: seq<Group>, text: string, parse: SchemaParser, dynamic: map<string, string>)
    requires !(parse(text, RequestOf(AllFeatures(groups), dynamic)).Ok?
               && parse(text, RequestOf(AllFeatures(groups), dynamic)).value.JObj?)
    ensures AiResultOf(groups, Some(text), parse, dynamic) == map[]
  {
  }
}
