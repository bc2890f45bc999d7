/**
 * The post-processing around the language-model calls of the per-field AI
 * parser (`AIParserService`): cleaning a model reply down to its JSON text,
 * cleaning the extracted description blocks, the fallback description built
 * from the blocks, the section assembly of the transformed description, the
 * address taken from the location block, the fallback summary, and the
 * composition of the description label.
 *
 * Every model call is a parameter: its reply as `Some(text)`, or `None` when
 * the call raises. `json.loads` is a parameter too (`None` for a parse error),
 * applied to the cleaned reply.
 */
module AiParserService {
  import opened Wrappers
  import opened Text
  import opened Json
  import opened Lists

  /** `json.loads`: `None` stands for the raised decoding error. */
  type JsonLoads = string -> Option<Json>

  // ---------------------------------------------------------------------------
  // _clean_json_response

  const JsonFence := "```json"
  const Fence := "```"

  /**
   * The text between the first `tagged` fence and the next `fence`; otherwise
   * between the first two `fence`s; otherwise the whole reply; stripped in each
   * case. `_clean_json_response` is this with "```json" and "```".
   */
  function CleanFenced(text: string, tagged: string, fence: string): (r: string)
    requires tagged != [] && fence != []
    ensures !Contains(text, fence) && !Contains(text, tagged) ==> r == Strip(text)
  {
    if Contains(text, tagged) then
      SplitAtFirst(text, tagged);
      Strip(Strip(Split(Split(text, tagged)[1], fence)[0]))
    else if Contains(text, fence) then
      SplitAtFirst(text, fence);
      Strip(Strip(Split(Split(text, fence)[1], fence)[0]))
    else
      Strip(text)
  }

  function CleanJsonResponse(text: string): string {
    CleanFenced(text, JsonFence, Fence)
  }

  /** `c` fills `fence` and `tagged` starts with `fence`: the shape of "```" and "```json". */
  predicate FencePair(tagged: string, fence: string, c: char) {
    fence != [] && StartsWith(tagged, fence) && forall i :: 0 <= i < |fence| ==> fence[i] == c
  }

  lemma JsonFencePair()
    ensures FencePair(JsonFence, Fence, '`')
  {
    assert JsonFence[..3] == Fence;
  }

  /** A stripped piece without `fence` stays without it, and stripping it again changes nothing. */
  lemma StrippedPiece(piece: string, fence: string)
    requires !Contains(piece, fence)
    ensures !Contains(Strip(Strip(piece)), fence)
    ensures Strip(Strip(Strip(piece))) == Strip(Strip(piece))
  {
    StripNoContains(piece, fence);
    StripNoContains(Strip(piece), fence);
    StripIdempotent(piece);
  }

  /** A cleaned reply holds no fence and is already stripped. */
  lemma CleanFencedShape(text: string, tagged: string, fence: string)
    requires tagged != [] && fence != []
    ensures !Contains(CleanFenced(text, tagged, fence), fence)
    ensures Strip(CleanFenced(text, tagged, fence)) == CleanFenced(text, tagged, fence)
  {
    if Contains(text, tagged) {
      SplitAtFirst(text, tagged);
      StrippedPiece(Split(Split(text, tagged)[1], fence)[0], fence);
    } else if Contains(text, fence) {
      SplitAtFirst(text, fence);
      StrippedPiece(Split(Split(text, fence)[1], fence)[0], fence);
    } else {
      StripNoContains(text, fence);
      StripIdempotent(text);
    }
  }

  /** A reply that is stripped and holds no fence is left as it is. */
  lemma CleanFencedOfClean(s: string, tagged: string, fence: string)
    requires tagged != [] && fence != [] && StartsWith(tagged, fence)
    requires !Contains(s, fence) && Strip(s) == s
    ensures CleanFenced(s, tagged, fence) == s
  {
    if Contains(s, tagged) {
      assert tagged == fence + tagged[|fence|..];
      ContainsPrefixOf(s, fence, tagged[|fence|..]);
    }
  }

  /** Cleaning a cleaned reply again changes nothing. */
  lemma CleanFencedIdempotent(text: string, tagged: string, fence: string)
    requires tagged != [] && fence != [] && StartsWith(tagged, fence)
    ensures CleanFenced(CleanFenced(text, tagged, fence), tagged, fence) == CleanFenced(text, tagged, fence)
  {
    CleanFencedShape(text, tagged, fence);
    CleanFencedOfClean(CleanFenced(text, tagged, fence), tagged, fence);
  }

  lemma CleanJsonIdempotent(text: string)
    ensures !Contains(CleanJsonResponse(text), Fence)
    ensures Strip(CleanJsonResponse(text)) == CleanJsonResponse(text)
    ensures CleanJsonResponse(CleanJsonResponse(text)) == CleanJsonResponse(text)
  {
    JsonFencePair();
    CleanFencedShape(text, JsonFence, Fence);
    CleanFencedIdempotent(text, JsonFence, Fence);
  }

  /** The piece after the first occurrence of `p` at `k`, when no earlier character starts `p`. */
  lemma PieceAfter(t: string, p: string, k: nat)
    requires p != [] && OccursAt(t, p, k)
    requires forall j :: 0 <= j < k ==> t[j] != p[0]
    ensures Contains(t, p)
    ensures Split(t, p)[1] == Split(t[k + |p|..], p)[0]
  {
    IndexOfFirstChar(t, p, k);
    SplitAtFirst(t, p);
  }

  /** The text before a fence whose character the text lacks. */
  lemma BeforeFence(body: string, fence: string, post: string, c: char)
    requires fence != [] && fence[0] == c && c !in body
    ensures Split(body + fence + post, fence)[0] == body
  {
    var rest := body + fence + post;
    assert rest[|body|..|body| + |fence|] == fence;
    assert forall j :: 0 <= j < |body| ==> rest[j] == body[j];
    IndexOfFirstChar(rest, fence, |body|);
    SplitAtFirst(rest, fence);
  }

  /** In body + `fence` + post, a tagged fence can only start where the fence does. */
  lemma TaggedAtFence(body: string, post: string, tagged: string, fence: string, c: char, j: nat)
    requires FencePair(tagged, fence, c)
    requires c !in body && c !in post
    requires OccursAt(body + fence + post, tagged, j)
    ensures j == |body|
  {
    var rest := body + fence + post;
    var last := |fence| - 1;
    assert tagged[0] == fence[0] && tagged[last] == fence[last];
    assert rest[j] == rest[j..j + |tagged|][0] == c;
    assert rest[j + last] == rest[j..j + |tagged|][last] == c;
    assert forall i :: 0 <= i < |body| ==> rest[i] == body[i];
    assert forall i :: |body| + |fence| <= i < |rest| ==> rest[i] == post[i - |body| - |fence|];
  }

  /** Cut at the first `tagged` and then at the first `fence`, body + `fence` + post leaves the body. */
  lemma TaggedThenFence(body: string, post: string, tagged: string, fence: string, c: char)
    requires FencePair(tagged, fence, c)
    requires c !in body && c !in post
    ensures Split(Split(body + fence + post, tagged)[0], fence)[0] == body
  {
    var rest := body + fence + post;
    MissingCharNoContains(body, fence, 0);
    SplitNoSeparator(body, fence);
    if Contains(rest, tagged) {
      SplitAtFirst(rest, tagged);
      TaggedAtFence(body, post, tagged, fence, c, IndexOf(rest, tagged));
      assert rest[..|body|] == body;
    } else {
      SplitNoSeparator(rest, tagged);
      BeforeFence(body, fence, post, c);
    }
  }

  lemma Regroup(a: string, b: string, c: string, d: string, e: string)
    ensures a + b + c + d + e == (a + b) + (c + d + e)
  {
  }

  /**
   * A reply `tagged` + body + `fence`: the body is what remains, stripped,
   * whatever free text surrounds the block.
   */
  lemma CleanFencedBlock(pre: string, body: string, post: string, tagged: string, fence: string, c: char)
    requires FencePair(tagged, fence, c)
    requires c !in pre && c !in body && c !in post
    ensures CleanFenced(pre + tagged + body + fence + post, tagged, fence) == Strip(body)
  {
    var rest := body + fence + post;
    var t := pre + tagged + body + fence + post;
    Regroup(pre, tagged, body, fence, post);
    assert t == (pre + tagged) + rest;
    assert t[|pre|..|pre| + |tagged|] == tagged;
    assert forall j :: 0 <= j < |pre| ==> t[j] == pre[j];
    assert tagged[0] == fence[0];
    PieceAfter(t, tagged, |pre|);
    assert t[|pre| + |tagged|..] == rest;
    var piece := Split(t, tagged)[1];
    assert piece == Split(rest, tagged)[0];
    TaggedThenFence(body, post, tagged, fence, c);
    assert Split(piece, fence)[0] == body;
    assert CleanFenced(t, tagged, fence) == Strip(Strip(Split(piece, fence)[0]));
    StripIdempotent(body);
  }

  /** A reply fenced by two plain `fence`s, with no `tagged` fence: the body, stripped. */
  lemma CleanFencedPlain(pre: string, body: string, post: string, tagged: string, fence: string, c: char)
    requires FencePair(tagged, fence, c) && tagged != []
    requires c !in pre && c !in body && c !in post
    requires !Contains(pre + fence + body + fence + post, tagged)
    ensures CleanFenced(pre + fence + body + fence + post, tagged, fence) == Strip(body)
  {
    var rest := body + fence + post;
    var t := pre + fence + body + fence + post;
    Regroup(pre, fence, body, fence, post);
    assert t == (pre + fence) + rest;
    assert t[|pre|..|pre| + |fence|] == fence;
    assert forall j :: 0 <= j < |pre| ==> t[j] == pre[j];
    PieceAfter(t, fence, |pre|);
    assert t[|pre| + |fence|..] == rest;
    var piece := Split(t, fence)[1];
    assert piece == Split(rest, fence)[0];
    BeforeFence(body, fence, post, c);
    assert piece == body;
    MissingCharNoContains(body, fence, 0);
    SplitNoSeparator(body, fence);
    assert CleanFenced(t, tagged, fence) == Strip(Strip(Split(piece, fence)[0]));
    StripIdempotent(body);
  }

  /** The usual reply: a "```json" block, with or without text around it. */
  lemma CleanJsonFencedBlock(pre: string, body: string, post: string)
    requires '`' !in pre && '`' !in body && '`' !in post
    ensures CleanJsonResponse(pre + JsonFence + body + Fence + post) == Strip(body)
  {
    JsonFencePair();
    CleanFencedBlock(pre, body, post, JsonFence, Fence, '`');
  }

  /** A block fenced by plain "```". */
  lemma CleanJsonPlainFence(pre: string, body: string, post: string)
    requires '`' !in pre && '`' !in body && '`' !in post
    requires !Contains(pre + Fence + body + Fence + post, JsonFence)
    ensures CleanJsonResponse(pre + Fence + body + Fence + post) == Strip(body)
  {
    JsonFencePair();
    CleanFencedPlain(pre, body, post, JsonFence, Fence, '`');
  }

  // ---------------------------------------------------------------------------
  // _extract_description_blocks

  /** The reply's blocks: the string values that are not blank, stored stripped. */
  function CleanBlocks(raw: map<string, Json>): map<string, string> {
    map k | k in raw && CleanBlock(raw[k]).Some? :: CleanBlock(raw[k]).value
  }

  /** One value of the reply: kept, stripped, when it is a string that is not blank. */
  function CleanBlock(v: Json): Option<string> {
    if v.JStr? && |Strip(v.s)| > 0 then Some(Strip(v.s)) else None
  }

  function AsJson(blocks: map<string, string>): map<string, Json> {
    map k | k in blocks :: JStr(blocks[k])
  }

  /** Every kept block is non-blank and stripped, and comes from a string value of the reply. */
  lemma CleanBlocksClean(raw: map<string, Json>)
    ensures forall k :: k in CleanBlocks(raw) ==>
      k in raw && raw[k].JStr? && CleanBlocks(raw)[k] == Strip(raw[k].s)
    ensures forall k :: k in CleanBlocks(raw) ==>
      |CleanBlocks(raw)[k]| > 0 && Strip(CleanBlocks(raw)[k]) == CleanBlocks(raw)[k]
    ensures forall k :: k in raw && raw[k].JStr? && |Strip(raw[k].s)| > 0 ==> k in CleanBlocks(raw)
  {
    forall k | k in CleanBlocks(raw)
      ensures Strip(CleanBlocks(raw)[k]) == CleanBlocks(raw)[k]
    {
      StripIdempotent(raw[k].s);
    }
  }

  /** Blocks that are all non-blank and stripped survive cleaning unchanged. */
  lemma CleanBlocksKeepsClean(blocks: map<string, string>)
    requires forall k :: k in blocks ==> |blocks[k]| > 0 && Strip(blocks[k]) == blocks[k]
    ensures CleanBlocks(AsJson(blocks)) == blocks
  {
    var j := AsJson(blocks);
    var d := CleanBlocks(j);
    forall k | k in blocks
      ensures k in d && d[k] == blocks[k]
    {
      assert j[k] == JStr(blocks[k]);
      assert CleanBlock(j[k]) == Some(blocks[k]);
    }
    assert d.Keys <= j.Keys == blocks.Keys;
  }

  /** Cleaning blocks that were already cleaned keeps them all, unchanged. */
  lemma CleanBlocksIdempotent(raw: map<string, Json>)
    ensures CleanBlocks(AsJson(CleanBlocks(raw))) == CleanBlocks(raw)
  {
    CleanBlocksClean(raw);
    CleanBlocksKeepsClean(CleanBlocks(raw));
  }

  /** The blocks read from the extraction reply; none when the call, the decoding or `.items()` raises. */
  function BlocksOf(reply: Option<string>, loads: JsonLoads): map<string, string> {
    match reply
    case None => map[]
    case Some(output) =>
      match loads(CleanJsonResponse(output))
      case Some(JObj(raw)) => CleanBlocks(raw)
      case _ => map[]
  }

  /** `blocks.get(key, "")`. */
  function BlockOf(blocks: map<string, string>, key: string): string {
    if key in blocks then blocks[key] else ""
  }

  // ---------------------------------------------------------------------------
  // _build_description_from_blocks

  const BlockOrder: seq<string> := ["available", "location", "vin", "condition", "possible"]

  /** The non-empty blocks among `keys`, in the order of `keys`. */
  function Present(blocks: map<string, string>, keys: seq<string>): seq<string>
    decreases |keys|
  {
    if |keys| == 0 then []
    else
      var k := keys[|keys| - 1];
      Present(blocks, keys[..|keys| - 1]) + (if k in blocks && blocks[k] != "" then [blocks[k]] else [])
  }

  /** The fallback description: the non-empty blocks in the fixed order, a blank line between two. */
  function DescriptionFromBlocks(blocks: map<string, string>): string {
    Join(Present(blocks, BlockOrder), "\n\n")
  }

  /** Each item followed by an empty line, as the loop appends them. */
  function Spaced(xs: seq<string>): seq<string>
    decreases |xs|
  {
    if |xs| == 0 then [] else Spaced(xs[..|xs| - 1]) + [xs[|xs| - 1], ""]
  }

  lemma SpacedSnoc(xs: seq<string>, x: string)
    ensures Spaced(xs + [x]) == Spaced(xs) + [x, ""]
  {
    assert (xs + [x])[..|xs|] == xs;
  }

  /** Dropping the trailing empty line and joining by newlines joins the items by blank lines. */
  lemma {:induction false} JoinSpaced(xs: seq<string>)
    requires |xs| > 0
    ensures |Spaced(xs)| > 0 && Spaced(xs)[|Spaced(xs)| - 1] == ""
    ensures Join(Spaced(xs)[..|Spaced(xs)| - 1], "\n") == Join(xs, "\n\n")
    decreases |xs|
  {
    var init := xs[..|xs| - 1];
    var x := xs[|xs| - 1];
    var s := Spaced(init);
    assert Spaced(xs)[..|Spaced(xs)| - 1] == s + [x];
    assert xs == init + [x];
    if |init| > 0 {
      JoinSpaced(init);
      var front := s[..|s| - 1];
      assert s == front + [""];
      JoinAppend(front, [""], "\n");
      JoinAppend(s, [x], "\n");
      JoinAppend(init, [x], "\n\n");
      assert Join(s + [x], "\n") == Join(init, "\n\n") + "\n\n" + x;
    }
  }

  /** `_build_description_from_blocks`. */
  method BuildDescriptionFromBlocks(blocks: map<string, string>) returns (description: string)
    ensures description == DescriptionFromBlocks(blocks)
  {
    var result: seq<string> := [];
    for i := 0 to |BlockOrder|
      invariant result == Spaced(Present(blocks, BlockOrder[..i]))
    {
      var key := BlockOrder[i];
      assert BlockOrder[..i + 1][..i] == BlockOrder[..i];
      ghost var before := Present(blocks, BlockOrder[..i]);
      if key in blocks && blocks[key] != "" {
        assert Present(blocks, BlockOrder[..i + 1]) == before + [blocks[key]];
        SpacedSnoc(before, blocks[key]);
        result := result + [blocks[key], ""];
      } else {
        assert Present(blocks, BlockOrder[..i + 1]) == before;
      }
    }
    assert BlockOrder[..|BlockOrder|] == BlockOrder;
    if |result| > 0 && result[|result| - 1] == "" {
      JoinSpaced(Present(blocks, BlockOrder));
      result := result[..|result| - 1];
    }
    description := Join(result, "\n");
  }

  /** Keys outside the fixed order never reach the description. */
  lemma {:induction false} PresentIgnoresOtherKeys(blocks: map<string, string>, keys: seq<string>, k: string, v: string)
    requires k !in keys
    ensures Present(blocks[k := v], keys) == Present(blocks, keys)
    decreases |keys|
  {
    if |keys| > 0 {
      PresentIgnoresOtherKeys(blocks, keys[..|keys| - 1], k, v);
    }
  }

  lemma DescriptionIgnoresOtherKeys(blocks: map<string, string>, k: string, v: string)
    requires k !in BlockOrder
    ensures DescriptionFromBlocks(blocks[k := v]) == DescriptionFromBlocks(blocks)
  {
    PresentIgnoresOtherKeys(blocks, BlockOrder, k, v);
  }

  /** Every item of the description is a non-empty block stored under one of the keys. */
  lemma {:induction false} PresentFromBlocks(blocks: map<string, string>, keys: seq<string>)
    ensures forall x :: x in Present(blocks, keys) ==>
      x != "" && exists k :: k in keys && k in blocks && blocks[k] == x
    decreases |keys|
  {
    if |keys| > 0 {
      PresentFromBlocks(blocks, keys[..|keys| - 1]);
      var k := keys[|keys| - 1];
      assert forall j :: j in keys[..|keys| - 1] ==> j in keys;
    }
  }

  /** With all five blocks present, they appear in the fixed order. */
  lemma PresentAllInOrder(blocks: map<string, string>)
    requires forall k :: k in BlockOrder ==> k in blocks && blocks[k] != ""
    ensures Present(blocks, BlockOrder) ==
      [blocks["available"], blocks["location"], blocks["vin"], blocks["condition"], blocks["possible"]]
  {
    assert BlockOrder[..1][..0] == [];
    assert Present(blocks, BlockOrder[..1]) == [blocks["available"]];
    assert BlockOrder[..2][..1] == BlockOrder[..1];
    assert Present(blocks, BlockOrder[..2]) == [blocks["available"], blocks["location"]];
    assert BlockOrder[..3][..2] == BlockOrder[..2];
    assert Present(blocks, BlockOrder[..3]) == [blocks["available"], blocks["location"], blocks["vin"]];
    assert BlockOrder[..4][..3] == BlockOrder[..3];
    assert Present(blocks, BlockOrder[..4]) ==
      [blocks["available"], blocks["location"], blocks["vin"], blocks["condition"]];
    assert BlockOrder[..5][..4] == BlockOrder[..4];
    assert BlockOrder[..5] == BlockOrder;
  }

  // ---------------------------------------------------------------------------
  // Section assembly in _transform_description_blocks

  const ConditionHeader := "СОСТОЯНИЕ:"
  const FeaturesHeader := "КОМПЛЕКТАЦИЯ:"
  const AdvantagesHeader := "ПРЕИМУЩЕСТВА:"

  /** A value `"\n".join` accepts once appended: anything falsy is skipped, a truthy value must be a string. */
  predicate Joinable(v: Json) {
    !PyTruthy(v) || v.JStr?
  }

  /** The text of one section of the transformation answer, `""` when it is skipped. */
  function SectionText(transformed: Json, key: string): string {
    var v := Get(transformed, key);
    if PyTruthy(v) && v.JStr? then v.s else ""
  }

  /** The lines appended for one section: none when it is empty, else its header, its text and maybe a blank line. */
  function SectionPart(header: string, text: string, spaced: bool): seq<string> {
    if text == "" then [] else [header, text] + (if spaced then [""] else [])
  }

  /** The lines appended for the three sections, in the fixed order. */
  function SectionLines(condition: string, features: string, advantages: string): seq<string> {
    SectionPart(ConditionHeader, condition, true)
    + SectionPart(FeaturesHeader, features, true)
    + SectionPart(AdvantagesHeader, advantages, false)
  }

  /**
   * The transformed description: the assembled sections when the answer is a
   * dictionary whose sections join; otherwise (a failed call, a decoding error,
   * an answer that is not a dictionary, a section that is not text) the
   * fallback description from the blocks.
   */
  function TransformedOf(reply: Option<string>, loads: JsonLoads, blocks: map<string, string>): string {
    match reply
    case None => DescriptionFromBlocks(blocks)
    case Some(output) =>
      match loads(CleanJsonResponse(output))
      case Some(JObj(fields)) =>
        var t := JObj(fields);
        if Joinable(Get(t, "condition")) && Joinable(Get(t, "features")) && Joinable(Get(t, "advantages")) then
          Strip(Join(SectionLines(SectionText(t, "condition"), SectionText(t, "features"),
                                  SectionText(t, "advantages")), "\n"))
        else DescriptionFromBlocks(blocks)
      case _ => DescriptionFromBlocks(blocks)
  }

  /** The text of the three sections, assembled and stripped. */
  method AssembleSections(transformed: Json) returns (description: string)
    requires Joinable(Get(transformed, "condition")) && Joinable(Get(transformed, "features"))
    requires Joinable(Get(transformed, "advantages"))
    ensures description == Strip(Join(SectionLines(SectionText(transformed, "condition"),
      SectionText(transformed, "features"), SectionText(transformed, "advantages")), "\n"))
  {
    var condition := Get(transformed, "condition");
    var features := Get(transformed, "features");
    var advantages := Get(transformed, "advantages");
    ghost var part1 := SectionPart(ConditionHeader, SectionText(transformed, "condition"), true);
    ghost var part2 := SectionPart(FeaturesHeader, SectionText(transformed, "features"), true);
    ghost var part3 := SectionPart(AdvantagesHeader, SectionText(transformed, "advantages"), false);
    var result: seq<string> := [];
    if PyTruthy(condition) {
      result := result + [ConditionHeader, condition.s, ""];
    }
    assert result == part1;
    if PyTruthy(features) {
      result := result + [FeaturesHeader, features.s, ""];
    }
    assert result == part1 + part2;
    if PyTruthy(advantages) {
      result := result + [AdvantagesHeader, advantages.s];
    }
    assert result == part1 + part2 + part3;
    description := Strip(Join(result, "\n"));
  }

  /** `_transform_description_blocks` after the model call. */
  method TransformDescriptionBlocks(reply: Option<string>, loads: JsonLoads, blocks: map<string, string>)
    returns (description: string)
    ensures description == TransformedOf(reply, loads, blocks)
  {
    if reply.None? {
      description := BuildDescriptionFromBlocks(blocks);
      return;
    }
    var parsed := loads(CleanJsonResponse(reply.value));
    if parsed.Some? && parsed.value.JObj? {
      var transformed := parsed.value;
      if Joinable(Get(transformed, "condition")) && Joinable(Get(transformed, "features"))
         && Joinable(Get(transformed, "advantages")) {
        description := AssembleSections(transformed);
        return;
      }
    }
    description := BuildDescriptionFromBlocks(blocks);
  }

  lemma SpacedPartJoin(header: string, text: string)
    requires text != ""
    ensures Join(SectionPart(header, text, true), "\n") == header + "\n" + text + "\n"
  {
    var p := SectionPart(header, text, true);
    assert p == [header, text, ""];
    assert p[1..] == [text, ""];
    assert p[1..][1..] == [""];
    assert Join(p[1..], "\n") == text + "\n" + "";
  }

  /** With all three sections, the headers come in the fixed order, each on its own line before its text. */
  lemma AllSections(condition: string, features: string, advantages: string)
    requires condition != "" && features != "" && advantages != ""
    ensures Join(SectionLines(condition, features, advantages), "\n") ==
      ConditionHeader + "\n" + condition + "\n\n"
      + FeaturesHeader + "\n" + features + "\n\n"
      + AdvantagesHeader + "\n" + advantages
  {
    var c := SectionPart(ConditionHeader, condition, true);
    var f := SectionPart(FeaturesHeader, features, true);
    var v := SectionPart(AdvantagesHeader, advantages, false);
    assert SectionLines(condition, features, advantages) == c + (f + v);
    JoinAppend(f, v, "\n");
    JoinAppend(c, f + v, "\n");
    SpacedPartJoin(ConditionHeader, condition);
    SpacedPartJoin(FeaturesHeader, features);
    assert v[1..] == [advantages];
  }

  /** A header is emitted exactly when its section is non-empty (for texts that are not themselves headers). */
  lemma SectionHeaders(condition: string, features: string, advantages: string)
    requires forall x :: x in [condition, features, advantages] ==>
      x != ConditionHeader && x != FeaturesHeader && x != AdvantagesHeader
    ensures ConditionHeader in SectionLines(condition, features, advantages) <==> condition != ""
    ensures FeaturesHeader in SectionLines(condition, features, advantages) <==> features != ""
    ensures AdvantagesHeader in SectionLines(condition, features, advantages) <==> advantages != ""
  {
    assert condition in [condition, features, advantages];
    assert features in [condition, features, advantages];
    assert advantages in [condition, features, advantages];
  }

  /** An answer with no truthy section gives the empty description. */
  lemma NoSections(fields: map<string, Json>)
    requires !PyTruthy(Get(JObj(fields), "condition"))
    requires !PyTruthy(Get(JObj(fields), "features"))
    requires !PyTruthy(Get(JObj(fields), "advantages"))
    ensures Strip(Join(SectionLines(SectionText(JObj(fields), "condition"), SectionText(JObj(fields), "features"),
                                    SectionText(JObj(fields), "advantages")), "\n")) == ""
  {
    var t := JObj(fields);
    assert SectionText(t, "condition") == "" && SectionText(t, "features") == "" && SectionText(t, "advantages") == "";
    assert SectionLines("", "", "") == [];
    assert |Join([], "\n")| == 0;
    StripEmpty(Join([], "\n"));
  }

  // ---------------------------------------------------------------------------
  // _extract_address_from_blocks

  const DefaultAddress := "Bugeac, Pavlova 1A"
  const Pin := '\U{1F4CD}'
  const Phone := '\U{1F4DE}'
  const LocationLead := "Мы находимся:"

  /** A line with every `pin` and every `lead` removed, stripped. */
  function CleanLine(line: string, pin: char, lead: string): string
    requires lead != []
  {
    Strip(ReplaceAll(DeleteChar(line, pin), lead, ""))
  }

  /** A location line with the pin and the lead-in removed, stripped. */
  function CleanAddressLine(line: string): string {
    CleanLine(line, Pin, LocationLead)
  }

  /** A cleaned line that can serve as the address: not empty, and starting with neither the phone sign nor "+". */
  predicate IsAddress(clean: string) {
    |clean| > 0 && clean[0] != Phone && clean[0] != '+'
  }

  predicate AddressLine(line: string) {
    IsAddress(CleanAddressLine(line))
  }

  lemma DefaultAddressUsable()
    ensures IsAddress(DefaultAddress)
  {
    assert DefaultAddress[0] == 'B';
  }

  /** The first usable line, cleaned; the default address when there is none. */
  function AddressIn(lines: seq<string>): (r: string)
    ensures IsAddress(r)
    ensures (forall k :: 0 <= k < |lines| ==> !AddressLine(lines[k])) ==> r == DefaultAddress
  {
    match FirstIndex(lines, AddressLine)
    case Some(k) => CleanAddressLine(lines[k])
    case None => DefaultAddressUsable(); DefaultAddress
  }

  /** The first usable line, cleaned, is the address, whatever follows it. */
  lemma AddressInFirst(lines: seq<string>, k: nat)
    requires k < |lines| && AddressLine(lines[k])
    requires forall j :: 0 <= j < k ==> !AddressLine(lines[j])
    ensures AddressIn(lines) == CleanAddressLine(lines[k])
  {
    FirstIndexAt(lines, AddressLine, k);
  }

  /** The address read from the location block; the default when there is no such block. */
  function AddressOf(blocks: map<string, string>): (r: string)
    ensures IsAddress(r)
    ensures |BlockOf(blocks, "location")| == 0 ==> r == DefaultAddress
  {
    var location := BlockOf(blocks, "location");
    if |location| == 0 then DefaultAddressUsable(); DefaultAddress
    else AddressIn(Split(location, "\n"))
  }

  /** The loop over the lines of the location block. */
  method FindAddress(lines: seq<string>) returns (address: string)
    ensures address == AddressIn(lines)
  {
    for i := 0 to |lines|
      invariant forall j :: 0 <= j < i ==> !AddressLine(lines[j])
    {
      var cleanLine := CleanAddressLine(lines[i]);
      if IsAddress(cleanLine) {
        FirstIndexAt(lines, AddressLine, i);
        return cleanLine;
      }
    }
    return DefaultAddress;
  }

  /** `_extract_address_from_blocks`. */
  method ExtractAddress(blocks: map<string, string>) returns (address: string)
    ensures address == AddressOf(blocks)
  {
    var location := BlockOf(blocks, "location");
    if |location| > 0 {
      address := FindAddress(Split(location, "\n"));
      return;
    }
    return DefaultAddress;
  }

  /** The address is the first usable line, however many unusable lines precede it. */
  lemma AddressIsFirstUsableLine(blocks: map<string, string>, k: nat)
    requires |BlockOf(blocks, "location")| > 0
    requires k < |Split(BlockOf(blocks, "location"), "\n")|
    requires AddressLine(Split(BlockOf(blocks, "location"), "\n")[k])
    requires forall j :: 0 <= j < k ==> !AddressLine(Split(BlockOf(blocks, "location"), "\n")[j])
    ensures AddressOf(blocks) == CleanAddressLine(Split(BlockOf(blocks, "location"), "\n")[k])
  {
    FirstIndexAt(Split(BlockOf(blocks, "location"), "\n"), AddressLine, k);
  }

  /** A plain first line, already clean, is the address as it stands. */
  lemma PlainFirstLineIsAddress(blocks: map<string, string>, line: string)
    requires "location" in blocks && |blocks["location"]| > 0
    requires Split(blocks["location"], "\n")[0] == line
    requires Pin !in line && !Contains(line, LocationLead) && Strip(line) == line && IsAddress(line)
    ensures AddressOf(blocks) == line
  {
    DeleteCharNoop(line, Pin);
    ReplaceAllNoop(line, LocationLead, "");
    assert AddressLine(line);
    FirstIndexAt(Split(blocks["location"], "\n"), AddressLine, 0);
  }

  // ---------------------------------------------------------------------------
  // _generate_fallback_summary

  /** The labels of the `available` block, in the order the `elif` chain tests them. */
  const FactLabels: seq<string> := ["Марка:", "Модель:", "Год:", "Цена:"]

  datatype CarFacts = CarFacts(make: string, model: string, year: string, price: string)

  const NoFacts := CarFacts("", "", "", "")

  /** The fact a line sets: the first label of the chain it contains, or 4 for none. */
  function LineField(line: string): (k: nat)
    ensures k <= 4
  {
    if Contains(line, FactLabels[0]) then 0
    else if Contains(line, FactLabels[1]) then 1
    else if Contains(line, FactLabels[2]) then 2
    else if Contains(line, FactLabels[3]) then 3
    else 4
  }

  /** The chain picks the first label, in the fixed order, that the line contains. */
  lemma LineFieldFirstMatch(line: string)
    ensures LineField(line) == (match FirstIndex(FactLabels, (l: string) => Contains(line, l))
                                case Some(k) => k
                                case None => 4)
  {
    var p := (l: string) => Contains(line, l);
    var k := LineField(line);
    if k < 4 {
      FirstIndexAt(FactLabels, p, k);
    } else {
      assert forall j :: 0 <= j < 4 ==> !p(FactLabels[j]);
    }
  }

  /** `line.split(label)[1].strip()`: the text after the first occurrence of the label, up to a second one. */
  function After(line: string, tag: string): string
    requires tag != [] && Contains(line, tag)
  {
    SplitAtFirst(line, tag);
    Strip(Split(line, tag)[1])
  }

  function Fact(f: CarFacts, k: nat): string
    requires k < 4
  {
    if k == 0 then f.make else if k == 1 then f.model else if k == 2 then f.year else f.price
  }

  /** One iteration of the loop over the lines: the chosen fact is overwritten, the others kept. */
  function ScanLine(f: CarFacts, line: string): (r: CarFacts)
    ensures forall k :: 0 <= k < 4 && k != LineField(line) ==> Fact(r, k) == Fact(f, k)
  {
    var k := LineField(line);
    if k == 4 then f
    else
      var v := After(line, FactLabels[k]);
      if k == 0 then f.(make := v)
      else if k == 1 then f.(model := v)
      else if k == 2 then f.(year := v)
      else f.(price := v)
  }

  lemma ScanLineSets(f: CarFacts, line: string)
    requires LineField(line) < 4
    ensures Fact(ScanLine(f, line), LineField(line)) == After(line, FactLabels[LineField(line)])
  {
  }

  /** The facts read from the lines, left to right. */
  function FactsOf(lines: seq<string>): CarFacts
    decreases |lines|
  {
    if |lines| == 0 then NoFacts else ScanLine(FactsOf(lines[..|lines| - 1]), lines[|lines| - 1])
  }

  /** A fact comes from the last line that sets it. */
  lemma {:induction false} FactFromLastLine(lines: seq<string>, k: nat, i: nat)
    requires k < 4 && i < |lines| && LineField(lines[i]) == k
    requires forall j :: i < j < |lines| ==> LineField(lines[j]) != k
    ensures Fact(FactsOf(lines), k) == After(lines[i], FactLabels[k])
    decreases |lines|
  {
    var init := lines[..|lines| - 1];
    if i == |lines| - 1 {
      ScanLineSets(FactsOf(init), lines[i]);
    } else {
      assert init[i] == lines[i];
      assert forall j :: i < j < |init| ==> init[j] == lines[j];
      FactFromLastLine(init, k, i);
    }
  }

  /** A fact no line sets stays empty. */
  lemma {:induction false} FactAbsent(lines: seq<string>, k: nat)
    requires k < 4
    requires forall j :: 0 <= j < |lines| ==> LineField(lines[j]) != k
    ensures Fact(FactsOf(lines), k) == ""
    decreases |lines|
  {
    if |lines| > 0 {
      var init := lines[..|lines| - 1];
      assert forall j :: 0 <= j < |init| ==> init[j] == lines[j];
      FactAbsent(init, k);
    }
  }

  /** The condition phrases tested, in order, against the lowered condition block, and what each yields. */
  const ConditionPhrases: seq<string> := ["идеальное состояние", "свежепригнана", "отличное состояние"]
  const ConditionWords: seq<string> := ["идеальное состояние", "свежепригнанный", "отличное состояние"]
  const GoodCondition := "хорошее состояние"

  function ConditionText(condition: string): string {
    var lowered := Lower(condition);
    if Contains(lowered, ConditionPhrases[0]) then ConditionWords[0]
    else if Contains(lowered, ConditionPhrases[1]) then ConditionWords[1]
    else if Contains(lowered, ConditionPhrases[2]) then ConditionWords[2]
    else GoodCondition
  }

  /** The first phrase found decides: идеальное before свежепригнана before отличное; хорошее otherwise. */
  lemma ConditionFirstMatch(condition: string)
    ensures ConditionText(condition) == (match FirstIndex(ConditionPhrases, (p: string) => Contains(Lower(condition), p))
                                         case Some(k) => ConditionWords[k]
                                         case None => GoodCondition)
  {
    var p := (q: string) => Contains(Lower(condition), q);
    if p(ConditionPhrases[0]) {
      FirstIndexAt(ConditionPhrases, p, 0);
    } else if p(ConditionPhrases[1]) {
      FirstIndexAt(ConditionPhrases, p, 1);
    } else if p(ConditionPhrases[2]) {
      FirstIndexAt(ConditionPhrases, p, 2);
    } else {
      assert forall j :: 0 <= j < 3 ==> !p(ConditionPhrases[j]);
    }
  }

  const SummaryTail := ". Надежный автомобиль с хорошей комплектацией."
  const GenericSummary := "Надежный автомобиль в хорошем состоянии с интересной комплектацией."

  function SummaryText(facts: CarFacts, conditionText: string): string {
    if |facts.make| > 0 && |facts.year| > 0 then facts.make + " " + facts.year + ", " + conditionText + SummaryTail
    else GenericSummary
  }

  /** The fallback summary of the blocks. */
  function FallbackSummaryOf(blocks: map<string, string>): string {
    SummaryText(FactsOf(Split(BlockOf(blocks, "available"), "\n")), ConditionText(BlockOf(blocks, "condition")))
  }

  /** The summary names make and year only when both were found; it is never empty. */
  lemma SummaryTextShape(facts: CarFacts, conditionText: string)
    ensures |SummaryText(facts, conditionText)| > 0
    ensures |facts.make| > 0 && |facts.year| > 0 ==>
      StartsWith(SummaryText(facts, conditionText), facts.make + " " + facts.year + ", ")
    ensures |facts.make| == 0 || |facts.year| == 0 ==> SummaryText(facts, conditionText) == GenericSummary
  {
    if |facts.make| > 0 && |facts.year| > 0 {
      var head := facts.make + " " + facts.year + ", ";
      assert SummaryText(facts, conditionText) == head + (conditionText + SummaryTail);
    }
  }

  /** `_generate_fallback_summary`. */
  method FallbackSummary(blocks: map<string, string>) returns (summary: string)
    ensures summary == FallbackSummaryOf(blocks)
  {
    var available := BlockOf(blocks, "available");
    var condition := BlockOf(blocks, "condition");
    var lines := Split(available, "\n");
    var make, model, year, price := "", "", "", "";
    for i := 0 to |lines|
      invariant CarFacts(make, model, year, price) == FactsOf(lines[..i])
    {
      var line := lines[i];
      assert lines[..i + 1][..i] == lines[..i];
      if Contains(line, FactLabels[0]) {
        make := After(line, FactLabels[0]);
      } else if Contains(line, FactLabels[1]) {
        model := After(line, FactLabels[1]);
      } else if Contains(line, FactLabels[2]) {
        year := After(line, FactLabels[2]);
      } else if Contains(line, FactLabels[3]) {
        price := After(line, FactLabels[3]);
      }
    }
    assert lines[..|lines|] == lines;
    var conditionText := ConditionText(condition);
    if |make| > 0 && |year| > 0 {
      return make + " " + year + ", " + conditionText + SummaryTail;
    }
    return GenericSummary;
  }

  // ---------------------------------------------------------------------------
  // _generate_description_summary

  /**
   * The model's summary, stripped; empty when the call or the decoding raises, when the
   * answer is not a dictionary or its `summary` is missing, blank or not text (`.get`
   * or `.strip()` then raises or yields nothing, and the fallback is used either way).
   */
  function SummaryAnswer(reply: Option<string>, loads: JsonLoads): string {
    match reply
    case None => ""
    case Some(output) =>
      match loads(CleanJsonResponse(output))
      case Some(JObj(fields)) =>
        if "summary" in fields && fields["summary"].JStr? then Strip(fields["summary"].s) else ""
      case _ => ""
  }

  /** The summary: the model's when it gave a non-blank one, the fallback otherwise. */
  function SummaryOf(reply: Option<string>, loads: JsonLoads, blocks: map<string, string>): (r: string)
    ensures |r| > 0
    ensures |SummaryAnswer(reply, loads)| > 0 ==> r == SummaryAnswer(reply, loads)
    ensures |SummaryAnswer(reply, loads)| == 0 ==> r == FallbackSummaryOf(blocks)
  {
    var given := SummaryAnswer(reply, loads);
    if |given| > 0 then given
    else
      SummaryTextShape(FactsOf(Split(BlockOf(blocks, "available"), "\n")), ConditionText(BlockOf(blocks, "condition")));
      FallbackSummaryOf(blocks)
  }

  /** A failed call always yields the fallback summary. */
  lemma FailedCallFallsBack(loads: JsonLoads, blocks: map<string, string>)
    ensures SummaryOf(None, loads, blocks) == FallbackSummaryOf(blocks)
  {
  }

  /** `_generate_description_summary` after the model call. */
  method GenerateDescriptionSummary(reply: Option<string>, loads: JsonLoads, blocks: map<string, string>)
    returns (summary: string)
    ensures summary == SummaryOf(reply, loads, blocks)
  {
    summary := "";
    if reply.Some? {
      var result := loads(CleanJsonResponse(reply.value));
      if result.Some? && result.value.JObj? && "summary" in result.value.fields
         && result.value.fields["summary"].JStr? {
        summary := Strip(result.value.fields["summary"].s);
      }
    }
    if |summary| == 0 {
      summary := FallbackSummary(blocks);
    }
  }

  // ---------------------------------------------------------------------------
  // _parse_description_field

  /** `DESCRIPTION_FOOTER_TEMPLATE.format(address=address)`. */
  type FooterTemplate = string -> string

  /** `f"{summary}\n\n{description}\n{footer}"`. */
  function Complete(summary: string, description: string, footerText: string): (r: string)
    ensures |r| > |summary|
    ensures StartsWith(r, summary + "\n\n") && EndsWith(r, "\n" + footerText)
  {
    Framed(summary + "\n\n", description, "\n" + footerText);
    summary + "\n\n" + (description + "\n" + footerText)
  }

  /**
   * The description label from the three model replies: empty when no blocks were
   * extracted; otherwise the summary, a blank line, the transformed description and,
   * on the next line, the footer with the address.
   */
  function DescriptionLabelOf(blocksReply: Option<string>, summaryReply: Option<string>,
                              transformReply: Option<string>, loads: JsonLoads, footer: FooterTemplate): string
  {
    var blocks := BlocksOf(blocksReply, loads);
    if |blocks| == 0 then ""
    else Complete(SummaryOf(summaryReply, loads, blocks), TransformedOf(transformReply, loads, blocks),
                  footer(AddressOf(blocks)))
  }

  /** The label is empty exactly when no blocks were extracted. */
  lemma DescriptionEmptyIffNoBlocks(blocksReply: Option<string>, summaryReply: Option<string>,
                                    transformReply: Option<string>, loads: JsonLoads, footer: FooterTemplate)
    ensures |DescriptionLabelOf(blocksReply, summaryReply, transformReply, loads, footer)| == 0
            <==> |BlocksOf(blocksReply, loads)| == 0
  {
  }

  /** With blocks, the label opens with the summary and a blank line and closes with the footer. */
  lemma DescriptionLayout(blocksReply: Option<string>, summaryReply: Option<string>,
                          transformReply: Option<string>, loads: JsonLoads, footer: FooterTemplate)
    requires |BlocksOf(blocksReply, loads)| > 0
    ensures var blocks := BlocksOf(blocksReply, loads);
      var text := DescriptionLabelOf(blocksReply, summaryReply, transformReply, loads, footer);
      StartsWith(text, SummaryOf(summaryReply, loads, blocks) + "\n\n")
      && EndsWith(text, "\n" + footer(AddressOf(blocks)))
  {
  }

  /** `_parse_description_field` after the model calls. */
  method ParseDescriptionField(blocksReply: Option<string>, summaryReply: Option<string>,
                               transformReply: Option<string>, loads: JsonLoads, footer: FooterTemplate)
    returns (result: map<string, string>)
    ensures result == map["label" := DescriptionLabelOf(blocksReply, summaryReply, transformReply, loads, footer)]
  {
    var blocks := BlocksOf(blocksReply, loads);
    if |blocks| == 0 {
      return map["label" := ""];
    }
    var summary := GenerateDescriptionSummary(summaryReply, loads, blocks);
    var transformedDescription := TransformDescriptionBlocks(transformReply, loads, blocks);
    var address := ExtractAddress(blocks);
    return map["label" := Complete(summary, transformedDescription, footer(address))];
  }

  // ---------------------------------------------------------------------------
  // The failure shape of `parse_single_field`

  const DropDown := "drop_down_options"

  /** The answer after a failed field parse: every value empty, `label_id` only for a drop-down. */
  function FieldParseFailure(fieldType: string): (r: map<string, string>)
    ensures "label" in r
    ensures "label_id" in r <==> fieldType == DropDown
    ensures r.Keys <= {"label", "label_id"}
    ensures forall k :: k in r ==> r[k] == ""
  {
    if fieldType == DropDown then map["label" := "", "label_id" := ""] else map["label" := ""]
  }
}
