/**
 * The Facebook page provider: the ordered error-classification table and the
 * `post` operation, which publishes either a video story (three upload phases)
 * or a photo/feed post, then chains the remaining entries as replies.
 *
 * The Graph API is an oracle: `Network` answers the n-th call of the
 * operation (counting from 0) with a reply, so every property below holds
 * for every possible behaviour of the remote side.
 */
module FacebookProvider {
  import opened Wrappers
  import opened Text

  // ---------------------------------------------------------------------------
  // Provider constants

  /** The provider's declared concurrency (a bare constant; nothing here enforces it). */
  const MaxConcurrentJob: nat := 3

  /** Longest message the provider accepts. */
  const MaxLength: nat := 63206

  // ---------------------------------------------------------------------------
  // Error classification

  datatype ErrorKind = RefreshToken | BadBody

  /** One row of the table: when `pattern` occurs in the body, answer `kind` with `message`. */
  datatype ErrorRule = ErrorRule(pattern: string, kind: ErrorKind, message: string)

  datatype Classification = Classification(kind: ErrorKind, value: string)

  /** The table the provider tests, in source order. */
  const ErrorTable: seq<ErrorRule> := [
    ErrorRule("Error validating access token", RefreshToken, "Please re-authenticate your Facebook account"),
    ErrorRule("490", RefreshToken, "Access token expired, please re-authenticate"),
    ErrorRule("REVOKED_ACCESS_TOKEN", RefreshToken, "Access token has been revoked, please re-authenticate"),
    ErrorRule("1366046", BadBody, "Photos should be smaller than 4 MB and saved as JPG, PNG"),
    ErrorRule("1390008", BadBody, "You are posting too fast, please slow down"),
    ErrorRule("1346003", BadBody, "Content flagged as abusive by Facebook"),
    ErrorRule("1404006", BadBody, "We couldn't post your comment, A security check in facebook required to proceed."),
    ErrorRule("1404102", BadBody, "Content violates Facebook Community Standards"),
    ErrorRule("1404078", RefreshToken, "Page publishing authorization required, please re-authenticate"),
    ErrorRule("1609008", BadBody, "Cannot post Facebook.com links"),
    ErrorRule("2061006", BadBody, "Invalid URL format in post content"),
    ErrorRule("1349125", BadBody, "Invalid content format"),
    ErrorRule("Name parameter too long", BadBody, "Post content is too long"),
    ErrorRule("1363047", BadBody, "Facebook service temporarily unavailable"),
    ErrorRule("1609010", BadBody, "Facebook service temporarily unavailable")
  ]

  /** Index of the first rule at or after `i` whose pattern occurs in `body`. */
  function FirstMatch(rules: seq<ErrorRule>, body: string, i: nat): (r: Option<nat>)
    decreases |rules| - i
    ensures r.Some? ==> i <= r.value < |rules| && Contains(body, rules[r.value].pattern)
    ensures r.Some? ==> forall k :: i <= k < r.value ==> !Contains(body, rules[k].pattern)
    ensures r.None? ==> forall k :: i <= k < |rules| ==> !Contains(body, rules[k].pattern)
  {
    if i >= |rules| then None
    else if Contains(body, rules[i].pattern) then Some(i)
    else FirstMatch(rules, body, i + 1)
  }

  /** `handleErrors`: the entry of the first pattern of the table occurring in `body`, if any. */
  function HandleErrors(body: string): (r: Option<Classification>)
    ensures r.None? <==> forall k :: 0 <= k < |ErrorTable| ==> !Contains(body, ErrorTable[k].pattern)
    ensures r.Some? ==> exists k :: (0 <= k < |ErrorTable| && Contains(body, ErrorTable[k].pattern)
      && (forall j :: 0 <= j < k ==> !Contains(body, ErrorTable[j].pattern))
      && r.value == Classification(ErrorTable[k].kind, ErrorTable[k].message))
  {
    match FirstMatch(ErrorTable, body, 0)
    case None => None
    case Some(k) => Some(Classification(ErrorTable[k].kind, ErrorTable[k].message))
  }

  /** Exactly four rows ask for a new token: the first three and `1404078`; every other row is a bad body. */
  lemma RefreshTokenRows(k: nat)
    requires k < |ErrorTable|
    ensures ErrorTable[k].kind == RefreshToken <==> k == 0 || k == 1 || k == 2 || k == 8
    ensures k == 0 ==> ErrorTable[k].pattern == "Error validating access token"
    ensures k == 1 ==> ErrorTable[k].pattern == "490"
    ensures k == 2 ==> ErrorTable[k].pattern == "REVOKED_ACCESS_TOKEN"
    ensures k == 8 ==> ErrorTable[k].pattern == "1404078"
  {
  }

  /** Whatever `handleErrors` answers is `refresh-token` exactly when a refresh pattern matched. */
  lemma {:induction false} ClassificationKind(body: string)
    requires HandleErrors(body).Some?
    ensures HandleErrors(body).value.kind == RefreshToken ==>
      Contains(body, "Error validating access token") || Contains(body, "490")
      || Contains(body, "REVOKED_ACCESS_TOKEN") || Contains(body, "1404078")
    ensures HandleErrors(body).value.kind == BadBody ==>
      !Contains(body, "Error validating access token") && !Contains(body, "490")
      && !Contains(body, "REVOKED_ACCESS_TOKEN")
  {
    var k := FirstMatch(ErrorTable, body, 0).value;
    RefreshTokenRows(k);
    RefreshTokenRows(0);
    RefreshTokenRows(1);
    RefreshTokenRows(2);
  }

  /** A body with `490` and without the first pattern asks for a new token, whatever else it holds. */
  lemma Precedence490(body: string)
    requires Contains(body, "490") && !Contains(body, "Error validating access token")
    ensures HandleErrors(body) == Some(Classification(RefreshToken, "Access token expired, please re-authenticate"))
  {
    assert ErrorTable[0].pattern == "Error validating access token";
    assert ErrorTable[1].pattern == "490";
  }

  // ---------------------------------------------------------------------------
  // Posting: data

  datatype Media = Media(path: string)

  /** One entry of `postDetails`; `settingsUrl` is `""` when `settings.url` is unset. */
  datatype PostDetails = PostDetails(id: string, message: string, media: seq<Media>, settingsUrl: string)

  /** The body of the feed call; `published: true` is implied. */
  datatype FeedBody = FeedBody(attachedMedia: Option<seq<Option<string>>>, link: Option<string>, message: string)

  datatype CommentBody = CommentBody(attachmentUrl: Option<string>, message: string)

  /** The remote calls `post` makes, with the data each one carries. */
  datatype Call =
    | StartStory(pageId: string, token: string)
    | UploadStory(uploadUrl: Option<string>, token: string, fileUrl: string)
    | FinishStory(pageId: string, token: string, videoId: Option<string>)
    | UploadPhoto(pageId: string, token: string, url: string)
    | PublishFeed(pageId: string, token: string, body: FeedBody)
    | AddComment(parent: Option<string>, token: string, comment: CommentBody)

  /** A reply: the call threw (transport error, non-JSON body, refused request), or a JSON object. */
  datatype Reply = Threw(error: string) | Answer(fields: map<string, string>, success: bool)

  /** The remote side: the reply to the n-th call. */
  type Network = (nat, Call) -> Reply

  datatype PostError = NoFirstPost | Failed(error: string) | UploadFailed

  datatype PostResponse = PostResponse(id: string, postId: Option<string>, releaseUrl: Option<string>, status: string)

  /** What the primary phase leaves in `finalId` and `finalUrl`. */
  datatype Primary = Primary(finalId: Option<string>, finalUrl: Option<string>)

  datatype Run<T> = Run(result: Result<T, PostError>, calls: seq<Call>)

  datatype CommentRun = CommentRun(responses: seq<PostResponse>, calls: seq<Call>)

  function Field(rep: Reply, key: string): Option<string> {
    if rep.Answer? && key in rep.fields then Some(rep.fields[key]) else None
  }

  /** JavaScript truthiness of a string field. */
  predicate Truthy(o: Option<string>) {
    o.Some? && o.value != ""
  }

  /** A field inside a template literal. */
  function Render(o: Option<string>): string {
    if o.Some? then o.value else "undefined"
  }

  function StoryUrl(pageId: string, videoId: Option<string>): string {
    "https://www.facebook.com/" + pageId + "/stories/" + Render(videoId)
  }

  /** The video branch is taken when the first media path of the first post mentions `mp4`. */
  predicate IsVideo(posts: seq<PostDetails>) {
    |posts| > 0 && |posts[0].media| > 0 && Contains(posts[0].media[0].path, "mp4")
  }

  // ---------------------------------------------------------------------------
  // Posting: the reference behaviour, phase by phase

  /** The three story phases; the n-th call is answered by `net(n, _)`. */
  function VideoRun(pageId: string, token: string, first: PostDetails, net: Network): Run<Primary>
    requires |first.media| > 0
  {
    var c0 := StartStory(pageId, token);
    var r0 := net(0, c0);
    if r0.Threw? then Run(Err(Failed(r0.error)), [c0])
    else
      var videoId := Field(r0, "video_id");
      var c1 := UploadStory(Field(r0, "upload_url"), token, first.media[0].path);
      var r1 := net(1, c1);
      if r1.Threw? then Run(Err(Failed(r1.error)), [c0, c1])
      else if !r1.success && !Truthy(Field(r1, "id")) then Run(Err(UploadFailed), [c0, c1])
      else
        var c2 := FinishStory(pageId, token, videoId);
        var r2 := net(2, c2);
        if r2.Threw? then Run(Err(Failed(r2.error)), [c0, c1, c2])
        else Run(Ok(Primary(videoId, Some(StoryUrl(pageId, videoId)))), [c0, c1, c2])
  }

  function PhotoCalls(pageId: string, token: string, media: seq<Media>): (r: seq<Call>)
    ensures |r| == |media|
  {
    seq(|media|, i requires 0 <= i < |media| => UploadPhoto(pageId, token, media[i].path))
  }

  /** The error of the first reply that threw, if any. */
  function FirstThrow(replies: seq<Reply>): (r: Option<string>)
    ensures r.None? <==> forall k :: 0 <= k < |replies| ==> replies[k].Answer?
  {
    if |replies| == 0 then None
    else if replies[0].Threw? then Some(replies[0].error)
    else FirstThrow(replies[1..])
  }

  function MakeFeedBody(first: PostDetails, photoIds: seq<Option<string>>): FeedBody {
    FeedBody(if |photoIds| > 0 then Some(photoIds) else None,
             if first.settingsUrl != "" then Some(first.settingsUrl) else None,
             first.message)
  }

  /** The replies to the photo uploads, which are the first calls. */
  function PhotoReplies(pageId: string, token: string, first: PostDetails, net: Network): (r: seq<Reply>)
    ensures |r| == |first.media|
  {
    var pc := PhotoCalls(pageId, token, first.media);
    seq(|pc|, i requires 0 <= i < |pc| => net(i, pc[i]))
  }

  /** The `media_fbid` of each uploaded photo, in media order. */
  function PhotoIds(pageId: string, token: string, first: PostDetails, net: Network): (r: seq<Option<string>>)
    ensures |r| == |first.media|
  {
    var replies := PhotoReplies(pageId, token, first, net);
    seq(|replies|, i requires 0 <= i < |replies| => Field(replies[i], "id"))
  }

  /** The photo uploads (all issued together) and then the feed call. */
  function FeedRun(pageId: string, token: string, first: PostDetails, net: Network): Run<Primary> {
    var pc := PhotoCalls(pageId, token, first.media);
    match FirstThrow(PhotoReplies(pageId, token, first, net))
    case Some(e) => Run(Err(Failed(e)), pc)
    case None =>
      var cf := PublishFeed(pageId, token, MakeFeedBody(first, PhotoIds(pageId, token, first, net)));
      var rf := net(|pc|, cf);
      if rf.Threw? then Run(Err(Failed(rf.error)), pc + [cf])
      else Run(Ok(Primary(Field(rf, "id"), Field(rf, "permalink_url"))), pc + [cf])
  }

  function CommentCall(parent: Option<string>, token: string, comment: PostDetails): Call {
    AddComment(parent, token,
      CommentBody(if |comment.media| > 0 then Some(comment.media[0].path) else None, comment.message))
  }

  /** `commentId` after a comment call: the answered id, or unchanged when the call threw. */
  function NextParent(parent: Option<string>, rep: Reply): Option<string> {
    if rep.Threw? then parent else Field(rep, "id")
  }

  /** The entry a comment call adds to the result: one on an answer, none when it threw. */
  function Posted(comment: PostDetails, rep: Reply): (r: seq<PostResponse>)
    ensures |r| == if rep.Threw? then 0 else 1
  {
    if rep.Threw? then [] else [PostResponse(comment.id, Field(rep, "id"), Field(rep, "permalink_url"), "success")]
  }

  /**
   * The reply loop over `comments[i..]`, the call for `comments[i]` being the m-th of the
   * operation: each comment answers the last posted one; a failing comment is skipped.
   */
  function CommentsFrom(token: string, comments: seq<PostDetails>, i: nat, parent: Option<string>, net: Network, m: nat): (r: CommentRun)
    requires i <= |comments|
    decreases |comments| - i
    ensures |r.calls| == |comments| - i && |r.responses| <= |comments| - i
  {
    if i == |comments| then CommentRun([], [])
    else
      var c := CommentCall(parent, token, comments[i]);
      var rep := net(m, c);
      var rest := CommentsFrom(token, comments, i + 1, NextParent(parent, rep), net, m + 1);
      CommentRun(Posted(comments[i], rep) + rest.responses, [c] + rest.calls)
  }

  /** One iteration of the reply loop: the call for `comments[i]`, then the rest of the loop. */
  lemma CommentsFromStep(token: string, comments: seq<PostDetails>, i: nat, parent: Option<string>, net: Network, m: nat)
    requires i < |comments|
    ensures var c := CommentCall(parent, token, comments[i]);
      var rest := CommentsFrom(token, comments, i + 1, NextParent(parent, net(m, c)), net, m + 1);
      CommentsFrom(token, comments, i, parent, net, m) == CommentRun(Posted(comments[i], net(m, c)) + rest.responses, [c] + rest.calls)
  {
  }

  /** The primary phase the first post selects. */
  function PrimaryRun(pageId: string, token: string, posts: seq<PostDetails>, net: Network): Run<Primary>
    requires |posts| > 0
  {
    if IsVideo(posts) then VideoRun(pageId, token, posts[0], net) else FeedRun(pageId, token, posts[0], net)
  }

  /** The whole of `post`: primary phase, then the comment loop when the primary id is truthy. */
  function PostSpec(pageId: string, token: string, posts: seq<PostDetails>, net: Network): (r: Run<seq<PostResponse>>)
    ensures |posts| == 0 ==> r == Run(Err(NoFirstPost), [])
    ensures r.result.Ok? ==>
      1 <= |r.result.value| <= |posts| && r.result.value[0].id == posts[0].id
      && r.result.value[0].status == "success"
  {
    if |posts| > 0 then
      var p := PrimaryRun(pageId, token, posts, net);
      match p.result
      case Err(e) => Run(Err(e), p.calls)
      case Ok(prim) =>
        var head := PostResponse(posts[0].id, prim.finalId, prim.finalUrl, "success");
        if |posts| > 1 && Truthy(prim.finalId) then
          var cr := CommentsFrom(token, posts, 1, prim.finalId, net, |p.calls|);
          Run(Ok([head] + cr.responses), p.calls + cr.calls)
        else Run(Ok([head]), p.calls)
    else
      Run(Err(NoFirstPost), [])
  }

  // ---------------------------------------------------------------------------
  // Posting: the operation

  /** `post`: the primary phase, then the comment loop. */
  method Post(pageId: string, token: string, posts: seq<PostDetails>, net: Network)
    returns (r: Result<seq<PostResponse>, PostError>, calls: seq<Call>)
    ensures Run(r, calls) == PostSpec(pageId, token, posts, net)
    ensures r.Ok? ==> 1 <= |r.value| <= |posts| && r.value[0].id == posts[0].id
  {
    if |posts| == 0 {
      return Err(NoFirstPost), [];
    }
    var primary := PrimaryRun(pageId, token, posts, net);
    calls := primary.calls;
    if primary.result.Err? {
      return Err(primary.result.error), calls;
    }
    var finalId := primary.result.value.finalId;
    var finalUrl := primary.result.value.finalUrl;
    var postsArray: seq<PostResponse> := [];
    if |posts| > 1 && Truthy(finalId) {
      var commentCalls;
      postsArray, commentCalls := PostComments(token, posts, finalId, net, |calls|);
      calls := calls + commentCalls;
    }
    var out := [PostResponse(posts[0].id, finalId, finalUrl, "success")] + postsArray;
    assert out == PostSpec(pageId, token, posts, net).result.value;
    r := Ok(out);
  }

  /**
   * The comment loop of `post` over `posts[1..]`: `commentId` starts at the primary id and
   * follows each answered reply; `m` is the number of calls made before the loop.
   */
  method PostComments(token: string, posts: seq<PostDetails>, finalId: Option<string>, net: Network, m: nat)
    returns (postsArray: seq<PostResponse>, calls: seq<Call>)
    requires |posts| >= 1
    ensures CommentRun(postsArray, calls) == CommentsFrom(token, posts, 1, finalId, net, m)
  {
    postsArray, calls := [], [];
    var commentId := finalId;
    var i := 1;
    while i < |posts|
      invariant 1 <= i <= |posts|
      invariant CommentState(postsArray, calls, commentId) == CommentsUpTo(token, posts, finalId, net, m, i)
    {
      var comment := posts[i];
      var c := CommentCall(commentId, token, comment);
      var data := net(m + i - 1, c);
      calls := calls + [c];
      if data.Answer? {
        commentId := Field(data, "id");
        postsArray := postsArray + [PostResponse(comment.id, Field(data, "id"), Field(data, "permalink_url"), "success")];
      }
      i := i + 1;
    }
    CommentsUpToWhole(token, posts, finalId, net, m, i);
  }

  /** What the loop of `PostComments` holds after the first `i` posts: entries, calls and the current parent. */
  datatype CommentState = CommentState(responses: seq<PostResponse>, calls: seq<Call>, parent: Option<string>)

  /** The reply loop run forwards over `posts[1..i]`, one comment at a time. */
  function CommentsUpTo(token: string, posts: seq<PostDetails>, finalId: Option<string>, net: Network, m: nat, i: nat): CommentState
    requires 1 <= i <= |posts|
    decreases i
  {
    if i == 1 then CommentState([], [], finalId)
    else
      var s := CommentsUpTo(token, posts, finalId, net, m, i - 1);
      var c := CommentCall(s.parent, token, posts[i - 1]);
      var rep := net(m + i - 2, c);
      CommentState(s.responses + Posted(posts[i - 1], rep), s.calls + [c], NextParent(s.parent, rep))
  }

  /** The loop run forwards up to `i`, followed by the rest of the loop from `i`, is the whole reply loop. */
  lemma {:induction false} CommentsUpToWhole(token: string, posts: seq<PostDetails>, finalId: Option<string>, net: Network, m: nat, i: nat)
    requires 1 <= i <= |posts|
    decreases i
    ensures var s := CommentsUpTo(token, posts, finalId, net, m, i);
      var rest := CommentsFrom(token, posts, i, s.parent, net, m + i - 1);
      CommentRun(s.responses + rest.responses, s.calls + rest.calls) == CommentsFrom(token, posts, 1, finalId, net, m)
  {
    if i > 1 {
      CommentsUpToWhole(token, posts, finalId, net, m, i - 1);
      var p := CommentsUpTo(token, posts, finalId, net, m, i - 1);
      var c := CommentCall(p.parent, token, posts[i - 1]);
      var rep := net(m + i - 2, c);
      var tail := CommentsFrom(token, posts, i, NextParent(p.parent, rep), net, m + i - 1);
      CommentsFromStep(token, posts, i - 1, p.parent, net, m + i - 2);
      assert (p.calls + [c]) + tail.calls == p.calls + ([c] + tail.calls);
      assert (p.responses + Posted(posts[i - 1], rep)) + tail.responses
        == p.responses + (Posted(posts[i - 1], rep) + tail.responses);
    }
  }

  // ---------------------------------------------------------------------------
  // Posting: properties of the reference behaviour

  /** The reply loop makes nothing but comment calls. */
  lemma {:induction false} CommentCallsOnly(token: string, comments: seq<PostDetails>, i: nat, parent: Option<string>, net: Network, m: nat)
    requires i <= |comments|
    decreases |comments| - i
    ensures forall k :: 0 <= k < |CommentsFrom(token, comments, i, parent, net, m).calls| ==>
      CommentsFrom(token, comments, i, parent, net, m).calls[k].AddComment?
  {
    if i < |comments| {
      var c := CommentCall(parent, token, comments[i]);
      var rest := CommentsFrom(token, comments, i + 1, NextParent(parent, net(m, c)), net, m + 1);
      CommentCallsOnly(token, comments, i + 1, NextParent(parent, net(m, c)), net, m + 1);
      var cr := CommentsFrom(token, comments, i, parent, net, m);
      assert cr.calls == [c] + rest.calls;
      forall k | 0 <= k < |cr.calls|
        ensures cr.calls[k].AddComment?
      {
        if k > 0 {
          assert cr.calls[k] == rest.calls[k - 1];
          assert rest.calls[k - 1].AddComment?;
        } else {
          assert cr.calls[k] == c;
          assert c.AddComment?;
        }
      }
    }
  }

  /** The first call starts a story exactly when the first media path holds `mp4`; no input, no call. */
  lemma VideoBranchIff(pageId: string, token: string, posts: seq<PostDetails>, net: Network)
    ensures |posts| == 0 ==> PostSpec(pageId, token, posts, net) == Run(Err(NoFirstPost), [])
    ensures IsVideo(posts) ==>
      |PostSpec(pageId, token, posts, net).calls| >= 1 && PostSpec(pageId, token, posts, net).calls[0] == StartStory(pageId, token)
    ensures !IsVideo(posts) ==> forall k :: 0 <= k < |PostSpec(pageId, token, posts, net).calls| ==>
      !PostSpec(pageId, token, posts, net).calls[k].StartStory?
  {
    if |posts| > 0 {
      var p := PrimaryRun(pageId, token, posts, net);
      if p.result.Ok? && |posts| > 1 && Truthy(p.result.value.finalId) {
        CommentCallsOnly(token, posts, 1, p.result.value.finalId, net, |p.calls|);
      }
    }
  }

  /** A successful story: start, upload, finish in that order; the id is the video id and the URL names it. */
  lemma VideoSuccess(pageId: string, token: string, posts: seq<PostDetails>, net: Network)
    requires IsVideo(posts) && PostSpec(pageId, token, posts, net).result.Ok?
    ensures var run := PostSpec(pageId, token, posts, net);
      var start := net(0, StartStory(pageId, token));
      var videoId := Field(start, "video_id");
      |run.calls| >= 3
      && run.calls[..3] == [StartStory(pageId, token), UploadStory(Field(start, "upload_url"), token, posts[0].media[0].path),
                            FinishStory(pageId, token, videoId)]
      && run.result.value[0] == PostResponse(posts[0].id, videoId, Some(StoryUrl(pageId, videoId)), "success")
  {
    var p := VideoRun(pageId, token, posts[0], net);
    var run := PostSpec(pageId, token, posts, net);
    assert |p.calls| == 3;
    assert run.calls[..3] == p.calls;
  }

  /** An upload reply with neither `success` nor an `id` ends the operation: no finish call, no retry. */
  lemma VideoUploadRejected(pageId: string, token: string, posts: seq<PostDetails>, net: Network)
    requires IsVideo(posts)
    requires var r0 := net(0, StartStory(pageId, token));
      var r1 := net(1, UploadStory(Field(r0, "upload_url"), token, posts[0].media[0].path));
      r0.Answer? && r1.Answer? && !r1.success && !Truthy(Field(r1, "id"))
    ensures var run := PostSpec(pageId, token, posts, net);
      run.result == Err(UploadFailed) && |run.calls| == 2
  {
  }

  /** The feed call carries `attached_media` only with photos and `link` only with a settings URL. */
  lemma FeedBodyShape(pageId: string, token: string, posts: seq<PostDetails>, net: Network)
    requires |posts| > 0 && !IsVideo(posts)
    ensures forall k :: 0 <= k < |PostSpec(pageId, token, posts, net).calls| && PostSpec(pageId, token, posts, net).calls[k].PublishFeed? ==>
      k == |posts[0].media|
      && PostSpec(pageId, token, posts, net).calls[k].body == MakeFeedBody(posts[0], PhotoIds(pageId, token, posts[0], net))
    ensures (MakeFeedBody(posts[0], PhotoIds(pageId, token, posts[0], net)).attachedMedia.Some? <==> |posts[0].media| > 0)
      && (MakeFeedBody(posts[0], PhotoIds(pageId, token, posts[0], net)).link.Some? <==> posts[0].settingsUrl != "")
      && MakeFeedBody(posts[0], PhotoIds(pageId, token, posts[0], net)).message == posts[0].message
  {
    var p := PrimaryRun(pageId, token, posts, net);
    if p.result.Ok? && |posts| > 1 && Truthy(p.result.value.finalId) {
      CommentCallsOnly(token, posts, 1, p.result.value.finalId, net, |p.calls|);
    }
  }

  /** No comment is attempted unless there is one and the primary id is truthy. */
  lemma CommentsNeedPrimaryId(pageId: string, token: string, posts: seq<PostDetails>, net: Network)
    requires |posts| > 0
    requires var p := PrimaryRun(pageId, token, posts, net);
      p.result.Ok? && (|posts| == 1 || !Truthy(p.result.value.finalId))
    ensures PostSpec(pageId, token, posts, net).result.Ok? && |PostSpec(pageId, token, posts, net).result.value| == 1
    ensures forall k :: 0 <= k < |PostSpec(pageId, token, posts, net).calls| ==> !PostSpec(pageId, token, posts, net).calls[k].AddComment?
  {
  }

  /** Independent reference: the id of the last answered comment call, or the primary id when none was. */
  function LastPostedId(primary: Option<string>, replies: seq<Reply>): (r: Option<string>)
    ensures (forall k :: 0 <= k < |replies| ==> replies[k].Threw?) ==> r == primary
  {
    if |replies| == 0 then primary
    else if replies[|replies| - 1].Answer? then Field(replies[|replies| - 1], "id")
    else LastPostedId(primary, replies[..|replies| - 1])
  }

  lemma {:induction false} LastPostedIdCons(primary: Option<string>, first: Reply, replies: seq<Reply>)
    ensures LastPostedId(NextParent(primary, first), replies) == LastPostedId(primary, [first] + replies)
  {
    if |replies| > 0 {
      LastPostedIdCons(primary, first, replies[..|replies| - 1]);
      assert ([first] + replies)[..|replies|] == [first] + replies[..|replies| - 1];
    }
  }

  /** The replies `calls` received, the first of them being the m-th call. */
  function Replies(calls: seq<Call>, net: Network, m: nat): (r: seq<Reply>)
    ensures |r| == |calls|
  {
    if |calls| == 0 then [] else [net(m, calls[0])] + Replies(calls[1..], net, m + 1)
  }

  /** Comment call k replies to the last successfully posted comment before it, or to the primary post. */
  lemma {:induction false} CommentChaining(token: string, comments: seq<PostDetails>, i: nat, parent: Option<string>, net: Network, m: nat, k: nat)
    requires i + k < |comments|
    decreases k
    ensures CommentsFrom(token, comments, i, parent, net, m).calls[k]
      == CommentCall(LastPostedId(parent, Replies(CommentsFrom(token, comments, i, parent, net, m).calls, net, m)[..k]), token, comments[i + k])
  {
    var cr := CommentsFrom(token, comments, i, parent, net, m);
    var c := CommentCall(parent, token, comments[i]);
    var next := NextParent(parent, net(m, c));
    var rest := CommentsFrom(token, comments, i + 1, next, net, m + 1);
    assert cr.calls == [c] + rest.calls;
    if k > 0 {
      CommentChaining(token, comments, i + 1, next, net, m + 1, k - 1);
      assert cr.calls[1..] == rest.calls;
      var later := Replies(rest.calls, net, m + 1);
      assert Replies(cr.calls, net, m)[..k] == [net(m, c)] + later[..k - 1];
      LastPostedIdCons(parent, net(m, c), later[..k - 1]);
    }
  }

  /** Independent reference: one `success` entry per comment whose call was answered, in input order. */
  function Successes(comments: seq<PostDetails>, replies: seq<Reply>): (r: seq<PostResponse>)
    requires |comments| == |replies|
    ensures |r| <= |comments|
    ensures forall k :: 0 <= k < |r| ==> r[k].status == "success"
  {
    if |comments| == 0 then []
    else
      (if replies[0].Threw? then []
       else [PostResponse(comments[0].id, Field(replies[0], "id"), Field(replies[0], "permalink_url"), "success")])
      + Successes(comments[1..], replies[1..])
  }

  /** A failing comment is left out and the others stay in input order. */
  lemma {:induction false} CommentResults(token: string, comments: seq<PostDetails>, i: nat, parent: Option<string>, net: Network, m: nat)
    requires i <= |comments|
    decreases |comments| - i
    ensures CommentsFrom(token, comments, i, parent, net, m).responses
      == Successes(comments[i..], Replies(CommentsFrom(token, comments, i, parent, net, m).calls, net, m))
  {
    if i < |comments| {
      var cr := CommentsFrom(token, comments, i, parent, net, m);
      var c := CommentCall(parent, token, comments[i]);
      var next := NextParent(parent, net(m, c));
      var rest := CommentsFrom(token, comments, i + 1, next, net, m + 1);
      CommentResults(token, comments, i + 1, next, net, m + 1);
      assert comments[i..][1..] == comments[i + 1..];
      assert cr.calls == [c] + rest.calls;
      assert cr.calls[1..] == rest.calls;
    }
  }

  /** The result: the primary entry echoing the first post's id, then the posted comments; all `success`. */
  lemma ResultShape(pageId: string, token: string, posts: seq<PostDetails>, net: Network)
    requires PostSpec(pageId, token, posts, net).result.Ok?
    ensures 1 <= |PostSpec(pageId, token, posts, net).result.value| <= |posts|
    ensures PostSpec(pageId, token, posts, net).result.value[0].id == posts[0].id
    ensures forall k :: 0 <= k < |PostSpec(pageId, token, posts, net).result.value| ==>
      PostSpec(pageId, token, posts, net).result.value[k].status == "success"
  {
    var p := PrimaryRun(pageId, token, posts, net);
    if |posts| > 1 && Truthy(p.result.value.finalId) {
      CommentResults(token, posts, 1, p.result.value.finalId, net, |p.calls|);
    }
  }
}
