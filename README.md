# Publishing rules of a Postiz fork with a 999.md car-advert service

This project models the decision and transformation rules around publishing in a fork of
Postiz. Postiz is a social-media scheduler with a NestJS back end and a React front end. The
fork adds a Python (FastAPI) service that turns a free-text car advert into a 999.md listing.
The model covers:

- the Facebook provider: error classification, and the `post()` flow (video story or photo
  feed, then a comment chain);
- the front-end upload widget: allow-list expansion, HEIC conversion, type and size gates, the
  lock flag, and completion results;
- the upload-URL validators and the rich-text flattening helpers;
- the 999.md feature form: option lookup, the AI request, label precedence, and `get_post_config`;
- the 999.md advert request: value formatting, request assembly, image upload ids, and the
  advert result;
- the post-processing around the language-model calls in both AI parsers;
- the HEIC-image and video conversion endpoints, up to the conversion itself.

Every network call, language-model call, translation and JSON decoder is a parameter of the
model. These include the Graph API, the 999.md API, the conversion service, the LLM and the
agent. Each such parameter is either a function from the request to its outcome, or the outcome
itself. The proofs hold for every behaviour of those services.

Files, one module each: `facebook_provider.dfy`, `media_uploader.dfy`, `valid_url_path.dfy`,
`strip_html.dfy`, `features_helpers.dfy`, `posts_router.dfy`, `adverb_post.dfy`,
`ai_parser_service.dfy` (the `AIParserService` helpers), `ai_parser_agent.dfy` (the
LangChain agent module and its tools), `image_router.dfy`, `video_router.dfy`. They share
`wrappers.dfy` (Option, Result), `text.dfy` (the string operations of Python and
JavaScript), `json.dfy` (JSON values, truthiness, `str()`) and `lists.dfy` (first-match search).

## Model

| member | source | states |
|---|---|---|
| FacebookProvider.FirstMatch | libraries/nestjs-libraries/src/integrations/social/facebook.provider.ts:40-150 | the index found is the first row, from `i` on, whose pattern occurs in the body; none means no row from `i` on occurs |
| FacebookProvider.HandleErrors | libraries/nestjs-libraries/src/integrations/social/facebook.provider.ts:33-150 | `undefined` exactly when no pattern of the table occurs; otherwise the entry of the first occurring row in source order |
| FacebookProvider.RefreshTokenRows | libraries/nestjs-libraries/src/integrations/social/facebook.provider.ts:40-148 | exactly the rows `Error validating access token`, `490`, `REVOKED_ACCESS_TOKEN` and `1404078` are `refresh-token`; every other row is `bad-body` |
| FacebookProvider.ClassificationKind | libraries/nestjs-libraries/src/integrations/social/facebook.provider.ts:40-150 | a `refresh-token` answer means the body contains one of the four refresh patterns; a `bad-body` answer means it contains none of the first three |
| FacebookProvider.Precedence490 | libraries/nestjs-libraries/src/integrations/social/facebook.provider.ts:47-66 | a body with `490` and without the first pattern is `refresh-token` with the expired-token message, whatever later codes it holds |
| FacebookProvider.PhotoCalls | libraries/nestjs-libraries/src/integrations/social/facebook.provider.ts:367-389 | one photo-upload call per media item |
| FacebookProvider.FirstThrow | libraries/nestjs-libraries/src/integrations/social/facebook.provider.ts:367-389 | `Promise.all` fails exactly when some photo upload threw |
| FacebookProvider.PhotoReplies | libraries/nestjs-libraries/src/integrations/social/facebook.provider.ts:367-389 | one reply per media item |
| FacebookProvider.PhotoIds | libraries/nestjs-libraries/src/integrations/social/facebook.provider.ts:367-389 | one optional `media_fbid` per media item |
| FacebookProvider.Posted | libraries/nestjs-libraries/src/integrations/social/facebook.provider.ts:419-446 | a comment adds one result entry when its call answered and none when it threw |
| FacebookProvider.CommentsFrom | libraries/nestjs-libraries/src/integrations/social/facebook.provider.ts:416-448 | the comment loop makes one call per comment and returns at most one entry per comment |
| FacebookProvider.Post | libraries/nestjs-libraries/src/integrations/social/facebook.provider.ts:293-460 | the calls and result equal the specification `PostSpec`; a result has between 1 and `posts.length` entries, the first echoing `firstPost.id` |
| FacebookProvider.PostSpec | libraries/nestjs-libraries/src/integrations/social/facebook.provider.ts:293-460 | the specification of `post`: no posts gives the no-first-post error with no calls; a result has 1 to `posts.length` entries, the first echoing the first post's id with status `success`; `ResultShape` and `CommentChaining` give the rest |
| FacebookProvider.PostComments | libraries/nestjs-libraries/src/integrations/social/facebook.provider.ts:413-448 | the imperative loop (`commentId` and `postsArray` updated per comment) equals `CommentsFrom` |
| FacebookProvider.CommentsUpToWhole | libraries/nestjs-libraries/src/integrations/social/facebook.provider.ts:413-448 | the loop state after `i` posts, followed by the rest of the reply loop from there, is the whole reply loop |
| FacebookProvider.CommentCallsOnly | libraries/nestjs-libraries/src/integrations/social/facebook.provider.ts:419-446 | the comment loop makes only `add comment` calls |
| FacebookProvider.VideoBranchIff | libraries/nestjs-libraries/src/integrations/social/facebook.provider.ts:304-315 | no post means no call; the first call starts a story exactly when the first media path contains `mp4`; otherwise no story call is made |
| FacebookProvider.VideoSuccess | libraries/nestjs-libraries/src/integrations/social/facebook.provider.ts:314-360 | a successful story makes start, upload and finish calls in that order; the id is `video_id` and the URL `https://www.facebook.com/{pageId}/stories/{video_id}` |
| FacebookProvider.VideoUploadRejected | libraries/nestjs-libraries/src/integrations/social/facebook.provider.ts:334-338 | an upload reply with neither `success` nor `id` throws after exactly two calls: no finish, no retry |
| FacebookProvider.FeedBodyShape | libraries/nestjs-libraries/src/integrations/social/facebook.provider.ts:393-404 | the feed call comes right after the photo uploads with `MakeFeedBody`, which carries `attached_media` exactly when there are photos, `link` exactly when `settings.url` is set, and the message |
| FacebookProvider.CommentsNeedPrimaryId | libraries/nestjs-libraries/src/integrations/social/facebook.provider.ts:416 | without comments or without a truthy primary id, no comment call is made and the result is the primary entry alone |
| FacebookProvider.LastPostedId | libraries/nestjs-libraries/src/integrations/social/facebook.provider.ts:414-438 | a reference for the parent id: when every comment call threw, the parent stays the primary id |
| FacebookProvider.CommentChaining | libraries/nestjs-libraries/src/integrations/social/facebook.provider.ts:414-438 | comment call k replies to the last successfully posted earlier comment, or to the primary post |
| FacebookProvider.Successes | libraries/nestjs-libraries/src/integrations/social/facebook.provider.ts:439-448 | a reference for the comment entries: one `success` entry per answered comment, at most one per comment |
| FacebookProvider.CommentResults | libraries/nestjs-libraries/src/integrations/social/facebook.provider.ts:439-448 | the loop's entries are `Successes`: failing comments are left out and the rest keep input order |
| FacebookProvider.ResultShape | libraries/nestjs-libraries/src/integrations/social/facebook.provider.ts:452-460 | the result has 1 to `posts.length` entries; the first is the primary entry echoing `firstPost.id`, and all are `success` |
| MediaUploader.FlatMapMember | apps/frontend/src/components/media/new.uploader.tsx:160-167 | `y` is in a `flatMap` exactly when some element's image contains it |
| MediaUploader.AllowedTypesWithHeicMembers | apps/frontend/src/components/media/new.uploader.tsx:160-167 | an entry is allowed exactly when it is a comma part that does not trim to `image/*`, or one of the five HEIC additions for a part that does |
| MediaUploader.HeicNewName | apps/frontend/src/components/media/new.uploader.tsx:198-200 | a trailing `.heic` or `.heif`, in any case, is swapped for `.jpg` (the name minus its last five characters, plus `.jpg`); a name with neither suffix is kept; no name or an empty name gives `converted.jpg`; the name is never empty |
| MediaUploader.HeicNameRenamed | apps/frontend/src/components/media/new.uploader.tsx:184-200 | a file detected as HEIC by its lower-cased name, `.heic` or `.heif`, gets the name with its five-character suffix swapped for `.jpg`, so one character shorter and ending in `.jpg` |
| MediaUploader.ConvertHeicToJpeg | apps/frontend/src/components/media/new.uploader.tsx:39-61 | the Python service is tried first and the canvas only when it fails; the error is returned only when both fail |
| MediaUploader.RemoveIdMembers | apps/frontend/src/components/media/new.uploader.tsx:203 | `removeFile` keeps exactly the files of other ids |
| MediaUploader.RemoveIdConcat | apps/frontend/src/components/media/new.uploader.tsx:203 | removing by id distributes over concatenation |
| MediaUploader.SetMeta | apps/frontend/src/components/media/new.uploader.tsx:339-342 | the file of that id gets the storage flag; every other file stays, in order |
| MediaUploader.HeicWalkClosedForm | apps/frontend/src/components/media/new.uploader.tsx:179-222 | the walk over the queue snapshot ends in closed form: untouched files, then converted files at the end; stops at the first failing conversion with that file removed |
| MediaUploader.FirstFailure | apps/frontend/src/components/media/new.uploader.tsx:182-218 | the failure reported is a selected HEIC file whose conversion failed |
| MediaUploader.FirstFailureIsFirst | apps/frontend/src/components/media/new.uploader.tsx:182-218 | every selected HEIC file before the first failure converts |
| MediaUploader.ExpandedHasNoImageWildcard | apps/frontend/src/components/media/new.uploader.tsx:229-242 | after expansion, `image/*` and `video/*` no longer appear |
| MediaUploader.ExpandTypesMembers | apps/frontend/src/components/media/new.uploader.tsx:229-242 | an entry is in the expanded list exactly when it is a trimmed part other than `image/*`/`video/*` or an expansion of one of those |
| MediaUploader.UntypedNeverAllowed | apps/frontend/src/components/media/new.uploader.tsx:249-255 | a file without a type passes no entry |
| MediaUploader.SizeCeilings | apps/frontend/src/components/media/new.uploader.tsx:282-312 | an image of exactly 30·1024·1024 bytes passes and one byte more is refused; likewise 1000·1024·1024 for a video; other types are never refused by size |
| MediaUploader.FirstOffender | apps/frontend/src/components/media/new.uploader.tsx:244-272 | the index found is the first selected file in queue order that the gate refuses; none means no selected file is refused |
| MediaUploader.LocalBodies | apps/frontend/src/components/media/new.uploader.tsx:350-352 | at most one body per successful response, each truthy and the `body` of one of them |
| MediaUploader.SavedValues | apps/frontend/src/components/media/new.uploader.tsx:388-390 | at most one value per successful response, each truthy and the `body.saved` of one of them |
| MediaUploader.Uniq | apps/frontend/src/components/media/new.uploader.tsx:363-367 | lodash `uniq`: the same set of values, each once |
| MediaUploader.AllOk | apps/frontend/src/components/media/new.uploader.tsx:369-380 | `Promise.all`: every value when all succeed, else the first error |
| MediaUploader.SaveEach | apps/frontend/src/components/media/new.uploader.tsx:369-380 | one `save-media` request per name, in order |
| MediaUploader.Uploader.constructor | apps/frontend/src/components/media/new.uploader.tsx:158-176 | an empty, unlocked queue holding the configuration |
| MediaUploader.Uploader.OnFileAdded | apps/frontend/src/components/media/new.uploader.tsx:337-343 | `locked` becomes true and the file is tagged with the storage flag; nothing else changes |
| MediaUploader.Uploader.OnError | apps/frontend/src/components/media/new.uploader.tsx:344-346 | `locked` becomes false; the queue is unchanged |
| MediaUploader.Uploader.AddFile | apps/frontend/src/components/media/new.uploader.tsx:204-210 | the file is appended under the next id and `file-added` runs (locked, tagged); the ids stay unique |
| MediaUploader.Uploader.RemoveFile | apps/frontend/src/components/media/new.uploader.tsx:203 | the queue loses exactly the file of that id; the lock is unchanged |
| MediaUploader.Uploader.HeicPreprocess | apps/frontend/src/components/media/new.uploader.tsx:179-222 | the result, queue and id counter are those of the HEIC walk: converted files replaced by a JPEG at the end, and the first failure removed and reported; the queue is locked once a converted file was added (its `file-added`), and the lock is kept otherwise |
| MediaUploader.Uploader.RunGate | apps/frontend/src/components/media/new.uploader.tsx:244-272 | with no offender the queue is unchanged and the gate passes; otherwise exactly the first offender is removed and reported, and later files are not examined |
| MediaUploader.Uploader.TypeGate | apps/frontend/src/components/media/new.uploader.tsx:226-274 | `RunGate` with the expanded allow-list: the first file of a disallowed type is removed and rejected with its name; the lock and the id counter are kept |
| MediaUploader.Uploader.SizeGate | apps/frontend/src/components/media/new.uploader.tsx:276-318 | `RunGate` with the size ceilings: the first oversized file is removed and rejected; the lock and the id counter are kept |
| MediaUploader.Uploader.OnComplete | apps/frontend/src/components/media/new.uploader.tsx:347-391 | local storage unlocks and delivers `LocalBodies`; without Transloadit it unlocks and delivers `SavedValues`; with Transloadit and no results it unlocks and delivers nothing; a missing URL or a failed save delivers nothing and keeps the lock; otherwise it unlocks and delivers the media saved for the unique names |
| MediaUploader.RemoveIdKeepsUnique | apps/frontend/src/components/media/new.uploader.tsx:203 | removing a file keeps the queue's ids unique |
| ValidUrlPath.UrlBase | libraries/helpers/src/utils/valid.url.path.ts:11 | the text before the first `?`, lower-cased; `''` for a missing text |
| ValidUrlPath.ExtensionValid | libraries/helpers/src/utils/valid.url.path.ts:9-20 | an accepted value is present and its lower-cased part before the first `?` ends with one of the five listed suffixes; `ListedSuffixAccepted` gives the converse |
| ValidUrlPath.ListedSuffixAccepted | libraries/helpers/src/utils/valid.url.path.ts:13-19 | a base ending with any of `.png`, `.jpg`, `.jpeg`, `.gif`, `.mp4` is accepted |
| ValidUrlPath.OnlyListedSuffixes | libraries/helpers/src/utils/valid.url.path.ts:13-19 | an accepted base ends with one of the five listed suffixes |
| ValidUrlPath.MissingExtensionRejected | libraries/helpers/src/utils/valid.url.path.ts:11 | a missing text is rejected |
| ValidUrlPath.FirstQuestionMark | libraries/helpers/src/utils/valid.url.path.ts:11 | the first `?` after a text without one is at that text's length |
| ValidUrlPath.QueryIgnored | libraries/helpers/src/utils/valid.url.path.ts:11 | anything after the first `?` does not change the verdict |
| ValidUrlPath.UpperCaseExtensionAccepted | libraries/helpers/src/utils/valid.url.path.ts:11-19 | `a.PNG` is accepted, because the base is lower-cased |
| ValidUrlPath.FragmentNotStripped | libraries/helpers/src/utils/valid.url.path.ts:11-19 | `a.png#b` is rejected, because the fragment is not removed |
| ValidUrlPath.UnrestrictedPasses | libraries/helpers/src/utils/valid.url.path.ts:33-35 | with `RESTRICT_UPLOAD_DOMAINS` unset or empty, every text passes |
| ValidUrlPath.PathValid | libraries/helpers/src/utils/valid.url.path.ts:32-40 | without a domain every value passes; with one, a value passes exactly when the domain occurs in the text, or in `invalid url` when the text is missing or empty |
| ValidUrlPath.RestrictedIff | libraries/helpers/src/utils/valid.url.path.ts:37-39 | with a domain set, a non-empty URL passes exactly when it contains the domain |
| ValidUrlPath.MissingUrlChecked | libraries/helpers/src/utils/valid.url.path.ts:38 | a missing URL is checked as the text `invalid url`: the domain `url` passes it and `example.com` does not |
| ValidUrlPath.PathMessage | libraries/helpers/src/utils/valid.url.path.ts:44-46 | the message starts with the fixed prefix; an unset domain prints as `undefined` |
| StripHtml.UnboldChar | libraries/helpers/src/utils/strip.html.validation.ts:4-67 | each bold form comes from exactly one key of the table, and every other character is its own preimage |
| StripHtml.BoldDistinct | libraries/helpers/src/utils/strip.html.validation.ts:4-67 | distinct keys have distinct bold forms, and a bold form is never itself a key |
| StripHtml.BoldText | libraries/helpers/src/utils/strip.html.validation.ts:297-300 | the bolded text keeps its length |
| StripHtml.UnderlineText | libraries/helpers/src/utils/strip.html.validation.ts:305-308 | the underlined text is at least as long as the input |
| StripHtml.BoldTextPointwise | libraries/helpers/src/utils/strip.html.validation.ts:297-300 | position by position, characters that are not keys are kept |
| StripHtml.BoldTextRoundTrip | libraries/helpers/src/utils/strip.html.validation.ts:297-300 | un-bolding bold text gives back the original text when that had no bold characters |
| StripHtml.UnderlineTextRoundTrip | libraries/helpers/src/utils/strip.html.validation.ts:305-308 | dropping the low lines from underlined text gives back the original text when that had none |
| StripHtml.ReplaceString | libraries/helpers/src/utils/strip.html.validation.ts:302 | JavaScript `replace` with a string pattern: no occurrence keeps the text; otherwise only the first occurrence is replaced (literally when the replacement has no `$`) |
| StripHtml.Substitute | libraries/helpers/src/utils/strip.html.validation.ts:302 | a replacement without `$` is inserted as it is |
| StripHtml.NoMatchUnchanged | libraries/helpers/src/utils/strip.html.validation.ts:137-140 | a global replace with no match from `i` on keeps the text |
| StripHtml.FirstMatchRewritten | libraries/helpers/src/utils/strip.html.validation.ts:137-140 | the text before the first match is kept, the match is rewritten, and the search resumes after it |
| StripHtml.ConvertMention | libraries/helpers/src/utils/strip.html.validation.ts:278-292 | without a callback the text is returned unchanged |
| StripHtml.ConvertToAscii | libraries/helpers/src/utils/strip.html.validation.ts:294-312 | text with no `<strong>` and no `<u>`, in any case, is returned unchanged; `UnderlineAsWritten`, `StrongAsWritten` and the quirk lemmas give what a tag becomes |
| StripHtml.ConvertMentionNoSpans | libraries/helpers/src/utils/strip.html.validation.ts:278-292 | text with no `<span` is returned unchanged, with or without a callback |
| StripHtml.MentionSpanRewritten | libraries/helpers/src/utils/strip.html.validation.ts:286-291 | each mention span becomes `<span>` + callback(id, name) + `</span>` |
| StripHtml.CleanExcessParagraphTags | libraries/helpers/src/utils/strip.html.validation.ts:135-143 | text with no `<p` is returned unchanged; `EmptyParagraphDeleted` and `ParagraphBreakJoined` give the two rewrites |
| StripHtml.EmptyParagraphDeleted | libraries/helpers/src/utils/strip.html.validation.ts:137 | a paragraph holding only white space is deleted |
| StripHtml.ParagraphBreakJoined | libraries/helpers/src/utils/strip.html.validation.ts:140 | `</p>`, white space, `<p>` becomes one `\n` |
| StripHtml.TagPassKeeps | libraries/helpers/src/utils/strip.html.validation.ts:296-311 | a text in which the pattern's opening tag cannot start goes through its pass unchanged |
| StripHtml.SingleTagMatch | libraries/helpers/src/utils/strip.html.validation.ts:296 | the lazy tag pattern matches one element around a group without `<` or line break as a whole |
| StripHtml.TagPassRewrites | libraries/helpers/src/utils/strip.html.validation.ts:296-311 | one element around a group without `<` or line break is rewritten as a single match |
| StripHtml.UnderlineAsWritten | libraries/helpers/src/utils/strip.html.validation.ts:304-311 | `<u>p</u>` becomes the element with the first occurrence of `p`, anywhere in it, replaced by its underlined form |
| StripHtml.UnderlineTagNameQuirk | libraries/helpers/src/utils/strip.html.validation.ts:310 | `<u>u</u>` becomes `<u̲>u</u>`: the tag name is rewritten, not the text |
| StripHtml.StrongAsWritten | libraries/helpers/src/utils/strip.html.validation.ts:296-303 | `<strong>p</strong>` becomes the element with the first occurrence of `p`, anywhere in it, replaced by its bold form |
| StripHtml.StrongTagNameQuirk | libraries/helpers/src/utils/strip.html.validation.ts:302 | in `<strong>s</strong>` the occurrence replaced is the `s` of the tag name, at index 1 |
| StripHtml.StripHtmlValidation | libraries/helpers/src/utils/strip.html.validation.ts:145-229 | `plain` returns the input unchanged; a type other than html or markdown, with `none` false and no `<p>` in the serialised value, returns the serialised cleaned value; everything else goes to the later branches |
| FeaturesHelpers.DynamicKeysAreNames | python_service/app/config/settings.py:45-65 | every key of the shipped dynamic map is a field name starting with a lower-case letter |
| FeaturesHelpers.NumericIdNeverDynamic | python_service/app/utils/features_helpers.py:69 | with the shipped table, an id starting with a digit or `-`, as a stringified integer does, is never a key of the dynamic map |
| FeaturesHelpers.DynamicTablesInverse | python_service/app/config/settings.py:44-65 | the table keyed by feature id maps each id of the shipped table back to its field name |
| FeaturesHelpers.FindOptionById | python_service/app/utils/features_helpers.py:28-35 | none exactly when no option's stringified id equals the target (so none for no options); otherwise the first such option as `{str(id), title or ""}` |
| FeaturesHelpers.FindOptionByTitle | python_service/app/utils/features_helpers.py:38-54 | none when the options or the title are empty |
| FeaturesHelpers.ExactTitleWins | python_service/app/utils/features_helpers.py:44-47 | the first stripped, lower-cased exact match is returned, whatever partial matches come before it |
| FeaturesHelpers.PartialTitleFallback | python_service/app/utils/features_helpers.py:49-52 | without an exact match, the first option whose lower-cased title contains the query is returned |
| FeaturesHelpers.ExactIsPartial | python_service/app/utils/features_helpers.py:46-51 | an exact match is also a partial match |
| FeaturesHelpers.TitleNotFound | python_service/app/utils/features_helpers.py:38-54 | nothing is found exactly when there are no options, no title, or no title containing the query |
| FeaturesHelpers.RequestOf | python_service/app/utils/features_helpers.py:57-86 | every key of the request is an AI key of the dynamic table, and no features give `{}`; `RequestKeys` and `RequestSlot` give the keys and slots exactly |
| FeaturesHelpers.BuildAiRequest | python_service/app/utils/features_helpers.py:57-86 | the nested loops equal `RequestOf` over all features of all groups |
| FeaturesHelpers.RequestKeys | python_service/app/utils/features_helpers.py:64-84 | the request has a key exactly for the AI key of each feature whose id is a key of the dynamic map, and no other |
| FeaturesHelpers.RequestSlot | python_service/app/utils/features_helpers.py:76-84 | a key holds the slot of the last dynamic feature with that key: titles for a dropdown with options, `""` otherwise |
| FeaturesHelpers.NumericIdsGiveEmptyRequest | python_service/app/utils/features_helpers.py:66-70 | with the shipped table and numeric ids, the AI request is empty |
| FeaturesHelpers.MakeFeatureNotRequested | python_service/app/utils/features_helpers.py:66-70 | with the shipped table, the make feature (id 20) is left out of the request |
| FeaturesHelpers.MakeFeatureRequested | python_service/app/utils/features_helpers.py:66-84 | with the table keyed by feature id, the make feature asks for `make` |
| FeaturesHelpers.LastWriteOfThree | python_service/app/utils/features_helpers.py:119-151 | the value left by three stages is the last stage that wrote anything |
| FeaturesHelpers.ChosenOfThree | python_service/app/utils/features_helpers.py:119-151 | the first stage among AI, static default and JSON default that sets a non-empty label decides; when none does, the last stage that wrote anything |
| FeaturesHelpers.ChosenSkipsFirstNone | python_service/app/utils/features_helpers.py:119-151 | a stage that sets nothing can be dropped |
| FeaturesHelpers.Refs | python_service/app/utils/features_helpers.py:106-110 | one `{str(id), title}` per option, in order |
| FeaturesHelpers.ProcessedOf | python_service/app/utils/features_helpers.py:89-153 | the feature's id (stringified), title, type and required flag are kept; options exactly when it has any, the k-th reference being the k-th option's `{id, title}`; units exactly when truthy, and then the feature's own units; a non-empty AI label wins, then a non-empty static default |
| FeaturesHelpers.ProcessFeature | python_service/app/utils/features_helpers.py:89-153 | the step-by-step `processed` dict equals `ProcessedOf`: the feature's fields, with the label chosen by stage precedence |
| FeaturesHelpers.UnmatchedAiDropdown | python_service/app/utils/features_helpers.py:125-131 | an AI dropdown value matching no option becomes the label with an empty `label_id` |
| FeaturesHelpers.NoAiResult | python_service/app/utils/features_helpers.py:135-151 | with an empty AI result, only the static and JSON defaults set the label |
| FeaturesHelpers.EarlierStageWins | python_service/app/utils/features_helpers.py:119-151 | a non-empty label of an earlier stage is never overwritten by a later one |
| PostsRouter.ProcessGroup | python_service/app/api/posts_router.py:61-71 | the group's title is kept and each feature is processed, in order, one output per input |
| PostsRouter.GetPostConfig | python_service/app/api/posts_router.py:35-74 | no groups gives the 500 load error; otherwise the same number of groups, in order, each processed against the one AI result |
| PostsRouter.AskParser | python_service/app/api/posts_router.py:42-56 | without text the AI result is `{}`; otherwise the parser's answer when it is a dictionary, and `{}` when it is not or the parser raised |
| PostsRouter.NoTextNoAi | python_service/app/api/posts_router.py:42-43 | without text the AI result is `{}`, so labels come only from the static and JSON defaults |
| PostsRouter.ParserFailureIgnored | python_service/app/api/posts_router.py:50-56 | an exception or a non-dict answer from the parser gives the AI result `{}` |
| AdverbPost.FormatFeatureValue | python_service/app/api/adverb_post.py:43-98 | the id is kept |
| AdverbPost.TitleAndDescriptionBilingual | python_service/app/api/adverb_post.py:60-69 | ids 12 and 13 give `{ro: translation or original, ru: original}` with no unit, before any other rule |
| AdverbPost.NumericIdIsPlain | python_service/app/api/adverb_post.py:72-95 | the numeric ids are none of the bilingual, phone or boolean ids |
| AdverbPost.NumericValueParsed | python_service/app/api/adverb_post.py:72-77 | a numeric field whose text renders an integer is sent as that integer |
| AdverbPost.NumericValueKept | python_service/app/api/adverb_post.py:74-77 | a numeric field that does not parse keeps its text |
| AdverbPost.UnitBeforePhoneAndBoolean | python_service/app/api/adverb_post.py:80-81 | with a unit the result is `{id, value, unit}`, even for phone and boolean ids |
| AdverbPost.PhoneAsList | python_service/app/api/adverb_post.py:84-88 | without a unit, the phone is a one-element list with `+`, spaces and `-` removed |
| AdverbPost.CleanPhoneChars | python_service/app/api/adverb_post.py:87 | the cleaned phone holds exactly the characters of the input other than `+`, space and `-` |
| AdverbPost.CleanPhoneIdempotent | python_service/app/api/adverb_post.py:87 | cleaning twice equals cleaning once |
| AdverbPost.BooleanParsed | python_service/app/api/adverb_post.py:92-95 | a boolean field is true exactly when its lower-cased text is `true`, `1`, `yes` or `да` |
| AdverbPost.CapitalisedDaIsTrue | python_service/app/api/adverb_post.py:94 | `Да` counts as true |
| AdverbPost.OtherFieldsKept | python_service/app/api/adverb_post.py:97-98 | any other field keeps its text, with its unit if it has one |
| AdverbPost.UploadImages | python_service/app/api/adverb_post.py:186-204 | the loop's list equals `Uploaded`: the truthy ids in input order |
| AdverbPost.UploadedBounds | python_service/app/api/adverb_post.py:192-204 | at most one id per image; every id is truthy and is the upload result of one of the images |
| AdverbPost.AllUploadsKept | python_service/app/api/adverb_post.py:192-204 | when every upload succeeds, the ids are all the upload results, in order |
| AdverbPost.ExtensionFor | python_service/app/api/adverb_post.py:127-134 | the extension is one of png, gif, webp, jpg; any but jpg occurs in the content type, and jpg only when none of the other three does |
| AdverbPost.ExtensionFirstMatch | python_service/app/api/adverb_post.py:127-134 | the first of `png`, `gif`, `webp` that the content type contains, else `jpg` |
| AdverbPost.MissingContentTypeIsJpg | python_service/app/api/adverb_post.py:124-134 | a missing content type defaults to `image/jpeg`, which gives `jpg` |
| AdverbPost.PyOrFirstTruthy | python_service/app/api/adverb_post.py:166 | `a or b or …` is the first truthy operand |
| AdverbPost.PyOrNoneTruthy | python_service/app/api/adverb_post.py:166 | with no truthy operand the value is falsy |
| AdverbPost.UploadedId | python_service/app/api/adverb_post.py:160-169 | the id is `None` or truthy, and an id comes only from a 200 or 201 with a dict answer |
| AdverbPost.UploadedIdFirstTruthy | python_service/app/api/adverb_post.py:160-169 | after a 200 or 201, the id is the first truthy of `filename`, `id`, `name`, `image` |
| AdverbPost.UploadedIdNone | python_service/app/api/adverb_post.py:160-183 | another status, a non-dict answer or no truthy field gives no id |
| AdverbPost.UploadImageId | python_service/app/api/adverb_post.py:113-183 | an id returned is either `None` or truthy |
| AdverbPost.PayloadOf | python_service/app/api/adverb_post.py:207-245 | the header fields are the request's and the state given; with uploaded images the images feature comes first; `PayloadLayout` gives the rest |
| AdverbPost.Build999Request | python_service/app/api/adverb_post.py:207-245 | the appends equal `PayloadOf`: images, the features with a value, region, then phone |
| AdverbPost.FormattedFeaturesFrom | python_service/app/api/adverb_post.py:225-228 | at most one entry per feature, each the formatting of a feature with a value |
| AdverbPost.FormattedFeaturesAll | python_service/app/api/adverb_post.py:225-228 | features that all have a value are all formatted, in order |
| AdverbPost.PayloadLayout | python_service/app/api/adverb_post.py:215-237 | the image feature (id 14) leads when there are ids; the phone feature (id 16), cleaned, closes the list when given; otherwise a truthy region (id 5) does |
| AdverbPost.PayloadHeader | python_service/app/api/adverb_post.py:239-245 | category, subcategory and offer type are copied unchanged, and the state is the one given |
| AdverbPost.AdvertResultOf | python_service/app/api/adverb_post.py:300-343 | a created result comes only from a 200 or 201 with a dict answer, and always does, carrying that answer, the upload count and the fixed message; its advert id is the text of `id` when truthy, else of `advert_id`; its URL is the answer's truthy `url`, else `https://999.md/ru/` followed by the advert id; a timeout gives the timeout failure; any other exception gives a failure with its message and no details; failure details only for another status |
| AdverbPost.CreateAdvert | python_service/app/api/adverb_post.py:248-343 | without a key, the fixed failure with no details; otherwise the shaped answer to sending the payload built from the uploaded ids, with their count |
| AdverbPost.MissingAdvertIdRendersNone | python_service/app/api/adverb_post.py:305-310 | an accepted answer without an id reports `"None"` and the URL `https://999.md/ru/None` |
| AdverbPost.CreatedOnlyOnSuccess | python_service/app/api/adverb_post.py:301-326 | an advert is created exactly for a 200 or 201 with a dict answer; any other status is a failure carrying the answer text |
| AiParserService.CleanFenced | python_service/app/services/ai_parser.py:456-462 | a reply with neither fence is only stripped |
| AiParserService.CleanFencedShape | python_service/app/services/ai_parser.py:456-462 | a cleaned reply holds no fence and is already stripped |
| AiParserService.CleanFencedOfClean | python_service/app/services/ai_parser.py:456-462 | a stripped reply with no fence is kept |
| AiParserService.CleanFencedIdempotent | python_service/app/services/ai_parser.py:456-462 | cleaning twice equals cleaning once |
| AiParserService.CleanJsonIdempotent | python_service/app/services/ai_parser.py:456-462 | `_clean_json_response` applied twice equals applying it once |
| AiParserService.CleanFencedBlock | python_service/app/services/ai_parser.py:458-459 | a tagged fenced block gives its body, stripped, when no other backtick surrounds it |
| AiParserService.CleanFencedPlain | python_service/app/services/ai_parser.py:460-461 | without a tagged fence, a block between two plain fences gives its body, stripped, when no other backtick surrounds it |
| AiParserService.CleanJsonFencedBlock | python_service/app/services/ai_parser.py:458-459 | a ```` ```json ```` block gives its body |
| AiParserService.CleanJsonPlainFence | python_service/app/services/ai_parser.py:460-461 | a ```` ``` ```` block gives its body |
| AiParserService.CleanBlocksClean | python_service/app/services/ai_parser.py:212 | every kept block is a string value of the same key, stripped and non-blank, and every non-blank string value is kept |
| AiParserService.CleanBlocksKeepsClean | python_service/app/services/ai_parser.py:212 | blocks that are all non-blank and stripped are kept unchanged |
| AiParserService.CleanBlocksIdempotent | python_service/app/services/ai_parser.py:212 | cleaning cleaned blocks changes nothing |
| AiParserService.JoinSpaced | python_service/app/services/ai_parser.py:344-351 | appending `""` after each block, popping the last and joining by `\n` is joining by blank lines |
| AiParserService.BuildDescriptionFromBlocks | python_service/app/services/ai_parser.py:323-351 | the `append`/`pop` loop equals `DescriptionFromBlocks`: the non-empty blocks in the order available, location, vin, condition, possible, joined by one blank line |
| AiParserService.PresentIgnoresOtherKeys | python_service/app/services/ai_parser.py:337-345 | the blocks gathered do not depend on a key outside the order |
| AiParserService.DescriptionIgnoresOtherKeys | python_service/app/services/ai_parser.py:337-340 | a key outside the fixed order does not change the description |
| AiParserService.PresentFromBlocks | python_service/app/services/ai_parser.py:339-344 | every item is a non-empty block stored under one of the keys |
| AiParserService.PresentAllInOrder | python_service/app/services/ai_parser.py:337-345 | with all five blocks present, they appear in the fixed order |
| AiParserService.AssembleSections | python_service/app/services/ai_parser.py:261-277 | the `append` sequence, joined and stripped, equals the section lines of the three sections |
| AiParserService.TransformDescriptionBlocks | python_service/app/services/ai_parser.py:254-284 | the assembled sections of the decoded answer; the fallback description from the blocks when the call, the decoding or the assembly raises |
| AiParserService.AllSections | python_service/app/services/ai_parser.py:261-277 | with all three sections the text is СОСТОЯНИЕ, КОМПЛЕКТАЦИЯ, ПРЕИМУЩЕСТВА, each header on its own line before its text, with blank lines between |
| AiParserService.SectionHeaders | python_service/app/services/ai_parser.py:263-275 | a header appears exactly when its section is non-empty |
| AiParserService.NoSections | python_service/app/services/ai_parser.py:261-277 | an answer with no truthy section gives `""` |
| AiParserService.AddressIn | python_service/app/services/ai_parser.py:299-304 | the address found is always usable: non-empty and starting with neither 📞 nor `+`; with no usable line it is the default `Bugeac, Pavlova 1A` |
| AiParserService.AddressInFirst | python_service/app/services/ai_parser.py:299-302 | the first usable line, cleaned, is the address, whatever lines follow it |
| AiParserService.DefaultAddressUsable | python_service/app/services/ai_parser.py:304 | the default address `Bugeac, Pavlova 1A` is a usable address |
| AiParserService.AddressOf | python_service/app/services/ai_parser.py:286-304 | the extracted address is always usable: non-empty and starting with neither 📞 nor `+`; an empty or missing location block gives the default `Bugeac, Pavlova 1A` |
| AiParserService.FindAddress | python_service/app/services/ai_parser.py:299-304 | the early-return loop equals `AddressIn` |
| AiParserService.ExtractAddress | python_service/app/services/ai_parser.py:286-304 | equals `AddressOf` |
| AiParserService.AddressIsFirstUsableLine | python_service/app/services/ai_parser.py:299-303 | the address is the first usable line, however many unusable lines precede it |
| AiParserService.PlainFirstLineIsAddress | python_service/app/services/ai_parser.py:299-303 | a clean first line is the address as it stands |
| AiParserService.LineField | python_service/app/services/ai_parser.py:537-544 | the elif chain picks one of the four facts or none |
| AiParserService.LineFieldFirstMatch | python_service/app/services/ai_parser.py:537-544 | the fact picked is the first label, in the order Марка, Модель, Год, Цена, that the line contains |
| AiParserService.ScanLine | python_service/app/services/ai_parser.py:536-544 | one iteration overwrites only the chosen fact |
| AiParserService.ScanLineSets | python_service/app/services/ai_parser.py:538-544 | the chosen fact becomes the stripped text after the label |
| AiParserService.FactFromLastLine | python_service/app/services/ai_parser.py:536-544 | a fact comes from the last line that sets it |
| AiParserService.FactAbsent | python_service/app/services/ai_parser.py:531-544 | a fact that no line sets stays empty |
| AiParserService.ConditionFirstMatch | python_service/app/services/ai_parser.py:547-555 | идеальное состояние before свежепригнана before отличное состояние, each tested in the lower-cased condition; хорошее состояние otherwise |
| AiParserService.SummaryTextShape | python_service/app/services/ai_parser.py:558-561 | the summary is never empty; it starts with `"{make} {year}, "` exactly when both are found, and is the fixed sentence otherwise |
| AiParserService.FallbackSummary | python_service/app/services/ai_parser.py:515-561 | the loop's facts equal `FactsOf` the lines of `available`, and the result equals `FallbackSummaryOf` |
| AiParserService.SummaryOf | python_service/app/services/ai_parser.py:464-513 | never empty; the model's stripped summary when non-blank, the fallback otherwise |
| AiParserService.FailedCallFallsBack | python_service/app/services/ai_parser.py:509-513 | a failed call gives the fallback summary |
| AiParserService.GenerateDescriptionSummary | python_service/app/services/ai_parser.py:464-513 | equals `SummaryOf` |
| AiParserService.Complete | python_service/app/services/ai_parser.py:178 | the text starts with the summary and a blank line and ends with `\n` and the footer |
| AiParserService.DescriptionEmptyIffNoBlocks | python_service/app/services/ai_parser.py:162-164 | the label is empty exactly when no blocks were extracted |
| AiParserService.DescriptionLayout | python_service/app/services/ai_parser.py:166-181 | with blocks the label is summary + `\n\n` + body + `\n` + footer with the extracted address |
| AiParserService.ParseDescriptionField | python_service/app/services/ai_parser.py:145-187 | the answer is `{"label": DescriptionLabelOf(...)}` |
| AiParserService.FieldParseFailure | python_service/app/services/ai_parser.py:95-97 | every value is `""`; `label` always, and `label_id` exactly for `drop_down_options` |
| AiParserAgent.StoreGroup | python_service/ai_parser.py:30-31 | the inner loop stores the group's features one after the other |
| AiParserAgent.FlattenFeatures | python_service/ai_parser.py:28-31 | the nested loops equal `Index` over the features of all groups |
| AiParserAgent.IndexKeys | python_service/ai_parser.py:28-31 | a key is present exactly when some feature's stringified id is that key |
| AiParserAgent.IndexLastWins | python_service/ai_parser.py:28-31 | under each id is the last feature carrying it |
| AiParserAgent.MatchIndex | python_service/ai_parser.py:76-86 | an index found is that of one of the options |
| AiParserAgent.MatchOption | python_service/ai_parser.py:76-86 | the two loops equal `MatchIndex` |
| AiParserAgent.ExactBeatsPartial | python_service/ai_parser.py:78-81 | an exact match wins over an earlier partial one |
| AiParserAgent.FirstPartialChosen | python_service/ai_parser.py:83-86 | without an exact match, the first partial match in either direction is chosen |
| AiParserAgent.NoMatch | python_service/ai_parser.py:76-90 | nothing is chosen exactly when no option matches, exactly or partially |
| AiParserAgent.EmptyQueryFirst | python_service/ai_parser.py:84-86 | an empty query chooses the first option when no title is empty |
| AiParserAgent.Titles | python_service/ai_parser.py:221 | one title per option, in order |
| AiParserAgent.TitlesContaining | python_service/ai_parser.py:89 | at most one title per option, each a title whose lower-cased form contains the text |
| AiParserAgent.Similar | python_service/ai_parser.py:89-90 | at most 5 titles of the options, each whose lower-cased form contains the first 3 characters of the query |
| AiParserAgent.MakeAnswer | python_service/ai_parser.py:65-90 | a selection or a message; a selection is one of the make feature's options under id 20; no make feature gives its message; `MakeAnswerChoice` ties it to `MatchIndex` |
| AiParserAgent.FindMakeOption | python_service/ai_parser.py:65-90 | equals `MakeAnswer` |
| AiParserAgent.MakeAnswerChoice | python_service/ai_parser.py:72-90 | with the make feature (id 20) in the catalogue, an option is selected exactly when `MatchIndex` finds one for the stripped, lower-cased name, and it is that option |
| AiParserAgent.DropdownAnswer | python_service/ai_parser.py:189-222 | a selection or a message; a selection is one of the feature's options under its id; an unknown feature gives its message |
| AiParserAgent.FindDropdownOption | python_service/ai_parser.py:189-222 | equals `DropdownAnswer` |
| AiParserAgent.DropdownAnswerChoice | python_service/ai_parser.py:200-222 | a selection is always one of the requested feature's own options, under the requested id; for a known feature, a value is selected exactly when `MatchIndex` (exact before partial) finds an option, and it is that option |
| AiParserAgent.FirstFitting | python_service/ai_parser.py:170-173 | the first option whose lower-cased title contains the query |
| AiParserAgent.GenerationAnswer | python_service/ai_parser.py:164-183 | a selection or a message; a selection is one of the fetched options under feature 2095; no options gives the no-generations message |
| AiParserAgent.FindGeneration | python_service/ai_parser.py:164-183 | equals `GenerationAnswer` |
| AiParserAgent.GenerationChoice | python_service/ai_parser.py:164-183 | the first option whose lower-cased title contains the query is picked; when none does, an option is selected exactly when there is a single one |
| AiParserAgent.UnitFor | python_service/ai_parser.py:261-271 | no unit exactly when the feature has no units; otherwise the first listed unit, or the given unit lower-cased when it is one of them |
| AiParserAgent.UnitChoice | python_service/ai_parser.py:263-269 | a matching unit is stored lower-cased; a non-matching unit, or none, stores the first listed unit |
| AiParserAgent.EmptyUnitIsFirst | python_service/ai_parser.py:263-269 | an empty unit is falsy and gives the first listed unit |
| AiParserAgent.NumericAnswer | python_service/ai_parser.py:247-271 | an unknown feature, and only that, gives a message; a numeric answer carries the id, the value as given and `UnitFor` as the unit |
| AiParserAgent.DefaultAnswer | python_service/ai_parser.py:226-243 | never a numeric answer; a selection is under the requested id; a raw default is truthy; an unknown feature gives its message |
| AiParserAgent.DefaultAnswerShape | python_service/ai_parser.py:226-243 | an options default, and only that, gives a selection `{id, str(option id), title}`; a truthy plain default, and only that, is returned raw |
| AiParserAgent.LastClose | python_service/ai_parser.py:427 | the index of the last `]`, with no `]` after it; -1 when there is none |
| AiParserAgent.ArraySpan | python_service/ai_parser.py:427-429 | the span is never longer than the text; `ArraySpanShape` and `ArraySpanFound` give its value |
| AiParserAgent.ArraySpanShape | python_service/ai_parser.py:427-429 | when a `[` comes before the last `]`, the span is the text from the first `[` through the last `]`: it starts with `[`, ends with `]`, no `[` comes before it and no `]` after it |
| AiParserAgent.ArraySpanFound | python_service/ai_parser.py:427-429 | a span is found exactly when some `[` comes before some `]`; when none does, the text is kept unchanged |
| AiParserAgent.CleanFeature | python_service/ai_parser.py:439-441 | the keys are `id`, `value` and `unit` if present; `id` stringified and the rest copied; none when `id` or `value` is missing |
| AiParserAgent.CleanFeatures | python_service/ai_parser.py:437-442 | every item cleaned, in order, or none when one raises |
| AiParserAgent.ParseOf | python_service/ai_parser.py:419-471 | the category, subcategory and offer type are always the fixed ones; an error carries no features; an undecodable reply is reported as a JSON parsing error |
| AiParserAgent.CleanFeatureList | python_service/ai_parser.py:437-442 | the loop equals `CleanFeatures` |
| AiParserAgent.CleanFailsOnce | python_service/ai_parser.py:437-442 | one item that raises fails the whole list |
| AiParserAgent.Parse | python_service/ai_parser.py:419-471 | equals `ParseOf` |
| AiParserAgent.CleanFeatureIdempotent | python_service/ai_parser.py:439-441 | a cleaned feature cleans to itself |
| AiParserAgent.ParsedFeatures | python_service/ai_parser.py:427-449 | a decoded list comes back as exactly its features cleaned, in order, with no error |
| ImageRouter.ConvertHeic | python_service/app/api/image_router.py:33-78 | every refusal is a 400; a conversion has a HEIC name, the quality asked for within 1..100, the upper-cased format JPEG or PNG, and the original and converted names in its headers |
| ImageRouter.AcceptedIff | python_service/app/api/image_router.py:34-50 | the conversion goes ahead exactly when the filename is present, ends in `.heic`/`.heif` in any case, the quality is 1..100 and the upper-cased format is JPEG or PNG |
| ImageRouter.GuardOrder | python_service/app/api/image_router.py:34-46 | every refusal is a 400; a missing name is reported first, then a wrong extension, then a bad quality |
| ImageRouter.ConvertedNameSwapsExtension | python_service/app/api/image_router.py:66-78 | the new name is the name without its last five characters plus `.jpg` or `.png`, with media type `image/jpeg` or `image/png` to match |
| VideoRouter.ExtOf | python_service/app/api/video_router.py:36 | the extension of a last path component is empty or a final `.` part with no other `.`, and ends the component; `ExtOfPresent` says when it is not empty |
| VideoRouter.ExtOfPresent | python_service/app/api/video_router.py:36 | the extension is non-empty exactly when a character other than `.` comes before a later `.`; with `ExtOf`'s shape this makes it the text from the last `.`, as `posixpath.splitext` reports |
| VideoRouter.SplitExtShape | python_service/app/api/video_router.py:36 | `os.path.splitext`'s extension is empty or a final `.` part with no other `.` or `/`, and ends the path; which one it is, on the last component, is `ExtOf` with `ExtOfPresent` |
| VideoRouter.QualityTable | python_service/app/api/video_router.py:55-59 | exactly low, medium and high are known, with crf 28/faster, 23/medium and 18/slow |
| VideoRouter.ConvertVideo | python_service/app/api/video_router.py:28-64 | a conversion has a supported lower-cased extension, the `.mp4` name, and the crf and preset of a known quality preset, the one asked for |
| VideoRouter.Mp4PassesThrough | python_service/app/api/video_router.py:36-46 | an `.mp4` upload is returned unchanged under its own name, whatever the quality |
| VideoRouter.GuardOrder | python_service/app/api/video_router.py:28-62 | every refusal is a 400; a missing name first; then an extension that is neither `.mp4` nor supported is refused with the list of supported ones; then, for a supported extension, a quality other than low, medium or high is refused with the quality message |
| VideoRouter.TranscodeIff | python_service/app/api/video_router.py:32-64 | a conversion goes ahead exactly for a present name, one of the 8 supported extensions and a known quality |
| VideoRouter.ConvertedName | python_service/app/api/video_router.py:111 | the new name keeps the original, case preserved, up to its last `.`, which exists, followed by `.mp4` |
| VideoRouter.CommandLayout | python_service/app/api/video_router.py:75-89 | 17 arguments: the input at 2, the quality settings at 7..10, the input renamed to `.mp4` last |

## Left out

- Network traffic of every kind is an oracle: network outcomes are parameters. This covers the
  Graph API, the 999.md API, the HEIC conversion service, Transloadit `save-media` and the
  `find_model_option`/`find_generation_option` requests. Timeouts and exception texts are outcomes
  of the oracle.
- The language model, the agent, translation and the prompt templates are parameters. The model
  replies are `Option<string>`, with `None` for a call that raised. `DESCRIPTION_FOOTER_TEMPLATE`
  is a function of the address. `json.loads` is a parameter from text to an optional JSON value.
- The agent reply extraction in `AIParserAgent.parse` is a parameter: the last message with
  content, `output`, or `str(result)` all become the one `output` text the parse starts from.
- Exception message texts (`str(e)` in `parse` and `create_advert`, the `Facebook upload failed`
  JSON) are reduced to kinds or to given texts.
- `find_model_option`, `get_all_features_list`, `create_text_feature`, `get_feature_info_by_name`,
  `get_headers`: network or formatting stubs outside the modelled rules.
- The catalogue of `python_service/ai_parser.py` is taken as well-formed. Every option has an id
  and a string title, units are strings, and a default value is either an options default or a
  plain value. A string default that contains the text `options` is not modelled.
- AiParserAgent.ApiOption: the titles of fetched generation options are strings or absent.
- Json.PyStr: a dictionary renders as the fixed text `{...}`, because a `Json` object is an
  unordered map and cannot carry Python's key order; and a string inside a list is always quoted
  with plain single quotes, with none of `repr`'s double-quote choice or escaping. So an AI answer
  that is itself a dictionary gets the label `{...}` in `process_feature`, where Python would give
  its `str()`.
- Text.Lower, Text.Upper: case mapping covers ASCII, Latin-1 and basic Cyrillic only. Python's
  full Unicode mapping is not modelled, including the length-changing upper-casing of `ß`.
- Text.ParsePyInt: only ASCII digits are accepted. Python's `int()` also accepts other Unicode
  decimal digits, such as Arabic-Indic or fullwidth digits, and from Python 3.11 it raises on
  texts of more than 4300 digits; the model accepts those long texts. This carries over to
  AdverbPost.FormatFeatureValue, which formats numeric feature values with it.
- FeaturesHelpers.DefaultStage: a `default_value` whose `options` is not a dictionary is not
  modelled.
- md5 file naming, `TYPE_999_ADVERT` and the 999.md base URLs are parameters or left out. The
  shown `settings.py` defines none of them.
- Pydantic defaults of the advert request are taken as given field values.
- AiParserService.ExtractAddress: the proof does not show that no 📍 is left in the address.
- Pillow and pillow-heif decoding and encoding, the ffmpeg run, its return code, stderr, its
  500 answer and timeout, temporary files, and the health endpoints are left out.
- The Uppy, React, Compressor, toast and canvas internals are left out. So are `parse5`
  serialisation and `striptags`, which are function parameters, and the html and markdown
  branches of `stripHtmlValidation`, a single `rest` parameter.
- OAuth flows, `analytics`, status polling, binary-upload fallback and concurrency are left out:
  the shown code implements none of them beyond stubs.

## Findings

| source | as written | input that shows it | evidently intended | confidence | as-written member | corrected member |
|---|---|---|---|---|---|---|
| python_service/app/utils/features_helpers.py:69 | `feature_id in DYNAMIC_IDS_MAP` tests a stringified numeric id against keys that are field names (`"make"`, …) | a feature with id 20 (the make): `"20" not in DYNAMIC_IDS_MAP`, so the AI request is empty and no AI label is ever applied | the table keyed by feature id, as its comment says ("Feature ID -> key from the AI parser"), so feature 20 asks for `make` | not executed | FeaturesHelpers.NumericIdsGiveEmptyRequest, FeaturesHelpers.MakeFeatureNotRequested | FeaturesHelpers.MakeFeatureRequested, FeaturesHelpers.DynamicTablesInverse |

The feature-form model takes the dynamic table as a parameter. `FeaturesHelpers.DynamicIdsMap` is
the table as shipped, where the test is kept literal. `FeaturesHelpers.DynamicKeysByFeatureId` is
the corrected table, which `PostsRouter.GetPostConfig` and `FeaturesHelpers.ProcessFeature` accept
in its place.
