/**
 * Creating an advert on 999.md: each submitted feature is formatted the way
 * the 999.md API expects it, the uploaded images and the region and phone
 * fields are added around them, and the API's answer is shaped into the
 * result the client sees.
 *
 * The network is a parameter everywhere: an image upload is a function from
 * the image URL to the id it produced (`JNull` for none), posting the advert is
 * a function from the payload to what came back. The translation service is a
 * function from Russian text to its Romanian translation (`""` on failure).
 */
module AdverbPost {
  import opened Wrappers
  import opened Text
  import opened Json
  import opened Lists

  const ImagesFeatureId := "14"
  const RegionFeatureId := "5"
  const PhoneFeatureId := "16"

  const NumericFields: set<string> := {"2", "19", "104", "107", "2513", "2554", "2555"}
  const BooleanFields: set<string> := {"908", "939", "940"}
  const TrueWords: set<string> := {"true", "1", "yes", "да"}

  /** A feature as the client submits it. */
  datatype FeatureValue = FeatureValue(id: string, value: string, unit: Option<string>)

  /** A feature as the 999.md API receives it; `unit` is present only when set. */
  datatype Formatted = Formatted(id: string, value: Json, unit: Option<string>)

  // ---------------------------------------------------------------------------
  // format_feature_value

  /** The Romanian text is the translation when there is one, the original otherwise. */
  function Bilingual(value: string, translate: string -> string): Json {
    var ro := translate(value);
    JObj(map["ro" := JStr(if ro != "" then ro else value), "ru" := JStr(value)])
  }

  /** `int(value)` for the numeric fields; a value that does not parse is kept as text. */
  function Coerced(id: string, value: string): Json {
    if id in NumericFields then
      match ParsePyInt(value)
      case Some(n) => JInt(n)
      case None => JStr(value)
    else JStr(value)
  }

  /** A phone number with every `+`, space and `-` removed. */
  function CleanPhone(s: string): string {
    DeleteChar(DeleteChar(DeleteChar(s, '+'), ' '), '-')
  }

  predicate HasUnit(unit: Option<string>) {
    unit.Some? && unit.value != ""
  }

  /** `format_feature_value`. */
  function FormatFeatureValue(feat: FeatureValue, translate: string -> string): (r: Formatted)
    ensures r.id == feat.id
  {
    if feat.id == "12" || feat.id == "13" then
      Formatted(feat.id, Bilingual(feat.value, translate), None)
    else
      var value := Coerced(feat.id, feat.value);
      if HasUnit(feat.unit) then Formatted(feat.id, value, feat.unit)
      else if feat.id == PhoneFeatureId then Formatted(feat.id, JArr([JStr(CleanPhone(feat.value))]), None)
      else if feat.id in BooleanFields then Formatted(feat.id, JBool(Lower(feat.value) in TrueWords), None)
      else Formatted(feat.id, value, None)
  }

  /** The title and the description become a Romanian/Russian pair, whatever their unit. */
  lemma TitleAndDescriptionBilingual(feat: FeatureValue, translate: string -> string)
    requires feat.id == "12" || feat.id == "13"
    ensures var r := FormatFeatureValue(feat, translate);
      r.unit.None? && r.value.JObj? && r.value.fields.Keys == {"ro", "ru"}
      && r.value.fields["ru"] == JStr(feat.value)
      && (translate(feat.value) != "" ==> r.value.fields["ro"] == JStr(translate(feat.value)))
      && (translate(feat.value) == "" ==> r.value.fields["ro"] == JStr(feat.value))
  {
  }

  /** A numeric field is none of the specially formatted ones. */
  lemma NumericIdIsPlain(id: string)
    requires id in NumericFields
    ensures id != "12" && id != "13" && id != PhoneFeatureId && id !in BooleanFields
  {
  }

  /** A numeric field whose text is an integer's rendering is sent as that integer. */
  lemma NumericValueParsed(feat: FeatureValue, translate: string -> string, n: int)
    requires feat.id in NumericFields && feat.value == IntToString(n)
    ensures FormatFeatureValue(feat, translate).value == JInt(n)
  {
    ParseIntToString(n);
    NumericIdIsPlain(feat.id);
  }

  /** A numeric field that is not an integer is sent unchanged, as text. */
  lemma NumericValueKept(feat: FeatureValue, translate: string -> string)
    requires feat.id in NumericFields && ParsePyInt(feat.value).None?
    ensures FormatFeatureValue(feat, translate).value == JStr(feat.value)
  {
    NumericIdIsPlain(feat.id);
  }

  /** A unit is checked before the phone and boolean rules: it keeps the value as it is. */
  lemma UnitBeforePhoneAndBoolean(feat: FeatureValue, translate: string -> string)
    requires feat.id != "12" && feat.id != "13" && HasUnit(feat.unit)
    ensures FormatFeatureValue(feat, translate) == Formatted(feat.id, Coerced(feat.id, feat.value), feat.unit)
    ensures feat.id == PhoneFeatureId || feat.id in BooleanFields ==> FormatFeatureValue(feat, translate).value == JStr(feat.value)
  {
    if feat.id in NumericFields {
      NumericIdIsPlain(feat.id);
    }
  }

  /** Without a unit the phone becomes a one-element list of digits and other kept characters. */
  lemma PhoneAsList(feat: FeatureValue, translate: string -> string)
    requires feat.id == PhoneFeatureId && !HasUnit(feat.unit)
    ensures var r := FormatFeatureValue(feat, translate);
      r.unit.None? && r.value.JArr? && |r.value.items| == 1 && r.value.items[0].JStr?
      && forall x :: x in r.value.items[0].s <==> x in feat.value && x != '+' && x != ' ' && x != '-'
  {
    CleanPhoneChars(feat.value);
  }

  /** The characters of a cleaned phone number: those of the input other than "+", " " and "-". */
  lemma CleanPhoneChars(s: string)
    ensures forall x :: x in CleanPhone(s) <==> x in s && x != '+' && x != ' ' && x != '-'
  {
    DeleteCharChars(s, '+');
    DeleteCharChars(DeleteChar(s, '+'), ' ');
    DeleteCharChars(DeleteChar(DeleteChar(s, '+'), ' '), '-');
  }

  /** Cleaning a phone number twice changes nothing more. */
  lemma CleanPhoneIdempotent(s: string)
    ensures CleanPhone(CleanPhone(s)) == CleanPhone(s)
  {
    var t := CleanPhone(s);
    CleanPhoneChars(s);
    DeleteCharNoop(t, '+');
    DeleteCharNoop(t, ' ');
    DeleteCharNoop(t, '-');
  }

  /** Without a unit a boolean field is true exactly when its lower-cased text is a yes-word. */
  lemma BooleanParsed(feat: FeatureValue, translate: string -> string)
    requires feat.id in BooleanFields && !HasUnit(feat.unit)
    ensures FormatFeatureValue(feat, translate).value
      == JBool(Lower(feat.value) == "true" || Lower(feat.value) == "1" || Lower(feat.value) == "yes" || Lower(feat.value) == "да")
  {
    assert feat.id != "12" && feat.id != "13" && feat.id != PhoneFeatureId;
  }

  /** The Russian yes-word is accepted in any letter case. */
  lemma CapitalisedDaIsTrue(translate: string -> string)
    ensures FormatFeatureValue(FeatureValue("908", "Да", None), translate).value == JBool(true)
  {
    assert Lower("Да") == "да";
  }

  /** Any other field without a unit is sent as the text it came with. */
  lemma OtherFieldsKept(feat: FeatureValue, translate: string -> string)
    requires feat.id !in NumericFields && feat.id !in BooleanFields
    requires feat.id != "12" && feat.id != "13" && feat.id != PhoneFeatureId
    ensures FormatFeatureValue(feat, translate) == Formatted(feat.id, JStr(feat.value), if HasUnit(feat.unit) then feat.unit else None)
  {
  }

  // ---------------------------------------------------------------------------
  // upload_images_to_999 and the pieces of upload_image_to_999

  /** The ids of the uploads that produced one, in input order. */
  function Uploaded(images: seq<string>, upload: string -> Json): seq<Json> {
    if |images| == 0 then []
    else
      var init := Uploaded(images[..|images| - 1], upload);
      var id := upload(images[|images| - 1]);
      if PyTruthy(id) then init + [id] else init
  }

  /** `upload_images_to_999`: upload one image after another and keep the ids that came back. */
  method UploadImages(images: seq<string>, upload: string -> Json) returns (uploadedIds: seq<Json>)
    ensures uploadedIds == Uploaded(images, upload)
  {
    uploadedIds := [];
    var i := 0;
    while i < |images|
      invariant 0 <= i <= |images|
      invariant uploadedIds == Uploaded(images[..i], upload)
    {
      var imageId := upload(images[i]);
      assert images[..i + 1][..i] == images[..i];
      if PyTruthy(imageId) {
        uploadedIds := uploadedIds + [imageId];
      }
      i := i + 1;
    }
    assert images[..|images|] == images;
  }

  /** At most one id per image; every id is truthy and came from one of the images. */
  lemma {:induction false} UploadedBounds(images: seq<string>, upload: string -> Json)
    ensures |Uploaded(images, upload)| <= |images|
    ensures forall id :: id in Uploaded(images, upload) ==>
      PyTruthy(id) && exists i :: 0 <= i < |images| && upload(images[i]) == id
  {
    if |images| > 0 {
      var init := images[..|images| - 1];
      UploadedBounds(init, upload);
      forall id | id in Uploaded(init, upload)
        ensures exists i :: 0 <= i < |images| && upload(images[i]) == id
      {
        var i :| 0 <= i < |init| && upload(init[i]) == id;
        assert images[i] == init[i];
      }
    }
  }

  /** When every upload succeeds, every image contributes its id, in order. */
  lemma {:induction false} AllUploadsKept(images: seq<string>, upload: string -> Json)
    requires forall i :: 0 <= i < |images| ==> PyTruthy(upload(images[i]))
    ensures |Uploaded(images, upload)| == |images|
    ensures forall i :: 0 <= i < |images| ==> Uploaded(images, upload)[i] == upload(images[i])
  {
    if |images| > 0 {
      var init := images[..|images| - 1];
      AllUploadsKept(init, upload);
    }
  }

  /** The file extension chosen for a downloaded image's content type. */
  function ExtensionFor(contentType: string): (ext: string)
    ensures ext == "png" || ext == "gif" || ext == "webp" || ext == "jpg"
    ensures ext != "jpg" ==> Contains(contentType, ext)
    ensures ext == "jpg" ==> !Contains(contentType, "png") && !Contains(contentType, "gif") && !Contains(contentType, "webp")
  {
    if Contains(contentType, "png") then "png"
    else if Contains(contentType, "gif") then "gif"
    else if Contains(contentType, "webp") then "webp"
    else "jpg"
  }

  const KnownExtensions: seq<string> := ["png", "gif", "webp"]

  /** The extension is the first of png, gif, webp the content type mentions, else jpg. */
  lemma ExtensionFirstMatch(contentType: string)
    ensures ExtensionFor(contentType)
      == match FirstIndex(KnownExtensions, e => Contains(contentType, e))
         case Some(k) => KnownExtensions[k]
         case None => "jpg"
  {
    var p := e => Contains(contentType, e);
    var ks := KnownExtensions;
    if Contains(contentType, "png") {
      FirstIndexAt(ks, p, 0);
    } else if Contains(contentType, "gif") {
      FirstIndexAt(ks, p, 1);
    } else if Contains(contentType, "webp") {
      FirstIndexAt(ks, p, 2);
    } else {
      assert forall j :: 0 <= j < |ks| ==> !p(ks[j]);
    }
  }

  /** A missing content-type header counts as `image/jpeg`, which gives `jpg`. */
  lemma MissingContentTypeIsJpg()
    ensures ExtensionFor(Option<string>.None.GetOr("image/jpeg")) == "jpg"
  {
    var t := "image/jpeg";
    assert 'n' !in t && 'f' !in t && 'w' !in t;
    MissingCharNoContains(t, "png", 1);
    MissingCharNoContains(t, "gif", 2);
    MissingCharNoContains(t, "webp", 0);
  }

  /** `a or b or …`: the first truthy value, or the last one when none is truthy. */
  function PyOr(xs: seq<Json>): Json
    requires |xs| > 0
  {
    if |xs| == 1 || PyTruthy(xs[0]) then xs[0] else PyOr(xs[1..])
  }

  /** `a or b` is `a` when truthy, else `b`. */
  lemma PyOrPair(a: Json, b: Json)
    ensures PyOr([a, b]) == if PyTruthy(a) then a else b
  {
    assert [a, b][1..] == [b];
  }

  /** `a or b or …` is the first truthy operand. */
  lemma {:induction false} PyOrFirstTruthy(xs: seq<Json>, k: nat)
    requires k < |xs| && PyTruthy(xs[k])
    requires forall j :: 0 <= j < k ==> !PyTruthy(xs[j])
    ensures PyOr(xs) == xs[k]
  {
    if k > 0 {
      PyOrFirstTruthy(xs[1..], k - 1);
    }
  }

  /** With no truthy operand, `a or b or …` is the last operand, which is falsy. */
  lemma {:induction false} PyOrNoneTruthy(xs: seq<Json>)
    requires |xs| > 0 && forall j :: 0 <= j < |xs| ==> !PyTruthy(xs[j])
    ensures !PyTruthy(PyOr(xs))
  {
    if |xs| > 1 {
      PyOrNoneTruthy(xs[1..]);
    }
  }

  const ImageIdKeys: seq<string> := ["filename", "id", "name", "image"]

  /**
   * The id an accepted upload answers with (`JNull` for none): only status 200 or 201 is
   * accepted; the first truthy field among `filename`, `id`, `name`, `image` is the id. An
   * answer that is not a dictionary fails at `.get` and is caught, so it gives no id either.
   */
  function UploadedId(status: int, answer: Json): (id: Json)
    ensures id == JNull || PyTruthy(id)
    ensures id != JNull ==> (status == 200 || status == 201) && answer.JObj?
  {
    if status != 200 && status != 201 then JNull
    else if !answer.JObj? then JNull
    else
      var id := PyOr(seq(4, k requires 0 <= k < 4 => Get(answer, ImageIdKeys[k])));
      if PyTruthy(id) then id else JNull
  }

  /** The id comes from the first listed field that holds a truthy value. */
  lemma UploadedIdFirstTruthy(answer: Json, status: int, k: nat)
    requires status == 200 || status == 201
    requires answer.JObj? && k < 4 && PyTruthy(Get(answer, ImageIdKeys[k]))
    requires forall j :: 0 <= j < k ==> !PyTruthy(Get(answer, ImageIdKeys[j]))
    ensures UploadedId(status, answer) == Get(answer, ImageIdKeys[k])
  {
    var xs := seq(4, j requires 0 <= j < 4 => Get(answer, ImageIdKeys[j]));
    PyOrFirstTruthy(xs, k);
  }

  /** Without a truthy id field, or with a rejected status, there is no id. */
  lemma UploadedIdNone(answer: Json, status: int)
    requires (status != 200 && status != 201) || !answer.JObj?
      || forall j :: 0 <= j < 4 ==> !PyTruthy(Get(answer, ImageIdKeys[j]))
    ensures UploadedId(status, answer) == JNull
  {
    if (status == 200 || status == 201) && answer.JObj? {
      var xs := seq(4, j requires 0 <= j < 4 => Get(answer, ImageIdKeys[j]));
      PyOrNoneTruthy(xs);
    }
  }

  /** `upload_image_to_999`: a download that does not answer 200 gives no id. */
  function UploadImageId(downloadStatus: int, uploadStatus: int, answer: Json): (r: Json)
    ensures r != JNull ==> PyTruthy(r)
  {
    if downloadStatus != 200 then JNull else UploadedId(uploadStatus, answer)
  }

  // ---------------------------------------------------------------------------
  // build_999_request

  /** The advert as the client submits it; absent fields carry the request model's defaults. */
  datatype AdvertRequest = AdvertRequest(
    images: seq<string>, features: seq<FeatureValue>,
    regionId: Option<string>, phoneNumber: Option<string>,
    categoryId: Option<string>, subcategoryId: Option<string>, offerType: Option<string>)

  /** The payload sent to `/adverts`; `state` is the configured advert state. */
  datatype Payload = Payload(
    categoryId: Option<string>, subcategoryId: Option<string>, offerType: Option<string>,
    state: Json, features: seq<Formatted>)

  function ImagePart(uploadedIds: seq<Json>): seq<Formatted> {
    if |uploadedIds| > 0 then [Formatted(ImagesFeatureId, JArr(uploadedIds), None)] else []
  }

  /** The submitted features with a value, formatted, in input order. */
  function FormattedFeatures(fs: seq<FeatureValue>, translate: string -> string): seq<Formatted> {
    if |fs| == 0 then []
    else
      var init := FormattedFeatures(fs[..|fs| - 1], translate);
      var f := fs[|fs| - 1];
      if f.value == "" then init else init + [FormatFeatureValue(f, translate)]
  }

  function RegionPart(regionId: Option<string>): seq<Formatted> {
    if regionId.Some? && regionId.value != "" then [Formatted(RegionFeatureId, JStr(regionId.value), None)] else []
  }

  function PhonePart(phoneNumber: Option<string>): seq<Formatted> {
    if phoneNumber.Some? && phoneNumber.value != "" then
      [Formatted(PhoneFeatureId, JArr([JStr(CleanPhone(phoneNumber.value))]), None)]
    else []
  }

  function PayloadOf(request: AdvertRequest, uploadedIds: seq<Json>, state: Json, translate: string -> string): (p: Payload)
    ensures p.categoryId == request.categoryId && p.subcategoryId == request.subcategoryId
      && p.offerType == request.offerType && p.state == state
    ensures |uploadedIds| > 0 ==> |p.features| > 0 && p.features[0] == Formatted(ImagesFeatureId, JArr(uploadedIds), None)
  {
    Payload(request.categoryId, request.subcategoryId, request.offerType, state,
      ImagePart(uploadedIds) + FormattedFeatures(request.features, translate)
      + RegionPart(request.regionId) + PhonePart(request.phoneNumber))
  }

  /** `build_999_request`: images first, then the features with a value, then region and phone. */
  method Build999Request(request: AdvertRequest, uploadedIds: seq<Json>, state: Json,
                         translate: string -> string) returns (payload: Payload)
    ensures payload == PayloadOf(request, uploadedIds, state, translate)
  {
    var formattedFeatures: seq<Formatted> := [];
    if |uploadedIds| > 0 {
      formattedFeatures := formattedFeatures + [Formatted(ImagesFeatureId, JArr(uploadedIds), None)];
    }
    var fs := request.features;
    var i := 0;
    while i < |fs|
      invariant 0 <= i <= |fs|
      invariant formattedFeatures == ImagePart(uploadedIds) + FormattedFeatures(fs[..i], translate)
    {
      var feat := fs[i];
      assert fs[..i + 1][..i] == fs[..i];
      if feat.value != "" {
        formattedFeatures := formattedFeatures + [FormatFeatureValue(feat, translate)];
      }
      i := i + 1;
    }
    assert fs[..|fs|] == fs;
    ghost var front := formattedFeatures;
    if request.regionId.Some? && request.regionId.value != "" {
      formattedFeatures := formattedFeatures + [Formatted(RegionFeatureId, JStr(request.regionId.value), None)];
    }
    assert formattedFeatures == front + RegionPart(request.regionId);
    ghost var withRegion := formattedFeatures;
    if request.phoneNumber.Some? && request.phoneNumber.value != "" {
      var phone := CleanPhone(request.phoneNumber.value);
      formattedFeatures := formattedFeatures + [Formatted(PhoneFeatureId, JArr([JStr(phone)]), None)];
    }
    assert formattedFeatures == withRegion + PhonePart(request.phoneNumber);
    payload := Payload(request.categoryId, request.subcategoryId, request.offerType, state, formattedFeatures);
  }

  /** Each formatted feature comes from a submitted feature with a value; nothing else is added. */
  lemma {:induction false} FormattedFeaturesFrom(fs: seq<FeatureValue>, translate: string -> string)
    ensures |FormattedFeatures(fs, translate)| <= |fs|
    ensures forall r :: r in FormattedFeatures(fs, translate) ==>
      exists i :: 0 <= i < |fs| && fs[i].value != "" && r == FormatFeatureValue(fs[i], translate)
  {
    if |fs| > 0 {
      var init := fs[..|fs| - 1];
      FormattedFeaturesFrom(init, translate);
      forall r | r in FormattedFeatures(init, translate)
        ensures exists i :: 0 <= i < |fs| && fs[i].value != "" && r == FormatFeatureValue(fs[i], translate)
      {
        var i :| 0 <= i < |init| && init[i].value != "" && r == FormatFeatureValue(init[i], translate);
        assert fs[i] == init[i];
      }
    }
  }

  /** Features all of which have a value are all formatted, in input order. */
  lemma {:induction false} FormattedFeaturesAll(fs: seq<FeatureValue>, translate: string -> string)
    requires forall i :: 0 <= i < |fs| ==> fs[i].value != ""
    ensures |FormattedFeatures(fs, translate)| == |fs|
    ensures forall i :: 0 <= i < |fs| ==> FormattedFeatures(fs, translate)[i] == FormatFeatureValue(fs[i], translate)
  {
    if |fs| > 0 {
      FormattedFeaturesAll(fs[..|fs| - 1], translate);
    }
  }

  /** The layout of the payload: the images lead, the region and the phone close it. */
  lemma PayloadLayout(request: AdvertRequest, uploadedIds: seq<Json>, state: Json, translate: string -> string)
    ensures var fs := PayloadOf(request, uploadedIds, state, translate).features;
      (|uploadedIds| > 0 ==> |fs| > 0 && fs[0] == Formatted(ImagesFeatureId, JArr(uploadedIds), None))
      && (request.phoneNumber.Some? && request.phoneNumber.value != "" ==>
            |fs| > 0 && fs[|fs| - 1] == Formatted(PhoneFeatureId, JArr([JStr(CleanPhone(request.phoneNumber.value))]), None))
      && (request.regionId.Some? && request.regionId.value != "" && (request.phoneNumber.None? || request.phoneNumber.value == "") ==>
            |fs| > 0 && fs[|fs| - 1] == Formatted(RegionFeatureId, JStr(request.regionId.value), None))
  {
  }

  /** Category, subcategory, offer type and state are passed through unchanged. */
  lemma PayloadHeader(request: AdvertRequest, uploadedIds: seq<Json>, state: Json, translate: string -> string)
    ensures var p := PayloadOf(request, uploadedIds, state, translate);
      p.categoryId == request.categoryId && p.subcategoryId == request.subcategoryId
      && p.offerType == request.offerType && p.state == state
  {
  }

  // ---------------------------------------------------------------------------
  // create_advert

  const NoKeyMessage := "API ключ 999.md не настроен. Добавьте NINE_API_KEY в .env файл."
  const TimeoutMessage := "Таймаут при подключении к 999.md API"
  const CreatedMessage := "Объявление успешно создано"

  /** What posting the advert produced: an HTTP answer, a timeout, or another exception's text. */
  datatype AdvertOutcome =
    | Responded(status: int, answer: Json, text: string)
    | TimedOut
    | Raised(message: string)

  /** The result the client sees; a failure has no advert id and no URL. */
  datatype AdvertResult =
    | Created(advertId: string, url: Json, message: string, uploadedImages: nat, apiResponse: Json)
    | Failed(error: string, details: Option<string>)

  /**
   * The result for an outcome. `getError` is Python's message for calling `.get` on an
   * answer that is not a dictionary, which the final `except` turns into the error text.
   */
  function AdvertResultOf(outcome: AdvertOutcome, uploadedCount: nat, getError: Json -> string): (r: AdvertResult)
    ensures r.Created? ==>
      outcome.Responded? && (outcome.status == 200 || outcome.status == 201) && outcome.answer.JObj?
      && r.uploadedImages == uploadedCount && r.apiResponse == outcome.answer && r.message == CreatedMessage
    ensures outcome.TimedOut? ==> r == Failed(TimeoutMessage, None)
    ensures r.Failed? && r.details.Some? ==> outcome.Responded? && outcome.status != 200 && outcome.status != 201
    ensures outcome.Raised? ==> r == Failed(outcome.message, None)
    ensures outcome.Responded? && (outcome.status == 200 || outcome.status == 201) && outcome.answer.JObj? ==> r.Created?
    ensures r.Created? ==>
      r.advertId == PyStr(if PyTruthy(Get(outcome.answer, "id")) then Get(outcome.answer, "id")
                          else Get(outcome.answer, "advert_id"))
    ensures r.Created? && PyTruthy(Get(outcome.answer, "url")) ==> r.url == Get(outcome.answer, "url")
    ensures r.Created? && !PyTruthy(Get(outcome.answer, "url")) ==> r.url == JStr("https://999.md/ru/" + r.advertId)
  {
    match outcome
    case TimedOut => Failed(TimeoutMessage, None)
    case Raised(m) => Failed(m, None)
    case Responded(status, answer, text) =>
      if status == 200 || status == 201 then
        if !answer.JObj? then Failed(getError(answer), None)
        else
          PyOrPair(Get(answer, "id"), Get(answer, "advert_id"));
          var advertId := PyOr([Get(answer, "id"), Get(answer, "advert_id")]);
          var url := if PyTruthy(Get(answer, "url")) then Get(answer, "url")
                     else JStr("https://999.md/ru/" + PyStr(advertId));
          Created(PyStr(advertId), url, CreatedMessage, uploadedCount, answer)
      else Failed("Ошибка 999.md API: " + IntToString(status), Some(text))
  }

  /** `create_advert`: no key, no request; otherwise upload, build, post, and shape the answer. */
  method CreateAdvert(apiKey: Option<string>, request: AdvertRequest, upload: string -> Json,
                      send: Payload -> AdvertOutcome, state: Json, translate: string -> string,
                      getError: Json -> string) returns (result: AdvertResult)
    ensures apiKey.None? || apiKey.value == "" ==> result == Failed(NoKeyMessage, None)
    ensures apiKey.Some? && apiKey.value != "" ==>
      var ids := Uploaded(request.images, upload);
      result == AdvertResultOf(send(PayloadOf(request, ids, state, translate)), |ids|, getError)
  {
    if apiKey.None? || apiKey.value == "" {
      return Failed(NoKeyMessage, None);
    }
    var uploadedImageIds: seq<Json> := [];
    if |request.images| > 0 {
      uploadedImageIds := UploadImages(request.images, upload);
    }
    var apiRequest := Build999Request(request, uploadedImageIds, state, translate);
    var outcome := send(apiRequest);
    result := AdvertResultOf(outcome, |uploadedImageIds|, getError);
  }

  /** An accepted answer without an id is reported with the id `None`, and a URL built from it. */
  lemma MissingAdvertIdRendersNone(answer: map<string, Json>, count: nat, getError: Json -> string)
    requires "id" !in answer && "advert_id" !in answer && "url" !in answer
    ensures AdvertResultOf(Responded(201, JObj(answer), ""), count, getError)
      == Created("None", JStr("https://999.md/ru/" + "None"), CreatedMessage, count, JObj(answer))
  {
    var xs := [Get(JObj(answer), "id"), Get(JObj(answer), "advert_id")];
    assert xs[1..] == [JNull];
    assert PyOr(xs) == JNull;
    assert PyStr(JNull) == "None";
  }

  /** Only 200 and 201 count as created; any other status is a failure carrying the answer's text. */
  lemma CreatedOnlyOnSuccess(status: int, answer: Json, text: string, count: nat, getError: Json -> string)
    ensures AdvertResultOf(Responded(status, answer, text), count, getError).Created?
      <==> (status == 200 || status == 201) && answer.JObj?
    ensures status != 200 && status != 201 ==>
      AdvertResultOf(Responded(status, answer, text), count, getError).details == Some(text)
  {
  }
}
