/**
 * `POST /image/convert-heic`: the guards a request passes before the image is
 * converted, and the media type and file name of the converted image. The
 * decoding and encoding themselves (Pillow with the HEIF plugin) are not part
 * of this model.
 */
module ImageRouter {
  import opened Wrappers
  import opened Text

  const FilenameRequired := "Filename is required"
  const NotHeic := "File must be HEIC or HEIF format"
  const BadQuality := "Quality must be between 1 and 100"
  const BadFormat := "Output format must be JPEG or PNG"

  /** The request is refused with an HTTP error, or the conversion goes ahead with this plan. */
  datatype Outcome =
    | Rejected(status: int, detail: string)
    | Convert(format: string, quality: int, mediaType: string, newFilename: string,
              headers: map<string, string>)

  predicate HeicName(filename: string) {
    EndsWith(Lower(filename), ".heic") || EndsWith(Lower(filename), ".heif")
  }

  /** The output format after `upper()` is one of the two accepted. */
  predicate KnownFormat(outputFormat: string) {
    Upper(outputFormat) == "JPEG" || Upper(outputFormat) == "PNG"
  }

  function Extension(format: string): string {
    if format == "JPEG" then "jpg" else "png"
  }

  function MediaType(format: string): string {
    if format == "JPEG" then "image/jpeg" else "image/png"
  }

  /** `file.filename.rsplit('.', 1)[0] + f'.{extension}'`. */
  function ConvertedName(filename: string, format: string): string {
    BeforeLast(filename, '.') + "." + Extension(format)
  }

  function Headers(filename: string, newFilename: string): map<string, string> {
    map["Content-Disposition" := "attachment; filename=\"" + newFilename + "\"",
        "X-Original-Filename" := filename,
        "X-Converted-Filename" := newFilename]
  }

  /** `convert_heic_to_jpeg` up to the conversion; a missing filename is `None`. */
  function ConvertHeic(filename: Option<string>, quality: int, outputFormat: string): (r: Outcome)
    ensures r.Rejected? ==> r.status == 400
    ensures r.Convert? ==>
      filename.Some? && HeicName(filename.value) && r.quality == quality && 1 <= quality <= 100
      && (r.format == "JPEG" || r.format == "PNG") && r.format == Upper(outputFormat)
      && "X-Original-Filename" in r.headers && r.headers["X-Original-Filename"] == filename.value
      && "X-Converted-Filename" in r.headers && r.headers["X-Converted-Filename"] == r.newFilename
  {
    if filename.None? || |filename.value| == 0 then Rejected(400, FilenameRequired)
    else if !HeicName(filename.value) then Rejected(400, NotHeic)
    else if quality < 1 || quality > 100 then Rejected(400, BadQuality)
    else if !KnownFormat(outputFormat) then Rejected(400, BadFormat)
    else
      var format := Upper(outputFormat);
      var newFilename := ConvertedName(filename.value, format);
      Convert(format, quality, MediaType(format), newFilename, Headers(filename.value, newFilename))
  }

  /** A request goes ahead exactly when all four guards pass. */
  lemma AcceptedIff(filename: Option<string>, quality: int, outputFormat: string)
    ensures ConvertHeic(filename, quality, outputFormat).Convert? <==>
      filename.Some? && |filename.value| > 0 && HeicName(filename.value)
      && 1 <= quality <= 100 && KnownFormat(outputFormat)
  {
  }

  /**
   * The guards run in order: a missing name is reported whatever the other parameters,
   * a wrong extension before a bad quality, and a bad quality before a bad format.
   * Every refusal is a 400.
   */
  lemma GuardOrder(filename: Option<string>, quality: int, outputFormat: string)
    ensures var r := ConvertHeic(filename, quality, outputFormat);
      (r.Rejected? ==> r.status == 400)
      && (filename.None? ==> r == Rejected(400, FilenameRequired))
      && (filename.Some? && |filename.value| > 0 && !HeicName(filename.value) ==> r == Rejected(400, NotHeic))
      && ((filename.Some? && |filename.value| > 0 && HeicName(filename.value) && !(1 <= quality <= 100))
          ==> r == Rejected(400, BadQuality))
  {
  }

  /**
   * The converted name swaps the last five characters, `.heic` or `.heif` in any case,
   * for `.jpg` or `.png`; the media type matches the extension.
   */
  lemma ConvertedNameSwapsExtension(filename: string, quality: int, outputFormat: string)
    requires ConvertHeic(Some(filename), quality, outputFormat).Convert?
    ensures var r := ConvertHeic(Some(filename), quality, outputFormat);
      |filename| >= 5
      && r.newFilename == filename[..|filename| - 5] + "." + Extension(r.format)
      && (r.format == "JPEG" ==> r.mediaType == "image/jpeg" && r.newFilename[|r.newFilename| - 4..] == ".jpg")
      && (r.format == "PNG" ==> r.mediaType == "image/png" && r.newFilename[|r.newFilename| - 4..] == ".png")
  {
    HeicStem(filename);
  }

  /** A HEIC name has its last dot five characters from the end, whatever the case of the extension. */
  lemma HeicStem(filename: string)
    requires HeicName(filename)
    ensures |filename| >= 5 && BeforeLast(filename, '.') == filename[..|filename| - 5]
  {
    LowerKeepsDots(filename);
    TailDots(filename, Lower(filename));
    StemAtDot(filename);
  }

  /**
   * A text with the dots of another that ends in `.heic` or `.heif` has a dot five from the end
   * and none after it.
   */
  lemma TailDots(s: string, low: string)
    requires |low| == |s| && forall i :: 0 <= i < |s| ==> (low[i] == '.' <==> s[i] == '.')
    requires EndsWith(low, ".heic") || EndsWith(low, ".heif")
    ensures |s| >= 5 && s[|s| - 5] == '.' && forall i :: |s| - 4 <= i < |s| ==> s[i] != '.'
  {
    var n := |low|;
    var tail := if EndsWith(low, ".heic") then ".heic" else ".heif";
    assert low[n - 5..] == tail;
    assert low[n - 5] == '.';
    forall i | n - 4 <= i < n
      ensures s[i] != '.'
    {
      assert low[i] == low[n - 5..][i - (n - 5)];
    }
  }

  /** With its last dot five from the end, the text before that dot is all but the last five characters. */
  lemma StemAtDot(s: string)
    requires |s| >= 5 && s[|s| - 5] == '.' && forall i :: |s| - 4 <= i < |s| ==> s[i] != '.'
    ensures BeforeLast(s, '.') == s[..|s| - 5]
  {
    var head := BeforeLast(s, '.');
    assert '.' in s;
    assert |head| == |s| - 5;
  }
}
