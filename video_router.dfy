/**
 * `POST /video/convert-to-mp4`: the guards a request passes, the MP4
 * pass-through, the quality table and the ffmpeg command line, and the name of
 * the converted file. Temporary files and running ffmpeg are not part of this
 * model; the temporary input path is a parameter.
 */
module VideoRouter {
  import opened Wrappers
  import opened Text

  const FilenameRequired := "Filename is required"
  const BadQuality := "Quality must be: low, medium, or high"
  const SupportedExtensions: seq<string> := [".mov", ".avi", ".mkv", ".webm", ".wmv", ".flv", ".m4v", ".3gp"]

  predicate AllDots(s: string) {
    forall i :: 0 <= i < |s| ==> s[i] == '.'
  }

  /**
   * The extension `os.path.splitext` reports for a last path component: from its last `.`,
   * unless the component is only dots up to it (a leading dot does not start an extension);
   * otherwise empty.
   */
  function ExtOf(base: string): (ext: string)
    ensures ext == [] || (ext[0] == '.' && '.' !in ext[1..])
    ensures EndsWith(base, ext)
  {
    var stem := BeforeLast(base, '.');
    if '.' in base && !AllDots(stem) then
      assert base[|stem|..][1..] == base[|stem| + 1..];
      base[|stem|..]
    else
      assert |base[|base|..]| == 0;
      []
  }

  /**
   * There is an extension exactly when some character other than a dot comes before a
   * later dot, and then that character lies before the last dot.
   */
  lemma ExtensionStart(base: string)
    ensures ('.' in base && !AllDots(BeforeLast(base, '.')))
      <==> exists i :: 0 <= i < |base| && base[i] != '.' && '.' in base[i + 1..]
  {
    var stem := BeforeLast(base, '.');
    if '.' in base && !AllDots(stem) {
      var i :| 0 <= i < |stem| && stem[i] != '.';
      assert base[i] != '.';
      assert base[i + 1..][|stem| - i - 1] == '.';
    }
    if exists i :: 0 <= i < |base| && base[i] != '.' && '.' in base[i + 1..] {
      var i :| 0 <= i < |base| && base[i] != '.' && '.' in base[i + 1..];
      var j :| 0 <= j < |base[i + 1..]| && base[i + 1..][j] == '.';
      assert base[i + 1 + j] == '.';
      assert stem[i] != '.';
    }
  }

  /**
   * With the shape `ExtOf` ensures, this fixes the extension as the text from the last dot:
   * there is one exactly when some character other than a dot comes before a later dot.
   */
  lemma ExtOfPresent(base: string)
    ensures ExtOf(base) != [] <==> exists i :: 0 <= i < |base| && base[i] != '.' && '.' in base[i + 1..]
  {
    ExtensionStart(base);
  }

  /** The extension `os.path.splitext` reports on a POSIX path. */
  function SplitExt(path: string): string {
    ExtOf(AfterLast(path, '/'))
  }

  /** An extension is a final `.` with no other `.` and no `/` after it. */
  lemma SplitExtShape(path: string)
    ensures var ext := SplitExt(path);
      (ext == [] || (ext[0] == '.' && '.' !in ext[1..] && '/' !in ext)) && EndsWith(path, ext)
  {
    var base := AfterLast(path, '/');
    var ext := ExtOf(base);
    BaseSuffix(base, ext);
    TailOfTail(path, base, ext);
  }

  /** A suffix of a text holds only characters of that text. */
  lemma BaseSuffix(base: string, ext: string)
    requires EndsWith(base, ext)
    ensures forall ch :: ch in ext ==> ch in base
  {
    forall ch | ch in ext
      ensures ch in base
    {
      var k :| 0 <= k < |ext| && ext[k] == ch;
      assert base[|base| - |ext| + k] == ch;
    }
  }

  /** A suffix of a suffix is a suffix. */
  lemma TailOfTail(path: string, base: string, ext: string)
    requires EndsWith(path, base) && EndsWith(base, ext)
    ensures EndsWith(path, ext)
  {
    assert path[|path| - |ext|..] == path[|path| - |base|..][|base| - |ext|..];
  }

  /** The quality presets: crf and preset for ffmpeg. */
  function QualitySettings(quality: string): Option<seq<string>> {
    if quality == "low" then Some(["-crf", "28", "-preset", "faster"])
    else if quality == "medium" then Some(["-crf", "23", "-preset", "medium"])
    else if quality == "high" then Some(["-crf", "18", "-preset", "slow"])
    else None
  }

  /** The table maps exactly the three names, each to its crf and preset. */
  lemma QualityTable(quality: string)
    ensures QualitySettings(quality).Some? <==> quality in {"low", "medium", "high"}
    ensures quality == "low" ==> QualitySettings(quality) == Some(["-crf", "28", "-preset", "faster"])
    ensures quality == "medium" ==> QualitySettings(quality) == Some(["-crf", "23", "-preset", "medium"])
    ensures quality == "high" ==> QualitySettings(quality) == Some(["-crf", "18", "-preset", "slow"])
  {
  }

  datatype Outcome =
    | Rejected(status: int, detail: string)
    /** An `.mp4` upload sent back as it is. */
    | Passthrough(content: seq<bv8>, mediaType: string, headers: map<string, string>)
    /** The conversion goes ahead with these ffmpeg settings and produces this file name. */
    | Transcode(extension: string, settings: seq<string>, newFilename: string)

  function Unsupported(ext: string): string {
    "Unsupported video format: " + ext + ". Supported: " + Join(SupportedExtensions, ", ")
  }

  /** `file.filename.rsplit('.', 1)[0] + '.mp4'`. */
  function Mp4Name(filename: string): string {
    BeforeLast(filename, '.') + ".mp4"
  }

  /** `convert_video_to_mp4` up to the conversion; a missing filename is `None`. */
  function ConvertVideo(filename: Option<string>, contents: seq<bv8>, quality: string): (r: Outcome)
    ensures r.Transcode? ==> (filename.Some? && r.extension == SplitExt(Lower(filename.value))
      && r.extension in SupportedExtensions && r.newFilename == Mp4Name(filename.value))
    ensures r.Transcode? ==> QualitySettings(quality).Some? && r.settings == QualitySettings(quality).value
  {
    if filename.None? || |filename.value| == 0 then Rejected(400, FilenameRequired)
    else
      var ext := SplitExt(Lower(filename.value));
      if ext == ".mp4" then
        Passthrough(contents, "video/mp4",
                    map["Content-Disposition" := "attachment; filename=\"" + filename.value + "\""])
      else if ext !in SupportedExtensions then Rejected(400, Unsupported(ext))
      else if QualitySettings(quality).None? then Rejected(400, BadQuality)
      else Transcode(ext, QualitySettings(quality).value, Mp4Name(filename.value))
  }

  /** An MP4 upload is returned unchanged under its own name, whatever the quality asked for. */
  lemma Mp4PassesThrough(filename: string, contents: seq<bv8>, quality: string)
    requires |filename| > 0 && SplitExt(Lower(filename)) == ".mp4"
    ensures var r := ConvertVideo(Some(filename), contents, quality);
      r.Passthrough? && r.content == contents && r.mediaType == "video/mp4"
      && r.headers["Content-Disposition"] == "attachment; filename=\"" + filename + "\""
  {
  }

  /** The guards in order: the name, then the extension, then the quality. Every refusal is a 400. */
  lemma GuardOrder(filename: Option<string>, contents: seq<bv8>, quality: string)
    ensures var r := ConvertVideo(filename, contents, quality);
      (r.Rejected? ==> r.status == 400)
      && (filename.None? ==> r == Rejected(400, FilenameRequired))
      && ((filename.Some? && |filename.value| > 0 && SplitExt(Lower(filename.value)) != ".mp4"
           && SplitExt(Lower(filename.value)) !in SupportedExtensions)
          ==> r == Rejected(400, Unsupported(SplitExt(Lower(filename.value)))))
      && ((filename.Some? && |filename.value| > 0 && SplitExt(Lower(filename.value)) in SupportedExtensions
           && quality !in {"low", "medium", "high"})
          ==> r == Rejected(400, BadQuality))
  {
    QualityTable(quality);
    if filename.Some? && |filename.value| > 0 && SplitExt(Lower(filename.value)) in SupportedExtensions {
      Mp4NotListed(SplitExt(Lower(filename.value)));
    }
  }

  /** A conversion goes ahead exactly for a supported extension and a known quality. */
  lemma TranscodeIff(filename: Option<string>, contents: seq<bv8>, quality: string)
    ensures ConvertVideo(filename, contents, quality).Transcode? <==>
      filename.Some? && |filename.value| > 0
      && SplitExt(Lower(filename.value)) in SupportedExtensions
      && quality in {"low", "medium", "high"}
  {
    QualityTable(quality);
    if filename.Some? && |filename.value| > 0 && SplitExt(Lower(filename.value)) in SupportedExtensions {
      Mp4NotListed(SplitExt(Lower(filename.value)));
    }
  }

  lemma Mp4NotListed(ext: string)
    requires ext in SupportedExtensions
    ensures ext != ".mp4"
  {
  }

  /**
   * The converted file keeps the uploaded name, in its own case, up to its last `.`; a
   * supported extension guarantees there is one, so only the extension changes.
   */
  lemma ConvertedName(filename: string, contents: seq<bv8>, quality: string)
    requires ConvertVideo(Some(filename), contents, quality).Transcode?
    ensures var r := ConvertVideo(Some(filename), contents, quality);
      var head := BeforeLast(filename, '.');
      r.newFilename == Mp4Name(filename) && '.' in filename
      && filename[..|head|] == head && filename[|head|] == '.' && '.' !in filename[|head| + 1..]
  {
    var low := Lower(filename);
    var ext := SplitExt(low);
    assert ext in SupportedExtensions;
    assert |ext| > 0;
    SplitExtShape(low);
    var k := |low| - |ext|;
    assert low[k] == '.';
    LowerKeepsDots(filename);
    assert filename[k] == '.';
  }

  /** The ffmpeg command line for an input path and the chosen settings. */
  function FfmpegCommand(inputPath: string, settings: seq<string>): seq<string> {
    ["ffmpeg", "-i", inputPath, "-c:v", "libx264", "-c:a", "aac"] + settings
      + ["-movflags", "faststart", "-b:a", "128k", "-y", BeforeLast(inputPath, '.') + ".mp4"]
  }

  /** The preset sits between the codecs and the output flags, and the output is the input renamed to `.mp4`. */
  lemma CommandLayout(inputPath: string, quality: string)
    requires QualitySettings(quality).Some?
    ensures var cmd := FfmpegCommand(inputPath, QualitySettings(quality).value);
      |cmd| == 17 && cmd[2] == inputPath && cmd[7..11] == QualitySettings(quality).value
      && cmd[16] == BeforeLast(inputPath, '.') + ".mp4"
  {
  }
}
