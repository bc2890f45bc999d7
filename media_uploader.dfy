/**
 * The client-side media uploader: the allow-list handed to the upload widget,
 * three pre-processors that run over the file queue before an upload (HEIC
 * conversion, type gate, size gate), the `locked` flag the event handlers
 * toggle, and the normalisation of the completion result.
 *
 * The widget's file queue is the `queue` field of `Uploader`; each
 * pre-processor walks a snapshot of it and removes or replaces entries.
 * The HEIC converters, the media-saving endpoint and the upload itself are
 * oracles passed in as parameters.
 */
module MediaUploader {
  import opened Wrappers
  import opened Text
  import opened Json

  newtype Byte = x: int | 0 <= x < 256
  type Blob = seq<Byte>

  /** A queued file; `useCloudflare` is the metadata the file-added handler sets. */
  datatype UppyFile = UppyFile(id: nat, name: Option<string>, fileType: Option<string>, size: nat,
                               data: Option<Blob>, useCloudflare: Option<string>)

  // ---------------------------------------------------------------------------
  // Lists and filters used below

  function FlatMap<A, B>(xs: seq<A>, f: A -> seq<B>): seq<B> {
    if |xs| == 0 then [] else f(xs[0]) + FlatMap(xs[1..], f)
  }

  lemma {:induction false} FlatMapMember<A, B>(xs: seq<A>, f: A -> seq<B>, y: B)
    ensures y in FlatMap(xs, f) <==> exists i :: 0 <= i < |xs| && y in f(xs[i])
  {
    if |xs| > 0 {
      FlatMapMember(xs[1..], f, y);
      if y in FlatMap(xs[1..], f) {
        var i :| 0 <= i < |xs[1..]| && y in f(xs[1..][i]);
        assert xs[1..][i] == xs[i + 1];
      }
      if exists i :: 0 <= i < |xs| && y in f(xs[i]) {
        var i :| 0 <= i < |xs| && y in f(xs[i]);
        if i > 0 {
          assert xs[1..][i - 1] == xs[i];
        }
      }
    }
  }

  function MapTrim(parts: seq<string>): (r: seq<string>)
    ensures |r| == |parts| && forall k :: 0 <= k < |parts| ==> r[k] == Trim(parts[k])
  {
    seq(|parts|, k requires 0 <= k < |parts| => Trim(parts[k]))
  }

  // ---------------------------------------------------------------------------
  // The allow-list with HEIC added

  const HeicAdditions: seq<string> := ["image/*", "image/heic", "image/heif", ".heic", ".heif"]

  function ExpandWithHeic(t: string): seq<string> {
    if Trim(t) == "image/*" then HeicAdditions else [t]
  }

  // The restriction list given to the widget: each (trimmed) `image/*` entry gains the HEIC types.
  function AllowedTypesWithHeic(allowedFileTypes: string): seq<string> {
    FlatMap(Split(allowedFileTypes, ","), ExpandWithHeic)
  }

  // Membership in the restriction list: the untouched entries, plus the HEIC set when `image/*` was listed.
  lemma AllowedTypesWithHeicMembers(allowedFileTypes: string, t: string)
    ensures t in AllowedTypesWithHeic(allowedFileTypes) <==>
        (t in Split(allowedFileTypes, ",") && Trim(t) != "image/*")
        || (t in HeicAdditions && exists p :: p in Split(allowedFileTypes, ",") && Trim(p) == "image/*")
  {
    HeicListMembers(Split(allowedFileTypes, ","), t);
  }

  lemma HeicListMembers(parts: seq<string>, t: string)
    ensures t in FlatMap(parts, ExpandWithHeic) <==>
        (t in parts && Trim(t) != "image/*")
        || (t in HeicAdditions && exists p :: p in parts && Trim(p) == "image/*")
  {
    FlatMapMember(parts, ExpandWithHeic, t);
    if t in parts && Trim(t) != "image/*" {
      var i :| 0 <= i < |parts| && parts[i] == t;
      assert t in ExpandWithHeic(parts[i]);
    }
    if t in HeicAdditions && exists p :: p in parts && Trim(p) == "image/*" {
      var p :| p in parts && Trim(p) == "image/*";
      var i :| 0 <= i < |parts| && parts[i] == p;
      assert t in ExpandWithHeic(parts[i]);
    }
  }

  // ---------------------------------------------------------------------------
  // HEIC detection, renaming and conversion

  /** A file is HEIC by its type, or by its lower-cased name's extension. */
  predicate IsHeic(f: UppyFile) {
    f.fileType == Some("image/heic") || f.fileType == Some("image/heif")
    || (f.name.Some? && (EndsWith(Lower(f.name.value), ".heic") || EndsWith(Lower(f.name.value), ".heif")))
  }

  /** `s` ends with `suffix` when ASCII letter case is ignored (`suffix` is lower case): a `/…$/i` match. */
  predicate EndsWithIgnoreCase(s: string, suffix: string) {
    |suffix| <= |s| && OccursAtIgnoreCase(s, suffix, |s| - |suffix|)
  }

  /** `name.replace(/\.heic$/i, '.jpg')` and then the same for `.heif`. */
  function ReplaceExtension(name: string, ext: string): string {
    if EndsWithIgnoreCase(name, ext) then name[..|name| - |ext|] + ".jpg" else name
  }

  /** The name of the converted file: `.heic`/`.heif` swapped for `.jpg`; `converted.jpg` for no name. */
  function HeicNewName(name: Option<string>): (r: string)
    ensures r != ""
    ensures name.Some? && EndsWithIgnoreCase(name.value, ".heic") ==> r == name.value[..|name.value| - 5] + ".jpg"
    ensures name.Some? && EndsWithIgnoreCase(name.value, ".heif") ==> r == name.value[..|name.value| - 5] + ".jpg"
    ensures name.Some? && name.value != "" && !EndsWithIgnoreCase(name.value, ".heic") && !EndsWithIgnoreCase(name.value, ".heif")
      ==> r == name.value
    ensures name.None? || name == Some("") ==> r == "converted.jpg"
  {
    match name
    case None => "converted.jpg"
    case Some(n) =>
      var once := ReplaceExtension(n, ".heic");
      JpgIsNotHeif(n);
      var twice := ReplaceExtension(once, ".heif");
      if twice == "" then "converted.jpg" else twice
  }

  /** After the `.heic` replacement the name ends with `.jpg`, so the `.heif` replacement leaves it alone. */
  lemma JpgIsNotHeif(n: string)
    ensures EndsWithIgnoreCase(n, ".heic") ==> !EndsWithIgnoreCase(ReplaceExtension(n, ".heic"), ".heif")
  {
    if EndsWithIgnoreCase(n, ".heic") {
      var once := ReplaceExtension(n, ".heic");
      if |once| >= 5 {
        assert once[|once| - 1] == 'g';
        assert AsciiLower(once[|once| - 5..|once|])[4] == 'g';
      }
    }
  }

  /** A lower-casing that lands on an ASCII character agrees with ASCII-only lower-casing. */
  lemma LowerAsciiAgrees(c: char)
    requires LowerChar(c) < '\U{80}'
    ensures LowerChar(c) == AsciiLowerChar(c)
  {
  }

  /** A file detected as HEIC by its name is renamed to a `.jpg` name. */
  lemma {:induction false} HeicNameRenamed(name: string)
    requires EndsWith(Lower(name), ".heic") || EndsWith(Lower(name), ".heif")
    ensures EndsWith(HeicNewName(Some(name)), ".jpg")
    ensures |HeicNewName(Some(name))| == |name| - 1
    ensures HeicNewName(Some(name)) == name[..|name| - 5] + ".jpg"
  {
    var tail := name[|name| - 5..];
    assert Lower(name)[|name| - 5..] == Lower(tail);
    forall k | 0 <= k < 5
      ensures AsciiLower(tail)[k] == Lower(tail)[k]
    {
      LowerAsciiAgrees(tail[k]);
    }
    assert AsciiLower(tail) == Lower(tail);
    assert name[|name| - 5..|name| - 5 + 5] == tail;
    var n := HeicNewName(Some(name));
    if EndsWithIgnoreCase(name, ".heic") {
      assert n == name[..|name| - 5] + ".jpg";
    } else {
      assert EndsWithIgnoreCase(name, ".heif");
      assert n == name[..|name| - 5] + ".jpg";
    }
  }

  datatype Converter = PythonService | Canvas

  /** The outcomes the two converters would give for one file. */
  datatype ConversionAttempts = ConversionAttempts(viaPython: Result<Blob, string>, viaCanvas: Result<Blob, string>)

  datatype Conversion = Conversion(result: Result<Blob, string>, tried: seq<Converter>)

  const AllConversionsFailed := "All HEIC conversion methods failed. Please make sure Python service is running or convert the file manually."

  /** `convertHeicToJpeg`: the Python service first, the canvas only when it fails; an error only when both fail. */
  function ConvertHeicToJpeg(attempts: ConversionAttempts): (r: Conversion)
    ensures attempts.viaPython.Ok? ==> r == Conversion(attempts.viaPython, [PythonService])
    ensures attempts.viaPython.Err? && attempts.viaCanvas.Ok? ==> r == Conversion(attempts.viaCanvas, [PythonService, Canvas])
    ensures r.result.Err? <==> attempts.viaPython.Err? && attempts.viaCanvas.Err?
    ensures r.result.Err? ==> r.result.error == AllConversionsFailed && r.tried == [PythonService, Canvas]
  {
    if attempts.viaPython.Ok? then Conversion(attempts.viaPython, [PythonService])
    else if attempts.viaCanvas.Ok? then Conversion(attempts.viaCanvas, [PythonService, Canvas])
    else Conversion(Err(AllConversionsFailed), [PythonService, Canvas])
  }

  // ---------------------------------------------------------------------------
  // Queue operations

  /** The queue without the file of the given id. */
  function RemoveId(q: seq<UppyFile>, id: nat): (r: seq<UppyFile>)
    ensures |r| <= |q|
  {
    if |q| == 0 then [] else (if q[0].id == id then [] else [q[0]]) + RemoveId(q[1..], id)
  }

  /** Exactly the files of another id stay. */
  lemma {:induction false} RemoveIdMembers(q: seq<UppyFile>, id: nat, f: UppyFile)
    ensures f in RemoveId(q, id) <==> f in q && f.id != id
  {
    if |q| > 0 {
      RemoveIdMembers(q[1..], id, f);
      assert q == [q[0]] + q[1..];
    }
  }

  lemma {:induction false} RemoveIdConcat(a: seq<UppyFile>, b: seq<UppyFile>, id: nat)
    ensures RemoveId(a + b, id) == RemoveId(a, id) + RemoveId(b, id)
  {
    if |a| == 0 {
      assert a + b == b;
    } else {
      var head := if a[0].id == id then [] else [a[0]];
      var ab := a + b;
      assert ab[0] == a[0] && ab[1..] == a[1..] + b;
      RemoveIdConcat(a[1..], b, id);
      calc {
        RemoveId(ab, id);
        head + RemoveId(a[1..] + b, id);
        head + (RemoveId(a[1..], id) + RemoveId(b, id));
        (head + RemoveId(a[1..], id)) + RemoveId(b, id);
        RemoveId(a, id) + RemoveId(b, id);
      }
    }
  }

  lemma {:induction false} RemoveIdAbsent(q: seq<UppyFile>, id: nat)
    requires forall f :: f in q ==> f.id != id
    ensures RemoveId(q, id) == q
  {
    if |q| > 0 {
      assert q[0] in q;
      RemoveIdAbsent(q[1..], id);
    }
  }

  /** Removing a file whose id none of the other parts carries leaves the rest in order. */
  lemma RemoveOnly(a: seq<UppyFile>, x: UppyFile, b: seq<UppyFile>, c: seq<UppyFile>)
    requires RemoveId(a, x.id) == a && RemoveId(b, x.id) == b && RemoveId(c, x.id) == c
    ensures RemoveId(a + [x] + b + c, x.id) == a + b + c
  {
    var id := x.id;
    assert RemoveId([x], id) == [] by {
      assert [x][1..] == [];
    }
    RemoveIdConcat(a, [x], id);
    assert RemoveId(a + [x], id) == a;
    RemoveIdConcat(a + [x], b, id);
    assert RemoveId(a + [x] + b, id) == a + b;
    RemoveIdConcat(a + [x] + b, c, id);
  }

  predicate UniqueIds(q: seq<UppyFile>) {
    forall i, j :: 0 <= i < j < |q| ==> q[i].id != q[j].id
  }

  function CloudflareFlag(storageProvider: string): string {
    if storageProvider == "cloudflare" then "true" else "false"
  }

  function SetMeta(q: seq<UppyFile>, id: nat, flag: string): (r: seq<UppyFile>)
    ensures |r| == |q|
    ensures forall k :: 0 <= k < |q| ==> r[k] == if q[k].id == id then q[k].(useCloudflare := Some(flag)) else q[k]
  {
    seq(|q|, k requires 0 <= k < |q| => if q[k].id == id then q[k].(useCloudflare := Some(flag)) else q[k])
  }

  // ---------------------------------------------------------------------------
  // The HEIC pre-processor, stated on values

  predicate NeedsConversion(f: UppyFile, fileIDs: seq<nat>) {
    f.id in fileIDs && IsHeic(f) && f.data.Some?
  }

  /** The files the pre-processor converts, as a test to pass to the value-level walk below. */
  function Selects(fileIDs: seq<nat>): UppyFile -> bool {
    f => NeedsConversion(f, fileIDs)
  }

  /**
   * What converting each file gives, as a map to pass to the value-level walk below: the file that
   * replaces it (the walk gives it its id) or the converter's error.
   */
  function Converts(convert: nat -> ConversionAttempts, flag: string): UppyFile -> Result<UppyFile, string> {
    (f: UppyFile) =>
      var c := ConvertHeicToJpeg(convert(f.id)).result;
      if c.Ok? then Ok(ConvertedFile(0, f, c.value, flag)) else Err(c.error)
  }

  /** The file that replaces a converted one. */
  function ConvertedFile(id: nat, f: UppyFile, blob: Blob, flag: string): UppyFile {
    UppyFile(id, Some(HeicNewName(f.name)), Some("image/jpeg"), |blob|, Some(blob), Some(flag))
  }

  /** The replacement file of a successful conversion. */
  function ReplacementOf(c: Result<UppyFile, string>): UppyFile {
    if c.Ok? then c.value else UppyFile(0, None, None, 0, None, None)
  }

  /** `removeFile` on a queue value. */
  type Remover = (seq<UppyFile>, nat) -> seq<UppyFile>

  /** The uploader's own removal: drop the file of that id. */
  function RemoveById(): Remover {
    (q: seq<UppyFile>, id: nat) => RemoveId(q, id)
  }

  /**
   * The HEIC pre-processor's walk over the snapshot `files` from position `i`, on values. The
   * removal is a parameter so that the proofs below use only the facts they need about it; the
   * uploader passes `RemoveById()`.
   */
  function HeicWalk(files: seq<UppyFile>, i: nat, queue: seq<UppyFile>, nextId: nat, needs: UppyFile -> bool,
                    convert: UppyFile -> Result<UppyFile, string>, remove: Remover): Walk
    decreases |files| - i
  {
    if i >= |files| then Walk(Ok(()), queue, nextId)
    else
      var f := files[i];
      if needs(f) then
        var c := convert(f);
        if c.Ok? then
          HeicWalk(files, i + 1, remove(queue, f.id) + [c.value.(id := nextId)], nextId + 1,
                   needs, convert, remove)
        else Walk(Err("HEIC conversion failed"), remove(queue, f.id), nextId)
      else HeicWalk(files, i + 1, queue, nextId, needs, convert, remove)
  }

  /** The outcome of the HEIC pre-processor and the queue and id counter it leaves. */
  datatype Walk = Walk(result: Result<(), string>, queue: seq<UppyFile>, nextId: nat)

  /** Of the first `i` files of `s`, those the pre-processor leaves where they are. */
  function Kept(s: seq<UppyFile>, needs: UppyFile -> bool, i: nat): (r: seq<UppyFile>)
    requires i <= |s|
    ensures |r| <= i
  {
    if i == 0 then [] else Kept(s, needs, i - 1) + (if needs(s[i - 1]) then [] else [s[i - 1]])
  }

  /** The converted files added for the first `i` files of `s`, numbered from `n0`, in queue order. */
  function Fresh(s: seq<UppyFile>, needs: UppyFile -> bool, convert: UppyFile -> Result<UppyFile, string>, n0: nat, i: nat): (r: seq<UppyFile>)
    requires i <= |s|
  {
    if i == 0 then []
    else
      var prev := Fresh(s, needs, convert, n0, i - 1);
      if needs(s[i - 1]) then
        prev + [ReplacementOf(convert(s[i - 1])).(id := n0 + |prev|)]
      else prev
  }

  /** The first file of the snapshot, at or after `i`, whose conversion fails. */
  function FirstFailure(s: seq<UppyFile>, needs: UppyFile -> bool, convert: UppyFile -> Result<UppyFile, string>, i: nat): (r: Option<nat>)
    decreases |s| - i
    ensures r.Some? ==>
      (i <= r.value < |s| && needs(s[r.value]) && convert(s[r.value]).Err?)
  {
    if i >= |s| then None
    else if needs(s[i]) && convert(s[i]).Err? then Some(i)
    else FirstFailure(s, needs, convert, i + 1)
  }

  /** Every selected HEIC file before the first failure (or in the whole snapshot) converts. */
  lemma {:induction false} FirstFailureIsFirst(s: seq<UppyFile>, needs: UppyFile -> bool, convert: UppyFile -> Result<UppyFile, string>, i: nat, k: nat)
    requires i <= k < |s| && needs(s[k])
    requires FirstFailure(s, needs, convert, i).None? || k < FirstFailure(s, needs, convert, i).value
    ensures convert(s[k]).Ok?
    decreases |s| - i
  {
    if i < k {
      FirstFailureIsFirst(s, needs, convert, i + 1, k);
    }
  }

  /**
   * The outcome the HEIC pre-processor should have from position `i`: with no failure, the files
   * it did not touch in their places and then the converted files in snapshot order; on a failure,
   * the failing file is gone and the files after it are untouched.
   */
  function HeicOutcome(s: seq<UppyFile>, i: nat, needs: UppyFile -> bool, convert: UppyFile -> Result<UppyFile, string>, n0: nat): Walk {
    match FirstFailure(s, needs, convert, i)
    case None =>
      Walk(Ok(()), Kept(s, needs, |s|) + Fresh(s, needs, convert, n0, |s|), n0 + |Fresh(s, needs, convert, n0, |s|)|)
    case Some(k) =>
      Walk(Err("HEIC conversion failed"), Kept(s, needs, k) + s[k + 1..] + Fresh(s, needs, convert, n0, k),
           n0 + |Fresh(s, needs, convert, n0, k)|)
  }

  /** The queue the walk keeps between files: untouched files, the rest of the snapshot, the converted files. */
  function Midway(s: seq<UppyFile>, i: nat, needs: UppyFile -> bool, convert: UppyFile -> Result<UppyFile, string>, n0: nat): seq<UppyFile>
    requires i <= |s|
  {
    Kept(s, needs, i) + s[i..] + Fresh(s, needs, convert, n0, i)
  }

  /** Removing the file at `j` from the queue the walk keeps at `j` leaves the other parts in order. */
  predicate RemovesWalked(s: seq<UppyFile>, i: nat, needs: UppyFile -> bool, convert: UppyFile -> Result<UppyFile, string>, n0: nat, remove: Remover)
    requires i <= |s|
  {
    forall j {:trigger Midway(s, j, needs, convert, n0)} :: i <= j < |s| ==>
      remove(Midway(s, j, needs, convert, n0), s[j].id) == Kept(s, needs, j) + s[j + 1..] + Fresh(s, needs, convert, n0, j)
  }

  /** The HEIC pre-processor run on the whole queue ends in `HeicOutcome`. */
  lemma HeicWalkClosedForm(s: seq<UppyFile>, needs: UppyFile -> bool, convert: UppyFile -> Result<UppyFile, string>, n0: nat)
    requires UniqueIds(s) && forall f :: f in s ==> f.id < n0
    ensures HeicWalk(s, 0, s, n0, needs, convert, RemoveById()) == HeicOutcome(s, 0, needs, convert, n0)
  {
    assert Midway(s, 0, needs, convert, n0) == s by {
      assert s[0..] == s;
    }
    RemoveByIdWalks(s, needs, convert, n0);
    WalkFrom(s, 0, needs, convert, n0, RemoveById());
  }

  /** `RemoveById()` removes each walked file from the walk's queue shape as the walk needs. */
  lemma RemoveByIdWalks(s: seq<UppyFile>, needs: UppyFile -> bool, convert: UppyFile -> Result<UppyFile, string>, n0: nat)
    requires UniqueIds(s) && forall f :: f in s ==> f.id < n0
    ensures RemovesWalked(s, 0, needs, convert, n0, RemoveById())
  {
    forall j | 0 <= j < |s|
      ensures RemoveById()(Midway(s, j, needs, convert, n0), s[j].id)
        == Kept(s, needs, j) + s[j + 1..] + Fresh(s, needs, convert, n0, j)
    {
      RemoveWalked(s, j, needs, convert, n0);
    }
  }

  lemma {:induction false} WalkFrom(s: seq<UppyFile>, i: nat, needs: UppyFile -> bool, convert: UppyFile -> Result<UppyFile, string>, n0: nat, remove: Remover)
    requires i <= |s| && RemovesWalked(s, i, needs, convert, n0, remove)
    decreases |s| - i
    ensures HeicWalk(s, i, Midway(s, i, needs, convert, n0), n0 + |Fresh(s, needs, convert, n0, i)|, needs, convert, remove)
      == HeicOutcome(s, i, needs, convert, n0)
  {
    if i == |s| {
      assert s[i..] == [];
    } else {
      WalkFrom(s, i + 1, needs, convert, n0, remove);
      WalkOne(s, i, needs, convert, n0, remove);
    }
  }

  /** The walk from `i` ends like the walk from `i + 1`, unless it stops at `i`. */
  lemma WalkOne(s: seq<UppyFile>, i: nat, needs: UppyFile -> bool, convert: UppyFile -> Result<UppyFile, string>, n0: nat, remove: Remover)
    requires i < |s|
    requires remove(Midway(s, i, needs, convert, n0), s[i].id)
      == Kept(s, needs, i) + s[i + 1..] + Fresh(s, needs, convert, n0, i)
    requires HeicWalk(s, i + 1, Midway(s, i + 1, needs, convert, n0), n0 + |Fresh(s, needs, convert, n0, i + 1)|, needs, convert, remove)
      == HeicOutcome(s, i + 1, needs, convert, n0)
    ensures HeicWalk(s, i, Midway(s, i, needs, convert, n0), n0 + |Fresh(s, needs, convert, n0, i)|, needs, convert, remove)
      == HeicOutcome(s, i, needs, convert, n0)
  {
    if needs(s[i]) && convert(s[i]).Err? {
      WalkStops(s, i, needs, convert, n0, remove);
    } else if needs(s[i]) {
      WalkConverts(s, i, needs, convert, n0, remove);
    } else {
      WalkSkips(s, i, needs, convert, n0, remove);
    }
  }

  lemma WalkStops(s: seq<UppyFile>, i: nat, needs: UppyFile -> bool, convert: UppyFile -> Result<UppyFile, string>, n0: nat, remove: Remover)
    requires i < |s| && needs(s[i]) && convert(s[i]).Err?
    requires remove(Midway(s, i, needs, convert, n0), s[i].id)
      == Kept(s, needs, i) + s[i + 1..] + Fresh(s, needs, convert, n0, i)
    ensures HeicWalk(s, i, Midway(s, i, needs, convert, n0), n0 + |Fresh(s, needs, convert, n0, i)|, needs, convert, remove)
      == HeicOutcome(s, i, needs, convert, n0)
  {
    assert FirstFailure(s, needs, convert, i) == Some(i);
    StepStops(s, i, Midway(s, i, needs, convert, n0), n0 + |Fresh(s, needs, convert, n0, i)|, needs, convert, remove);
  }

  lemma WalkConverts(s: seq<UppyFile>, i: nat, needs: UppyFile -> bool, convert: UppyFile -> Result<UppyFile, string>, n0: nat, remove: Remover)
    requires i < |s| && needs(s[i]) && convert(s[i]).Ok?
    requires remove(Midway(s, i, needs, convert, n0), s[i].id)
      == Kept(s, needs, i) + s[i + 1..] + Fresh(s, needs, convert, n0, i)
    requires HeicWalk(s, i + 1, Midway(s, i + 1, needs, convert, n0), n0 + |Fresh(s, needs, convert, n0, i + 1)|, needs, convert, remove)
      == HeicOutcome(s, i + 1, needs, convert, n0)
    ensures HeicWalk(s, i, Midway(s, i, needs, convert, n0), n0 + |Fresh(s, needs, convert, n0, i)|, needs, convert, remove)
      == HeicOutcome(s, i, needs, convert, n0)
  {
    var n := n0 + |Fresh(s, needs, convert, n0, i)|;
    MidwayAfterConvert(s, i, needs, convert, n0);
    OutcomeAfterStep(s, i, needs, convert, n0);
    ChainConverts(s, i, Midway(s, i, needs, convert, n0), Kept(s, needs, i) + s[i + 1..] + Fresh(s, needs, convert, n0, i),
                  Midway(s, i + 1, needs, convert, n0), n, needs, convert, remove, HeicOutcome(s, i + 1, needs, convert, n0));
  }

  /** A converted file's step, chained to the walk from the next file. */
  lemma ChainConverts(s: seq<UppyFile>, i: nat, m: seq<UppyFile>, rest: seq<UppyFile>, m': seq<UppyFile>, n: nat,
                      needs: UppyFile -> bool, convert: UppyFile -> Result<UppyFile, string>, remove: Remover, w: Walk)
    requires i < |s| && needs(s[i]) && convert(s[i]).Ok?
    requires remove(m, s[i].id) == rest && m' == rest + [convert(s[i]).value.(id := n)]
    requires HeicWalk(s, i + 1, m', n + 1, needs, convert, remove) == w
    ensures HeicWalk(s, i, m, n, needs, convert, remove) == w
  {
    StepConverts(s, i, m, n, needs, convert, remove);
  }

  lemma WalkSkips(s: seq<UppyFile>, i: nat, needs: UppyFile -> bool, convert: UppyFile -> Result<UppyFile, string>, n0: nat, remove: Remover)
    requires i < |s| && !needs(s[i])
    requires HeicWalk(s, i + 1, Midway(s, i + 1, needs, convert, n0), n0 + |Fresh(s, needs, convert, n0, i + 1)|, needs, convert, remove)
      == HeicOutcome(s, i + 1, needs, convert, n0)
    ensures HeicWalk(s, i, Midway(s, i, needs, convert, n0), n0 + |Fresh(s, needs, convert, n0, i)|, needs, convert, remove)
      == HeicOutcome(s, i, needs, convert, n0)
  {
    StepSkips(s, i, Midway(s, i, needs, convert, n0), n0 + |Fresh(s, needs, convert, n0, i)|, needs, convert, remove);
    MidwayAfterSkip(s, i, needs, convert, n0);
    OutcomeAfterStep(s, i, needs, convert, n0);
  }

  /** One step of the walk on any queue: a failing file is removed and the walk stops. */
  lemma StepStops(s: seq<UppyFile>, i: nat, q: seq<UppyFile>, n: nat, needs: UppyFile -> bool, convert: UppyFile -> Result<UppyFile, string>, remove: Remover)
    requires i < |s| && needs(s[i]) && convert(s[i]).Err?
    ensures HeicWalk(s, i, q, n, needs, convert, remove) == Walk(Err("HEIC conversion failed"), remove(q, s[i].id), n)
  {
  }

  /** One step of the walk on any queue: a converted file is replaced at the end. */
  lemma StepConverts(s: seq<UppyFile>, i: nat, q: seq<UppyFile>, n: nat, needs: UppyFile -> bool, convert: UppyFile -> Result<UppyFile, string>, remove: Remover)
    requires i < |s| && needs(s[i]) && convert(s[i]).Ok?
    ensures HeicWalk(s, i, q, n, needs, convert, remove)
      == HeicWalk(s, i + 1, remove(q, s[i].id) + [convert(s[i]).value.(id := n)], n + 1, needs, convert, remove)
  {
  }

  /** One step of the walk on any queue: a file that is not selected is passed over. */
  lemma StepSkips(s: seq<UppyFile>, i: nat, q: seq<UppyFile>, n: nat, needs: UppyFile -> bool, convert: UppyFile -> Result<UppyFile, string>, remove: Remover)
    requires i < |s| && !needs(s[i])
    ensures HeicWalk(s, i, q, n, needs, convert, remove) == HeicWalk(s, i + 1, q, n, needs, convert, remove)
  {
  }

  /** After a conversion, the walk's queue shape gains the replacement at the end. */
  lemma MidwayAfterConvert(s: seq<UppyFile>, i: nat, needs: UppyFile -> bool, convert: UppyFile -> Result<UppyFile, string>, n0: nat)
    requires i < |s| && needs(s[i]) && convert(s[i]).Ok?
    ensures Midway(s, i + 1, needs, convert, n0)
      == Kept(s, needs, i) + s[i + 1..] + Fresh(s, needs, convert, n0, i) + [convert(s[i]).value.(id := n0 + |Fresh(s, needs, convert, n0, i)|)]
    ensures |Fresh(s, needs, convert, n0, i + 1)| == |Fresh(s, needs, convert, n0, i)| + 1
  {
    var kept := Kept(s, needs, i);
    var rest := s[i + 1..];
    var added := Fresh(s, needs, convert, n0, i);
    var nf := convert(s[i]).value.(id := n0 + |added|);
    assert Fresh(s, needs, convert, n0, i + 1) == added + [nf];
    assert Kept(s, needs, i + 1) == kept;
    assert kept + rest + (added + [nf]) == kept + rest + added + [nf];
  }

  /** Passing over a file does not change the walk's queue shape. */
  lemma MidwayAfterSkip(s: seq<UppyFile>, i: nat, needs: UppyFile -> bool, convert: UppyFile -> Result<UppyFile, string>, n0: nat)
    requires i < |s| && !needs(s[i])
    ensures Midway(s, i + 1, needs, convert, n0) == Midway(s, i, needs, convert, n0)
    ensures Fresh(s, needs, convert, n0, i + 1) == Fresh(s, needs, convert, n0, i)
  {
    var kept := Kept(s, needs, i);
    var rest := s[i + 1..];
    assert s[i..] == [s[i]] + rest;
    assert Kept(s, needs, i + 1) == kept + [s[i]];
    assert kept + [s[i]] + rest == kept + s[i..];
  }

  /** A file that does not stop the walk does not change its outcome. */
  lemma OutcomeAfterStep(s: seq<UppyFile>, i: nat, needs: UppyFile -> bool, convert: UppyFile -> Result<UppyFile, string>, n0: nat)
    requires i < |s| && !(needs(s[i]) && convert(s[i]).Err?)
    ensures HeicOutcome(s, i, needs, convert, n0) == HeicOutcome(s, i + 1, needs, convert, n0)
  {
    assert FirstFailure(s, needs, convert, i) == FirstFailure(s, needs, convert, i + 1);
  }

  /** Removing the walked file from the queue shape the walk keeps. */
  lemma RemoveWalked(s: seq<UppyFile>, i: nat, needs: UppyFile -> bool, convert: UppyFile -> Result<UppyFile, string>, n0: nat)
    requires i < |s| && UniqueIds(s) && forall f :: f in s ==> f.id < n0
    ensures RemoveId(Midway(s, i, needs, convert, n0), s[i].id)
      == Kept(s, needs, i) + s[i + 1..] + Fresh(s, needs, convert, n0, i)
  {
    var id := s[i].id;
    var kept := Kept(s, needs, i);
    var rest := s[i + 1..];
    var added := Fresh(s, needs, convert, n0, i);
    assert s[i] in s;
    KeptWithout(s, needs, i, i);
    SuffixWithout(s, i, i + 1);
    FreshWithout(s, needs, convert, n0, i, id);
    assert s[i..] == [s[i]] + rest;
    assert Midway(s, i, needs, convert, n0) == kept + [s[i]] + rest + added;
    RemoveOnly(kept, s[i], rest, added);
  }

  /** Removing a file that comes after the walked prefix leaves `Kept` alone. */
  lemma {:induction false} KeptWithout(s: seq<UppyFile>, needs: UppyFile -> bool, i: nat, k: nat)
    requires i <= k < |s| && UniqueIds(s)
    ensures RemoveId(Kept(s, needs, i), s[k].id) == Kept(s, needs, i)
  {
    if i > 0 {
      KeptWithout(s, needs, i - 1, k);
      var tail := if needs(s[i - 1]) then [] else [s[i - 1]];
      RemoveIdConcat(Kept(s, needs, i - 1), tail, s[k].id);
      assert RemoveId(tail, s[k].id) == tail;
    }
  }

  /** Removing a file that comes before a suffix leaves the suffix alone. */
  lemma {:induction false} SuffixWithout(s: seq<UppyFile>, k: nat, j: nat)
    requires k < j <= |s| && UniqueIds(s)
    ensures RemoveId(s[j..], s[k].id) == s[j..]
    decreases |s| - j
  {
    if j < |s| {
      SuffixWithout(s, k, j + 1);
      assert s[j..][1..] == s[j + 1..];
    }
  }

  /** Removing an id below `n0` leaves the converted files alone. */
  lemma {:induction false} FreshWithout(s: seq<UppyFile>, needs: UppyFile -> bool, convert: UppyFile -> Result<UppyFile, string>, n0: nat, i: nat, id: nat)
    requires i <= |s| && id < n0
    ensures RemoveId(Fresh(s, needs, convert, n0, i), id) == Fresh(s, needs, convert, n0, i)
  {
    if i > 0 {
      var prev := Fresh(s, needs, convert, n0, i - 1);
      FreshWithout(s, needs, convert, n0, i - 1, id);
      if needs(s[i - 1]) {
        var nf := ReplacementOf(convert(s[i - 1])).(id := n0 + |prev|);
        RemoveIdConcat(prev, [nf], id);
        assert RemoveId([nf], id) == [nf];
      }
    }
  }

  // ---------------------------------------------------------------------------
  // The type and size gates, stated on values

  const ImageTypes: seq<string> := ["image/png", "image/jpeg", "image/jpg", "image/gif"]
  const VideoTypes: seq<string> := ["video/mp4", "video/mpeg"]

  function ExpandGeneric(t: string): seq<string> {
    if t == "image/*" then ImageTypes else if t == "video/*" then VideoTypes else [t]
  }

  // The type gate's list: trimmed entries with `image/*` and `video/*` spelled out.
  function ExpandTypes(allowedFileTypes: string): seq<string> {
    FlatMap(MapTrim(Split(allowedFileTypes, ",")), ExpandGeneric)
  }

  // One entry admits a type: by prefix for an `x/*` entry, by equality otherwise.
  predicate Admits(entry: string, fileType: Option<string>) {
    if EndsWith(entry, "/*") then fileType.Some? && StartsWith(fileType.value, ReplaceFirst(entry, "/*", "/"))
    else fileType == Some(entry)
  }

  predicate IsAllowed(fileType: Option<string>, expanded: seq<string>) {
    exists k :: 0 <= k < |expanded| && Admits(expanded[k], fileType)
  }

  // `image/*` and `video/*` never reach the gate's list as wildcards: only their spelled-out types pass.
  lemma ExpandedHasNoImageWildcard(allowedFileTypes: string)
    ensures "image/*" !in ExpandTypes(allowedFileTypes) && "video/*" !in ExpandTypes(allowedFileTypes)
  {
    var parts := MapTrim(Split(allowedFileTypes, ","));
    assert "image/*" !in ImageTypes && "image/*" !in VideoTypes;
    assert "video/*" !in ImageTypes && "video/*" !in VideoTypes;
    ExpandListMembers(parts, "image/*");
    ExpandListMembers(parts, "video/*");
  }

  // An entry of the gate's list came from a trimmed listed entry: the spelled-out sets or the entry itself.
  lemma ExpandTypesMembers(allowedFileTypes: string, t: string)
    ensures t in ExpandTypes(allowedFileTypes) <==>
        (t in MapTrim(Split(allowedFileTypes, ",")) && t != "image/*" && t != "video/*")
        || (t in ImageTypes && "image/*" in MapTrim(Split(allowedFileTypes, ",")))
        || (t in VideoTypes && "video/*" in MapTrim(Split(allowedFileTypes, ",")))
  {
    ExpandListMembers(MapTrim(Split(allowedFileTypes, ",")), t);
  }

  lemma ExpandListMembers(parts: seq<string>, t: string)
    ensures t in FlatMap(parts, ExpandGeneric) <==>
        (t in parts && t != "image/*" && t != "video/*")
        || (t in ImageTypes && "image/*" in parts)
        || (t in VideoTypes && "video/*" in parts)
  {
    FlatMapMember(parts, ExpandGeneric, t);
    if t in parts && t != "image/*" && t != "video/*" {
      var i :| 0 <= i < |parts| && parts[i] == t;
      assert t in ExpandGeneric(parts[i]);
    }
    if t in ImageTypes && "image/*" in parts {
      var i :| 0 <= i < |parts| && parts[i] == "image/*";
      assert t in ExpandGeneric(parts[i]);
    }
    if t in VideoTypes && "video/*" in parts {
      var i :| 0 <= i < |parts| && parts[i] == "video/*";
      assert t in ExpandGeneric(parts[i]);
    }
  }

  /** A file without a type passes no entry. */
  lemma UntypedNeverAllowed(expanded: seq<string>)
    ensures !IsAllowed(None, expanded)
  {
  }

  const MaxImageSize: nat := 30 * 1024 * 1024
  const MaxVideoSize: nat := 1000 * 1024 * 1024

  predicate IsImageFile(f: UppyFile) { f.fileType.Some? && StartsWith(f.fileType.value, "image/") }
  predicate IsVideoFile(f: UppyFile) { f.fileType.Some? && StartsWith(f.fileType.value, "video/") }

  /** The gates the widget runs over the queue after the HEIC conversion. */
  datatype Gate = TypeCheck(expanded: seq<string>) | SizeCheck

  /** The gate refuses this selected file. */
  predicate Rejects(g: Gate, f: UppyFile) {
    match g
    case TypeCheck(expanded) => !IsAllowed(f.fileType, expanded)
    case SizeCheck => (IsImageFile(f) && f.size > MaxImageSize) || (IsVideoFile(f) && f.size > MaxVideoSize)
  }

  /** A file exactly at its ceiling passes; a file of any other kind is never measured. */
  lemma SizeCeilings(f: UppyFile)
    ensures IsImageFile(f) && f.size == MaxImageSize ==> !Rejects(SizeCheck, f)
    ensures IsImageFile(f) && f.size == MaxImageSize + 1 ==> Rejects(SizeCheck, f)
    ensures IsVideoFile(f) && f.size == MaxVideoSize ==> !Rejects(SizeCheck, f)
    ensures IsVideoFile(f) && f.size == MaxVideoSize + 1 ==> Rejects(SizeCheck, f)
    ensures !IsImageFile(f) && !IsVideoFile(f) ==> !Rejects(SizeCheck, f)
  {
  }

  /** The first selected file of the snapshot, at or after `i`, that the gate refuses. */
  function FirstOffender(s: seq<UppyFile>, fileIDs: seq<nat>, g: Gate, i: nat): (r: Option<nat>)
    decreases |s| - i
    ensures r.Some? ==> i <= r.value < |s| && s[r.value].id in fileIDs && Rejects(g, s[r.value])
    ensures forall k :: i <= k < (if r.Some? then r.value else |s|) ==> !(s[k].id in fileIDs && Rejects(g, s[k]))
  {
    if i >= |s| then None
    else if s[i].id in fileIDs && Rejects(g, s[i]) then Some(i)
    else FirstOffender(s, fileIDs, g, i + 1)
  }

  function GateMessage(g: Gate, f: UppyFile, allowedFileTypes: string): string {
    match g
    case TypeCheck(_) =>
      "File type \"" + Render(f.fileType) + "\" is not allowed for file \"" + Render(f.name) + "\". Allowed types: " + allowedFileTypes
    case SizeCheck =>
      if IsImageFile(f) && f.size > MaxImageSize then
        "Image file \"" + Render(f.name) + "\" is too large. Maximum size allowed is 30MB."
      else
        "Video file \"" + Render(f.name) + "\" is too large. Maximum size allowed is 1GB."
  }

  /** An optional text inside a template literal. */
  function Render(o: Option<string>): string {
    if o.Some? then o.value else "undefined"
  }

  // ---------------------------------------------------------------------------
  // Completion

  /** What the upload finished with: the successful responses and, with Transloadit, its first step's items. */
  datatype CompleteResult = CompleteResult(successful: seq<Json>, transloaditResults: Option<seq<Option<string>>>)

  /** The body of each successful response that has a truthy one (local storage). */
  function LocalBodies(successful: seq<Json>): (r: seq<Json>)
    ensures |r| <= |successful|
    ensures forall v :: v in r ==> JsTruthy(v) && exists k :: 0 <= k < |successful| && Get(successful[k], "body") == v
  {
    if |successful| == 0 then []
    else
      var body := Get(successful[0], "body");
      var rest := LocalBodies(successful[1..]);
      assert forall v :: v in rest ==> exists k :: 0 <= k < |successful| && Get(successful[k], "body") == v by {
        forall v | v in rest ensures exists k :: 0 <= k < |successful| && Get(successful[k], "body") == v {
          var k :| 0 <= k < |successful[1..]| && Get(successful[1..][k], "body") == v;
          assert successful[k + 1] == successful[1..][k];
        }
      }
      (if JsTruthy(body) then [body] else []) + rest
  }

  /** `body.saved` of each successful response that has a truthy one (other storage). */
  function SavedValues(successful: seq<Json>): (r: seq<Json>)
    ensures |r| <= |successful|
    ensures forall v :: v in r ==> JsTruthy(v) && exists k :: 0 <= k < |successful| && Get(Get(successful[k], "body"), "saved") == v
  {
    if |successful| == 0 then []
    else
      var saved := Get(Get(successful[0], "body"), "saved");
      var rest := SavedValues(successful[1..]);
      assert forall v :: v in rest ==> exists k :: 0 <= k < |successful| && Get(Get(successful[k], "body"), "saved") == v by {
        forall v | v in rest ensures exists k :: 0 <= k < |successful| && Get(Get(successful[k], "body"), "saved") == v {
          var k :| 0 <= k < |successful[1..]| && Get(Get(successful[1..][k], "body"), "saved") == v;
          assert successful[k + 1] == successful[1..][k];
        }
      }
      (if JsTruthy(saved) then [saved] else []) + rest
  }

  /** `url.split('/').pop()`: the text after the last `/`. */
  function LastSegment(url: string): string {
    var parts := Split(url, "/");
    parts[|parts| - 1]
  }

  /** lodash `uniq`: the first occurrence of each value, in order. */
  function Uniq(xs: seq<string>): (r: seq<string>)
    ensures forall x :: x in r <==> x in xs
    ensures forall i, j :: 0 <= i < j < |r| ==> r[i] != r[j]
  {
    if |xs| == 0 then []
    else
      var prefix := Uniq(xs[..|xs| - 1]);
      var last := xs[|xs| - 1];
      assert forall x :: x in xs <==> x in xs[..|xs| - 1] || x == last;
      if last in prefix then prefix else prefix + [last]
  }

  /** All values, or the error of the first failing one (`Promise.all`). */
  function AllOk(rs: seq<Result<Json, string>>): (r: Result<seq<Json>, string>)
    ensures r.Ok? <==> forall k :: 0 <= k < |rs| ==> rs[k].Ok?
    ensures r.Ok? ==> |r.value| == |rs| && forall k :: 0 <= k < |rs| ==> r.value[k] == rs[k].value
  {
    if |rs| == 0 then Ok([])
    else if rs[0].Err? then Err(rs[0].error)
    else
      var rest := AllOk(rs[1..]);
      if rest.Err? then rest
      else
        assert forall k :: 1 <= k < |rs| ==> rs[k] == rs[1..][k - 1];
        Ok([rs[0].value] + rest.value)
  }

  function AllPresent(items: seq<Option<string>>): (r: Option<seq<string>>)
    ensures r.Some? <==> forall k :: 0 <= k < |items| ==> items[k].Some?
    ensures r.Some? ==> |r.value| == |items| && forall k :: 0 <= k < |items| ==> r.value[k] == items[k].value
  {
    if |items| == 0 then Some([])
    else if items[0].None? then None
    else
      var rest := AllPresent(items[1..]);
      if rest.None? then None
      else
        assert forall k :: 1 <= k < |items| ==> items[k] == items[1..][k - 1];
        Some([items[0].value] + rest.value)
  }

  /** The media names the Transloadit branch saves: the last path segment of each item URL, once each. */
  function NamesToSave(urls: seq<string>): seq<string> {
    Uniq(seq(|urls|, k requires 0 <= k < |urls| => LastSegment(urls[k])))
  }

  /** One `save-media` request per name, in order. */
  function SaveEach(names: seq<string>, saveMedia: string -> Result<Json, string>): (r: seq<Result<Json, string>>)
    ensures |r| == |names| && forall k :: 0 <= k < |names| ==> r[k] == saveMedia(names[k])
  {
    seq(|names|, k requires 0 <= k < |names| => saveMedia(names[k]))
  }

  // ---------------------------------------------------------------------------
  // The uploader

  class Uploader {
    var queue: seq<UppyFile>
    var locked: bool
    var nextId: nat
    const allowedFileTypes: string
    const storageProvider: string
    const transloadit: string

    /** Every file has its own id, below the next one to hand out. */
    ghost predicate Valid()
      reads this
    {
      UniqueIds(queue) && forall f :: f in queue ==> f.id < nextId
    }

    constructor (allowedFileTypes: string, storageProvider: string, transloadit: string)
      ensures Valid() && queue == [] && !locked
      ensures this.allowedFileTypes == allowedFileTypes && this.storageProvider == storageProvider
      ensures this.transloadit == transloadit
    {
      this.allowedFileTypes := allowedFileTypes;
      this.storageProvider := storageProvider;
      this.transloadit := transloadit;
      queue := [];
      locked := false;
      nextId := 0;
    }

    /** The `file-added` handler: lock, and tag the file with the storage flag. */
    method OnFileAdded(id: nat)
      modifies this
      ensures locked && nextId == old(nextId)
      ensures queue == SetMeta(old(queue), id, CloudflareFlag(storageProvider))
    {
      locked := true;
      queue := SetMeta(queue, id, CloudflareFlag(storageProvider));
    }

    /** The `error` handler. */
    method OnError()
      modifies this
      ensures !locked && queue == old(queue) && nextId == old(nextId)
    {
      locked := false;
    }

    /** Queue a file under a new id; the widget then fires `file-added`. */
    method AddFile(name: Option<string>, fileType: Option<string>, data: Blob) returns (id: nat)
      requires Valid()
      modifies this
      ensures Valid() && locked && id == old(nextId) && nextId == old(nextId) + 1
      ensures queue == old(queue) + [UppyFile(id, name, fileType, |data|, Some(data), Some(CloudflareFlag(storageProvider)))]
    {
      id := nextId;
      queue := queue + [UppyFile(id, name, fileType, |data|, Some(data), None)];
      nextId := nextId + 1;
      OnFileAdded(id);
      assert queue[..|queue| - 1] == old(queue) by {
        forall k | 0 <= k < |old(queue)| ensures queue[k] == old(queue)[k] {
          assert old(queue)[k] in old(queue);
        }
      }
    }

    method RemoveFile(id: nat)
      requires Valid()
      modifies this
      ensures Valid() && queue == RemoveId(old(queue), id)
      ensures locked == old(locked) && nextId == old(nextId)
    {
      queue := RemoveId(queue, id);
      RemoveIdKeepsUnique(old(queue), id);
      forall f | f in queue ensures f.id < nextId {
        RemoveIdMembers(old(queue), id, f);
      }
    }

    /**
     * The HEIC pre-processor: each selected HEIC file with data is converted and replaced by a
     * JPEG at the end of the queue; the first failing conversion removes its file and stops.
     * `HeicWalkClosedForm` states the queue this leaves.
     */
    method HeicPreprocess(fileIDs: seq<nat>, convert: nat -> ConversionAttempts) returns (r: Result<(), string>)
      requires Valid()
      modifies this
      ensures Valid()
      ensures nextId > old(nextId) ==> locked
      ensures nextId == old(nextId) ==> locked == old(locked)
      ensures Walk(r, queue, nextId)
        == HeicWalk(old(queue), 0, old(queue), old(nextId), Selects(fileIDs), Converts(convert, CloudflareFlag(storageProvider)), RemoveById())
    {
      var files := queue;
      ghost var flag := CloudflareFlag(storageProvider);
      ghost var needs := Selects(fileIDs);
      ghost var outcome := Converts(convert, flag);
      ghost var whole := HeicWalk(files, 0, files, nextId, needs, outcome, RemoveById());
      var i := 0;
      while i < |files|
        invariant 0 <= i <= |files| && Valid() && nextId >= old(nextId)
        invariant nextId > old(nextId) ==> locked
        invariant nextId == old(nextId) ==> locked == old(locked)
        invariant HeicWalk(files, i, queue, nextId, needs, outcome, RemoveById()) == whole
      {
        var file := files[i];
        if file.id in fileIDs {
          var isHeic := IsHeic(file);
          if isHeic && file.data.Some? {
            var converted := ConvertHeicToJpeg(convert(file.id));
            if converted.result.Ok? {
              var newFileName := HeicNewName(file.name);
              RemoveFile(file.id);
              var newId := AddFile(Some(newFileName), Some("image/jpeg"), converted.result.value);
            } else {
              RemoveFile(file.id);
              r := Err("HEIC conversion failed");
              return;
            }
          }
        }
        i := i + 1;
      }
      r := Ok(());
    }

    /** Run a gate over a snapshot of the queue: the first refused selected file is removed and reported. */
    method RunGate(fileIDs: seq<nat>, g: Gate) returns (r: Result<(), string>)
      requires Valid()
      modifies this
      ensures Valid() && locked == old(locked) && nextId == old(nextId)
      ensures match FirstOffender(old(queue), fileIDs, g, 0)
        case None => r == Ok(()) && queue == old(queue)
        case Some(k) =>
          r == Err(GateMessage(g, old(queue)[k], allowedFileTypes)) && queue == RemoveId(old(queue), old(queue)[k].id)
    {
      var files := queue;
      r := Ok(());
      var i := 0;
      while i < |files|
        invariant 0 <= i <= |files| && queue == files && Valid() && r == Ok(())
        invariant FirstOffender(files, fileIDs, g, 0) == FirstOffender(files, fileIDs, g, i)
      {
        var file := files[i];
        if file.id in fileIDs && Rejects(g, file) {
          RemoveFile(file.id);
          return Err(GateMessage(g, file, allowedFileTypes));
        }
        i := i + 1;
      }
    }

    /** The type pre-processor. */
    method TypeGate(fileIDs: seq<nat>) returns (r: Result<(), string>)
      requires Valid()
      modifies this
      ensures Valid() && locked == old(locked) && nextId == old(nextId)
      ensures var g := TypeCheck(ExpandTypes(allowedFileTypes));
        match FirstOffender(old(queue), fileIDs, g, 0)
        case None => r == Ok(()) && queue == old(queue)
        case Some(k) =>
          r == Err(GateMessage(g, old(queue)[k], allowedFileTypes)) && queue == RemoveId(old(queue), old(queue)[k].id)
    {
      r := RunGate(fileIDs, TypeCheck(ExpandTypes(allowedFileTypes)));
    }

    /** The size pre-processor. */
    method SizeGate(fileIDs: seq<nat>) returns (r: Result<(), string>)
      requires Valid()
      modifies this
      ensures Valid() && locked == old(locked) && nextId == old(nextId)
      ensures match FirstOffender(old(queue), fileIDs, SizeCheck, 0)
        case None => r == Ok(()) && queue == old(queue)
        case Some(k) =>
          r == Err(GateMessage(SizeCheck, old(queue)[k], allowedFileTypes)) && queue == RemoveId(old(queue), old(queue)[k].id)
    {
      r := RunGate(fileIDs, SizeCheck);
    }

    /**
     * The `complete` handler: what reaches `onUploadSuccess` (`None` when nothing does) and the
     * lock, which is released on every path except a failing Transloadit save.
     */
    method OnComplete(result: CompleteResult, saveMedia: string -> Result<Json, string>) returns (delivered: Option<seq<Json>>)
      modifies this`locked
      ensures storageProvider == "local" ==> !locked && delivered == Some(LocalBodies(result.successful))
      ensures storageProvider != "local" && |transloadit| == 0 ==> !locked && delivered == Some(SavedValues(result.successful))
      ensures storageProvider != "local" && |transloadit| > 0 ==>
        match result.transloaditResults
        case None => !locked && delivered.None?
        case Some(items) =>
          match AllPresent(items)
          case None => locked == old(locked) && delivered.None?
          case Some(urls) =>
            var saved := AllOk(SaveEach(NamesToSave(urls), saveMedia));
            (saved.Ok? ==> !locked && delivered == Some(saved.value))
            && (saved.Err? ==> locked == old(locked) && delivered.None?)
    {
      if storageProvider == "local" {
        locked := false;
        return Some(LocalBodies(result.successful));
      }
      if |transloadit| > 0 {
        if result.transloaditResults.None? {
          locked := false;
          return None;
        }
        var urls := AllPresent(result.transloaditResults.value);
        if urls.None? {
          return None;
        }
        var toSave := NamesToSave(urls.value);
        var loadAllMedia := AllOk(SaveEach(toSave, saveMedia));
        if loadAllMedia.Err? {
          return None;
        }
        locked := false;
        return Some(loadAllMedia.value);
      }
      locked := false;
      return Some(SavedValues(result.successful));
    }
  }

  lemma {:induction false} RemoveIdKeepsUnique(q: seq<UppyFile>, id: nat)
    requires UniqueIds(q)
    ensures UniqueIds(RemoveId(q, id))
  {
    if |q| > 0 {
      RemoveIdKeepsUnique(q[1..], id);
      var rest := RemoveId(q[1..], id);
      forall f | f in rest ensures f.id != q[0].id {
        RemoveIdMembers(q[1..], id, f);
        var j :| 0 <= j < |q[1..]| && q[1..][j] == f;
        assert q[j + 1] == f;
      }
    }
  }
}
