/** `maak_presentatie_automatisch`: checks its input, chooses where the
    photos come from, fills the title slide and replaces the placeholders.

    Everything the function does to the outside world is an input here:
    whether the template file exists and what it contains, what each URL
    download yielded, which files lie in the temporary directory after ZIP
    extraction, the pixel size of each photo and whether the presentation
    library accepts a picture or raises inside a guarded call. */
module Orchestrator {
  import opened Wrappers
  import opened Text
  import opened Slides
  import opened Placeholders
  import opened Replacement
  import opened TitleSlide

  // ---------------------------------------------------------------------
  // File names and paths
  // ---------------------------------------------------------------------

  /** The photo extensions, compared case-insensitively. */
  predicate IsImageFile(name: string) {
    EndsWithIgnoringCase(name, ".jpg") || EndsWithIgnoringCase(name, ".jpeg") || EndsWithIgnoringCase(name, ".png")
  }

  predicate IsZipFile(name: string) {
    EndsWithIgnoringCase(name, ".zip")
  }

  /** Some upload is a ZIP archive. */
  predicate HasZipFile(uploads: seq<string>) {
    exists i :: 0 <= i < |uploads| && IsZipFile(uploads[i])
  }

  lemma LowerConcat(a: string, b: string)
    ensures Lower(a + b) == Lower(a) + Lower(b)
  {
  }

  lemma LowerIdempotent(s: string)
    ensures Lower(Lower(s)) == Lower(s)
  {
  }

  /** The extension test ignores letter case: a name and its lower-case
      form are accepted or refused together. */
  lemma ImageFileIgnoresCase(name: string)
    ensures IsImageFile(Lower(name)) == IsImageFile(name)
  {
    LowerIdempotent(name);
  }

  /** `os.path.join(a, b)` for two parts. */
  function JoinPath(a: string, b: string): (r: string)
    ensures EndsWith(r, b)
  {
    if |b| > 0 && b[0] == '/' then b
    else if |a| == 0 || a[|a| - 1] == '/' then a + b
    else a + "/" + b
  }

  /** `os.path.basename`: what follows the last slash. */
  function Basename(path: string): (r: string)
    ensures '/' !in r
    ensures EndsWith(path, r)
    decreases |path|
  {
    if |path| == 0 || path[|path| - 1] == '/' then []
    else
      var r := Basename(path[..|path| - 1]) + [path[|path| - 1]];
      assert path == path[..|path| - 1] + [path[|path| - 1]];
      r
  }

  /** A slash-free tail of a path survives in its base name. */
  lemma {:induction false} BasenameKeepsTail(path: string, k: nat)
    requires k <= |path|
    requires '/' !in path[|path| - k..]
    ensures EndsWith(Basename(path), path[|path| - k..])
    decreases k
  {
    if k > 0 {
      var init := path[..|path| - 1];
      assert path[|path| - 1] in path[|path| - k..];
      assert init[|init| - (k - 1)..] == path[|path| - k..|path| - 1];
      forall j | |init| - (k - 1) <= j < |init| ensures init[j] != '/' {
        assert init[j] == path[|path| - k..][j - (|path| - k)];
      }
      assert '/' !in init[|init| - (k - 1)..];
      BasenameKeepsTail(init, k - 1);
      var b := Basename(path);
      assert b == Basename(init) + [path[|path| - 1]];
      assert path[|path| - k..] == path[|path| - k..|path| - 1] + [path[|path| - 1]];
    }
  }

  lemma EndsWithConcat(a: string, b: string, suffix: string)
    requires EndsWith(b, suffix)
    ensures EndsWith(a + b, suffix)
  {
    assert (a + b)[|a + b| - |suffix|..] == b[|b| - |suffix|..];
  }

  lemma EndsWithIgnoringCaseTail(a: string, b: string, suffix: string)
    requires EndsWith(a, b) && EndsWithIgnoringCase(b, suffix)
    ensures EndsWithIgnoringCase(a, suffix)
  {
    var pre := a[..|a| - |b|];
    assert a == pre + b;
    LowerConcat(pre, b);
    EndsWithConcat(Lower(pre), Lower(b), suffix);
  }

  lemma ImageFileTail(a: string, b: string)
    requires EndsWith(a, b) && IsImageFile(b)
    ensures IsImageFile(a)
  {
    if EndsWithIgnoringCase(b, ".jpg") { EndsWithIgnoringCaseTail(a, b, ".jpg"); }
    if EndsWithIgnoringCase(b, ".jpeg") { EndsWithIgnoringCaseTail(a, b, ".jpeg"); }
    if EndsWithIgnoringCase(b, ".png") { EndsWithIgnoringCaseTail(a, b, ".png"); }
  }

  lemma SuffixSlashFree(path: string, suffix: string)
    requires EndsWithIgnoringCase(path, suffix) && '/' !in suffix
    ensures '/' !in path[|path| - |suffix|..]
  {
    var tail := path[|path| - |suffix|..];
    forall i | 0 <= i < |tail| ensures tail[i] != '/' {
      assert Lower(path)[|path| - |suffix| + i] == suffix[i];
    }
  }

  /** An accepted photo keeps its extension in its base name. */
  lemma BasenameOfImageFile(path: string)
    requires IsImageFile(path)
    ensures IsImageFile(Basename(path))
  {
    if EndsWithIgnoringCase(path, ".jpg") { BasenameKeepsSuffix(path, ".jpg"); }
    else if EndsWithIgnoringCase(path, ".jpeg") { BasenameKeepsSuffix(path, ".jpeg"); }
    else { BasenameKeepsSuffix(path, ".png"); }
  }

  lemma BasenameKeepsSuffix(path: string, suffix: string)
    requires EndsWithIgnoringCase(path, suffix) && '/' !in suffix
    ensures EndsWithIgnoringCase(Basename(path), suffix)
  {
    SuffixSlashFree(path, suffix);
    var k := |suffix|;
    BasenameKeepsTail(path, k);
    var tail := path[|path| - k..];
    assert Lower(tail) == Lower(path)[|path| - k..];
    EndsWithIgnoringCaseTail(Basename(path), tail, suffix);
  }

  // ---------------------------------------------------------------------
  // Where the photos come from
  // ---------------------------------------------------------------------

  /** What downloading one URL yielded, after up to three attempts: nothing,
      or a file saved as `.png` (when the content type mentions png) or
      `.jpg`. */
  datatype Download = NotDownloaded | Saved(png: bool)

  /** The path under which the `i`-th URL (counting from 1) is saved. */
  function DownloadPath(tmpDir: string, i: nat, png: bool): (r: string)
    ensures IsImageFile(r)
  {
    var ext := if png then ".png" else ".jpg";
    var name := "base44_foto_" + NatToString(i) + ext;
    SavedExtension(png);
    EndsWithConcat("base44_foto_" + NatToString(i), ext, ext);
    ImageFileTail(name, ext);
    ImageFileTail(JoinPath(tmpDir, name), name);
    JoinPath(tmpDir, name)
  }

  /** Both extensions a download is saved under are photo extensions. */
  lemma SavedExtension(png: bool)
    ensures IsImageFile(if png then ".png" else ".jpg")
  {
    assert Lower(".png") == ".png";
    assert Lower(".jpg") == ".jpg";
  }

  /** `download_base44_fotos`: the saved paths, in URL order; URLs that
      could not be downloaded are left out. */
  function DownloadedPhotos(urls: seq<string>, tmpDir: string, fetch: string -> Download): (r: seq<string>)
    ensures |r| <= |urls|
    ensures forall p :: p in r ==> IsImageFile(p)
    ensures |r| == 0 <==> forall i :: 0 <= i < |urls| ==> fetch(urls[i]) == NotDownloaded
    decreases |urls|
  {
    if |urls| == 0 then []
    else
      var init := DownloadedPhotos(urls[..|urls| - 1], tmpDir, fetch);
      assert forall i :: 0 <= i < |urls| - 1 ==> urls[..|urls| - 1][i] == urls[i];
      match fetch(urls[|urls| - 1])
      case NotDownloaded => init
      case Saved(png) => init + [DownloadPath(tmpDir, |urls|, png)]
  }

  /** `enumerate(urls, start=1)`. */
  function Enumerate(urls: seq<string>): (r: seq<(nat, string)>)
    ensures |r| == |urls|
    ensures forall i :: 0 <= i < |urls| ==> r[i] == (i + 1, urls[i])
  {
    seq(|urls|, i requires 0 <= i < |urls| => (i + 1, urls[i]))
  }

  /** Whether the URL of a numbered entry was downloaded. */
  function WasSaved(fetch: string -> Download): ((nat, string)) -> bool {
    (e: (nat, string)) => fetch(e.1).Saved?
  }

  /** Where a numbered entry that was downloaded is saved (the empty
      string for one that was not; it is never kept). */
  function SavedPath(tmpDir: string, fetch: string -> Download): ((nat, string)) -> string {
    (e: (nat, string)) => if fetch(e.1).Saved? then DownloadPath(tmpDir, e.0, fetch(e.1).png) else ""
  }

  /** The downloads are the numbered URLs that were downloaded, in URL
      order, each renamed to the path it was saved under. */
  lemma {:induction false} DownloadedPhotosKept(urls: seq<string>, tmpDir: string, fetch: string -> Download)
    ensures DownloadedPhotos(urls, tmpDir, fetch) == KeptNames(Enumerate(urls), WasSaved(fetch), SavedPath(tmpDir, fetch))
    decreases |urls|
  {
    if |urls| > 0 {
      var init := urls[..|urls| - 1];
      DownloadedPhotosKept(init, tmpDir, fetch);
      assert Enumerate(urls)[..|urls| - 1] == Enumerate(init);
    }
  }

  /** A path is a download exactly when some URL, numbered from 1, was
      downloaded and saved under it. */
  lemma DownloadedPhotosMembers(urls: seq<string>, tmpDir: string, fetch: string -> Download)
    ensures forall p :: p in DownloadedPhotos(urls, tmpDir, fetch) <==>
      exists i :: 0 <= i < |urls| && fetch(urls[i]).Saved? && p == DownloadPath(tmpDir, i + 1, fetch(urls[i]).png)
  {
    DownloadedPhotosKept(urls, tmpDir, fetch);
    KeptNamesMembers(Enumerate(urls), WasSaved(fetch), SavedPath(tmpDir, fetch));
    EnumeratedKeptAs(urls, WasSaved(fetch), SavedPath(tmpDir, fetch));
  }

  /** Keeping numbered entries is keeping the URLs together with their
      numbers. */
  lemma EnumeratedKeptAs(urls: seq<string>, keep: ((nat, string)) -> bool, name: ((nat, string)) -> string)
    ensures forall p :: KeptAs(Enumerate(urls), keep, name, p) <==>
      exists i :: 0 <= i < |urls| && keep((i + 1, urls[i])) && p == name((i + 1, urls[i]))
  {
    var xs := Enumerate(urls);
    forall p ensures KeptAs(xs, keep, name, p) <==>
      exists i :: 0 <= i < |urls| && keep((i + 1, urls[i])) && p == name((i + 1, urls[i]))
    {
      if KeptAs(xs, keep, name, p) {
        var i :| 0 <= i < |xs| && keep(xs[i]) && p == name(xs[i]);
        assert xs[i] == (i + 1, urls[i]);
      }
      if exists i :: 0 <= i < |urls| && keep((i + 1, urls[i])) && p == name((i + 1, urls[i])) {
        var i :| 0 <= i < |urls| && keep((i + 1, urls[i])) && p == name((i + 1, urls[i]));
        assert xs[i] == (i + 1, urls[i]);
      }
    }
  }

  /** `verzamel_fotobestanden`: from a directory listing of (directory,
      file name) pairs, the paths of the files with a photo extension. */
  function CollectPhotoFiles(listing: seq<(string, string)>): (r: seq<string>)
    ensures |r| <= |listing|
    ensures forall p :: p in r ==> IsImageFile(p)
    // exactly the listed photo files, joined to their directory
    ensures forall p :: p in r <==>
      exists i :: 0 <= i < |listing| && IsImageFile(listing[i].1) && p == JoinPath(listing[i].0, listing[i].1)
    decreases |listing|
  {
    if |listing| == 0 then []
    else
      var init := CollectPhotoFiles(listing[..|listing| - 1]);
      assert forall i :: 0 <= i < |listing| - 1 ==> listing[..|listing| - 1][i] == listing[i];
      var (dir, name) := listing[|listing| - 1];
      if IsImageFile(name) then
        ImageFileTail(JoinPath(dir, name), name);
        init + [JoinPath(dir, name)]
      else init
  }

  /** The walk keeps the listing's order: collecting from two listings one
      after the other collects from the first, then from the second. */
  lemma {:induction false} CollectPhotoFilesConcat(a: seq<(string, string)>, b: seq<(string, string)>)
    ensures CollectPhotoFiles(a + b) == CollectPhotoFiles(a) + CollectPhotoFiles(b)
    decreases |b|
  {
    if |b| == 0 {
      assert a + b == a;
    } else {
      var init := b[..|b| - 1];
      assert (a + b)[..|a + b| - 1] == a + init;
      assert (a + b)[|a + b| - 1] == b[|b| - 1];
      CollectPhotoFilesConcat(a, init);
    }
  }

  /** One listed file is collected, joined to its directory, exactly when it
      has a photo extension. */
  lemma CollectOneFile(dir: string, name: string)
    ensures CollectPhotoFiles([(dir, name)]) == if IsImageFile(name) then [JoinPath(dir, name)] else []
  {
    assert [(dir, name)][..0] == [];
  }

  /** Loose uploads with a photo extension, copied into the temporary
      directory under their base name. */
  function CopiedUploads(uploads: seq<string>, tmpDir: string): (r: seq<string>)
    ensures |r| <= |uploads|
    ensures forall p :: p in r ==> IsImageFile(p)
    ensures |r| == 0 <==> forall i :: 0 <= i < |uploads| ==> !IsImageFile(uploads[i])
    decreases |uploads|
  {
    if |uploads| == 0 then []
    else
      var init := CopiedUploads(uploads[..|uploads| - 1], tmpDir);
      assert forall i :: 0 <= i < |uploads| - 1 ==> uploads[..|uploads| - 1][i] == uploads[i];
      var f := uploads[|uploads| - 1];
      if IsImageFile(f) then
        BasenameOfImageFile(f);
        ImageFileTail(JoinPath(tmpDir, Basename(f)), Basename(f));
        init + [JoinPath(tmpDir, Basename(f))]
      else init
  }

  /** Where an upload is copied: its base name in the temporary directory. */
  function CopyTarget(tmpDir: string): string -> string {
    u => JoinPath(tmpDir, Basename(u))
  }

  /** `p` is the `name` of some element of `xs` that passes `keep`. */
  predicate KeptAs<T>(xs: seq<T>, keep: T -> bool, name: T -> string, p: string) {
    exists i :: 0 <= i < |xs| && keep(xs[i]) && p == name(xs[i])
  }

  /** The `name`s of the elements of `xs` that pass `keep`, in order: the
      filter-and-rename shape that the photo sources share. */
  function KeptNames<T>(xs: seq<T>, keep: T -> bool, name: T -> string): seq<string>
    decreases |xs|
  {
    if |xs| == 0 then []
    else KeptNames(xs[..|xs| - 1], keep, name) + (if keep(xs[|xs| - 1]) then [name(xs[|xs| - 1])] else [])
  }

  /** A name is kept exactly when some element passing `keep` has it. */
  lemma {:induction false} KeptNamesMembers<T>(xs: seq<T>, keep: T -> bool, name: T -> string)
    ensures forall p :: p in KeptNames(xs, keep, name) <==> KeptAs(xs, keep, name, p)
    decreases |xs|
  {
    if |xs| > 0 {
      var init, x := xs[..|xs| - 1], xs[|xs| - 1];
      KeptNamesMembers(init, keep, name);
      assert xs == init + [x];
      SnocMembers(init, x, KeptNames(init, keep, name), KeptNames(xs, keep, name), keep, name);
    }
  }

  /** The copies are the uploads with a photo extension, each renamed to
      its copy target. */
  lemma {:induction false} CopiedUploadsKept(uploads: seq<string>, tmpDir: string)
    ensures CopiedUploads(uploads, tmpDir) == KeptNames(uploads, IsImageFile, CopyTarget(tmpDir))
    decreases |uploads|
  {
    if |uploads| > 0 {
      var init, f := uploads[..|uploads| - 1], uploads[|uploads| - 1];
      CopiedUploadsKept(init, tmpDir);
      assert CopyTarget(tmpDir)(f) == JoinPath(tmpDir, Basename(f));
      assert KeptNames(uploads, IsImageFile, CopyTarget(tmpDir))
          == KeptNames(init, IsImageFile, CopyTarget(tmpDir)) + (if IsImageFile(f) then [CopyTarget(tmpDir)(f)] else []);
    }
  }

  /** The copies are exactly the photo uploads, each under its base name in
      the temporary directory. */
  lemma {:induction false} CopiedUploadsMembers(uploads: seq<string>, tmpDir: string)
    ensures forall p :: p in CopiedUploads(uploads, tmpDir) <==> KeptAs(uploads, IsImageFile, CopyTarget(tmpDir), p)
  {
    CopiedUploadsKept(uploads, tmpDir);
    KeptNamesMembers(uploads, IsImageFile, CopyTarget(tmpDir));
  }

  /** Keeping the elements that pass `keep`, renamed by `name`, one element
      at a time. */
  lemma SnocMembers<T>(init: seq<T>, x: T, prefix: seq<string>, r: seq<string>,
                       keep: T -> bool, name: T -> string)
    requires forall p :: p in prefix <==> KeptAs(init, keep, name, p)
    requires r == prefix + (if keep(x) then [name(x)] else [])
    ensures forall p :: p in r <==> KeptAs(init + [x], keep, name, p)
  {
    var xs := init + [x];
    forall p ensures p in r <==> KeptAs(xs, keep, name, p) {
      if p in prefix {
        var i :| 0 <= i < |init| && keep(init[i]) && p == name(init[i]);
        assert xs[i] == init[i];
      }
      if KeptAs(xs, keep, name, p) {
        var i :| 0 <= i < |xs| && keep(xs[i]) && p == name(xs[i]);
        if i < |init| {
          assert xs[i] == init[i];
          assert KeptAs(init, keep, name, p);
        } else {
          assert xs[i] == x;
        }
      }
      if p !in prefix && p in r {
        assert keep(x) && p == name(x) && xs[|init|] == x;
      }
    }
  }

  /** The copies keep the order of the uploads. */
  lemma {:induction false} CopiedUploadsConcat(a: seq<string>, b: seq<string>, tmpDir: string)
    ensures CopiedUploads(a + b, tmpDir) == CopiedUploads(a, tmpDir) + CopiedUploads(b, tmpDir)
    decreases |b|
  {
    if |b| == 0 {
      assert a + b == a;
    } else {
      var init, f := b[..|b| - 1], b[|b| - 1];
      assert (a + b)[..|a + b| - 1] == a + init;
      assert (a + b)[|a + b| - 1] == f;
      CopiedUploadsSnoc(a + b, tmpDir);
      CopiedUploadsSnoc(b, tmpDir);
      CopiedUploadsConcat(a, init, tmpDir);
      SeqAssoc(CopiedUploads(a, tmpDir), CopiedUploads(init, tmpDir), CopiedUploads([f], tmpDir));
    }
  }

  lemma CopiedUploadsSnoc(uploads: seq<string>, tmpDir: string)
    requires |uploads| > 0
    ensures CopiedUploads(uploads, tmpDir)
         == CopiedUploads(uploads[..|uploads| - 1], tmpDir) + CopiedUploads([uploads[|uploads| - 1]], tmpDir)
  {
    CopyOneUpload(uploads[|uploads| - 1], tmpDir);
  }

  /** One upload is copied, under its base name, exactly when it has a
      photo extension. */
  lemma CopyOneUpload(f: string, tmpDir: string)
    ensures CopiedUploads([f], tmpDir) == if IsImageFile(f) then [JoinPath(tmpDir, Basename(f))] else []
  {
    assert [f][..0] == [];
  }

  predicate NonEmpty(s: Option<seq<string>>) {
    s.Some? && |s.value| > 0
  }

  // ---------------------------------------------------------------------
  // The whole build
  // ---------------------------------------------------------------------

  datatype BuildArgs = BuildArgs(
    template: string,
    urls: Option<seq<string>>,
    uploads: Option<seq<string>>,
    outputName: string,
    ratioMode: string,
    titleName: Option<string>,
    titleDates: Option<string>,
    titleClause: Option<string>,
    repeat: bool)

  /** The defaults of the keyword arguments. */
  const DefaultOutputName := "uitvaart_presentatie_resultaat.pptx"
  const DefaultRatioMode := "cover"

  datatype Environment = Environment(
    templateExists: bool,
    template: seq<Slide>,
    tmpDir: string,
    fetch: string -> Download,
    extracted: seq<(string, string)>,
    imageSize: string -> (nat, nat),
    /** Whether `insert_picture` and `fill.user_picture` raise for this
        shape and photo; both are caught and fall through. */
    library: (Shape, string) -> Library,
    /** Whether adding the new picture (a plain picture or the fallback)
        goes through; an exception there is not caught. */
    pictureAccepted: (Shape, string) -> bool,
    baseDir: string)

  datatype BuildError = TemplateNotFound | NoInput | NoValidPhotos {
    /** The exception message `str(e)`. */
    function Message(template: string): string {
      match this
      case TemplateNotFound => "Sjabloon niet gevonden: " + template
      case NoInput => "Geen invoer: geef base44_foto_urls of upload_bestanden op."
      case NoValidPhotos => "Geen geldige foto's gevonden om te verwerken."
    }
  }

  datatype Built = Built(photos: seq<string>, slides: seq<Slide>, placeholders: seq<Match>,
                         replaced: nat, outputPath: string)

  /** The photo list: the downloads when there are URLs; the uploads only
      when the downloads yielded nothing. Uploads that include a ZIP file
      are extracted and the temporary directory is scanned; otherwise the
      loose photos are copied. */
  function SelectPhotos(args: BuildArgs, env: Environment): (r: seq<string>)
    ensures forall p :: p in r ==> IsImageFile(p)
    ensures NonEmpty(args.urls) && |DownloadedPhotos(args.urls.value, env.tmpDir, env.fetch)| > 0 ==>
      r == DownloadedPhotos(args.urls.value, env.tmpDir, env.fetch)
    ensures !NonEmpty(args.uploads) ==>
      r == (if NonEmpty(args.urls) then DownloadedPhotos(args.urls.value, env.tmpDir, env.fetch) else [])
    // with nothing downloaded, the uploads: the extracted files when one is a ZIP, else the loose photos
    ensures NonEmpty(args.uploads) && (!NonEmpty(args.urls) || |DownloadedPhotos(args.urls.value, env.tmpDir, env.fetch)| == 0) ==>
      r == (if HasZipFile(args.uploads.value) then CollectPhotoFiles(env.extracted) else CopiedUploads(args.uploads.value, env.tmpDir))
  {
    var downloaded := if NonEmpty(args.urls) then DownloadedPhotos(args.urls.value, env.tmpDir, env.fetch) else [];
    if NonEmpty(args.uploads) && |downloaded| == 0 then
      if HasZipFile(args.uploads.value) then
        CollectPhotoFiles(env.extracted)
      else CopiedUploads(args.uploads.value, env.tmpDir)
    else downloaded
  }

  /** Whether replacing shape `sh` by the photo at `path` goes through: the
      geometry of the branch taken must be computable, and a new picture,
      when one is added, must be accepted. */
  function Succeeds(mode: string, env: Environment): (Shape, string) -> bool {
    (sh: Shape, path: string) =>
      var plan := ReplacementPlan(sh, mode, env.imageSize(path).0, env.imageSize(path).1, env.library(sh, path));
      plan.Success? && (plan.value.AddPicture? ==> env.pictureAccepted(sh, path))
  }

  function Build(args: BuildArgs, env: Environment): (r: Result<Built, BuildError>)
    // the template is checked first, then that some input was given
    ensures r == Failure(TemplateNotFound) <==> !env.templateExists
    ensures env.templateExists ==>
      (r == Failure(NoInput) <==> !NonEmpty(args.urls) && !NonEmpty(args.uploads))
    ensures r == Failure(NoValidPhotos) <==>
      env.templateExists && (NonEmpty(args.urls) || NonEmpty(args.uploads)) && |SelectPhotos(args, env)| == 0
    // a successful build has photos, all with a photo extension
    ensures r.Success? ==> |r.value.photos| > 0 && forall p :: p in r.value.photos ==> IsImageFile(p)
    ensures r.Success? ==> r.value.photos == SelectPhotos(args, env)
    // the title slide is written only for a non-empty name
    ensures r.Success? && !Truthy(args.titleName) ==> r.value.slides == env.template
    ensures r.Success? && Truthy(args.titleName) ==>
      r.value.slides == SetTitleSlide(env.template, args.titleName.value, args.titleDates, args.titleClause)
    // the placeholders are those of the filled presentation; the count is bounded
    ensures r.Success? ==> r.value.placeholders == CollectPlaceholders(r.value.slides)
    ensures r.Success? ==>
      r.value.replaced == ReplacedCount(r.value.placeholders, r.value.photos, args.repeat, Succeeds(args.ratioMode, env))
    ensures r.Success? ==> r.value.replaced <= |r.value.placeholders|
    ensures r.Success? && !args.repeat ==> r.value.replaced <= |r.value.photos|
  {
    if !env.templateExists then Failure(TemplateNotFound)
    else if !NonEmpty(args.urls) && !NonEmpty(args.uploads) then Failure(NoInput)
    else
      var photos := SelectPhotos(args, env);
      if |photos| == 0 then Failure(NoValidPhotos)
      else
        var slides := if Truthy(args.titleName)
          then SetTitleSlide(env.template, args.titleName.value, args.titleDates, args.titleClause)
          else env.template;
        var placeholders := CollectPlaceholders(slides);
        var replaced := ReplacedCount(placeholders, photos, args.repeat, Succeeds(args.ratioMode, env));
        Success(Built(photos, slides, placeholders, replaced, JoinPath(env.baseDir, args.outputName)))
  }

  /** Uploads are ignored as soon as one URL was downloaded. */
  lemma DownloadsTakePrecedence(args: BuildArgs, env: Environment, i: nat)
    requires env.templateExists && NonEmpty(args.urls)
    requires i < |args.urls.value| && env.fetch(args.urls.value[i]).Saved?
    ensures Build(args, env).Success?
    ensures Build(args, env).value.photos == DownloadedPhotos(args.urls.value, env.tmpDir, env.fetch)
  {
  }

  /** With nothing downloaded, the build falls back on the uploads. When
      one of them is a ZIP archive, the photos are the photo files found in
      the temporary directory after extraction. Otherwise they are the
      copies of the loose photo uploads. Either way the build fails only
      when no photo is found. */
  lemma UploadsWhenNothingDownloaded(args: BuildArgs, env: Environment)
    requires env.templateExists && NonEmpty(args.uploads)
    requires !NonEmpty(args.urls) || |DownloadedPhotos(args.urls.value, env.tmpDir, env.fetch)| == 0
    ensures HasZipFile(args.uploads.value) ==>
      (Build(args, env).Success? <==> exists i :: 0 <= i < |env.extracted| && IsImageFile(env.extracted[i].1))
    ensures HasZipFile(args.uploads.value) && Build(args, env).Success? ==>
      forall p :: p in Build(args, env).value.photos <==>
        exists i :: 0 <= i < |env.extracted| && IsImageFile(env.extracted[i].1) && p == JoinPath(env.extracted[i].0, env.extracted[i].1)
    ensures !HasZipFile(args.uploads.value) ==>
      (Build(args, env).Success? <==> exists i :: 0 <= i < |args.uploads.value| && IsImageFile(args.uploads.value[i]))
    ensures !HasZipFile(args.uploads.value) && Build(args, env).Success? ==>
      forall p :: p in Build(args, env).value.photos <==> KeptAs(args.uploads.value, IsImageFile, CopyTarget(env.tmpDir), p)
  {
    UploadPhotos(args, env);
    var b := Build(args, env);
    assert b.Success? <==> |SelectPhotos(args, env)| > 0;
    assert b.Success? ==> b.value.photos == SelectPhotos(args, env);
  }

  /** The photo list when nothing was downloaded: what the uploads yield,
      and when that is empty. */
  lemma UploadPhotos(args: BuildArgs, env: Environment)
    requires NonEmpty(args.uploads)
    requires !NonEmpty(args.urls) || |DownloadedPhotos(args.urls.value, env.tmpDir, env.fetch)| == 0
    ensures HasZipFile(args.uploads.value) ==>
      (|SelectPhotos(args, env)| > 0 <==> exists i :: 0 <= i < |env.extracted| && IsImageFile(env.extracted[i].1))
    ensures HasZipFile(args.uploads.value) ==>
      forall p :: p in SelectPhotos(args, env) <==>
        exists i :: 0 <= i < |env.extracted| && IsImageFile(env.extracted[i].1) && p == JoinPath(env.extracted[i].0, env.extracted[i].1)
    ensures !HasZipFile(args.uploads.value) ==>
      (|SelectPhotos(args, env)| > 0 <==> exists i :: 0 <= i < |args.uploads.value| && IsImageFile(args.uploads.value[i]))
    ensures !HasZipFile(args.uploads.value) ==>
      forall p :: p in SelectPhotos(args, env) <==> KeptAs(args.uploads.value, IsImageFile, CopyTarget(env.tmpDir), p)
  {
    var photos := SelectPhotos(args, env);
    if HasZipFile(args.uploads.value) {
      assert photos == CollectPhotoFiles(env.extracted);
      if exists i :: 0 <= i < |env.extracted| && IsImageFile(env.extracted[i].1) {
        var i :| 0 <= i < |env.extracted| && IsImageFile(env.extracted[i].1);
        assert JoinPath(env.extracted[i].0, env.extracted[i].1) in photos;
      } else if |photos| > 0 {
        assert photos[0] in photos;
      }
    } else {
      assert photos == CopiedUploads(args.uploads.value, env.tmpDir);
      CopiedUploadsMembers(args.uploads.value, env.tmpDir);
    }
  }
}
