/** The template endpoint `POST /generate`: checks the shared API key,
    fetches the chosen template from the template bucket and runs the whole
    build on it in crop mode, repeating photos when there are too few.

    The settings read from the environment, the bucket and the build's own
    environment are inputs (`ApiEnv`). */
module TemplateApi {
  import opened Wrappers
  import opened Text
  import opened Slides
  import opened Placeholders
  import opened Replacement
  import opened TitleSlide
  import opened Orchestrator

  datatype GenRequest = GenRequest(
    naam: string,
    geboortedatum: Option<string>,
    overlijdensdatum: Option<string>,
    sjabloon: string,
    fotos: seq<string>)

  /** An `HTTPException`. */
  datatype HttpError = HttpError(status: nat, detail: string)

  datatype ApiEnv = ApiEnv(
    /** `STREAMLIT_API_KEY`, if set. */
    apiKey: Option<string>,
    /** `BUCKET_TEMPLATES`, if set. */
    bucketName: Option<string>,
    /** Whether the bucket holds an object of this name. */
    blobExists: string -> bool,
    /** The slides of the template stored under this object name. */
    templates: string -> seq<Slide>,
    /** Everything else the build needs. */
    build: Environment)

  /** The three templates a request may choose. */
  predicate KnownTemplate(id: string) {
    id == "Rustig" || id == "Bloemrijk" || id == "Modern"
  }

  /** The template's file name, without extension. */
  function TemplateName(id: string): (r: Option<string>)
    ensures r.Some? <==> KnownTemplate(id)
    ensures r.Some? ==> r.value == "Sjabloon" + id
  {
    if id == "Rustig" then Some("SjabloonRustig")
    else if id == "Bloemrijk" then Some("SjabloonBloemrijk")
    else if id == "Modern" then Some("SjabloonModern")
    else None
  }

  function TemplateBlob(name: string): string {
    "sjablonen/" + name + ".pptx"
  }

  function LocalTemplatePath(name: string): string {
    "/tmp/" + name + ".pptx"
  }

  /** `_sjabloon_pad_from_id`: where the downloaded template is put. An
      unknown id is the caller's fault (400) and is reported before a
      missing bucket setting or a missing object (500). */
  function TemplatePath(id: string, env: ApiEnv): (r: Result<string, HttpError>)
    ensures !KnownTemplate(id) <==> r == Failure(HttpError(400, "Onbekend sjabloon"))
    ensures KnownTemplate(id) && !Truthy(env.bucketName) ==>
      r == Failure(HttpError(500, "Bucket naam ontbreekt (env BUCKET_TEMPLATES)"))
    ensures KnownTemplate(id) && Truthy(env.bucketName) ==>
      (r == Failure(HttpError(500, "Sjabloon niet gevonden: " + id)) <==> !env.blobExists(TemplateBlob("Sjabloon" + id)))
    ensures r.Success? <==> KnownTemplate(id) && Truthy(env.bucketName) && env.blobExists(TemplateBlob("Sjabloon" + id))
    ensures r.Success? ==> r.value == LocalTemplatePath("Sjabloon" + id)
  {
    match TemplateName(id)
    case None => Failure(HttpError(400, "Onbekend sjabloon"))
    case Some(name) =>
      if !Truthy(env.bucketName) then Failure(HttpError(500, "Bucket naam ontbreekt (env BUCKET_TEMPLATES)"))
      else if !env.blobExists(TemplateBlob(name)) then Failure(HttpError(500, "Sjabloon niet gevonden: " + id))
      else Success(LocalTemplatePath(name))
  }

  /** The separator between the two dates, as the bytes of an en dash
      read as cp1252 would show it: U+00E2 U+20AC U+201C, between spaces. */
  const DateSeparator: string := " \U{00E2}\U{20AC}\U{201C} "

  /** The dates line for the title slide: both dates as given, only when
      both are given and non-empty. */
  function TitleDates(born: Option<string>, died: Option<string>): (r: Option<string>)
    ensures r.Some? <==> Truthy(born) && Truthy(died)
    ensures r.Some? ==> |r.value| == |born.value| + |DateSeparator| + |died.value|
    ensures r.Some? ==> r.value[..|born.value|] == born.value
    ensures r.Some? ==> r.value[|born.value|..|born.value| + |DateSeparator|] == DateSeparator
    ensures r.Some? ==> EndsWith(r.value, died.value)
  {
    if Truthy(born) && Truthy(died) then
      var s := born.value + DateSeparator + died.value;
      assert s[..|born.value|] == born.value;
      assert s[|born.value|..|born.value| + |DateSeparator|] == DateSeparator;
      assert s[|s| - |died.value|..] == died.value;
      Some(s)
    else None
  }

  /** The name under which the deck is offered for download. */
  const DownloadName: string := "warme_uitvaart_presentatie.pptx"

  /** The arguments `generate` passes to the build. */
  function GenerateArgs(req: GenRequest, templatePath: string, dates: Option<string>): BuildArgs {
    BuildArgs(templatePath, Some(req.fotos), None, DefaultOutputName, "cover", Some(req.naam), dates, None, true)
  }

  /** The build's environment once the template has been downloaded. */
  function BuildEnvironment(req: GenRequest, env: ApiEnv): Environment
    requires KnownTemplate(req.sjabloon)
  {
    env.build.(templateExists := true, template := env.templates(TemplateBlob(TemplateName(req.sjabloon).value)))
  }

  datatype FileResult = FileResult(path: string, filename: string, built: Built)

  /** The part of `generate` after the template was found: the build on
      the downloaded template, with its errors as 500s. */
  function RunBuild(req: GenRequest, env: ApiEnv): (r: Result<FileResult, HttpError>)
    requires KnownTemplate(req.sjabloon)
    ensures var path := LocalTemplatePath("Sjabloon" + req.sjabloon);
      var b := Build(GenerateArgs(req, path, TitleDates(req.geboortedatum, req.overlijdensdatum)), BuildEnvironment(req, env));
      && (r.Failure? <==> b.Failure?)
      && (r.Failure? ==> r.error == HttpError(500, b.error.Message(path)))
    ensures |req.fotos| == 0 ==> r == Failure(HttpError(500, "Geen invoer: geef base44_foto_urls of upload_bestanden op."))
    ensures r.Success? ==>
      && r.value.filename == DownloadName
      && r.value.path == JoinPath(env.build.baseDir, DefaultOutputName)
      && r.value.path == r.value.built.outputPath
      && r.value.built.photos == DownloadedPhotos(req.fotos, env.build.tmpDir, env.build.fetch)
      && |r.value.built.photos| > 0
  {
    var path := LocalTemplatePath("Sjabloon" + req.sjabloon);
    var args := GenerateArgs(req, path, TitleDates(req.geboortedatum, req.overlijdensdatum));
    var buildEnv := BuildEnvironment(req, env);
    var b := Build(args, buildEnv);
    BuildOnDownloads(req, path, TitleDates(req.geboortedatum, req.overlijdensdatum), buildEnv);
    match b
    case Failure(e) => Failure(HttpError(500, e.Message(path)))
    case Success(built) => Success(FileResult(built.outputPath, DownloadName, built))
  }

  /** What a successful build did to the downloaded template: the title
      slide is filled only for a non-empty name, and photos are placed in
      crop mode, repeating when there are too few. */
  lemma RunBuildDeck(req: GenRequest, env: ApiEnv)
    requires KnownTemplate(req.sjabloon) && RunBuild(req, env).Success?
    ensures var built := RunBuild(req, env).value.built;
      built.replaced == ReplacedCount(built.placeholders, built.photos, true, Succeeds("cover", env.build))
    ensures req.naam == "" ==> RunBuild(req, env).value.built.slides == env.templates(TemplateBlob("Sjabloon" + req.sjabloon))
    ensures req.naam != "" ==>
      RunBuild(req, env).value.built.slides == SetTitleSlide(env.templates(TemplateBlob("Sjabloon" + req.sjabloon)), req.naam,
                                                             TitleDates(req.geboortedatum, req.overlijdensdatum), None)
  {
    var path := LocalTemplatePath("Sjabloon" + req.sjabloon);
    var b := Build(GenerateArgs(req, path, TitleDates(req.geboortedatum, req.overlijdensdatum)), BuildEnvironment(req, env));
    assert RunBuild(req, env).value.built == b.value;
  }

  /** With the template present, the build is given the URLs only: no URLs
      is a missing input, and the photos are the downloads. */
  lemma BuildOnDownloads(req: GenRequest, path: string, dates: Option<string>, buildEnv: Environment)
    requires buildEnv.templateExists
    ensures var b := Build(GenerateArgs(req, path, dates), buildEnv);
      && (|req.fotos| == 0 ==> b == Failure(NoInput))
      && (b.Success? ==> b.value.photos == DownloadedPhotos(req.fotos, buildEnv.tmpDir, buildEnv.fetch))
  {
    var args := GenerateArgs(req, path, dates);
    assert !NonEmpty(args.uploads);
    assert NonEmpty(args.urls) <==> |req.fotos| > 0;
  }

  /** `generate`. */
  function Generate(req: GenRequest, header: string, env: ApiEnv): (r: Result<FileResult, HttpError>)
    // the key is checked before anything else
    ensures r == Failure(HttpError(401, "Unauthorized")) <==> !Truthy(env.apiKey) || header != env.apiKey.value
    // then the template
    ensures Truthy(env.apiKey) && header == env.apiKey.value && TemplatePath(req.sjabloon, env).Failure? ==>
      r == Failure(TemplatePath(req.sjabloon, env).error)
    // then the build, whose errors are 500s with the exception's message
    ensures Truthy(env.apiKey) && header == env.apiKey.value && TemplatePath(req.sjabloon, env).Success? ==>
      r == RunBuild(req, env)
    ensures r.Success? ==> TemplatePath(req.sjabloon, env) == Success(LocalTemplatePath("Sjabloon" + req.sjabloon))
  {
    if !Truthy(env.apiKey) || header != env.apiKey.value then Failure(HttpError(401, "Unauthorized"))
    else
      match TemplatePath(req.sjabloon, env)
      case Failure(e) => Failure(e)
      case Success(_) => RunBuild(req, env)
  }

  /** The title slide's subtitle is the dates line alone (there is no
      closing line): both dates joined by the separator, or nothing. */
  lemma TitleSubtitle(born: Option<string>, died: Option<string>)
    ensures Truthy(born) && Truthy(died) ==>
      SubtitleText(TitleDates(born, died), None) == born.value + DateSeparator + died.value
    ensures !(Truthy(born) && Truthy(died)) ==> SubtitleText(TitleDates(born, died), None) == ""
  {
    SubtitleTextCases(TitleDates(born, died), None);
  }

  /** Every placeholder of the template gets a photo exactly when each
      placeholder takes the photo it is given: placeholder `i` gets photo
      `i mod n`, since photos repeat as often as needed. */
  lemma EveryPlaceholderFilled(req: GenRequest, header: string, env: ApiEnv)
    requires Generate(req, header, env).Success?
    ensures |Generate(req, header, env).value.built.photos| > 0
    ensures var b := Generate(req, header, env).value.built;
      b.replaced == |b.placeholders| <==>
        forall i :: 0 <= i < |b.placeholders| ==>
          Succeeds("cover", env.build)(b.placeholders[i].shape, b.photos[i % |b.photos|])
  {
    var b := Generate(req, header, env).value.built;
    assert Generate(req, header, env) == RunBuild(req, env);
    RunBuildDeck(req, env);
    var n := |b.photos|;
    AllSucceedCount(b.placeholders, b.photos, true, Succeeds("cover", env.build));
    forall i | 0 <= i < |b.placeholders|
      ensures TriedSucceeds(b.placeholders, b.photos, true, Succeeds("cover", env.build), i)
          <==> Succeeds("cover", env.build)(b.placeholders[i].shape, b.photos[i % n])
    {
      PhotoForRepeats(i, n);
    }
  }
}
