/** The stand-alone endpoint `POST /v1/generate-presentation`: a title
    slide, then one full-slide picture per photo URL that downloads with
    status 200, in the order of the request; the deck is stored under a
    name derived from a hash of its bytes and the download URL is returned.

    HTTP errors are `ApiError` values. The network, python-pptx, the hash
    and the storage bucket are inputs (`PresentationEnv`). */
module PresentationApi {
  import opened Wrappers
  import opened Text
  import opened DutchDate

  type Byte = x: int | 0 <= x < 256

  datatype GenerateRequest = GenerateRequest(
    collection: string,
    title: Option<string>,
    dateOfBirth: Option<string>,
    dateOfDeath: Option<string>,
    photos: seq<string>,
    outputBucket: string,
    outputFilename: string)

  /** An `HTTPException` (or the request validation's 422). */
  datatype ApiError = ApiError(status: nat, detail: string)

  // ---------------------------------------------------------------------
  // Slides, with positions in EMU (914400 per inch, 12700 per point)
  // ---------------------------------------------------------------------

  datatype Rgb = Rgb(red: nat, green: nat, blue: nat)

  datatype TextBox = TextBox(left: nat, top: nat, width: nat, height: nat,
                             text: string, fontSize: nat, bold: bool, color: Rgb)

  datatype DeckSlide =
    | TitleCard(boxes: seq<TextBox>)
    | PhotoCard(image: seq<Byte>, left: nat, top: nat, width: nat, height: nat)

  const EmuPerInch: nat := 914400
  const EmuPerPoint: nat := 12700

  /** 48 pt bold, dark grey, centred, at 0.8 x 1.5 inch, 8.4 x 1.5 inch. */
  function TitleBox(title: string): TextBox {
    TextBox(731520, 3 * EmuPerInch / 2, 7680960, 3 * EmuPerInch / 2, title, 48 * EmuPerPoint, true, Rgb(0x22, 0x22, 0x22))
  }

  /** 20 pt, mid grey, centred, at 0.8 x 2.4 inch, 8.4 x 1.0 inch. */
  function SubtitleBox(text: string): TextBox {
    TextBox(731520, 2194560, 7680960, EmuPerInch, text, 20 * EmuPerPoint, false, Rgb(0x55, 0x55, 0x55))
  }

  /** The subtitle line for the formatted dates, when there is one; the two
      dates are separated by an em dash. */
  function LifeLine(born: Option<string>, died: Option<string>): (r: Option<string>)
    ensures r.None? <==> !Truthy(born) && !Truthy(died)
    ensures Truthy(born) && Truthy(died) ==> r == Some("Geboren " + born.value + " \U{2014} Overleden " + died.value)
    ensures !Truthy(born) && Truthy(died) ==> r == Some("Overleden " + died.value)
    ensures Truthy(born) && !Truthy(died) ==> r == Some("Geboren " + born.value)
  {
    if Truthy(born) && Truthy(died) then Some("Geboren " + born.value + " \U{2014} Overleden " + died.value)
    else if Truthy(died) then Some("Overleden " + died.value)
    else if Truthy(born) then Some("Geboren " + born.value)
    else None
  }

  /** `_title_slide`: a blank slide with a title box when there is a title
      and a subtitle box when either date is given. */
  function TitleSlide(title: Option<string>, dob: Option<string>, dod: Option<string>): (r: DeckSlide)
    ensures r.TitleCard? && |r.boxes| <= 2
    ensures !Truthy(title) ==> forall i :: 0 <= i < |r.boxes| ==> !r.boxes[i].bold
    ensures |r.boxes| == (if Truthy(title) then 1 else 0) + (if Truthy(dob) || Truthy(dod) then 1 else 0)
    ensures Truthy(title) ==> r.boxes[0] == TitleBox(title.value)
    ensures Truthy(dob) || Truthy(dod) ==>
      r.boxes[|r.boxes| - 1] == SubtitleBox(LifeLine(FormatDate(dob), FormatDate(dod)).value)
  {
    var titleBoxes := if Truthy(title) then [TitleBox(title.value)] else [];
    var line := LifeLine(FormatDate(dob), FormatDate(dod));
    var subtitleBoxes := if line.Some? then [SubtitleBox(line.value)] else [];
    assert Truthy(title) ==> (titleBoxes + subtitleBoxes)[0] == TitleBox(title.value);
    TitleCard(titleBoxes + subtitleBoxes)
  }

  /** Each date appears when it is given: the line opens with the birth
      date exactly when there is one, and closes with the death date
      exactly when there is one. */
  lemma LifeLineMentionsDates(born: Option<string>, died: Option<string>)
    requires Truthy(born) || Truthy(died)
    ensures var text := LifeLine(born, died).value;
      && (Truthy(born) <==> |text| >= 8 && text[..8] == "Geboren ")
      && (Truthy(born) ==> text[8..8 + |born.value|] == born.value)
      && (Truthy(died) ==> EndsWith(text, "Overleden " + died.value))
      && (!Truthy(died) ==> text == "Geboren " + born.value)
  {
    var text := LifeLine(born, died).value;
    if Truthy(born) && Truthy(died) {
      assert text == "Geboren " + (born.value + " \U{2014} Overleden " + died.value);
      assert text == ("Geboren " + born.value + " \U{2014} ") + ("Overleden " + died.value);
    } else if Truthy(died) {
      assert text[..8] == "Overlede";
    } else {
      assert text == "Geboren " + born.value;
    }
  }

  /** `_photo_slide`: the picture stretched over the 10 x 7.5 inch slide. */
  function PhotoSlide(image: seq<Byte>): DeckSlide {
    PhotoCard(image, 0, 0, 10 * EmuPerInch, 15 * EmuPerInch / 2)
  }

  // ---------------------------------------------------------------------
  // Downloading the photos
  // ---------------------------------------------------------------------

  /** What `requests.get` gives: a response, or an exception (timeout,
      connection error) with its message. */
  datatype Fetch = Response(statusCode: int, content: seq<Byte>) | Raised(message: string)

  datatype PresentationEnv = PresentationEnv(
    fetch: string -> Fetch,
    /** The message of the exception python-pptx raises for an image it
        cannot place, if any. */
    pictureError: seq<Byte> -> Option<string>,
    /** The saved deck's bytes. */
    save: seq<DeckSlide> -> seq<Byte>,
    /** `hashlib.sha256(data).hexdigest()`. */
    sha256Hex: seq<Byte> -> string,
    /** The message of the exception the upload raises, if any. */
    uploadError: (string, string) -> Option<string>)

  /** `_download` skips a photo (its `HTTPException(502)` is caught by the
      loop) exactly when the status is not 200. */
  predicate Skipped(f: Fetch) {
    f.Response? && f.statusCode != 200
  }

  /** The error that ends the loop at this URL, if any: an exception from
      the download itself or from placing the picture. */
  function PhotoFailure(f: Fetch, env: PresentationEnv): Option<string> {
    match f
    case Raised(msg) => Some(msg)
    case Response(code, content) => if code == 200 then env.pictureError(content) else None
  }

  /** The downloaded images, in request order, as a reference definition. */
  function GoodImages(urls: seq<string>, env: PresentationEnv): (r: seq<seq<Byte>>)
    ensures |r| <= |urls|
  {
    if |urls| == 0 then []
    else
      var f := env.fetch(urls[0]);
      (if f.Response? && f.statusCode == 200 then [f.content] else []) + GoodImages(urls[1..], env)
  }

  /** URL `i` is the first one whose processing raises, with `msg`. */
  predicate FirstFailureAt(urls: seq<string>, env: PresentationEnv, i: int, msg: string) {
    && 0 <= i < |urls|
    && (forall j :: 0 <= j < i ==> PhotoFailure(env.fetch(urls[j]), env).None?)
    && PhotoFailure(env.fetch(urls[i]), env) == Some(msg)
  }

  /** The loop over `req.photos`: a photo slide per good download, in
      order; the first URL whose download raises or whose picture cannot be
      placed ends it with that exception's message. */
  function PhotoSlides(urls: seq<string>, env: PresentationEnv): (r: Result<seq<DeckSlide>, string>)
    ensures r.Success? <==> forall i :: 0 <= i < |urls| ==> PhotoFailure(env.fetch(urls[i]), env).None?
    ensures r.Success? ==> |r.value| == |GoodImages(urls, env)|
    ensures r.Success? ==> forall i :: 0 <= i < |r.value| ==> r.value[i] == PhotoSlide(GoodImages(urls, env)[i])
    ensures r.Failure? ==> exists i :: FirstFailureAt(urls, env, i, r.error)
  {
    if |urls| == 0 then Success([])
    else
      var f := env.fetch(urls[0]);
      match PhotoFailure(f, env)
      case Some(msg) =>
        assert FirstFailureAt(urls, env, 0, msg);
        Failure(msg)
      case None =>
        match PhotoSlides(urls[1..], env)
        case Failure(msg) =>
          ghost var i :| FirstFailureAt(urls[1..], env, i, msg);
          assert forall j :: 0 <= j < i + 1 ==> PhotoFailure(env.fetch(urls[j]), env).None? by {
            forall j | 0 <= j < i + 1 ensures PhotoFailure(env.fetch(urls[j]), env).None? {
              if j > 0 { assert urls[j] == urls[1..][j - 1]; }
            }
          }
          assert urls[i + 1] == urls[1..][i];
          assert FirstFailureAt(urls, env, i + 1, msg);
          Failure(msg)
        case Success(rest) =>
          assert forall i :: 0 <= i < |urls| ==> PhotoFailure(env.fetch(urls[i]), env).None? by {
            forall i | 0 <= i < |urls| ensures PhotoFailure(env.fetch(urls[i]), env).None? {
              if i > 0 { assert urls[i] == urls[1..][i - 1]; }
            }
          }
          Success((if f.Response? && f.statusCode == 200 then [PhotoSlide(f.content)] else []) + rest)
  }

  // ---------------------------------------------------------------------
  // The endpoint
  // ---------------------------------------------------------------------

  const InternalErrorPrefix: string := "Presentatiegeneratie mislukt: "
  const StoragePrefix: string := "https://storage.googleapis.com/"

  /** `hexdigest()[:12]`. */
  function Hash12(hex: string): (r: string)
    ensures |r| == if |hex| < 12 then |hex| else 12
    ensures r <= hex
  {
    if |hex| <= 12 then hex else hex[..12]
  }

  /** The object name: the collection, a slash, then the hash and the file
      name. */
  function BlobPath(collection: string, h12: string, filename: string): string {
    collection + "/" + h12 + "_" + filename
  }

  /** `f"https://storage.googleapis.com/{bucket_name}/{blob_path}"`. */
  function PublicUrl(bucket: string, blobPath: string): string {
    StoragePrefix + bucket + "/" + blobPath
  }

  datatype Generated = Generated(deck: seq<DeckSlide>, blobPath: string, downloadUrl: string)

  /** Request validation and the handler's own checks, in order. */
  function RequestError(req: GenerateRequest): (r: Option<ApiError>)
    ensures r.Some? ==> r.value.status in {400, 422}
    ensures |req.photos| == 0 <==> r == Some(ApiError(422, "photos mag niet leeg zijn"))
    ensures |req.photos| > 0 ==>
      (r == Some(ApiError(400, "Ongeldige output_filename")) <==> '/' in req.outputFilename || IsBlank(req.outputFilename))
    ensures |req.photos| > 0 && '/' !in req.outputFilename && !IsBlank(req.outputFilename) ==>
      (r == Some(ApiError(400, "collection is verplicht")) <==> IsBlank(req.collection))
    ensures r.None? <==> |req.photos| > 0 && '/' !in req.outputFilename && !IsBlank(req.outputFilename) && !IsBlank(req.collection)
  {
    if |req.photos| == 0 then Some(ApiError(422, "photos mag niet leeg zijn"))
    else if '/' in req.outputFilename || IsBlank(req.outputFilename) then Some(ApiError(400, "Ongeldige output_filename"))
    else if IsBlank(req.collection) then Some(ApiError(400, "collection is verplicht"))
    else None
  }

  /** Storing a finished deck: the object name comes from the hash of the
      deck's bytes; a failing upload is a 500 with its message. */
  function Publish(req: GenerateRequest, deck: seq<DeckSlide>, env: PresentationEnv): (r: Result<Generated, ApiError>)
    ensures var blob := BlobPath(req.collection, Hash12(env.sha256Hex(env.save(deck))), req.outputFilename);
      && (r.Success? <==> env.uploadError(req.outputBucket, blob).None?)
      && (r.Failure? ==> r.error == ApiError(500, InternalErrorPrefix + env.uploadError(req.outputBucket, blob).value))
      && (r.Success? ==> r.value.deck == deck && r.value.blobPath == blob
                         && r.value.downloadUrl == PublicUrl(req.outputBucket, blob))
  {
    var h12 := Hash12(env.sha256Hex(env.save(deck)));
    var blobPath := BlobPath(req.collection, h12, req.outputFilename);
    match env.uploadError(req.outputBucket, blobPath)
    case Some(msg) => Failure(ApiError(500, InternalErrorPrefix + msg))
    case None => Success(Generated(deck, blobPath, PublicUrl(req.outputBucket, blobPath)))
  }

  /** The deck for a valid request: the title slide, then the photo
      slides; an exception in the photo loop is a 500 with its message, and
      a deck without photos is refused. */
  function PhotoDeck(req: GenerateRequest, env: PresentationEnv): (r: Result<seq<DeckSlide>, ApiError>)
    ensures PhotoSlides(req.photos, env).Failure? ==>
      r == Failure(ApiError(500, InternalErrorPrefix + PhotoSlides(req.photos, env).error))
    ensures PhotoSlides(req.photos, env).Success? ==>
      (|GoodImages(req.photos, env)| == 0 <==> r == Failure(ApiError(400, "Geen geldige foto\U{2019}s gevonden om te plaatsen")))
    // the title slide, then one slide per good photo in order
    ensures r.Success? ==> |r.value| == 1 + |GoodImages(req.photos, env)| >= 2
    ensures r.Success? ==> r.value[0] == TitleSlide(req.title, req.dateOfBirth, req.dateOfDeath)
    ensures r.Success? ==> forall i :: 1 <= i < |r.value| ==> r.value[i] == PhotoSlide(GoodImages(req.photos, env)[i - 1])
  {
    match PhotoSlides(req.photos, env)
    case Failure(msg) => Failure(ApiError(500, InternalErrorPrefix + msg))
    case Success(photoSlides) =>
      var deck := [TitleSlide(req.title, req.dateOfBirth, req.dateOfDeath)] + photoSlides;
      if |deck| <= 1 then Failure(ApiError(400, "Geen geldige foto\U{2019}s gevonden om te plaatsen"))
      else Success(deck)
  }

  /** `generate_presentation` up to saving: the request checks come first
      and pass through unchanged. */
  function BuildDeck(req: GenerateRequest, env: PresentationEnv): (r: Result<seq<DeckSlide>, ApiError>)
    ensures RequestError(req).Some? ==> r == Failure(RequestError(req).value)
    ensures RequestError(req).None? ==> r == PhotoDeck(req, env)
    ensures r.Failure? ==> r.error.status in {400, 422, 500}
  {
    match RequestError(req)
    case Some(e) => Failure(e)
    case None => PhotoDeck(req, env)
  }

  /** `generate_presentation`. Only HTTP errors pass through as they are;
      every other exception becomes a 500 carrying its message. */
  function GeneratePresentation(req: GenerateRequest, env: PresentationEnv): (r: Result<Generated, ApiError>)
    ensures BuildDeck(req, env).Failure? ==> r == Failure(BuildDeck(req, env).error)
    ensures BuildDeck(req, env).Success? ==> r == Publish(req, BuildDeck(req, env).value, env)
    ensures r.Failure? ==> r.error.status in {400, 422, 500}
    ensures r.Success? ==> r.value.deck == BuildDeck(req, env).value
    // where it is stored
    ensures r.Success? ==>
      var h12 := Hash12(env.sha256Hex(env.save(r.value.deck)));
      && r.value.blobPath == BlobPath(req.collection, h12, req.outputFilename)
      && r.value.downloadUrl == PublicUrl(req.outputBucket, r.value.blobPath)
      && env.uploadError(req.outputBucket, r.value.blobPath).None?
  {
    match BuildDeck(req, env)
    case Failure(e) => Failure(e)
    case Success(deck) => Publish(req, deck, env)
  }

  /** The last path segment of a name. */
  function LastSegment(path: string): (r: string)
    ensures '/' !in r
    ensures |r| <= |path| && r == path[|path| - |r|..]
  {
    if |path| == 0 then []
    else if path[|path| - 1] == '/' then []
    else
      var init := LastSegment(path[..|path| - 1]);
      assert '/' !in init + [path[|path| - 1]];
      init + [path[|path| - 1]]
  }

  lemma {:induction false} LastSegmentOfConcat(a: string, b: string)
    requires '/' !in b
    ensures LastSegment(a + "/" + b) == b
    decreases |b|
  {
    var s := a + "/" + b;
    if |b| > 0 {
      assert s[..|s| - 1] == a + "/" + b[..|b| - 1];
      assert '/' !in b[..|b| - 1];
      LastSegmentOfConcat(a, b[..|b| - 1]);
      assert b == b[..|b| - 1] + [b[|b| - 1]];
    }
  }

  /** Since the file name may not contain a slash, the object's own name
      (after its last slash) is the hash and the file name, and the file
      name is its tail: the collection can be nested, but never leaks into
      the stored file's name. */
  lemma StoredName(req: GenerateRequest, env: PresentationEnv)
    requires GeneratePresentation(req, env).Success?
    requires '/' !in env.sha256Hex(env.save(GeneratePresentation(req, env).value.deck))
    ensures var g := GeneratePresentation(req, env).value;
      var h12 := Hash12(env.sha256Hex(env.save(g.deck)));
      && LastSegment(g.blobPath) == h12 + "_" + req.outputFilename
      && EndsWith(g.blobPath, req.outputFilename)
      && g.blobPath[..|req.collection| + 1] == req.collection + "/"
  {
    var g := GeneratePresentation(req, env).value;
    var hex := env.sha256Hex(env.save(g.deck));
    var h12 := Hash12(hex);
    assert RequestError(req).None?;
    assert '/' !in h12 by {
      forall i | 0 <= i < |h12| ensures h12[i] != '/' { assert h12[i] == hex[i]; }
    }
    assert g.blobPath == BlobPath(req.collection, h12, req.outputFilename);
    BlobPathShape(req.collection, h12, req.outputFilename);
  }

  /** An object name built from slash-free parts ends in those parts. */
  lemma BlobPathShape(collection: string, h12: string, filename: string)
    requires '/' !in h12 && '/' !in filename
    ensures var path := BlobPath(collection, h12, filename);
      && LastSegment(path) == h12 + "_" + filename
      && EndsWith(path, filename)
      && path[..|collection| + 1] == collection + "/"
  {
    var tail := h12 + "_" + filename;
    assert '/' !in tail;
    assert BlobPath(collection, h12, filename) == collection + "/" + tail;
    LastSegmentOfConcat(collection, tail);
  }

  /** The photo slides depend only on the good downloads: adding a URL that
      answers with another status than 200 changes nothing. */
  lemma {:induction false} SkippedUrlChangesNothing(urls: seq<string>, env: PresentationEnv, bad: string)
    requires Skipped(env.fetch(bad))
    ensures GoodImages(urls + [bad], env) == GoodImages(urls, env)
    decreases |urls|
  {
    if |urls| == 0 {
      assert GoodImages([bad], env) == [] + GoodImages([bad][1..], env);
    } else {
      assert (urls + [bad])[1..] == urls[1..] + [bad];
      SkippedUrlChangesNothing(urls[1..], env, bad);
    }
  }
}
