/** Replacing placeholders by photos.

    `ReplacementPlan` is the branch `_replace_shape_with_picture` takes for
    one shape, with the geometry it computes; the document edits themselves
    are left abstract. `ReplacePlaceholders` is the loop of
    `vervang_placeholder_fotos`: placeholder `i` (in sorted order) gets
    photo `i`, photos repeat cyclically when requested, and only successful
    replacements are counted. */
module Replacement {
  import opened Wrappers
  import opened Geometry
  import opened Slides
  import opened Placeholders

  // ---------------------------------------------------------------------
  // One shape
  // ---------------------------------------------------------------------

  /** The picture that goes in: the photo as is, or cropped first. */
  datatype ImageSource = Original | Cropped(box: CropBox)

  /** The three ways a shape receives its picture. */
  datatype Action =
    | InsertIntoPlaceholder(source: ImageSource)
    | AddPicture(source: ImageSource, at: Bounds)
    | SetPictureFill(source: ImageSource)

  predicate IsPicturePlaceholder(sh: Shape) {
    sh.Leaf? && sh.placeholder == Some(PicturePh)
  }

  predicate IsPictureShape(sh: Shape) {
    sh.Leaf? && sh.picture
  }

  predicate HasPictureFill(sh: Shape) {
    sh.Leaf? && sh.pictureFill
  }

  /** Whether the two library calls made inside a `try` raise:
      `insert_picture` on a picture placeholder and `fill.user_picture` on
      a picture fill. A raising call falls through to the next case. */
  datatype Library = Library(insertRaises: bool, fillRaises: bool)

  /** The picture placeholder takes the photo: the crop (outside fit mode)
      succeeds and `insert_picture` does not raise. */
  predicate InsertGoesThrough(sh: Shape, mode: string, imgW: nat, imgH: nat, lib: Library) {
    IsPicturePlaceholder(sh) && !lib.insertRaises
    && (mode == "fit" || CoverCrop(imgW, imgH, sh.bounds.width, sh.bounds.height).Success?)
  }

  /** The picture fill takes the photo: the crop (in cover mode) succeeds
      and `fill.user_picture` does not raise. */
  predicate FillGoesThrough(sh: Shape, mode: string, imgW: nat, imgH: nat, lib: Library) {
    HasPictureFill(sh) && !lib.fillRaises
    && (mode != "cover" || CoverCrop(imgW, imgH, sh.bounds.width, sh.bounds.height).Success?)
  }

  /** The action for a shape in `mode`, given the photo's pixel size and
      the outcome of the guarded library calls. A picture placeholder and a
      picture fill catch their exceptions (a failing crop or library call
      falls through to the next case); a plain picture and the final
      fallback do not, so a failing geometry computation there fails the
      replacement. Only `"fit"` selects contain; any other mode crops,
      except for a picture fill, which crops only in mode `"cover"`. */
  function ReplacementPlan(sh: Shape, mode: string, imgW: nat, imgH: nat, lib: Library): (r: Result<Action, GeometryError>)
    // "fit" never crops; "cover" always does
    ensures r.Success? && mode == "fit" ==> r.value.source == Original
    ensures r.Success? && mode == "cover" ==> r.value.source.Cropped?
    // a cropped picture uses the crop box for the shape's own size
    ensures r.Success? && r.value.source.Cropped? ==>
      CoverCrop(imgW, imgH, sh.bounds.width, sh.bounds.height) == Success(r.value.source.box)
    // outside fit mode, a new picture takes exactly the shape's bounds
    ensures r.Success? && r.value.AddPicture? && mode != "fit" ==> r.value.at == sh.bounds
    // in fit mode, it is the centred contain placement
    ensures r.Success? && r.value.AddPicture? && mode == "fit" ==>
      FitPlacement(sh.bounds, imgW, imgH) == Success(r.value.at)
    // which branch is taken, in the order of the source: a picture
    // placeholder first, then a plain picture, then a picture fill, then
    // the fallback
    ensures InsertGoesThrough(sh, mode, imgW, imgH, lib) ==> r.Success? && r.value.InsertIntoPlaceholder?
    ensures !InsertGoesThrough(sh, mode, imgW, imgH, lib) && !IsPictureShape(sh) && FillGoesThrough(sh, mode, imgW, imgH, lib) ==>
      r.Success? && r.value.SetPictureFill?
    ensures !InsertGoesThrough(sh, mode, imgW, imgH, lib) && (IsPictureShape(sh) || !FillGoesThrough(sh, mode, imgW, imgH, lib)) ==>
      && (r.Success? ==> r.value.AddPicture?)
      && (r.Success? <==> if mode == "fit" then FitPlacement(sh.bounds, imgW, imgH).Success?
                          else CoverCrop(imgW, imgH, sh.bounds.width, sh.bounds.height).Success?)
  {
    var crop := CoverCrop(imgW, imgH, sh.bounds.width, sh.bounds.height);
    if InsertGoesThrough(sh, mode, imgW, imgH, lib) then
      Success(InsertIntoPlaceholder(if mode == "fit" then Original else Cropped(crop.value)))
    else if IsPictureShape(sh) then
      Fallback(sh, mode, imgW, imgH)
    else if FillGoesThrough(sh, mode, imgW, imgH, lib) then
      Success(SetPictureFill(if mode == "cover" then Cropped(crop.value) else Original))
    else
      Fallback(sh, mode, imgW, imgH)
  }

  /** Remove the shape and add a picture: contained in fit mode, the
      cropped photo on the full bounds otherwise. */
  function Fallback(sh: Shape, mode: string, imgW: nat, imgH: nat): Result<Action, GeometryError> {
    if mode == "fit" then
      match FitPlacement(sh.bounds, imgW, imgH)
      case Failure(e) => Failure(e)
      case Success(at) => Success(AddPicture(Original, at))
    else
      match CoverCrop(imgW, imgH, sh.bounds.width, sh.bounds.height)
      case Failure(e) => Failure(e)
      case Success(box) => Success(AddPicture(Cropped(box), sh.bounds))
  }

  /** Outside fit mode a replacement fails exactly when the crop fails,
      unless a picture fill takes the photo uncropped; in fit mode only a
      photo with a zero side can fail, and only where a new picture is
      added. */
  lemma PlanFailsOnlyOnGeometry(sh: Shape, mode: string, imgW: nat, imgH: nat, lib: Library)
    ensures mode != "fit" ==>
      (ReplacementPlan(sh, mode, imgW, imgH, lib).Success? <==>
       CoverCrop(imgW, imgH, sh.bounds.width, sh.bounds.height).Success?
       || (HasPictureFill(sh) && !lib.fillRaises && !IsPictureShape(sh) && mode != "cover"))
    ensures mode == "fit" ==>
      (ReplacementPlan(sh, mode, imgW, imgH, lib).Success? <==>
       (IsPicturePlaceholder(sh) && !lib.insertRaises)
       || (HasPictureFill(sh) && !lib.fillRaises && !IsPictureShape(sh)) || (imgW > 0 && imgH > 0))
  {
  }

  // ---------------------------------------------------------------------
  // The assignment loop
  // ---------------------------------------------------------------------

  /** The photo (by position) for placeholder `i` out of `n > 0` photos:
      photo `i` while there are enough, then `i mod n` when repeating,
      otherwise none (the placeholder is skipped). */
  function PhotoFor(i: nat, n: nat, repeat: bool): (r: Option<nat>)
    requires n > 0
    ensures r.Some? ==> r.value < n
  {
    if i < n then Some(i) else if repeat then Some(i % n) else None
  }

  /** Repeating cycles through the photos: placeholder `i` gets photo `i mod n`. */
  lemma PhotoForRepeats(i: nat, n: nat)
    requires n > 0
    ensures PhotoFor(i, n, true) == Some(i % n)
  {
  }

  /** Without repeating, exactly the first `n` placeholders get a photo,
      each the photo at its own position. */
  lemma PhotoForWithoutRepeat(i: nat, n: nat)
    requires n > 0
    ensures PhotoFor(i, n, false).Some? <==> i < n
    ensures i < n ==> PhotoFor(i, n, false) == Some(i)
  {
  }

  /** Whether replacing placeholder `i` succeeds: it must get a photo and
      the replacement, as judged by `succeeds`, must go through. */
  predicate Replaced<P>(placeholders: seq<Match>, photos: seq<P>, repeat: bool,
                        succeeds: (Shape, P) -> bool, i: nat)
    requires i < |placeholders| && |photos| > 0
  {
    var p := PhotoFor(i, |photos|, repeat);
    p.Some? && succeeds(placeholders[i].shape, photos[p.value])
  }

  /** The number of successful replacements among the first `upto`
      placeholders. */
  function ReplacedAmong<P>(placeholders: seq<Match>, photos: seq<P>, repeat: bool,
                            succeeds: (Shape, P) -> bool, upto: nat): (r: nat)
    requires upto <= |placeholders| && |photos| > 0
    ensures r <= upto
    ensures !repeat ==> r <= |photos|
    // every one counted exactly when every one went through: a failed
    // replacement is not counted
    ensures r == upto <==> forall i :: 0 <= i < upto ==> Replaced(placeholders, photos, repeat, succeeds, i)
  {
    if upto == 0 then 0
    else
      var before := ReplacedAmong(placeholders, photos, repeat, succeeds, upto - 1);
      assert !repeat && upto > |photos| ==> !Replaced(placeholders, photos, repeat, succeeds, upto - 1);
      before + (if Replaced(placeholders, photos, repeat, succeeds, upto - 1) then 1 else 0)
  }

  /** What `vervang_placeholder_fotos` returns, as a specification: zero
      without placeholders or without photos, else the number of
      successful replacements. */
  function ReplacedCount<P>(placeholders: seq<Match>, photos: seq<P>, repeat: bool,
                            succeeds: (Shape, P) -> bool): (r: nat)
    ensures |placeholders| == 0 || |photos| == 0 ==> r == 0
    ensures r <= |placeholders|
    ensures !repeat ==> r <= |photos|
    // with photos, every placeholder is counted exactly when each one got a
    // photo and its replacement went through
    ensures |photos| > 0 ==>
      (r == |placeholders| <==> forall i :: 0 <= i < |placeholders| ==> Replaced(placeholders, photos, repeat, succeeds, i))
  {
    if |placeholders| == 0 || |photos| == 0 then 0
    else ReplacedAmong(placeholders, photos, repeat, succeeds, |placeholders|)
  }

  /** How many of the first `upto` placeholders are given a photo. */
  function TriedAmong(n: nat, repeat: bool, upto: nat): nat {
    if repeat || upto <= n then upto else n
  }

  /** Placeholder `i`, if it is given a photo, takes it. */
  predicate TriedSucceeds<P>(placeholders: seq<Match>, photos: seq<P>, repeat: bool,
                             succeeds: (Shape, P) -> bool, i: nat)
    requires i < |placeholders| && |photos| > 0
  {
    var p := PhotoFor(i, |photos|, repeat);
    p.Some? ==> succeeds(placeholders[i].shape, photos[p.value])
  }

  /** The count never exceeds the placeholders that are given a photo, and
      reaches it exactly when each of them takes its photo. */
  lemma {:induction false} ReplacedAmongTried<P>(placeholders: seq<Match>, photos: seq<P>, repeat: bool,
                                                 succeeds: (Shape, P) -> bool, upto: nat)
    requires upto <= |placeholders| && |photos| > 0
    ensures ReplacedAmong(placeholders, photos, repeat, succeeds, upto) <= TriedAmong(|photos|, repeat, upto)
    ensures ReplacedAmong(placeholders, photos, repeat, succeeds, upto) == TriedAmong(|photos|, repeat, upto)
      <==> forall i :: 0 <= i < upto ==> TriedSucceeds(placeholders, photos, repeat, succeeds, i)
    decreases upto
  {
    if upto > 0 {
      var k := upto - 1;
      ReplacedAmongTried(placeholders, photos, repeat, succeeds, k);
      var before := ReplacedAmong(placeholders, photos, repeat, succeeds, k);
      var tried := PhotoFor(k, |photos|, repeat).Some?;
      assert ReplacedAmong(placeholders, photos, repeat, succeeds, upto)
          == before + (if Replaced(placeholders, photos, repeat, succeeds, k) then 1 else 0);
      assert TriedAmong(|photos|, repeat, upto) == TriedAmong(|photos|, repeat, k) + (if tried then 1 else 0);
      assert Replaced(placeholders, photos, repeat, succeeds, k) ==> tried;
      assert TriedSucceeds(placeholders, photos, repeat, succeeds, k)
        <==> (tried ==> Replaced(placeholders, photos, repeat, succeeds, k));
    }
  }

  /** The count is full, every placeholder when repeating and as many as
      there are photos otherwise, exactly when every placeholder that is
      given a photo takes it. */
  lemma AllSucceedCount<P>(placeholders: seq<Match>, photos: seq<P>, repeat: bool,
                           succeeds: (Shape, P) -> bool)
    requires |photos| > 0
    ensures ReplacedCount(placeholders, photos, repeat, succeeds) <= TriedAmong(|photos|, repeat, |placeholders|)
    ensures ReplacedCount(placeholders, photos, repeat, succeeds) ==
      (if repeat || |placeholders| <= |photos| then |placeholders| else |photos|)
      <==> forall i :: 0 <= i < |placeholders| ==> TriedSucceeds(placeholders, photos, repeat, succeeds, i)
  {
    if |placeholders| > 0 {
      ReplacedAmongTried(placeholders, photos, repeat, succeeds, |placeholders|);
    }
  }

  /** Without repeating, when each of the first `n` placeholders takes
      its photo, the count stays at `n` however many placeholders follow. */
  lemma {:induction false} PrefixCount<P>(placeholders: seq<Match>, photos: seq<P>,
                                         succeeds: (Shape, P) -> bool, upto: nat)
    requires |photos| > 0 && |photos| <= upto <= |placeholders|
    requires forall i :: 0 <= i < |photos| ==> succeeds(placeholders[i].shape, photos[i])
    ensures ReplacedAmong(placeholders, photos, false, succeeds, upto) == |photos|
  {
    forall i | 0 <= i < upto ensures TriedSucceeds(placeholders, photos, false, succeeds, i) {
      if i < |photos| {
        assert PhotoFor(i, |photos|, false) == Some(i);
      }
    }
    ReplacedAmongTried(placeholders, photos, false, succeeds, upto);
  }

  /** The loop of `vervang_placeholder_fotos`: walks the sorted
      placeholders and counts the replacements that went through. It also
      returns the photo tried for each placeholder (`None` when skipped). */
  method ReplacePlaceholders<P>(placeholders: seq<Match>, photos: seq<P>, repeat: bool,
                                succeeds: (Shape, P) -> bool)
    returns (replaced: nat, tried: seq<Option<P>>)
    ensures replaced == ReplacedCount(placeholders, photos, repeat, succeeds)
    ensures |photos| > 0 ==> |tried| == |placeholders|
    ensures |photos| > 0 ==> forall i :: 0 <= i < |tried| ==>
      tried[i] == (if i < |photos| then Some(photos[i]) else if repeat then Some(photos[i % |photos|]) else None)
  {
    tried := [];
    if |placeholders| == 0 || |photos| == 0 {
      return 0, tried;
    }
    var total := |photos|;
    replaced := 0;
    var i := 0;
    while i < |placeholders|
      invariant 0 <= i <= |placeholders|
      invariant |tried| == i
      invariant replaced == ReplacedAmong(placeholders, photos, repeat, succeeds, i)
      invariant forall j :: 0 <= j < i ==>
        tried[j] == (if j < total then Some(photos[j]) else if repeat then Some(photos[j % total]) else None)
    {
      var photo: P;
      if i < total {
        photo := photos[i];
      } else if repeat {
        photo := photos[i % total];
      } else {
        tried := tried + [None];
        i := i + 1;
        continue;
      }
      tried := tried + [Some(photo)];
      if succeeds(placeholders[i].shape, photo) {
        replaced := replaced + 1;
      }
      i := i + 1;
    }
  }
}
