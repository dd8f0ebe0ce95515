# Memorial presentation builder — a Dafny model

The system fills a PowerPoint template with photos for a memorial service.

- **Build (`maak_presentatie_automatisch`).** It collects photos, either downloaded from URLs or taken from local uploads and ZIP files, and keeps only `.jpg`, `.jpeg` and `.png`. It writes the name and dates on the template's first slide. Then it replaces every shape named `foto_<n>` with a photo, in order of `n`. It either crops the photo to the shape ("cover") or fits it inside the shape ("fit").
- **`POST /generate`.** An HTTP endpoint in front of that build. It checks an API key and picks one of three templates from a storage bucket.
- **`POST /v1/generate-presentation`.** A second, stand-alone endpoint. It builds a simple deck: a title slide with the name and Dutch long dates, then one picture slide per photo. It stores the deck under a hash-derived name.

The model is a set of pure functions over immutable datatypes.

- **Document.** Slides, a tree of shapes, and photo pixel sizes are datatypes.
- **Outside world.** Every effect is an input of the function that uses it:
  - the network, the file system and the storage bucket;
  - python-pptx and PIL;
  - SHA-256.
- **Errors.** Python exceptions and HTTP errors are `Result` failures carrying the message the source produces.

Modules:

- `Wrappers`: `Option` and `Result`.
- `Text`: digits, `int()` and `str(n)`, ASCII lower case, `str.endswith`, `str.strip() == ""`, `join`, and truthiness.
- `Geometry`: the cover crop box, the contain size, and the centred fit placement.
- `Slides`: the shape tree and the pre-order walk over all shapes of all slides.
- `Placeholders`: the `^foto_(\d+)$` name match and the stable sort by index.
- `Replacement`: the branch `_replace_shape_with_picture` takes, and the photo-assignment loop of `vervang_placeholder_fotos`.
- `TitleSlide`: `zet_titel_dia`.
- `Orchestrator`: `maak_presentatie_automatisch` and its photo sources.
- `DutchDate`: `_fmt_date`, with `datetime.strptime`'s field rules.
- `PresentationApi`: `api/presentation.py`.
- `TemplateApi`: `api/main.py`.

Some literal characters are kept exactly as the source has them:

- **`/generate` date separator.** It is `" "`, U+00E2, U+20AC, U+201C, `" "`. These are the bytes of an en dash read as cp1252.
- **`/v1` subtitle.** It joins the two dates with an em dash, U+2014.
- **"no valid photos" message.** It is spelled with U+2019.

## Model

| member | source | states |
|---|---|---|
| Geometry.CoverCrop | scripts/maak_presentatie.py:105-123 | Fails with a division by zero exactly when the target height or image height is 0, or when the image is not wider and the target width is 0. Otherwise the box lies inside the image. A wider image keeps its full height, and its width is floor(tw·h/th). Otherwise it keeps its full width, and its height is floor(w·th/tw). The box is centred: the left margin is at most the right margin, which is at most one more. The same holds vertically. |
| Geometry.CoverCropOfMatchingRatio | scripts/maak_presentatie.py:114-123 | An image that already has the target's aspect ratio is not cropped at all. |
| Geometry.ContainSize | scripts/maak_presentatie.py:93-102 | Fails exactly when an image side is 0. Both sides are at least 1. Inside a box of at least 1×1, neither side exceeds the box. The limiting side equals the box side, and the other side is the floor of the scaled side, but at least 1. |
| Geometry.ContainOfMatchingRatio | scripts/maak_presentatie.py:99-102 | A box with the image's own aspect ratio is filled exactly. |
| Geometry.FitPlacement | scripts/maak_presentatie.py:201-209 | The contain size is centred in the shape's bounds by floor division: the far margin equals the near one or exceeds it by one. When the bounds are at least 1×1, both offsets are non-negative and the picture stays inside the bounds. |
| Slides.Flatten | scripts/maak_presentatie.py:133-142 | The walk visits every given shape, and a run of shapes starts with its first shape. |
| Slides.FlattenConcat | scripts/maak_presentatie.py:137-142 | Walking two runs of sibling shapes walks the first run completely, then the second. |
| Slides.FlattenAround | scripts/maak_presentatie.py:137-142 | Every shape is visited right after its earlier siblings' subtrees. It is followed at once by its own subtree, then by its later siblings' subtrees (pre-order). |
| Slides.FlattenWithoutGroups | scripts/maak_presentatie.py:137-142 | Without groups the walk is the slide's shape list itself. |
| Slides.AllShapesConcat | scripts/maak_presentatie.py:151-152 | The shapes of earlier slides come before those of later slides. |
| Placeholders.PlaceholderIndex | scripts/maak_presentatie.py:130 | A recognised name has at least six characters and begins with `foto_` in some letter case. |
| Placeholders.PlaceholderIndexMeaning | scripts/maak_presentatie.py:130-158 | A name is recognised if and only if it is `foto_` in any case, then one or more digits, then optionally one final line break. The index is the digits' decimal value. |
| Placeholders.PrefixedDigits | scripts/maak_presentatie.py:130-158 | Any spelling of the prefix followed by any digit string is recognised with the digits' value, with or without a final line break. |
| Placeholders.PlaceholderNameRoundTrip | scripts/maak_presentatie.py:130-158 | The name for index n is recognised with index n again, whatever the case of the prefix and the number of leading zeros. |
| Placeholders.Scan | scripts/maak_presentatie.py:150-159 | A match is produced for a shape if and only if the shape has a non-empty name that is recognised, and the match carries that name's index. |
| Placeholders.WithIndexConcat | scripts/maak_presentatie.py:161 | Selecting the matches with one index distributes over concatenation. |
| Placeholders.WithIndexMember | scripts/maak_presentatie.py:161 | Every match is among those selected for its own index. |
| Placeholders.WithIndexElements | scripts/maak_presentatie.py:161 | The selection for index k holds only matches with index k. |
| Placeholders.Insert | scripts/maak_presentatie.py:161 | Inserting into a sorted list keeps it sorted and adds exactly the new match. |
| Placeholders.InsertWithIndex | scripts/maak_presentatie.py:161 | An insertion puts the new match after all matches with the same index. |
| Placeholders.SortByIndex | scripts/maak_presentatie.py:161 | The sort by index is ascending and a permutation. It is stable: for every index, the matches with that index keep their original order. |
| Placeholders.StableSortUnique | scripts/maak_presentatie.py:161 | Two sorted lists that agree on the ordered matches of every index are equal, so the stable sort's result is unique. |
| Placeholders.CollectPlaceholders | scripts/maak_presentatie.py:145-162 | The collected placeholders are sorted by index, and equal indices keep traversal order. They are exactly the matches of all shapes of all slides, and each carries its shape's own index. |
| Replacement.ReplacementPlan | scripts/maak_presentatie.py:165-269 | The branches are tried in the source's order. A picture placeholder takes the photo whenever its crop (outside fit mode) succeeds and `insert_picture` does not raise. Otherwise a plain picture is replaced by a new picture. Otherwise a picture fill takes the photo whenever its crop (in cover mode) succeeds and `fill.user_picture` does not raise. Everything else falls back to a new picture, which fails exactly when its geometry fails. Fit never crops and cover always does; a crop uses the cover box of the shape's own size. A new picture takes the shape's bounds, or the centred contain placement in fit mode. |
| Replacement.PlanFailsOnlyOnGeometry | scripts/maak_presentatie.py:174-243 | Outside fit mode, a replacement fails if and only if the crop fails, unless a picture fill takes the photo uncropped. In fit mode it fails if and only if a new picture would be added for a photo with a zero side, which happens when neither the placeholder nor the fill takes the photo. |
| Replacement.PhotoFor | scripts/maak_presentatie.py:294-302 | The chosen photo always exists. |
| Replacement.PhotoForRepeats | scripts/maak_presentatie.py:295-299 | When repeating, placeholder i gets photo i mod n. |
| Replacement.PhotoForWithoutRepeat | scripts/maak_presentatie.py:295-302 | Without repeating, placeholder i gets a photo if and only if i < n, and then it gets photo i. |
| Replacement.ReplacedAmong | scripts/maak_presentatie.py:294-327 | The successful replacements among the first k placeholders number at most k, and at most the number of photos without repeating. They number exactly k if and only if each of the k placeholders got a photo and its replacement went through, so a failed replacement is never counted. |
| Replacement.ReplacedCount | scripts/maak_presentatie.py:282-330 | The count is 0 without placeholders or without photos. It never exceeds the number of placeholders, nor the number of photos without repeating. With photos, it equals the number of placeholders if and only if every placeholder got a photo and its replacement went through. |
| Replacement.ReplacedAmongTried | scripts/maak_presentatie.py:294-327 | Among the first k placeholders, the count never exceeds those given a photo, and equals it exactly when each of them takes its photo. |
| Replacement.AllSucceedCount | scripts/maak_presentatie.py:292-330 | The count never exceeds the number of placeholders given a photo. It is full (every placeholder when repeating, min(placeholders, photos) otherwise) if and only if each placeholder given a photo takes it. |
| Replacement.PrefixCount | scripts/maak_presentatie.py:295-302 | Without repeating, when each of the first n placeholders takes its own photo, the count is n however many placeholders follow. |
| Replacement.ReplacePlaceholders | scripts/maak_presentatie.py:272-330 | The loop returns the specified count. It tries photo i for placeholder i while i < n, then photo i mod n when repeating, and tries nothing otherwise. |
| TitleSlide.LastWhere | scripts/maak_presentatie.py:349-357 | The found shape satisfies the test and no later shape does. Nothing is found only when no shape satisfies it. |
| TitleSlide.SubtitleTextCases | scripts/maak_presentatie.py:363-371 | The subtitle is the dates and the closing line joined by a line break. It is either one alone when only that one is non-empty, or empty when neither is. |
| TitleSlide.WriteText | scripts/maak_presentatie.py:359-371 | Only the chosen shape changes, and only if it has a text frame. Its text becomes the given text. |
| TitleSlide.FillTitleShapes | scripts/maak_presentatie.py:345-371 | Only the last title and the last subtitle placeholder change, and only in their text. The title gets the name and the subtitle gets the given lines, each only if it has a text frame. |
| TitleSlide.SetTitleSlide | scripts/maak_presentatie.py:337-371 | With no slides nothing happens. Otherwise only the first slide changes. Its shapes are filled as for the title shapes, with the non-empty subtitle lines joined by line breaks. |
| TitleSlide.FillTitleShapesIdempotent | scripts/maak_presentatie.py:345-371 | Filling the title shapes twice with the same text is the same as filling them once. |
| TitleSlide.SetTitleSlideIdempotent | scripts/maak_presentatie.py:337-371 | Filling the title slide twice with the same text is the same as filling it once. |
| TitleSlide.SamePlaceholders | scripts/maak_presentatie.py:349-357 | Changing only text keeps which shapes are title or subtitle placeholders, so the search finds the same positions. |
| Orchestrator.ImageFileIgnoresCase | scripts/maak_presentatie.py:43 | Whether a name is a photo file does not depend on the letter case of its extension. |
| Orchestrator.JoinPath | scripts/maak_presentatie.py:44 | The joined path ends with the joined name. |
| Orchestrator.Basename | scripts/maak_presentatie.py:425 | The base name contains no slash and is a suffix of the path. |
| Orchestrator.BasenameOfImageFile | scripts/maak_presentatie.py:424-426 | The base name of a path with a photo extension has that extension too, so a copied upload keeps it. |
| Orchestrator.DownloadPath | scripts/maak_presentatie.py:64-69 | A downloaded photo is saved under a name with a photo extension. |
| Orchestrator.DownloadedPhotos | scripts/maak_presentatie.py:48-86 | The downloads are at most one per URL and all have a photo extension. There are none exactly when no URL could be downloaded. |
| Orchestrator.DownloadedPhotosKept | scripts/maak_presentatie.py:59-73 | The downloads are the URLs of `enumerate(urls, start=1)` that were downloaded, in URL order, each replaced by the `base44_foto_<i>` path it was saved under. |
| Orchestrator.DownloadedPhotosMembers | scripts/maak_presentatie.py:59-73 | A path is a download if and only if some URL, numbered from 1, was downloaded and saved under that path with its extension. |
| Orchestrator.CollectPhotoFiles | scripts/maak_presentatie.py:38-45 | A path is collected if and only if it is a listed file with a `.jpg`, `.jpeg` or `.png` extension, in any letter case, joined to its directory. Every collected path has a photo extension. |
| Orchestrator.CollectPhotoFilesConcat | scripts/maak_presentatie.py:41-44 | Collecting keeps the listing's order: a listing followed by another yields the first one's paths, then the second one's. |
| Orchestrator.CollectOneFile | scripts/maak_presentatie.py:42-44 | A single listed file yields its joined path exactly when it has a photo extension. |
| Orchestrator.CopiedUploads | scripts/maak_presentatie.py:422-427 | There are at most as many copies as uploads, each with a photo extension. There are none exactly when no upload has a photo extension. |
| Orchestrator.CopiedUploadsKept | scripts/maak_presentatie.py:422-427 | The copies are the uploads with a photo extension, in upload order, each replaced by its base name in the temporary directory. |
| Orchestrator.CopiedUploadsMembers | scripts/maak_presentatie.py:422-427 | A path is a copy if and only if it is the base name of an upload with a photo extension, joined to the temporary directory. |
| Orchestrator.CopiedUploadsConcat | scripts/maak_presentatie.py:423-427 | The copies keep the order of the uploads. |
| Orchestrator.CopyOneUpload | scripts/maak_presentatie.py:424-426 | A single upload is copied, under its base name in the temporary directory, exactly when it has a photo extension. |
| Orchestrator.SelectPhotos | scripts/maak_presentatie.py:409-429 | Every selected path has a photo extension. The downloads are used whenever they yielded something. Without uploads, the downloads are all there is. With uploads and nothing downloaded, the photos are the files found after extraction when some upload is a ZIP, and otherwise the copies of the loose photos. |
| Orchestrator.UploadPhotos | scripts/maak_presentatie.py:414-427 | With uploads and nothing downloaded, the selected paths are exactly the extracted photo files when some upload is a ZIP, and otherwise exactly the copied photo uploads. The list is non-empty exactly when such a file or upload exists. |
| Orchestrator.Build | scripts/maak_presentatie.py:378-476 | A missing template is reported first. No input at all comes next. An empty photo list comes after that. A successful build has photos, all with a photo extension. The title is written if and only if the name is non-empty. The placeholders are those of the filled presentation. The count of replacements is bounded as in `vervang_placeholder_fotos`. |
| Orchestrator.DownloadsTakePrecedence | scripts/maak_presentatie.py:409-415 | Once one URL was downloaded, the build succeeds with the downloads and the uploads are ignored. |
| Orchestrator.UploadsWhenNothingDownloaded | scripts/maak_presentatie.py:414-430 | With nothing downloaded, a build from uploads succeeds exactly when the extracted files (some upload is a ZIP) or the uploads (otherwise) include a photo. Its photos are then exactly those files, or exactly the copies. |
| DutchDate.ParseYear | api/presentation.py:35 | A four-digit year field is at most 9999. |
| DutchDate.ParseMonth | api/presentation.py:35 | An accepted month field names a month from 1 to 12. |
| DutchDate.ParseDay | api/presentation.py:35 | An accepted day field names a day from 1 to 31. |
| DutchDate.FirstIndexOf | api/presentation.py:35 | The position found holds the character, with no earlier occurrence. Nothing is found only when the character does not occur. |
| DutchDate.ParseIsoOfFields | api/presentation.py:35 | A string with a four-digit year field and a dash-free month field parses exactly when each field parses and together they name a calendar date. |
| DutchDate.ParseIsoDate | api/presentation.py:34-35 | Every parsed date is a calendar date with year 1 to 9999. |
| DutchDate.FormatDate | api/presentation.py:32-40 | The result is None exactly for None or an empty string, and is never empty otherwise. A string that does not parse as a date comes back unchanged. A date comes back as day, Dutch month name and year. |
| DutchDate.Padded | api/presentation.py:35 | The padded numeral has the given width, only digits, and the number's value. |
| DutchDate.FormatValidIsoDate | api/presentation.py:35-38 | Every calendar date written as `YYYY-MM-DD` becomes "day month year" in Dutch, without leading zeros. |
| DutchDate.FormatImpossibleDateUnchanged | api/presentation.py:34-40 | A well-formed `YYYY-MM-DD` string naming a day that does not exist is returned unchanged. Examples are 30 February, 29 February outside a leap year, and year 0. |
| DutchDate.LeapDay | api/presentation.py:34-40 | 29 February is formatted in leap years and returned unchanged in other years. |
| DutchDate.SeventhOfMarch1951 | api/presentation.py:37-38 | 7 March 1951 is a calendar date and reads "7 maart 1951". |
| DutchDate.FormatExample | api/presentation.py:35-38 | `1951-03-07` becomes `7 maart 1951`. |
| DutchDate.ShortFieldExample | api/presentation.py:35-38 | `1951-3- 7` is accepted as well, as `strptime` accepts single-digit and space-padded fields. |
| DutchDate.BadMonthExample | api/presentation.py:34-40 | Month 13 is not a date, so the string comes back unchanged. |
| DutchDate.TrailingTextExample | api/presentation.py:34-40 | Trailing text after a date makes the whole string come back unchanged. |
| PresentationApi.LifeLine | api/presentation.py:55-64 | There is a subtitle line if and only if a date is given. It reads "Geboren X — Overleden Y", "Overleden Y" or "Geboren X". |
| PresentationApi.TitleSlide | api/presentation.py:42-67 | The title slide has a title box if and only if the title is non-empty. It has a subtitle box if and only if either date is non-empty, holding the line for the formatted dates. |
| PresentationApi.LifeLineMentionsDates | api/presentation.py:59-64 | The line starts with "Geboren " followed by the birth date if and only if a birth date is given. It ends with "Overleden " and the death date whenever a death date is given. |
| PresentationApi.GoodImages | api/presentation.py:98-103 | There is at most one image per URL. |
| PresentationApi.PhotoSlides | api/presentation.py:98-103 | The loop succeeds if and only if no URL's download raises and no picture fails. It then holds one slide per status-200 download, in URL order. Otherwise it fails with the message of the first failing URL. |
| PresentationApi.SkippedUrlChangesNothing | api/presentation.py:74-103 | A URL answering with a status other than 200 adds no slide. |
| PresentationApi.Hash12 | api/presentation.py:113 | The hash prefix is the first twelve characters of the hex digest, or all of it if shorter. |
| PresentationApi.RequestError | api/presentation.py:26-93 | An empty photo list is rejected with 422. The file name is checked next: 400 if it holds a slash or is blank. The collection is checked last: 400 if blank. The request passes only when none of these applies. |
| PresentationApi.Publish | api/presentation.py:80-117 | The deck is stored as collection/hash12_filename. The call succeeds if and only if the upload raises nothing, and the URL then names the bucket and that object. A failed upload becomes a 500 with its message. |
| PresentationApi.PhotoDeck | api/presentation.py:95-106 | An exception in the photo loop becomes a 500 with its message. Otherwise a deck without photo slides is a 400, and only then. A successful deck is the title slide followed by one slide per good photo, in URL order. |
| PresentationApi.BuildDeck | api/presentation.py:88-122 | The request checks come first, and their errors pass through unchanged. A valid request gets the photo deck. Every error is a 400, 422 or 500. |
| PresentationApi.GeneratePresentation | api/presentation.py:87-122 | The deck's errors pass through unchanged, and a built deck is published. A success holds the built deck, stored under collection/hash12_filename of that deck's hash, with a URL naming the bucket and object, after an upload that raised nothing. |
| PresentationApi.LastSegment | api/presentation.py:114 | The last segment contains no slash and is a suffix of the path. |
| PresentationApi.LastSegmentOfConcat | api/presentation.py:114 | The last segment of `a/b`, for a slash-free b, is b. |
| PresentationApi.BlobPathShape | api/presentation.py:114 | For a slash-free hash prefix and file name, the object's own name is the prefix, an underscore and the file name. The object name ends with the file name and starts with the collection and a slash. |
| PresentationApi.StoredName | api/presentation.py:113-114 | The stored object's own name, after its last slash, is the hash prefix, an underscore and the file name. The object name starts with the collection and a slash. |
| TemplateApi.TemplateName | api/main.py:27-39 | Exactly `Rustig`, `Bloemrijk` and `Modern` are known, and their template is `Sjabloon` followed by the id. |
| TemplateApi.TemplatePath | api/main.py:26-52 | An unknown id gives 400 before any bucket check. A missing or empty bucket setting gives 500. A missing template object gives 500 "Sjabloon niet gevonden". Otherwise the template is at `/tmp/Sjabloon<id>.pptx`, downloaded from `sjablonen/Sjabloon<id>.pptx`. |
| TemplateApi.TitleDates | api/main.py:59-61 | There is a dates line if and only if both dates are non-empty. It is the birth date, then the separator, then the death date, and nothing else. |
| TemplateApi.BuildOnDownloads | api/main.py:66-73 | The build gets the URLs and no uploads. No URLs at all is the build's "no input" error, and a successful build's photos are the downloads. |
| TemplateApi.RunBuild | api/main.py:63-77 | The call fails if and only if the build fails, with a 500 carrying the build exception's message. No photos at all is such a failure. A success offers the built file under the fixed download name, at the fixed output path, with the downloaded photos. |
| TemplateApi.RunBuildDeck | api/main.py:66-73 | A successful build fills the placeholders in cover mode, repeating photos. The title slide gets the name when it is non-empty and is left alone otherwise. |
| TemplateApi.Generate | api/main.py:54-82 | A missing key or a wrong header gives 401, before anything else. Template errors follow. Then the build runs on the downloaded template. A success implies the template was found at its local path. |
| TemplateApi.TitleSubtitle | api/main.py:59-73 | The title slide's subtitle is the dates line alone, or empty. |
| TemplateApi.EveryPlaceholderFilled | api/main.py:66-73 | After a successful build there is at least one photo. Every placeholder of the template is replaced if and only if placeholder i takes photo i mod n in cover mode, as photos repeat. |

## Left out

- Geometry.CoverCrop: computed in exact rational arithmetic. The source divides floats, so for some sizes `int()` of a rounded ratio can be one pixel off the exact floor.
- Geometry.ContainSize: the same exact arithmetic replaces `min` of two float ratios. Where the float ratios round differently, the source can pick the other side. For the same reason the limiting side always equals the box side in the model, while the source's `int(img_w * (box_w / img_w))` can come out one below it.
- Placeholders.PlaceholderIndex: `\d` is modelled as the ASCII digits. Python's `re` also accepts other Unicode decimal digits, and `int()` reads them. The model also reads a digit run of any length. From Python 3.11 (and 3.10.7), `int()` on a string of more than 4300 digits raises `ValueError` (the `sys.get_int_max_str_digits` limit). That exception is not caught at scripts/maak_presentatie.py:158, so such a shape name aborts the whole build, which `/generate` reports as a 500.
- DutchDate.ParseYear: the year field accepts ASCII digits only. `strptime` builds `%Y` from `\d`, which matches any Unicode decimal digit, and `int()` reads those, so a year written in, say, Arabic-Indic digits is formatted by the source and returned unchanged by the model.
- DutchDate.ParseDay: the same holds for the second digit of the `[12]\d` alternative of `%d`. The month field uses only explicit ASCII classes, as in the source.
- Replacement.ReplacementPlan: reading the photo (`Image.open`), cropping and writing the temporary file are taken to succeed, with the pixel size an input. Inside the guarded placeholder and fill branches such an exception would fall through to the next case, as a raising `insert_picture` or `fill.user_picture` does in the model. In the plain-picture and fallback branches it would fail the replacement.
- Text.Lower: lower-cases ASCII letters only. The model uses it for the `foto_` prefix and for file extensions, where other characters cannot produce a match.
- **Downloads**, in `download_base44_fotos` and `_download`:
  - The retry and sleep loop is left out. The outcome of the three attempts is an input per URL.
  - The HTTP request, writing the file and the `Content-Type` test are inputs as well.
  - Outcomes are keyed by the URL string, in both `download_base44_fotos` and `_download`. A URL listed twice therefore gets the same outcome both times, while the source downloads it twice and the attempts can differ.
- **File system**:
  - Temporary directories, `shutil.copy`, ZIP extraction and `os.walk` are left out.
  - The files present after extraction are an input listing.
  - An unreadable ZIP file, which raises, is not modelled.
  - The output directory (`__file__` or the working directory) is an input.
- **python-pptx and PIL.**
  - Loading, editing and saving documents, removing elements, `insert_picture`, `add_picture` and `fill.user_picture` are left out.
  - These are inputs: each photo's pixel size, whether `insert_picture` or `fill.user_picture` raises (both are caught and fall through to the next case), and whether adding a new picture goes through. Only the branch taken and its geometry are modelled.
  - Fonts, sizes and colours of the `/v1` title slide are recorded as values, not rendered.
- **Locating a shape's slide** in `vervang_placeholder_fotos`: which slide a new picture is added to is not modelled.
  - The direct lookup at scripts/maak_presentatie.py:306 always raises, since a slide part has no `slides` attribute.
  - The scan at scripts/maak_presentatie.py:311-317 then compares only each slide's top-level shapes.
  - A placeholder inside a group is found by the placeholder walk but never by this scan. So in the plain-picture and fallback branches its new picture is added to the first slide (scripts/maak_presentatie.py:320-322), and the replacement is still counted.
  - The model's count agrees with that, since it does not depend on the slide.
- **Google Cloud Storage, FastAPI and SHA-256.**
  - Client creation, the upload, `FileResponse` and the exceptions of the storage client in `_sjabloon_pad_from_id` are not modelled.
  - The hex digest and the upload's outcome are inputs.
  - The template download itself is not modelled: once the object exists, the build runs on that object's slides.
- **Debug output** in `maak_presentatie_automatisch` is left out: the `print` calls, and the Streamlit block listing the placeholders, which catches its own errors.
- **Reading environment variables** (`load_dotenv`, `os.getenv`) is left out. Their values are inputs.
- **The form of the 422 body** is not modelled. FastAPI produces it from the validator's message; the model keeps the status and the message.
