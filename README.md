# rightnow_scrapper: a verified model of the flyer scraper's core

The repository is a small Flask service. A POST to `/scrape_images` names a
country and a region. The service lists that region's offers (promotional
flyers) with a headless browser and fetches each offer's detail page. It
collects the page's image URLs and uploads them into an S3 bucket under one
folder per offer, then uploads a PDF built from the downloaded pages.
`app.py` holds all of it.

This project models the deterministic part of that pipeline in Dafny and
proves what it promises:

- `Dedup`: `get_unique_elements`, which keeps the first occurrence of each URL.
- `Strings`: the Python string semantics the naming relies on:
  - `str.split()` with Python's whitespace set, and `str.join`;
  - `str(int)` and `int(str)` for decimal digits;
  - `posixpath.join`;
  - `str.replace('\\', '/')`.
- `Naming`, which derives an offer's names:
  - the trimmed title (at most eight words joined by `_`, cut to ten characters);
  - the id, found by the leftmost match of `/(\d+)/` in the link;
  - the folder `advertisement-flyer/<title>/<date>_<id>`;
  - the image keys `<folder>/image_<n>.jpg`;
  - the PDF name `<title>_<id // 100>.pdf`.
- `Pdf`: which files of an offer's local folder become PDF pages, and whether a PDF is made at all.
- `Api`: the request gate of `scrape_images_api` and its three responses (400, 200 and 500).
- `Pipeline`, the offer loop over a bucket modelled as a class holding a set of keys. It covers:
  - the skip when an offer's folder already exists;
  - the loop that collects image sources, with the `data-page-src` fallback;
  - the upload loop, where a failed download skips only that image;
  - the PDF upload.

  The outside world is a parameter:
  - the picture elements of each detail page;
  - whether each image download succeeds;
  - the local folder listing;
  - the date the clock gives in each iteration of the offer loop.

Two behaviours of the code are worth stating outright:

- **The title cut.** For the title "Big Weekly Savings Event Now" the code yields `Big_Weekly`:
  `"_".join(...)` gives `Big_Weekly_Savings_Event_Now`, and its first ten characters are
  `Big_Weekly` (`Naming.TrimTitleExample`).
- **The image source fallback.** The lookup of `data-page-src` stands outside the `try`. An
  `<img>` with neither `src` nor `data-page-src` therefore raises `KeyError('data-page-src')`, and
  the request ends with a 500 whose error text is `'data-page-src'`
  (`Pipeline.ImageSourcesFailsIffUnreadable`, `Pipeline.StepFailsExactly`).

## Model

| member | source | states |
|---|---|---|
| Dedup.GetUniqueElements | app.py:30-31 | The result has no duplicates, holds exactly the elements of the input, and is no longer than it |
| Dedup.GetUniqueElementsOrdered | app.py:30-31 | The result lists the elements in the order of their first occurrence in the input |
| Dedup.FirstOccurrenceOrderDetermines | app.py:30-31 | Two duplicate-free lists with the same elements, both in first-occurrence order of `s`, are equal |
| Dedup.GetUniqueElementsCharacterized | app.py:30-31 | A list is the result exactly when it is duplicate-free, has the input's elements and is in first-occurrence order |
| Dedup.GetUniqueElementsOfDistinct | app.py:30-31 | A list without duplicates is returned unchanged |
| Dedup.GetUniqueElementsIdempotent | app.py:30-31 | Deduplicating twice is the same as deduplicating once |
| Dedup.NoNormalisation | app.py:30-31 | URLs are compared exactly: case and query strings make them distinct, and repeats collapse to the first |
| Dedup.FirstIndex | app.py:30-31 | The first index of a present element holds it, and no earlier index does |
| Strings.DropSpaces | app.py:121 | Leading whitespace is removed and the rest is kept: the result is a suffix that starts with a non-space |
| Strings.TakeWord | app.py:121 | A word is the longest space-free prefix |
| Strings.IsSpace | app.py:121 | The characters `str.isspace()` accepts, which `str.split()` splits on (definition; `Strings.SplitSkipsSpace` states its use) |
| Strings.Split | app.py:121 | Every piece `str.split()` returns is non-empty and free of whitespace |
| Strings.SplitSkipsSpace | app.py:121 | Leading whitespace produces no piece: splitting after a whitespace character is splitting the rest |
| Strings.SplitWordThen | app.py:121 | A maximal run of non-whitespace becomes one piece, followed by the pieces of what comes after the next whitespace |
| Strings.Join | app.py:121 | `sep.join(words)`: the words with the separator between consecutive ones (definition; `Strings.SplitJoin` and `Strings.JoinNoSpace` state its properties) |
| Strings.DigitsToNat | app.py:35 | `int(s)` for a decimal digit string (definition; its round trips with `Strings.NatToString` are proved) |
| Strings.SplitJoin | app.py:121 | Splitting words joined by single spaces gives back the words |
| Strings.JoinNoSpace | app.py:121 | Joining space-free words with a space-free separator gives a space-free text |
| Strings.NatToString | app.py:74 | `str(n)` is a canonical decimal: digits only, no leading zero, one digit exactly for n < 10 |
| Strings.DigitsToNatOfNatToString | app.py:35 | `int(str(n)) == n` |
| Strings.NatToStringOfDigitsToNat | app.py:35-42 | `str(int(s)) == s` for a canonical digit string |
| Strings.NatToStringInjective | app.py:74 | Two numbers print the same exactly when they are equal |
| Strings.ReplaceBackslashes | app.py:128 | The length is kept, every backslash becomes `/`, and every other character is unchanged |
| Strings.ReplaceBackslashesAppend | app.py:128 | The replacement distributes over concatenation |
| Strings.ReplaceBackslashesIdentity | app.py:128 | A text without backslashes is left unchanged |
| Strings.PosixJoin | app.py:128 | `posixpath.join(a, b)`: a `b` starting with `/` replaces `a`; otherwise `/` is inserted unless `a` is empty or ends in `/` (definition; `Naming.BaseFolderPlain`, `Naming.BaseFolderEmptyTitle` and `Naming.BaseFolderRootedTitle` state its effect on the folder) |
| Naming.JoinedTitle | app.py:121 | `"_".join(title.split()[:8])` (definition; `Naming.TrimTitleSpec` states its properties) |
| Naming.TrimTitle | app.py:121-122 | That join cut to ten characters (definition; `Naming.TrimTitleSpec` states its properties) |
| Naming.Take | app.py:121-122 | The slice `s[:n]` is a prefix of length `min(n, len(s))` |
| Naming.TrimTitleSpec | app.py:121-122 | The trimmed title has at most 10 characters and no whitespace. It is a prefix of the `_`-joined first eight words: all of it when that is short, else exactly 10 characters |
| Naming.TrimTitleExample | app.py:121-122 | "Big Weekly Savings Event Now" becomes "Big_Weekly" |
| Naming.SplitExample | app.py:121 | The example title splits into its five words |
| Naming.JoinUnderscoreExample | app.py:121 | The five words joined by `_` |
| Naming.DigitRun | app.py:125 | `\d+` greedily takes the longest run of digits |
| Naming.SearchFrom | app.py:126 | The search finds the leftmost position where `/digits/` matches, or reports that none exists |
| Naming.ExtractId | app.py:125-126 | An extracted id is a non-empty digit string |
| Naming.MatchAt | app.py:125 | Where `/(\d+)/` matches: a `/`, a greedy run of at least one digit, then a `/` (definition; `Naming.IdOccursAtIffMatch` and `Naming.ExtractIdIsLeftmostMatch` state its meaning) |
| Naming.IdOccursAtIffMatch | app.py:125-126 | `/id/` occurs at a position exactly when the pattern matches there and captures `id` |
| Naming.IdOccursAtUnique | app.py:125-126 | At a given position the captured id is unique |
| Naming.ExtractIdIsLeftmostMatch | app.py:125-126 | The id is the one occurring leftmost, with no earlier occurrence of any id. There is no id exactly when `/digits/` occurs nowhere, which is the case where `.group(1)` raises |
| Naming.BaseFolder | app.py:128 | The folder path never contains a backslash |
| Naming.BaseFolderPlain | app.py:128 | For a plain title the folder is `advertisement-flyer/<title>/<date>_<id>` with backslashes turned into `/` |
| Naming.BaseFolderEmptyTitle | app.py:128 | An empty title gives `advertisement-flyer/<date>_<id>` |
| Naming.BaseFolderRootedTitle | app.py:128 | A title starting with `/` discards the `advertisement-flyer` prefix, as `os.path.join` does |
| Naming.DeriveNames | app.py:120-128 | Derived names carry a non-empty digit id and a title of at most 10 characters |
| Naming.ImageName | app.py:74 | `image_<index + 1>.jpg` (definition) |
| Naming.ImageKey | app.py:81 | `<folder>/<image name>` (definition; `Naming.ImageKeyInjective` states its property) |
| Naming.PdfName | app.py:35-42 | `<title>_<str(int(id) // 100)>.pdf` (definition; `Naming.PdfNameGroupsByHundred` states its property) |
| Naming.ImageKeySpec | app.py:74-81 | Key `i` is `<folder>/image_<i+1>.jpg` and lies inside the folder |
| Naming.ImageKeyInjective | app.py:69-81 | Two image keys of one folder are equal exactly when their indices are |
| Naming.PdfNameGroupsByHundred | app.py:35-42 | Two ids give the same PDF name exactly when they lie in the same block of one hundred |
| Pdf.EndsWith | app.py:36 | `str.endswith` for one suffix (definition; `Pdf.SuffixWithoutDot` and `Pdf.SuffixCaseSensitive` pin it down) |
| Pdf.HasImageSuffix | app.py:36 | `file.endswith(('png', 'jpg', 'jpeg', 'webp'))` (definition; `Pdf.SuffixWithoutDot` and `Pdf.SuffixCaseSensitive` pin it down) |
| Pdf.SelectImageFiles | app.py:36 | A listed file is a page exactly when its name ends in png, jpg, jpeg or webp |
| Pdf.SelectImageFilesAppend | app.py:36 | The selection keeps listing order: selecting from a concatenation concatenates the selections |
| Pdf.SelectImageFilesCount | app.py:36 | Every listed file is either a page or counted as skipped |
| Pdf.SuffixWithoutDot | app.py:36 | The suffix test has no dot: "xpng" qualifies |
| Pdf.SuffixCaseSensitive | app.py:36 | The suffix test is case-sensitive: "flyer.JPG" does not qualify |
| Pdf.ConvertImagesToPdf | app.py:34-43 | There is no PDF exactly when no listed file qualifies. Otherwise the pages are the qualifying files in listing order and the name is `<title>_<id // 100>.pdf` |
| Api.Get | app.py:156-157 | `data.get(key)`: the value, or `None` for a missing key (definition; `Api.MissingRegionIsRefused` and `Api.BadRequestIffMissingParameter` state its use) |
| Api.JsonResponse | app.py:159-165 | `jsonify({key: text}), status` (definition; `Api.ScrapeImagesApi` states the three responses) |
| Api.Truthy | app.py:158 | Python truthiness of a JSON value: `null`, `false`, `0`, `""`, `[]` and `{}` are false (definition) |
| Api.ScrapeImagesApi | app.py:154-165 | The scrape runs exactly when the body is an object with truthy `country` and `region`. Otherwise the reply is 400 with the fixed message, or 500 with no JSON body for a non-object. A run gives 200 with the success message, or 500 with the raised error's text |
| Api.MissingRegionIsRefused | app.py:156-159 | A missing or falsy region gives the 400 reply |
| Api.BadRequestIffMissingParameter | app.py:156-159 | For an object body, the status is 400 exactly when a parameter is missing or falsy, and no scrape runs then |
| Api.ValidRequestRunsPipeline | app.py:156-163 | Non-empty country and region run the scrape with those values |
| Pipeline.ImageSources | app.py:136-144 | No more sources than pictures; `Pipeline.ImageSourcesFailsIffUnreadable` and `Pipeline.ImageSourcesAppend` state when it raises and what it collects |
| Pipeline.CollectImageSources | app.py:136-144 | The loop's appends compute `ImageSources` of the page's pictures |
| Pipeline.ImageSourcesFailurePersists | app.py:140-143 | Once a picture has raised, the whole page raises with that error |
| Pipeline.ImageSourcesFailsIffUnreadable | app.py:138-143 | Collecting fails exactly when some `<img>` has neither `src` nor `data-page-src`, with the KeyError's text |
| Pipeline.ImageSourcesAppend | app.py:137-144 | The sources of consecutive pictures concatenate in page order |
| Pipeline.FolderExistsAsWritten | app.py:46-54 | As written: some key starts with the folder name as a raw string prefix (definition) |
| Pipeline.FolderExists | app.py:46-54 | Corrected: some key lies inside the folder, that is, starts with the folder name and `/` (definition) |
| Pipeline.PdfUpload | app.py:91-95 | The key of the PDF upload, if `convert_images_to_pdf` made one (definition; `Pipeline.OfferUploadsInFolder` and `Pipeline.OfferUploadsDistinct` state its properties) |
| Pipeline.OfferUploads | app.py:69-95 | The upload calls of `download_images_to_s3`: the images in order, then the PDF (definition; `Pipeline.OfferUploadsInFolder` and `Pipeline.OfferUploadsDistinct` state its properties) |
| Pipeline.ImageUploads | app.py:69-89 | No more keys are uploaded than there are URLs |
| Pipeline.ImageUploadsExactly | app.py:69-89 | Key `i` is uploaded exactly when the download of URL `i` succeeds; a failure does not stop later images |
| Pipeline.ImageUploadsDistinct | app.py:69-83 | No image key is uploaded twice |
| Pipeline.ImageKeyIsJpg | app.py:74 | Every image key ends in `.jpg` |
| Pipeline.OfferUploadsInFolder | app.py:81-94 | Everything an offer uploads lies inside its folder |
| Pipeline.OfferUploadsDistinct | app.py:81-94 | An offer's images and its PDF never share a key |
| Pipeline.Step | app.py:120-148 | A link without an id raises the `NoneType` error; a step that does not raise makes no two upload calls on the same key |
| Pipeline.StepFailsExactly | app.py:126-144 | A step raises exactly when the link has no id, or the folder is new and some `<img>` lacks both attributes |
| Pipeline.SkipWhenFolderExists | app.py:129-131 | An offer whose folder holds an object makes no upload call |
| Pipeline.StepUploadsInFolder | app.py:146-148 | Every key an offer step uploads lies inside that offer's own folder |
| Pipeline.StepSettled | app.py:129-131 | After an offer is processed, processing it again on a store holding its uploads makes no upload call |
| Pipeline.Run | app.py:119-148 | Each offer is stepped on its own date; the final store is the initial one plus exactly the keys of the recorded upload calls |
| Pipeline.RunAfterStep | app.py:119-148 | After an offer that does not raise, the run goes on with the next offer on the grown store, and its upload calls follow that offer's |
| Pipeline.RunStopsAtFirstFailure | app.py:119-165 | A run that raises stops at the first offer whose step raises: the offers before it ran to completion with the same store and uploads, and the run's error is that offer's |
| Pipeline.RunPassesEveryOffer | app.py:119-148 | A run that passes stepped every offer, on the store left by the offers before it, without a raise |
| Pipeline.RunTwiceIsRunOnce | app.py:119-148 | Running the loop again with every offer on the same date as before, against the same world, makes no upload call, keeps the store and ends the same way |
| Pipeline.S3Bucket.constructor | app.py:100 | A bucket holding the given keys |
| Pipeline.S3Bucket.UploadFileobj | app.py:83 | The key is added to the bucket; an existing one is overwritten |
| Pipeline.ProcessOffer | app.py:120-148 | One pass of the loop body makes exactly the upload calls of `Step` on the bucket as it was, and the bucket gains exactly those keys; a raise leaves it unchanged |
| Pipeline.DownloadImagesToS3 | app.py:57-95 | The keys uploaded are exactly `OfferUploads`: the images in order, then the PDF. The bucket gains exactly those keys |
| Pipeline.ScrapeImages | app.py:119-150 | The final bucket, the upload calls made in order, and the outcome are those of `Run` on the initial bucket |
| Pipeline.PosixJoinAppend | app.py:128 | `os.path.join(a, b + c)` is `os.path.join(a, b) + c` for a non-empty `b` |
| Pipeline.BaseFolderStem | app.py:128 | For every title and date the folder is a stem that depends on them alone, followed by the id |
| Pipeline.DigitsBeforeSlash | app.py:125 | Two digit strings each followed by `/` at the start of one text are equal |
| Pipeline.AsWrittenPrefixMatchesSiblingFolder | app.py:53-54 | As written: an object of offer 123 makes the raw prefix test report offer 12's folder (same title and day) as existing, though nothing lies in it |
| Pipeline.OtherOfferNeverTriggersSkip | app.py:53-54 | Corrected: with a `/`-terminated prefix, an object of one id never makes another id's folder exist |
| Pipeline.OtherOfferLeavesCheckUnchanged | app.py:53-54 | Corrected: uploading one offer leaves the existence answer for every other id unchanged |

## Left out

- The browser (Selenium, `chromedriver.exe`, the region URL, the five-second wait) is left out. It is I/O: the model starts from the list of offers, each with its title and link.
- HTTP is left out. Whether each image download succeeds is a parameter. Fetching the detail page (`requests.get(href)`) is assumed to succeed; the path where it raises (the loop stops and the reply is 500) is not modelled.
- Page fetches and download attempts are not recorded. The model records only the upload calls. An offer that is skipped makes neither call in the source. An offer that uploaded nothing on an earlier pass has no folder, so the source fetches its page and retries its downloads again, which `Pipeline.StepSettled` and `Pipeline.RunTwiceIsRunOnce` do not show.
- HTML parsing with BeautifulSoup is left out; its result, the `<picture class="offer-page">` elements with the attributes of each one's first `<img>`, is a parameter. The model does not capture multi-valued attributes or `find` semantics.
- PIL is left out: decoding and rendering pages into a PDF is not captured. Only which files become pages, in which order, and the file name are modelled.
- The local filesystem is left out: `os.makedirs`, file writes and `os.getcwd`. The folder listing is a parameter, not tied to the files downloaded earlier in the run.
- Pipeline.DownloadImagesToS3: does not model a download that fails mid-stream after partial writes, nor exceptions other than `RequestException`.
- Credentials and the environment (`os.environ`, `NoCredentialsError`) are left out. Lines 23 and 26 write `os.environ.get(...)` back into `os.environ`. An unset variable makes that assignment raise `TypeError` at import, so the service does not start then. The model assumes both variables are set.
- The S3 client is modelled as a set of keys: object contents, pagination of `list_objects_v2` and network errors are left out.
- The clock is left out. app.py:128 reads `datetime.now()` once per offer, and each `Pipeline.Visit` carries the date that reading gave; the offers of one run may therefore carry different dates.
- `print` logging, Flask routing, CORS and the server start are left out.
- Naming.PdfName: `int(int(id) / 100)` divides in floating point. The model uses exact integer division, which agrees for ids below 2^53.
- Naming.ExtractId: `\d` means ASCII digits here. Python's `re` also accepts other Unicode decimal digits.
- Naming.BaseFolder: `os.path.join` is modelled as the POSIX join. The Windows join, which `chromedriver.exe` hints at, is not modelled.
- Api.ScrapeImagesApi: JSON values are null, booleans, integers, strings, arrays and objects. Floats, a request without a JSON content type, and a body that fails to parse are not modelled.
- Pipeline.Step: uses the corrected existence check (prefix `folder + "/"`) rather than the raw prefix of `folder_exists_on_s3`. The raw form is `Pipeline.FolderExistsAsWritten`; see Findings.

## Findings

| source | as written | input that shows it | evidently intended | confidence | as-written member | corrected member |
|---|---|---|---|---|---|---|
| app.py:53-54 | `list_objects_v2(Prefix=folder_name)` treats the folder name as a raw string prefix | There is an object `advertisement-flyer/Sale/2024-05-01_123/image_1.jpg` and an offer with title "Sale", id 12, on 2024-05-01. Its folder `advertisement-flyer/Sale/2024-05-01_12` is reported as existing, so offer 12 is skipped | The test should ask whether any object lies inside the folder, with prefix `folder_name + "/"` | medium, not executed | Pipeline.AsWrittenPrefixMatchesSiblingFolder | Pipeline.OtherOfferNeverTriggersSkip |
