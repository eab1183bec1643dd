/**
 * The offer loop of `scrape_images` and the per-image loop of
 * `download_images_to_s3`, over an object store whose only state is the set
 * of keys it holds. The offers the browser lists, the parsed detail pages,
 * the outcome of each image download and the local directory listing are
 * parameters (the offers and a `World`).
 */
module Pipeline {
  import opened Wrappers
  import opened Strings
  import opened Dedup
  import opened Naming
  import opened Pdf

  /** The text of the exception raised when the id pattern does not match the link. */
  const NoIdError := "'NoneType' object has no attribute 'group'"

  /** One link of the listing page: its `title` and `href` attributes. */
  datatype Offer = Offer(title: string, href: string)

  /** One `<picture class="offer-page">` of a detail page: the attributes of its first `<img>`, if any. */
  datatype Picture = Picture(img: Option<map<string, string>>)

  /**
   * What the model takes from outside: the picture elements the detail page
   * of a link holds, in page order; whether downloading a URL succeeds; and
   * what `os.listdir` returns for an offer's local folder when its PDF is built.
   */
  datatype World = World(
    pagePictures: string -> seq<Picture>,
    fetchOk: string -> bool,
    listing: string -> seq<string>)

  function Elems(s: seq<string>): set<string> {
    set x | x in s
  }

  // ------------------------------------------------------ the image sources

  /** The text of the KeyError raised for an `<img>` that has neither source attribute. */
  const MissingSourceError := "'data-page-src'"

  /**
   * What the loop that builds `images` collects: for each picture with an
   * `<img>`, its `src`, or else its `data-page-src`; an `<img>` with neither
   * raises, because the fallback lookup stands outside the `try`.
   */
  function ImageSources(pictures: seq<Picture>): (r: Result<seq<string>, string>)
    ensures r.Success? ==> |r.value| <= |pictures|
  {
    if |pictures| == 0 then Success([])
    else
      match ImageSources(pictures[..|pictures| - 1])
      case Failure(e) => Failure(e)
      case Success(init) =>
        match pictures[|pictures| - 1].img
        case None => Success(init)
        case Some(attrs) =>
          if "src" in attrs then Success(init + [attrs["src"]])
          else if "data-page-src" in attrs then Success(init + [attrs["data-page-src"]])
          else Failure(MissingSourceError)
  }

  /** The loop itself: `images.append(img_src)` picture by picture. */
  method CollectImageSources(pictures: seq<Picture>) returns (r: Result<seq<string>, string>)
    ensures r == ImageSources(pictures)
  {
    var images: seq<string> := [];
    for i := 0 to |pictures|
      invariant ImageSources(pictures[..i]) == Success(images)
    {
      assert pictures[..i + 1][..i] == pictures[..i];
      match pictures[i].img {
        case None =>
        case Some(attrs) =>
          if "src" in attrs {
            images := images + [attrs["src"]];
          } else if "data-page-src" in attrs {
            images := images + [attrs["data-page-src"]];
          } else {
            ImageSourcesFailurePersists(pictures, i + 1);
            return Failure(MissingSourceError);
          }
      }
    }
    assert pictures[..|pictures|] == pictures;
    r := Success(images);
  }

  /** Once a prefix of the pictures fails, the whole page fails the same way. */
  lemma {:induction false} ImageSourcesFailurePersists(pictures: seq<Picture>, n: nat)
    requires n <= |pictures| && ImageSources(pictures[..n]).Failure?
    ensures ImageSources(pictures) == ImageSources(pictures[..n])
    decreases |pictures| - n
  {
    if n < |pictures| {
      var m := |pictures| - 1;
      assert pictures[..m][..n] == pictures[..n];
      ImageSourcesFailurePersists(pictures[..m], n);
    } else {
      assert pictures[..n] == pictures;
    }
  }

  /** An `<img>` can be read: it has a `src` or a `data-page-src`. */
  predicate Readable(p: Picture) {
    p.img.Some? ==> "src" in p.img.value || "data-page-src" in p.img.value
  }

  /** The page fails exactly when some `<img>` has neither attribute. */
  lemma {:induction false} ImageSourcesFailsIffUnreadable(pictures: seq<Picture>)
    ensures ImageSources(pictures).Failure? <==> exists i :: 0 <= i < |pictures| && !Readable(pictures[i])
    ensures ImageSources(pictures).Failure? ==> ImageSources(pictures).error == MissingSourceError
  {
    if |pictures| > 0 {
      var m := |pictures| - 1;
      ImageSourcesFailsIffUnreadable(pictures[..m]);
      assert forall i :: 0 <= i < m ==> pictures[..m][i] == pictures[i];
    }
  }

  /** One source per picture that has an `<img>`, `src` preferred, in page order. */
  lemma {:induction false} ImageSourcesAppend(a: seq<Picture>, b: seq<Picture>)
    requires ImageSources(a).Success? && ImageSources(b).Success?
    ensures ImageSources(a + b) == Success(ImageSources(a).value + ImageSources(b).value)
    decreases |b|
  {
    if |b| == 0 {
      assert a + b == a;
      assert ImageSources(b) == Success([]);
      assert ImageSources(a).value + [] == ImageSources(a).value;
    } else {
      var m := |b| - 1;
      assert (a + b)[..|a + b| - 1] == a + b[..m];
      assert (a + b)[|a + b| - 1] == b[m];
      assert ImageSources(b[..m]).Success?;
      ImageSourcesAppend(a, b[..m]);
      var pre := ImageSources(a).value + ImageSources(b[..m]).value;
      assert ImageSources(a + b[..m]) == Success(pre);
      match b[m].img {
        case None =>
        case Some(attrs) =>
          if "src" in attrs {
            assert pre + [attrs["src"]] == ImageSources(a).value + (ImageSources(b[..m]).value + [attrs["src"]]);
          } else {
            assert pre + [attrs["data-page-src"]] == ImageSources(a).value + (ImageSources(b[..m]).value + [attrs["data-page-src"]]);
          }
      }
    }
  }

  // ------------------------------------------------------ the existence check

  /** `'Contents' in s3.list_objects_v2(Bucket=bucket, Prefix=folder_name)`: a raw string-prefix test. */
  predicate FolderExistsAsWritten(objects: set<string>, prefix: string) {
    exists k :: k in objects && prefix <= k
  }

  /** Some object lies inside the folder: the prefix test with the separating '/'. */
  predicate FolderExists(objects: set<string>, folder: string) {
    exists k :: k in objects && folder + "/" <= k
  }

  // --------------------------------------------------- one offer's uploads

  /** The keys the per-image loop uploads: `folder/image_<i+1>.jpg` for each URL whose download succeeds. */
  function ImageUploads(folder: string, urls: seq<string>, fetchOk: string -> bool): (keys: seq<string>)
    ensures |keys| <= |urls|
  {
    if |urls| == 0 then []
    else
      var n := |urls| - 1;
      ImageUploads(folder, urls[..n], fetchOk) + (if fetchOk(urls[n]) then [ImageKey(folder, n)] else [])
  }

  /** The PDF upload after the loop, when the listing holds at least one image file. */
  function PdfUpload(folder: string, listing: seq<string>, id: string, title: string): seq<string>
    requires AllDigits(id)
  {
    match ConvertImagesToPdf(listing, id, title)
    case NoPdf => []
    case Pdf(_, name) => [folder + "/" + name]
  }

  /** Every key `download_images_to_s3` uploads, in upload order. */
  function OfferUploads(folder: string, urls: seq<string>, fetchOk: string -> bool,
                        listing: seq<string>, id: string, title: string): seq<string>
    requires AllDigits(id)
  {
    ImageUploads(folder, urls, fetchOk) + PdfUpload(folder, listing, id, title)
  }

  /**
   * One iteration of the offer loop: derive the names (failing when the link
   * has no id), skip when the folder exists, otherwise deduplicate the
   * page's images and upload them and the PDF. The result is the keys
   * uploaded, in the order of the `upload_fileobj` calls.
   */
  function Step(objects: set<string>, offer: Offer, date: string, w: World): (r: Result<seq<string>, string>)
    ensures ExtractId(offer.href).None? ==> r == Failure(NoIdError)
    ensures r.Success? ==> NoDuplicates(r.value)
  {
    match DeriveNames(offer.title, offer.href, date)
    case None => Failure(NoIdError)
    case Some(names) =>
      if FolderExists(objects, names.folder) then Success([])
      else
        match ImageSources(w.pagePictures(offer.href))
        case Failure(e) => Failure(e)
        case Success(images) =>
          OfferUploadsDistinct(names.folder, GetUniqueElements(images), w.fetchOk, w.listing(names.folder),
                               names.id, names.trimmedTitle);
          Success(NewUploads(images, names, w))
  }

  /** The keys a processed offer uploads: its deduplicated images, then its PDF. */
  function NewUploads(images: seq<string>, names: OfferNames, w: World): seq<string>
    requires AllDigits(names.id)
  {
    OfferUploads(names.folder, GetUniqueElements(images), w.fetchOk, w.listing(names.folder), names.id, names.trimmedTitle)
  }

  /**
   * One iteration of the offer loop: the offer and the date the clock gave
   * when that iteration named its folder.
   */
  datatype Visit = Visit(offer: Offer, date: string)

  /** The end of a run: the store, every key uploaded in call order, and whether the loop raised. */
  datatype Report = Report(store: set<string>, uploads: seq<string>, outcome: Outcome<string>)

  /** The whole offer loop; the first offer that raises ends it. */
  function Run(objects: set<string>, visits: seq<Visit>, w: World): (r: Report)
    ensures r.store == objects + Elems(r.uploads)
    decreases |visits|
  {
    if |visits| == 0 then Report(objects, [], Pass)
    else
      match Step(objects, visits[0].offer, visits[0].date, w)
      case Failure(e) => Report(objects, [], Fail(e))
      case Success(up) =>
        var rest := Run(objects + Elems(up), visits[1..], w);
        assert Elems(up + rest.uploads) == Elems(up) + Elems(rest.uploads);
        Report(rest.store, up + rest.uploads, rest.outcome)
  }

  // ------------------------------------------------------------- the store

  /** The bucket: the set of object keys it holds. */
  class S3Bucket {
    var objects: set<string>

    constructor (objects: set<string>)
      ensures this.objects == objects
    {
      this.objects := objects;
    }

    /** `s3.upload_fileobj(data, bucket, key)`: the key now exists (an existing object is overwritten). */
    method UploadFileobj(key: string)
      modifies this
      ensures objects == old(objects) + {key}
    {
      objects := objects + {key};
    }
  }

  /**
   * `download_images_to_s3`: each image in list order, a failed download
   * skipped, then the PDF if the folder listing holds images.
   */
  method DownloadImagesToS3(bucket: S3Bucket, folder: string, urls: seq<string>, fetchOk: string -> bool,
                            listing: seq<string>, id: string, title: string)
    returns (uploaded: seq<string>)
    requires AllDigits(id)
    modifies bucket
    ensures uploaded == OfferUploads(folder, urls, fetchOk, listing, id, title)
    ensures bucket.objects == old(bucket.objects) + Elems(uploaded)
  {
    uploaded := [];
    for index := 0 to |urls|
      invariant uploaded == ImageUploads(folder, urls[..index], fetchOk)
      invariant bucket.objects == old(bucket.objects) + Elems(uploaded)
    {
      assert urls[..index + 1][..index] == urls[..index];
      if fetchOk(urls[index]) {
        var key := ImageKey(folder, index);
        bucket.UploadFileobj(key);
        assert Elems(uploaded + [key]) == Elems(uploaded) + {key};
        uploaded := uploaded + [key];
      }
    }
    assert urls[..|urls|] == urls;
    var pdf := ConvertImagesToPdf(listing, id, title);
    if pdf.Pdf? {
      var key := folder + "/" + pdf.name;
      bucket.UploadFileobj(key);
      assert Elems(uploaded + [key]) == Elems(uploaded) + {key};
      uploaded := uploaded + [key];
    } else {
      assert uploaded + [] == uploaded;
    }
  }

  /** Where a run stands after `done` uploads, with `visits` still to go from `objects`. */
  function Resume(done: seq<string>, objects: set<string>, visits: seq<Visit>, w: World): Report {
    var rest := Run(objects, visits, w);
    Report(rest.store, done + rest.uploads, rest.outcome)
  }

  lemma AppendAssoc(a: seq<string>, b: seq<string>, c: seq<string>)
    ensures a + (b + c) == (a + b) + c
  {
  }

  /** Resuming at an offer that does not raise is resuming after it. */
  lemma ResumeStep(done: seq<string>, objects: set<string>, visits: seq<Visit>, w: World, up: seq<string>)
    requires |visits| > 0 && Step(objects, visits[0].offer, visits[0].date, w) == Success(up)
    ensures Resume(done, objects, visits, w) == Resume(done + up, objects + Elems(up), visits[1..], w)
  {
    RunAfterStep(objects, visits, w, up);
    AppendAssoc(done, up, Run(objects + Elems(up), visits[1..], w).uploads);
  }

  /** Resuming at an offer that raises ends the run there. */
  lemma ResumeFailure(done: seq<string>, objects: set<string>, visits: seq<Visit>, w: World, e: string)
    requires |visits| > 0 && Step(objects, visits[0].offer, visits[0].date, w) == Failure(e)
    ensures Resume(done, objects, visits, w) == Report(objects, done, Fail(e))
  {
    assert done + [] == done;
  }

  /** One pass of the body of the offer loop in `scrape_images`. */
  method ProcessOffer(bucket: S3Bucket, offer: Offer, date: string, w: World)
    returns (r: Result<seq<string>, string>)
    modifies bucket
    ensures r == Step(old(bucket.objects), offer, date, w)
    ensures bucket.objects == old(bucket.objects) + (if r.Success? then Elems(r.value) else {})
  {
    var names := DeriveNames(offer.title, offer.href, date);
    if names.None? {
      return Failure(NoIdError);
    }
    var n := names.value;
    if FolderExists(bucket.objects, n.folder) {
      assert Elems([]) == {};
      return Success([]);
    }
    var images := CollectImageSources(w.pagePictures(offer.href));
    if images.Failure? {
      return Failure(images.error);
    }
    var uniqueImages := GetUniqueElements(images.value);
    var up := DownloadImagesToS3(bucket, n.folder, uniqueImages, w.fetchOk, w.listing(n.folder), n.id, n.trimmedTitle);
    return Success(up);
  }

  /**
   * `scrape_images` after the browser has listed the offers. Each visit pairs
   * an offer with the date the clock gave in that iteration; `uploads`
   * records every upload call.
   */
  method ScrapeImages(bucket: S3Bucket, visits: seq<Visit>, w: World)
    returns (outcome: Outcome<string>, uploads: seq<string>)
    modifies bucket
    ensures Report(bucket.objects, uploads, outcome) == Run(old(bucket.objects), visits, w)
  {
    uploads := [];
    var i := 0;
    assert visits[0..] == visits;
    while i < |visits|
      invariant 0 <= i <= |visits|
      invariant Run(old(bucket.objects), visits, w) == Resume(uploads, bucket.objects, visits[i..], w)
    {
      ghost var before := bucket.objects;
      assert visits[i..][0] == visits[i] && visits[i..][1..] == visits[i + 1..];
      var r := ProcessOffer(bucket, visits[i].offer, visits[i].date, w);
      if r.Failure? {
        ResumeFailure(uploads, before, visits[i..], w, r.error);
        return Fail(r.error), uploads;
      }
      ResumeStep(uploads, before, visits[i..], w, r.value);
      uploads := uploads + r.value;
      i := i + 1;
    }
    assert uploads + [] == uploads;
    outcome := Pass;
  }

  // ---------------------------------------------------------------- lemmas

  /**
   * Image `i` is uploaded under its 1-based key exactly when its own
   * download succeeds; a failed download does not stop the later ones.
   */
  lemma {:induction false} ImageUploadsExactly(folder: string, urls: seq<string>, fetchOk: string -> bool)
    ensures forall i :: 0 <= i < |urls| && fetchOk(urls[i]) ==> ImageKey(folder, i) in ImageUploads(folder, urls, fetchOk)
    ensures forall k :: k in ImageUploads(folder, urls, fetchOk) ==>
              exists i :: 0 <= i < |urls| && fetchOk(urls[i]) && k == ImageKey(folder, i)
  {
    if |urls| > 0 {
      var n := |urls| - 1;
      ImageUploadsExactly(folder, urls[..n], fetchOk);
      assert forall i :: 0 <= i < n ==> urls[..n][i] == urls[i];
    }
  }

  /** No key is uploaded twice for one offer. */
  lemma {:induction false} ImageUploadsDistinct(folder: string, urls: seq<string>, fetchOk: string -> bool)
    ensures NoDuplicates(ImageUploads(folder, urls, fetchOk))
  {
    if |urls| > 0 {
      var n := |urls| - 1;
      var p := ImageUploads(folder, urls[..n], fetchOk);
      ImageUploadsDistinct(folder, urls[..n], fetchOk);
      ImageUploadsExactly(folder, urls[..n], fetchOk);
      forall k | k in p ensures k != ImageKey(folder, n) {
        var i :| 0 <= i < n && k == ImageKey(folder, i);
        ImageKeyInjective(folder, i, n);
      }
      if fetchOk(urls[n]) {
        var r := p + [ImageKey(folder, n)];
        forall i, j | 0 <= i < j < |r| ensures r[i] != r[j] {
          assert r[i] in p;
          if j < |p| { assert r[i] == p[i] && r[j] == p[j]; }
        }
      }
    }
  }

  lemma ImageKeyIsJpg(folder: string, i: nat)
    ensures EndsWith(ImageKey(folder, i), ".jpg")
  {
    var k := ImageKey(folder, i);
    assert k == (folder + "/image_" + NatToString(i + 1)) + ".jpg";
  }

  /** Every object an offer uploads lies inside that offer's folder. */
  lemma OfferUploadsInFolder(folder: string, urls: seq<string>, fetchOk: string -> bool,
                             listing: seq<string>, id: string, title: string)
    requires AllDigits(id)
    ensures forall k :: k in OfferUploads(folder, urls, fetchOk, listing, id, title) ==> folder + "/" <= k
  {
    ImageUploadsExactly(folder, urls, fetchOk);
    forall k | k in OfferUploads(folder, urls, fetchOk, listing, id, title)
      ensures folder + "/" <= k
    {
      if k in ImageUploads(folder, urls, fetchOk) {
        var i :| 0 <= i < |urls| && fetchOk(urls[i]) && k == ImageKey(folder, i);
        ImageKeySpec(folder, i);
      } else {
        assert k in PdfUpload(folder, listing, id, title);
      }
    }
  }

  /** The images and the PDF of one offer never overwrite one another. */
  lemma OfferUploadsDistinct(folder: string, urls: seq<string>, fetchOk: string -> bool,
                             listing: seq<string>, id: string, title: string)
    requires AllDigits(id)
    ensures NoDuplicates(OfferUploads(folder, urls, fetchOk, listing, id, title))
  {
    var images, pdf := ImageUploads(folder, urls, fetchOk), PdfUpload(folder, listing, id, title);
    ImageUploadsDistinct(folder, urls, fetchOk);
    ImageUploadsExactly(folder, urls, fetchOk);
    if |pdf| > 0 {
      var pk := pdf[0];
      assert pk == (folder + "/" + PdfName(title, id)[..|PdfName(title, id)| - 4]) + ".pdf";
      forall k | k in images ensures k != pk {
        var i :| 0 <= i < |urls| && fetchOk(urls[i]) && k == ImageKey(folder, i);
        ImageKeyIsJpg(folder, i);
      }
      var s := images + pdf;
      forall i, j | 0 <= i < j < |s| ensures s[i] != s[j] {
        if j < |images| {
          assert s[i] == images[i] && s[j] == images[j];
        } else {
          assert s[i] in images && s[j] == pk;
        }
      }
    } else {
      assert images + pdf == images;
    }
  }

  /** An offer whose folder already holds objects is skipped: it makes no upload call. */
  lemma SkipWhenFolderExists(objects: set<string>, offer: Offer, date: string, w: World)
    requires ExtractId(offer.href).Some?
    requires FolderExists(objects, DeriveNames(offer.title, offer.href, date).value.folder)
    ensures Step(objects, offer, date, w) == Success([])
  {
  }

  /**
   * An offer step raises exactly when its link has no id, or when its folder
   * is new and one of its page's `<img>` elements has neither source attribute.
   */
  lemma StepFailsExactly(objects: set<string>, offer: Offer, date: string, w: World)
    ensures var names := DeriveNames(offer.title, offer.href, date);
            var pictures := w.pagePictures(offer.href);
            Step(objects, offer, date, w).Failure? <==>
              names.None? ||
              (!FolderExists(objects, names.value.folder) &&
               exists i :: 0 <= i < |pictures| && !Readable(pictures[i]))
    ensures Step(objects, offer, date, w).Failure? ==>
              Step(objects, offer, date, w).error in {NoIdError, MissingSourceError}
  {
    ImageSourcesFailsIffUnreadable(w.pagePictures(offer.href));
  }

  /** Every key an offer step uploads lies inside that offer's own folder. */
  lemma StepUploadsInFolder(objects: set<string>, offer: Offer, date: string, w: World)
    requires Step(objects, offer, date, w).Success?
    ensures ExtractId(offer.href).Some?
    ensures forall k :: k in Step(objects, offer, date, w).value ==>
              DeriveNames(offer.title, offer.href, date).value.folder + "/" <= k
  {
    var names := DeriveNames(offer.title, offer.href, date).value;
    if !FolderExists(objects, names.folder) {
      var images := ImageSources(w.pagePictures(offer.href)).value;
      OfferUploadsInFolder(names.folder, GetUniqueElements(images), w.fetchOk, w.listing(names.folder),
                           names.id, names.trimmedTitle);
    }
  }

  /** Keys that all lie in a folder with no object in `final` are not in `final`. */
  lemma OutsideStore(final: set<string>, folder: string, up: seq<string>)
    requires forall k :: k in up ==> folder + "/" <= k
    requires !FolderExists(final, folder)
    ensures forall k :: k in up ==> k !in final
  {
  }

  /**
   * Once an offer has been stepped, stepping it again on any store that holds
   * what it uploaded makes no upload call.
   */
  lemma StepSettled(objects: set<string>, final: set<string>, offer: Offer, date: string, w: World)
    requires Step(objects, offer, date, w).Success?
    requires objects + Elems(Step(objects, offer, date, w).value) <= final
    ensures Step(final, offer, date, w) == Success([])
  {
    var names := DeriveNames(offer.title, offer.href, date).value;
    var up := Step(objects, offer, date, w).value;
    if |up| > 0 {
      assert up[0] in Elems(up);
    }
    if !FolderExists(final, names.folder) {
      assert !FolderExists(objects, names.folder);
      StepUploadsInFolder(objects, offer, date, w);
      OutsideStore(final, names.folder, up);
      assert Step(final, offer, date, w) == Success(up);
    }
  }

  /**
   * Re-running the loop over the same offers, each on the same date as
   * before and against the same outside world, makes no upload call and
   * ends the same way.
   */
  lemma {:induction false} RunTwiceIsRunOnce(objects: set<string>, visits: seq<Visit>, w: World)
    ensures var first := Run(objects, visits, w);
            Run(first.store, visits, w) == Report(first.store, [], first.outcome)
    decreases |visits|
  {
    if |visits| > 0 {
      var final := Run(objects, visits, w).store;
      match Step(objects, visits[0].offer, visits[0].date, w)
      case Failure(e) =>
      case Success(up) =>
        var next := objects + Elems(up);
        RunAfterStep(objects, visits, w, up);
        var rest := Run(next, visits[1..], w);
        assert final == rest.store;
        StepSettled(objects, final, visits[0].offer, visits[0].date, w);
        RunAfterStep(final, visits, w, []);
        assert final + Elems([]) == final;
        RunTwiceIsRunOnce(next, visits[1..], w);
        assert Run(final, visits[1..], w) == Report(final, [], rest.outcome);
    }
  }

  /** The tail of a non-empty prefix is a prefix of the tail. */
  lemma PrefixTail(visits: seq<Visit>, j: nat)
    requires j < |visits|
    ensures visits[..j + 1][0] == visits[0] && visits[..j + 1][1..] == visits[1..][..j]
  {
    assert forall k :: 0 <= k < j ==> visits[..j + 1][1..][k] == visits[1..][..j][k];
  }

  /** How a run continues after an offer that did not raise. */
  lemma RunAfterStep(objects: set<string>, visits: seq<Visit>, w: World, up: seq<string>)
    requires |visits| > 0 && Step(objects, visits[0].offer, visits[0].date, w) == Success(up)
    ensures var rest := Run(objects + Elems(up), visits[1..], w);
            Run(objects, visits, w) == Report(rest.store, up + rest.uploads, rest.outcome)
  {
  }

  /**
   * A run that raises does so at the first offer whose step raises, with that
   * step's error; what came before it ran to completion.
   */
  lemma {:induction false} RunStopsAtFirstFailure(objects: set<string>, visits: seq<Visit>, w: World)
    requires Run(objects, visits, w).outcome.Fail?
    ensures var r := Run(objects, visits, w);
            exists i :: 0 <= i < |visits| && Run(objects, visits[..i], w) == Report(r.store, r.uploads, Pass) &&
                        Step(r.store, visits[i].offer, visits[i].date, w) == Failure(r.outcome.error)
    decreases |visits|
  {
    assert |visits| > 0;
    var r := Run(objects, visits, w);
    var step := Step(objects, visits[0].offer, visits[0].date, w);
    if step.Failure? {
      assert visits[..0] == [];
      assert r == Report(objects, [], Fail(step.error));
      assert Run(objects, visits[..0], w) == Report(r.store, r.uploads, Pass);
      assert Step(r.store, visits[0].offer, visits[0].date, w) == Failure(r.outcome.error);
    } else {
      var up := step.value;
      var next := objects + Elems(up);
      var tail := visits[1..];
      var rest := Run(next, tail, w);
      RunAfterStep(objects, visits, w, up);
      RunStopsAtFirstFailure(next, tail, w);
      var j :| 0 <= j < |tail| && Run(next, tail[..j], w) == Report(rest.store, rest.uploads, Pass) &&
               Step(rest.store, tail[j].offer, tail[j].date, w) == Failure(rest.outcome.error);
      var pre := visits[..j + 1];
      PrefixTail(visits, j);
      RunAfterStep(objects, pre, w, up);
      assert Run(objects, pre, w) == Report(r.store, r.uploads, Pass);
      assert tail[j] == visits[j + 1];
      assert r.store == rest.store && r.outcome == rest.outcome;
      assert Step(r.store, visits[j + 1].offer, visits[j + 1].date, w) == Failure(r.outcome.error);
    }
  }

  /** A run that passes stepped every offer without a raise. */
  lemma {:induction false} RunPassesEveryOffer(objects: set<string>, visits: seq<Visit>, w: World)
    requires Run(objects, visits, w).outcome.Pass?
    ensures forall i :: 0 <= i < |visits| ==> Step(Run(objects, visits[..i], w).store, visits[i].offer, visits[i].date, w).Success?
    decreases |visits|
  {
    if |visits| > 0 {
      assert Step(objects, visits[0].offer, visits[0].date, w).Success?;
      var up := Step(objects, visits[0].offer, visits[0].date, w).value;
      var next := objects + Elems(up);
      RunAfterStep(objects, visits, w, up);
      RunPassesEveryOffer(next, visits[1..], w);
      forall i | 0 <= i < |visits|
        ensures Step(Run(objects, visits[..i], w).store, visits[i].offer, visits[i].date, w).Success?
      {
        if i == 0 {
          assert visits[..0] == [];
        } else {
          PrefixTail(visits, i - 1);
          RunAfterStep(objects, visits[..i], w, up);
          assert Run(objects, visits[..i], w).store == Run(next, visits[1..][..i - 1], w).store;
          assert visits[1..][i - 1] == visits[i];
        }
      }
    }
  }

  // ------------------------------------------- the prefix finding, both halves

  /** What follows a prefix `a` of a text starts with whatever followed `a` in a longer prefix. */
  lemma PrefixRest(a: string, b: string, key: string)
    requires a + b <= key
    ensures b <= key[|a|..]
  {
    assert forall k :: 0 <= k < |b| ==> key[|a|..][k] == (a + b)[|a| + k];
  }

  /** Digit strings that each end at a '/' at the start of the same text are equal. */
  lemma DigitsBeforeSlash(x: string, y: string, t: string)
    requires AllDigits(x) && AllDigits(y)
    requires x + "/" <= t && y + "/" <= t
    ensures x == y
  {
    assert t[..|x|] == (x + "/")[..|x|] == x && t[|x|] == (x + "/")[|x|];
    assert t[..|y|] == (y + "/")[..|y|] == y && t[|y|] == (y + "/")[|y|];
    DigitRunExact(t, 0, |x|);
    DigitRunExact(t, 0, |y|);
  }

  /** Joining onto a non-empty name and then appending is appending after the join. */
  lemma PosixJoinAppend(a: string, b: string, c: string)
    requires |b| > 0
    ensures PosixJoin(a, b + c) == PosixJoin(a, b) + c
  {
    assert (b + c)[0] == b[0];
  }

  /**
   * Whatever the title and the date, the folder is a stem that depends on
   * them alone, followed by the id.
   */
  lemma BaseFolderStem(trimmed: string, date: string, id: string)
    requires AllDigits(id)
    ensures BaseFolder(trimmed, date, id) ==
              ReplaceBackslashes(PosixJoin(PosixJoin(FolderPrefix, trimmed), date + "_")) + id
  {
    var stem := PosixJoin(PosixJoin(FolderPrefix, trimmed), date + "_");
    assert date + "_" + id == (date + "_") + id;
    PosixJoinAppend(PosixJoin(FolderPrefix, trimmed), date + "_", id);
    ReplaceBackslashesAppend(stem, id);
    assert '\\' !in id by {
      forall c | c in id ensures c != '\\' {
        var i :| 0 <= i < |id| && id[i] == c;
      }
    }
    ReplaceBackslashesIdentity(id);
  }

  /**
   * As written: once offer 123 is uploaded, the raw prefix test reports the
   * folder of offer 12 (same title, same day) as existing, although nothing
   * lies inside it, so offer 12 is skipped.
   */
  lemma AsWrittenPrefixMatchesSiblingFolder()
    ensures var objects := {ImageKey(BaseFolder("Sale", "2024-05-01", "123"), 0)};
            && FolderExistsAsWritten(objects, BaseFolder("Sale", "2024-05-01", "12"))
            && !FolderExists(objects, BaseFolder("Sale", "2024-05-01", "12"))
  {
    var stem := ReplaceBackslashes(PosixJoin(PosixJoin(FolderPrefix, "Sale"), "2024-05-01" + "_"));
    BaseFolderStem("Sale", "2024-05-01", "123");
    BaseFolderStem("Sale", "2024-05-01", "12");
    var key := ImageKey(BaseFolder("Sale", "2024-05-01", "123"), 0);
    assert key == (stem + "12") + ("3" + "/" + ImageName(0));
    assert key[|stem| + 2] == '3';
    assert (stem + "12" + "/")[|stem| + 2] == '/';
  }

  /**
   * Corrected: with the '/'-terminated prefix, an object of one offer never
   * makes the folder of an offer with another id (same title, same day)
   * count as existing.
   */
  lemma OtherOfferNeverTriggersSkip(trimmed: string, date: string, id1: string, id2: string, key: string)
    requires AllDigits(id1) && AllDigits(id2) && id1 != id2
    requires BaseFolder(trimmed, date, id1) + "/" <= key
    ensures !(BaseFolder(trimmed, date, id2) + "/" <= key)
  {
    var stem := ReplaceBackslashes(PosixJoin(PosixJoin(FolderPrefix, trimmed), date + "_"));
    BaseFolderStem(trimmed, date, id1);
    BaseFolderStem(trimmed, date, id2);
    if BaseFolder(trimmed, date, id2) + "/" <= key {
      assert stem + id1 + "/" == stem + (id1 + "/");
      assert stem + id2 + "/" == stem + (id2 + "/");
      PrefixRest(stem, id1 + "/", key);
      PrefixRest(stem, id2 + "/", key);
      DigitsBeforeSlash(id1, id2, key[|stem|..]);
    }
  }

  /** So uploading one offer's objects leaves the existence answer for every other id unchanged. */
  lemma OtherOfferLeavesCheckUnchanged(objects: set<string>, trimmed: string, date: string,
                                       id1: string, id2: string, uploads: set<string>)
    requires AllDigits(id1) && AllDigits(id2) && id1 != id2
    requires forall k :: k in uploads ==> BaseFolder(trimmed, date, id1) + "/" <= k
    ensures FolderExists(objects + uploads, BaseFolder(trimmed, date, id2)) ==
            FolderExists(objects, BaseFolder(trimmed, date, id2))
  {
    forall k | k in uploads ensures !(BaseFolder(trimmed, date, id2) + "/" <= k) {
      OtherOfferNeverTriggersSkip(trimmed, date, id1, id2, k);
    }
  }
}
