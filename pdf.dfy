/**
 * `convert_images_to_pdf`: which files of the offer's local folder become
 * pages, and what the PDF is called.
 */
module Pdf {
  import opened Strings
  import opened Naming

  /** Python's `name.endswith(suffix)`. */
  predicate EndsWith(name: string, suffix: string) {
    |suffix| <= |name| && name[|name| - |suffix|..] == suffix
  }

  /** `name.endswith(('png', 'jpg', 'jpeg', 'webp'))`: a plain, case-sensitive suffix test, no dot needed. */
  predicate HasImageSuffix(name: string) {
    EndsWith(name, "png") || EndsWith(name, "jpg") || EndsWith(name, "jpeg") || EndsWith(name, "webp")
  }

  /** The comprehension's filter: the listed names with an image suffix, in listing order. */
  function SelectImageFiles(listing: seq<string>): (r: seq<string>)
    ensures forall x :: x in r <==> x in listing && HasImageSuffix(x)
    ensures |r| <= |listing|
  {
    if |listing| == 0 then []
    else
      assert forall x :: x in listing <==> x == listing[0] || x in listing[1..];
      (if HasImageSuffix(listing[0]) then [listing[0]] else []) + SelectImageFiles(listing[1..])
  }

  /** Selection distributes over concatenation of listings, so it keeps the listing order. */
  lemma {:induction false} SelectImageFilesAppend(a: seq<string>, b: seq<string>)
    ensures SelectImageFiles(a + b) == SelectImageFiles(a) + SelectImageFiles(b)
  {
    if |a| == 0 {
      assert a + b == b;
    } else {
      assert (a + b)[0] == a[0] && (a + b)[1..] == a[1..] + b;
      SelectImageFilesAppend(a[1..], b);
    }
  }

  /** The number of listed names without an image suffix. */
  function CountNonImages(listing: seq<string>): nat {
    if |listing| == 0 then 0
    else (if HasImageSuffix(listing[0]) then 0 else 1) + CountNonImages(listing[1..])
  }

  /** Every listed name is either selected or counted as a non-image: one page per qualifying entry. */
  lemma {:induction false} SelectImageFilesCount(listing: seq<string>)
    ensures |SelectImageFiles(listing)| + CountNonImages(listing) == |listing|
  {
    if |listing| > 0 {
      SelectImageFilesCount(listing[1..]);
    }
  }

  /** The result of `convert_images_to_pdf`: `(None, None)`, or the pages and the name of the PDF. */
  datatype PdfOutcome = NoPdf | Pdf(pages: seq<string>, name: string)

  /**
   * PDF assembly over the folder's directory listing: no PDF when no listed
   * file qualifies; otherwise one page per qualifying file, in listing order,
   * under the name `<title>_<id / 100>.pdf`.
   */
  function ConvertImagesToPdf(listing: seq<string>, id: string, title: string): (r: PdfOutcome)
    requires AllDigits(id)
    ensures r.NoPdf? <==> forall x :: x in listing ==> !HasImageSuffix(x)
    ensures r.Pdf? ==> |r.pages| > 0 && r.pages == SelectImageFiles(listing)
    ensures r.Pdf? ==> r.name == PdfName(title, id)
  {
    var pages := SelectImageFiles(listing);
    if |pages| > 0 then
      assert pages[0] in pages;
      Pdf(pages, PdfName(title, id))
    else NoPdf
  }

  /** A suffix without a dot is enough: "xpng" is taken as an image. */
  lemma SuffixWithoutDot()
    ensures HasImageSuffix("xpng")
  {
    assert "xpng"[1..] == "png";
  }

  /** The test is case-sensitive: "flyer.JPG" is not taken. */
  lemma SuffixCaseSensitive()
    ensures !HasImageSuffix("flyer.JPG")
  {
    var n := "flyer.JPG";
    assert n[6..] == "JPG" && n[5..] == ".JPG";
    assert n[6] != 'p' && n[6] != 'j' && n[5] != 'j';
  }
}
