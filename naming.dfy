/**
 * How one offer's names are derived in the offer loop of `scrape_images`
 * and in `download_images_to_s3`: the shortened title, the numeric id taken
 * from the link, the destination folder and the per-image storage keys.
 */
module Naming {
  import opened Wrappers
  import opened Strings

  const MaxTitleWords: nat := 8
  const MaxTitleLength: nat := 10
  const FolderPrefix := "advertisement-flyer"

  /** Python's slice `s[:n]` for a non-negative bound. */
  function Take<T>(s: seq<T>, n: nat): (r: seq<T>)
    ensures r <= s && |r| == if |s| <= n then |s| else n
  {
    if |s| <= n then s else s[..n]
  }

  // ------------------------------------------------------------ shortened title

  /** The words of the title that survive `[:8]`, joined by '_'. */
  function JoinedTitle(title: string): string {
    Join(Take(Split(title), MaxTitleWords), "_")
  }

  /** `"_".join(title.split()[:8])[:10]`. */
  function TrimTitle(title: string): string {
    Take(JoinedTitle(title), MaxTitleLength)
  }

  /**
   * The trimmed title has at most ten characters and no whitespace, is a
   * prefix of the joined first eight words, and is all of it when that join
   * is short enough.
   */
  lemma TrimTitleSpec(title: string)
    ensures |TrimTitle(title)| <= MaxTitleLength
    ensures NoSpace(TrimTitle(title))
    ensures TrimTitle(title) <= JoinedTitle(title)
    ensures |JoinedTitle(title)| <= MaxTitleLength ==> TrimTitle(title) == JoinedTitle(title)
    ensures |JoinedTitle(title)| > MaxTitleLength ==> |TrimTitle(title)| == MaxTitleLength
  {
    var words := Take(Split(title), MaxTitleWords);
    forall i | 0 <= i < |words| ensures NoSpace(words[i]) {
      assert words[i] in Split(title);
    }
    JoinNoSpace(words, "_");
  }

  /** A five-word title: the join is cut after ten characters, right after "Weekly". */
  lemma TrimTitleExample()
    ensures TrimTitle("Big Weekly Savings Event Now") == "Big_Weekly"
  {
    SplitExample();
    JoinUnderscoreExample();
    var words := ["Big", "Weekly", "Savings", "Event", "Now"];
    assert Take(words, MaxTitleWords) == words;
  }

  lemma SplitExample()
    ensures Split("Big Weekly Savings Event Now") == ["Big", "Weekly", "Savings", "Event", "Now"]
  {
    var words := ["Big", "Weekly", "Savings", "Event", "Now"];
    assert forall w | w in words :: IsWord(w) by {
      assert IsWord("Big") && IsWord("Weekly") && IsWord("Savings") && IsWord("Event") && IsWord("Now");
    }
    JoinSpaceExample();
    SplitJoin(words);
  }

  lemma JoinSpaceExample()
    ensures Join(["Big", "Weekly", "Savings", "Event", "Now"], " ") == "Big Weekly Savings Event Now"
  {
    var words := ["Big", "Weekly", "Savings", "Event", "Now"];
    assert words[1..] == ["Weekly", "Savings", "Event", "Now"];
    assert words[1..][1..] == ["Savings", "Event", "Now"];
    assert words[1..][1..][1..] == ["Event", "Now"];
    assert words[1..][1..][1..][1..] == ["Now"];
    assert Join(["Event", "Now"], " ") == "Event Now";
    assert Join(["Savings", "Event", "Now"], " ") == "Savings Event Now";
    assert Join(["Weekly", "Savings", "Event", "Now"], " ") == "Weekly Savings Event Now";
  }

  lemma JoinUnderscoreExample()
    ensures Join(["Big", "Weekly", "Savings", "Event", "Now"], "_") == "Big_Weekly_Savings_Event_Now"
  {
    var words := ["Big", "Weekly", "Savings", "Event", "Now"];
    assert words[1..] == ["Weekly", "Savings", "Event", "Now"];
    assert words[1..][1..] == ["Savings", "Event", "Now"];
    assert words[1..][1..][1..] == ["Event", "Now"];
    assert words[1..][1..][1..][1..] == ["Now"];
    assert Join(["Event", "Now"], "_") == "Event_Now";
    assert Join(["Savings", "Event", "Now"], "_") == "Savings_Event_Now";
    assert Join(["Weekly", "Savings", "Event", "Now"], "_") == "Weekly_Savings_Event_Now";
  }

  // ------------------------------------------------------------------ the id

  /** The length of the run of digits that starts at `i`. */
  function DigitRun(s: string, i: nat): (n: nat)
    requires i <= |s|
    ensures i + n <= |s| && AllDigits(s[i..i + n])
    ensures i + n == |s| || !IsDigit(s[i + n])
    decreases |s| - i
  {
    if i < |s| && IsDigit(s[i]) then
      var n := DigitRun(s, i + 1);
      assert s[i..i + 1 + n] == [s[i]] + s[i + 1..i + 1 + n];
      1 + n
    else 0
  }

  /** The pattern `/(\d+)/` matches at `p`: a slash, the greedy run of digits, a slash. */
  predicate MatchAt(s: string, p: nat) {
    p < |s| && s[p] == '/' && var n := DigitRun(s, p + 1); n > 0 && p + 1 + n < |s| && s[p + 1 + n] == '/'
  }

  /** `"/" + id + "/"` occurs in `s` at `p`, `id` being a non-empty digit string. */
  predicate IdOccursAt(s: string, p: nat, id: string) {
    |id| > 0 && AllDigits(id) && p + |id| + 2 <= |s| && s[p..p + |id| + 2] == "/" + id + "/"
  }

  /** The leftmost match at or after `p`, as `re.search` scans. */
  function SearchFrom(s: string, p: nat): (r: Option<nat>)
    requires p <= |s|
    ensures r.Some? ==> p <= r.value < |s| && MatchAt(s, r.value)
    ensures r.Some? ==> forall q :: p <= q < r.value ==> !MatchAt(s, q)
    ensures r.None? ==> forall q :: p <= q < |s| ==> !MatchAt(s, q)
    decreases |s| - p
  {
    if p == |s| then None
    else if MatchAt(s, p) then Some(p)
    else SearchFrom(s, p + 1)
  }

  /** `re.compile(r'/(\d+)/').search(href).group(1)`: None where `search` finds nothing. */
  function ExtractId(href: string): (r: Option<string>)
    ensures r.Some? ==> |r.value| > 0 && AllDigits(r.value)
  {
    match SearchFrom(href, 0)
    case None => None
    case Some(p) => Some(href[p + 1..p + 1 + DigitRun(href, p + 1)])
  }

  lemma DigitRunExact(s: string, i: nat, n: nat)
    requires i + n <= |s| && AllDigits(s[i..i + n])
    requires i + n == |s| || !IsDigit(s[i + n])
    ensures DigitRun(s, i) == n
    decreases n
  {
    if n > 0 {
      assert s[i..i + n][0] == s[i];
      assert s[i + 1..i + n] == s[i..i + n][1..];
      DigitRunExact(s, i + 1, n - 1);
    }
  }

  lemma SliceOfSlice(s: string, i: nat, j: nat, a: nat, b: nat)
    requires i <= j <= |s| && a <= b <= j - i
    ensures s[i..j][a..b] == s[i + a..i + b]
  {
    forall k | 0 <= k < b - a
      ensures s[i..j][a..b][k] == s[i + a..i + b][k]
    {
      assert s[i..j][a..b][k] == s[i..j][a + k] == s[i + a + k];
    }
  }

  /** An occurrence of "/digits/" is exactly a match of the pattern, capturing those digits. */
  lemma IdOccursAtIffMatch(s: string, p: nat, id: string)
    ensures IdOccursAt(s, p, id) <==>
              MatchAt(s, p) && id == s[p + 1..p + 1 + DigitRun(s, p + 1)]
  {
    if IdOccursAt(s, p, id) {
      var w := s[p..p + |id| + 2];
      assert w[0] == s[p] && w[0] == '/';
      assert w[|id| + 1] == s[p + 1 + |id|] && w[|id| + 1] == '/';
      assert ("/" + id + "/")[1..|id| + 1] == id;
      assert w[1..|id| + 1] == id;
      SliceOfSlice(s, p, p + |id| + 2, 1, |id| + 1);
      DigitRunExact(s, p + 1, |id|);
    }
    if MatchAt(s, p) && id == s[p + 1..p + 1 + DigitRun(s, p + 1)] {
      assert s[p..p + |id| + 2] == "/" + id + "/";
    }
  }

  /** At one position at most one digit string sits between two slashes. */
  lemma IdOccursAtUnique(s: string, p: nat, id1: string, id2: string)
    requires IdOccursAt(s, p, id1) && IdOccursAt(s, p, id2)
    ensures id1 == id2
  {
    IdOccursAtIffMatch(s, p, id1);
    IdOccursAtIffMatch(s, p, id2);
  }

  /**
   * The id is the digit string of the leftmost "/digits/" in the link, and
   * the extraction fails exactly when the link holds no such occurrence.
   */
  lemma ExtractIdIsLeftmostMatch(href: string)
    ensures ExtractId(href).Some? ==>
              exists p :: IdOccursAt(href, p, ExtractId(href).value) &&
                          forall q, t :: q < p ==> !IdOccursAt(href, q, t)
    ensures ExtractId(href).None? <==> forall q, t :: !IdOccursAt(href, q, t)
  {
    var r := SearchFrom(href, 0);
    forall q, t | IdOccursAt(href, q, t) && (r.None? || q < r.value)
      ensures false
    {
      IdOccursAtIffMatch(href, q, t);
    }
    if r.Some? {
      var p := r.value;
      IdOccursAtIffMatch(href, p, ExtractId(href).value);
    }
  }

  // ------------------------------------------------------------- the folder

  /**
   * `os.path.join('advertisement-flyer', trimmed, date + '_' + id)` with
   * backslashes turned into slashes afterwards.
   */
  function BaseFolder(trimmed: string, date: string, id: string): (r: string)
    ensures '\\' !in r
  {
    ReplaceBackslashes(PosixJoin(PosixJoin(FolderPrefix, trimmed), date + "_" + id))
  }

  /**
   * For a trimmed title that is non-empty and neither starts nor ends with
   * '/', and a date that does not start with '/', the folder is the plain
   * '/'-separated path.
   */
  lemma BaseFolderPlain(trimmed: string, date: string, id: string)
    requires |trimmed| > 0 && trimmed[0] != '/' && trimmed[|trimmed| - 1] != '/'
    requires |date| == 0 || date[0] != '/'
    ensures BaseFolder(trimmed, date, id) ==
              ReplaceBackslashes(FolderPrefix + "/" + trimmed + "/" + date + "_" + id)
  {
    assert FolderPrefix[|FolderPrefix| - 1] == 'r';
    var a := PosixJoin(FolderPrefix, trimmed);
    assert a == FolderPrefix + "/" + trimmed;
    assert a[|a| - 1] == trimmed[|trimmed| - 1];
    var b := date + "_" + id;
    assert b[0] != '/' by {
      if |date| == 0 { assert b[0] == '_'; }
    }
    assert PosixJoin(a, b) == a + "/" + b;
    assert a + "/" + b == FolderPrefix + "/" + trimmed + "/" + date + "_" + id;
  }

  /** An empty trimmed title (a blank title) leaves no empty path component. */
  lemma BaseFolderEmptyTitle(date: string, id: string)
    requires |date| == 0 || date[0] != '/'
    ensures BaseFolder("", date, id) == ReplaceBackslashes(FolderPrefix + "/" + date + "_" + id)
  {
    assert FolderPrefix[|FolderPrefix| - 1] == 'r';
    assert PosixJoin(FolderPrefix, "") == FolderPrefix + "/";
    var b := date + "_" + id;
    assert b[0] != '/' by {
      if |date| == 0 { assert b[0] == '_'; }
    }
    assert PosixJoin(FolderPrefix, b) == FolderPrefix + "/" + b;
    assert FolderPrefix + "/" + b == FolderPrefix + "/" + date + "_" + id;
  }

  /** A trimmed title that starts with '/' discards the fixed prefix. */
  lemma BaseFolderRootedTitle(trimmed: string, date: string, id: string)
    requires |trimmed| > 0 && trimmed[0] == '/' && trimmed[|trimmed| - 1] != '/'
    requires |date| == 0 || date[0] != '/'
    ensures BaseFolder(trimmed, date, id) == ReplaceBackslashes(trimmed + "/" + date + "_" + id)
  {
    assert PosixJoin(FolderPrefix, trimmed) == trimmed;
    var b := date + "_" + id;
    assert b[0] != '/' by {
      if |date| == 0 { assert b[0] == '_'; }
    }
    assert PosixJoin(trimmed, b) == trimmed + "/" + b;
    assert trimmed + "/" + b == trimmed + "/" + date + "_" + id;
  }

  /** The names the offer loop derives for one listed offer. */
  datatype OfferNames = OfferNames(trimmedTitle: string, id: string, folder: string)

  /** Lines 120-128 of the offer loop: None where the id pattern does not match. */
  function DeriveNames(title: string, href: string, date: string): (r: Option<OfferNames>)
    ensures r.Some? ==> |r.value.id| > 0 && AllDigits(r.value.id)
    ensures r.Some? ==> |r.value.trimmedTitle| <= MaxTitleLength
  {
    var trimmed := TrimTitle(title);
    TrimTitleSpec(title);
    match ExtractId(href)
    case None => None
    case Some(id) => Some(OfferNames(trimmed, id, BaseFolder(trimmed, date, id)))
  }

  // ---------------------------------------------------------- object names

  /** `f"image_{index + 1}.jpg"`. */
  function ImageName(index: nat): string {
    "image_" + NatToString(index + 1) + ".jpg"
  }

  /** `f"{folder_name}/{image_name}"`. */
  function ImageKey(folder: string, index: nat): string {
    folder + "/" + ImageName(index)
  }

  /** `f"{title}_{int(int(id) / 100)}.pdf"`, the quotient taken as integer division. */
  function PdfName(title: string, id: string): string
    requires AllDigits(id)
  {
    title + "_" + NatToString(DigitsToNat(id) / 100) + ".pdf"
  }

  lemma StripAround(a: string, m1: string, m2: string, z: string)
    requires a + m1 + z == a + m2 + z
    ensures m1 == m2
  {
    var s1, s2 := a + m1 + z, a + m2 + z;
    assert |m1| == |m2|;
    assert m1 == s1[|a|..|a| + |m1|];
    assert m2 == s2[|a|..|a| + |m2|];
  }

  /** The key of image `i` lies in the folder and names the 1-based position `i + 1`. */
  lemma ImageKeySpec(folder: string, i: nat)
    ensures folder + "/" <= ImageKey(folder, i)
    ensures ImageKey(folder, i) == folder + "/image_" + NatToString(i + 1) + ".jpg"
  {
  }

  /** Different positions get different keys, so no upload overwrites another of the same offer. */
  lemma ImageKeyInjective(folder: string, i: nat, j: nat)
    ensures ImageKey(folder, i) == ImageKey(folder, j) <==> i == j
  {
    if ImageKey(folder, i) == ImageKey(folder, j) {
      assert ImageKey(folder, i) == (folder + "/image_") + NatToString(i + 1) + ".jpg";
      assert ImageKey(folder, j) == (folder + "/image_") + NatToString(j + 1) + ".jpg";
      StripAround(folder + "/image_", NatToString(i + 1), NatToString(j + 1), ".jpg");
      NatToStringInjective(i + 1, j + 1);
    }
  }

  /** Two ids share a PDF name exactly when they lie in the same block of one hundred. */
  lemma PdfNameGroupsByHundred(title: string, id1: string, id2: string)
    requires AllDigits(id1) && AllDigits(id2)
    ensures PdfName(title, id1) == PdfName(title, id2) <==>
              DigitsToNat(id1) / 100 == DigitsToNat(id2) / 100
  {
    var n1, n2 := DigitsToNat(id1) / 100, DigitsToNat(id2) / 100;
    if PdfName(title, id1) == PdfName(title, id2) {
      StripAround(title + "_", NatToString(n1), NatToString(n2), ".pdf");
      NatToStringInjective(n1, n2);
    }
  }
}
