/** scripts/sigstick-crawler.js, the first SigStick crawler: its
    `extractStickerUrls` (six scans, de-duplication of the raw strings, then
    normalisation and the sticker filter) and its `crawlStickerPack` (no
    page is an error; an empty extraction falls back on ten placeholder
    URLs; files are named by their index in the list). The scans are inputs:
    for each pattern, the URL group of its matches in the order `exec` finds
    them. */
module Crawler {
  import opened Text
  import opened Sigstick
  import opened Dedup

  /** The six scans over the page, in the order the function runs them. */
  datatype Pattern = CdnUrl | ImgSrc | DataSrc | ScriptString | CssBackground | JsonUrl

  datatype Scans = Scans(cdn: seq<string>, img: seq<string>, dataSrc: seq<string>,
                         script: seq<string>, css: seq<string>, json: seq<string>)

  function MatchesOf(scans: Scans, p: Pattern): seq<string>
  {
    match p
    case CdnUrl => scans.cdn
    case ImgSrc => scans.img
    case DataSrc => scans.dataSrc
    case ScriptString => scans.script
    case CssBackground => scans.css
    case JsonUrl => scans.json
  }

  /** The test each scan puts a match through before pushing it: the CDN scan
      pushes every match, the others only URLs on the CDN host, and the
      script-string scan only those longer than ten characters. */
  predicate Admits(p: Pattern, url: string)
  {
    match p
    case CdnUrl => true
    case ScriptString => Contains(url, CdnHost) && |url| > 10
    case _ => Contains(url, CdnHost)
  }

  /** What one scan pushes onto `urls`, in discovery order. */
  function Admitted(p: Pattern, ms: seq<string>): (r: seq<string>)
    ensures |r| <= |ms|
  {
    if ms == [] then []
    else
      var k := |ms| - 1;
      Admitted(p, ms[..k]) + (if Admits(p, ms[k]) then [ms[k]] else [])
  }

  /** A scan pushes exactly the matches it admits. */
  lemma {:induction false} AdmittedMembers(p: Pattern, ms: seq<string>)
    ensures forall u :: u in Admitted(p, ms) <==> u in ms && Admits(p, u)
  {
    if ms != [] {
      var k := |ms| - 1;
      AdmittedMembers(p, ms[..k]);
      assert ms == ms[..k] + [ms[k]];
    }
  }

  /** The `while ((match = pattern.exec(html)) !== null)` loop of one scan. */
  method Scan(p: Pattern, ms: seq<string>, urls: seq<string>) returns (out: seq<string>)
    ensures out == urls + Admitted(p, ms)
  {
    out := urls;
    var i := 0;
    while i < |ms|
      invariant 0 <= i <= |ms|
      invariant out == urls + Admitted(p, ms[..i])
    {
      assert ms[..i + 1][..i] == ms[..i];
      if Admits(p, ms[i]) {
        out := out + [ms[i]];
      }
      i := i + 1;
    }
    assert ms[..i] == ms;
  }

  function TotalMatches(scans: Scans): nat
  {
    |scans.cdn| + |scans.img| + |scans.dataSrc| + |scans.script| + |scans.css| + |scans.json|
  }

  /** `urls` after the six scans. */
  function Collected(scans: Scans): (r: seq<string>)
    ensures |r| <= TotalMatches(scans)
  {
    Admitted(CdnUrl, scans.cdn) + Admitted(ImgSrc, scans.img) + Admitted(DataSrc, scans.dataSrc)
      + Admitted(ScriptString, scans.script) + Admitted(CssBackground, scans.css) + Admitted(JsonUrl, scans.json)
  }

  /** A URL is collected exactly when some scan matched and admitted it. */
  lemma CollectedMembers(scans: Scans, u: string)
    ensures u in Collected(scans) <==> exists p :: u in MatchesOf(scans, p) && Admits(p, u)
  {
    AdmittedMembers(CdnUrl, scans.cdn);
    AdmittedMembers(ImgSrc, scans.img);
    AdmittedMembers(DataSrc, scans.dataSrc);
    AdmittedMembers(ScriptString, scans.script);
    AdmittedMembers(CssBackground, scans.css);
    AdmittedMembers(JsonUrl, scans.json);
    if u in Collected(scans) {
      if u in Admitted(CdnUrl, scans.cdn) {
        assert u in MatchesOf(scans, CdnUrl);
      } else if u in Admitted(ImgSrc, scans.img) {
        assert u in MatchesOf(scans, ImgSrc);
      } else if u in Admitted(DataSrc, scans.dataSrc) {
        assert u in MatchesOf(scans, DataSrc);
      } else if u in Admitted(ScriptString, scans.script) {
        assert u in MatchesOf(scans, ScriptString);
      } else if u in Admitted(CssBackground, scans.css) {
        assert u in MatchesOf(scans, CssBackground);
      } else {
        assert u in MatchesOf(scans, JsonUrl);
      }
    }
  }

  // ---------------------------------------------------------------------
  // [...new Set(urls)].map(normalise), then the filter
  // ---------------------------------------------------------------------

  /** A `Set` of strings compares the raw strings themselves. */
  function RawKey(u: string): string { u }

  function NormalizeEach(us: seq<string>): (r: seq<string>)
    ensures |r| == |us| && forall k :: 0 <= k < |us| ==> r[k] == Normalize(us[k])
  {
    seq(|us|, k requires 0 <= k < |us| => Normalize(us[k]))
  }

  /** Every normalised URL starts with `http` and ends with its original. */
  lemma NormalizeEachShape(us: seq<string>)
    ensures forall k :: 0 <= k < |us| ==>
      StartsWith(NormalizeEach(us)[k], "http") && EndsWith(NormalizeEach(us)[k], us[k])
  {
    forall k | 0 <= k < |us|
      ensures StartsWith(NormalizeEach(us)[k], "http") && EndsWith(NormalizeEach(us)[k], us[k])
    {
      NormalizeShape(us[k]);
    }
  }

  /** `uniqueUrls`: the raw URLs without repeats, in first-occurrence order,
      each normalised afterwards. */
  function UniqueUrls(urls: seq<string>): seq<string>
  {
    NormalizeEach(FirstOccurrences(urls, RawKey))
  }

  /** `uniqueUrls` holds the normalised form of each distinct raw URL,
      in the order of first occurrence, one entry per distinct raw URL. */
  lemma UniqueUrlsMembers(urls: seq<string>)
    ensures var firsts := FirstOccurrences(urls, RawKey);
      && |UniqueUrls(urls)| == |firsts| <= |urls|
      && (forall a, b :: 0 <= a < b < |firsts| ==> firsts[a] != firsts[b])
      && (forall u :: u in urls <==> u in firsts)
      && (forall k :: 0 <= k < |firsts| ==> UniqueUrls(urls)[k] == Normalize(firsts[k]))
  {
    var firsts := FirstOccurrences(urls, RawKey);
    FirstOccurrencesLength(urls, RawKey);
    FirstOccurrencesDistinct(urls, RawKey);
    FirstOccurrencesFrom(urls, RawKey);
    forall u | u in urls ensures u in firsts {
      var i :| 0 <= i < |urls| && urls[i] == u;
      FirstOccurrencesCover(urls, RawKey, i);
    }
  }

  /** `uniqueUrls.filter(...)` with the thumbnail, cover and pack-name tests. */
  function KeepStickers(us: seq<string>, packName: string): seq<string>
  {
    if us == [] then []
    else
      var k := |us| - 1;
      KeepStickers(us[..k], packName) + (if IsStickerUrl(us[k], packName) then [us[k]] else [])
  }

  /** The filter keeps exactly the sticker URLs, and no more of them. */
  lemma {:induction false} KeepStickersMembers(us: seq<string>, packName: string)
    ensures |KeepStickers(us, packName)| <= |us|
    ensures forall u :: u in KeepStickers(us, packName) <==> u in us && IsStickerUrl(u, packName)
  {
    if us != [] {
      var k := |us| - 1;
      KeepStickersMembers(us[..k], packName);
      assert us == us[..k] + [us[k]];
    }
  }

  /** The reference definition of what `extractStickerUrls` returns. */
  function Extracted(scans: Scans, packName: string): seq<string>
  {
    KeepStickers(UniqueUrls(Collected(scans)), packName)
  }

  /** `extractStickerUrls(html, packName)` from the scans of `html` on. */
  method ExtractStickerUrls(scans: Scans, packName: string) returns (stickerUrls: seq<string>)
    ensures stickerUrls == Extracted(scans, packName)
  {
    var urls := Scan(CdnUrl, scans.cdn, []);
    assert urls == Admitted(CdnUrl, scans.cdn);
    urls := Scan(ImgSrc, scans.img, urls);
    urls := Scan(DataSrc, scans.dataSrc, urls);
    urls := Scan(ScriptString, scans.script, urls);
    urls := Scan(CssBackground, scans.css, urls);
    urls := Scan(JsonUrl, scans.json, urls);
    stickerUrls := KeepStickers(UniqueUrls(urls), packName);
  }

  /** What every returned URL satisfies: no thumbnail or cover marker, the
      pack name occurs, there are no more of them than raw matches, and each
      is the normalisation of a match some scan admitted, so that one without
      the CDN host comes from the CDN scan. */
  lemma ExtractedProperties(scans: Scans, packName: string)
    ensures var r := Extracted(scans, packName);
      && |r| <= TotalMatches(scans)
      && (forall u :: u in r ==> !Contains(u, ".thumb") && !Contains(u, "cover-") && Contains(u, packName))
      && (forall u :: u in r ==> exists p, m :: m in MatchesOf(scans, p) && Admits(p, m) && u == Normalize(m))
      && (forall u :: u in r && !Contains(u, CdnHost) ==> exists m :: m in scans.cdn && u == Normalize(m))
  {
    var collected := Collected(scans);
    var unique := UniqueUrls(collected);
    var firsts := FirstOccurrences(collected, RawKey);
    UniqueUrlsMembers(collected);
    KeepStickersMembers(unique, packName);
    forall u | u in Extracted(scans, packName)
      ensures exists p, m :: m in MatchesOf(scans, p) && Admits(p, m) && u == Normalize(m)
      ensures !Contains(u, CdnHost) ==> exists m :: m in scans.cdn && u == Normalize(m)
    {
      var k :| 0 <= k < |unique| && unique[k] == u;
      assert firsts[k] in firsts;
      var m := firsts[k];
      CollectedMembers(scans, m);
      var p :| m in MatchesOf(scans, p) && Admits(p, m);
      if !Contains(u, CdnHost) && p != CdnUrl {
        NormalizeKeepsSubstrings(m, CdnHost);
        assert false;
      }
    }
  }

  /** De-duplicating before normalising lets one sticker through twice: a
      protocol-relative URL and its https form are different strings, so both
      survive the `Set`, and both normalise to the same URL. */
  lemma RawDedupKeepsAliases(u: string, packName: string)
    requires StartsWith(u, "//") && Contains(u, CdnHost) && IsStickerUrl("https:" + u, packName)
    ensures Extracted(Scans(["https:" + u], [u], [], [], [], []), packName) == ["https:" + u, "https:" + u]
  {
    var full := "https:" + u;
    AliasesCollected(full, u);
    AliasesUnique(u);
    KeepBoth(full, packName);
  }

  lemma AliasesCollected(full: string, u: string)
    requires Contains(u, CdnHost)
    ensures Collected(Scans([full], [u], [], [], [], [])) == [full, u]
  {
    AdmittedSingle(CdnUrl, full);
    AdmittedSingle(ImgSrc, u);
  }

  /** A scan with one admitted match pushes just that match. */
  lemma AdmittedSingle(p: Pattern, x: string)
    requires Admits(p, x)
    ensures Admitted(p, [x]) == [x]
  {
    assert [x][..0] == [];
  }

  lemma AliasesUnique(u: string)
    requires StartsWith(u, "//")
    ensures UniqueUrls(["https:" + u, u]) == ["https:" + u, "https:" + u]
  {
    var full := "https:" + u;
    var collected := [full, u];
    assert DistinctKeys(collected, RawKey) by {
      assert |full| != |u|;
    }
    FirstOccurrencesOfDistinct(collected, RawKey);
    assert Normalize(u) == full;
    NormalizeIdempotent(u);
  }

  lemma KeepBoth(url: string, packName: string)
    requires IsStickerUrl(url, packName)
    ensures KeepStickers([url, url], packName) == [url, url]
  {
    assert [url][..0] == [];
    assert KeepStickers([url], packName) == [url];
    assert [url, url][..1] == [url];
  }

  // ---------------------------------------------------------------------
  // crawlStickerPack
  // ---------------------------------------------------------------------

  /** How many placeholder URLs stand in for an empty extraction. */
  const PlaceholderCount := 10

  /** The placeholder URLs 1 to `k`. */
  function Placeholders(packName: string, k: nat): (r: seq<string>)
    ensures |r| == k
  {
    if k == 0 then [] else Placeholders(packName, k - 1) + [SampleUrl(packName, k)]
  }

  lemma {:induction false} PlaceholdersAt(packName: string, k: nat)
    ensures forall j :: 0 <= j < k ==> Placeholders(packName, k)[j] == SampleUrl(packName, j + 1)
  {
    if k > 0 {
      PlaceholdersAt(packName, k - 1);
    }
  }

  /** `path.extname(url) || '.png'` */
  function FileExt(url: string): (e: string)
    ensures e != [] && e[0] == '.'
  {
    var e := ExtName(url);
    if |e| == 0 then ".png" else e
  }

  /** `${packName}-${n}${ext}` */
  function IndexedName(packName: string, n: nat, ext: string): string
  {
    packName + "-" + NatToString(n) + ext
  }

  /** Two names with different numbers differ whatever their extensions, as
      long as each extension starts with '.'. */
  lemma IndexedNamesDistinct(packName: string, m: nat, e1: string, n: nat, e2: string)
    requires m != n
    requires e1 != [] && e1[0] == '.' && e2 != [] && e2[0] == '.'
    ensures IndexedName(packName, m, e1) != IndexedName(packName, n, e2)
  {
    var p := packName + "-";
    assert IndexedName(packName, m, e1) == p + (NatToString(m) + e1);
    assert IndexedName(packName, n, e2) == p + (NatToString(n) + e2);
    if IndexedName(packName, m, e1) == IndexedName(packName, n, e2) {
      DigitsAfterPrefixUnique(p, NatToString(m), e1, NatToString(n), e2);
      NatToStringInjective(m, n);
    }
  }

  /** `${packName}-${i + 1}${path.extname(url) || '.png'}` */
  function FileName(packName: string, i: nat, url: string): string
  {
    IndexedName(packName, i + 1, FileExt(url))
  }

  /** The names `name` gives the URLs of a list, by index. */
  function Named(name: (nat, string) -> string, urls: seq<string>): (r: seq<string>)
    ensures |r| == |urls|
  {
    if urls == [] then []
    else
      var n := |urls| - 1;
      Named(name, urls[..n]) + [name(n, urls[n])]
  }

  lemma {:induction false} NamedAt(name: (nat, string) -> string, urls: seq<string>)
    ensures forall i :: 0 <= i < |urls| ==> Named(name, urls)[i] == name(i, urls[i])
  {
    if urls != [] {
      NamedAt(name, urls[..|urls| - 1]);
    }
  }

  /** The file names the download loop gives the URLs, one per URL. */
  function FileNames(packName: string, urls: seq<string>): seq<string>
  {
    Named((i: nat, u: string) => FileName(packName, i, u), urls)
  }

  lemma FileNamesStep(packName: string, urls: seq<string>, i: nat)
    requires i < |urls|
    ensures FileNames(packName, urls[..i + 1]) == FileNames(packName, urls[..i]) + [FileName(packName, i, urls[i])]
  {
    assert urls[..i + 1][..i] == urls[..i];
  }

  /** URL `i` is saved under `FileName(packName, i, urls[i])`. */
  lemma FileNamesAt(packName: string, urls: seq<string>)
    ensures |FileNames(packName, urls)| == |urls|
    ensures forall i :: 0 <= i < |urls| ==> FileNames(packName, urls)[i] == FileName(packName, i, urls[i])
  {
    NamedAt((i: nat, u: string) => FileName(packName, i, u), urls);
  }

  /** No two URLs of the list share a file name. */
  lemma FileNamesUnique(packName: string, urls: seq<string>)
    ensures forall a, b :: 0 <= a < b < |urls| ==> FileNames(packName, urls)[a] != FileNames(packName, urls)[b]
  {
    FileNamesAt(packName, urls);
    forall a, b | 0 <= a < b < |urls| ensures FileNames(packName, urls)[a] != FileNames(packName, urls)[b] {
      FileNamesDiffer(packName, a, urls[a], b, urls[b]);
    }
  }

  /** Downloads at different indexes get different names. */
  lemma FileNamesDiffer(packName: string, a: nat, u: string, b: nat, v: string)
    requires a != b
    ensures FileName(packName, a, u) != FileName(packName, b, v)
  {
    IndexedNamesDistinct(packName, a + 1, FileExt(u), b + 1, FileExt(v));
  }

  /** The file part of placeholder URL `n`. */
  lemma SampleUrlShape(packName: string, n: nat)
    ensures SampleUrl(packName, n)
      == (BaseUrl + "/stickers/" + packName) + "/" + (("sticker-" + NatToString(n)) + "." + "png")
  {
  }

  lemma NoSlashInSampleFile(n: nat)
    ensures '/' !in ("sticker-" + NatToString(n)) + "." + "png"
  {
    var d := NatToString(n);
    var b := ("sticker-" + d) + "." + "png";
    forall k | 0 <= k < |b| ensures b[k] != '/' {
      if 8 <= k < 8 + |d| {
        assert b[k] == d[k - 8];
      }
    }
  }

  /** A placeholder URL's extension is ".png", whatever the pack name. */
  lemma SampleExtName(packName: string, n: nat)
    ensures ExtName(SampleUrl(packName, n)) == ".png"
  {
    var url := SampleUrl(packName, n);
    var stem := "sticker-" + NatToString(n);
    SampleUrlShape(packName, n);
    assert url[|url| - 1] == 'g';
    assert TrimTrailingSlashes(url) == url;
    NoSlashInSampleFile(n);
    LastSegmentAfter(BaseUrl + "/stickers/" + packName, stem + "." + "png");
    ExtensionAfterDot(stem, "png");
  }

  /** How a crawl ends: the pack page was not found (the error is caught and
      logged, nothing is downloaded), or the list of URLs, the file name given
      to each, the success count, the indices after which the crawler paused,
      and the pack-info.json it wrote. */
  datatype Crawl =
    | PackNotFound
    | Crawled(stickerUrls: seq<string>, fileNames: seq<string>, successCount: nat,
              pauses: seq<nat>, info: PackInfo)

  /** The indices, ascending, of the URLs whose download succeeds among the
      first `n`: after each of them the loop pauses. */
  function Paused(net: (nat, nat) -> Attempt, n: nat): seq<nat>
  {
    if n == 0 then [] else Paused(net, n - 1) + (if Succeeds(net, n - 1) then [n - 1] else [])
  }

  lemma PausedStep(net: (nat, nat) -> Attempt, i: nat)
    ensures Paused(net, i + 1) == Paused(net, i) + (if Succeeds(net, i) then [i] else [])
  {
  }

  /** There is one pause per success. */
  lemma {:induction false} PausedCount(net: (nat, nat) -> Attempt, n: nat)
    ensures |Paused(net, n)| == Successes(net, n)
  {
    if n > 0 {
      PausedCount(net, n - 1);
    }
  }

  /** The crawler pauses after exactly the successful downloads, in
      download order. */
  lemma {:induction false} PausedSpec(net: (nat, nat) -> Attempt, n: nat)
    ensures forall k: nat :: k in Paused(net, n) <==> k < n && Succeeds(net, k)
    ensures forall a, b :: 0 <= a < b < |Paused(net, n)| ==> Paused(net, n)[a] < Paused(net, n)[b]
  {
    if n > 0 {
      PausedSpec(net, n - 1);
      var prev := Paused(net, n - 1);
      assert forall a :: 0 <= a < |prev| ==> prev[a] in prev;
    }
  }

  /** The download loop: URL `i` is saved as `FileName(packName, i, url)`
      with the attempts `net(i, 1..3)`; a failure is logged and the loop goes
      on; every success is counted and followed by a pause. */
  method DownloadAll(stickerUrls: seq<string>, packName: string, net: (nat, nat) -> Attempt)
    returns (fileNames: seq<string>, successCount: nat, pauses: seq<nat>)
    ensures fileNames == FileNames(packName, stickerUrls)
    ensures successCount == Successes(net, |stickerUrls|)
    ensures pauses == Paused(net, |stickerUrls|)
  {
    fileNames, successCount, pauses := [], 0, [];
    var i: nat := 0;
    while i < |stickerUrls|
      invariant i <= |stickerUrls|
      invariant fileNames == FileNames(packName, stickerUrls[..i])
      invariant successCount == |pauses|
      invariant pauses == Paused(net, i)
    {
      var ok := DownloadNumbered(net, i);
      FileNamesStep(packName, stickerUrls, i);
      PausedStep(net, i);
      fileNames := fileNames + [FileName(packName, i, stickerUrls[i])];
      if ok {
        successCount := successCount + 1;
        pauses := pauses + [i];
      } else {
        assert !Succeeds(net, i);
      }
      i := i + 1;
    }
    assert stickerUrls[..i] == stickerUrls;
    PausedCount(net, i);
  }

  /** The URLs a crawl that found its page downloads: the extracted ones, or
      the ten placeholders when nothing was extracted. */
  function CrawlSource(packName: string, page: string, scanPage: string -> Scans): seq<string>
  {
    var found := Extracted(scanPage(page), packName);
    if found == [] then Placeholders(packName, PlaceholderCount) else found
  }

  /** `crawlStickerPack(packName)`, with the clock reading `now`. */
  method CrawlStickerPack(packName: string, fetch: string -> PageReply, scanPage: string -> Scans,
                          net: (nat, nat) -> Attempt, now: string)
    returns (outcome: Crawl)
    ensures PackPage(packName, fetch) == "" <==> outcome.PackNotFound?
    ensures outcome.Crawled? ==>
      var urls := CrawlSource(packName, PackPage(packName, fetch), scanPage);
      && outcome.stickerUrls == urls
      && outcome.fileNames == FileNames(packName, urls)
      && outcome.successCount == Successes(net, |urls|)
      && outcome.pauses == Paused(net, |urls|)
      && outcome.info == MakePackInfo(packName, outcome.successCount, now)
  {
    var html, packUrl, tried := LocatePackPage(packName, fetch);
    if html == "" {
      return PackNotFound;
    }
    var stickerUrls := ExtractStickerUrls(scanPage(html), packName);
    if |stickerUrls| == 0 {
      var i := 1;
      while i <= PlaceholderCount
        invariant 1 <= i <= PlaceholderCount + 1
        invariant stickerUrls == Placeholders(packName, i - 1)
      {
        stickerUrls := stickerUrls + [SampleUrl(packName, i)];
        i := i + 1;
      }
    }
    assert stickerUrls == CrawlSource(packName, html, scanPage);
    var fileNames, successCount, pauses := DownloadAll(stickerUrls, packName, net);
    outcome := Crawled(stickerUrls, fileNames, successCount, pauses, MakePackInfo(packName, successCount, now));
  }

  /** When the page yields no sticker URL, the crawl downloads the ten
      placeholders and names them `${packName}-1.png` to `${packName}-10.png`. */
  lemma CrawlFallback(packName: string, page: string, scanPage: string -> Scans)
    requires Extracted(scanPage(page), packName) == []
    ensures var urls := CrawlSource(packName, page, scanPage);
      && |urls| == PlaceholderCount
      && forall i :: 0 <= i < PlaceholderCount ==>
           urls[i] == SampleUrl(packName, i + 1)
           && FileName(packName, i, urls[i]) == IndexedName(packName, i + 1, ".png")
  {
    var urls := CrawlSource(packName, page, scanPage);
    PlaceholdersAt(packName, PlaceholderCount);
    forall i | 0 <= i < PlaceholderCount ensures ExtName(urls[i]) == ".png" {
      SampleExtName(packName, i + 1);
    }
  }
}
