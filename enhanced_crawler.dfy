/** The rest of scripts/sigstick-crawler-enhanced.js: the sample URLs it
    falls back on, `downloadStickers`, `createPackMetadata` and
    `crawlStickerPack`. The page fetches and file downloads are the oracles of
    module Sigstick; the regular-expression scans of a page are the function
    `scanPage`. */
module EnhancedCrawler {
  import opened Wrappers
  import opened Text
  import opened Sigstick
  import opened EnhancedUrls
  import opened DownloadList

  /** `CONFIG.preferWebP` */
  const PreferWebP := true

  /** How many sample URLs the fallback makes. */
  const SampleCount := 10

  // ---------------------------------------------------------------------
  // The fallback sample URLs
  // ---------------------------------------------------------------------

  function SampleCandidate(packName: string, i: nat): Candidate
  {
    Candidate(SampleUrl(packName, i), "png")
  }

  /** `sampleUrls` after `for (let i = 1; i <= k; i++)`. */
  function Samples(packName: string, k: nat): (r: seq<Candidate>)
    ensures |r| == k
  {
    if k == 0 then [] else Samples(packName, k - 1) + [SampleCandidate(packName, k)]
  }

  /** The `j`-th sample URL is the one for sticker `j + 1`. */
  lemma {:induction false} SamplesAt(packName: string, k: nat)
    ensures forall j :: 0 <= j < k ==> Samples(packName, k)[j] == SampleCandidate(packName, j + 1)
  {
    if k > 0 {
      SamplesAt(packName, k - 1);
    }
  }

  /** The loop that fills `sampleUrls`. */
  method MakeSampleUrls(packName: string) returns (sampleUrls: seq<Candidate>)
    ensures sampleUrls == Samples(packName, SampleCount)
  {
    sampleUrls := [];
    var i := 1;
    while i <= SampleCount
      invariant 1 <= i <= SampleCount + 1
      invariant sampleUrls == Samples(packName, i - 1)
    {
      sampleUrls := sampleUrls + [SampleCandidate(packName, i)];
      i := i + 1;
    }
  }

  /** The ordinal pattern reads `i` back from the `i`-th sample URL, whatever
      the pack name. */
  lemma SampleOrdinal(packName: string, i: nat)
    ensures ParseOrdinal(SampleUrl(packName, i)) == Some(i)
  {
    var y := BaseUrl + "/stickers/" + packName + "/sticker-";
    var d := NatToString(i);
    assert SampleUrl(packName, i) == y + d + [] + "." + "png";
    assert y[|y| - 1] == '-' && y[|y| - 2] == 'r';
    ParseOrdinalOf(y, d, [], "png");
    NatToStringRoundTrip(i);
  }

  /** The sample URLs are numbered 1 to `k` in order. */
  lemma SamplesNumbered(packName: string, k: nat)
    ensures NumberedInOrder(Samples(packName, k))
  {
    forall j | 0 <= j < k ensures ParseOrdinal(Samples(packName, k)[j].url) == Some(j + 1) {
      SampleNumber(packName, k, j);
    }
  }

  lemma SampleNumber(packName: string, k: nat, j: nat)
    requires j < k
    ensures ParseOrdinal(Samples(packName, k)[j].url) == Some(j + 1)
  {
    var u := Samples(packName, k)[j].url;
    assert u == SampleUrl(packName, j + 1) by {
      SamplesAt(packName, k);
    }
    SampleOrdinal(packName, j + 1);
  }

  /** The task list the fallback samples give: ordinals 1 to `k`, each a
      PNG named `${packName}-${n}.png`. */
  function SampleTasks(packName: string, k: nat): (r: seq<DownloadTask>)
    ensures |r| == k
  {
    if k == 0 then [] else SampleTasks(packName, k - 1) + [SampleTask(packName, k)]
  }

  /** Task `j` is the PNG of sticker `j + 1`. */
  lemma {:induction false} SampleTasksAt(packName: string, k: nat)
    ensures forall j :: 0 <= j < k ==> SampleTasks(packName, k)[j] == SampleTask(packName, j + 1)
  {
    if k > 0 {
      SampleTasksAt(packName, k - 1);
    }
  }

  function SampleTask(packName: string, n: nat): DownloadTask
  {
    DownloadTask(SampleUrl(packName, n), TaskFileName(packName, n, "png"), "png", n)
  }

  /** A slot holding one sample URL gives its PNG task, with or without the
      WebP preference. */
  lemma SampleSlotTasks(packName: string, n: nat, preferWebP: bool)
    ensures SlotTasks(packName, n, [SampleCandidate(packName, n)], preferWebP) == [SampleTask(packName, n)]
  {
    var slot := [SampleCandidate(packName, n)];
    assert FindExt(slot, "webp").None?;
    assert FindExt(slot, "png") == Some(0);
  }

  lemma SampleHead(packName: string, preferWebP: bool, k: nat, lo: nat)
    requires 1 <= lo <= k
    ensures SlotTasks(packName, lo, Slot(Samples(packName, k), lo), preferWebP) == [SampleTask(packName, lo)]
  {
    SamplesNumbered(packName, k);
    NumberedSlot(Samples(packName, k), lo);
    SamplesAt(packName, k);
    SampleSlotTasks(packName, lo, preferWebP);
  }

  /** Contributions of nothing for 0 and of the PNG task of `n` for every
      `n` from 1 to `j` concatenate to the first `j` sample tasks. */
  lemma {:induction false} ConcatSamples(tasksOf: nat -> seq<DownloadTask>, packName: string, j: nat)
    requires tasksOf(0) == []
    requires forall n :: 1 <= n <= j ==> tasksOf(n) == [SampleTask(packName, n)]
    ensures Concat(tasksOf, j + 1) == SampleTasks(packName, j)
  {
    if j > 0 {
      ConcatSamples(tasksOf, packName, j - 1);
    }
  }

  /** No sample URL has ordinal 0. */
  lemma SampleNoZero(packName: string, preferWebP: bool, k: nat)
    ensures PerOrdinal(Samples(packName, k), packName, preferWebP)(0) == []
  {
    SamplesNumbered(packName, k);
    NumberedSlot(Samples(packName, k), 0);
    assert SlotTasks(packName, 0, [], preferWebP) == [];
  }

  /** The fallback list: ten PNG tasks numbered 1 to 10, the `i`-th for the
      `i`-th sample URL, named `${packName}-${i}.png`. */
  lemma SamplePlan(packName: string, preferWebP: bool)
    ensures Plan(Samples(packName, SampleCount), packName, preferWebP) == SampleTasks(packName, SampleCount)
  {
    var f := PerOrdinal(Samples(packName, SampleCount), packName, preferWebP);
    SampleNoZero(packName, preferWebP, SampleCount);
    forall n | 1 <= n <= SampleCount ensures f(n) == [SampleTask(packName, n)] {
      SampleHead(packName, preferWebP, SampleCount, n);
    }
    ConcatSamples(f, packName, SampleCount);
    SamplesNumbered(packName, SampleCount);
    NumberedBound(Samples(packName, SampleCount));
  }

  // ---------------------------------------------------------------------
  // Format tallies (`formatStats`) and `hasAnimated`
  // ---------------------------------------------------------------------

  /** How many tasks have extension `e`. */
  function CountExt(list: seq<DownloadTask>, e: string): (n: nat)
    ensures n <= |list|
  {
    if list == [] then 0
    else
      var k := |list| - 1;
      CountExt(list[..k], e) + (if list[k].ext == e then 1 else 0)
  }

  /** `formatStats` after the `forEach` over `downloadList`. */
  function FormatStats(list: seq<DownloadTask>): map<string, nat>
  {
    if list == [] then map[]
    else
      var k := |list| - 1;
      var m := FormatStats(list[..k]);
      var e := list[k].ext;
      m[e := (if e in m then m[e] else 0) + 1]
  }

  /** The tallies count each extension of the list, and only those. */
  lemma {:induction false} FormatStatsCounts(list: seq<DownloadTask>)
    ensures forall e :: e in FormatStats(list) <==> exists t :: t in list && t.ext == e
    ensures forall e :: e in FormatStats(list) ==> FormatStats(list)[e] == CountExt(list, e)
  {
    if list != [] {
      var k := |list| - 1;
      FormatStatsCounts(list[..k]);
      assert list == list[..k] + [list[k]];
      var e := list[k].ext;
      if e !in FormatStats(list[..k]) {
        CountExtZero(list[..k], e);
      }
    }
  }

  lemma {:induction false} CountExtZero(list: seq<DownloadTask>, e: string)
    requires forall t :: t in list ==> t.ext != e
    ensures CountExt(list, e) == 0
  {
    if list != [] {
      var k := |list| - 1;
      assert list[k] in list;
      assert forall t :: t in list[..k] ==> t in list;
      CountExtZero(list[..k], e);
    }
  }

  /** The sum of a map's values. */
  ghost function MapSum(m: map<string, nat>): nat
    decreases |m.Keys|
  {
    if m == map[] then 0
    else
      var k :| k in m;
      m[k] + MapSum(m - {k})
  }

  lemma {:induction false} MapSumRemove(m: map<string, nat>, k: string)
    requires k in m
    ensures MapSum(m) == m[k] + MapSum(m - {k})
    decreases |m.Keys|
  {
    var j :| j in m && MapSum(m) == m[j] + MapSum(m - {j});
    if j != k {
      assert |(m - {j}).Keys| < |m.Keys| by {
        assert (m - {j}).Keys < m.Keys;
      }
      MapSumRemove(m - {j}, k);
      assert |(m - {k}).Keys| < |m.Keys| by {
        assert (m - {k}).Keys < m.Keys;
      }
      MapSumRemove(m - {k}, j);
      assert m - {j} - {k} == m - {k} - {j};
    }
  }

  /** Every task is counted once: the tallies add up to the list's length. */
  lemma {:induction false} FormatStatsTotal(list: seq<DownloadTask>)
    ensures MapSum(FormatStats(list)) == |list|
  {
    if list != [] {
      var k := |list| - 1;
      var m := FormatStats(list[..k]);
      var e := list[k].ext;
      FormatStatsTotal(list[..k]);
      MapSumBump(m, e);
    }
  }

  /** Counting one more task of an extension adds one to the total. */
  lemma MapSumBump(m: map<string, nat>, e: string)
    ensures MapSum(m[e := (if e in m then m[e] else 0) + 1]) == MapSum(m) + 1
  {
    var m' := m[e := (if e in m then m[e] else 0) + 1];
    MapSumRemove(m', e);
    assert m' - {e} == m - {e};
    if e in m {
      MapSumRemove(m, e);
    } else {
      assert m - {e} == m;
    }
  }

  /** `formatStats.webp > 0 || formatStats.gif > 0` (a missing key compares
      as `undefined > 0`, which is false). */
  function HasAnimated(stats: map<string, nat>): bool
  {
    ("webp" in stats && stats["webp"] > 0) || ("gif" in stats && stats["gif"] > 0)
  }

  /** A pack has animation exactly when it downloads a WebP or a GIF. */
  lemma HasAnimatedIff(list: seq<DownloadTask>)
    ensures HasAnimated(FormatStats(list)) <==> exists t :: t in list && (t.ext == "webp" || t.ext == "gif")
  {
    FormatStatsCounts(list);
    if exists t :: t in list && (t.ext == "webp" || t.ext == "gif") {
      var t :| t in list && (t.ext == "webp" || t.ext == "gif");
      CountExtPositive(list, t);
    }
  }

  lemma {:induction false} CountExtPositive(list: seq<DownloadTask>, t: DownloadTask)
    requires t in list
    ensures CountExt(list, t.ext) > 0
  {
    var k := |list| - 1;
    if list[k] != t {
      assert t in list[..k];
      CountExtPositive(list[..k], t);
    }
  }

  // ---------------------------------------------------------------------
  // createPackMetadata and downloadStickers
  // ---------------------------------------------------------------------

  /** The pack-info.json of the enhanced crawler. */
  datatype PackManifest = PackManifest(info: PackInfo, formats: map<string, nat>, hasAnimated: bool)

  /** `createPackMetadata(packName, stickerCount, downloadList)`, with the
      clock reading `now`; the file write is not modelled. */
  method CreatePackMetadata(packName: string, stickerCount: nat, downloadList: seq<DownloadTask>, now: string)
    returns (manifest: PackManifest)
    ensures manifest.info == MakePackInfo(packName, stickerCount, now)
    ensures manifest.formats == FormatStats(downloadList)
    ensures manifest.hasAnimated <==> exists t :: t in downloadList && (t.ext == "webp" || t.ext == "gif")
  {
    var formatStats: map<string, nat> := map[];
    var i := 0;
    while i < |downloadList|
      invariant 0 <= i <= |downloadList|
      invariant formatStats == FormatStats(downloadList[..i])
    {
      assert downloadList[..i + 1][..i] == downloadList[..i];
      var ext := downloadList[i].ext;
      formatStats := formatStats[ext := (if ext in formatStats then formatStats[ext] else 0) + 1];
      i := i + 1;
    }
    assert downloadList[..i] == downloadList;
    HasAnimatedIff(downloadList);
    manifest := PackManifest(MakePackInfo(packName, stickerCount, now), formatStats, HasAnimated(formatStats));
  }

  /** `CONFIG.outputDir` */
  const OutputDir := "./stickers"

  /** `path.join(CONFIG.outputDir, packName)` */
  function PackDir(packName: string): string
  {
    JoinPath(OutputDir, packName)
  }

  /** `packDir.split(path.sep).pop()`, the id the metadata is written under,
      is the pack name when it has no '/' and is not "", "." or "..";
      `path.join` drops "" and ".", leaving "stickers", and ".." climbs out
      of the output directory, leaving ".". */
  lemma PackDirName(packName: string)
    requires '/' !in packName
    ensures LastSegment(PackDir(packName)) ==
      if packName == "" || packName == "." then "stickers"
      else if packName == ".." then "."
      else packName
  {
    OutputDirSegments();
    if packName == "" {
      StickersDir();
    } else {
      PackDirJoined(packName);
    }
  }

  /** A non-empty slash-free name is resolved as one more segment. */
  lemma PackDirJoined(packName: string)
    requires '/' !in packName && packName != ""
    requires SplitSlash(OutputDir) == [".", "stickers"]
    requires Resolve(SplitSlash(OutputDir)) == ["stickers"]
    ensures PackDir(packName) ==
      if packName == "." then "stickers"
      else if packName == ".." then "."
      else "stickers" + "/" + packName
    ensures LastSegment(PackDir(packName)) ==
      if packName == "." then "stickers"
      else if packName == ".." then "."
      else packName
  {
    PackDirResolved(packName);
    DirLastSegment(PackDir(packName), packName);
  }

  /** The last segment of each of the three joined forms. */
  lemma DirLastSegment(dir: string, packName: string)
    requires '/' !in packName
    requires dir ==
      if packName == "." then "stickers"
      else if packName == ".." then "."
      else "stickers" + "/" + packName
    ensures LastSegment(dir) ==
      if packName == "." then "stickers"
      else if packName == ".." then "."
      else packName
  {
    if packName == "." {
      LastSegmentOfPlain("stickers");
    } else if packName == ".." {
      LastSegmentOfPlain(".");
    } else {
      LastSegmentAfter("stickers", packName);
    }
  }

  /** The joined directory, case by case. */
  lemma PackDirResolved(packName: string)
    requires '/' !in packName && packName != ""
    requires SplitSlash(OutputDir) == [".", "stickers"]
    requires Resolve(SplitSlash(OutputDir)) == ["stickers"]
    ensures PackDir(packName) ==
      if packName == "." then "stickers"
      else if packName == ".." then "."
      else "stickers" + "/" + packName
  {
    var joined := OutputDir + "/" + packName;
    var segs := ResolveStep(["stickers"], packName);
    assert PackDir(packName) == NormalizePath(joined);
    assert joined[|joined| - 1] != '/' by {
      assert joined[|joined| - 1] == packName[|packName| - 1];
    }
    JoinedSegments(packName);
    NormalizePathOf(joined, segs);
    PackNameSegments(packName);
  }

  /** What the pack name leaves after "stickers" once resolved and joined. */
  lemma PackNameSegments(packName: string)
    requires '/' !in packName && packName != ""
    ensures JoinSlash(ResolveStep(["stickers"], packName)) ==
      if packName == "." then "stickers"
      else if packName == ".." then []
      else "stickers" + "/" + packName
  {
    if packName != "." && packName != ".." {
      var segs := ["stickers", packName];
      assert segs[..1] == ["stickers"];
    }
  }

  /** The output directory splits into "." and "stickers", and only the
      latter is kept. */
  lemma OutputDirSegments()
    ensures SplitSlash(OutputDir) == [".", "stickers"]
    ensures Resolve(SplitSlash(OutputDir)) == ["stickers"]
  {
    assert OutputDir == "." + "/" + "stickers";
    DotSegments("stickers");
  }

  /** Normalising the output directory alone gives "stickers", its own last
      segment. */
  lemma StickersDir()
    requires Resolve(SplitSlash(OutputDir)) == ["stickers"]
    ensures NormalizePath(OutputDir) == "stickers"
    ensures LastSegment("stickers") == "stickers"
  {
    LastSegmentOfPlain("stickers");
  }

  /** A slash-free pack name is one more segment after the output directory. */
  lemma JoinedSegments(packName: string)
    requires '/' !in packName && packName != ""
    requires SplitSlash(OutputDir) == [".", "stickers"]
    requires Resolve(SplitSlash(OutputDir)) == ["stickers"]
    ensures Resolve(SplitSlash(OutputDir + "/" + packName)) == ResolveStep(["stickers"], packName)
  {
    SplitSlashAppend(OutputDir, packName);
    var segs := [".", "stickers", packName];
    assert SplitSlash(OutputDir + "/" + packName) == segs;
    assert segs[..2] == [".", "stickers"];
  }

  /** `downloadStickers(downloadList, packDir)`: task `i` is downloaded with
      the attempts `net(i, 1..3)`; a pause follows every success except one
      on the last task; then the metadata is made with the success count. */
  method DownloadStickers(downloadList: seq<DownloadTask>, net: (nat, nat) -> Attempt, packDir: string, now: string)
    returns (successCount: nat, pauses: seq<nat>, manifest: PackManifest)
    ensures successCount == Successes(net, |downloadList|) && successCount <= |downloadList|
    ensures forall k: nat :: k in pauses <==> k + 1 < |downloadList| && Succeeds(net, k)
    ensures forall a, b :: 0 <= a < b < |pauses| ==> pauses[a] < pauses[b]
    ensures manifest.info == MakePackInfo(LastSegment(packDir), successCount, now)
    ensures manifest.formats == FormatStats(downloadList)
    ensures manifest.hasAnimated <==> exists t :: t in downloadList && (t.ext == "webp" || t.ext == "gif")
  {
    successCount := 0;
    pauses := [];
    var i := 0;
    while i < |downloadList|
      invariant 0 <= i <= |downloadList|
      invariant successCount == Successes(net, i)
      invariant forall k: nat :: k in pauses <==> k < i && k + 1 < |downloadList| && Succeeds(net, k)
      invariant forall a, b :: 0 <= a < b < |pauses| ==> pauses[a] < pauses[b]
      invariant forall k :: k in pauses ==> k < i
    {
      var ok := DownloadNumbered(net, i);
      if ok {
        successCount := successCount + 1;
        if i < |downloadList| - 1 {
          assert forall a :: 0 <= a < |pauses| ==> pauses[a] in pauses;
          pauses := pauses + [i];
        }
      }
      i := i + 1;
    }
    manifest := CreatePackMetadata(LastSegment(packDir), successCount, downloadList, now);
  }

  // ---------------------------------------------------------------------
  // crawlStickerPack
  // ---------------------------------------------------------------------

  /** The URLs the list is made from: those extracted from the pack page, or
      the samples when there is no page or nothing was extracted. */
  function CrawlSource(packName: string, fetch: string -> PageReply, scanPage: string -> Scans): seq<Candidate>
  {
    var page := PackPage(packName, fetch);
    var found := if page == "" then [] else Extracted(scanPage(page), packName);
    if found == [] then Samples(packName, SampleCount) else found
  }

  /** `crawlStickerPack(packName)`. */
  method CrawlStickerPack(packName: string, fetch: string -> PageReply, scanPage: string -> Scans,
                          net: (nat, nat) -> Attempt, now: string)
    returns (downloadList: seq<DownloadTask>, successCount: nat, manifest: PackManifest)
    ensures downloadList == Plan(CrawlSource(packName, fetch, scanPage), packName, PreferWebP)
    ensures successCount == Successes(net, |downloadList|)
    ensures manifest.info == MakePackInfo(LastSegment(PackDir(packName)), successCount, now)
    ensures manifest.formats == FormatStats(downloadList)
    ensures manifest.hasAnimated <==> exists t :: t in downloadList && (t.ext == "webp" || t.ext == "gif")
  {
    var html, packUrl, tried := LocatePackPage(packName, fetch);
    var candidates: seq<Candidate>;
    if html == "" {
      candidates := MakeSampleUrls(packName);
    } else {
      var stickerUrls := ExtractStickerUrls(scanPage(html), packName);
      if |stickerUrls| == 0 {
        candidates := MakeSampleUrls(packName);
      } else {
        candidates := stickerUrls;
      }
    }
    downloadList := CreateDownloadList(candidates, packName, PreferWebP);
    var pauses;
    successCount, pauses, manifest := DownloadStickers(downloadList, net, PackDir(packName), now);
  }

  /** With no pack page, or none of its URLs a sticker's, the crawl asks for
      exactly the ten sample PNGs, numbered 1 to 10. */
  lemma CrawlFallback(packName: string, fetch: string -> PageReply, scanPage: string -> Scans)
    requires PackPage(packName, fetch) == "" || Extracted(scanPage(PackPage(packName, fetch)), packName) == []
    ensures Plan(CrawlSource(packName, fetch, scanPage), packName, PreferWebP) == SampleTasks(packName, SampleCount)
  {
    SamplePlan(packName, PreferWebP);
  }

  /** Otherwise every task is one of the extracted sticker URLs, at most one
      per ordinal, in ascending ordinal order. */
  lemma CrawlFromPage(packName: string, fetch: string -> PageReply, scanPage: string -> Scans)
    requires PackPage(packName, fetch) != ""
    requires Extracted(scanPage(PackPage(packName, fetch)), packName) != []
    ensures var found := Extracted(scanPage(PackPage(packName, fetch)), packName);
      var list := Plan(CrawlSource(packName, fetch, scanPage), packName, PreferWebP);
      && Ascending(list, true)
      && forall t :: t in list ==> exists c :: c in found && c.url == t.url && ParseOrdinal(c.url) == Some(t.number)
  {
    var found := Extracted(scanPage(PackPage(packName, fetch)), packName);
    PlanSorted(found, packName, PreferWebP);
    PlanTasks(found, packName, PreferWebP);
  }
}
