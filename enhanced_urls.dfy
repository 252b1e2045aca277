/** `extractStickerUrls` of scripts/sigstick-crawler-enhanced.js, after the
    regular-expression scans: admission of each scan's matches, normalisation
    with de-duplication by the normalised URL (the first occurrence keeps its
    extension), and the sticker filter. The scans themselves are inputs: for
    each of the four patterns, its matches in the order `exec` finds them. */
module EnhancedUrls {
  import opened Text
  import opened Sigstick
  import opened Dedup

  /** One match of a scan: the URL text and its (case-insensitive) extension group. */
  datatype Match = Match(url: string, ext: string)

  /** A candidate sticker: a URL and its lower-cased extension. */
  datatype Candidate = Candidate(url: string, ext: string)

  /** The four scans over the page, in the order the function runs them. */
  datatype Pattern = CdnUrl | ImgSrc | ScriptString | JsonUrl

  datatype Scans = Scans(cdn: seq<Match>, img: seq<Match>, script: seq<Match>, json: seq<Match>)

  function MatchesOf(scans: Scans, p: Pattern): seq<Match>
  {
    match p
    case CdnUrl => scans.cdn
    case ImgSrc => scans.img
    case ScriptString => scans.script
    case JsonUrl => scans.json
  }

  /** The test each scan puts a match through before pushing it. */
  predicate Admits(p: Pattern, packName: string, url: string)
  {
    match p
    case CdnUrl => Contains(url, packName)
    case ImgSrc => Contains(url, CdnHost) && Contains(url, packName)
    case ScriptString => Contains(url, CdnHost) && Contains(url, packName) && |url| > 10
    case JsonUrl => Contains(url, CdnHost) && Contains(url, packName)
  }

  function Pushed(m: Match): Candidate { Candidate(m.url, ToLower(m.ext)) }

  /** What one scan pushes onto `urls`, in discovery order. */
  function Admitted(p: Pattern, packName: string, ms: seq<Match>): (r: seq<Candidate>)
    ensures |r| <= |ms|
  {
    if ms == [] then []
    else
      var k := |ms| - 1;
      Admitted(p, packName, ms[..k]) + (if Admits(p, packName, ms[k].url) then [Pushed(ms[k])] else [])
  }

  /** A scan pushes, lower-casing the extension, exactly the matches it
      admits. */
  lemma {:induction false} AdmittedMembers(p: Pattern, packName: string, ms: seq<Match>)
    ensures forall c :: c in Admitted(p, packName, ms) ==>
      Admits(p, packName, c.url) && exists m :: m in ms && c == Pushed(m)
    ensures forall m :: m in ms && Admits(p, packName, m.url) ==> Pushed(m) in Admitted(p, packName, ms)
  {
    if ms != [] {
      var k := |ms| - 1;
      AdmittedMembers(p, packName, ms[..k]);
      assert ms == ms[..k] + [ms[k]];
    }
  }

  /** The `while ((match = pattern.exec(html)) !== null)` loop of one scan. */
  method Scan(p: Pattern, packName: string, ms: seq<Match>, urls: seq<Candidate>) returns (out: seq<Candidate>)
    ensures out == urls + Admitted(p, packName, ms)
  {
    out := urls;
    var i := 0;
    while i < |ms|
      invariant 0 <= i <= |ms|
      invariant out == urls + Admitted(p, packName, ms[..i])
    {
      assert ms[..i + 1][..i] == ms[..i];
      if Admits(p, packName, ms[i].url) {
        out := out + [Pushed(ms[i])];
      }
      i := i + 1;
    }
    assert ms[..i] == ms;
  }

  /** `urls` after the four scans. */
  function Collected(scans: Scans, packName: string): (r: seq<Candidate>)
    ensures |r| <= |scans.cdn| + |scans.img| + |scans.script| + |scans.json|
  {
    Admitted(CdnUrl, packName, scans.cdn) + Admitted(ImgSrc, packName, scans.img)
      + Admitted(ScriptString, packName, scans.script) + Admitted(JsonUrl, packName, scans.json)
  }

  /** Every collected candidate is pushed by one of the scans, for a match it admits. */
  lemma CollectedFromScans(scans: Scans, packName: string, c: Candidate)
    requires c in Collected(scans, packName)
    ensures exists p, m :: m in MatchesOf(scans, p) && Admits(p, packName, m.url) && c == Pushed(m)
  {
    var a1, a2 := Admitted(CdnUrl, packName, scans.cdn), Admitted(ImgSrc, packName, scans.img);
    var a3, a4 := Admitted(ScriptString, packName, scans.script), Admitted(JsonUrl, packName, scans.json);
    AdmittedMembers(CdnUrl, packName, scans.cdn);
    AdmittedMembers(ImgSrc, packName, scans.img);
    AdmittedMembers(ScriptString, packName, scans.script);
    AdmittedMembers(JsonUrl, packName, scans.json);
    assert c in a1 || c in a2 || c in a3 || c in a4;
    if c in a1 {
      var m :| m in scans.cdn && c == Pushed(m);
      assert m in MatchesOf(scans, CdnUrl);
    } else if c in a2 {
      var m :| m in scans.img && c == Pushed(m);
      assert m in MatchesOf(scans, ImgSrc);
    } else if c in a3 {
      var m :| m in scans.script && c == Pushed(m);
      assert m in MatchesOf(scans, ScriptString);
    } else {
      var m :| m in scans.json && c == Pushed(m);
      assert m in MatchesOf(scans, JsonUrl);
    }
  }

  // ---------------------------------------------------------------------
  // De-duplication by normalised URL
  // ---------------------------------------------------------------------

  /** The key `uniqueUrls` is de-duplicated by. */
  function NormalKey(c: Candidate): string { Normalize(c.url) }

  function Normalized(c: Candidate): Candidate { Candidate(Normalize(c.url), c.ext) }

  function NormalizeAll(cs: seq<Candidate>): (r: seq<Candidate>)
    ensures |r| == |cs| && forall k :: 0 <= k < |cs| ==> r[k] == Normalized(cs[k])
  {
    seq(|cs|, k requires 0 <= k < |cs| => Normalized(cs[k]))
  }

  /** Every normalised candidate has an `http` URL ending in its original
      one, and keeps its extension. */
  lemma NormalizeAllShape(cs: seq<Candidate>)
    ensures forall k :: 0 <= k < |cs| ==>
      var r := NormalizeAll(cs)[k];
      StartsWith(r.url, "http") && EndsWith(r.url, cs[k].url) && r.ext == cs[k].ext
  {
    forall k | 0 <= k < |cs|
      ensures StartsWith(NormalizeAll(cs)[k].url, "http") && EndsWith(NormalizeAll(cs)[k].url, cs[k].url)
    {
      NormalizeShape(cs[k].url);
    }
  }

  /** The reference definition of `uniqueUrls`: the first candidate of each
      normalised URL, normalised, in discovery order. */
  function UniqueNormalized(urls: seq<Candidate>): seq<Candidate>
  {
    NormalizeAll(FirstOccurrences(urls, NormalKey))
  }

  /** One more candidate adds its normalised form exactly when it is the
      first with its normalised URL. */
  lemma UniqueNormalizedStep(urls: seq<Candidate>, i: nat)
    requires i < |urls|
    ensures UniqueNormalized(urls[..i + 1]) == UniqueNormalized(urls[..i])
      + (if FirstOf(urls, NormalKey, i) then [Normalized(urls[i])] else [])
  {
    var prefix := urls[..i + 1];
    assert prefix[..i] == urls[..i];
    FirstOfPrefix(urls, NormalKey, i + 1, i);
    var before := FirstOccurrences(urls[..i], NormalKey);
    assert NormalizeAll(before + [urls[i]]) == NormalizeAll(before) + [Normalized(urls[i])];
  }

  /** `seen` holds the normalised URLs met so far: the next candidate is a
      first occurrence iff its URL is not in it, and adding that URL keeps it
      up to date. */
  lemma SeenStep(urls: seq<Candidate>, i: nat, seen: set<string>)
    requires i < |urls|
    requires forall u :: u in seen <==> exists j :: 0 <= j < i && NormalKey(urls[j]) == u
    ensures FirstOf(urls, NormalKey, i) <==> NormalKey(urls[i]) !in seen
    ensures NormalKey(urls[i]) in seen ==> seen + {NormalKey(urls[i])} == seen
    ensures forall u :: u in seen + {NormalKey(urls[i])} <==> exists j :: 0 <= j < i + 1 && NormalKey(urls[j]) == u
  {
    forall u | u in seen + {NormalKey(urls[i])}
      ensures exists j :: 0 <= j < i + 1 && NormalKey(urls[j]) == u
    {
      if u == NormalKey(urls[i]) {
        assert NormalKey(urls[i]) == u;
      }
    }
  }

  /** The `forEach` over `urls` with the `seen` set. */
  method DedupNormalize(urls: seq<Candidate>) returns (unique: seq<Candidate>)
    ensures unique == UniqueNormalized(urls)
  {
    unique := [];
    var seen: set<string> := {};
    var i := 0;
    while i < |urls|
      invariant 0 <= i <= |urls|
      invariant unique == UniqueNormalized(urls[..i])
      invariant forall u :: u in seen <==> exists j :: 0 <= j < i && NormalKey(urls[j]) == u
    {
      var normalizedUrl := Normalize(urls[i].url);
      UniqueNormalizedStep(urls, i);
      SeenStep(urls, i, seen);
      if normalizedUrl !in seen {
        seen := seen + {normalizedUrl};
        unique := unique + [Candidate(normalizedUrl, urls[i].ext)];
      }
      i := i + 1;
    }
    assert urls[..i] == urls;
  }

  /** De-duplication never lengthens the list. */
  lemma UniqueNormalizedLength(urls: seq<Candidate>)
    ensures |UniqueNormalized(urls)| <= |urls|
  {
    FirstOccurrencesLength(urls, NormalKey);
  }

  /** Each entry of `uniqueUrls` is the normalised form of the first candidate
      with its normalised URL, and each such first candidate has its entry. */
  lemma UniqueNormalizedMembers(urls: seq<Candidate>, c: Candidate)
    ensures c in UniqueNormalized(urls) <==>
      exists i :: 0 <= i < |urls| && FirstOf(urls, NormalKey, i) && c == Normalized(urls[i])
  {
    var firsts := FirstOccurrences(urls, NormalKey);
    FirstOccurrencesFrom(urls, NormalKey);
    if c in UniqueNormalized(urls) {
      var k :| 0 <= k < |firsts| && c == Normalized(firsts[k]);
      assert firsts[k] in firsts;
    }
    if exists i :: 0 <= i < |urls| && FirstOf(urls, NormalKey, i) && c == Normalized(urls[i]) {
      var i :| 0 <= i < |urls| && FirstOf(urls, NormalKey, i) && c == Normalized(urls[i]);
      FirstOccurrencesComplete(urls, NormalKey, i);
      var k :| 0 <= k < |firsts| && firsts[k] == urls[i];
      assert UniqueNormalized(urls)[k] == c;
    }
  }

  /** Every raw candidate's normalised URL is among the URLs of `uniqueUrls`. */
  lemma UniqueNormalizedCovers(urls: seq<Candidate>, i: nat)
    requires i < |urls|
    ensures exists c :: c in UniqueNormalized(urls) && c.url == Normalize(urls[i].url)
  {
    var firsts := FirstOccurrences(urls, NormalKey);
    FirstOccurrencesCover(urls, NormalKey, i);
    var y :| y in firsts && NormalKey(y) == NormalKey(urls[i]);
    var k :| 0 <= k < |firsts| && firsts[k] == y;
    assert UniqueNormalized(urls)[k] in UniqueNormalized(urls);
  }

  /** No two entries of `uniqueUrls` share a URL. */
  lemma UniqueNormalizedDistinct(urls: seq<Candidate>)
    ensures var r := UniqueNormalized(urls);
      forall a, b :: 0 <= a < b < |r| ==> r[a].url != r[b].url
  {
    FirstOccurrencesDistinct(urls, NormalKey);
  }

  /** Normalising and de-duplicating twice gives what once gives. */
  lemma UniqueNormalizedIdempotent(urls: seq<Candidate>)
    ensures UniqueNormalized(UniqueNormalized(urls)) == UniqueNormalized(urls)
  {
    var r := UniqueNormalized(urls);
    var firsts := FirstOccurrences(urls, NormalKey);
    UniqueNormalizedDistinct(urls);
    forall k | 0 <= k < |r| ensures NormalKey(r[k]) == r[k].url && Normalized(r[k]) == r[k] {
      NormalizeIdempotent(firsts[k].url);
    }
    assert DistinctKeys(r, NormalKey);
    FirstOccurrencesOfDistinct(r, NormalKey);
    assert NormalizeAll(r) == r;
  }

  // ---------------------------------------------------------------------
  // The sticker filter and the whole post-scan pipeline
  // ---------------------------------------------------------------------

  /** `uniqueUrls.filter(...)` with the thumbnail, cover and pack-name tests. */
  function KeepStickers(cands: seq<Candidate>, packName: string): seq<Candidate>
  {
    if cands == [] then []
    else
      var init, c := cands[..|cands| - 1], cands[|cands| - 1];
      KeepStickers(init, packName) + (if IsStickerUrl(c.url, packName) then [c] else [])
  }

  /** The filter keeps exactly the sticker URLs, in order, and no more of them. */
  lemma {:induction false} KeepStickersMembers(cands: seq<Candidate>, packName: string)
    ensures |KeepStickers(cands, packName)| <= |cands|
    ensures forall c :: c in KeepStickers(cands, packName) <==> c in cands && IsStickerUrl(c.url, packName)
  {
    if cands != [] {
      var n := |cands| - 1;
      KeepStickersMembers(cands[..n], packName);
      assert cands == cands[..n] + [cands[n]];
    }
  }

  /** Filtering keeps distinct URLs distinct. */
  lemma {:induction false} KeepStickersDistinct(cands: seq<Candidate>, packName: string)
    requires forall a, b :: 0 <= a < b < |cands| ==> cands[a].url != cands[b].url
    ensures var r := KeepStickers(cands, packName);
      forall a, b :: 0 <= a < b < |r| ==> r[a].url != r[b].url
  {
    if cands != [] {
      var n := |cands| - 1;
      KeepStickersDistinct(cands[..n], packName);
      KeepStickersMembers(cands[..n], packName);
      var prev := KeepStickers(cands[..n], packName);
      forall a | 0 <= a < |prev| ensures prev[a].url != cands[n].url {
        assert prev[a] in prev;
        var j :| 0 <= j < n && cands[..n][j] == prev[a];
      }
    }
  }

  /** The reference definition of what `extractStickerUrls` returns. */
  function Extracted(scans: Scans, packName: string): seq<Candidate>
  {
    KeepStickers(UniqueNormalized(Collected(scans, packName)), packName)
  }

  /** `extractStickerUrls(html, packName)` from the scans of `html` on. The
      per-format tallies it logs are not modelled. */
  method ExtractStickerUrls(scans: Scans, packName: string) returns (stickerUrls: seq<Candidate>)
    ensures stickerUrls == Extracted(scans, packName)
  {
    var urls := Scan(CdnUrl, packName, scans.cdn, []);
    assert urls == Admitted(CdnUrl, packName, scans.cdn);
    urls := Scan(ImgSrc, packName, scans.img, urls);
    urls := Scan(ScriptString, packName, scans.script, urls);
    urls := Scan(JsonUrl, packName, scans.json, urls);
    var uniqueUrls := DedupNormalize(urls);
    stickerUrls := KeepStickers(uniqueUrls, packName);
  }

  /** What every returned sticker URL satisfies: no thumbnail or cover
      marker, the pack name occurs, URLs are pairwise distinct, there are no
      more of them than raw matches, and each is the normalisation of a match
      some scan admitted, so that from the image, script and JSON scans it
      also contains the CDN host. */
  lemma ExtractedProperties(scans: Scans, packName: string)
    ensures var r := Extracted(scans, packName);
      && |r| <= |scans.cdn| + |scans.img| + |scans.script| + |scans.json|
      && (forall a, b :: 0 <= a < b < |r| ==> r[a].url != r[b].url)
      && (forall c :: c in r ==> !Contains(c.url, ".thumb") && !Contains(c.url, "cover-") && Contains(c.url, packName))
      && (forall c :: c in r ==> exists p, m :: m in MatchesOf(scans, p) && Admits(p, packName, m.url)
                                           && c == Normalized(Pushed(m)))
      && (forall c :: c in r && !Contains(c.url, CdnHost) ==>
                     exists m :: m in scans.cdn && c == Normalized(Pushed(m)))
  {
    var collected := Collected(scans, packName);
    var unique := UniqueNormalized(collected);
    var r := Extracted(scans, packName);
    UniqueNormalizedLength(collected);
    UniqueNormalizedDistinct(collected);
    KeepStickersMembers(unique, packName);
    KeepStickersDistinct(unique, packName);
    forall c | c in r
      ensures exists p, m :: m in MatchesOf(scans, p) && Admits(p, packName, m.url) && c == Normalized(Pushed(m))
      ensures !Contains(c.url, CdnHost) ==> exists m :: m in scans.cdn && c == Normalized(Pushed(m))
    {
      UniqueNormalizedMembers(collected, c);
      var i :| 0 <= i < |collected| && FirstOf(collected, NormalKey, i) && c == Normalized(collected[i]);
      CollectedFromScans(scans, packName, collected[i]);
      var p, m :| m in MatchesOf(scans, p) && Admits(p, packName, m.url) && collected[i] == Pushed(m);
      if !Contains(c.url, CdnHost) && p != CdnUrl {
        NormalizeKeepsSubstrings(m.url, CdnHost);
        assert false;
      }
    }
  }
}
