/** What the two SigStick crawlers (scripts/sigstick-crawler.js and
    scripts/sigstick-crawler-enhanced.js) share: their configuration, the
    retrying asset download, the ordered search for the pack page, URL
    normalisation, the sticker filter, the placeholder URLs and the pack
    title written to pack-info.json. */
module Sigstick {
  import opened Wrappers
  import opened Text

  const BaseUrl := "https://www.sigstick.com"
  /** `CONFIG.maxRetries`, the default `retries` of `downloadFile`. */
  const MaxRetries := 3
  /** `CONFIG.delay`, the pause after a successful download. */
  const RequestDelay := 1000
  /** The host every real sticker URL lives on. */
  const CdnHost := "cdn.cdnstep.com"

  // ---------------------------------------------------------------------
  // downloadFile: bounded retries with a linearly growing back-off
  // ---------------------------------------------------------------------

  /** What one request for an asset ends in. */
  datatype Attempt =
    | Responded(status: int)  // the response arrived with this status; for 200 the file was written in full
    | WriteFailed             // status 200, but writing the file failed and the partial file was unlinked
    | TimedOut                // the request timed out and was destroyed
    | RequestError            // the request failed before a response

  /** Only status 200 with a completed write resolves an attempt. */
  predicate Saved(a: Attempt) { a == Responded(200) }

  /** How `downloadFile` ends: it resolves, or rethrows the last attempt's error. */
  datatype Download = Resolved | Rejected(cause: Attempt)

  /** `downloadFile` resolves iff one of its attempts saves the file; with
      fewer than one attempt allowed its loop never runs and it resolves
      without a request. */
  predicate Resolves(respond: nat -> Attempt, retries: int)
  {
    retries < 1 || exists k :: 1 <= k <= retries && Saved(respond(k))
  }

  /** `downloadFile(url, outputPath, retries)`: attempt number k meets
      `respond(k)`; `waits` are the back-off delays, in milliseconds, slept
      after each failed attempt that is not the last. */
  method DownloadFile(respond: nat -> Attempt, retries: int) returns (result: Download, attempts: nat, waits: seq<nat>)
    ensures result.Resolved? <==> Resolves(respond, retries)
    ensures retries < 1 ==> attempts == 0 && result.Resolved?
    ensures retries >= 1 ==> 1 <= attempts <= retries
    ensures forall k :: 1 <= k < attempts ==> !Saved(respond(k))
    ensures result.Resolved? && attempts > 0 ==> Saved(respond(attempts))
    ensures result.Rejected? ==> attempts == retries && result.cause == respond(retries)
    ensures |waits| == if attempts == 0 then 0 else attempts - 1
    ensures forall k :: 0 <= k < |waits| ==> waits[k] == 1000 * (k + 1)
  {
    result, attempts, waits := Resolved, 0, [];
    var attempt := 1;
    while attempt <= retries
      invariant 1 <= attempt && (retries >= 1 ==> attempt <= retries) && (retries < 1 ==> attempt == 1)
      invariant forall k :: 1 <= k < attempt ==> !Saved(respond(k))
      invariant |waits| == attempt - 1
      invariant forall k :: 0 <= k < |waits| ==> waits[k] == 1000 * (k + 1)
      decreases retries - attempt
    {
      var outcome := respond(attempt);
      if Saved(outcome) {
        result, attempts := Resolved, attempt;
        return;
      }
      if attempt == retries {
        result, attempts := Rejected(outcome), attempt;
        return;
      }
      waits := waits + [1000 * attempt];
      attempt := attempt + 1;
    }
  }

  /** Download number `i` of a crawl succeeds: with the default three
      attempts, one of them saves the file. `net(i, k)` is what attempt
      number k of download number i meets. */
  predicate Succeeds(net: (nat, nat) -> Attempt, i: nat)
  {
    exists k :: 1 <= k <= MaxRetries && Saved(net(i, k))
  }

  /** How many of the downloads numbered below `n` succeed. */
  function Successes(net: (nat, nat) -> Attempt, n: nat): (c: nat)
    ensures c <= n
  {
    if n == 0 then 0 else Successes(net, n - 1) + (if Succeeds(net, n - 1) then 1 else 0)
  }

  /** Downloads download number `i` with the default retries and reports
      whether it succeeded, as the crawlers' download loops see it. */
  method DownloadNumbered(net: (nat, nat) -> Attempt, i: nat) returns (ok: bool)
    ensures ok <==> Succeeds(net, i)
  {
    var respond := (k: nat) => net(i, k);
    var result, attempts, waits := DownloadFile(respond, MaxRetries);
    ok := result.Resolved?;
    if ok {
      assert Saved(respond(attempts)) && Saved(net(i, attempts));
    } else {
      forall k | 1 <= k <= MaxRetries ensures !Saved(net(i, k)) {
        assert respond(k) == net(i, k);
      }
    }
  }

  // ---------------------------------------------------------------------
  // Locating the pack page: the first template that answers wins
  // ---------------------------------------------------------------------

  /** What `makeRequest` gets for a page URL. */
  datatype PageReply =
    | Reply(status: int, body: string)  // a response with this status and decoded body
    | Unreachable                       // a transport error or a timeout

  /** `makeRequest` resolves only for a 2xx status. */
  predicate IsSuccessStatus(status: int) { 200 <= status < 300 }

  predicate Answers(reply: PageReply) { reply.Reply? && IsSuccessStatus(reply.status) }

  /** `possibleUrls`: the page paths tried, in order. */
  function PageTemplates(packName: string): (urls: seq<string>)
    ensures |urls| == 6
    ensures forall j :: 0 <= j < 6 ==> StartsWith(urls[j], BaseUrl + "/")
    ensures urls[0] == BaseUrl + "/pack/" + packName
  {
    [ BaseUrl + "/pack/" + packName,
      BaseUrl + "/pack/" + ToLower(packName),
      BaseUrl + "/pack/" + ToUpper(packName),
      BaseUrl + "/sticker-pack/" + packName,
      BaseUrl + "/stickers/" + packName,
      BaseUrl + "/" + packName ]
  }

  /** The index of the first URL whose request answers, or `|urls|`. */
  function FirstAnswering(urls: seq<string>, fetch: string -> PageReply): (k: nat)
    ensures k <= |urls|
    ensures forall j :: 0 <= j < k ==> !Answers(fetch(urls[j]))
    ensures k < |urls| ==> Answers(fetch(urls[k]))
  {
    if urls == [] then 0
    else if Answers(fetch(urls[0])) then 0
    else 1 + FirstAnswering(urls[1..], fetch)
  }

  /** The page body the template search ends with: the body of the first
      answering template, or "" when none answers. */
  function PackPage(packName: string, fetch: string -> PageReply): string
  {
    var urls := PageTemplates(packName);
    var k := FirstAnswering(urls, fetch);
    if k < |urls| then fetch(urls[k]).body else ""
  }

  /** The `for (const url of possibleUrls)` loop: templates are requested in
      order until one answers; `tried` counts the requests made. */
  method LocatePackPage(packName: string, fetch: string -> PageReply) returns (html: string, packUrl: string, tried: nat)
    ensures var urls, k := PageTemplates(packName), FirstAnswering(PageTemplates(packName), fetch);
      && (k < |urls| ==> tried == k + 1 && packUrl == urls[k] && html == fetch(urls[k]).body)
      && (k == |urls| ==> tried == |urls| && packUrl == "" && html == "")
    ensures html == PackPage(packName, fetch)
  {
    var urls := PageTemplates(packName);
    html, packUrl, tried := "", "", 0;
    while tried < |urls|
      invariant 0 <= tried <= |urls|
      invariant forall j :: 0 <= j < tried ==> !Answers(fetch(urls[j]))
      invariant html == "" && packUrl == ""
    {
      var reply := fetch(urls[tried]);
      tried := tried + 1;
      if Answers(reply) {
        html, packUrl := reply.body, urls[tried - 1];
        FirstAnsweringIs(urls, fetch, tried - 1);
        return;
      }
    }
    FirstAnsweringIs(urls, fetch, |urls|);
  }

  /** The first answering index is the one that answers with none before it. */
  lemma FirstAnsweringIs(urls: seq<string>, fetch: string -> PageReply, k: nat)
    requires k <= |urls|
    requires forall j :: 0 <= j < k ==> !Answers(fetch(urls[j]))
    requires k < |urls| ==> Answers(fetch(urls[k]))
    ensures FirstAnswering(urls, fetch) == k
  {
  }

  // ---------------------------------------------------------------------
  // Normalisation and the sticker filter
  // ---------------------------------------------------------------------

  /** The four-way resolution of a raw URL: protocol-relative gets the https
      scheme, root-relative gets the site, anything else not starting with
      "http" gets the site and a slash, and the rest is kept. */
  function Normalize(url: string): string
  {
    if StartsWith(url, "//") then "https:" + url
    else if StartsWith(url, "/") then BaseUrl + url
    else if !StartsWith(url, "http") then BaseUrl + "/" + url
    else url
  }

  /** A normalised URL is absolute (it starts with "http") and ends with the
      raw URL it came from. */
  lemma NormalizeShape(url: string)
    ensures StartsWith(Normalize(url), "http") && EndsWith(Normalize(url), url)
  {
    var r := Normalize(url);
    if StartsWith(url, "//") {
      assert r == "https:" + url;
    } else if StartsWith(url, "/") {
      assert r == BaseUrl + url;
    } else if !StartsWith(url, "http") {
      assert r == (BaseUrl + "/") + url;
    }
  }

  /** Normalising a normalised URL changes nothing. */
  lemma NormalizeIdempotent(url: string)
    ensures Normalize(Normalize(url)) == Normalize(url)
  {
    NormalizeShape(url);
    var r := Normalize(url);
    assert r[0] == r[..4][0] == 'h';
  }

  /** Whatever the raw URL contains, its normalised form contains too. */
  lemma NormalizeKeepsSubstrings(url: string, t: string)
    requires Contains(url, t)
    ensures Contains(Normalize(url), t)
  {
    NormalizeShape(url);
    ContainsViaSuffix(Normalize(url), url, t);
  }

  /** The filter at the end of `extractStickerUrls`: no thumbnail, no cover,
      and the pack name occurs (case-sensitively). */
  predicate IsStickerUrl(url: string, packName: string)
  {
    !Contains(url, ".thumb") && !Contains(url, "cover-") && Contains(url, packName)
  }

  /** The placeholder URL number `i` used when no sticker URL is found. */
  function SampleUrl(packName: string, i: nat): (url: string)
    ensures StartsWith(url, BaseUrl + "/stickers/" + packName + "/sticker-")
    ensures EndsWith(url, ".png")
  {
    var prefix := BaseUrl + "/stickers/" + packName + "/sticker-";
    var url := prefix + NatToString(i) + ".png";
    assert url[..|prefix|] == prefix;
    url
  }

  /** The `name` written to pack-info.json:
      `packName.replace(/-/g, ' ').replace(/\b\w/g, upper) + ' Pack'`. Each
      dash becomes a space and each letter that starts a word of the pack
      name (dashes count as separators) is capitalised. */
  function PackTitle(packName: string): (r: string)
    ensures |r| == |packName| + 5 && EndsWith(r, " Pack")
    ensures forall i :: 0 <= i < |packName| ==>
      r[i] == if packName[i] == '-' then ' '
              else if WordStart(packName, i) then UpperChar(packName[i])
              else packName[i]
  {
    var spaced := Substitute(packName, {'-'}, ' ');
    var r := TitleCase(spaced) + " Pack";
    assert forall i :: 0 <= i < |packName| ==> (WordStart(spaced, i) <==> WordStart(packName, i));
    r
  }

  /** The pack-info.json fields both crawlers write; `crawledAt` is the
      ISO time the caller passes in (the clock is not modelled). */
  datatype PackInfo = PackInfo(name: string, id: string, description: string, source: string,
                               crawledAt: string, stickerCount: nat, category: string)

  /** The fields both crawlers' `createPackMetadata` fill in. */
  function MakePackInfo(packName: string, stickerCount: nat, now: string): (info: PackInfo)
    ensures info.id == packName && info.stickerCount == stickerCount && info.crawledAt == now
    ensures info.name == PackTitle(packName) && info.source == "SigStick" && info.category == "general"
  {
    PackInfo(PackTitle(packName), packName, "Sticker pack crawled from SigStick", "SigStick",
             now, stickerCount, "general")
  }
}
