# SevenChat sticker crawl pipeline in Dafny

This project models the core of the SevenChat sticker scripts:

- **The SigStick crawlers.** The enhanced crawler is `scripts/sigstick-crawler-enhanced.js` and the older one is `scripts/sigstick-crawler.js`. Each crawler:
  - locates a pack page by trying six URL templates in order;
  - extracts sticker URLs from the page;
  - normalises, deduplicates and filters those URLs;
  - turns them into a download list;
  - downloads each entry with bounded retries;
  - writes a `pack-info.json`.
- **The catalog builder**, `generate-metadata.js`. It:
  - derives tags for each sticker;
  - keeps the supported, small-enough files of a pack directory and totals their sizes;
  - chooses the pack's display name;
  - counts missing files when it validates the catalog.

The model is split into modules:

| module | file | content |
|---|---|---|
| `Wrappers` | wrappers.dfy | `Option` |
| `Text` | text.dfy | the JavaScript and Node string operations the code relies on (`startsWith`, `includes`, `replace` with a string pattern, ASCII `toLowerCase`/`toUpperCase`, the `\b\w` title-casing idiom, `path.basename`, `path.extname`, `path.parse().name`, decimal formatting of integers) |
| `Sigstick` | sigstick.dfy | what both crawlers share: the constants, the `downloadFile` retry loop, the search for the pack page, URL normalisation, the sticker filter, the placeholder URLs and the pack title |
| `Dedup` | dedup.dfy | first-occurrence deduplication under a key (a `seen` set, or `[...new Set(xs)]`) |
| `EnhancedUrls` | enhanced_urls.dfy | the enhanced `extractStickerUrls` |
| `DownloadList` | download_list.dfy | `createDownloadList`: the ordinal regex `(\d+)-?\d*\.(png\|webp\|gif)$` as a leftmost-match function, the grouping dictionary, the per-slot choice, the ascending order |
| `EnhancedCrawler` | enhanced_crawler.dfy | `downloadStickers`, `createPackMetadata` and `crawlStickerPack` of the enhanced crawler |
| `Crawler` | crawler.dfy | the older crawler's `extractStickerUrls` and `crawlStickerPack` |
| `Catalog` | catalog.dfy | `generateTags`, `createStickerPack`, the display name, and the counts of `validateMetadata` |

The world outside is represented by parameters:

- A page request is a function `fetch: string -> PageReply`.
- Attempt `k` of download number `i` meets `net(i, k)`.
- The regular-expression scans of a page are a function `scanPage: string -> Scans`: one sequence of matches per pattern, in discovery order.
- A directory listing is a sequence of `(name, size)` entries.
- File existence is a predicate on paths.
- The clock is a string `now`.

Loops and accumulators of the source are `method`s with loop invariants. Each method's result is either tied to a specification function or stated outright (the retry loops and the older crawler's crawl are specified by relations on the oracles). The properties are proved about the specification functions as lemmas.

Behaviour worth noting, which the model follows:

- In the enhanced crawler the ordinal is the whole first digit run of the leftmost match of `(\d+)-?\d*\.(png|webp|gif)$` (scripts/sigstick-crawler-enhanced.js:242-244). So `.../1-1.png` has ordinal 1, and `.../PACK1-3.png` also has ordinal 1, because the match starts at the `1` of `PACK1`.
  - See `DownloadList.ParseOrdinalLeftmost` and `DownloadList.ParseOrdinalOf`.
- An asset download succeeds only on status 200 (scripts/sigstick-crawler-enhanced.js:98). A page request succeeds on any 2xx status (scripts/sigstick-crawler-enhanced.js:61).
  - A page whose body is empty counts as not found, because the code tests `!html` (scripts/sigstick-crawler-enhanced.js:341, scripts/sigstick-crawler.js:266).
- When no page answers, the older crawler throws and catches its own error, so it downloads nothing (scripts/sigstick-crawler.js:266-268, 309-311).
  - It uses the placeholder URLs only when a page was found but no sticker URL was extracted (scripts/sigstick-crawler.js:273-279). The enhanced crawler uses its samples in both cases (scripts/sigstick-crawler-enhanced.js:341-371).
- The enhanced crawler pauses after every successful download except one on the last entry (scripts/sigstick-crawler-enhanced.js:401-403). The older crawler pauses after every successful download, the last one included (scripts/sigstick-crawler.js:297). Neither pauses after a failure.
- The catalog strips the first " Pack" of a pack-info name, not the trailing one (generate-metadata.js:98). A crawled title that itself contains " Pack" therefore loses that occurrence instead: "cat-package" is crawled as "Cat Package Pack" (scripts/sigstick-crawler-enhanced.js:426). Its display name is "Catage Pack", and the catalog's `name` field, the display name plus " Pack" (generate-metadata.js:105), is "Catage Pack Pack".
  - See `Catalog.InfoNameCut`; `Catalog.InfoNameDisplay` covers the other titles.

## Model

| member | source | states |
|---|---|---|
| Sigstick.DownloadFile | scripts/sigstick-crawler-enhanced.js:83-131 | resolves iff one of the first `retries` attempts saves the file; stops at the first success; rethrows the last attempt's error only after `retries` failures; the wait after failed attempt k is 1000·k ms; with `retries < 1` no request is made |
| Sigstick.DownloadNumbered | scripts/sigstick-crawler.js:79-127 | a download with the default three attempts succeeds iff one of its attempts gets status 200 and the write completes |
| Sigstick.Successes | scripts/sigstick-crawler.js:284-302 | the number of successful downloads never exceeds the number attempted |
| Sigstick.PageTemplates | scripts/sigstick-crawler-enhanced.js:315-322 | the six page URLs, in the order they are tried, all under the base URL |
| Sigstick.FirstAnswering | scripts/sigstick-crawler-enhanced.js:328-339 | the index of the first template whose request answers with a 2xx status; every earlier one failed |
| Sigstick.LocatePackPage | scripts/sigstick-crawler-enhanced.js:324-339 | the loop stops at the first answering template and keeps its body and URL; when none answers, html and packUrl stay empty and all six were tried |
| Sigstick.FirstAnsweringIs | scripts/sigstick-crawler-enhanced.js:328-339 | the first answering template is unique: any index with only failures before it and an answer at it is that index |
| Sigstick.NormalizeShape | scripts/sigstick-crawler-enhanced.js:189-196 | every normalised URL starts with `http` and ends with the original URL |
| Sigstick.NormalizeIdempotent | scripts/sigstick-crawler.js:197-206 | normalising twice is normalising once |
| Sigstick.NormalizeKeepsSubstrings | scripts/sigstick-crawler.js:198-205 | normalisation only prefixes, so any substring of the raw URL (the CDN host, the pack id) survives it |
| Sigstick.SampleUrl | scripts/sigstick-crawler-enhanced.js:347 | a placeholder URL is `<base>/stickers/<pack>/sticker-<i>` followed by `.png` |
| Sigstick.PackTitle | scripts/sigstick-crawler-enhanced.js:426 | the pack-info name is five characters longer than the pack name and ends in " Pack"; each dash becomes a space and each word-initial letter is upper-cased |
| Sigstick.MakePackInfo | scripts/sigstick-crawler.js:318-326 | pack-info carries the pack id, the title, the success count, source SigStick, category general and the crawl time |
| Text.NatToStringRoundTrip | scripts/sigstick-crawler-enhanced.js:265 | `parseInt` of the decimal string of n is n, so an ordinal written into a file name reads back |
| Text.NatToStringInjective | scripts/sigstick-crawler.js:287 | different numbers give different decimal strings |
| Text.IndexFromSpec | generate-metadata.js:126 | the search returns the first occurrence at or after the start, or -1 when there is none |
| Text.ReplaceFirstSpec | generate-metadata.js:98 | `replace` with a string pattern changes nothing without an occurrence, and otherwise substitutes exactly the first occurrence |
| Text.ToLowerSpec | scripts/sigstick-crawler-enhanced.js:144 | no upper-case ASCII letter is left, so lower-casing twice is lower-casing once |
| Text.ToUpperSpec | scripts/sigstick-crawler-enhanced.js:318 | no lower-case ASCII letter is left, so upper-casing twice is upper-casing once |
| Text.TitleCaseSpec | scripts/sigstick-crawler-enhanced.js:426 | `replace(/\b\w/g, upper)` changes only characters that start a word, leaves none of them lower-case, keeps the word boundaries, and is idempotent |
| Text.SubstituteSpec | generate-metadata.js:100 | `replace(/[-_]/g, ' ')` leaves no dash or underscore, as the replacement is outside the class; substituting twice is substituting once |
| Text.LastSegmentSpec | scripts/sigstick-crawler-enhanced.js:412 | the last path segment is a suffix without '/', preceded by '/' when it is not the whole path |
| Text.ExtensionSpec | scripts/sigstick-crawler.js:287 | `extname` is a suffix of the name, empty or starting with its only dot, and always shorter than the name |
| Text.ExtensionAfterDot | scripts/sigstick-crawler.js:287 | the extension of `stem.tail`, with a non-empty stem and a dot-free tail, is `.tail` |
| Text.StemName | generate-metadata.js:62 | `path.parse(file).name` is the base name without its extension |
| Dedup.FirstOccurrencesDistinct | scripts/sigstick-crawler-enhanced.js:198-201 | no two kept entries share a key |
| Dedup.FirstOccurrencesFrom | scripts/sigstick-crawler-enhanced.js:198-201 | every kept entry is the first entry of its key in the input |
| Dedup.FirstOccurrencesComplete | scripts/sigstick-crawler-enhanced.js:198-201 | every first entry of its key is kept |
| Dedup.FirstOccurrencesCover | scripts/sigstick-crawler.js:197 | every input key is represented in the output |
| Dedup.FirstOccurrencesLength | scripts/sigstick-crawler.js:197 | dedup never lengthens the list |
| Dedup.FirstOccurrencesOfDistinct | scripts/sigstick-crawler.js:197 | a list with distinct keys is its own dedup |
| EnhancedUrls.Admitted | scripts/sigstick-crawler-enhanced.js:142-182 | a scan contributes at most one candidate per match |
| EnhancedUrls.AdmittedMembers | scripts/sigstick-crawler-enhanced.js:145-178 | a scan contributes exactly its admitted matches with lower-cased extension: CDN-pattern URLs containing the pack id; img, script and JSON URLs also containing the CDN host; script URLs longer than 10 characters |
| EnhancedUrls.Scan | scripts/sigstick-crawler-enhanced.js:142-149 | a `while (exec)` loop appends its admitted matches, in order, to `urls` |
| EnhancedUrls.Collected | scripts/sigstick-crawler-enhanced.js:140-182 | at most one candidate per raw match over the four scans |
| EnhancedUrls.CollectedFromScans | scripts/sigstick-crawler-enhanced.js:140-182 | every collected candidate comes from a match some scan admitted |
| EnhancedUrls.NormalizeAllShape | scripts/sigstick-crawler-enhanced.js:189-196 | every normalised candidate has a URL starting with `http` and ending with its original URL, and keeps its extension |
| EnhancedUrls.UniqueNormalizedStep | scripts/sigstick-crawler-enhanced.js:198-201 | one more candidate is appended, normalised, exactly when its normalised URL is new |
| EnhancedUrls.DedupNormalize | scripts/sigstick-crawler-enhanced.js:185-202 | the `seen`-set loop computes the dedup of the candidates by normalised URL |
| EnhancedUrls.UniqueNormalizedLength | scripts/sigstick-crawler-enhanced.js:185-202 | the output is no longer than the raw matches |
| EnhancedUrls.UniqueNormalizedMembers | scripts/sigstick-crawler-enhanced.js:185-202 | an output entry is exactly the normalised first candidate of its normalised URL, keeping that candidate's extension |
| EnhancedUrls.UniqueNormalizedCovers | scripts/sigstick-crawler-enhanced.js:185-202 | every candidate's normalised URL is in the output |
| EnhancedUrls.UniqueNormalizedDistinct | scripts/sigstick-crawler-enhanced.js:198-201 | no two outputs share a URL |
| EnhancedUrls.UniqueNormalizedIdempotent | scripts/sigstick-crawler-enhanced.js:185-202 | deduplicating the output again changes nothing |
| EnhancedUrls.KeepStickersMembers | scripts/sigstick-crawler-enhanced.js:205-213 | the filter keeps exactly the candidates without `.thumb` and `cover-` that contain the pack id |
| EnhancedUrls.KeepStickersDistinct | scripts/sigstick-crawler-enhanced.js:205-213 | filtering keeps URLs distinct |
| EnhancedUrls.ExtractStickerUrls | scripts/sigstick-crawler-enhanced.js:134-230 | the scan loops, the dedup loop and the filter compute the specified extraction |
| EnhancedUrls.ExtractedProperties | scripts/sigstick-crawler-enhanced.js:134-229 | the result is no longer than the raw matches, has distinct URLs, every URL lacks `.thumb` and `cover-` and contains the pack id, and each comes from an admitted match |
| DownloadList.OrdinalExt | scripts/sigstick-crawler-enhanced.js:242 | the regex's extension is png, webp or gif (case-sensitive) and ends the URL; without such an ending there is no match |
| DownloadList.OrdinalBody | scripts/sigstick-crawler-enhanced.js:242 | the text before the extension is a proper prefix of the URL |
| DownloadList.FirstStem | scripts/sigstick-crawler-enhanced.js:242 | the leftmost match position lies inside the text searched |
| DownloadList.FirstStemSpec | scripts/sigstick-crawler-enhanced.js:242 | the match starts at the leftmost position where `\d+-?\d*` runs to the extension, or there is none |
| DownloadList.ParseOrdinalLeftmost | scripts/sigstick-crawler-enhanced.js:242-244 | no ordinal iff the URL lacks the extension or no position matches; otherwise the ordinal is the value of the digit run at the leftmost match |
| DownloadList.OrdinalExtOf | scripts/sigstick-crawler-enhanced.js:242 | `x.png`, `x.webp` and `x.gif` have that extension and body `x` |
| DownloadList.ParseOrdinalOf | scripts/sigstick-crawler-enhanced.js:242-244 | `<digits>[-<digits>].<ext>`, alone or after two non-digits, parses to the first digits' value |
| DownloadList.SlotMembers | scripts/sigstick-crawler-enhanced.js:240-250 | a slot holds exactly the candidates with that ordinal, in discovery order; an ordinal is a key iff its slot is non-empty |
| DownloadList.GroupByOrdinal | scripts/sigstick-crawler-enhanced.js:238-250 | the `groupedUrls` loop builds a dictionary whose keys are the parsed ordinals, each mapped to its slot |
| DownloadList.FileStep | scripts/sigstick-crawler-enhanced.js:245-248 | one push into the dictionary keeps it grouped |
| DownloadList.TaskFileNameShape | scripts/sigstick-crawler-enhanced.js:265 | a task's file name is `<pack>-<number>.<ext>` |
| DownloadList.FindExt | scripts/sigstick-crawler-enhanced.js:258-260 | `find` returns a position holding the format |
| DownloadList.FindExtSpec | scripts/sigstick-crawler-enhanced.js:258-260 | it is the first position with that format, and none means none holds it |
| DownloadList.AllTasks | scripts/sigstick-crawler-enhanced.js:286-293 | with preferWebP off, one task per candidate of the slot |
| DownloadList.AllTasksAt | scripts/sigstick-crawler-enhanced.js:286-293 | task k is candidate k's URL and extension under the slot's number |
| DownloadList.SlotTasksSpec | scripts/sigstick-crawler-enhanced.js:256-294 | every task of a slot carries the slot's number, the right file name and a candidate's URL and extension; with preferWebP there is exactly one task when the slot has a webp, png or gif |
| DownloadList.TasksOfSlot | scripts/sigstick-crawler-enhanced.js:254-294 | the per-slot branch computes the slot's tasks |
| DownloadList.CreateDownloadList | scripts/sigstick-crawler-enhanced.js:233-301 | the grouping, per-slot and sort steps compute the specified plan |
| DownloadList.PlanTasks | scripts/sigstick-crawler-enhanced.js:253-294 | every planned task comes from a candidate with that ordinal and bears the name `<pack>-<number>.<ext>` |
| DownloadList.PlanSorted | scripts/sigstick-crawler-enhanced.js:298 | the plan is ascending by number, strictly with preferWebP (at most one task per ordinal) |
| DownloadList.PlanPreferred | scripts/sigstick-crawler-enhanced.js:256-283 | with preferWebP, the slot of every webp, png or gif candidate with an ordinal gets a task: the first webp of the slot when it holds one, never a gif when it holds a png |
| DownloadList.PlanKeepsAll | scripts/sigstick-crawler-enhanced.js:284-294 | with preferWebP off, every candidate with an ordinal becomes a task |
| DownloadList.PlanLengthAll | scripts/sigstick-crawler-enhanced.js:284-294 | with preferWebP off, the plan is exactly as long as the list of candidates with an ordinal |
| EnhancedCrawler.Samples | scripts/sigstick-crawler-enhanced.js:344-350 | k sample candidates for a count k |
| EnhancedCrawler.SamplesAt | scripts/sigstick-crawler-enhanced.js:344-350 | sample j is `sticker-(j+1).png`, with extension png |
| EnhancedCrawler.MakeSampleUrls | scripts/sigstick-crawler-enhanced.js:344-350 | the sample loop builds the ten samples |
| EnhancedCrawler.SampleOrdinal | scripts/sigstick-crawler-enhanced.js:347 | the ordinal of `sticker-i.png` is i |
| EnhancedCrawler.SampleNumber | scripts/sigstick-crawler-enhanced.js:347 | sample j has ordinal j+1 |
| EnhancedCrawler.SampleTasks | scripts/sigstick-crawler-enhanced.js:351 | the expected fallback plan has one task per sample |
| EnhancedCrawler.SampleTasksAt | scripts/sigstick-crawler-enhanced.js:351 | fallback task j is `<pack>-(j+1).png` from sample j+1 |
| EnhancedCrawler.SamplePlan | scripts/sigstick-crawler-enhanced.js:351 | the download list of the samples is the ten png tasks numbered 1 to 10, in order |
| EnhancedCrawler.CountExt | scripts/sigstick-crawler-enhanced.js:420-423 | a format's count never exceeds the list length |
| EnhancedCrawler.FormatStatsCounts | scripts/sigstick-crawler-enhanced.js:420-423 | `formatStats` has a key for exactly the formats in the list, each counting its planned entries |
| EnhancedCrawler.FormatStatsTotal | scripts/sigstick-crawler-enhanced.js:420-423 | the counts add up to the length of the download list, successes or not |
| EnhancedCrawler.HasAnimatedIff | scripts/sigstick-crawler-enhanced.js:434 | `hasAnimated` holds iff some planned entry is webp or gif |
| EnhancedCrawler.CountExtPositive | scripts/sigstick-crawler-enhanced.js:420-423 | every format that occurs is counted at least once |
| EnhancedCrawler.CreatePackMetadata | scripts/sigstick-crawler-enhanced.js:416-443 | the manifest holds the pack info, the per-format counts of the whole list, and `hasAnimated` iff some entry is webp or gif |
| EnhancedCrawler.PackDirJoined | scripts/sigstick-crawler-enhanced.js:307 | `path.join('./stickers', name)` for a non-empty name without '/' is `stickers` for ".", `.` for "..", and `stickers/<name>` otherwise |
| EnhancedCrawler.PackDirName | scripts/sigstick-crawler-enhanced.js:412 | the id popped from the pack directory, for a name without '/', is the name itself, except `stickers` for "" and "." and `.` for ".." |
| EnhancedCrawler.DownloadStickers | scripts/sigstick-crawler-enhanced.js:386-413 | the success count is the number of successful downloads and at most the list length; a pause follows exactly the successes that are not last, in order; the manifest uses that count, the formats of the whole list, and `hasAnimated` iff some entry is webp or gif |
| EnhancedCrawler.CrawlStickerPack | scripts/sigstick-crawler-enhanced.js:304-383 | the list is the plan of the extracted URLs, or of the samples; the count is the number of successful downloads; the manifest is recorded under the id popped from the joined pack directory, with the formats of the list and `hasAnimated` iff some entry is webp or gif |
| EnhancedCrawler.CrawlFallback | scripts/sigstick-crawler-enhanced.js:341-371 | with no page body or nothing extracted, the list is the ten png samples numbered 1 to 10 |
| EnhancedCrawler.CrawlFromPage | scripts/sigstick-crawler-enhanced.js:356-378 | otherwise every task is an extracted URL with its ordinal, strictly ascending |
| Crawler.Admitted | scripts/sigstick-crawler.js:139-194 | a scan contributes at most one URL per match |
| Crawler.AdmittedMembers | scripts/sigstick-crawler.js:150-190 | a scan contributes exactly its admitted matches: all CDN-pattern matches, the others only with the CDN host, script strings only when longer than 10 characters |
| Crawler.Scan | scripts/sigstick-crawler.js:139-143 | a scan loop appends its admitted matches, in order |
| Crawler.Collected | scripts/sigstick-crawler.js:130-194 | at most one URL per raw match over the six scans |
| Crawler.CollectedMembers | scripts/sigstick-crawler.js:130-194 | a URL is collected iff some scan matched and admitted it |
| Crawler.NormalizeEachShape | scripts/sigstick-crawler.js:197-206 | the k-th normalised URL starts with `http` and ends with the k-th original URL |
| Crawler.UniqueUrlsMembers | scripts/sigstick-crawler.js:197-206 | `[...new Set(urls)]` keeps every raw URL once, in first-occurrence order, and only then normalises |
| Crawler.KeepStickersMembers | scripts/sigstick-crawler.js:209-217 | the filter keeps exactly the URLs without `.thumb` and `cover-` that contain the pack id |
| Crawler.ExtractStickerUrls | scripts/sigstick-crawler.js:130-226 | the scans, the dedup-then-normalise map and the filter compute the specified extraction |
| Crawler.ExtractedProperties | scripts/sigstick-crawler.js:130-225 | at most one URL per raw match; every URL lacks `.thumb` and `cover-`, contains the pack id, and comes from an admitted match |
| Crawler.RawDedupKeepsAliases | scripts/sigstick-crawler.js:197-206 | `https://x` and `//x` both survive raw dedup and normalise to the same URL, so the result holds a duplicate |
| Crawler.Placeholders | scripts/sigstick-crawler.js:276-278 | the placeholder loop pushes exactly k URLs |
| Crawler.PlaceholdersAt | scripts/sigstick-crawler.js:276-278 | the j-th pushed URL is the placeholder for `sticker-(j+1).png` |
| Crawler.FileExt | scripts/sigstick-crawler.js:287 | the file suffix (`extname(url) \|\| '.png'`) is never empty and starts with a dot |
| Crawler.IndexedNamesDistinct | scripts/sigstick-crawler.js:287 | names built from different indexes differ, whatever their extensions |
| Crawler.FileNamesAt | scripts/sigstick-crawler.js:285-288 | the i-th download is named `<pack>-<i+1>` plus its suffix |
| Crawler.FileNamesUnique | scripts/sigstick-crawler.js:287 | no two downloads of a crawl share a file name |
| Crawler.SampleExtName | scripts/sigstick-crawler.js:277-287 | a placeholder URL's extname is `.png` |
| Crawler.PausedCount | scripts/sigstick-crawler.js:294-297 | there is one pause per successful download |
| Crawler.PausedSpec | scripts/sigstick-crawler.js:290-301 | a pause follows exactly the successful downloads, the last one included, in order |
| Crawler.DownloadAll | scripts/sigstick-crawler.js:284-302 | the loop names every URL by its index, counts the successes, pauses after each, and never stops at a failure |
| Crawler.CrawlStickerPack | scripts/sigstick-crawler.js:229-312 | no answering page (or an empty body) gives the caught error and nothing else; otherwise the extracted URLs, or the ten placeholders, are downloaded, counted and recorded in pack-info |
| Crawler.CrawlFallback | scripts/sigstick-crawler.js:273-279 | with nothing extracted the crawl downloads exactly the ten placeholders, named `<pack>-<i>.png` |
| Catalog.SplitWords | generate-metadata.js:130 | `split` always yields at least one piece |
| Catalog.SplitWordsSepFree | generate-metadata.js:130 | no piece holds `-`, `_` or whitespace |
| Catalog.SplitWordsEmptyPieces | generate-metadata.js:130 | only the first and last piece can be empty; the last is empty iff the id is empty or ends in a separator |
| Catalog.SplitWordsKept | generate-metadata.js:130 | the pieces together are exactly the id's non-separator characters, in order |
| Catalog.Take | generate-metadata.js:145 | `slice(0, n)` yields at most n tags |
| Catalog.GenerateTags | generate-metadata.js:122-146 | the push loops and the slice compute the first ten of the specified tags |
| Catalog.TagsStartWithPack | generate-metadata.js:126-127 | at most ten tags, the first being the pack name with its first `-pack` removed |
| Catalog.AddWordsCovers | generate-metadata.js:131-135 | each word longer than two characters ends up a tag, lower-cased or in its own spelling |
| Catalog.AddWordsOrigin | generate-metadata.js:131-135 | the word section adds only lower-cased words longer than two characters |
| Catalog.AddCommonAppendsMissing | generate-metadata.js:138-143 | the common section appends exactly the common tags not yet present, in their order |
| Catalog.AddCommonSpec | generate-metadata.js:138-143 | after it every common tag is present and nothing else was added |
| Catalog.AllTagsCover | generate-metadata.js:130-143 | before the cut to ten, every longer word of the id and every common tag is a tag |
| Catalog.AllTagsOrigin | generate-metadata.js:122-143 | every tag is the pack tag, a lower-cased longer word of the id, or a common tag |
| Catalog.RepeatedWordTaggedTwice | generate-metadata.js:132-133 | the own-case check lets a repeated word with an upper-case letter add its lower-cased tag twice |
| Catalog.IsFormatIncludes | generate-metadata.js:57 | the format lookup is `includes` on the supported formats |
| Catalog.SelectMembers | generate-metadata.js:55-73 | an entry is made for exactly the files that pass the test |
| Catalog.SelectSize | generate-metadata.js:61-75 | the entries' sizes add up to the passing files' sizes, and a per-file bound bounds the total |
| Catalog.StickersOfSpec | generate-metadata.js:55-75 | a sticker is made for exactly the files with a supported lower-cased extension and, unless the limit is skipped, at most 10 MiB; `totalSize` is the sum of their sizes |
| Catalog.StickersOfStep | generate-metadata.js:55-84 | one more listed file adds its sticker iff it is included |
| Catalog.BuildSticker | generate-metadata.js:62-73 | a sticker's id is the file stem, its name empty, its url `stickers/<dir>/<file>`, its tags generated, its category general |
| Catalog.CollectStickers | generate-metadata.js:52-84 | the `forEach` accumulates the included files' stickers and the sum of their sizes |
| Catalog.CreateStickerPack | generate-metadata.js:36-119 | the pack record: the stickers, `totalStickers = stickers.length`, `totalSize` the included sizes, name = display name + " Pack", and each pack-info field or its default |
| Catalog.LongNameDisplay | generate-metadata.js:89-95 | a name of 20 or more characters shows as "Quby" for a SigStick pack, otherwise as "Pack " + its first 8 characters + "..." |
| Catalog.InfoNameDisplay | generate-metadata.js:96-105 | a short pack with pack-info name `<title> Pack`, where the title does not itself contain " Pack", shows `<title>`, so its catalog name is the pack-info name again |
| Catalog.InfoNameCut | generate-metadata.js:96-98 | when the title does contain " Pack", its first occurrence is removed and the suffix stays: `<title> Pack` shows the title less that occurrence, followed by " Pack" |
| Catalog.FallbackDisplayName | generate-metadata.js:99-101 | without a pack-info name, the display name has the length of the pack tag and no dash or underscore |
| Catalog.CrawledPackInCatalog | generate-metadata.js:89-117 | a crawled pack keeps source SigStick and category general; a long id shows as "Quby", a short name as the crawler's title when that title does not itself contain " Pack" |
| Catalog.MissingCount | generate-metadata.js:265-272 | the missing count never exceeds the number of stickers |
| Catalog.ValidateMetadata | generate-metadata.js:259-273 | `totalStickers` counts every sticker of every pack, `missingFiles` those whose file does not exist, and `missingFiles <= totalStickers` |

## Left out

- HTTP and HTTPS requests, headers, timeouts, gzip and brotli decoding, file streams, `mkdirSync`, `writeFileSync`, `fs.unlink`, directory reads, `setTimeout` and console logging.
  - They are I/O or foreign calls.
  - Requests and downloads are oracles.
  - Delays are recorded as values (back-off waits, pause indexes).
  - Listings, sizes, pack-info contents and file existence are inputs.
- The regular expressions of the extraction scans are not modelled: each scan's matches are an input. Only the ordinal regex of `createDownloadList` is written out.
- Promises, `async` control flow, `process.on` handlers and the `main` functions of the crawlers are not modelled.
- The following are not part of this model: `makeRequest` beyond its 2xx test, `createThumbnail`, `createSampleStructure`, and the I/O wrapper `generateMetadata` with its template object.
  - `generateMetadata` only calls `createStickerPack(packDir, packDir)` for each directory.
  - It is not modelled beyond that call.
- Timestamps (`new Date().toISOString()`) are a parameter `now`.
- Catalog.CreateStickerPack: a pack-info.json that is missing or does not parse is `None`. A field that is absent or falsy is the empty string.
  - So a pack-info without a description yields the description "" where JavaScript yields `undefined`.
- The unused `stickerName` of `createStickerPack` (generate-metadata.js:63) is not modelled.
- Text.ToLower: only the ASCII letters change case. JavaScript's `toLowerCase` maps all of Unicode.
- Text.ToUpper: only the ASCII letters change case. JavaScript's `toUpperCase` maps all of Unicode.
- Text.StemName: `path.parse` and `path.extname` are modelled for POSIX paths. Windows separators are not handled.
- Text.NatToStringRoundTrip: ordinals are unbounded naturals. `parseInt` loses precision above 2^53, which the model does not reproduce.
- EnhancedCrawler.PackDir: `path.join` and `path.normalize` are modelled for POSIX and for a relative first argument, which `CONFIG.outputDir` is. `split(path.sep)` splits at '/'. Windows separators are not modelled.
- EnhancedCrawler.PackDirName: the lemma covers names without '/'. For names with '/', `PackDir` still models the normalisation, but no lemma states the id that results.
- Catalog.WordStep: string lengths are counted in Unicode scalar values. JavaScript's `.length` counts UTF-16 code units, so a word holding a character outside the Basic Multilingual Plane can pass the `length > 2` test in JavaScript and fail it here (for example "😀x").
- Catalog.DisplayName: the 20-character test and the 8-character prefix are counted in Unicode scalar values, not in UTF-16 code units as JavaScript's `length` and `substring` count them.
- Crawler.Admits: the longer-than-10 test on script strings counts Unicode scalar values, not UTF-16 code units.
- EnhancedUrls.Admits: the longer-than-10 test on script strings counts Unicode scalar values, not UTF-16 code units.
- Debug and diagnostic scripts and the child-process wrappers are not part of this model: `check-webp.js`, `debug-pack.js`, `scripts/crawl-sigstick.js`, `crawl-sigstick.js` and `crawl-sigstick-enhanced.js`.
