/** generate-metadata.js, the catalog builder: the tags it derives from a
    sticker's id (`generateTags`), the files of a pack directory it keeps and
    the totals it reports (`createStickerPack`), the display name it gives a
    pack, and the counts of `validateMetadata`. Directory listings, file
    sizes, pack-info.json contents, file existence and the clock are inputs. */
module Catalog {
  import opened Wrappers
  import opened Text
  import opened Sigstick

  // ---------------------------------------------------------------------
  // CONFIG
  // ---------------------------------------------------------------------

  const SupportedFormats: seq<string> := [".png", ".jpg", ".jpeg", ".svg", ".gif", ".webp"]
  const MaxFileSize: nat := 10 * 1024 * 1024
  const DefaultCategory := "general"
  const MaxTags: nat := 10
  const CommonTags: seq<string> := ["sticker", "emoji", "cute", "fun"]

  // ---------------------------------------------------------------------
  // stickerId.split(/[-_\s]+/)
  // ---------------------------------------------------------------------

  /** `\s` of a JavaScript regular expression. */
  predicate IsSpace(c: char)
  {
    c == ' ' || c == '\t' || c == '\n' || c == '\r' || c as int == 0x0B || c as int == 0x0C
    || c as int == 0xA0 || c as int == 0x1680 || 0x2000 <= c as int <= 0x200A
    || c as int == 0x2028 || c as int == 0x2029 || c as int == 0x202F || c as int == 0x205F
    || c as int == 0x3000 || c as int == 0xFEFF
  }

  /** The separator class `[-_\s]`. */
  predicate IsSeparator(c: char) { c == '-' || c == '_' || IsSpace(c) }

  /** `s.split(/[-_\s]+/)`: the pieces between maximal runs of separators; a
      leading or trailing run gives an empty first or last piece, and the
      empty string gives one empty piece. */
  function SplitWords(s: string): (r: seq<string>)
    ensures |r| >= 1
  {
    if s == [] then [""]
    else
      var n := |s| - 1;
      var ws := SplitWords(s[..n]);
      if IsSeparator(s[n]) then
        (if n > 0 && IsSeparator(s[n - 1]) then ws else ws + [""])
      else
        ws[..|ws| - 1] + [ws[|ws| - 1] + [s[n]]]
  }

  /** The characters of `s` that are not separators, in order. */
  function Kept(s: string): string
  {
    if s == [] then [] else Kept(s[..|s| - 1]) + (if IsSeparator(s[|s| - 1]) then [] else [s[|s| - 1]])
  }

  function Flatten(ws: seq<string>): string
  {
    if ws == [] then [] else Flatten(ws[..|ws| - 1]) + ws[|ws| - 1]
  }

  lemma FlattenSnoc(ws: seq<string>, w: string)
    ensures Flatten(ws + [w]) == Flatten(ws) + w
  {
    assert (ws + [w])[..|ws|] == ws;
  }

  /** A piece free of separators. */
  predicate SepFree(w: string)
  {
    forall j :: 0 <= j < |w| ==> !IsSeparator(w[j])
  }

  /** No piece holds a separator. */
  lemma {:induction false} SplitWordsSepFree(s: string)
    ensures forall k :: 0 <= k < |SplitWords(s)| ==> SepFree(SplitWords(s)[k])
  {
    if s != [] {
      var n := |s| - 1;
      var ws := SplitWords(s[..n]);
      SplitWordsSepFree(s[..n]);
      var r := SplitWords(s);
      if !IsSeparator(s[n]) {
        var m := |ws| - 1;
        assert SepFree(ws[m] + [s[n]]) by {
          assert forall j :: 0 <= j < |ws[m]| ==> (ws[m] + [s[n]])[j] == ws[m][j];
        }
        assert forall k :: 0 <= k < m ==> r[k] == ws[k];
      }
    }
  }

  /** Only the first and the last piece may be empty, and the last is empty
      exactly when `s` is empty or ends with a separator. */
  lemma {:induction false} SplitWordsEmptyPieces(s: string)
    ensures var r := SplitWords(s);
      && (forall k :: 0 < k < |r| - 1 ==> r[k] != [])
      && (r[|r| - 1] == [] <==> s == [] || IsSeparator(s[|s| - 1]))
  {
    if s != [] {
      var n := |s| - 1;
      var ws := SplitWords(s[..n]);
      SplitWordsEmptyPieces(s[..n]);
      assert s[..n] == [] || s[..n][n - 1] == s[n - 1];
      var r := SplitWords(s);
      if !IsSeparator(s[n]) {
        var m := |ws| - 1;
        assert forall k :: 0 <= k < m ==> r[k] == ws[k];
      }
    }
  }

  /** Together the pieces spell the non-separator characters of `s`, in
      order. */
  lemma {:induction false} SplitWordsKept(s: string)
    ensures Flatten(SplitWords(s)) == Kept(s)
  {
    if s != [] {
      var n := |s| - 1;
      var ws := SplitWords(s[..n]);
      SplitWordsKept(s[..n]);
      var m := |ws| - 1;
      assert ws == ws[..m] + [ws[m]];
      FlattenSnoc(ws[..m], ws[m]);
      if IsSeparator(s[n]) {
        if !(n > 0 && IsSeparator(s[n - 1])) {
          FlattenSnoc(ws, "");
        }
      } else {
        FlattenSnoc(ws[..m], ws[m] + [s[n]]);
      }
    }
  }

  // ---------------------------------------------------------------------
  // generateTags
  // ---------------------------------------------------------------------

  /** The pack tag: `packName.replace('-pack', '')`. */
  function PackTag(packName: string): string
  {
    ReplaceFirst(packName, "-pack", "")
  }

  /** One turn of the `words.forEach`: a word longer than two characters that
      is not already a tag, compared in its own case, is pushed lower-cased. */
  function WordStep(tags: seq<string>, w: string): seq<string>
  {
    if |w| > 2 && w !in tags then tags + [ToLower(w)] else tags
  }

  function AddWords(tags: seq<string>, ws: seq<string>): (r: seq<string>)
  {
    if ws == [] then tags else WordStep(AddWords(tags, ws[..|ws| - 1]), ws[|ws| - 1])
  }

  /** One turn of the `commonTags.forEach`: pushed when not already a tag. */
  function CommonStep(tags: seq<string>, c: string): seq<string>
  {
    if c !in tags then tags + [c] else tags
  }

  function AddCommon(tags: seq<string>, cs: seq<string>): (r: seq<string>)
  {
    if cs == [] then tags else CommonStep(AddCommon(tags, cs[..|cs| - 1]), cs[|cs| - 1])
  }

  /** `tags` before `slice(0, 10)`. */
  function AllTags(stickerId: string, packName: string): seq<string>
  {
    AddCommon(AddWords([PackTag(packName)], SplitWords(stickerId)), CommonTags)
  }

  /** `tags.slice(0, n)` */
  function Take(tags: seq<string>, n: nat): (r: seq<string>)
    ensures |r| <= n
  {
    if |tags| <= n then tags else tags[..n]
  }

  /** The tags `generateTags(stickerId, packName)` returns. */
  function Tags(stickerId: string, packName: string): seq<string>
  {
    Take(AllTags(stickerId, packName), MaxTags)
  }

  /** `generateTags(stickerId, packName)` */
  method GenerateTags(stickerId: string, packName: string) returns (result: seq<string>)
    ensures result == Tags(stickerId, packName)
    ensures |result| <= MaxTags
  {
    var tags := [PackTag(packName)];
    var words := SplitWords(stickerId);
    var i := 0;
    while i < |words|
      invariant 0 <= i <= |words|
      invariant tags == AddWords([PackTag(packName)], words[..i])
    {
      assert words[..i + 1][..i] == words[..i];
      var word := words[i];
      if |word| > 2 && word !in tags {
        tags := tags + [ToLower(word)];
      }
      i := i + 1;
    }
    assert words[..i] == words;
    var base := tags;
    var j := 0;
    while j < |CommonTags|
      invariant 0 <= j <= |CommonTags|
      invariant tags == AddCommon(base, CommonTags[..j])
    {
      assert CommonTags[..j + 1][..j] == CommonTags[..j];
      var tag := CommonTags[j];
      if tag !in tags {
        tags := tags + [tag];
      }
      j := j + 1;
    }
    assert CommonTags[..j] == CommonTags;
    result := if |tags| <= MaxTags then tags else tags[..MaxTags];
  }

  /** Adding word tags only appends. */
  lemma {:induction false} AddWordsExtends(tags: seq<string>, ws: seq<string>)
    ensures |AddWords(tags, ws)| >= |tags| && AddWords(tags, ws)[..|tags|] == tags
  {
    if ws != [] {
      AddWordsExtends(tags, ws[..|ws| - 1]);
    }
  }

  /** Adding common tags only appends. */
  lemma {:induction false} AddCommonExtends(tags: seq<string>, cs: seq<string>)
    ensures |AddCommon(tags, cs)| >= |tags| && AddCommon(tags, cs)[..|tags|] == tags
  {
    if cs != [] {
      AddCommonExtends(tags, cs[..|cs| - 1]);
    }
  }

  /** The first tag is the pack name with its first "-pack" removed, and
      there are never more than ten. */
  lemma TagsStartWithPack(stickerId: string, packName: string)
    ensures |Tags(stickerId, packName)| <= MaxTags
    ensures Tags(stickerId, packName) != [] && Tags(stickerId, packName)[0] == PackTag(packName)
  {
    var t0 := [PackTag(packName)];
    var t1 := AddWords(t0, SplitWords(stickerId));
    AddWordsExtends(t0, SplitWords(stickerId));
    AddCommonExtends(t1, CommonTags);
    assert t1[0] == t0[0];
    assert AllTags(stickerId, packName)[0] == t1[0];
  }

  /** Every word longer than two characters ends up a tag (before the cut to
      ten): lower-cased, or as it is when that spelling was already a tag. */
  lemma {:induction false} AddWordsCovers(tags: seq<string>, ws: seq<string>)
    ensures forall w :: w in ws && |w| > 2 ==> w in AddWords(tags, ws) || ToLower(w) in AddWords(tags, ws)
  {
    if ws != [] {
      var n := |ws| - 1;
      var prev := AddWords(tags, ws[..n]);
      AddWordsCovers(tags, ws[..n]);
      assert AddWords(tags, ws) == WordStep(prev, ws[n]);
      assert forall x :: x in prev ==> x in WordStep(prev, ws[n]);
      assert ws == ws[..n] + [ws[n]];
    }
  }

  /** Every tag is the pack tag, a lower-cased word of the id longer than two
      characters, or a common tag. */
  lemma {:induction false} AddWordsOrigin(tags: seq<string>, ws: seq<string>)
    ensures forall t :: t in AddWords(tags, ws) ==>
      t in tags || exists w :: w in ws && |w| > 2 && t == ToLower(w)
  {
    if ws != [] {
      var n := |ws| - 1;
      AddWordsOrigin(tags, ws[..n]);
      forall t | t in AddWords(tags, ws) ensures t in tags || exists w :: w in ws && |w| > 2 && t == ToLower(w) {
        if t !in AddWords(tags, ws[..n]) {
          assert t == ToLower(ws[n]) && ws[n] in ws;
        } else if t !in tags {
          var w :| w in ws[..n] && |w| > 2 && t == ToLower(w);
          assert w in ws;
        }
      }
    }
  }

  /** The common tags that are not yet tags, in their order. */
  function Missing(tags: seq<string>, cs: seq<string>): (r: seq<string>)
    ensures forall c :: c in r ==> c in cs && c !in tags
  {
    if cs == [] then []
    else
      var n := |cs| - 1;
      Missing(tags, cs[..n]) + (if cs[n] !in tags then [cs[n]] else [])
  }

  /** With distinct common tags, the common section appends exactly those
      not already present, in their order. */
  lemma {:induction false} AddCommonAppendsMissing(tags: seq<string>, cs: seq<string>)
    requires forall a, b :: 0 <= a < b < |cs| ==> cs[a] != cs[b]
    ensures AddCommon(tags, cs) == tags + Missing(tags, cs)
  {
    if cs != [] {
      var n := |cs| - 1;
      AddCommonAppendsMissing(tags, cs[..n]);
      assert cs[n] !in cs[..n] by {
        assert forall a :: 0 <= a < n ==> cs[..n][a] == cs[a] != cs[n];
      }
    }
  }

  lemma {:induction false} MissingHas(tags: seq<string>, cs: seq<string>, a: nat)
    requires a < |cs| && cs[a] !in tags
    ensures cs[a] in Missing(tags, cs)
  {
    var n := |cs| - 1;
    if a < n {
      MissingHas(tags, cs[..n], a);
      assert cs[..n][a] == cs[a];
    }
  }

  /** After the common section every common tag is present, and nothing but
      the earlier tags and the common tags is. */
  lemma AddCommonSpec(tags: seq<string>, cs: seq<string>)
    requires forall a, b :: 0 <= a < b < |cs| ==> cs[a] != cs[b]
    ensures forall c :: c in cs ==> c in AddCommon(tags, cs)
    ensures forall t :: t in AddCommon(tags, cs) ==> t in tags || t in cs
  {
    AddCommonAppendsMissing(tags, cs);
    forall c | c in cs ensures c in AddCommon(tags, cs) {
      if c !in tags {
        var a :| 0 <= a < |cs| && cs[a] == c;
        MissingHas(tags, cs, a);
      }
    }
  }

  /** Every word of the id longer than two characters, and every common
      tag, is among the tags before the cut to ten. */
  lemma AllTagsCover(stickerId: string, packName: string)
    ensures forall w :: w in SplitWords(stickerId) && |w| > 2 ==>
      w in AllTags(stickerId, packName) || ToLower(w) in AllTags(stickerId, packName)
    ensures forall c :: c in CommonTags ==> c in AllTags(stickerId, packName)
  {
    var t1 := AddWords([PackTag(packName)], SplitWords(stickerId));
    AddWordsCovers([PackTag(packName)], SplitWords(stickerId));
    AddCommonAppendsMissing(t1, CommonTags);
    AddCommonSpec(t1, CommonTags);
  }

  /** Every tag is the pack tag, a lower-cased word of the id longer than
      two characters, or a common tag. */
  lemma AllTagsOrigin(stickerId: string, packName: string)
    ensures forall t :: t in AllTags(stickerId, packName) ==>
      t == PackTag(packName) || t in CommonTags
      || exists w :: w in SplitWords(stickerId) && |w| > 2 && t == ToLower(w)
  {
    var t1 := AddWords([PackTag(packName)], SplitWords(stickerId));
    AddWordsOrigin([PackTag(packName)], SplitWords(stickerId));
    AddCommonSpec(t1, CommonTags);
  }

  /** The own-case comparison lets a word with an upper-case letter through
      twice: the tag holds its lower-cased spelling, never the word itself. */
  lemma RepeatedWordTaggedTwice(tags: seq<string>, w: string)
    requires |w| > 2 && w !in tags && ToLower(w) != w
    ensures AddWords(tags, [w, w]) == tags + [ToLower(w), ToLower(w)]
  {
    assert [w, w][..1] == [w];
    assert [w][..0] == [];
    assert AddWords(tags, [w]) == tags + [ToLower(w)];
    assert w !in tags + [ToLower(w)];
  }

  // ---------------------------------------------------------------------
  // createStickerPack
  // ---------------------------------------------------------------------

  /** An entry of the directory listing, with the size `fs.statSync` reports. */
  datatype FileEntry = FileEntry(name: string, size: nat)

  /** The fields of pack-info.json the builder reads; "" stands for a field
      that is absent or otherwise falsy. */
  datatype InfoFile = InfoFile(name: string, description: string, author: string, version: string,
                               category: string, createdAt: string, source: string, crawledAt: string)

  datatype Sticker = Sticker(id: string, name: string, url: string, tags: seq<string>,
                             category: string, pack: string, size: nat)

  datatype Pack = Pack(id: string, name: string, description: string, author: string, version: string,
                       thumbnail: string, category: string, createdAt: string, updatedAt: string,
                       stickers: seq<Sticker>, totalStickers: nat, totalSize: nat,
                       source: Option<string>, crawledAt: Option<string>)

  /** `formats.includes(e)`, one entry at a time. */
  predicate IsFormat(formats: seq<string>, e: string)
  {
    formats != [] && (formats[0] == e || IsFormat(formats[1..], e))
  }

  lemma {:induction false} IsFormatIncludes(formats: seq<string>, e: string)
    ensures IsFormat(formats, e) <==> e in formats
  {
    if formats != [] {
      IsFormatIncludes(formats[1..], e);
      assert formats == [formats[0]] + formats[1..];
    }
  }

  /** `CONFIG.supportedFormats.includes(path.extname(file).toLowerCase())` */
  predicate IsSupported(file: string)
  {
    IsFormat(SupportedFormats, ToLower(ExtName(file)))
  }

  /** The test a listed file passes to become a sticker. */
  predicate Included(f: FileEntry, skipSizeLimit: bool)
  {
    IsSupported(f.name) && (skipSizeLimit || f.size <= MaxFileSize)
  }

  /** The sticker entry pushed for an included file. */
  function StickerOf(packDir: string, packName: string, f: FileEntry): Sticker
  {
    var id := StemName(f.name);
    Sticker(id, "", "stickers/" + packDir + "/" + f.name, Tags(id, packName), DefaultCategory, packName, f.size)
  }

  /** The entries made, in listing order, for the files `keep` lets through. */
  function Select(keep: FileEntry -> bool, make: FileEntry -> Sticker, files: seq<FileEntry>): (r: seq<Sticker>)
    ensures |r| <= |files|
  {
    if files == [] then []
    else
      var n := |files| - 1;
      Select(keep, make, files[..n]) + (if keep(files[n]) then [make(files[n])] else [])
  }

  /** The total size of the files `keep` lets through. */
  function KeptSize(keep: FileEntry -> bool, files: seq<FileEntry>): nat
  {
    if files == [] then 0
    else
      var n := |files| - 1;
      KeptSize(keep, files[..n]) + (if keep(files[n]) then files[n].size else 0)
  }

  function SizeSum(stickers: seq<Sticker>): nat
  {
    if stickers == [] then 0 else SizeSum(stickers[..|stickers| - 1]) + stickers[|stickers| - 1].size
  }

  /** Appending an entry adds its size to the total. */
  lemma SizeSumSnoc(stickers: seq<Sticker>, s: Sticker)
    ensures SizeSum(stickers + [s]) == SizeSum(stickers) + s.size
  {
    assert (stickers + [s])[..|stickers|] == stickers;
  }

  lemma MulSucc(a: nat, b: nat)
    ensures (a + 1) * b == a * b + b
  {
  }

  /** An entry is made for exactly the kept files. */
  lemma {:induction false} SelectMembers(keep: FileEntry -> bool, make: FileEntry -> Sticker, files: seq<FileEntry>)
    ensures forall s :: s in Select(keep, make, files) ==> exists f :: f in files && keep(f) && s == make(f)
    ensures forall f :: f in files && keep(f) ==> make(f) in Select(keep, make, files)
  {
    if files != [] {
      var n := |files| - 1;
      SelectMembers(keep, make, files[..n]);
      assert files == files[..n] + [files[n]];
    }
  }

  /** The entries' sizes add up to the kept files' sizes, and a bound on
      each kept size bounds the total. */
  lemma {:induction false} SelectSize(keep: FileEntry -> bool, make: FileEntry -> Sticker, files: seq<FileEntry>, bound: nat)
    requires forall f :: make(f).size == f.size
    ensures SizeSum(Select(keep, make, files)) == KeptSize(keep, files)
    ensures (forall f :: keep(f) ==> f.size <= bound) ==> KeptSize(keep, files) <= |Select(keep, make, files)| * bound
  {
    if files != [] {
      var n := |files| - 1;
      SelectSize(keep, make, files[..n], bound);
      var prev := Select(keep, make, files[..n]);
      var r := Select(keep, make, files);
      if keep(files[n]) {
        assert r == prev + [make(files[n])];
        SizeSumSnoc(prev, make(files[n]));
        MulSucc(|prev|, bound);
      } else {
        assert r == prev;
      }
    }
  }

  /** The stickers of a listing, in listing order. */
  function StickersOf(packDir: string, packName: string, files: seq<FileEntry>, skipSizeLimit: bool): seq<Sticker>
  {
    Select((f: FileEntry) => Included(f, skipSizeLimit), (f: FileEntry) => StickerOf(packDir, packName, f), files)
  }

  /** The total size of the included files of a listing. */
  function IncludedSize(files: seq<FileEntry>, skipSizeLimit: bool): nat
  {
    KeptSize((f: FileEntry) => Included(f, skipSizeLimit), files)
  }

  /** A sticker is made for exactly the included files, and `totalSize` adds
      up exactly their sizes; under the size limit it is at most ten
      megabytes per sticker. */
  lemma StickersOfSpec(packDir: string, packName: string, files: seq<FileEntry>, skipSizeLimit: bool)
    ensures var r := StickersOf(packDir, packName, files, skipSizeLimit);
      && |r| <= |files|
      && (forall s :: s in r ==> exists f :: f in files && Included(f, skipSizeLimit) && s == StickerOf(packDir, packName, f))
      && (forall f :: f in files && Included(f, skipSizeLimit) ==> StickerOf(packDir, packName, f) in r)
      && SizeSum(r) == IncludedSize(files, skipSizeLimit)
      && (!skipSizeLimit ==> SizeSum(r) <= |r| * MaxFileSize)
  {
    var keep := (f: FileEntry) => Included(f, skipSizeLimit);
    var make := (f: FileEntry) => StickerOf(packDir, packName, f);
    SelectMembers(keep, make, files);
    SelectSize(keep, make, files, MaxFileSize);
  }

  /** One more listed file adds its sticker exactly when it is included. */
  lemma StickersOfStep(packDir: string, packName: string, files: seq<FileEntry>, i: nat, skipSizeLimit: bool)
    requires i < |files|
    ensures Included(files[i], skipSizeLimit) ==>
      StickersOf(packDir, packName, files[..i + 1], skipSizeLimit)
        == StickersOf(packDir, packName, files[..i], skipSizeLimit) + [StickerOf(packDir, packName, files[i])]
    ensures !Included(files[i], skipSizeLimit) ==>
      StickersOf(packDir, packName, files[..i + 1], skipSizeLimit) == StickersOf(packDir, packName, files[..i], skipSizeLimit)
  {
    assert files[..i + 1][..i] == files[..i];
  }

  /** The entry the `forEach` of `createStickerPack` pushes for an included
      file: its stem as id, an empty name, its path under stickers/ as url,
      and its generated tags. */
  method BuildSticker(packDir: string, packName: string, file: FileEntry) returns (sticker: Sticker)
    ensures sticker == StickerOf(packDir, packName, file)
  {
    var stickerId := StemName(file.name);
    var tags := GenerateTags(stickerId, packName);
    sticker := Sticker(stickerId, "", "stickers/" + packDir + "/" + file.name, tags,
                       DefaultCategory, packName, file.size);
  }

  /** The sticker loop of `createStickerPack`: one sticker per included
      file, and the running total of their sizes. */
  method CollectStickers(packDir: string, packName: string, files: seq<FileEntry>, skipSizeLimit: bool)
    returns (stickers: seq<Sticker>, totalSize: nat)
    ensures stickers == StickersOf(packDir, packName, files, skipSizeLimit)
    ensures totalSize == SizeSum(stickers)
  {
    stickers, totalSize := [], 0;
    var i := 0;
    while i < |files|
      invariant 0 <= i <= |files|
      invariant stickers == StickersOf(packDir, packName, files[..i], skipSizeLimit)
      invariant totalSize == SizeSum(stickers)
    {
      StickersOfStep(packDir, packName, files, i, skipSizeLimit);
      var file := files[i];
      if Included(file, skipSizeLimit) {
        var sticker := BuildSticker(packDir, packName, file);
        SizeSumSnoc(stickers, sticker);
        stickers := stickers + [sticker];
        totalSize := totalSize + sticker.size;
      }
      i := i + 1;
    }
    assert files[..i] == files;
  }

  /** The name the catalog shows for a pack, before " Pack" is appended. */
  function DisplayName(packName: string, info: Option<InfoFile>): string
  {
    if |packName| >= 20 then
      (if info.Some? && info.value.source == "SigStick" then "Quby" else "Pack " + packName[..8] + "...")
    else if info.Some? && info.value.name != "" then
      ReplaceFirst(info.value.name, " Pack", "")
    else
      TitleCase(Substitute(ReplaceFirst(packName, "-pack", ""), {'-', '_'}, ' '))
  }

  /** `packInfo && packInfo.<field> ? packInfo.<field> : fallback` */
  function InfoOr(info: Option<InfoFile>, field: InfoFile -> string, fallback: string): string
  {
    if info.Some? && field(info.value) != "" then field(info.value) else fallback
  }

  /** `packInfo && packInfo.<field> ? packInfo.<field> : null` */
  function InfoOrNull(info: Option<InfoFile>, field: InfoFile -> string): Option<string>
  {
    if info.Some? && field(info.value) != "" then Some(field(info.value)) else None
  }

  /** `createStickerPack(packDir, packName)` over the directory listing
      `files` and the parsed pack-info.json (`None` when it is missing or
      does not parse), with the clock reading `now`. */
  method CreateStickerPack(packDir: string, packName: string, files: seq<FileEntry>, info: Option<InfoFile>,
                           skipSizeLimit: bool, now: string)
    returns (pack: Pack)
    ensures pack.stickers == StickersOf(packDir, packName, files, skipSizeLimit)
    ensures pack.totalStickers == |pack.stickers| && pack.totalSize == SizeSum(pack.stickers)
    ensures pack.totalSize == IncludedSize(files, skipSizeLimit)
    ensures pack.id == packName && pack.name == DisplayName(packName, info) + " Pack"
    ensures pack.thumbnail == "thumbnails/" + packName + ".png" && pack.updatedAt == now
    ensures pack.description ==
      (if info.Some? then info.value.description
       else "Collection of " + ToLower(DisplayName(packName, info)) + " stickers")
    ensures pack.author == InfoOr(info, (i: InfoFile) => i.author, "SevenChat Team")
    ensures pack.version == InfoOr(info, (i: InfoFile) => i.version, "1.0.0")
    ensures pack.category == InfoOr(info, (i: InfoFile) => i.category, DefaultCategory)
    ensures pack.createdAt == InfoOr(info, (i: InfoFile) => i.createdAt, now)
    ensures pack.source == InfoOrNull(info, (i: InfoFile) => i.source)
    ensures pack.crawledAt == InfoOrNull(info, (i: InfoFile) => i.crawledAt)
  {
    var stickers, totalSize := CollectStickers(packDir, packName, files, skipSizeLimit);
    StickersOfSpec(packDir, packName, files, skipSizeLimit);
    var displayName := DisplayName(packName, info);
    var description := if info.Some? then info.value.description
                       else "Collection of " + ToLower(displayName) + " stickers";
    pack := Pack(packName, displayName + " Pack", description,
                 InfoOr(info, (i: InfoFile) => i.author, "SevenChat Team"), InfoOr(info, (i: InfoFile) => i.version, "1.0.0"),
                 "thumbnails/" + packName + ".png", InfoOr(info, (i: InfoFile) => i.category, DefaultCategory),
                 InfoOr(info, (i: InfoFile) => i.createdAt, now), now, stickers, |stickers|, totalSize,
                 InfoOrNull(info, (i: InfoFile) => i.source), InfoOrNull(info, (i: InfoFile) => i.crawledAt));
  }

  /** A long pack name (an id) is shown as "Quby" when the crawler wrote its
      pack-info, and otherwise as "Pack " and its first eight characters and
      "...": never more than sixteen characters. */
  lemma LongNameDisplay(packName: string, info: Option<InfoFile>)
    requires |packName| >= 20
    ensures var d := DisplayName(packName, info);
      && (info.Some? && info.value.source == "SigStick" ==> d == "Quby")
      && (!(info.Some? && info.value.source == "SigStick") ==>
            StartsWith(d, "Pack ") && d[5..13] == packName[..8] && EndsWith(d, "...") && |d| == 16)
  {
    var d := DisplayName(packName, info);
    if !(info.Some? && info.value.source == "SigStick") {
      assert d == "Pack " + packName[..8] + "...";
      assert d[..5] == "Pack ";
      assert d[5..13] == packName[..8];
      assert d[13..] == "...";
    }
  }

  /** What the catalog reads back from the pack-info.json a crawler wrote. */
  function InfoFromCrawler(info: PackInfo): InfoFile
  {
    InfoFile(info.name, info.description, "", "", info.category, "", info.source, info.crawledAt)
  }

  /** Removing the first occurrence of `t` from `a + t` gives `a` back
      exactly when `t` does not already occur earlier. */
  lemma ReplaceFirstOfSuffix(a: string, t: string)
    requires t != [] && !Contains(a + t[..|t| - 1], t)
    ensures ReplaceFirst(a + t, t, "") == a
  {
    var s := a + t;
    var k := IndexFrom(s, t, 0);
    IndexFromSpec(s, t, 0);
    assert s[|a|..|a| + |t|] == t;
    assert OccursAt(s, t, |a|);
    assert k != -1 by {
      assert 0 <= |a| <= |s|;
    }
    if k < |a| {
      var u := a + t[..|t| - 1];
      assert k + |t| <= |u|;
      assert s[..|u|] == u;
      assert s[k..k + |t|] == s[..|u|][k..k + |t|];
      assert 0 <= k <= |u| && OccursAt(u, t, k);
      assert false;
    }
    assert k == |a|;
    assert s[..k] == a;
  }

  /** A short pack whose pack-info name is a title followed by " Pack" is
      shown under that title, so the catalog's name is the pack-info name
      again, as long as the title does not itself contain " Pack". */
  lemma InfoNameDisplay(packName: string, info: Option<InfoFile>, title: string)
    requires |packName| < 20 && info.Some? && info.value.name == title + " Pack"
    requires !Contains(title, " Pack")
    ensures DisplayName(packName, info) == title
    ensures DisplayName(packName, info) + " Pack" == info.value.name
  {
    NoPackStraddle(title);
    assert " Pack"[..4] == " Pac";
    ReplaceFirstOfSuffix(title, " Pack");
  }

  /** " Pack" cannot begin in a title and end in the " Pac" after it, as its
      only space is its first character. */
  lemma NoPackStraddle(title: string)
    requires !Contains(title, " Pack")
    ensures !Contains(title + " Pac", " Pack")
  {
    var u := title + " Pac";
    forall i | 0 <= i <= |u| ensures !OccursAt(u, " Pack", i) {
      if i + 5 <= |title| {
        assert u[i..i + 5] == title[i..i + 5];
        assert !OccursAt(title, " Pack", i);
      } else if i + 5 <= |u| {
        var j := |title| - i;
        assert 1 <= j <= 4 && u[|title|] == ' ';
        assert u[i..i + 5][j] == ' ' != " Pack"[j];
      }
    }
  }

  /** When the title does contain " Pack", its first one is cut out instead,
      and the title is not what the catalog shows: "cat-package" is crawled
      as "Cat Package Pack", its display name is "Catage Pack", and the
      catalog's name for it is "Catage Pack Pack". */
  lemma InfoNameCut(packName: string, info: Option<InfoFile>, title: string, k: nat)
    requires |packName| < 20 && info.Some? && info.value.name == title + " Pack"
    requires OccursAt(title, " Pack", k) && forall j :: 0 <= j < k ==> !OccursAt(title, " Pack", j)
    ensures DisplayName(packName, info) == title[..k] + title[k + 5..] + " Pack"
  {
    var name := title + " Pack";
    FirstInPrefix(title, " Pack", k);
    assert DisplayName(packName, info) == name[..k] + name[k + 5..];
    assert name[k + 5..] == title[k + 5..] + " Pack";
  }

  /** The first occurrence of `t` in `a` is its first occurrence in `a + b`. */
  lemma FirstInPrefix(a: string, t: string, k: nat)
    requires OccursAt(a, t, k) && forall j :: 0 <= j < k ==> !OccursAt(a, t, j)
    ensures IndexFrom(a + t, t, 0) == k && (a + t)[..k] == a[..k]
  {
    var s := a + t;
    var first := IndexFrom(s, t, 0);
    IndexFromSpec(s, t, 0);
    assert OccursAt(s, t, k) by {
      assert s[k..k + |t|] == a[k..k + |t|];
    }
    assert first != -1 by {
      assert 0 <= k <= |s|;
    }
    forall j | 0 <= j < k ensures !OccursAt(s, t, j) {
      assert !OccursAt(a, t, j);
      assert s[j..j + |t|] == a[j..j + |t|];
    }
  }

  /** Without a pack-info name, a short pack name is shown with its first
      "-pack" removed and no dash or underscore left. */
  lemma FallbackDisplayName(packName: string, info: Option<InfoFile>)
    requires |packName| < 20 && (info.None? || info.value.name == "")
    ensures |DisplayName(packName, info)| == |PackTag(packName)|
    ensures forall i :: 0 <= i < |DisplayName(packName, info)| ==>
      DisplayName(packName, info)[i] != '-' && DisplayName(packName, info)[i] != '_'
  {
    var spaced := Substitute(PackTag(packName), {'-', '_'}, ' ');
    assert DisplayName(packName, info) == TitleCase(spaced);
    forall i | 0 <= i < |spaced| ensures TitleCase(spaced)[i] != '-' && TitleCase(spaced)[i] != '_' {
      assert spaced[i] != '-' && spaced[i] != '_';
    }
  }

  /** A pack the crawler created keeps its crawled identity in the catalog:
      source SigStick, the crawler's category, and, for a short name, the
      crawler's title without its " Pack" suffix whenever that title does
      not already contain " Pack" (for a long name, "Quby"). */
  lemma CrawledPackInCatalog(packName: string, stickerCount: nat, crawledAt: string)
    ensures var info := Some(InfoFromCrawler(MakePackInfo(packName, stickerCount, crawledAt)));
      var title := TitleCase(Substitute(packName, {'-'}, ' '));
      && InfoOrNull(info, (i: InfoFile) => i.source) == Some("SigStick")
      && InfoOr(info, (i: InfoFile) => i.category, DefaultCategory) == "general"
      && (|packName| >= 20 ==> DisplayName(packName, info) == "Quby")
      && (|packName| < 20 && !Contains(title, " Pack") ==> DisplayName(packName, info) == title)
  {
    var info := Some(InfoFromCrawler(MakePackInfo(packName, stickerCount, crawledAt)));
    var title := TitleCase(Substitute(packName, {'-'}, ' '));
    if |packName| < 20 && !Contains(title, " Pack") {
      InfoNameDisplay(packName, info, title);
    }
  }

  // ---------------------------------------------------------------------
  // validateMetadata
  // ---------------------------------------------------------------------

  /** Every sticker of the catalog, pack after pack. */
  function AllStickers(packs: seq<Pack>): seq<Sticker>
  {
    if packs == [] then [] else AllStickers(packs[..|packs| - 1]) + packs[|packs| - 1].stickers
  }

  /** How many of `stickers` have no file at their `url`. */
  function MissingCount(stickers: seq<Sticker>, fileExists: string -> bool): (c: nat)
    ensures c <= |stickers|
  {
    if stickers == [] then 0
    else
      var n := |stickers| - 1;
      MissingCount(stickers[..n], fileExists) + (if fileExists(stickers[n].url) then 0 else 1)
  }

  /** The counting loops of `validateMetadata(packs)`; `fileExists(url)` is
      `fs.existsSync(path.join('.', url))`. */
  method ValidateMetadata(packs: seq<Pack>, fileExists: string -> bool)
    returns (totalStickers: nat, missingFiles: nat)
    ensures totalStickers == |AllStickers(packs)|
    ensures missingFiles == MissingCount(AllStickers(packs), fileExists)
    ensures missingFiles <= totalStickers
  {
    totalStickers, missingFiles := 0, 0;
    var p := 0;
    while p < |packs|
      invariant 0 <= p <= |packs|
      invariant totalStickers == |AllStickers(packs[..p])|
      invariant missingFiles == MissingCount(AllStickers(packs[..p]), fileExists)
    {
      assert packs[..p + 1][..p] == packs[..p];
      ghost var done := AllStickers(packs[..p]);
      var stickers := packs[p].stickers;
      var s := 0;
      assert done + stickers[..s] == done;
      while s < |stickers|
        invariant 0 <= s <= |stickers|
        invariant totalStickers == |done| + s
        invariant missingFiles == MissingCount(done + stickers[..s], fileExists)
      {
        assert (done + stickers[..s + 1])[..|done| + s] == done + stickers[..s];
        totalStickers := totalStickers + 1;
        if !fileExists(stickers[s].url) {
          missingFiles := missingFiles + 1;
        }
        s := s + 1;
      }
      assert stickers[..s] == stickers;
      p := p + 1;
    }
    assert packs[..p] == packs;
  }
}
