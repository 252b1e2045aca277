/** `createDownloadList` of scripts/sigstick-crawler-enhanced.js: every
    sticker URL is filed under the ordinal the pattern
    `(\d+)-?\d*\.(png|webp|gif)$` reads from it, and each ordinal, in
    ascending order, contributes its preferred file (WebP, then PNG, then
    GIF) or, without the preference, all of its files. */
module DownloadList {
  import opened Wrappers
  import opened Text
  import opened EnhancedUrls

  // ---------------------------------------------------------------------
  // The ordinal pattern, as a leftmost regular-expression match
  // ---------------------------------------------------------------------

  /** The extension that the pattern's `\.(png|webp|gif)$` accepts at the end
      of `s` (case-sensitive). */
  function OrdinalExt(s: string): (e: Option<string>)
    ensures e.Some? ==> (e.value == "png" || e.value == "webp" || e.value == "gif") && EndsWith(s, "." + e.value)
    ensures e.None? ==> !EndsWith(s, ".png") && !EndsWith(s, ".webp") && !EndsWith(s, ".gif")
  {
    if EndsWith(s, ".png") then Some("png")
    else if EndsWith(s, ".webp") then Some("webp")
    else if EndsWith(s, ".gif") then Some("gif")
    else None
  }

  /** What `(\d+)-?\d*` must cover exactly, between the match start and the
      final '.': a run of digits, then nothing or a '-' and digits. (Giving
      digits back from `\d+` to `\d*` never rescues a failed attempt, so the
      group is always the whole leading run.) */
  predicate OrdinalStem(t: string)
  {
    && t != [] && IsDigit(t[0])
    && (|t| == 1 || OrdinalStem(t[1..]) || (t[1] == '-' && AllDigits(t[2..])))
  }

  /** `s` without the final '.' and extension, when the extension is accepted. */
  function OrdinalBody(s: string): (b: string)
    requires OrdinalExt(s).Some?
    ensures |b| < |s| && StartsWith(s, b)
  {
    s[..|s| - |OrdinalExt(s).value| - 1]
  }

  /** The first start position, from `q` on, at which `body[q..]` is a stem. */
  function FirstStem(body: string, q: nat): (k: Option<nat>)
    requires q <= |body|
    decreases |body| - q
    ensures k.Some? ==> q <= k.value < |body|
  {
    if q == |body| then None
    else if OrdinalStem(body[q..]) then Some(q)
    else FirstStem(body, q + 1)
  }

  /** The search finds the leftmost stem from `q` on, and finds none only
      when there is none. */
  lemma {:induction false} FirstStemSpec(body: string, q: nat)
    requires q <= |body|
    decreases |body| - q
    ensures var k := FirstStem(body, q);
      && (k.Some? ==> q <= k.value < |body| && OrdinalStem(body[k.value..])
                      && forall j :: q <= j < k.value ==> !OrdinalStem(body[j..]))
      && (k.None? ==> forall j :: q <= j <= |body| ==> !OrdinalStem(body[j..]))
  {
    if q < |body| && !OrdinalStem(body[q..]) {
      FirstStemSpec(body, q + 1);
    }
  }

  /** Where the leftmost match of the pattern in `s` starts, if it matches. */
  function MatchStart(s: string): Option<nat>
  {
    if OrdinalExt(s).None? then None else FirstStem(OrdinalBody(s), 0)
  }

  /** `parseInt(url.match(/(\d+)-?\d*\.(png|webp|gif)$/)[1])`, or None when
      the URL does not match. */
  function ParseOrdinal(s: string): Option<nat>
  {
    match MatchStart(s)
    case None => None
    case Some(q) =>
      var t := OrdinalBody(s)[q..];
      Some(DigitsValue(t[..DigitRun(t)]))
  }

  /** The ordinal is read at the leftmost position where the pattern matches:
      there is none exactly when the URL does not end in an accepted
      extension or no stem ends at its '.'; otherwise it is the number the
      leading digit run of the leftmost stem spells. */
  lemma ParseOrdinalLeftmost(s: string)
    ensures ParseOrdinal(s).None? <==>
      OrdinalExt(s).None? || forall q :: 0 <= q <= |OrdinalBody(s)| ==> !OrdinalStem(OrdinalBody(s)[q..])
    ensures ParseOrdinal(s).Some? ==> exists q :: (0 <= q < |OrdinalBody(s)|
      && (forall j :: 0 <= j < q ==> !OrdinalStem(OrdinalBody(s)[j..]))
      && var t := OrdinalBody(s)[q..];
         OrdinalStem(t) && ParseOrdinal(s).value == DigitsValue(t[..DigitRun(t)]))
  {
    if OrdinalExt(s).Some? {
      FirstStemSpec(OrdinalBody(s), 0);
    }
  }

  /** The characters a stem may hold: digits, and one '-' right after the
      leading digit run. */
  lemma {:induction false} StemChars(t: string, k: nat)
    requires OrdinalStem(t) && k < |t|
    ensures IsDigit(t[k]) || (k == DigitRun(t) && t[k] == '-')
  {
    if k > 0 {
      if OrdinalStem(t[1..]) {
        StemChars(t[1..], k - 1);
      } else {
        assert t[1..][0] == '-';
        if k > 1 {
          assert t[2..][k - 2] == t[k];
        }
      }
    }
  }

  /** An accepted extension is read back, and the body is what precedes it. */
  lemma OrdinalExtOf(x: string, ext: string)
    requires ext == "png" || ext == "webp" || ext == "gif"
    ensures OrdinalExt(x + "." + ext) == Some(ext)
    ensures OrdinalBody(x + "." + ext) == x
  {
    var s := x + "." + ext;
    AppendedExt(x, ext);
    LastOfSuffix(s, "." + ext);
    if ext == "png" {
      assert "." + ext == ".png";
    } else {
      assert !EndsWith(s, ".png") by {
        if EndsWith(s, ".png") { LastOfSuffix(s, ".png"); }
      }
      if ext == "webp" {
        assert "." + ext == ".webp";
      } else {
        assert !EndsWith(s, ".webp") by {
          if EndsWith(s, ".webp") { LastOfSuffix(s, ".webp"); }
        }
        assert "." + ext == ".gif";
      }
    }
  }

  /** `x.ext` ends with `.ext`, after `x`. */
  lemma AppendedExt(x: string, ext: string)
    ensures EndsWith(x + "." + ext, "." + ext) && (x + "." + ext)[..|x|] == x
  {
    assert (x + "." + ext)[|x|..] == "." + ext;
  }

  lemma LastOfSuffix(s: string, p: string)
    requires p != [] && EndsWith(s, p)
    ensures s[|s| - 1] == p[|p| - 1]
  {
    assert s[|s| - |p|..][|p| - 1] == s[|s| - 1];
  }

  /** No stem starts inside `y` when its last two characters are not digits. */
  lemma NoStemBefore(y: string, z: string, q: nat)
    requires |y| >= 2 && !IsDigit(y[|y| - 1]) && !IsDigit(y[|y| - 2])
    requires q < |y|
    ensures !OrdinalStem((y + z)[q..])
  {
    var t := (y + z)[q..];
    if OrdinalStem(t) {
      var last := |y| - 1 - q;
      assert t[last] == y[|y| - 1];
      StemChars(t, last);
      if q < |y| - 1 {
        assert t[last - 1] == y[|y| - 2];
        StemChars(t, last - 1);
      }
    }
  }

  /** Digits, then nothing or '-' and digits, form a stem whose run is the
      first digits. */
  lemma StemOf(d: string, rest: string)
    requires d != [] && AllDigits(d)
    requires rest == [] || (rest[0] == '-' && AllDigits(rest[1..]))
    ensures OrdinalStem(d + rest) && DigitRun(d + rest) == |d| && (d + rest)[..|d|] == d
  {
    DigitRunOfDigits(d, rest);
    StemIs(d, rest);
  }

  lemma {:induction false} StemIs(d: string, rest: string)
    requires d != [] && AllDigits(d)
    requires rest == [] || (rest[0] == '-' && AllDigits(rest[1..]))
    ensures OrdinalStem(d + rest)
  {
    var t := d + rest;
    assert t[0] == d[0];
    if |d| > 1 {
      assert t[1..] == d[1..] + rest;
      StemIs(d[1..], rest);
    } else if rest != [] {
      assert t[1] == '-' && t[2..] == rest[1..];
    }
  }

  /** The ordinal of a URL that ends in `y`, digits `d`, an optional `-digits`
      part and an accepted extension is the number `d` spells, provided the
      last two characters of `y` are not digits (so no match starts in `y`). */
  lemma ParseOrdinalOf(y: string, d: string, rest: string, ext: string)
    requires |y| < 2 ==> y == []
    requires y != [] ==> !IsDigit(y[|y| - 1]) && !IsDigit(y[|y| - 2])
    requires d != [] && AllDigits(d)
    requires rest == [] || (rest[0] == '-' && AllDigits(rest[1..]))
    requires ext == "png" || ext == "webp" || ext == "gif"
    ensures ParseOrdinal(y + d + rest + "." + ext) == Some(DigitsValue(d))
  {
    var t := d + rest;
    var body := y + t;
    var s := y + d + rest + "." + ext;
    assert OrdinalExt(s).Some? && OrdinalBody(s) == body by {
      Regroup(y, d, rest);
      OrdinalExtOf(body, ext);
    }
    assert body[|y|..] == t && t[..DigitRun(t)] == d by {
      StemOf(d, rest);
    }
    assert FirstStem(body, 0) == Some(|y|) by {
      NoStemIn(y, t);
      StemOf(d, rest);
      FirstStemAt(body, 0, |y|);
    }
  }

  lemma Regroup(y: string, d: string, rest: string)
    ensures y + d + rest == y + (d + rest)
  {
  }

  lemma NoStemIn(y: string, z: string)
    requires |y| < 2 ==> y == []
    requires y != [] ==> !IsDigit(y[|y| - 1]) && !IsDigit(y[|y| - 2])
    ensures forall q :: 0 <= q < |y| ==> !OrdinalStem((y + z)[q..])
  {
    forall q | 0 <= q < |y| ensures !OrdinalStem((y + z)[q..]) {
      NoStemBefore(y, z, q);
    }
  }

  /** The first stem from `q` on is at `k` when there is one at `k` and none
      between. */
  lemma {:induction false} FirstStemAt(body: string, q: nat, k: nat)
    requires q <= k < |body| && OrdinalStem(body[k..])
    requires forall j :: q <= j < k ==> !OrdinalStem(body[j..])
    ensures FirstStem(body, q) == Some(k)
    decreases k - q
  {
    if q < k {
      FirstStemAt(body, q + 1, k);
    }
  }

  // ---------------------------------------------------------------------
  // Grouping by ordinal
  // ---------------------------------------------------------------------

  /** `groupedUrls[n]`: the candidates filed under ordinal `n`, in order. */
  function Slot(cands: seq<Candidate>, n: nat): seq<Candidate>
  {
    if cands == [] then []
    else
      var k := |cands| - 1;
      Slot(cands[..k], n) + (if ParseOrdinal(cands[k].url) == Some(n) then [cands[k]] else [])
  }

  /** The keys of `groupedUrls`: the ordinals some candidate parses to. */
  function Ordinals(cands: seq<Candidate>): set<nat>
  {
    if cands == [] then {}
    else
      var k := |cands| - 1;
      Ordinals(cands[..k]) + (if ParseOrdinal(cands[k].url).Some? then {ParseOrdinal(cands[k].url).value} else {})
  }

  /** A slot holds exactly the candidates that parse to its ordinal, and it is
      non-empty exactly for the keys. */
  lemma {:induction false} SlotMembers(cands: seq<Candidate>, n: nat)
    ensures forall c :: c in Slot(cands, n) <==> c in cands && ParseOrdinal(c.url) == Some(n)
    ensures n in Ordinals(cands) <==> Slot(cands, n) != []
  {
    if cands != [] {
      var k := |cands| - 1;
      SlotMembers(cands[..k], n);
      assert cands == cands[..k] + [cands[k]];
    }
  }

  // ---------------------------------------------------------------------
  // The tasks of one ordinal
  // ---------------------------------------------------------------------

  /** One entry of the download list. */
  datatype DownloadTask = DownloadTask(url: string, fileName: string, ext: string, number: nat)

  /** `${packName}-${number}.${ext}` */
  function TaskFileName(packName: string, n: nat, ext: string): string
  {
    packName + "-" + NatToString(n) + "." + ext
  }

  /** The name starts with the pack name and the number and ends with the
      extension. */
  lemma TaskFileNameShape(packName: string, n: nat, ext: string)
    ensures var r := TaskFileName(packName, n, ext);
      StartsWith(r, packName + "-" + NatToString(n)) && EndsWith(r, "." + ext)
  {
    var r := TaskFileName(packName, n, ext);
    assert r[|r| - |"." + ext|..] == "." + ext;
  }

  function TaskFor(packName: string, n: nat, c: Candidate, ext: string): DownloadTask
  {
    DownloadTask(c.url, TaskFileName(packName, n, ext), ext, n)
  }

  /** `urls.find(u => u.ext === ext)` */
  function FindExt(slot: seq<Candidate>, ext: string): (r: Option<nat>)
    ensures r.Some? ==> r.value < |slot| && slot[r.value].ext == ext
  {
    if slot == [] then None
    else if slot[0].ext == ext then Some(0)
    else match FindExt(slot[1..], ext)
      case None => None
      case Some(j) => Some(j + 1)
  }

  /** The index found is the first with that extension, and there is none
      when no candidate has it. */
  lemma {:induction false} FindExtSpec(slot: seq<Candidate>, ext: string)
    ensures var r := FindExt(slot, ext);
      && (r.Some? ==> forall j :: 0 <= j < r.value ==> slot[j].ext != ext)
      && (r.None? ==> forall j :: 0 <= j < |slot| ==> slot[j].ext != ext)
  {
    if slot != [] && slot[0].ext != ext {
      FindExtSpec(slot[1..], ext);
      assert forall j :: 1 <= j < |slot| ==> slot[j] == slot[1..][j - 1];
    }
  }

  /** The extension kept for a slot under the WebP preference. */
  function PreferredExt(slot: seq<Candidate>): Option<string>
  {
    if FindExt(slot, "webp").Some? then Some("webp")
    else if FindExt(slot, "png").Some? then Some("png")
    else if FindExt(slot, "gif").Some? then Some("gif")
    else None
  }

  /** Every file of a slot, in order (the `urls.forEach` without preference). */
  function AllTasks(packName: string, n: nat, slot: seq<Candidate>): (r: seq<DownloadTask>)
    ensures |r| == |slot|
  {
    if slot == [] then []
    else
      var k := |slot| - 1;
      AllTasks(packName, n, slot[..k]) + [TaskFor(packName, n, slot[k], slot[k].ext)]
  }

  /** Task `k` is the task of candidate `k`, with its own extension. */
  lemma {:induction false} AllTasksAt(packName: string, n: nat, slot: seq<Candidate>)
    ensures forall k :: 0 <= k < |slot| ==> AllTasks(packName, n, slot)[k] == TaskFor(packName, n, slot[k], slot[k].ext)
  {
    if slot != [] {
      AllTasksAt(packName, n, slot[..|slot| - 1]);
    }
  }

  /** What ordinal `n` contributes to the list. With the preference: one
      task, for the first candidate of the most preferred extension the slot
      has, or none when it has no WebP, PNG or GIF candidate. Without it:
      one task per candidate, in order, each with its own extension. */
  function SlotTasks(packName: string, n: nat, slot: seq<Candidate>, preferWebP: bool): seq<DownloadTask>
  {
    if preferWebP then
      match PreferredExt(slot)
      case None => []
      case Some(e) => [TaskFor(packName, n, slot[FindExt(slot, e).value], e)]
    else
      AllTasks(packName, n, slot)
  }

  /** Each task of a slot carries its number and a name built from it, and
      keeps the URL and extension of a candidate of the slot; with the
      preference there is one task exactly when the slot has a WebP, PNG or
      GIF candidate, for the first of the preferred extension; without it,
      one per candidate. */
  lemma SlotTasksSpec(packName: string, n: nat, slot: seq<Candidate>, preferWebP: bool)
    ensures var r := SlotTasks(packName, n, slot, preferWebP);
      && (forall t :: t in r ==> t.number == n && t.fileName == TaskFileName(packName, n, t.ext)
                                 && exists c :: c in slot && c.url == t.url && c.ext == t.ext)
      && (preferWebP ==> |r| == (if PreferredExt(slot).Some? then 1 else 0))
      && (preferWebP && r != [] ==>
            var e := PreferredExt(slot).value; r[0].ext == e && r[0].url == slot[FindExt(slot, e).value].url)
      && (!preferWebP ==> |r| == |slot|)
  {
    var r := SlotTasks(packName, n, slot, preferWebP);
    if preferWebP {
      if PreferredExt(slot).Some? {
        var e := PreferredExt(slot).value;
        assert slot[FindExt(slot, e).value] in slot;
      }
    } else {
      AllTasksAt(packName, n, slot);
      forall t | t in r ensures exists c :: c in slot && c.url == t.url && c.ext == t.ext {
        var k :| 0 <= k < |r| && r[k] == t;
        assert slot[k] in slot;
      }
    }
  }

  // ---------------------------------------------------------------------
  // The whole list
  // ---------------------------------------------------------------------

  predicate IsLeast(n: nat, keys: set<nat>) { n in keys && forall k :: k in keys ==> n <= k }

  lemma {:induction false} LeastExists(keys: set<nat>)
    requires keys != {}
    ensures exists n :: IsLeast(n, keys)
  {
    var x :| x in keys;
    if keys != {x} {
      LeastExists(keys - {x});
      var m :| IsLeast(m, keys - {x});
      forall k | k in keys ensures k == x || k in keys - {x} { }
      if x < m {
        assert IsLeast(x, keys);
      } else {
        assert IsLeast(m, keys);
      }
    } else {
      assert IsLeast(x, keys);
    }
  }

  /** One more than the largest ordinal (0 when there is none). */
  function Bound(cands: seq<Candidate>): nat
  {
    if cands == [] then 0
    else
      var k := |cands| - 1;
      var b := Bound(cands[..k]);
      match ParseOrdinal(cands[k].url)
      case Some(n) => if n + 1 > b then n + 1 else b
      case None => b
  }

  /** Every ordinal is below the bound, and the bound only grows. */
  lemma {:induction false} BoundAbove(cands: seq<Candidate>)
    ensures forall n :: n in Ordinals(cands) ==> n < Bound(cands)
  {
    if cands != [] {
      BoundAbove(cands[..|cands| - 1]);
    }
  }

  /** What ordinal `n` contributes to the list, as a function of `n`. */
  function PerOrdinal(cands: seq<Candidate>, packName: string, preferWebP: bool): nat -> seq<DownloadTask>
  {
    (n: nat) => SlotTasks(packName, n, Slot(cands, n), preferWebP)
  }

  /** `tasksOf(0) + tasksOf(1) + ... + tasksOf(m - 1)`. */
  function Concat(tasksOf: nat -> seq<DownloadTask>, m: nat): seq<DownloadTask>
  {
    if m == 0 then [] else Concat(tasksOf, m - 1) + tasksOf(m - 1)
  }

  /** The reference definition of what `createDownloadList` returns: the
      tasks of every ordinal, smallest ordinal first. */
  function Plan(cands: seq<Candidate>, packName: string, preferWebP: bool): seq<DownloadTask>
  {
    Concat(PerOrdinal(cands, packName, preferWebP), Bound(cands))
  }

  /** Numbers that contribute nothing leave the concatenation as it is. */
  lemma {:induction false} ConcatSkip(tasksOf: nat -> seq<DownloadTask>, a: nat, b: nat)
    requires a <= b
    requires forall n :: a <= n < b ==> tasksOf(n) == []
    ensures Concat(tasksOf, b) == Concat(tasksOf, a)
  {
    if a < b {
      ConcatSkip(tasksOf, a, b - 1);
    }
  }

  /** A number that is not an ordinal contributes nothing. */
  lemma NoTasksOutside(cands: seq<Candidate>, packName: string, preferWebP: bool, a: nat, b: nat)
    requires forall n :: a <= n < b ==> n !in Ordinals(cands)
    ensures forall n :: a <= n < b ==> PerOrdinal(cands, packName, preferWebP)(n) == []
  {
    forall n | a <= n < b ensures PerOrdinal(cands, packName, preferWebP)(n) == [] {
      SlotMembers(cands, n);
      assert SlotTasks(packName, n, [], preferWebP) == [];
    }
  }

  /** One more sticker URL extends its own slot and no other. */
  lemma SlotExtend(cands: seq<Candidate>, i: nat)
    requires i < |cands|
    ensures forall n: nat :: (Slot(cands[..i + 1], n)
      == Slot(cands[..i], n) + (if ParseOrdinal(cands[i].url) == Some(n) then [cands[i]] else []))
    ensures Ordinals(cands[..i + 1])
      == Ordinals(cands[..i]) + (if ParseOrdinal(cands[i].url).Some? then {ParseOrdinal(cands[i].url).value} else {})
  {
    assert cands[..i + 1][..i] == cands[..i];
  }

  /** The first `forEach` of `createDownloadList`: `groupedUrls`. */
  method GroupByOrdinal(stickerUrls: seq<Candidate>) returns (groupedUrls: map<nat, seq<Candidate>>)
    ensures groupedUrls.Keys == Ordinals(stickerUrls)
    ensures forall n {:trigger groupedUrls[n]} :: n in groupedUrls ==> groupedUrls[n] == Slot(stickerUrls, n)
  {
    groupedUrls := map[];
    var i := 0;
    while i < |stickerUrls|
      invariant 0 <= i <= |stickerUrls|
      invariant Grouped(groupedUrls, stickerUrls[..i])
    {
      var c := stickerUrls[i];
      ghost var before := groupedUrls;
      match ParseOrdinal(c.url) {
        case Some(number) =>
          if number !in groupedUrls {
            groupedUrls := groupedUrls[number := []];
          }
          groupedUrls := groupedUrls[number := groupedUrls[number] + [c]];
        case None =>
      }
      FileStep(stickerUrls, i, before, groupedUrls);
      i := i + 1;
    }
    assert stickerUrls[..i] == stickerUrls;
  }

  /** `g` files the candidates `cands` by ordinal. */
  ghost predicate Grouped(g: map<nat, seq<Candidate>>, cands: seq<Candidate>)
  {
    g.Keys == Ordinals(cands) && forall n :: n in g ==> g[n] == Slot(cands, n)
  }

  /** Filing one more candidate under its ordinal keeps the map filed. */
  lemma FileStep(cands: seq<Candidate>, i: nat, g: map<nat, seq<Candidate>>, g': map<nat, seq<Candidate>>)
    requires i < |cands| && Grouped(g, cands[..i])
    requires ParseOrdinal(cands[i].url).None? ==> g' == g
    requires ParseOrdinal(cands[i].url).Some? ==>
      var n := ParseOrdinal(cands[i].url).value;
      g' == g[n := (if n in g then g[n] else []) + [cands[i]]]
    ensures Grouped(g', cands[..i + 1])
  {
    SlotExtend(cands, i);
    var o := ParseOrdinal(cands[i].url);
    if o.Some? {
      var n := o.value;
      assert n !in g ==> Slot(cands[..i], n) == [] by {
        SlotMembers(cands[..i], n);
      }
      assert g'.Keys == g.Keys + {n};
      forall m | m in g' ensures g'[m] == Slot(cands[..i + 1], m) {
        if m != n {
          assert g'[m] == g[m];
        }
      }
    } else {
      forall m | m in g' ensures g'[m] == Slot(cands[..i + 1], m) {
        assert g'[m] == g[m];
      }
    }
  }

  /** The body of the second `forEach`, for one ordinal and its slot: the
      tasks it pushes. */
  method TasksOfSlot(packName: string, number: nat, urls: seq<Candidate>, preferWebP: bool)
    returns (tasks: seq<DownloadTask>)
    ensures tasks == SlotTasks(packName, number, urls, preferWebP)
  {
    tasks := [];
    if preferWebP {
      var webpUrl := FindExt(urls, "webp");
      var pngUrl := FindExt(urls, "png");
      var gifUrl := FindExt(urls, "gif");
      if webpUrl.Some? {
        tasks := [TaskFor(packName, number, urls[webpUrl.value], "webp")];
      } else if pngUrl.Some? {
        tasks := [TaskFor(packName, number, urls[pngUrl.value], "png")];
      } else if gifUrl.Some? {
        tasks := [TaskFor(packName, number, urls[gifUrl.value], "gif")];
      }
    } else {
      var j := 0;
      while j < |urls|
        invariant 0 <= j <= |urls|
        invariant tasks == AllTasks(packName, number, urls[..j])
      {
        assert urls[..j + 1][..j] == urls[..j];
        tasks := tasks + [TaskFor(packName, number, urls[j], urls[j].ext)];
        j := j + 1;
      }
      assert urls[..j] == urls;
    }
  }

  /** `createDownloadList(stickerUrls, packName)` with `CONFIG.preferWebP`
      as a parameter. `Object.keys` lists integer keys in ascending order, so
      the list is built in ordinal order and the final stable sort by number
      leaves it as it is (`PlanSorted`). */
  method CreateDownloadList(stickerUrls: seq<Candidate>, packName: string, preferWebP: bool)
    returns (downloadList: seq<DownloadTask>)
    ensures downloadList == Plan(stickerUrls, packName, preferWebP)
  {
    var groupedUrls := GroupByOrdinal(stickerUrls);
    downloadList := [];
    var remaining := groupedUrls.Keys;
    ghost var next: nat := 0;
    while remaining != {}
      invariant remaining <= groupedUrls.Keys
      invariant forall n :: n in groupedUrls ==> (n in remaining <==> next <= n)
      invariant downloadList == Concat(PerOrdinal(stickerUrls, packName, preferWebP), next)
      decreases remaining
    {
      LeastExists(remaining);
      var number :| IsLeast(number, remaining);
      var tasks := TasksOfSlot(packName, number, groupedUrls[number], preferWebP);
      PlanStep(stickerUrls, packName, preferWebP, groupedUrls.Keys, remaining, next, number,
               downloadList, groupedUrls[number], tasks);
      downloadList := downloadList + tasks;
      remaining := remaining - {number};
      next := number + 1;
    }
    PlanDone(stickerUrls, packName, preferWebP, groupedUrls.Keys, next);
  }

  /** One turn of the second `forEach`: the least key left is the next
      ordinal, and its tasks extend the list up to it. */
  lemma PlanStep(cands: seq<Candidate>, packName: string, preferWebP: bool,
                 keys: set<nat>, remaining: set<nat>, next: nat, number: nat,
                 list: seq<DownloadTask>, slot: seq<Candidate>, tasks: seq<DownloadTask>)
    requires keys == Ordinals(cands) && remaining <= keys
    requires forall n :: n in keys ==> (n in remaining <==> next <= n)
    requires IsLeast(number, remaining)
    requires list == Concat(PerOrdinal(cands, packName, preferWebP), next)
    requires slot == Slot(cands, number) && tasks == SlotTasks(packName, number, slot, preferWebP)
    ensures list + tasks == Concat(PerOrdinal(cands, packName, preferWebP), number + 1)
    ensures forall n :: n in keys ==> (n in remaining - {number} <==> number + 1 <= n)
  {
    var f := PerOrdinal(cands, packName, preferWebP);
    NoTasksOutside(cands, packName, preferWebP, next, number);
    ConcatSkip(f, next, number);
    assert f(number) == tasks;
  }

  /** Once every key has been taken, the rest of the list is empty. */
  lemma PlanDone(cands: seq<Candidate>, packName: string, preferWebP: bool, keys: set<nat>, next: nat)
    requires keys == Ordinals(cands)
    requires forall n :: n in keys ==> n < next
    ensures Concat(PerOrdinal(cands, packName, preferWebP), next) == Plan(cands, packName, preferWebP)
  {
    var f := PerOrdinal(cands, packName, preferWebP);
    BoundAbove(cands);
    if next <= Bound(cands) {
      NoTasksOutside(cands, packName, preferWebP, next, Bound(cands));
      ConcatSkip(f, next, Bound(cands));
    } else {
      NoTasksOutside(cands, packName, preferWebP, Bound(cands), next);
      ConcatSkip(f, Bound(cands), next);
    }
  }

  /** The `j`-th candidate's URL carries ordinal `j + 1`. */
  ghost predicate NumberedInOrder(cands: seq<Candidate>)
  {
    forall j :: 0 <= j < |cands| ==> ParseOrdinal(cands[j].url) == Some(j + 1)
  }

  lemma NumberedPrefix(cands: seq<Candidate>, k: nat)
    requires NumberedInOrder(cands) && k <= |cands|
    ensures NumberedInOrder(cands[..k])
  {
    forall j | 0 <= j < k ensures ParseOrdinal(cands[..k][j].url) == Some(j + 1) {
      assert cands[..k][j] == cands[j];
    }
  }

  /** Candidates numbered in order are each alone in their slot ... */
  lemma {:induction false} NumberedSlot(cands: seq<Candidate>, n: nat)
    requires NumberedInOrder(cands)
    ensures Slot(cands, n) == if 1 <= n <= |cands| then [cands[n - 1]] else []
  {
    if cands != [] {
      var k := |cands| - 1;
      var o := ParseOrdinal(cands[k].url);
      assert o == Some(k + 1);
      assert Slot(cands, n) == Slot(cands[..k], n) + (if o == Some(n) then [cands[k]] else []);
      NumberedPrefix(cands, k);
      NumberedSlot(cands[..k], n);
      if 1 <= n <= k {
        assert cands[..k][n - 1] == cands[n - 1];
      }
    }
  }

  /** ... and their bound is one more than their count. */
  lemma {:induction false} NumberedBound(cands: seq<Candidate>)
    requires NumberedInOrder(cands)
    ensures Bound(cands) == if cands == [] then 0 else |cands| + 1
  {
    if cands != [] {
      var k := |cands| - 1;
      assert ParseOrdinal(cands[k].url) == Some(k + 1);
      NumberedPrefix(cands, k);
      NumberedBound(cands[..k]);
    }
  }

  // ---------------------------------------------------------------------
  // What the list promises
  // ---------------------------------------------------------------------

  /** Every task of the concatenation comes from the contribution of a
      number below `m` ... */
  lemma {:induction false} ConcatFrom(tasksOf: nat -> seq<DownloadTask>, m: nat, t: DownloadTask)
    requires t in Concat(tasksOf, m)
    ensures exists n :: 0 <= n < m && t in tasksOf(n)
  {
    if t !in tasksOf(m - 1) {
      ConcatFrom(tasksOf, m - 1, t);
    }
  }

  /** ... and every task of such a contribution is in it. */
  lemma {:induction false} ConcatHas(tasksOf: nat -> seq<DownloadTask>, m: nat, n: nat, t: DownloadTask)
    requires n < m && t in tasksOf(n)
    ensures t in Concat(tasksOf, m)
  {
    if n < m - 1 {
      ConcatHas(tasksOf, m - 1, n, t);
    }
  }

  /** Every task of the list comes from a sticker URL that parses to its
      number, keeps that URL and its extension, and is named
      `${packName}-${number}.${ext}`. */
  lemma PlanTasks(cands: seq<Candidate>, packName: string, preferWebP: bool)
    ensures forall t :: t in Plan(cands, packName, preferWebP) ==>
      && t.fileName == TaskFileName(packName, t.number, t.ext)
      && exists c :: c in cands && ParseOrdinal(c.url) == Some(t.number) && c.url == t.url && c.ext == t.ext
  {
    var f := PerOrdinal(cands, packName, preferWebP);
    forall t | t in Plan(cands, packName, preferWebP)
      ensures && t.fileName == TaskFileName(packName, t.number, t.ext)
              && exists c :: c in cands && ParseOrdinal(c.url) == Some(t.number) && c.url == t.url && c.ext == t.ext
    {
      ConcatFrom(f, Bound(cands), t);
      var n :| 0 <= n < Bound(cands) && t in f(n);
      SlotTasksSpec(packName, n, Slot(cands, n), preferWebP);
      SlotMembers(cands, n);
    }
  }

  /** Numbers never decrease along `p` (and strictly increase if `strict`). */
  predicate Ascending(p: seq<DownloadTask>, strict: bool)
  {
    forall a, b :: 0 <= a < b < |p| ==> p[a].number <= p[b].number && (strict ==> p[a].number < p[b].number)
  }

  lemma AscendingAppend(init: seq<DownloadTask>, last: seq<DownloadTask>, n: nat, strict: bool)
    requires Ascending(init, strict)
    requires forall t :: t in init ==> t.number < n
    requires forall t :: t in last ==> t.number == n
    requires strict ==> |last| <= 1
    ensures Ascending(init + last, strict)
  {
    var p := init + last;
    forall a, b | 0 <= a < b < |p|
      ensures p[a].number <= p[b].number && (strict ==> p[a].number < p[b].number)
    {
      if b < |init| {
        assert p[a] == init[a] && p[b] == init[b];
      } else if a < |init| {
        assert p[a] in init && last[b - |init|] in last;
      } else {
        assert p[a] in last && p[b] in last;
      }
    }
  }

  /** Each number's tasks carry that number (and are at most one if
      `strict`). */
  ghost predicate Numbered(tasksOf: nat -> seq<DownloadTask>, m: nat, strict: bool)
  {
    forall n, t :: 0 <= n < m && t in tasksOf(n) ==> t.number == n && (strict ==> |tasksOf(n)| <= 1)
  }

  /** Then the concatenation is in ascending number order. */
  lemma {:induction false} ConcatAscending(tasksOf: nat -> seq<DownloadTask>, m: nat, strict: bool)
    requires Numbered(tasksOf, m, strict)
    ensures Ascending(Concat(tasksOf, m), strict)
  {
    if m > 0 {
      var init := Concat(tasksOf, m - 1);
      assert Numbered(tasksOf, m - 1, strict);
      ConcatAscending(tasksOf, m - 1, strict);
      forall t | t in init ensures t.number < m - 1 {
        ConcatFrom(tasksOf, m - 1, t);
      }
      if strict && tasksOf(m - 1) != [] {
        assert tasksOf(m - 1)[0] in tasksOf(m - 1);
      }
      AscendingAppend(init, tasksOf(m - 1), m - 1, strict);
    }
  }

  /** `PlanSorted`: the download list is in ascending number order (strictly
      so, one task per number, under the WebP preference), so sorting it by
      number changes nothing. */
  lemma PlanSorted(cands: seq<Candidate>, packName: string, preferWebP: bool)
    ensures Ascending(Plan(cands, packName, preferWebP), preferWebP)
  {
    var f := PerOrdinal(cands, packName, preferWebP);
    forall n, t | 0 <= n < Bound(cands) && t in f(n)
      ensures t.number == n && (preferWebP ==> |f(n)| <= 1)
    {
      SlotTasksSpec(packName, n, Slot(cands, n), preferWebP);
    }
    ConcatAscending(f, Bound(cands), preferWebP);
  }

  /** Under the WebP preference, every ordinal whose URLs include a WebP, PNG
      or GIF one gets a task, for the first URL of the most preferred of those
      extensions: a WebP file wins over PNG and GIF files of the same number. */
  lemma PlanPreferred(cands: seq<Candidate>, packName: string, c: Candidate)
    requires c in cands && ParseOrdinal(c.url).Some?
    requires c.ext == "webp" || c.ext == "png" || c.ext == "gif"
    ensures var n := ParseOrdinal(c.url).value; var slot := Slot(cands, n);
      && PreferredExt(slot).Some?
      && (c.ext == "webp" ==> PreferredExt(slot) == Some("webp"))
      && (c.ext == "png" ==> PreferredExt(slot) != Some("gif"))
      && var e := PreferredExt(slot).value;
         TaskFor(packName, n, slot[FindExt(slot, e).value], e) in Plan(cands, packName, true)
  {
    var n := ParseOrdinal(c.url).value;
    var slot := Slot(cands, n);
    SlotMembers(cands, n);
    assert c in slot;
    SlotPreferred(slot, c);
    var e := PreferredExt(slot).value;
    var t := TaskFor(packName, n, slot[FindExt(slot, e).value], e);
    assert PerOrdinal(cands, packName, true)(n) == [t];
    assert n < Bound(cands) by {
      BoundAbove(cands);
    }
    ConcatHas(PerOrdinal(cands, packName, true), Bound(cands), n, t);
  }

  /** A slot holding a WebP, PNG or GIF file has a preferred extension: WebP
      when it holds a WebP file, and never GIF when it holds a PNG file. */
  lemma SlotPreferred(slot: seq<Candidate>, c: Candidate)
    requires c in slot && (c.ext == "webp" || c.ext == "png" || c.ext == "gif")
    ensures PreferredExt(slot).Some? && FindExt(slot, PreferredExt(slot).value).Some?
    ensures c.ext == "webp" ==> PreferredExt(slot) == Some("webp")
    ensures c.ext == "png" ==> PreferredExt(slot) != Some("gif")
  {
    var k :| 0 <= k < |slot| && slot[k] == c;
    FindExtSpec(slot, c.ext);
    assert FindExt(slot, c.ext).Some?;
  }

  /** Without the preference, every sticker URL that has an ordinal gets its
      own task, with its own extension. */
  lemma PlanKeepsAll(cands: seq<Candidate>, packName: string, c: Candidate)
    requires c in cands && ParseOrdinal(c.url).Some?
    ensures TaskFor(packName, ParseOrdinal(c.url).value, c, c.ext) in Plan(cands, packName, false)
  {
    var n := ParseOrdinal(c.url).value;
    var slot := Slot(cands, n);
    SlotMembers(cands, n);
    var k :| 0 <= k < |slot| && slot[k] == c;
    AllTasksAt(packName, n, slot);
    assert SlotTasks(packName, n, slot, false)[k] == TaskFor(packName, n, c, c.ext);
    BoundAbove(cands);
    ConcatHas(PerOrdinal(cands, packName, false), Bound(cands), n, TaskFor(packName, n, c, c.ext));
  }

  /** How many candidates parse to an ordinal below `m`. */
  function CountBelow(cands: seq<Candidate>, m: nat): (r: nat)
    ensures r <= |cands|
  {
    if cands == [] then 0
    else
      var k := |cands| - 1;
      var o := ParseOrdinal(cands[k].url);
      CountBelow(cands[..k], m) + (if o.Some? && o.value < m then 1 else 0)
  }

  /** Raising the limit by one adds exactly the slot of the old limit. */
  lemma {:induction false} CountBelowStep(cands: seq<Candidate>, m: nat)
    ensures CountBelow(cands, m + 1) == CountBelow(cands, m) + |Slot(cands, m)|
  {
    if cands != [] {
      CountBelowStep(cands[..|cands| - 1], m);
    }
  }

  lemma {:induction false} CountBelowNone(cands: seq<Candidate>)
    ensures CountBelow(cands, 0) == 0
  {
    if cands != [] {
      CountBelowNone(cands[..|cands| - 1]);
    }
  }

  /** The sticker URLs that have an ordinal, in order. */
  function Parsed(cands: seq<Candidate>): (r: seq<Candidate>)
    ensures |r| <= |cands|
  {
    if cands == [] then []
    else
      var k := |cands| - 1;
      Parsed(cands[..k]) + (if ParseOrdinal(cands[k].url).Some? then [cands[k]] else [])
  }

  /** From the bound on, every candidate that has an ordinal is counted. */
  lemma {:induction false} CountBelowAll(cands: seq<Candidate>, m: nat)
    requires Bound(cands) <= m
    ensures CountBelow(cands, m) == |Parsed(cands)|
  {
    if cands != [] {
      CountBelowAll(cands[..|cands| - 1], m);
    }
  }

  /** When each number's contribution is as long as the step of `count`
      there, the concatenation is as long as `count` at `m`. */
  lemma {:induction false} ConcatCount(tasksOf: nat -> seq<DownloadTask>, count: nat -> nat, m: nat)
    requires count(0) == 0
    requires forall n :: 0 <= n < m ==> count(n) + |tasksOf(n)| == count(n + 1)
    ensures |Concat(tasksOf, m)| == count(m)
  {
    if m > 0 {
      ConcatCount(tasksOf, count, m - 1);
    }
  }

  /** Without the preference, the list has one task per sticker URL that has
      an ordinal: none is lost and none is doubled. */
  lemma PlanLengthAll(cands: seq<Candidate>, packName: string)
    ensures |Plan(cands, packName, false)| == |Parsed(cands)|
  {
    var f := PerOrdinal(cands, packName, false);
    forall n | 0 <= n < Bound(cands) ensures CountBelow(cands, n) + |f(n)| == CountBelow(cands, n + 1) {
      SlotTasksSpec(packName, n, Slot(cands, n), false);
      CountBelowStep(cands, n);
    }
    CountBelowNone(cands);
    ConcatCount(f, (n: nat) => CountBelow(cands, n), Bound(cands));
    CountBelowAll(cands, Bound(cands));
  }
}
