/** String operations the crawlers and the catalog builder take from
    JavaScript and Node, restated over `string` (a sequence of chars). */
module Text {

  // ---------------------------------------------------------------------
  // Digits: `\d`, `parseInt` on a run of digits, and the template `${n}`
  // ---------------------------------------------------------------------

  /** `\d` of a JavaScript regular expression (ASCII digits only). */
  predicate IsDigit(c: char) { '0' <= c <= '9' }

  predicate AllDigits(s: string) { forall i :: 0 <= i < |s| ==> IsDigit(s[i]) }

  function DigitValue(c: char): nat
    requires IsDigit(c)
  {
    c as int - '0' as int
  }

  function DigitChar(d: nat): (c: char)
    requires d < 10
    ensures IsDigit(c) && DigitValue(c) == d
  {
    ('0' as int + d) as char
  }

  /** The number `parseInt` reads from a run of decimal digits. */
  function DigitsValue(s: string): nat
    requires AllDigits(s)
  {
    if s == [] then 0 else DigitsValue(s[..|s| - 1]) * 10 + DigitValue(s[|s| - 1])
  }

  /** The decimal spelling of a number, as `${n}` writes it. */
  function NatToString(n: nat): (r: string)
    ensures r != [] && AllDigits(r)
  {
    if n < 10 then [DigitChar(n)] else NatToString(n / 10) + [DigitChar(n % 10)]
  }

  /** Reading back what `${n}` wrote gives `n`. */
  lemma {:induction false} NatToStringRoundTrip(n: nat)
    ensures DigitsValue(NatToString(n)) == n
  {
    if n >= 10 {
      var r := NatToString(n);
      assert r[..|r| - 1] == NatToString(n / 10);
      NatToStringRoundTrip(n / 10);
    }
  }

  /** Different numbers are spelt differently. */
  lemma NatToStringInjective(m: nat, n: nat)
    requires NatToString(m) == NatToString(n)
    ensures m == n
  {
    NatToStringRoundTrip(m);
    NatToStringRoundTrip(n);
  }

  /** The length of the run of digits that starts `s`. */
  function DigitRun(s: string): (n: nat)
    ensures n <= |s| && AllDigits(s[..n])
    ensures n < |s| ==> !IsDigit(s[n])
  {
    if s == [] || !IsDigit(s[0]) then 0
    else
      var n := 1 + DigitRun(s[1..]);
      assert s[..n] == [s[0]] + s[1..][..n - 1];
      n
  }

  /** A run of digits followed by a non-digit is the whole digit run. */
  lemma {:induction false} DigitRunOfDigits(a: string, b: string)
    requires AllDigits(a) && (b == [] || !IsDigit(b[0]))
    ensures DigitRun(a + b) == |a|
  {
    if a != [] {
      assert (a + b)[1..] == a[1..] + b;
      DigitRunOfDigits(a[1..], b);
    }
  }

  /** After a common prefix, two digit strings each followed by a tail that
      starts with a non-digit cannot differ and still spell the same
      string. */
  lemma DigitsAfterPrefixUnique(p: string, d1: string, e1: string, d2: string, e2: string)
    requires AllDigits(d1) && AllDigits(d2)
    requires e1 != [] && !IsDigit(e1[0]) && e2 != [] && !IsDigit(e2[0])
    requires p + (d1 + e1) == p + (d2 + e2)
    ensures d1 == d2
  {
    assert (p + (d1 + e1))[|p|..] == d1 + e1;
    assert (p + (d2 + e2))[|p|..] == d2 + e2;
    DigitRunOfDigits(d1, e1);
    DigitRunOfDigits(d2, e2);
    assert d1 == (d1 + e1)[..|d1|];
    assert d2 == (d2 + e2)[..|d2|];
  }

  // ---------------------------------------------------------------------
  // startsWith, endsWith, includes, indexOf, replace
  // ---------------------------------------------------------------------

  predicate StartsWith(s: string, p: string) { |p| <= |s| && s[..|p|] == p }

  predicate EndsWith(s: string, p: string) { |p| <= |s| && s[|s| - |p|..] == p }

  /** `t` occurs in `s` at index `i`. */
  predicate OccursAt(s: string, t: string, i: int)
  {
    0 <= i && i + |t| <= |s| && s[i..i + |t|] == t
  }

  /** `s.includes(t)` */
  predicate Contains(s: string, t: string)
  {
    exists i :: 0 <= i <= |s| && OccursAt(s, t, i)
  }

  /** Text added in front of a string keeps every substring of it. */
  lemma ContainsAfterPrefix(a: string, b: string, t: string)
    requires Contains(b, t)
    ensures Contains(a + b, t)
  {
    var i :| 0 <= i <= |b| && OccursAt(b, t, i);
    assert (a + b)[|a| + i..|a| + i + |t|] == b[i..i + |t|];
    assert OccursAt(a + b, t, |a| + i);
  }

  /** A string that ends with `b` contains everything `b` contains. */
  lemma ContainsViaSuffix(s: string, b: string, t: string)
    requires EndsWith(s, b) && Contains(b, t)
    ensures Contains(s, t)
  {
    var a := s[..|s| - |b|];
    assert s == a + b;
    ContainsAfterPrefix(a, b, t);
  }

  /** The first index at or after `from` where `t` occurs in `s`, or -1:
      `s.indexOf(t, from)`. */
  function IndexFrom(s: string, t: string, from: nat): (k: int)
    requires from <= |s|
    ensures k == -1 || (from <= k && OccursAt(s, t, k))
    decreases |s| - from
  {
    if OccursAt(s, t, from) then from
    else if from == |s| then -1
    else IndexFrom(s, t, from + 1)
  }

  /** `indexOf` finds the first occurrence at or after `from`, and -1 only
      when there is none. */
  lemma {:induction false} IndexFromSpec(s: string, t: string, from: nat)
    requires from <= |s|
    ensures var k := IndexFrom(s, t, from);
      && (k == -1 ==> forall j :: from <= j <= |s| ==> !OccursAt(s, t, j))
      && (k != -1 ==> forall j :: from <= j < k ==> !OccursAt(s, t, j))
    decreases |s| - from
  {
    if !OccursAt(s, t, from) && from < |s| {
      IndexFromSpec(s, t, from + 1);
    }
  }

  /** `s.replace(t, rep)` with a string pattern: only the first occurrence of
      `t` is replaced. */
  function ReplaceFirst(s: string, t: string, rep: string): string
  {
    var k := IndexFrom(s, t, 0);
    if k == -1 then s else s[..k] + rep + s[k + |t|..]
  }

  /** Without an occurrence nothing changes; otherwise the first occurrence,
      and only it, is replaced. */
  lemma ReplaceFirstSpec(s: string, t: string, rep: string)
    ensures !Contains(s, t) ==> ReplaceFirst(s, t, rep) == s
    ensures Contains(s, t) ==>
      exists k :: OccursAt(s, t, k) && (forall j :: 0 <= j < k ==> !OccursAt(s, t, j))
                  && ReplaceFirst(s, t, rep) == s[..k] + rep + s[k + |t|..]
  {
    var k := IndexFrom(s, t, 0);
    IndexFromSpec(s, t, 0);
    if Contains(s, t) {
      var i :| 0 <= i <= |s| && OccursAt(s, t, i);
      assert k != -1;
      assert OccursAt(s, t, k) && (forall j :: 0 <= j < k ==> !OccursAt(s, t, j));
    } else {
      assert k == -1;
    }
  }

  // ---------------------------------------------------------------------
  // Case mapping and the `\b\w` title-casing idiom
  // ---------------------------------------------------------------------

  function LowerChar(c: char): char
  {
    if 'A' <= c <= 'Z' then (c as int + 32) as char else c
  }

  function UpperChar(c: char): char
  {
    if 'a' <= c <= 'z' then (c as int - 32) as char else c
  }

  /** `toLowerCase`, on the ASCII letters. */
  function ToLower(s: string): (r: string)
    ensures |r| == |s| && forall i :: 0 <= i < |s| ==> r[i] == LowerChar(s[i])
  {
    seq(|s|, i requires 0 <= i < |s| => LowerChar(s[i]))
  }

  /** `toUpperCase`, on the ASCII letters. */
  function ToUpper(s: string): (r: string)
    ensures |r| == |s| && forall i :: 0 <= i < |s| ==> r[i] == UpperChar(s[i])
  {
    seq(|s|, i requires 0 <= i < |s| => UpperChar(s[i]))
  }

  /** `\w` of a JavaScript regular expression. */
  predicate IsWordChar(c: char)
  {
    'a' <= c <= 'z' || 'A' <= c <= 'Z' || IsDigit(c) || c == '_'
  }

  /** `\b\w` matches at `i`: a word character with no word character before it. */
  predicate WordStart(s: string, i: nat)
    requires i < |s|
  {
    IsWordChar(s[i]) && (i == 0 || !IsWordChar(s[i - 1]))
  }

  /** `s.replace(/\b\w/g, l => l.toUpperCase())` */
  function TitleCase(s: string): (r: string)
    ensures |r| == |s|
    ensures forall i :: 0 <= i < |s| ==> r[i] == if WordStart(s, i) then UpperChar(s[i]) else s[i]
  {
    seq(|s|, i requires 0 <= i < |s| => if WordStart(s, i) then UpperChar(s[i]) else s[i])
  }

  /** `s.replace(/[...]/g, c)`: every character of the class becomes `c`. */
  function Substitute(s: string, cls: set<char>, c: char): (r: string)
    ensures |r| == |s|
    ensures forall i :: 0 <= i < |s| ==> r[i] == if s[i] in cls then c else s[i]
  {
    seq(|s|, i requires 0 <= i < |s| => if s[i] in cls then c else s[i])
  }

  /** Lower-casing leaves no upper-case ASCII letter, so doing it twice is
      doing it once. */
  lemma ToLowerSpec(s: string)
    ensures forall i :: 0 <= i < |ToLower(s)| ==> !('A' <= ToLower(s)[i] <= 'Z')
    ensures ToLower(ToLower(s)) == ToLower(s)
  {
  }

  /** Upper-casing leaves no lower-case ASCII letter, so doing it twice is
      doing it once. */
  lemma ToUpperSpec(s: string)
    ensures forall i :: 0 <= i < |ToUpper(s)| ==> !('a' <= ToUpper(s)[i] <= 'z')
    ensures ToUpper(ToUpper(s)) == ToUpper(s)
  {
  }

  /** Title-casing changes only the characters that start a word, leaves
      none of those lower-case, keeps the word boundaries, and so is
      idempotent. */
  lemma TitleCaseSpec(s: string)
    ensures var r := TitleCase(s);
      && (forall i :: 0 <= i < |s| && r[i] != s[i] ==> WordStart(s, i))
      && (forall i :: 0 <= i < |s| && WordStart(s, i) ==> !('a' <= r[i] <= 'z'))
      && (forall i :: 0 <= i < |s| ==> (WordStart(r, i) <==> WordStart(s, i)))
      && TitleCase(r) == r
  {
    var r := TitleCase(s);
    forall i | 0 <= i < |s|
      ensures IsWordChar(r[i]) <==> IsWordChar(s[i])
    {
    }
    forall i | 0 <= i < |s|
      ensures WordStart(r, i) <==> WordStart(s, i)
    {
      if i > 0 {
        assert IsWordChar(r[i - 1]) <==> IsWordChar(s[i - 1]);
      }
    }
  }

  /** Substituting a character outside the class leaves no character of the
      class behind; substituting twice is substituting once. */
  lemma SubstituteSpec(s: string, cls: set<char>, c: char)
    ensures c !in cls ==> forall i :: 0 <= i < |s| ==> Substitute(s, cls, c)[i] !in cls
    ensures Substitute(Substitute(s, cls, c), cls, c) == Substitute(s, cls, c)
  {
  }

  // ---------------------------------------------------------------------
  // Node's path.basename, path.extname and path.parse().name (POSIX)
  // ---------------------------------------------------------------------

  /** The part of `p` after its last '/' (all of `p` when it has none). */
  function LastSegment(p: string): string
  {
    if p == [] then []
    else if p[|p| - 1] == '/' then []
    else LastSegment(p[..|p| - 1]) + [p[|p| - 1]]
  }

  /** The last segment ends `p`, holds no '/', and is preceded by one when
      it is not all of `p`. */
  lemma {:induction false} LastSegmentSpec(p: string)
    ensures var r := LastSegment(p);
      EndsWith(p, r) && '/' !in r && (|r| < |p| ==> p[|p| - |r| - 1] == '/')
  {
    if p != [] && p[|p| - 1] != '/' {
      var q := p[..|p| - 1];
      LastSegmentSpec(q);
      var r := LastSegment(p);
      assert p[|p| - |r|..] == q[|q| - |LastSegment(q)|..] + [p[|p| - 1]];
    }
  }

  /** What follows the last '/' is the last segment. */
  lemma {:induction false} LastSegmentAfter(a: string, b: string)
    requires '/' !in b
    ensures LastSegment(a + "/" + b) == b
  {
    var p := a + "/" + b;
    if b != [] {
      var k := |b| - 1;
      assert p[..|p| - 1] == a + "/" + b[..k];
      LastSegmentAfter(a, b[..k]);
      assert b == b[..k] + [b[k]];
    }
  }

  /** A path without '/' is its own last segment. */
  lemma {:induction false} LastSegmentOfPlain(b: string)
    requires '/' !in b
    ensures LastSegment(b) == b
  {
    if b != [] {
      LastSegmentOfPlain(b[..|b| - 1]);
      assert b == b[..|b| - 1] + [b[|b| - 1]];
    }
  }

  // ---------------------------------------------------------------------
  // Node's path.join and path.normalize (POSIX, relative paths)
  // ---------------------------------------------------------------------

  /** `s.split('/')`: the pieces between slashes, empty ones included. */
  function SplitSlash(s: string): (r: seq<string>)
    ensures |r| >= 1
  {
    if s == [] then [[]]
    else
      var r := SplitSlash(s[..|s| - 1]);
      if s[|s| - 1] == '/' then r + [[]]
      else r[..|r| - 1] + [r[|r| - 1] + [s[|s| - 1]]]
  }

  /** A string without '/' is a single piece. */
  lemma {:induction false} SplitSlashPlain(b: string)
    requires '/' !in b
    ensures SplitSlash(b) == [b]
  {
    if b != [] {
      var k := |b| - 1;
      SplitSlashPlain(b[..k]);
      assert b == b[..k] + [b[k]];
    }
  }

  /** Splitting at a last '/' gives the pieces before it and the rest. */
  lemma {:induction false} SplitSlashAppend(a: string, b: string)
    requires '/' !in b
    ensures SplitSlash(a + "/" + b) == SplitSlash(a) + [b]
  {
    if b == [] {
      assert (a + "/" + b)[..|a + "/" + b| - 1] == a;
    } else {
      var k := |b| - 1;
      assert (a + "/" + b)[..|a + "/" + b| - 1] == a + "/" + b[..k];
      SplitSlashAppend(a, b[..k]);
      assert b == b[..k] + [b[k]];
    }
  }

  /** One segment of Node's `normalizeString` on a relative path: "" and "."
      are dropped, ".." removes the segment before it unless there is none
      or that one is itself "..", and any other segment is pushed. */
  function ResolveStep(stack: seq<string>, seg: string): seq<string>
  {
    if seg == [] || seg == "." then stack
    else if seg == ".." then
      if stack != [] && stack[|stack| - 1] != ".." then stack[..|stack| - 1] else stack + [".."]
    else stack + [seg]
  }

  /** The segments `normalizeString` keeps, left to right. */
  function Resolve(segs: seq<string>): seq<string>
  {
    if segs == [] then [] else ResolveStep(Resolve(segs[..|segs| - 1]), segs[|segs| - 1])
  }

  /** `./b`, for a plain segment `b`, splits into "." and `b`, and only `b`
      is kept. */
  lemma DotSegments(b: string)
    requires '/' !in b && b != [] && b != "." && b != ".."
    ensures SplitSlash("." + "/" + b) == [".", b]
    ensures Resolve(SplitSlash("." + "/" + b)) == [b]
  {
    SplitSlashPlain(".");
    SplitSlashAppend(".", b);
    var segs := [".", b];
    assert segs[..1] == ["."];
    assert ["."][..0] == [];
  }

  /** `segs.join('/')` */
  function JoinSlash(segs: seq<string>): string
  {
    if segs == [] then []
    else if |segs| == 1 then segs[0]
    else JoinSlash(segs[..|segs| - 1]) + "/" + segs[|segs| - 1]
  }

  /** `path.normalize(p)` for a relative `p`: the resolved segments, "." when
      none is left, and a trailing '/' kept. */
  function NormalizePath(p: string): string
    requires p == [] || p[0] != '/'
  {
    if p == [] then "."
    else
      var trailing := p[|p| - 1] == '/';
      var body := JoinSlash(Resolve(SplitSlash(p)));
      if body == [] then (if trailing then "./" else ".")
      else if trailing then body + "/" else body
  }

  /** A relative path without a trailing '/' normalises to the join of its
      resolved segments, or to "." when none is left. */
  lemma NormalizePathOf(p: string, segs: seq<string>)
    requires p != [] && p[0] != '/' && p[|p| - 1] != '/'
    requires Resolve(SplitSlash(p)) == segs
    ensures NormalizePath(p) == if JoinSlash(segs) == [] then "." else JoinSlash(segs)
  {
  }

  /** `path.join(a, b)` for a relative, non-empty `a`: an empty `b` is
      skipped, otherwise the two are joined with '/'; the result is
      normalised. */
  function JoinPath(a: string, b: string): string
    requires a != [] && a[0] != '/'
  {
    NormalizePath(if b == [] then a else a + "/" + b)
  }

  /** `p` without its trailing slashes. */
  function TrimTrailingSlashes(p: string): (r: string)
    ensures |r| <= |p|
  {
    if p != [] && p[|p| - 1] == '/' then TrimTrailingSlashes(p[..|p| - 1]) else p
  }

  /** Trimming keeps a prefix of `p` that does not end in '/'. */
  lemma {:induction false} TrimTrailingSlashesSpec(p: string)
    ensures var r := TrimTrailingSlashes(p);
      StartsWith(p, r) && (r == [] || r[|r| - 1] != '/')
  {
    if p != [] && p[|p| - 1] == '/' {
      var q := p[..|p| - 1];
      TrimTrailingSlashesSpec(q);
      assert p[..|TrimTrailingSlashes(q)|] == q[..|TrimTrailingSlashes(q)|];
    }
  }

  /** `path.basename(p)` */
  function BaseName(p: string): string
  {
    LastSegment(TrimTrailingSlashes(p))
  }

  /** The index of the last '.' in `s`, or -1. */
  function LastDot(s: string): (k: int)
    ensures -1 <= k < |s|
    ensures k >= 0 ==> s[k] == '.'
  {
    if s == [] then -1
    else if s[|s| - 1] == '.' then |s| - 1
    else LastDot(s[..|s| - 1])
  }

  /** No '.' follows the one `LastDot` finds. */
  lemma {:induction false} LastDotIsLast(s: string)
    ensures forall j :: LastDot(s) < j < |s| ==> s[j] != '.'
  {
    if s != [] && s[|s| - 1] != '.' {
      LastDotIsLast(s[..|s| - 1]);
    }
  }

  /** The extension of a base name `b`: from its last '.' to its end; empty
      when `b` has no '.', starts with its only '.', or is "..". */
  function Extension(b: string): (e: string)
    ensures e != [] ==> e[0] == '.' && |e| < |b|
  {
    var k := LastDot(b);
    // with k > 0, a two-character name starting with '.' is ".."
    if k <= 0 || (|b| == 2 && b[0] == '.') then [] else b[k..]
  }

  /** An extension ends the name and holds no '.' after its first
      character. */
  lemma ExtensionSpec(b: string)
    ensures EndsWith(b, Extension(b))
    ensures forall j :: 0 < j < |Extension(b)| ==> Extension(b)[j] != '.'
  {
    var e := Extension(b);
    if e != [] {
      var k := LastDot(b);
      LastDotIsLast(b);
      assert forall j :: 0 < j < |e| ==> e[j] == b[k + j];
    }
  }

  /** A name made of a non-empty stem, a '.' and a non-empty dot-free tail
      has that '.' and tail as its extension. */
  lemma ExtensionAfterDot(stem: string, tail: string)
    requires stem != [] && tail != [] && '.' !in tail
    ensures Extension(stem + "." + tail) == "." + tail
  {
    var b := stem + "." + tail;
    var k := LastDot(b);
    LastDotIsLast(b);
    assert b[|stem|] == '.';
    assert k == |stem|;
    assert b[k..] == "." + tail;
  }

  /** `path.extname(p)` */
  function ExtName(p: string): string
  {
    Extension(BaseName(p))
  }

  /** `path.parse(p).name`: the base name without its extension. */
  function StemName(p: string): (n: string)
    ensures StartsWith(BaseName(p), n) && |n| + |ExtName(p)| == |BaseName(p)|
  {
    var b := BaseName(p);
    b[..|b| - |ExtName(p)|]
  }
}
