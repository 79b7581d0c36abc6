/** The search strings a torrent derives from its file paths: shared prefixes are dropped against
    the previous path, shared suffixes against all earlier strings, and both cuts back off to a
    position that does not split a word.

    A path is a sequence of bytes, as in the source, and a word is a maximal run of bytes that
    the source's byte-wise `IsWordChar(rune(b))` accepts.
 */
module FileSearch {

  type Byte = b: int | 0 <= b < 256
  type Path = seq<Byte>

  /** Letters and digits among the first 256 code points, which is what `rune(path[i])` can be. */
  predicate IsWord(b: Byte) {
    || 0x30 <= b <= 0x39
    || 0x41 <= b <= 0x5A
    || 0x61 <= b <= 0x7A
    || b == 0xAA || b == 0xB5 || b == 0xBA
    || 0xC0 <= b <= 0xD6
    || 0xD8 <= b <= 0xF6
    || 0xF8 <= b <= 0xFF
  }

  predicate IsAsciiSpace(b: Byte) {
    b == 0x20 || 0x09 <= b <= 0x0D
  }

  /** The UTF-8 encodings of the two-byte white space characters U+0085 and U+00A0. */
  predicate IsSpace2(a: Byte, b: Byte) {
    a == 0xC2 && (b == 0x85 || b == 0xA0)
  }

  /** U+1680, U+2000 to U+200A, U+2028, U+2029, U+202F, U+205F and U+3000. */
  predicate IsSpace3(a: Byte, b: Byte, c: Byte) {
    || (a == 0xE1 && b == 0x9A && c == 0x80)
    || (a == 0xE2 && b == 0x80 && (0x80 <= c <= 0x8A || c == 0xA8 || c == 0xA9 || c == 0xAF))
    || (a == 0xE2 && b == 0x81 && c == 0x9F)
    || (a == 0xE3 && b == 0x80 && c == 0x80)
  }

  /** The length of the white space character `s` starts with, or 0. */
  function SpaceAtStart(s: Path): (n: nat)
    ensures n <= |s|
  {
    if |s| >= 1 && IsAsciiSpace(s[0]) then 1
    else if |s| >= 2 && IsSpace2(s[0], s[1]) then 2
    else if |s| >= 3 && IsSpace3(s[0], s[1], s[2]) then 3
    else 0
  }

  function SpaceAtEnd(s: Path): (n: nat)
    ensures n <= |s|
  {
    var k := |s|;
    if k >= 1 && IsAsciiSpace(s[k - 1]) then 1
    else if k >= 2 && IsSpace2(s[k - 2], s[k - 1]) then 2
    else if k >= 3 && IsSpace3(s[k - 3], s[k - 2], s[k - 1]) then 3
    else 0
  }

  function TrimLeft(s: Path): Path
    decreases |s|
  {
    var n := SpaceAtStart(s);
    if n == 0 then s else TrimLeft(s[n..])
  }

  function TrimRight(s: Path): Path
    decreases |s|
  {
    var n := SpaceAtEnd(s);
    if n == 0 then s else TrimRight(s[..|s| - n])
  }

  /** `strings.TrimSpace` */
  function TrimSpace(s: Path): Path {
    TrimRight(TrimLeft(s))
  }

  // --------------------------------------------------------------------------------------
  // The two passes as functions
  // --------------------------------------------------------------------------------------

  /** How far `p` and `q` agree from position `i` on. */
  function Agree(p: Path, q: Path, i: nat): (r: nat)
    requires i <= |p| && i <= |q|
    ensures i <= r <= |p| && r <= |q|
    ensures forall k :: i <= k < r ==> p[k] == q[k]
    decreases |p| - i
  {
    if i < |p| && i < |q| && p[i] == q[i] then Agree(p, q, i + 1) else i
  }

  /** How far `p` and `q` agree backwards from their ends, `l` bytes being known to. */
  function AgreeBack(p: Path, q: Path, l: nat): (r: nat)
    requires l <= |p| && l <= |q|
    ensures l <= r <= |p| && r <= |q|
    decreases |p| - l
  {
    if l < |p| && l < |q| && p[|p| - l - 1] == q[|q| - l - 1] then AgreeBack(p, q, l + 1) else l
  }

  /** Moves a cut to the left until it no longer stands on a word byte. */
  function BackOff(s: Path, i: nat): (r: nat)
    requires i < |s|
    ensures r <= i && (r != 0 ==> !IsWord(s[r]))
  {
    if i != 0 && IsWord(s[i]) then BackOff(s, i - 1) else i
  }

  /** Shortens a suffix until it does not start on a word byte. */
  function ShrinkSuffix(s: Path, l: nat): (r: nat)
    requires l <= |s|
    ensures r <= l && (r != 0 ==> !IsWord(s[|s| - r]))
  {
    if l != 0 && IsWord(s[|s| - l]) then ShrinkSuffix(s, l - 1) else l
  }

  /** The strings collected and the previous path after some paths. */
  datatype Progress = Progress(out: seq<Path>, prev: Path)

  /** Where the head of `f` is cut off; all of `f` goes if it is a prefix of `prev`. */
  function Cut(prev: Path, f: Path): (c: nat)
    ensures c <= |f| && c <= |prev|
    ensures forall k :: 0 <= k < c ==> prev[k] == f[k]
    ensures c == 0 || c == |f| || !IsWord(f[c])
  {
    var i := Agree(prev, f, 0);
    if i == |f| then i else BackOff(f, i)
  }

  function Skips(prev: Path, f: Path): bool {
    Agree(prev, f, 0) == |f|
  }

  function After(paths: seq<Path>, n: nat): Progress
    requires n <= |paths|
  {
    if n == 0 then Progress([], [])
    else
      var p, f := After(paths, n - 1), paths[n - 1];
      if Skips(p.prev, f) then p else Progress(p.out + [f[Cut(p.prev, f)..]], f)
  }

  function FirstPass(paths: seq<Path>): seq<Path> {
    After(paths, |paths|).out
  }

  /** The longest suffix that `s` shares with one of the first `j` strings. */
  function LongestSuffix(s: Path, first: seq<Path>, j: nat): (n: nat)
    requires j <= |first|
    ensures n <= |s|
  {
    if j == 0 then 0
    else
      var m := LongestSuffix(s, first, j - 1);
      var l := AgreeBack(s, first[j - 1], 0);
      if l > m then l else m
  }

  /** The number of bytes that the second pass removes from the end of string `i`. */
  function SuffixLen(first: seq<Path>, i: nat): (n: nat)
    requires i < |first|
    ensures n <= |first[i]| && CleanCut(first[i], |first[i]| - n)
  {
    ShrinkSuffix(first[i], LongestSuffix(first[i], first, i))
  }

  /** The second pass, before white space is trimmed. */
  function Stripped(first: seq<Path>): (r: seq<Path>)
    ensures |r| == |first|
  {
    seq(|first|, i requires 0 <= i < |first| => StrippedAt(first, i))
  }

  function StrippedAt(first: seq<Path>, i: nat): Path
    requires i < |first|
  {
    first[i][..|first[i]| - SuffixLen(first, i)]
  }

  /** The strings that are not empty once trimmed. */
  function Collect(trim: Path -> Path, ss: seq<Path>, n: nat): seq<Path>
    requires n <= |ss|
  {
    if n == 0 then [] else Collect(trim, ss, n - 1) + NonEmpty(trim(ss[n - 1]))
  }

  function TrimAll(ss: seq<Path>, n: nat): seq<Path>
    requires n <= |ss|
  {
    Collect(TrimSpace, ss, n)
  }

  function NonEmpty(t: Path): seq<Path> {
    if t == [] then [] else [t]
  }

  function SearchStrings(paths: seq<Path>): seq<Path> {
    var stripped := Stripped(FirstPass(paths));
    TrimAll(stripped, |stripped|)
  }

  // --------------------------------------------------------------------------------------
  // The loops of the source
  // --------------------------------------------------------------------------------------

  method FileSearchStrings(paths: seq<Path>) returns (searchStrings: seq<Path>)
    ensures searchStrings == SearchStrings(paths)
  {
    var firstPass: seq<Path> := [];
    var prevPath: Path := [];
    for n := 0 to |paths|
      invariant Progress(firstPass, prevPath) == After(paths, n)
    {
      var skip, i := HeadCut(prevPath, paths[n]);
      if skip {
        continue;
      }
      firstPass := firstPass + [paths[n][i..]];
      prevPath := paths[n];
    }
    searchStrings := SecondPass(TrimSpace, firstPass);
  }

  /** The two inner loops of the first pass: the shared prefix, then the back-off. */
  method HeadCut(prevPath: Path, f: Path) returns (skip: bool, i: nat)
    ensures skip == Skips(prevPath, f) && i == Cut(prevPath, f)
  {
    i := 0;
    while i < |f| && i < |prevPath| && prevPath[i] == f[i]
      invariant i <= |f| && i <= |prevPath|
      invariant Agree(prevPath, f, i) == Agree(prevPath, f, 0)
    {
      i := i + 1;
    }
    if i >= |f| {
      return true, i;
    }
    ghost var start := i;
    while i != 0 && IsWord(f[i])
      invariant i <= start
      invariant BackOff(f, i) == BackOff(f, start)
    {
      i := i - 1;
    }
    skip := false;
  }

  /** The outer loop of the second pass, first stripping and then trimming. */
  method SecondPass(trim: Path -> Path, firstPass: seq<Path>) returns (searchStrings: seq<Path>)
    ensures searchStrings == Collect(trim, Stripped(firstPass), |firstPass|)
  {
    var heads := StripSuffixes(firstPass);
    searchStrings := TrimStrings(trim, heads);
  }

  method StripSuffixes(firstPass: seq<Path>) returns (heads: seq<Path>)
    ensures heads == Stripped(firstPass)
  {
    heads := [];
    for i := 0 to |firstPass|
      invariant |heads| == i && forall k :: 0 <= k < i ==> heads[k] == StrippedAt(firstPass, k)
    {
      var longest := LongestCommonSuffix(firstPass, i);
      longest := ShortenedSuffix(firstPass[i], longest);
      heads := heads + [firstPass[i][..|firstPass[i]| - longest]];
    }
  }

  method TrimStrings(trim: Path -> Path, heads: seq<Path>) returns (r: seq<Path>)
    ensures r == Collect(trim, heads, |heads|)
  {
    r := [];
    for i := 0 to |heads|
      invariant r == Collect(trim, heads, i)
    {
      var str := trim(heads[i]);
      if str != [] {
        r := r + [str];
      }
    }
  }

  lemma TrimAllStep(ss: seq<Path>, n: nat, t: Path)
    requires n < |ss| && t == TrimSpace(ss[n])
    ensures TrimAll(ss, n + 1) == TrimAll(ss, n) + NonEmpty(t)
  {
  }

  /** The back-off loop of the second pass. */
  method ShortenedSuffix(s: Path, length: nat) returns (l: nat)
    requires length <= |s|
    ensures l == ShrinkSuffix(s, length)
  {
    l := length;
    while l != 0 && IsWord(s[|s| - l])
      invariant l <= length
      invariant ShrinkSuffix(s, l) == ShrinkSuffix(s, length)
    {
      l := l - 1;
    }
  }

  /** The inner double loop of the second pass. */
  method LongestCommonSuffix(firstPass: seq<Path>, i: nat) returns (longest: nat)
    requires i < |firstPass|
    ensures longest == LongestSuffix(firstPass[i], firstPass, i)
  {
    var s := firstPass[i];
    longest := 0;
    for j := 0 to i
      invariant longest == LongestSuffix(s, firstPass, j)
    {
      var l := 0;
      while l < |s| && l < |firstPass[j]| && s[|s| - l - 1] == firstPass[j][|firstPass[j]| - l - 1]
        invariant l <= |s| && l <= |firstPass[j]|
        invariant AgreeBack(s, firstPass[j], l) == AgreeBack(s, firstPass[j], 0)
      {
        l := l + 1;
      }
      if l > longest {
        longest := l;
      }
    }
  }

  // --------------------------------------------------------------------------------------
  // Words
  // --------------------------------------------------------------------------------------

  /** `s[a..b]` is a maximal run of word bytes. */
  predicate WordAt(s: Path, a: int, b: int) {
    && 0 <= a < b <= |s|
    && (forall k :: a <= k < b ==> IsWord(s[k]))
    && (a > 0 ==> !IsWord(s[a - 1]))
    && (b < |s| ==> !IsWord(s[b]))
  }

  /** `w` is one of the words of `s`. */
  ghost predicate HasWord(s: Path, w: Path) {
    exists a, b :: WordAt(s, a, b) && s[a..b] == w
  }

  ghost predicate WordOf(ss: seq<Path>, w: Path) {
    exists i :: 0 <= i < |ss| && HasWord(ss[i], w)
  }

  /** `w` starts some word of `ss`. */
  ghost predicate Covered(ss: seq<Path>, w: Path) {
    exists v :: WordOf(ss, v) && w <= v
  }

  /** Cutting `s` at `c` splits no word. */
  predicate CleanCut(s: Path, c: nat) {
    c <= |s| && (c == 0 || c == |s| || !IsWord(s[c]) || !IsWord(s[c - 1]))
  }

  lemma WordInHead(s: Path, c: nat, a: nat, b: nat)
    requires b <= c <= |s| && WordAt(s, a, b)
    ensures WordAt(s[..c], a, b) && s[..c][a..b] == s[a..b]
  {
    assert forall k :: 0 <= k < c ==> s[..c][k] == s[k];
  }

  lemma WordInTail(s: Path, c: nat, a: nat, b: nat)
    requires c <= a && WordAt(s, a, b)
    ensures WordAt(s[c..], a - c, b - c) && s[c..][a - c..b - c] == s[a..b]
  {
    var t := s[c..];
    assert forall k :: 0 <= k < |t| ==> t[k] == s[k + c];
    assert t[a - c..b - c] == s[a..b];
  }

  lemma HeadWordInWhole(s: Path, c: nat, a: nat, b: nat)
    requires c <= |s| && WordAt(s[..c], a, b)
    requires b < c || c == |s| || !IsWord(s[c])
    ensures WordAt(s, a, b) && s[a..b] == s[..c][a..b]
  {
    assert forall k :: 0 <= k < c ==> s[..c][k] == s[k];
  }

  lemma TailWordInWhole(s: Path, c: nat, a: nat, b: nat)
    requires CleanCut(s, c) && WordAt(s[c..], a, b)
    ensures WordAt(s, a + c, b + c) && s[a + c..b + c] == s[c..][a..b]
  {
    var t := s[c..];
    assert forall k :: c <= k < |s| ==> s[k] == t[k - c];
    assert IsWord(t[a]);
    assert s[a + c..b + c] == t[a..b];
  }

  /** A clean cut distributes the words of a string over its two parts. */
  lemma SplitWords(s: Path, c: nat, w: Path)
    requires CleanCut(s, c)
    ensures HasWord(s, w) <==> HasWord(s[..c], w) || HasWord(s[c..], w)
  {
    if HasWord(s, w) {
      var a, b :| WordAt(s, a, b) && s[a..b] == w;
      if b <= c {
        WordInHead(s, c, a, b);
      } else {
        assert a >= c;
        WordInTail(s, c, a, b);
      }
    }
    if HasWord(s[..c], w) {
      var a, b :| WordAt(s[..c], a, b) && s[..c][a..b] == w;
      assert IsWord(s[..c][b - 1]);
      HeadWordInWhole(s, c, a, b);
    }
    if HasWord(s[c..], w) {
      var a, b :| WordAt(s[c..], a, b) && s[c..][a..b] == w;
      TailWordInWhole(s, c, a, b);
    }
  }

  /** The end of the word that contains position `b - 1`. */
  function WordEnd(s: Path, b: nat): (e: nat)
    requires b <= |s|
    ensures b <= e <= |s|
    ensures forall k :: b <= k < e ==> IsWord(s[k])
    ensures e < |s| ==> !IsWord(s[e])
    decreases |s| - b
  {
    if b < |s| && IsWord(s[b]) then WordEnd(s, b + 1) else b
  }

  lemma SliceOfPrefix(s: Path, c: nat, a: nat, b: nat)
    requires a <= b <= c <= |s|
    ensures s[..c][a..b] == s[a..b]
  {
  }

  /** Every word of a prefix of `s` starts a word of `s`. */
  lemma PrefixWords(s: Path, c: nat, w: Path) returns (v: Path)
    requires c <= |s| && HasWord(s[..c], w)
    ensures HasWord(s, v) && w <= v
  {
    var a, b :| WordAt(s[..c], a, b) && s[..c][a..b] == w;
    var e := WordEnd(s, b);
    v := s[a..e];
    assert forall k :: 0 <= k < c ==> s[..c][k] == s[k];
    assert WordAt(s, a, e);
    SliceOfPrefix(s, c, a, b);
    assert v == s[a..b] + s[b..e];
  }

  lemma CoveredByMore(ss: seq<Path>, t: Path, w: Path)
    requires Covered(ss, w)
    ensures Covered(ss + [t], w)
  {
    var v :| WordOf(ss, v) && w <= v;
    var i :| 0 <= i < |ss| && HasWord(ss[i], v);
    assert (ss + [t])[i] == ss[i];
    assert WordOf(ss + [t], v);
  }

  lemma WordOfLast(ss: seq<Path>, t: Path, w: Path)
    requires HasWord(t, w)
    ensures WordOf(ss + [t], w) && Covered(ss + [t], w)
  {
    assert (ss + [t])[|ss|] == t;
    assert WordOf(ss + [t], w) && w <= w;
  }

  // --------------------------------------------------------------------------------------
  // The prefix pass
  // --------------------------------------------------------------------------------------

  ghost predicate AllCovered(paths: seq<Path>, n: nat, p: Progress)
    requires n <= |paths|
  {
    && (forall m, w :: 0 <= m < n && HasWord(paths[m], w) ==> Covered(p.out, w))
    && (forall w :: HasWord(p.prev, w) ==> Covered(p.out, w))
  }

  /** A word of the removed head of `f` starts a word of the previous path. */
  lemma HeadIsCovered(prev: Path, f: Path, out: seq<Path>, w: Path)
    requires forall v :: HasWord(prev, v) ==> Covered(out, v)
    requires HasWord(f[..Cut(prev, f)], w)
    ensures Covered(out, w)
  {
    var c := Cut(prev, f);
    assert prev[..c] == f[..c];
    var v := PrefixWords(prev, c, w);
    var u :| WordOf(out, u) && v <= u;
    assert w <= u;
  }

  lemma NewPathIsCovered(p: Progress, f: Path, w: Path)
    requires forall v :: HasWord(p.prev, v) ==> Covered(p.out, v)
    requires HasWord(f, w)
    ensures Skips(p.prev, f) ==> Covered(p.out, w)
    ensures !Skips(p.prev, f) ==> Covered(p.out + [f[Cut(p.prev, f)..]], w)
  {
    var c := Cut(p.prev, f);
    if Skips(p.prev, f) {
      assert f[..c] == f;
      HeadIsCovered(p.prev, f, p.out, w);
    } else {
      SplitWords(f, c, w);
      if HasWord(f[c..], w) {
        WordOfLast(p.out, f[c..], w);
      } else {
        HeadIsCovered(p.prev, f, p.out, w);
        CoveredByMore(p.out, f[c..], w);
      }
    }
  }

  lemma {:induction false} PrefixPassCovers(paths: seq<Path>, n: nat)
    requires n <= |paths|
    ensures AllCovered(paths, n, After(paths, n))
  {
    if n == 0 {
      forall w ensures !HasWord([], w) {
        EmptyHasNoWord(w);
      }
    } else {
      PrefixPassCovers(paths, n - 1);
      var p, f, q := After(paths, n - 1), paths[n - 1], After(paths, n);
      forall w | HasWord(f, w) ensures Covered(q.out, w) {
        NewPathIsCovered(p, f, w);
      }
      forall w | Covered(p.out, w) ensures Covered(q.out, w) {
        if !Skips(p.prev, f) {
          CoveredByMore(p.out, f[Cut(p.prev, f)..], w);
        }
      }
    }
  }

  lemma {:induction false} PrefixPassInventsNothing(paths: seq<Path>, n: nat, i: nat, w: Path)
    requires n <= |paths| && i < |After(paths, n).out| && HasWord(After(paths, n).out[i], w)
    ensures WordOf(paths, w)
  {
    var p, f := After(paths, n - 1), paths[n - 1];
    if i < |p.out| {
      PrefixPassInventsNothing(paths, n - 1, i, w);
    } else {
      SplitWords(f, Cut(p.prev, f), w);
    }
  }

  // --------------------------------------------------------------------------------------
  // The suffix pass
  // --------------------------------------------------------------------------------------

  /** The removed tail of string `i` is the tail of an earlier string. */
  lemma RemovedTail(first: seq<Path>, i: nat) returns (j: nat)
    requires i < |first| && SuffixLen(first, i) > 0
    ensures j < i && SuffixLen(first, i) <= |first[j]|
    ensures var n := SuffixLen(first, i); first[j][|first[j]| - n..] == first[i][|first[i]| - n..]
    ensures CleanCut(first[j], |first[j]| - SuffixLen(first, i))
  {
    var s := first[i];
    var n := SuffixLen(first, i);
    var l := LongestSuffix(s, first, i);
    j := LongestSuffixIs(s, first, i);
    SameTails(s, first[j], l, n);
  }

  /** The longest common suffix is shared with some earlier string. */
  lemma {:induction false} LongestSuffixIs(s: Path, first: seq<Path>, j: nat) returns (k: nat)
    requires j <= |first| && LongestSuffix(s, first, j) > 0
    ensures k < j && LongestSuffix(s, first, j) == AgreeBack(s, first[k], 0)
  {
    if AgreeBack(s, first[j - 1], 0) > LongestSuffix(s, first, j - 1) {
      k := j - 1;
    } else {
      k := LongestSuffixIs(s, first, j - 1);
    }
  }

  lemma {:induction false} AgreeBackIs(p: Path, q: Path, l: nat, d: nat)
    requires l <= |p| && l <= |q| && l <= d < AgreeBack(p, q, l)
    ensures p[|p| - 1 - d] == q[|q| - 1 - d]
    decreases |p| - l
  {
    if l < d {
      AgreeBackIs(p, q, l + 1, d);
    }
  }

  lemma SameTails(s: Path, t: Path, l: nat, n: nat)
    requires l == AgreeBack(s, t, 0) && n == ShrinkSuffix(s, l) && n > 0
    ensures n <= |t| && t[|t| - n..] == s[|s| - n..] && CleanCut(t, |t| - n)
  {
    TailsAgree(s, t, n);
    AgreeBackIs(s, t, 0, n - 1);
  }

  lemma {:induction false} TailsAgree(s: Path, t: Path, n: nat)
    requires n <= AgreeBack(s, t, 0)
    ensures s[|s| - n..] == t[|t| - n..]
  {
    if n > 0 {
      TailsAgree(s, t, n - 1);
      AgreeBackIs(s, t, 0, n - 1);
      assert s[|s| - n..] == [s[|s| - n]] + s[|s| - (n - 1)..];
      assert t[|t| - n..] == [t[|t| - n]] + t[|t| - (n - 1)..];
    }
  }

  lemma TailWordStandsEarlier(first: seq<Path>, i: nat, w: Path) returns (j: nat)
    requires i < |first| && SuffixLen(first, i) > 0
    requires HasWord(first[i][|first[i]| - SuffixLen(first, i)..], w)
    ensures j < i && HasWord(first[j], w)
  {
    j := RemovedTail(first, i);
    SplitWords(first[j], |first[j]| - SuffixLen(first, i), w);
  }

  lemma WordOfStripped(first: seq<Path>, i: nat, w: Path)
    requires i < |first| && HasWord(first[i][..|first[i]| - SuffixLen(first, i)], w)
    ensures WordOf(Stripped(first), w)
  {
    assert HasWord(Stripped(first)[i], w);
  }

  /** The suffix pass keeps every whole word of every string it is given. */
  lemma {:induction false} SuffixPassKeepsWords(first: seq<Path>, i: nat, w: Path)
    requires i < |first| && HasWord(first[i], w)
    ensures WordOf(Stripped(first), w)
  {
    var s, n := first[i], SuffixLen(first, i);
    if n == 0 {
      assert s[..|s|] == s;
      WordOfStripped(first, i, w);
    } else {
      SplitWords(s, |s| - n, w);
      if HasWord(s[..|s| - n], w) {
        WordOfStripped(first, i, w);
      } else {
        var j := TailWordStandsEarlier(first, i, w);
        SuffixPassKeepsWords(first, j, w);
      }
    }
  }

  lemma SuffixPassInventsNothing(first: seq<Path>, w: Path)
    requires WordOf(Stripped(first), w)
    ensures WordOf(first, w)
  {
    var ss := Stripped(first);
    var i :| 0 <= i < |ss| && HasWord(ss[i], w);
    assert HasWord(StrippedAt(first, i), w);
    SplitWords(first[i], |first[i]| - SuffixLen(first, i), w);
  }

  // --------------------------------------------------------------------------------------
  // What trimming removes
  // --------------------------------------------------------------------------------------

  /** A white space character of more than one byte starts at `k`. Its first byte is also the
      Latin-1 code of a letter, which is why trimming it can remove a word. */
  predicate WideSpaceAt(s: Path, k: int) {
    0 <= k && (|| (k + 1 < |s| && IsSpace2(s[k], s[k + 1]))
               || (k + 2 < |s| && IsSpace3(s[k], s[k + 1], s[k + 2])))
  }

  lemma DropDrop(s: Path, n: nat, l: nat)
    requires n + l <= |s|
    ensures s[n..][l..] == s[n + l..]
  {
  }

  lemma TakeTake(s: Path, n: nat, h: nat)
    requires h <= n <= |s|
    ensures s[..n][..h] == s[..h]
  {
  }

  lemma DropTake(s: Path, l: nat, h: nat)
    requires l + h <= |s|
    ensures s[l..][..h] == s[l..l + h]
  {
  }

  /** Trimming keeps `s[Lo(s)..Hi(s)]`. */
  function Lo(s: Path): (l: nat)
    ensures l <= |s| && TrimLeft(s) == s[l..]
    decreases |s|
  {
    var n := SpaceAtStart(s);
    if n == 0 then 0
    else
      var l := Lo(s[n..]);
      DropDrop(s, n, l);
      n + l
  }

  function RightEnd(s: Path): (h: nat)
    ensures h <= |s| && TrimRight(s) == s[..h]
    decreases |s|
  {
    var n := SpaceAtEnd(s);
    if n == 0 then |s|
    else
      var h := RightEnd(s[..|s| - n]);
      TakeTake(s, |s| - n, h);
      h
  }

  function Hi(s: Path): (h: nat)
    ensures Lo(s) <= h <= |s| && TrimSpace(s) == s[Lo(s)..h]
  {
    var l := Lo(s);
    var h := RightEnd(s[l..]);
    DropTake(s, l, h);
    l + h
  }

  predicate Trimmed(s: Path, k: int) {
    0 <= k < Lo(s) || Hi(s) <= k < |s|
  }

  lemma WideSpaceShifts(s: Path, n: nat, k: nat)
    requires n <= |s|
    ensures WideSpaceAt(s[n..], k) <==> WideSpaceAt(s, n + k)
  {
  }

  lemma SpaceBytesAtStart(s: Path, k: nat)
    requires k < SpaceAtStart(s)
    ensures IsWord(s[k]) <==> WideSpaceAt(s, k)
  {
  }

  lemma SpaceBytesAtEnd(s: Path, k: nat)
    requires |s| - SpaceAtEnd(s) <= k < |s|
    ensures IsWord(s[k]) <==> WideSpaceAt(s, k)
  {
  }

  /** The first byte of a wide space is a word byte and the next is not. */
  lemma LeadIsWord(s: Path, k: nat)
    requires WideSpaceAt(s, k)
    ensures k + 1 < |s| && IsWord(s[k]) && !IsWord(s[k + 1])
  {
  }

  lemma {:induction false} LeftBytes(s: Path, k: nat)
    requires k < Lo(s)
    ensures IsWord(s[k]) <==> WideSpaceAt(s, k)
    decreases |s|
  {
    var n := SpaceAtStart(s);
    if k < n {
      SpaceBytesAtStart(s, k);
    } else {
      var t, j := s[n..], k - n;
      assert j < Lo(t) && t[j] == s[k];
      LeftBytes(t, j);
      WideSpaceShifts(s, n, j);
    }
  }

  lemma WideSpaceInPrefix(s: Path, n: nat, k: nat)
    requires n <= |s| && WideSpaceAt(s[..n], k)
    ensures WideSpaceAt(s, k)
  {
  }

  lemma {:induction false} RightBytes(s: Path, k: nat)
    requires RightEnd(s) <= k < |s|
    ensures IsWord(s[k]) <==> WideSpaceAt(s, k)
    decreases |s|
  {
    var n := |s| - SpaceAtEnd(s);
    if k >= n {
      SpaceBytesAtEnd(s, k);
    } else {
      RightBytes(s[..n], k);
      if IsWord(s[k]) {
        WideSpaceInPrefix(s, n, k);
      }
      if WideSpaceAt(s, k) {
        LeadIsWord(s, k);
      }
    }
  }

  /** Among the bytes that trimming removes, the word bytes are the first bytes of wide spaces. */
  lemma TrimmedBytes(s: Path, k: nat)
    requires Trimmed(s, k)
    ensures IsWord(s[k]) <==> WideSpaceAt(s, k)
  {
    if k < Lo(s) {
      LeftBytes(s, k);
    } else {
      RightBytes(s[Lo(s)..], k - Lo(s));
      WideSpaceShifts(s, Lo(s), k - Lo(s));
    }
  }

  lemma SpaceEnds(s: Path)
    ensures SpaceAtStart(s) > 0 ==> !IsWord(s[SpaceAtStart(s) - 1])
  {
  }

  /** What the left trim removes ends in a byte that is not a word byte. */
  lemma {:induction false} LeftEdge(s: Path)
    ensures Lo(s) > 0 ==> !IsWord(s[Lo(s) - 1])
    decreases |s|
  {
    var n := SpaceAtStart(s);
    if n > 0 {
      var t := s[n..];
      LeftEdge(t);
      SpaceEnds(s);
      assert Lo(t) > 0 ==> s[Lo(s) - 1] == t[Lo(t) - 1];
    }
  }

  /** A word that trimming removes or shortens. */
  predicate CutWord(s: Path, a: int, b: int) {
    WordAt(s, a, b) && !(Lo(s) <= a && b <= Hi(s))
  }

  /** The start of the word that contains position `a`. */
  function WordStart(s: Path, a: nat): (e: nat)
    requires a < |s|
    ensures e <= a
    ensures forall k :: e <= k < a ==> IsWord(s[k])
    ensures e > 0 ==> !IsWord(s[e - 1])
  {
    if a > 0 && IsWord(s[a - 1]) then WordStart(s, a - 1) else a
  }

  /** A cut word ends in the first byte of a wide space that trimming removes. */
  lemma CutWordEnds(s: Path, a: nat, b: nat)
    requires CutWord(s, a, b)
    ensures Trimmed(s, b - 1) && WideSpaceAt(s, b - 1)
  {
    if a < Lo(s) {
      TrimmedBytes(s, a);
      LeadIsWord(s, a);
      assert b == a + 1;
    } else {
      TrimmedBytes(s, b - 1);
    }
  }

  /** Every wide space that trimming removes ends a cut word. */
  lemma WideSpaceCuts(s: Path, k: nat) returns (a: nat)
    requires Trimmed(s, k) && WideSpaceAt(s, k)
    ensures CutWord(s, a, k + 1)
  {
    LeadIsWord(s, k);
    a := WordStart(s, k);
    assert WordAt(s, a, k + 1);
  }

  /** Trimming cuts a word of a string exactly if it removes a wide space from it. */
  lemma CutExactly(s: Path)
    ensures (exists a, b :: CutWord(s, a, b)) <==> (exists k :: Trimmed(s, k) && WideSpaceAt(s, k))
  {
    if a, b :| CutWord(s, a, b) {
      CutWordEnds(s, a, b);
    }
    if k :| Trimmed(s, k) && WideSpaceAt(s, k) {
      var a := WideSpaceCuts(s, k);
    }
  }

  // --------------------------------------------------------------------------------------
  // The words of a trimmed string
  // --------------------------------------------------------------------------------------

  function Min(a: int, b: int): int {
    if a < b then a else b
  }

  /** `w` is what `s[l..h]` holds of a word of `s` that starts in it. */
  ghost predicate StartsIn(s: Path, l: int, h: int, w: Path) {
    exists a, b :: WordAt(s, a, b) && l <= a < h && s[a..Min(b, h)] == w
  }

  /** `w` is what trimming leaves of a word of `s` that starts in the untrimmed middle. */
  ghost predicate InMiddle(s: Path, w: Path) {
    StartsIn(s, Lo(s), Hi(s), w)
  }

  lemma SliceOfSlice(s: Path, l: nat, h: nat, a: nat, b: nat)
    requires l <= a <= b <= h <= |s|
    ensures s[l..h][a - l..b - l] == s[a..b]
  {
    var t := s[l..h];
    assert forall k :: 0 <= k < h - l ==> t[k] == s[l + k];
    assert |t[a - l..b - l]| == |s[a..b]|;
    forall k | 0 <= k < b - a ensures t[a - l..b - l][k] == s[a..b][k] {
      assert t[a - l..b - l][k] == t[a - l + k];
    }
  }

  /** A word that starts inside a slice is a word of the slice, up to the end of the slice. */
  lemma WordInSlice(s: Path, l: nat, h: nat, a: nat, b: nat)
    requires l <= a < h <= |s| && WordAt(s, a, b)
    ensures HasWord(s[l..h], s[a..Min(b, h)])
  {
    var t, e := s[l..h], Min(b, h);
    assert forall k :: l <= k < h ==> t[k - l] == s[k];
    assert forall k :: a - l <= k < e - l ==> t[k] == s[k + l];
    assert WordAt(t, a - l, e - l);
    SliceOfSlice(s, l, h, a, e);
  }

  /** A word of a slice that starts at a word boundary is the start of a word. */
  lemma SliceWordInWhole(s: Path, l: nat, h: nat, a: nat, b: nat) returns (e: nat)
    requires l <= h <= |s| && (l > 0 ==> !IsWord(s[l - 1])) && WordAt(s[l..h], a, b)
    ensures WordAt(s, a + l, e) && Min(e, h) == b + l && s[a + l..b + l] == s[l..h][a..b]
  {
    var t := s[l..h];
    e := WordEnd(s, b + l);
    forall k | l <= k < h ensures s[k] == t[k - l] {}
    forall k | a + l <= k < b + l ensures IsWord(s[k]) {
      assert IsWord(t[k - l]);
    }
    SliceOfSlice(s, l, h, a + l, b + l);
  }

  lemma SliceWords(s: Path, l: nat, h: nat, w: Path)
    requires l <= h <= |s| && (l > 0 ==> !IsWord(s[l - 1]))
    ensures HasWord(s[l..h], w) <==> StartsIn(s, l, h, w)
  {
    if HasWord(s[l..h], w) {
      var a, b :| WordAt(s[l..h], a, b) && s[l..h][a..b] == w;
      var e := SliceWordInWhole(s, l, h, a, b);
    }
    if StartsIn(s, l, h, w) {
      var a, b :| WordAt(s, a, b) && l <= a < h && s[a..Min(b, h)] == w;
      WordInSlice(s, l, h, a, b);
    }
  }

  /** The words of a trimmed string, read in the string before trimming. */
  lemma TrimWords(s: Path, w: Path)
    ensures HasWord(TrimSpace(s), w) <==> InMiddle(s, w)
  {
    LeftEdge(s);
    SliceWords(s, Lo(s), Hi(s), w);
  }

  lemma UncutWordIsKept(s: Path, a: nat, b: nat)
    requires WordAt(s, a, b) && !CutWord(s, a, b)
    ensures InMiddle(s, s[a..b])
  {
    assert Min(b, Hi(s)) == b;
  }

  lemma WordOfAppend(ss: seq<Path>, t: Path, w: Path)
    ensures WordOf(ss + [t], w) <==> WordOf(ss, w) || HasWord(t, w)
  {
    if WordOf(ss, w) {
      var i :| 0 <= i < |ss| && HasWord(ss[i], w);
      assert HasWord((ss + [t])[i], w);
    }
    if HasWord(t, w) {
      assert HasWord((ss + [t])[|ss|], w);
    }
    if WordOf(ss + [t], w) {
      var i :| 0 <= i < |ss + [t]| && HasWord((ss + [t])[i], w);
      assert i < |ss| ==> (ss + [t])[i] == ss[i];
    }
  }

  lemma {:induction false} TrimmedWordIsFound(ss: seq<Path>, n: nat, i: nat, w: Path)
    requires i < n <= |ss| && HasWord(TrimSpace(ss[i]), w)
    ensures WordOf(TrimAll(ss, n), w)
    decreases n
  {
    var t := TrimSpace(ss[n - 1]);
    TrimAllStep(ss, n - 1, t);
    if i == n - 1 {
      assert t != [];
      WordOfAppend(TrimAll(ss, n - 1), t, w);
    } else {
      TrimmedWordIsFound(ss, n - 1, i, w);
      if t == [] {
        assert TrimAll(ss, n) == TrimAll(ss, n - 1);
      } else {
        WordOfAppend(TrimAll(ss, n - 1), t, w);
      }
    }
  }

  lemma {:induction false} FoundWordIsTrimmed(ss: seq<Path>, n: nat, w: Path) returns (i: nat)
    requires n <= |ss| && WordOf(TrimAll(ss, n), w)
    ensures i < n && HasWord(TrimSpace(ss[i]), w)
  {
    var t := TrimSpace(ss[n - 1]);
    TrimAllStep(ss, n - 1, t);
    if HasWord(t, w) {
      i := n - 1;
    } else {
      if t == [] {
        assert TrimAll(ss, n) == TrimAll(ss, n - 1);
      } else {
        WordOfAppend(TrimAll(ss, n - 1), t, w);
      }
      i := FoundWordIsTrimmed(ss, n - 1, w);
    }
  }

  /** `w` stands in the untrimmed middle of some string. */
  ghost predicate Stands(ss: seq<Path>, w: Path) {
    exists i :: 0 <= i < |ss| && InMiddle(ss[i], w)
  }

  /** The words of the search strings, read in the strings before trimming. */
  lemma SearchWordsStand(paths: seq<Path>, w: Path)
    ensures WordOf(SearchStrings(paths), w) <==> Stands(Stripped(FirstPass(paths)), w)
  {
    var ss := Stripped(FirstPass(paths));
    if WordOf(SearchStrings(paths), w) {
      var i := FoundWordIsTrimmed(ss, |ss|, w);
      TrimWords(ss[i], w);
    }
    if Stands(ss, w) {
      var i :| 0 <= i < |ss| && InMiddle(ss[i], w);
      TrimWords(ss[i], w);
      TrimmedWordIsFound(ss, |ss|, i, w);
    }
  }

  // --------------------------------------------------------------------------------------
  // The search strings as a whole
  // --------------------------------------------------------------------------------------

  /** Before trimming, for all paths whatsoever: every word of every path starts a word of the
      stripped strings. */
  lemma StrippingCovers(paths: seq<Path>, m: nat, w: Path)
    requires m < |paths| && HasWord(paths[m], w)
    ensures Covered(Stripped(FirstPass(paths)), w)
  {
    PrefixPassCovers(paths, |paths|);
    assert Covered(FirstPass(paths), w);
    var v :| WordOf(FirstPass(paths), v) && w <= v;
    var i :| 0 <= i < |FirstPass(paths)| && HasWord(FirstPass(paths)[i], v);
    SuffixPassKeepsWords(FirstPass(paths), i, v);
  }

  lemma StrippedWordIsPathWord(paths: seq<Path>, w: Path)
    requires WordOf(Stripped(FirstPass(paths)), w)
    ensures WordOf(paths, w)
  {
    SuffixPassInventsNothing(FirstPass(paths), w);
    var i :| 0 <= i < |FirstPass(paths)| && HasWord(FirstPass(paths)[i], w);
    PrefixPassInventsNothing(paths, |paths|, i, w);
  }

  /** A word of some string that trimming cuts. */
  ghost predicate IsCut(ss: seq<Path>, w: Path) {
    exists i, a, b :: 0 <= i < |ss| && CutWord(ss[i], a, b) && ss[i][a..b] == w
  }

  lemma CutOrStands(ss: seq<Path>, w: Path)
    requires WordOf(ss, w)
    ensures IsCut(ss, w) || Stands(ss, w)
  {
    var i :| 0 <= i < |ss| && HasWord(ss[i], w);
    var a, b :| WordAt(ss[i], a, b) && ss[i][a..b] == w;
    if !CutWord(ss[i], a, b) {
      UncutWordIsKept(ss[i], a, b);
    }
  }

  lemma CutIsWord(ss: seq<Path>, w: Path)
    requires IsCut(ss, w)
    ensures WordOf(ss, w)
  {
    var i, a, b :| 0 <= i < |ss| && CutWord(ss[i], a, b) && ss[i][a..b] == w;
    assert HasWord(ss[i], w);
  }

  /** `w` starts a word in the untrimmed middle of some string. */
  ghost predicate Leads(ss: seq<Path>, w: Path) {
    exists v :: Stands(ss, v) && w <= v
  }

  lemma CoveredExactly(paths: seq<Path>, w: Path)
    ensures Covered(SearchStrings(paths), w) <==> Leads(Stripped(FirstPass(paths)), w)
  {
    if v :| WordOf(SearchStrings(paths), v) && w <= v {
      SearchWordsStand(paths, v);
    }
    if v :| Stands(Stripped(FirstPass(paths)), v) && w <= v {
      SearchWordsStand(paths, v);
    }
  }

  /** The search strings cover the paths. */
  ghost predicate Covers(paths: seq<Path>) {
    forall w :: WordOf(paths, w) ==> Covered(SearchStrings(paths), w)
  }

  /** For all paths: every word of every path starts a word of a search string exactly if each word
      that trimming cuts from a stripped string starts a word in the untrimmed middle of one. */
  lemma CoverageExactly(paths: seq<Path>)
    ensures var ss := Stripped(FirstPass(paths));
            Covers(paths) <==> forall v :: IsCut(ss, v) ==> Leads(ss, v)
  {
    var ss := Stripped(FirstPass(paths));
    if Covers(paths) {
      forall v | IsCut(ss, v) ensures Leads(ss, v) {
        CutIsWord(ss, v);
        StrippedWordIsPathWord(paths, v);
        CoveredExactly(paths, v);
      }
    }
    if forall v :: IsCut(ss, v) ==> Leads(ss, v) {
      forall w | WordOf(paths, w) ensures Covered(SearchStrings(paths), w) {
        var m :| 0 <= m < |paths| && HasWord(paths[m], w);
        StrippingCovers(paths, m, w);
        var v :| WordOf(ss, v) && w <= v;
        CutOrStands(ss, v);
        assert Leads(ss, v);
        var u :| Stands(ss, u) && v <= u;
        assert w <= u;
        CoveredExactly(paths, w);
      }
    }
  }

  /** Trimming the stripped strings meets no wide space. */
  ghost predicate PlainEdges(paths: seq<Path>) {
    var ss := Stripped(FirstPass(paths));
    forall i, k :: 0 <= i < |ss| && Trimmed(ss[i], k) ==> !WideSpaceAt(ss[i], k)
  }

  lemma PlainEdgesCutNothing(paths: seq<Path>, w: Path)
    requires PlainEdges(paths)
    ensures !IsCut(Stripped(FirstPass(paths)), w)
  {
    var ss := Stripped(FirstPass(paths));
    if IsCut(ss, w) {
      var i, a, b :| 0 <= i < |ss| && CutWord(ss[i], a, b) && ss[i][a..b] == w;
      CutWordEnds(ss[i], a, b);
    }
  }

  /** The search strings cover the paths if no wide space stands at a trimmed edge. */
  lemma SearchCovers(paths: seq<Path>, m: nat, w: Path)
    requires PlainEdges(paths)
    requires m < |paths| && HasWord(paths[m], w)
    ensures Covered(SearchStrings(paths), w)
  {
    forall v ensures !IsCut(Stripped(FirstPass(paths)), v) {
      PlainEdgesCutNothing(paths, v);
    }
    CoverageExactly(paths);
    assert WordOf(paths, w);
  }

  /** A word that trimming shortens: `w` is what is left of it. */
  ghost predicate Shortened(ss: seq<Path>, w: Path) {
    exists i, a, b :: 0 <= i < |ss| && WordAt(ss[i], a, b) && Lo(ss[i]) <= a < Hi(ss[i]) < b && ss[i][a..Hi(ss[i])] == w
  }

  lemma StandsOrShortened(ss: seq<Path>, w: Path)
    requires Stands(ss, w)
    ensures WordOf(ss, w) || Shortened(ss, w)
  {
    var i :| 0 <= i < |ss| && InMiddle(ss[i], w);
    assert StartsIn(ss[i], Lo(ss[i]), Hi(ss[i]), w);
    var a, b :| WordAt(ss[i], a, b) && Lo(ss[i]) <= a < Hi(ss[i]) && ss[i][a..Min(b, Hi(ss[i]))] == w;
    if b <= Hi(ss[i]) {
      assert HasWord(ss[i], w);
    }
  }

  lemma ShortenedStands(ss: seq<Path>, w: Path)
    requires Shortened(ss, w)
    ensures Stands(ss, w)
  {
    var i, a, b :| 0 <= i < |ss| && WordAt(ss[i], a, b) && Lo(ss[i]) <= a < Hi(ss[i]) < b && ss[i][a..Hi(ss[i])] == w;
    assert Min(b, Hi(ss[i])) == Hi(ss[i]);
    assert InMiddle(ss[i], w);
  }

  /** For all paths: the search strings contain no word that is not a word of some path, exactly if
      that holds of what trimming leaves of the words that it shortens. */
  lemma InventsNothingExactly(paths: seq<Path>)
    ensures (forall w :: WordOf(SearchStrings(paths), w) ==> WordOf(paths, w))
            <==> (forall w :: Shortened(Stripped(FirstPass(paths)), w) ==> WordOf(paths, w))
  {
    var ss := Stripped(FirstPass(paths));
    forall w | Shortened(ss, w) ensures WordOf(SearchStrings(paths), w) {
      ShortenedStands(ss, w);
      SearchWordsStand(paths, w);
    }
    forall w | WordOf(SearchStrings(paths), w) ensures Shortened(ss, w) || WordOf(paths, w) {
      SearchWordsStand(paths, w);
      StandsOrShortened(ss, w);
      if WordOf(ss, w) {
        StrippedWordIsPathWord(paths, w);
      }
    }
  }

  lemma PlainEdgesShortenNothing(paths: seq<Path>, w: Path)
    requires PlainEdges(paths)
    ensures !Shortened(Stripped(FirstPass(paths)), w)
  {
    var ss := Stripped(FirstPass(paths));
    if Shortened(ss, w) {
      var i, a, b :| 0 <= i < |ss| && WordAt(ss[i], a, b) && Lo(ss[i]) <= a < Hi(ss[i]) < b && ss[i][a..Hi(ss[i])] == w;
      CutWordEnds(ss[i], a, b);
    }
  }

  /** So they invent nothing if no wide space stands at a trimmed edge. */
  lemma SearchInventsNothing(paths: seq<Path>, w: Path)
    requires PlainEdges(paths) && WordOf(SearchStrings(paths), w)
    ensures WordOf(paths, w)
  {
    forall v ensures !Shortened(Stripped(FirstPass(paths)), v) {
      PlainEdgesShortenNothing(paths, v);
    }
    InventsNothingExactly(paths);
  }

  lemma SearchWordsAreFirstPassWords(paths: seq<Path>, w: Path)
    requires PlainEdges(paths)
    ensures WordOf(SearchStrings(paths), w) <==> WordOf(FirstPass(paths), w)
  {
    var first, ss := FirstPass(paths), Stripped(FirstPass(paths));
    SearchWordsStand(paths, w);
    if Stands(ss, w) {
      PlainEdgesShortenNothing(paths, w);
      StandsOrShortened(ss, w);
      SuffixPassInventsNothing(first, w);
    }
    if WordOf(first, w) {
      var i :| 0 <= i < |first| && HasWord(first[i], w);
      SuffixPassKeepsWords(first, i, w);
      PlainEdgesCutNothing(paths, w);
      CutOrStands(ss, w);
    }
  }

  /** U+3000 inside a path does no harm. */
  lemma WideSpaceInside()
    ensures WideSpaceAt([0x61, 0xE3, 0x80, 0x80, 0x62], 1)
    ensures PlainEdges([[0x61, 0xE3, 0x80, 0x80, 0x62]])
  {
    var s: Path := [0x61, 0xE3, 0x80, 0x80, 0x62];
    OnePath(s);
    assert SpaceAtStart(s) == 0 && s[0..] == s && SpaceAtEnd(s) == 0;
    assert Lo(s) == 0 && RightEnd(s) == 5 && Hi(s) == 5;
  }

  lemma OnePath(s: Path)
    requires s != []
    ensures Stripped(FirstPass([s])) == [s]
  {
    var paths := [s];
    assert After(paths, 0) == Progress([], []);
    assert Cut([], s) == 0 && !Skips([], s);
    assert s[0..] == s;
    assert After(paths, 1) == Progress([s], s);
    assert LongestSuffix(s, [s], 0) == 0 && SuffixLen([s], 0) == 0;
    assert Stripped([s])[0] == s[..|s|] == s;
  }

  /** A path made of one no-break space: its first byte counts as a word, and trimming drops it. */
  lemma WideSpaceLosesWord()
    ensures HasWord([0xC2, 0xA0], [0xC2])
    ensures SearchStrings([[0xC2, 0xA0]]) == []
    ensures !Covered(SearchStrings([[0xC2, 0xA0]]), [0xC2])
  {
    var s: Path := [0xC2, 0xA0];
    assert WordAt(s, 0, 1) && s[0..1] == [0xC2];
    OnePath(s);
    assert s[2..] == [];
    assert TrimLeft(s) == TrimLeft([]) == [];
    assert TrimRight([]) == [];
    TrimAllStep([s], 0, []);
    assert TrimAll([s], 0) == [];
  }

  // --------------------------------------------------------------------------------------
  // When every word survives unchanged
  // --------------------------------------------------------------------------------------

  function PrevOf(paths: seq<Path>, m: nat): Path
    requires m < |paths|
  {
    After(paths, m).prev
  }

  function CutOf(paths: seq<Path>, m: nat): (c: nat)
    requires m < |paths|
    ensures c <= |paths[m]| && c <= |PrevOf(paths, m)|
  {
    Cut(PrevOf(paths, m), paths[m])
  }

  /** `w` ends the removed head of path `m`, while in the previous path the word goes on. */
  ghost predicate Truncated(paths: seq<Path>, m: nat, w: Path)
    requires m < |paths|
  {
    var prev, c := PrevOf(paths, m), CutOf(paths, m);
    && c < |prev| && IsWord(prev[c])
    && exists a :: WordAt(paths[m][..c], a, c) && paths[m][a..c] == w
  }

  /** The part of path `m` that the prefix pass keeps. */
  function KeptPart(paths: seq<Path>, m: nat): Path
    requires m < |paths|
  {
    paths[m][CutOf(paths, m)..]
  }

  ghost predicate KeptAmong(paths: seq<Path>, n: nat, w: Path)
    requires n <= |paths|
  {
    n > 0 && (KeptAmong(paths, n - 1, w) || HasWord(KeptPart(paths, n - 1), w))
  }

  /** `w` stands in the part that some path keeps. */
  ghost predicate KeptSomewhere(paths: seq<Path>, w: Path) {
    KeptAmong(paths, |paths|, w)
  }

  lemma {:induction false} KeptByOne(paths: seq<Path>, m: nat, n: nat, w: Path)
    requires m < n <= |paths| && HasWord(KeptPart(paths, m), w)
    ensures KeptAmong(paths, n, w)
  {
    if m < n - 1 {
      KeptByOne(paths, m, n - 1, w);
    }
  }

  lemma {:induction false} KeptWords(paths: seq<Path>, n: nat, w: Path)
    requires n <= |paths|
    ensures WordOf(After(paths, n).out, w) <==> KeptAmong(paths, n, w)
  {
    if n > 0 {
      KeptWords(paths, n - 1, w);
      var p, f, c := After(paths, n - 1), paths[n - 1], CutOf(paths, n - 1);
      if Skips(p.prev, f) {
        assert After(paths, n) == p;
        assert f[c..] == [];
        EmptyHasNoWord(w);
      } else {
        assert After(paths, n).out == p.out + [f[c..]];
        WordOfAppend(p.out, f[c..], w);
      }
    }
  }

  lemma EmptyHasNoWord(w: Path)
    ensures !HasWord([], w)
  {
    forall a, b ensures !WordAt([], a, b) {}
  }

  /** A word of the removed head is truncated there, or is a word of the previous path. */
  lemma HeadWord(paths: seq<Path>, m: nat, w: Path)
    requires m < |paths| && HasWord(paths[m][..CutOf(paths, m)], w)
    ensures Truncated(paths, m, w) || HasWord(PrevOf(paths, m), w)
  {
    var prev, c := PrevOf(paths, m), CutOf(paths, m);
    var head := paths[m][..c];
    var a, b :| WordAt(head, a, b) && head[a..b] == w;
    assert head == prev[..c];
    if c < |prev| && IsWord(prev[c]) && b == c {
      assert paths[m][a..c] == w;
    } else {
      HeadWordInWhole(prev, c, a, b);
    }
  }

  /** A word of a path stands in the part that some path keeps, or is truncated at some path. */
  lemma {:induction false} KeptOrTruncated(paths: seq<Path>, n: nat, w: Path)
    requires n <= |paths|
    requires HasWord(After(paths, n).prev, w) || (n < |paths| && HasWord(paths[n], w))
    ensures KeptSomewhere(paths, w) || exists m :: 0 <= m < |paths| && Truncated(paths, m, w)
    decreases n, HasWord(After(paths, n).prev, w)
  {
    if HasWord(After(paths, n).prev, w) {
      KeptOrTruncated(paths, n - 1, w);
    } else {
      var f, c := paths[n], CutOf(paths, n);
      SplitWords(f, c, w);
      if HasWord(f[c..], w) {
        KeptByOne(paths, n, |paths|, w);
      } else {
        HeadWord(paths, n, w);
      }
    }
  }

  lemma NonWordHasNoWord(b: Byte, w: Path)
    requires !IsWord(b)
    ensures !HasWord([b], w)
  {
    forall a, e ensures !WordAt([b], a, e) {
      if 0 <= a < e <= 1 {
        assert a == 0 && !IsWord([b][0]);
      }
    }
  }

  predicate IsAscii(s: Path) {
    forall k :: 0 <= k < |s| ==> s[k] < 0x80
  }

  lemma {:induction false} FirstPassIsAscii(paths: seq<Path>, n: nat)
    requires n <= |paths| && forall i :: 0 <= i < |paths| ==> IsAscii(paths[i])
    ensures forall i :: 0 <= i < |After(paths, n).out| ==> IsAscii(After(paths, n).out[i])
  {
    if n > 0 {
      FirstPassIsAscii(paths, n - 1);
    }
  }

  /** Paths in ASCII have plain edges. */
  lemma AsciiHasPlainEdges(paths: seq<Path>)
    requires forall i :: 0 <= i < |paths| ==> IsAscii(paths[i])
    ensures PlainEdges(paths)
  {
    FirstPassIsAscii(paths, |paths|);
    var first := FirstPass(paths);
    forall i | 0 <= i < |first| ensures IsAscii(Stripped(first)[i]) {
      assert Stripped(first)[i] == StrippedAt(first, i);
    }
  }

  /** The paths `ab` and `a.`: the word `a` only remains as the start of `ab`. */
  lemma ShorterWordIsDropped()
    ensures WordOf([[0x61, 0x62], [0x61, 0x2E]], [0x61])
    ensures !WordOf(SearchStrings([[0x61, 0x62], [0x61, 0x2E]]), [0x61])
  {
    var p: Path, q: Path := [0x61, 0x62], [0x61, 0x2E];
    var paths, w := [p, q], [0x61];
    assert WordAt(q, 0, 1) && q[0..1] == w;
    assert HasWord(paths[1], w);
    assert After(paths, 0) == Progress([], []);
    assert Cut([], p) == 0 && !Skips([], p);
    assert After(paths, 1).prev == p;
    assert Agree(p, q, 0) == Agree(p, q, 1) == 1;
    assert CutOf(paths, 0) == 0 && CutOf(paths, 1) == 1;
    forall k | 0 <= k < 2 ensures !HasWord(KeptPart(paths, k), w) {
      var t := KeptPart(paths, k);
      assert t == if k == 0 then p else [0x2E];
      if k == 0 {
        forall a, b | WordAt(p, a, b) ensures |p[a..b]| == 2 {
          assert IsWord(p[0]) && IsWord(p[1]);
        }
      } else {
        NonWordHasNoWord(0x2E, w);
      }
    }
    assert !KeptAmong(paths, 1, w);
    KeptWords(paths, 2, w);
    AsciiHasPlainEdges(paths);
    SearchWordsAreFirstPassWords(paths, w);
  }

  lemma TruncatedIsPathWord(paths: seq<Path>, m: nat, w: Path)
    requires m < |paths| && Truncated(paths, m, w)
    ensures WordOf(paths, w)
  {
    var f, c := paths[m], CutOf(paths, m);
    var a :| WordAt(f[..c], a, c) && f[a..c] == w;
    assert f[..c][a..c] == w;
    assert HasWord(f[..c], w);
    SplitWords(f, c, w);
  }

  /** Every word of every path is a word of a search string. */
  ghost predicate Survive(paths: seq<Path>) {
    forall w :: WordOf(paths, w) ==> WordOf(SearchStrings(paths), w)
  }

  /** `w` is truncated at some path, or trimming cuts it from a stripped string. */
  ghost predicate AtRisk(paths: seq<Path>, w: Path) {
    (exists m :: 0 <= m < |paths| && Truncated(paths, m, w)) || IsCut(Stripped(FirstPass(paths)), w)
  }

  lemma AtRiskIsPathWord(paths: seq<Path>, w: Path)
    requires AtRisk(paths, w)
    ensures WordOf(paths, w)
  {
    if m :| 0 <= m < |paths| && Truncated(paths, m, w) {
      TruncatedIsPathWord(paths, m, w);
    } else {
      CutIsWord(Stripped(FirstPass(paths)), w);
      StrippedWordIsPathWord(paths, w);
    }
  }

  lemma AtRiskOrStands(paths: seq<Path>, w: Path)
    requires WordOf(paths, w)
    ensures AtRisk(paths, w) || Stands(Stripped(FirstPass(paths)), w)
  {
    var n :| 0 <= n < |paths| && HasWord(paths[n], w);
    KeptOrTruncated(paths, n, w);
    if KeptSomewhere(paths, w) {
      KeptWords(paths, |paths|, w);
      var i :| 0 <= i < |FirstPass(paths)| && HasWord(FirstPass(paths)[i], w);
      SuffixPassKeepsWords(FirstPass(paths), i, w);
      CutOrStands(Stripped(FirstPass(paths)), w);
    }
  }

  /** For all paths: every word survives unchanged exactly if each word that was truncated at some
      path, or that trimming cuts, also stands in the untrimmed middle of a stripped string. */
  lemma ExactSurvival(paths: seq<Path>)
    ensures Survive(paths) <==> forall w :: AtRisk(paths, w) ==> Stands(Stripped(FirstPass(paths)), w)
  {
    if Survive(paths) {
      forall w | AtRisk(paths, w) ensures Stands(Stripped(FirstPass(paths)), w) {
        AtRiskIsPathWord(paths, w);
        SearchWordsStand(paths, w);
      }
    }
    if forall w :: AtRisk(paths, w) ==> Stands(Stripped(FirstPass(paths)), w) {
      forall w | WordOf(paths, w) ensures WordOf(SearchStrings(paths), w) {
        AtRiskOrStands(paths, w);
        SearchWordsStand(paths, w);
      }
    }
  }

  /** Without a wide space at a trimmed edge, that is a condition on the paths: each truncated word
      stands in the part that some path keeps. */
  lemma PlainSurvival(paths: seq<Path>)
    requires PlainEdges(paths)
    ensures Survive(paths)
            <==> forall m, w :: 0 <= m < |paths| && Truncated(paths, m, w) ==> KeptSomewhere(paths, w)
  {
    forall w ensures WordOf(SearchStrings(paths), w) <==> KeptSomewhere(paths, w) {
      SearchWordsAreFirstPassWords(paths, w);
      KeptWords(paths, |paths|, w);
    }
    forall m, w | 0 <= m < |paths| && Truncated(paths, m, w) ensures WordOf(paths, w) {
      TruncatedIsPathWord(paths, m, w);
    }
    forall w | WordOf(paths, w)
      ensures KeptSomewhere(paths, w) || exists m :: 0 <= m < |paths| && Truncated(paths, m, w)
    {
      var n :| 0 <= n < |paths| && HasWord(paths[n], w);
      KeptOrTruncated(paths, n, w);
    }
  }
}
