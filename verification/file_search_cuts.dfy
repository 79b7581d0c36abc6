/** What the two passes and the trim cut off: always the most that they may, and nothing else. */
module FileSearchCuts {
  import opened FileSearch

  // --------------------------------------------------------------------------------------
  // The shared prefix
  // --------------------------------------------------------------------------------------

  /** `f` can be cut at `c`: what comes before is shared with `prev`, and no word is split. */
  predicate SharedHead(prev: Path, f: Path, c: int) {
    0 <= c < |f| && c <= |prev| && prev[..c] == f[..c] && !IsWord(f[c])
  }

  lemma {:induction false} AgreeReaches(p: Path, q: Path, i: nat, d: nat)
    requires i <= d <= |p| && d <= |q| && forall k :: i <= k < d ==> p[k] == q[k]
    ensures d <= Agree(p, q, i)
    decreases d - i
  {
    if i < d {
      AgreeReaches(p, q, i + 1, d);
    }
  }

  lemma {:induction false} BackOffStops(s: Path, i: nat, d: nat)
    requires d <= i < |s| && !IsWord(s[d])
    ensures d <= BackOff(s, i)
  {
    if d < i && IsWord(s[i]) {
      BackOffStops(s, i - 1, d);
    }
  }

  /** A path is dropped exactly if it is a prefix of the previous one; otherwise it is cut at the last
      place where it can be. */
  lemma CutIsLatest(prev: Path, f: Path)
    ensures Skips(prev, f) <==> f <= prev
    ensures !Skips(prev, f) ==> Cut(prev, f) == 0 || SharedHead(prev, f, Cut(prev, f))
    ensures !Skips(prev, f) ==> forall c :: SharedHead(prev, f, c) ==> c <= Cut(prev, f)
  {
    var i := Agree(prev, f, 0);
    if f <= prev {
      AgreeReaches(prev, f, 0, |f|);
    }
    if i == |f| {
      assert prev[..|f|] == f;
    } else {
      assert prev[..Cut(prev, f)] == f[..Cut(prev, f)];
      forall c | SharedHead(prev, f, c) ensures c <= Cut(prev, f) {
        forall k | 0 <= k < c ensures prev[k] == f[k] { assert prev[..c][k] == f[..c][k]; }
        AgreeReaches(prev, f, 0, c);
        BackOffStops(f, i, c);
      }
    }
  }

  // --------------------------------------------------------------------------------------
  // The shared suffix
  // --------------------------------------------------------------------------------------

  /** The last `n` bytes of string `i` are also the last of string `j`, and start no word's middle. */
  predicate SharedTail(first: seq<Path>, i: nat, j: nat, n: int)
    requires i < |first| && j < |first|
  {
    && 0 < n <= |first[i]| && n <= |first[j]|
    && first[i][|first[i]| - n..] == first[j][|first[j]| - n..]
    && !IsWord(first[i][|first[i]| - n])
  }

  /** The bytes before the last `k` are the same. */
  predicate SameFromEnd(p: Path, q: Path, k: nat) {
    k < |p| && k < |q| && p[|p| - k - 1] == q[|q| - k - 1]
  }

  lemma {:induction false} AgreeBackReaches(p: Path, q: Path, l: nat, n: nat)
    requires l <= n <= |p| && n <= |q| && forall k :: l <= k < n ==> SameFromEnd(p, q, k)
    ensures n <= AgreeBack(p, q, l)
    decreases n - l
  {
    if l < n {
      assert SameFromEnd(p, q, l);
      AgreeBackReaches(p, q, l + 1, n);
    }
  }

  lemma {:induction false} LongestReaches(s: Path, first: seq<Path>, j: nat, m: nat)
    requires j < m <= |first|
    ensures AgreeBack(s, first[j], 0) <= LongestSuffix(s, first, m)
    decreases m
  {
    if j < m - 1 {
      LongestReaches(s, first, j, m - 1);
    }
  }

  lemma {:induction false} ShrinkStops(s: Path, l: nat, n: nat)
    requires 0 < n <= l <= |s| && !IsWord(s[|s| - n])
    ensures n <= ShrinkSuffix(s, l)
  {
    if n < l && IsWord(s[|s| - l]) {
      ShrinkStops(s, l - 1, n);
    }
  }

  /** The suffix pass cuts off the longest suffix that it can: whatever is shared with an earlier
      string and splits no word. */
  lemma SuffixIsLongest(first: seq<Path>, i: nat, j: nat, n: nat)
    requires j < i < |first| && SharedTail(first, i, j, n)
    ensures n <= SuffixLen(first, i)
    ensures |Stripped(first)[i]| <= |first[i]| - n
  {
    var s, t := first[i], first[j];
    forall k | 0 <= k < n ensures SameFromEnd(s, t, k) {
      assert s[|s| - n..][n - k - 1] == t[|t| - n..][n - k - 1];
    }
    AgreeBackReaches(s, t, 0, n);
    LongestReaches(s, first, j, i);
    ShrinkStops(s, LongestSuffix(s, first, i), n);
  }

  /** And it cuts off nothing else. */
  lemma SuffixIsShared(first: seq<Path>, i: nat) returns (j: nat)
    requires i < |first| && SuffixLen(first, i) > 0
    ensures j < i && SharedTail(first, i, j, SuffixLen(first, i))
    ensures Stripped(first)[i] == first[i][..|first[i]| - SuffixLen(first, i)]
  {
    j := RemovedTail(first, i);
  }

  // --------------------------------------------------------------------------------------
  // Which paths are kept
  // --------------------------------------------------------------------------------------

  predicate Ascending(kept: seq<nat>, n: nat) {
    && (forall k :: 0 <= k < |kept| ==> kept[k] < n)
    && (forall j, k :: 0 <= j < k < |kept| ==> kept[j] < kept[k])
  }

  /** The path kept before position `k` of the kept ones. */
  function PathBefore(paths: seq<Path>, kept: seq<nat>, k: nat): Path
    requires k <= |kept| && Ascending(kept, |paths|)
  {
    if k == 0 then [] else paths[kept[k - 1]]
  }

  /** `t` is the path at position `k` of the kept ones, cut against the one kept before it. */
  predicate IsCutPath(paths: seq<Path>, kept: seq<nat>, k: nat, t: Path)
    requires k < |kept| && Ascending(kept, |paths|)
  {
    var prev, f := PathBefore(paths, kept, k), paths[kept[k]];
    !(f <= prev) && t == f[Cut(prev, f)..]
  }

  /** `m` lies between the kept positions `k - 1` and `k`. */
  predicate Between(kept: seq<nat>, k: nat, m: nat) {
    k <= |kept| && (k == 0 || kept[k - 1] < m) && (k == |kept| || m < kept[k])
  }

  /** Of the first `n` paths those at `kept` stay, each cut against the one before it, and every other
      path is a prefix of the last one kept before it. */
  ghost predicate IsFirstPass(paths: seq<Path>, n: nat, kept: seq<nat>, out: seq<Path>)
    requires n <= |paths|
  {
    Ascending(kept, n) && AllCut(paths, kept, out) && OthersArePrefixes(paths, n, kept)
  }

  ghost predicate AllCut(paths: seq<Path>, kept: seq<nat>, out: seq<Path>)
    requires Ascending(kept, |paths|)
  {
    |out| == |kept| && forall k :: 0 <= k < |kept| ==> IsCutPath(paths, kept, k, out[k])
  }

  ghost predicate OthersArePrefixes(paths: seq<Path>, n: nat, kept: seq<nat>)
    requires n <= |paths| && Ascending(kept, |paths|)
  {
    forall m, k :: 0 <= m < n && Between(kept, k, m) ==> paths[m] <= PathBefore(paths, kept, k)
  }

  lemma {:induction false} FirstPassIs(paths: seq<Path>, n: nat) returns (kept: seq<nat>)
    requires n <= |paths|
    ensures IsFirstPass(paths, n, kept, After(paths, n).out)
    ensures After(paths, n).prev == PathBefore(paths, kept, |kept|)
  {
    if n == 0 {
      kept := [];
    } else {
      kept := FirstPassIs(paths, n - 1);
      var p, f := After(paths, n - 1), paths[n - 1];
      CutIsLatest(p.prev, f);
      if Skips(p.prev, f) {
        SkippedPath(paths, n, kept, p.out);
      } else {
        KeptPath(paths, n, kept, p.out, f[Cut(p.prev, f)..]);
        kept := kept + [n - 1];
      }
    }
  }

  lemma SkippedPath(paths: seq<Path>, n: nat, kept: seq<nat>, out: seq<Path>)
    requires 0 < n <= |paths| && IsFirstPass(paths, n - 1, kept, out)
    requires paths[n - 1] <= PathBefore(paths, kept, |kept|)
    ensures IsFirstPass(paths, n, kept, out)
  {
    forall m, k | 0 <= m < n && Between(kept, k, m) ensures paths[m] <= PathBefore(paths, kept, k) {
      if m == n - 1 {
        OnlyAtEnd(kept, k, m);
      }
    }
  }

  /** A position after all kept ones lies after the last. */
  lemma OnlyAtEnd(kept: seq<nat>, k: nat, m: nat)
    requires Ascending(kept, m) && Between(kept, k, m)
    ensures k == |kept|
  {
  }

  lemma KeptPath(paths: seq<Path>, n: nat, kept: seq<nat>, out: seq<Path>, t: Path)
    requires 0 < n <= |paths| && IsFirstPass(paths, n - 1, kept, out)
    requires var prev, f := PathBefore(paths, kept, |kept|), paths[n - 1]; !(f <= prev) && t == f[Cut(prev, f)..]
    ensures IsFirstPass(paths, n, kept + [n - 1], out + [t])
    ensures PathBefore(paths, kept + [n - 1], |kept| + 1) == paths[n - 1]
  {
    AscendingSnoc(kept, n - 1);
    AllCutSnoc(paths, n - 1, kept, out, t);
    PrefixesSnoc(paths, n - 1, kept);
  }

  lemma AllCutSnoc(paths: seq<Path>, n: nat, kept: seq<nat>, out: seq<Path>, t: Path)
    requires n < |paths| && Ascending(kept, n) && Ascending(kept + [n], n + 1) && AllCut(paths, kept, out)
    requires var prev, f := PathBefore(paths, kept, |kept|), paths[n]; !(f <= prev) && t == f[Cut(prev, f)..]
    ensures AllCut(paths, kept + [n], out + [t])
  {
    forall k | 0 <= k < |kept| + 1 ensures IsCutPath(paths, kept + [n], k, (out + [t])[k]) {
      CutPathSnoc(paths, n, kept, out, t, k);
    }
  }

  lemma PrefixesSnoc(paths: seq<Path>, n: nat, kept: seq<nat>)
    requires n < |paths| && Ascending(kept, n) && Ascending(kept + [n], n + 1) && OthersArePrefixes(paths, n, kept)
    ensures OthersArePrefixes(paths, n + 1, kept + [n])
  {
    forall m, k | 0 <= m < n + 1 && Between(kept + [n], k, m) ensures paths[m] <= PathBefore(paths, kept + [n], k) {
      PrefixSnoc(paths, n, kept, m, k);
    }
  }

  lemma PrefixSnoc(paths: seq<Path>, n: nat, kept: seq<nat>, m: nat, k: nat)
    requires n < |paths| && Ascending(kept, n) && Ascending(kept + [n], n + 1) && m <= n && Between(kept + [n], k, m)
    requires OthersArePrefixes(paths, n, kept)
    ensures paths[m] <= PathBefore(paths, kept + [n], k)
  {
    BetweenSnoc(kept, n, k, m);
    BeforeSnoc(paths, kept, n, k);
  }

  lemma CutPathSnoc(paths: seq<Path>, n: nat, kept: seq<nat>, out: seq<Path>, t: Path, k: nat)
    requires n < |paths| && Ascending(kept, n) && Ascending(kept + [n], n + 1) && k <= |kept|
    requires AllCut(paths, kept, out)
    requires var prev, f := PathBefore(paths, kept, |kept|), paths[n]; !(f <= prev) && t == f[Cut(prev, f)..]
    ensures IsCutPath(paths, kept + [n], k, (out + [t])[k])
  {
    BeforeSnoc(paths, kept, n, k);
    if k < |kept| {
      assert IsCutPath(paths, kept, k, out[k]);
      assert (kept + [n])[k] == kept[k] && (out + [t])[k] == out[k];
    }
  }

  lemma AscendingSnoc(kept: seq<nat>, n: nat)
    requires Ascending(kept, n)
    ensures Ascending(kept + [n], n + 1)
  {
  }

  lemma BeforeSnoc(paths: seq<Path>, kept: seq<nat>, n: nat, k: nat)
    requires n < |paths| && Ascending(kept, n) && Ascending(kept + [n], n + 1) && k <= |kept|
    ensures PathBefore(paths, kept + [n], k) == PathBefore(paths, kept, k)
  {
    if k > 0 {
      assert (kept + [n])[k - 1] == kept[k - 1];
    }
  }

  lemma BetweenSnoc(kept: seq<nat>, n: nat, k: nat, m: nat)
    requires Ascending(kept, n) && Between(kept + [n], k, m) && m <= n
    ensures k <= |kept| && m < n && Between(kept, k, m)
  {
    var kept' := kept + [n];
    assert k > 0 ==> kept'[k - 1] == if k <= |kept| then kept[k - 1] else n;
    assert k < |kept'| ==> kept'[k] == if k < |kept| then kept[k] else n;
  }

  // --------------------------------------------------------------------------------------
  // White space
  // --------------------------------------------------------------------------------------

  /** White space characters one after another. */
  predicate White(s: Path)
    decreases |s|
  {
    s == [] || (SpaceAtStart(s) > 0 && White(s[SpaceAtStart(s)..]))
  }

  lemma {:induction false} WhiteSnoc(a: Path, c: Path)
    requires White(a) && 0 < SpaceAtStart(c) == |c|
    ensures White(a + c)
    decreases |a|
  {
    if a == [] {
      assert a + c == c && c[|c|..] == [];
    } else {
      var n := SpaceAtStart(a);
      assert SpaceAtStart(a + c) == n;
      assert (a + c)[n..] == a[n..] + c;
      WhiteSnoc(a[n..], c);
    }
  }

  lemma {:induction false} WhiteConcat(c: Path, b: Path)
    requires 0 < SpaceAtStart(c) == |c| && White(b)
    ensures White(c + b)
  {
    assert SpaceAtStart(c + b) == |c| && (c + b)[|c|..] == b;
  }

  lemma LastSpace(s: Path)
    requires SpaceAtEnd(s) > 0
    ensures SpaceAtStart(s[|s| - SpaceAtEnd(s)..]) == SpaceAtEnd(s)
  {
  }

  lemma FirstSpace(s: Path)
    ensures SpaceAtStart(s[..SpaceAtStart(s)]) == SpaceAtStart(s)
  {
  }

  lemma Rejoin(a: Path, b: Path, s: Path, n: nat)
    requires n <= |s| && s[n..] == a + b
    ensures s == (s[..n] + a) + b
  {
    assert s == s[..n] + s[n..];
  }

  lemma RejoinBack(a: Path, b: Path, s: Path, m: nat)
    requires m <= |s| && s[..m] == a + b
    ensures s == a + (b + s[m..])
  {
    assert s == s[..m] + s[m..];
  }

  lemma {:induction false} LeftIsWhite(s: Path) returns (a: Path)
    ensures s == a + TrimLeft(s) && White(a) && SpaceAtStart(TrimLeft(s)) == 0
    decreases |s|
  {
    var n := SpaceAtStart(s);
    if n == 0 {
      a := [];
    } else {
      var b := LeftIsWhite(s[n..]);
      FirstSpace(s);
      WhiteConcat(s[..n], b);
      Rejoin(b, TrimLeft(s), s, n);
      a := s[..n] + b;
    }
  }

  lemma {:induction false} RightIsWhite(s: Path) returns (b: Path)
    ensures s == TrimRight(s) + b && White(b) && SpaceAtEnd(TrimRight(s)) == 0
    decreases |s|
  {
    var n := SpaceAtEnd(s);
    if n == 0 {
      b := [];
    } else {
      var m := |s| - n;
      var a := RightIsWhite(s[..m]);
      LastSpace(s);
      WhiteSnoc(a, s[m..]);
      RejoinBack(TrimRight(s), a, s, m);
      b := a + s[m..];
    }
  }

  lemma SpaceAtStartOfPrefix(s: Path, h: nat)
    requires h <= |s| && SpaceAtStart(s) == 0
    ensures SpaceAtStart(s[..h]) == 0
  {
  }

  lemma {:induction false} RightKeepsStart(s: Path)
    requires SpaceAtStart(s) == 0
    ensures SpaceAtStart(TrimRight(s)) == 0
    decreases |s|
  {
    var n := SpaceAtEnd(s);
    if n > 0 {
      SpaceAtStartOfPrefix(s, |s| - n);
      RightKeepsStart(s[..|s| - n]);
    }
  }

  /** Trimming removes white space from both ends and leaves none there. */
  lemma TrimIsTight(s: Path) returns (a: Path, b: Path)
    ensures s == a + (TrimSpace(s) + b) && White(a) && White(b)
    ensures SpaceAtStart(TrimSpace(s)) == 0 && SpaceAtEnd(TrimSpace(s)) == 0
  {
    a := LeftIsWhite(s);
    b := RightIsWhite(TrimLeft(s));
    RightKeepsStart(TrimLeft(s));
  }

  /** The search strings are the trimmed strings at `kept`, in order; the others are empty. */
  ghost predicate IsCollected(ss: seq<Path>, n: nat, kept: seq<nat>, out: seq<Path>)
    requires n <= |ss|
  {
    && Ascending(kept, n) && |out| == |kept|
    && (forall k :: 0 <= k < |kept| ==> out[k] == TrimSpace(ss[kept[k]]) && out[k] != [])
    && (forall i :: 0 <= i < n && i !in kept ==> TrimSpace(ss[i]) == [])
  }

  lemma CollectedSnoc(ss: seq<Path>, n: nat, kept: seq<nat>, out: seq<Path>, t: Path)
    requires n < |ss| && IsCollected(ss, n, kept, out) && t == TrimSpace(ss[n])
    ensures t == [] ==> IsCollected(ss, n + 1, kept, out)
    ensures t != [] ==> IsCollected(ss, n + 1, kept + [n], out + [t])
  {
    AscendingSnoc(kept, n);
    if t != [] {
      var kept', out' := kept + [n], out + [t];
      forall k | 0 <= k < |kept'| ensures out'[k] == TrimSpace(ss[kept'[k]]) && out'[k] != [] {
        assert k < |kept| ==> kept'[k] == kept[k] && out'[k] == out[k];
      }
      forall i | 0 <= i < n + 1 && i !in kept' ensures TrimSpace(ss[i]) == [] {
        assert kept'[|kept|] == n;
        assert i !in kept;
      }
    }
  }

  lemma {:induction false} CollectedAre(ss: seq<Path>, n: nat) returns (kept: seq<nat>)
    requires n <= |ss|
    ensures IsCollected(ss, n, kept, TrimAll(ss, n))
  {
    if n == 0 {
      kept := [];
    } else {
      kept := CollectedAre(ss, n - 1);
      var t := TrimSpace(ss[n - 1]);
      TrimAllStep(ss, n - 1, t);
      CollectedSnoc(ss, n - 1, kept, TrimAll(ss, n - 1), t);
      if t == [] {
        assert TrimAll(ss, n) == TrimAll(ss, n - 1);
      } else {
        kept := kept + [n - 1];
      }
    }
  }
}
