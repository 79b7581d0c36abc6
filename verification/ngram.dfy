/** The per-word edge n-gram index over file paths: which queries match which path bags. */
module Ngram {

  /** The Unicode tables the tokenizer consults. */
  datatype Unicode = Unicode(alnum: char -> bool, lower: string -> string)

  /** The gram lengths, repaired so that `1 <= min <= max`. */
  datatype Window = Window(min: nat, max: nat) {
    predicate Valid() {
      1 <= min <= max
    }
  }

  function NewWindow(min: nat, max: nat): (w: Window)
    ensures w.Valid()
    ensures 1 <= min <= max ==> w == Window(min, max)
  {
    var min := if min < 1 then 1 else min;
    var max := if max < min then min else max;
    Window(min, max)
  }

  predicate Ascii(w: string) {
    forall k :: 0 <= k < |w| ==> w[k] < '\U{80}'
  }

  // --------------------------------------------------------------------------------------
  // Words
  // --------------------------------------------------------------------------------------

  /** The number of alphanumerics at the front. */
  function RunLength(u: Unicode, text: string): (n: nat)
    ensures n <= |text|
    ensures forall k :: 0 <= k < n ==> u.alnum(text[k])
    ensures n < |text| ==> !u.alnum(text[n])
  {
    if text == [] || !u.alnum(text[0]) then 0 else 1 + RunLength(u, text[1..])
  }

  /** The non-empty pieces of the text between non-alphanumerics. */
  function Words(u: Unicode, text: string): seq<string>
    decreases |text|
  {
    if text == [] then []
    else
      var n := RunLength(u, text);
      if n == 0 then Words(u, text[1..]) else [text[..n]] + Words(u, text[n..])
  }

  /** `text[i..j]` is alphanumeric and cannot be extended. */
  ghost predicate MaximalRun(u: Unicode, text: string, i: int, j: int) {
    && 0 <= i < j <= |text|
    && (forall k :: i <= k < j ==> u.alnum(text[k]))
    && (i == 0 || !u.alnum(text[i - 1]))
    && (j == |text| || !u.alnum(text[j]))
  }

  ghost predicate IsWord(u: Unicode, text: string, w: string) {
    exists i, j :: MaximalRun(u, text, i, j) && w == text[i..j]
  }

  lemma RunShift(u: Unicode, text: string, n: nat, i: int, j: int)
    requires n <= |text| && (n == 0 || !u.alnum(text[n - 1]) || (n < |text| && !u.alnum(text[n]) && i > 0))
    ensures MaximalRun(u, text[n..], i, j) ==> MaximalRun(u, text, n + i, n + j) && text[n..][i..j] == text[n + i..n + j]
  {
  }

  lemma RunUnshift(u: Unicode, text: string, n: nat, i: int, j: int)
    requires n <= i && MaximalRun(u, text, i, j)
    ensures MaximalRun(u, text[n..], i - n, j - n) && text[n..][i - n..j - n] == text[i..j]
  {
  }

  /** The words are exactly the maximal alphanumeric runs. */
  lemma {:induction false} WordsAreRuns(u: Unicode, text: string, w: string)
    ensures w in Words(u, text) <==> IsWord(u, text, w)
    decreases |text|
  {
    if text != [] {
      var n := RunLength(u, text);
      if n == 0 {
        WordsAreRuns(u, text[1..], w);
        if IsWord(u, text[1..], w) {
          var i, j :| MaximalRun(u, text[1..], i, j) && w == text[1..][i..j];
          RunShift(u, text, 1, i, j);
        }
        if IsWord(u, text, w) {
          var i, j :| MaximalRun(u, text, i, j) && w == text[i..j];
          RunUnshift(u, text, 1, i, j);
        }
      } else {
        WordsAreRuns(u, text[n..], w);
        assert MaximalRun(u, text, 0, n) && text[0..n] == text[..n];
        if IsWord(u, text[n..], w) {
          var i, j :| MaximalRun(u, text[n..], i, j) && w == text[n..][i..j];
          assert text[n..][i] == text[n + i];
          RunShift(u, text, n, i, j);
        }
        if IsWord(u, text, w) {
          FirstOrLater(u, text, n, w);
        }
        assert w in Words(u, text) <==> w == text[..n] || w in Words(u, text[n..]);
      }
    }
  }

  lemma FirstOrLater(u: Unicode, text: string, n: nat, w: string)
    requires 0 < n == RunLength(u, text) && IsWord(u, text, w)
    ensures w == text[..n] || IsWord(u, text[n..], w)
  {
    var i, j :| MaximalRun(u, text, i, j) && w == text[i..j];
    if i < n {
      assert forall k :: 0 <= k < n ==> u.alnum(text[k]);
      assert text[0..n] == text[..n];
    } else {
      RunUnshift(u, text, n, i, j);
    }
  }

  // --------------------------------------------------------------------------------------
  // Grams
  // --------------------------------------------------------------------------------------

  predicate At(w: string, i: int, t: string) {
    0 <= i && i + |t| <= |w| && w[i..i + |t|] == t
  }

  predicate Contains(w: string, t: string) {
    exists i :: 0 <= i <= |w| && At(w, i, t)
  }

  /** The grams of one lower-cased word. */
  predicate GramOf(win: Window, w: string, t: string) {
    if |w| < win.min then t == w
    else win.min <= |t| <= win.max && (if Ascii(w) then t <= w else Contains(w, t))
  }

  /** The grams of a text. */
  predicate HasGram(u: Unicode, win: Window, text: string, t: string) {
    exists k :: 0 <= k < |Words(u, text)| && GramOf(win, u.lower(Words(u, text)[k]), t)
  }

  method Grams(u: Unicode, win: Window, text: string) returns (tokens: seq<string>)
    requires win.Valid()
    ensures forall t :: t in tokens <==> HasGram(u, win, text, t)
  {
    tokens := [];
    var words := Words(u, text);
    for k := 0 to |words|
      invariant forall t :: t in tokens <==> exists j :: 0 <= j < k && GramOf(win, u.lower(words[j]), t)
    {
      var grams := WordGrams(win, u.lower(words[k]));
      tokens := tokens + grams;
    }
  }

  method WordGrams(win: Window, w: string) returns (tokens: seq<string>)
    requires win.Valid()
    ensures forall t :: t in tokens <==> GramOf(win, w, t)
  {
    var n := |w|;
    if n < win.min {
      return [w];
    }
    var top := if win.max < n then win.max else n;
    if !Ascii(w) {
      tokens := SlidingGrams(win, w, top);
    } else {
      tokens := [];
      for len := win.min to top + 1
        invariant forall t :: t in tokens <==> win.min <= |t| < len && t <= w
      {
        assert forall t :: |t| == len && t <= w ==> t == w[..len];
        tokens := tokens + [w[..len]];
      }
    }
  }

  method SlidingGrams(win: Window, w: string, top: nat) returns (tokens: seq<string>)
    requires win.Valid() && win.min <= top <= |w|
    ensures forall t :: t in tokens <==> win.min <= |t| <= top && Contains(w, t)
  {
    tokens := [];
    for len := win.min to top + 1
      invariant forall t :: t in tokens <==> win.min <= |t| < len && Contains(w, t)
    {
      var grams := Slices(w, len);
      tokens := tokens + grams;
    }
  }

  method Slices(w: string, len: nat) returns (tokens: seq<string>)
    requires len <= |w|
    ensures forall t :: t in tokens <==> |t| == len && Contains(w, t)
  {
    tokens := [];
    for start := 0 to |w| - len + 1
      invariant forall t :: t in tokens ==> |t| == len && Contains(w, t)
      invariant forall t, i :: |t| == len && 0 <= i < start && At(w, i, t) ==> t in tokens
    {
      var gram := w[start..start + len];
      assert At(w, start, gram);
      tokens := tokens + [gram];
    }
  }

  // --------------------------------------------------------------------------------------
  // The query
  // --------------------------------------------------------------------------------------

  /** Each gram of the query once; a query without grams matches nothing. */
  method BuildPathQuery(tokens: seq<string>) returns (clauses: seq<string>)
    ensures forall t :: t in clauses <==> t in tokens
    ensures forall i, j :: 0 <= i < j < |clauses| ==> clauses[i] != clauses[j]
  {
    var seen: set<string> := {};
    clauses := [];
    for i := 0 to |tokens|
      invariant forall t :: t in seen <==> t in clauses
      invariant forall t :: t in clauses <==> t in tokens[..i]
      invariant forall j, k :: 0 <= j < k < |clauses| ==> clauses[j] != clauses[k]
    {
      assert tokens[..i + 1] == tokens[..i] + [tokens[i]];
      if tokens[i] !in seen {
        seen := seen + {tokens[i]};
        clauses := clauses + [tokens[i]];
      }
    }
    assert tokens[..|tokens|] == tokens;
  }

  /** A document is a bag of paths; all are indexed in one field. */
  ghost predicate Indexed(u: Unicode, win: Window, paths: seq<string>, t: string) {
    exists p :: 0 <= p < |paths| && HasGram(u, win, paths[p], t)
  }

  /** The conjunction of the query's grams, of which there is one at least. */
  ghost predicate Matches(u: Unicode, win: Window, paths: seq<string>, query: string) {
    && (exists t :: HasGram(u, win, query, t))
    && (forall t :: HasGram(u, win, query, t) ==> Indexed(u, win, paths, t))
  }

  method Search(u: Unicode, win: Window, paths: seq<string>, query: string) returns (hit: bool)
    requires win.Valid()
    ensures hit == Matches(u, win, paths, query)
  {
    var terms := [];
    for p := 0 to |paths|
      invariant forall t :: t in terms <==> exists k :: 0 <= k < p && HasGram(u, win, paths[k], t)
    {
      var tokens := Grams(u, win, paths[p]);
      terms := terms + tokens;
    }
    var tokens := Grams(u, win, query);
    var clauses := BuildPathQuery(tokens);
    hit := clauses != [] && forall t :: t in clauses ==> t in terms;
    if clauses != [] {
      assert clauses[0] in tokens;
    }
  }

  // --------------------------------------------------------------------------------------
  // What a query finds
  // --------------------------------------------------------------------------------------

  /** A lower-cased alphanumeric word. */
  ghost predicate OneWord(u: Unicode, query: string) {
    query != [] && u.lower(query) == query && forall k :: 0 <= k < |query| ==> u.alnum(query[k])
  }

  /** Some word of the paths, lower-cased, satisfies `p`. */
  ghost predicate SomeWord(u: Unicode, paths: seq<string>, p: string -> bool) {
    exists k, w :: 0 <= k < |paths| && IsWord(u, paths[k], w) && p(u.lower(w))
  }

  /** The plain scan: a prefix of an ASCII word or anywhere in another word. */
  ghost predicate Scan(u: Unicode, paths: seq<string>, t: string) {
    SomeWord(u, paths, w => if Ascii(w) then t <= w else Contains(w, t))
  }

  lemma {:induction false} RunOfWord(u: Unicode, query: string)
    requires forall k :: 0 <= k < |query| ==> u.alnum(query[k])
    ensures RunLength(u, query) == |query|
  {
  }

  lemma QueryWords(u: Unicode, query: string)
    requires OneWord(u, query)
    ensures Words(u, query) == [query]
  {
    RunOfWord(u, query);
    assert query[..|query|] == query && query[|query|..] == [];
  }

  /** A gram is indexed exactly if some word has it. */
  lemma IndexedExactly(u: Unicode, win: Window, paths: seq<string>, t: string)
    ensures Indexed(u, win, paths, t) <==> SomeWord(u, paths, w => GramOf(win, w, t))
  {
    var p := w => GramOf(win, w, t);
    if Indexed(u, win, paths, t) {
      var k :| 0 <= k < |paths| && HasGram(u, win, paths[k], t);
      var j :| 0 <= j < |Words(u, paths[k])| && GramOf(win, u.lower(Words(u, paths[k])[j]), t);
      WordsAreRuns(u, paths[k], Words(u, paths[k])[j]);
      assert p(u.lower(Words(u, paths[k])[j]));
    }
    if SomeWord(u, paths, p) {
      var k, w :| 0 <= k < |paths| && IsWord(u, paths[k], w) && p(u.lower(w));
      WordsAreRuns(u, paths[k], w);
      var j :| 0 <= j < |Words(u, paths[k])| && Words(u, paths[k])[j] == w;
      assert HasGram(u, win, paths[k], t);
    }
  }

  /** Grams of a length in the window are found by the plain scan. */
  lemma IndexedIsScan(u: Unicode, win: Window, paths: seq<string>, t: string)
    requires win.Valid() && win.min <= |t| <= win.max
    ensures Indexed(u, win, paths, t) <==> Scan(u, paths, t)
  {
    IndexedExactly(u, win, paths, t);
    var p := w => GramOf(win, w, t);
    var q := w => if Ascii(w) then t <= w else Contains(w, t);
    forall w ensures p(w) <==> q(w) {
      SameTest(win, w, t);
    }
    if SomeWord(u, paths, p) {
      var k, w :| 0 <= k < |paths| && IsWord(u, paths[k], w) && p(u.lower(w));
      assert q(u.lower(w));
    }
    if SomeWord(u, paths, q) {
      var k, w :| 0 <= k < |paths| && IsWord(u, paths[k], w) && q(u.lower(w));
      assert p(u.lower(w));
    }
  }

  lemma SameTest(win: Window, w: string, t: string)
    requires win.Valid() && win.min <= |t| <= win.max
    ensures GramOf(win, w, t) <==> if Ascii(w) then t <= w else Contains(w, t)
  {
  }

  /** A prefix, long enough, of an indexed gram is indexed. */
  lemma PrefixIndexed(u: Unicode, win: Window, paths: seq<string>, t: string, s: string)
    requires win.Valid() && win.min <= |s| && s <= t && |t| <= win.max && Indexed(u, win, paths, t)
    ensures Indexed(u, win, paths, s)
  {
    IndexedExactly(u, win, paths, t);
    IndexedExactly(u, win, paths, s);
    var p := w => GramOf(win, w, t);
    var q := w => GramOf(win, w, s);
    var k, w :| 0 <= k < |paths| && IsWord(u, paths[k], w) && p(u.lower(w));
    PrefixGram(win, u.lower(w), t, s);
    assert q(u.lower(w));
  }

  lemma PrefixGram(win: Window, w: string, t: string, s: string)
    requires win.Valid() && win.min <= |s| && s <= t && |t| <= win.max && GramOf(win, w, t)
    ensures GramOf(win, w, s)
  {
    if !Ascii(w) {
      var i :| 0 <= i <= |w| && At(w, i, t);
      assert w[i..i + |s|] == s;
      assert At(w, i, s);
    }
  }

  /** The longest gram of the query that starts at `i`. */
  function Longest(win: Window, query: string, i: nat): string
    requires i <= |query|
  {
    if i + win.max < |query| then query[i..i + win.max] else query[i..]
  }

  /** The starts whose longest gram decides: the first only for an ASCII query. */
  predicate Decides(win: Window, query: string, i: nat) {
    i + win.min <= |query| && (Ascii(query) ==> i == 0)
  }

  lemma LongestIsGram(win: Window, query: string, i: nat)
    requires win.Valid() && Decides(win, query, i)
    ensures GramOf(win, query, Longest(win, query, i)) && win.min <= |Longest(win, query, i)| <= win.max
  {
    assert At(query, i, Longest(win, query, i));
  }

  lemma GramStarts(win: Window, query: string, t: string) returns (i: nat)
    requires win.Valid() && win.min <= |query| && GramOf(win, query, t)
    ensures Decides(win, query, i) && t <= Longest(win, query, i)
  {
    i := 0;
    if !Ascii(query) {
      i :| 0 <= i <= |query| && At(query, i, t);
      assert t == query[i..i + |t|];
    }
  }

  /** Every gram of the word `v` is indexed. */
  ghost predicate AllIndexed(u: Unicode, win: Window, paths: seq<string>, v: string) {
    forall t :: GramOf(win, v, t) ==> Indexed(u, win, paths, t)
  }

  /** From every start that decides, the longest gram of `v` is found by the plain scan. */
  ghost predicate LongestScanned(u: Unicode, win: Window, paths: seq<string>, v: string) {
    forall i :: 0 <= i <= |v| && Decides(win, v, i) ==> Scan(u, paths, Longest(win, v, i))
  }

  lemma LongWordExactly(u: Unicode, win: Window, paths: seq<string>, v: string)
    requires win.Valid() && win.min <= |v|
    ensures AllIndexed(u, win, paths, v) <==> LongestScanned(u, win, paths, v)
  {
    if AllIndexed(u, win, paths, v) {
      forall i | 0 <= i <= |v| && Decides(win, v, i) ensures Scan(u, paths, Longest(win, v, i)) {
        LongestIsGram(win, v, i);
        IndexedIsScan(u, win, paths, Longest(win, v, i));
      }
    }
    if LongestScanned(u, win, paths, v) {
      forall t | GramOf(win, v, t) ensures Indexed(u, win, paths, t) {
        var i := GramStarts(win, v, t);
        LongestIsGram(win, v, i);
        IndexedIsScan(u, win, paths, Longest(win, v, i));
        PrefixIndexed(u, win, paths, Longest(win, v, i), t);
      }
    }
  }

  lemma ShortWordExactly(u: Unicode, win: Window, paths: seq<string>, v: string)
    requires win.Valid() && |v| < win.min
    ensures AllIndexed(u, win, paths, v) <==> SomeWord(u, paths, w => w == v)
  {
    IndexedExactly(u, win, paths, v);
    var p := w => GramOf(win, w, v);
    var q := w => w == v;
    assert AllIndexed(u, win, paths, v) <==> Indexed(u, win, paths, v) by { assert GramOf(win, v, v); }
    if SomeWord(u, paths, p) {
      var k, w :| 0 <= k < |paths| && IsWord(u, paths[k], w) && p(u.lower(w));
      assert q(u.lower(w));
    }
    if SomeWord(u, paths, q) {
      var k, w :| 0 <= k < |paths| && IsWord(u, paths[k], w) && q(u.lower(w));
      assert p(u.lower(w));
    }
  }

  /** What the index finds for one lower-cased word of a query. */
  ghost predicate Found(u: Unicode, win: Window, paths: seq<string>, v: string) {
    if |v| < win.min then SomeWord(u, paths, w => w == v) else LongestScanned(u, win, paths, v)
  }

  lemma FoundExactly(u: Unicode, win: Window, paths: seq<string>, v: string)
    requires win.Valid()
    ensures AllIndexed(u, win, paths, v) <==> Found(u, win, paths, v)
  {
    if |v| < win.min {
      ShortWordExactly(u, win, paths, v);
    } else {
      LongWordExactly(u, win, paths, v);
    }
  }

  lemma SomeGram(win: Window, v: string) returns (t: string)
    requires win.Valid()
    ensures GramOf(win, v, t)
  {
    t := v;
    if win.min <= |v| {
      LongestIsGram(win, v, 0);
      t := Longest(win, v, 0);
    }
  }

  lemma GramsOfWord(u: Unicode, win: Window, query: string, v: string, t: string)
    requires IsWord(u, query, v) && GramOf(win, u.lower(v), t)
    ensures HasGram(u, win, query, t)
  {
    WordsAreRuns(u, query, v);
    var k :| 0 <= k < |Words(u, query)| && Words(u, query)[k] == v;
  }

  lemma WordOfGram(u: Unicode, win: Window, query: string, t: string) returns (v: string)
    requires HasGram(u, win, query, t)
    ensures IsWord(u, query, v) && GramOf(win, u.lower(v), t)
  {
    var k :| 0 <= k < |Words(u, query)| && GramOf(win, u.lower(Words(u, query)[k]), t);
    v := Words(u, query)[k];
    WordsAreRuns(u, query, v);
  }

  /** Any query matches exactly if it has a word and the index finds each of its words, lower-cased. */
  lemma QueryExactly(u: Unicode, win: Window, paths: seq<string>, query: string)
    requires win.Valid()
    ensures Matches(u, win, paths, query)
       <==> (exists v :: IsWord(u, query, v)) && forall v :: IsWord(u, query, v) ==> Found(u, win, paths, u.lower(v))
  {
    if Matches(u, win, paths, query) {
      var t :| HasGram(u, win, query, t);
      var some := WordOfGram(u, win, query, t);
      forall v | IsWord(u, query, v) ensures Found(u, win, paths, u.lower(v)) {
        forall t | GramOf(win, u.lower(v), t) ensures Indexed(u, win, paths, t) {
          GramsOfWord(u, win, query, v, t);
        }
        FoundExactly(u, win, paths, u.lower(v));
      }
    }
    if (exists v :: IsWord(u, query, v)) && forall v :: IsWord(u, query, v) ==> Found(u, win, paths, u.lower(v)) {
      var some :| IsWord(u, query, some);
      var one := SomeGram(win, u.lower(some));
      GramsOfWord(u, win, query, some, one);
      forall t | HasGram(u, win, query, t) ensures Indexed(u, win, paths, t) {
        var v := WordOfGram(u, win, query, t);
        FoundExactly(u, win, paths, u.lower(v));
      }
    }
  }

  /** A lower-case word matches exactly if the index finds it. */
  lemma OneWordExactly(u: Unicode, win: Window, paths: seq<string>, query: string)
    requires win.Valid() && OneWord(u, query)
    ensures Matches(u, win, paths, query) <==> Found(u, win, paths, query)
  {
    QueryWords(u, query);
    forall v ensures IsWord(u, query, v) <==> v == query {
      WordsAreRuns(u, query, v);
    }
    assert IsWord(u, query, query);
    QueryExactly(u, win, paths, query);
    assert Matches(u, win, paths, query) ==> Found(u, win, paths, u.lower(query));
  }

  /** A query at least as long as the smallest gram matches exactly if, from every start that
      decides, its longest gram is found by the plain scan. */
  lemma LongQueryExactly(u: Unicode, win: Window, paths: seq<string>, query: string)
    requires win.Valid() && OneWord(u, query) && win.min <= |query|
    ensures Matches(u, win, paths, query)
       <==> forall i :: 0 <= i <= |query| && Decides(win, query, i) ==> Scan(u, paths, Longest(win, query, i))
  {
    OneWordExactly(u, win, paths, query);
  }

  /** A query within the window matches exactly if the plain scan finds it. */
  lemma WindowQueryExactly(u: Unicode, win: Window, paths: seq<string>, query: string)
    requires win.Valid() && OneWord(u, query) && win.min <= |query| <= win.max
    ensures Matches(u, win, paths, query) <==> Scan(u, paths, query)
  {
    LongQueryExactly(u, win, paths, query);
    assert Longest(win, query, 0) == query && Decides(win, query, 0);
    if Scan(u, paths, query) {
      forall i | 0 <= i <= |query| && Decides(win, query, i) ensures Scan(u, paths, Longest(win, query, i)) {
        SuffixScanned(u, win, paths, query, i);
      }
    }
  }

  /** The plain scan finds a deciding part of whatever it finds. */
  lemma SuffixScanned(u: Unicode, win: Window, paths: seq<string>, query: string, i: nat)
    requires win.Valid() && Decides(win, query, i) && Scan(u, paths, query)
    ensures Scan(u, paths, Longest(win, query, i))
  {
    var t := Longest(win, query, i);
    var p := w => if Ascii(w) then query <= w else Contains(w, query);
    var q := w => if Ascii(w) then t <= w else Contains(w, t);
    var k, w :| 0 <= k < |paths| && IsWord(u, paths[k], w) && p(u.lower(w));
    PartFound(u.lower(w), query, t, i, win);
    assert q(u.lower(w));
  }

  lemma PartFound(w: string, query: string, t: string, i: nat, win: Window)
    requires win.Valid() && Decides(win, query, i) && t == Longest(win, query, i)
    requires if Ascii(w) then query <= w else Contains(w, query)
    ensures if Ascii(w) then t <= w else Contains(w, t)
  {
    if Ascii(w) {
      forall k | 0 <= k < |query| ensures query[k] < '\U{80}' { assert query[k] == w[k]; }
    } else {
      var j :| 0 <= j <= |w| && At(w, j, query);
      assert t == query[i..i + |t|] && query == w[j..j + |query|];
      SliceOfSlice(w, j, |query|, i, |t|);
      assert At(w, j + i, t);
    }
  }

  lemma SliceOfSlice(w: string, j: nat, n: nat, i: nat, m: nat)
    requires j + n <= |w| && i + m <= n
    ensures w[j..j + n][i..i + m] == w[j + i..j + i + m]
  {
    var a, b := w[j..j + n][i..i + m], w[j + i..j + i + m];
    forall k | 0 <= k < m ensures a[k] == b[k] {
      assert a[k] == w[j..j + n][i + k] == w[j + (i + k)];
    }
    assert |a| == |b|;
  }

  /** A query of any length matches what the plain scan finds. */
  lemma ScanImpliesMatch(u: Unicode, win: Window, paths: seq<string>, query: string)
    requires win.Valid() && OneWord(u, query) && win.min <= |query| && Scan(u, paths, query)
    ensures Matches(u, win, paths, query)
  {
    forall i | 0 <= i <= |query| && Decides(win, query, i) ensures Scan(u, paths, Longest(win, query, i)) {
      SuffixScanned(u, win, paths, query, i);
    }
    LongQueryExactly(u, win, paths, query);
  }

  /** A query shorter than the smallest gram matches exactly the words equal to it. */
  lemma ShortQueryExactly(u: Unicode, win: Window, paths: seq<string>, query: string)
    requires win.Valid() && OneWord(u, query) && |query| < win.min
    ensures Matches(u, win, paths, query) <==> SomeWord(u, paths, w => w == query)
  {
    OneWordExactly(u, win, paths, query);
  }

  /** The converse fails for queries longer than the largest gram. */
  lemma LongQueryFalsePositive(u: Unicode)
    requires OneWord(u, "abc") && OneWord(u, "abd")
    ensures Matches(u, Window(1, 2), ["abd"], "abc") && !Scan(u, ["abd"], "abc")
  {
    var win, paths, query := Window(1, 2), ["abd"], "abc";
    assert Longest(win, query, 0) == "ab" && Ascii(query);
    QueryWords(u, "abd");
    assert Words(u, paths[0]) == ["abd"];
    WordsAreRuns(u, paths[0], "abd");
    assert "ab" <= "abd" && Ascii("abd");
    var p := w => if Ascii(w) then "ab" <= w else Contains(w, "ab");
    assert p(u.lower("abd"));
    assert Scan(u, paths, "ab");
    LongQueryExactly(u, win, paths, query);
    forall k, w | 0 <= k < |paths| && IsWord(u, paths[k], w)
      ensures !(if Ascii(u.lower(w)) then query <= u.lower(w) else Contains(u.lower(w), query))
    {
      WordsAreRuns(u, paths[k], w);
      assert query[2] != "abd"[2];
    }
  }
}
