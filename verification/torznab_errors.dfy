/** Which error the Torznab parser reports, read off the tokens alone. */
module TorznabErrors {
  import opened TorznabTree

  /** The names of the elements that are open after some tokens. */
  function OpenNames(tokens: seq<Token>): seq<string> {
    if tokens == [] then []
    else
      var open, tok := OpenNames(tokens[..|tokens| - 1]), tokens[|tokens| - 1];
      if tok.Start? then open + [tok.name]
      else if tok.End? && open != [] then open[..|open| - 1]
      else open
  }

  /** Some element has been opened. */
  predicate Opened(tokens: seq<Token>) {
    exists k :: 0 <= k < |tokens| && tokens[k].Start?
  }

  /** Token `tok` after the tokens `before` is an error of kind `e`. */
  predicate Breaks(before: seq<Token>, tok: Token, e: Error) {
    match e
    case DuplicateAttribute => tok.Start? && !DistinctAttrs(tok.attrs)
    case MultipleRoots => tok.Start? && DistinctAttrs(tok.attrs) && OpenNames(before) == [] && Opened(before)
    case UnexpectedClosing => tok.End? && OpenNames(before) == []
    case Mismatch => tok.End? && OpenNames(before) != [] && OpenNames(before)[|OpenNames(before)| - 1] != tok.name
    case TextOutsideRoot => tok.Chars? && !Blank(tok.text) && OpenNames(before) == []
    case Unclosed => false
    case NoRoot => false
  }

  predicate BreaksAt(tokens: seq<Token>, k: int, e: Error) {
    0 <= k < |tokens| && Breaks(tokens[..k], tokens[k], e)
  }

  /** The parser's state knows which elements are open and whether one has been. */
  ghost predicate Knows(tokens: seq<Token>, st: State) {
    && |st.stack| == |OpenNames(tokens)|
    && (forall k :: 0 <= k < |st.stack| ==> st.stack[k].name == OpenNames(tokens)[k])
    && (Opened(tokens) <==> st.stack != [] || st.root != [])
  }

  lemma OpenedSnoc(before: seq<Token>, tok: Token)
    ensures Opened(before + [tok]) <==> Opened(before) || tok.Start?
  {
    var after := before + [tok];
    if Opened(before) {
      var k :| 0 <= k < |before| && before[k].Start?;
      assert after[k].Start?;
    }
    assert after[|before|] == tok;
    if k :| 0 <= k < |after| && after[k].Start? {
      assert k < |before| ==> before[k].Start?;
    }
  }

  /** One token: the step fails exactly as `Breaks` says. */
  lemma StepKnows(before: seq<Token>, st: State, tok: Token)
    requires Knows(before, st)
    ensures match Step(st, tok)
            case Err(e) => Breaks(before, tok, e) && forall f :: Breaks(before, tok, f) ==> f == e
            case Ok(st') => Knows(before + [tok], st') && forall f :: !Breaks(before, tok, f)
  {
    assert (before + [tok])[..|before|] == before;
    OpenedSnoc(before, tok);
  }

  /** What a run over the first `n` tokens ends in. */
  lemma {:induction false} RunKnows(tokens: seq<Token>, n: nat)
    requires n <= |tokens|
    ensures match Run(INITIAL, tokens[..n])
            case Err(e) => exists k :: k < n && FirstBreak(tokens, k, e)
            case Ok(st) => Knows(tokens[..n], st) && forall k, f :: k < n ==> !BreaksAt(tokens, k, f)
  {
    if n > 0 {
      var before, tok := tokens[..n - 1], tokens[n - 1];
      RunKnows(tokens, n - 1);
      assert tokens[..n] == before + [tok];
      RunSnoc(INITIAL, before, tok);
      var r := Run(INITIAL, before);
      if r.Ok? {
        RunOne(r.value, tok);
        StepKnows(before, r.value, tok);
        var s := Step(r.value, tok);
        if s.Err? {
          assert FirstBreak(tokens, n - 1, s.error);
        }
      }
    } else {
      assert tokens[..0] == [];
    }
  }

  /** Token `k` is an error of kind `e` and no token before it is an error. */
  ghost predicate FirstBreak(tokens: seq<Token>, k: int, e: Error) {
    BreaksAt(tokens, k, e) && forall j, f :: j < k ==> !BreaksAt(tokens, j, f)
  }

  lemma OneFirstBreak(tokens: seq<Token>, j: int, e: Error, k: int, f: Error)
    requires FirstBreak(tokens, j, e) && FirstBreak(tokens, k, f)
    ensures j == k && e == f
  {
  }

  /** The parser reports the error of the first token that is one; without such a token an open
      element, and without that a missing root. */
  lemma ErrorsExactly(tokens: seq<Token>, e: Error)
    ensures Parse(tokens) == Err(e) <==>
            || (exists k :: FirstBreak(tokens, k, e))
            || ((forall k, f :: !BreaksAt(tokens, k, f))
                && ((e == Unclosed && OpenNames(tokens) != []) || (e == NoRoot && !Opened(tokens))))
  {
    RunKnows(tokens, |tokens|);
    assert tokens[..|tokens|] == tokens;
    var r := Run(INITIAL, tokens);
    if r.Err? {
      var k :| k < |tokens| && FirstBreak(tokens, k, r.error);
      if j :| FirstBreak(tokens, j, e) {
        OneFirstBreak(tokens, j, e, k, r.error);
      }
    } else {
      forall k, f ensures !BreaksAt(tokens, k, f) {}
    }
  }
}
