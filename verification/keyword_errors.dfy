/** What the two errors of the keyword parser mean for the texts that extend the rejected one. */
module KeywordErrors {
  import opened Keywords

  predicate FailsWith<T(!new)>(r: Outcome<T>, e: Error) {
    r.Failed? && r.error == e
  }

  /** `ext` does not begin with a modifier. */
  predicate Unmodified(ext: seq<char>) {
    !At(ext, '?') && !At(ext, '+')
  }

  // --------------------------------------------------------------------------------------
  // What more text does not change
  // --------------------------------------------------------------------------------------

  lemma ClassStays(t: CharTable, s: seq<char>, ext: seq<char>)
    requires s != []
    ensures var r, r' := ParseClass(t, s), ParseClass(t, s + ext);
            && (r.Parsed? ==> r' == Parsed(r.value, r.rest + ext))
            && (FailsWith(r, UnexpectedChar) ==> FailsWith(r', UnexpectedChar))
  {
    assert (s + ext)[0] == s[0] && (s + ext)[1..] == s[1..] + ext;
    if |s| > 1 {
      assert (s + ext)[1] == s[1] && (s + ext)[2..] == s[2..] + ext;
    }
  }

  lemma AtomStays(t: CharTable, s: seq<char>, ext: seq<char>)
    requires s != []
    ensures var r, r' := ParseAtom(t, s), ParseAtom(t, s + ext);
            && (r.Parsed? && (r.rest != [] || Unmodified(ext)) ==> r' == Parsed(r.value, r.rest + ext))
            && (FailsWith(r, UnexpectedChar) ==> FailsWith(r', UnexpectedChar))
  {
    assert (s + ext)[0] == s[0] && (s + ext)[1..] == s[1..] + ext;
    ClassStays(t, s, ext);
    var c := ParseClass(t, s);
    if c.Parsed? && c.rest != [] {
      assert (c.rest + ext)[0] == c.rest[0] && (c.rest + ext)[1..] == c.rest[1..] + ext;
    } else if c.Parsed? {
      assert c.rest + ext == ext;
    }
  }

  /** A closed group stays closed. */
  lemma {:induction false} GroupStays(
    t: CharTable, s: seq<char>, ext: seq<char>, alts: Keyword, tokens: seq<Token>
  )
    requires ParseGroup(t, s, true, alts, tokens).Parsed?
    ensures var r := ParseGroup(t, s, true, alts, tokens);
            ParseGroup(t, s + ext, true, alts, tokens) == Parsed(r.value, r.rest + ext)
    decreases |s|
  {
    assert s != [];
    assert (s + ext)[0] == s[0] && (s + ext)[1..] == s[1..] + ext;
    if s[0] == ')' {
    } else if s[0] == '|' {
      GroupStays(t, s[1..], ext, alts + [Alternative(tokens)], []);
    } else {
      var a := ParseAtom(t, s);
      GroupStays(t, a.rest, ext, alts, tokens + [Plain(a.value)]);
      assert a.rest != [];
      AtomStays(t, s, ext);
    }
  }

  lemma NestedStays(t: CharTable, s: seq<char>, ext: seq<char>)
    requires ParseNested(t, s).Parsed? && (ParseNested(t, s).rest != [] || Unmodified(ext))
    ensures var r := ParseNested(t, s); ParseNested(t, s + ext) == Parsed(r.value, r.rest + ext)
  {
    var inner := ParseGroup(t, s, true, [], []);
    GroupStays(t, s, ext, [], []);
    if inner.rest != [] {
      assert (inner.rest + ext)[0] == inner.rest[0] && (inner.rest + ext)[1..] == inner.rest[1..] + ext;
    } else {
      assert inner.rest + ext == ext;
    }
  }

  /** A character that is out of place stays out of place, whatever follows. */
  lemma {:induction false} OutOfPlace(
    t: CharTable, s: seq<char>, ext: seq<char>, parens: bool, alts: Keyword, tokens: seq<Token>
  )
    requires FailsWith(ParseGroup(t, s, parens, alts, tokens), UnexpectedChar)
    ensures FailsWith(ParseGroup(t, s + ext, parens, alts, tokens), UnexpectedChar)
    decreases |s|
  {
    assert s != [];
    assert (s + ext)[0] == s[0] && (s + ext)[1..] == s[1..] + ext;
    if s[0] == '(' {
      if !parens {
        NestedOutOfPlace(t, s, ext, alts, tokens);
      }
    } else if s[0] == ')' && parens {
    } else if s[0] == '|' {
      if tokens != [] {
        OutOfPlace(t, s[1..], ext, parens, alts + [Alternative(tokens)], []);
      }
    } else {
      AtomStays(t, s, ext);
      var a := ParseAtom(t, s);
      if a.Parsed? {
        OutOfPlace(t, a.rest, ext, parens, alts, tokens + [Plain(a.value)]);
        assert a.rest != [];
      }
    }
  }

  lemma {:induction false} NestedOutOfPlace(
    t: CharTable, s: seq<char>, ext: seq<char>, alts: Keyword, tokens: seq<Token>
  )
    requires At(s, '(') && FailsWith(ParseGroup(t, s, false, alts, tokens), UnexpectedChar)
    ensures FailsWith(ParseGroup(t, s + ext, false, alts, tokens), UnexpectedChar)
    decreases |s|, 0
  {
    assert (s + ext)[0] == s[0] && (s + ext)[1..] == s[1..] + ext;
    var g := ParseNested(t, s[1..]);
    if g.Parsed? {
      OutOfPlace(t, g.rest, ext, false, alts, tokens + [g.value]);
      assert g.rest != [];
      NestedStays(t, s[1..], ext);
    } else {
      OutOfPlace(t, s[1..], ext, true, [], []);
    }
  }

  // --------------------------------------------------------------------------------------
  // What more text can mend
  // --------------------------------------------------------------------------------------

  /** `ext` completes the text. */
  predicate Completes(t: CharTable, s: seq<char>, ext: seq<char>, parens: bool, alts: Keyword, tokens: seq<Token>) {
    var r := ParseGroup(t, s + ext, parens, alts, tokens);
    Unmodified(ext) && ext != [] && r.Parsed? && r.rest == []
  }

  /** Every longer text is rejected in the same way. */
  ghost predicate Hopeless(t: CharTable, s: seq<char>, parens: bool, alts: Keyword, tokens: seq<Token>) {
    forall x :: FailsWith(ParseGroup(t, s + x, parens, alts, tokens), UnexpectedEOF)
  }

  /** A digit class, and the end of a group inside one. */
  function Ending(parens: bool): seq<char> {
    if parens then "#)" else "#"
  }

  lemma EndingCompletes(t: CharTable, parens: bool, alts: Keyword, tokens: seq<Token>)
    requires Sound(t)
    ensures Completes(t, [], Ending(parens), parens, alts, tokens)
  {
    assert Reserved('#') && !t.isWord('#');
    var s := Ending(parens);
    assert [] + s == s && s[1..] == if parens then ")" else "";
    var more := tokens + [Plain(One(Digits))];
    assert ParseAtom(t, s) == Parsed(One(Digits), s[1..]);
    if parens {
      assert ")"[1..] == "";
      assert ParseGroup(t, ")", true, alts, more) == Finish(alts, more, "");
    } else {
      assert ParseGroup(t, "", false, alts, more) == Finish(alts, more, "");
    }
  }

  lemma BackslashCompletes(t: CharTable, parens: bool, alts: Keyword, tokens: seq<Token>)
    requires Sound(t)
    ensures Completes(t, "\\", Ending(parens), parens, alts, tokens)
  {
    var ext := Ending(parens);
    var s := "\\" + ext;
    assert s[1..] == ext && s[2..] == ext[1..] && s[1] == '#';
    assert ParseClass(t, s) == Parsed(Single('#'), s[2..]);
    var more := tokens + [Plain(One(Single('#')))];
    assert ParseAtom(t, s) == Parsed(One(Single('#')), s[2..]);
    if parens {
      assert s[2..] == ")" && ")"[1..] == "";
      assert ParseGroup(t, ")", true, alts, more) == Finish(alts, more, "");
    } else {
      assert s[2..] == "";
      assert ParseGroup(t, "", false, alts, more) == Finish(alts, more, "");
    }
  }

  lemma EmptyGroupIsHopeless(t: CharTable, s: seq<char>)
    requires At(s, ')')
    ensures Hopeless(t, s, true, [], [])
  {
    forall x ensures FailsWith(ParseGroup(t, s + x, true, [], []), UnexpectedEOF) {
      assert (s + x)[0] == ')';
    }
  }

  /** A text that ends too early can be completed, or it holds a group that is closed while empty. */
  lemma {:induction false} TooShort(t: CharTable, s: seq<char>, parens: bool, alts: Keyword, tokens: seq<Token>)
    returns (ext: seq<char>)
    requires Sound(t) && FailsWith(ParseGroup(t, s, parens, alts, tokens), UnexpectedEOF)
    ensures Completes(t, s, ext, parens, alts, tokens) || Hopeless(t, s, parens, alts, tokens)
    decreases |s|, 1
  {
    ext := Ending(parens);
    if s == [] {
      EndingCompletes(t, parens, alts, tokens);
    } else if s[0] == ')' && parens {
      EmptyGroupIsHopeless(t, s);
    } else if s[0] == '(' {
      ext := NestedTooShort(t, s, alts, tokens);
    } else if s[0] == '|' {
      ext := TooShort(t, s[1..], parens, alts + [Alternative(tokens)], []);
      forall x ensures ParseGroup(t, s + x, parens, alts, tokens)
                    == ParseGroup(t, s[1..] + x, parens, alts + [Alternative(tokens)], [])
      {
        assert (s + x)[0] == '|' && (s + x)[1..] == s[1..] + x;
      }
    } else {
      ext := AtomTooShort(t, s, parens, alts, tokens);
    }
  }

  lemma {:induction false} AtomTooShort(t: CharTable, s: seq<char>, parens: bool, alts: Keyword, tokens: seq<Token>)
    returns (ext: seq<char>)
    requires Sound(t) && FailsWith(ParseGroup(t, s, parens, alts, tokens), UnexpectedEOF)
    requires s != [] && s[0] != '(' && s[0] != '|' && !(s[0] == ')' && parens)
    ensures Completes(t, s, ext, parens, alts, tokens) || Hopeless(t, s, parens, alts, tokens)
    decreases |s|, 0
  {
    var a := ParseAtom(t, s);
    if a.Failed? {
      assert s == "\\";
      BackslashCompletes(t, parens, alts, tokens);
      ext := Ending(parens);
    } else {
      var more := tokens + [Plain(a.value)];
      ext := TooShort(t, a.rest, parens, alts, more);
      forall x | a.rest != [] || Unmodified(x)
        ensures ParseGroup(t, s + x, parens, alts, tokens) == ParseGroup(t, a.rest + x, parens, alts, more)
      {
        AtomStays(t, s, x);
        assert (s + x)[0] == s[0];
      }
      if a.rest == [] {
        EndingCompletes(t, parens, alts, more);
        ext := Ending(parens);
      }
    }
  }

  lemma {:induction false} NestedTooShort(t: CharTable, s: seq<char>, alts: Keyword, tokens: seq<Token>)
    returns (ext: seq<char>)
    requires Sound(t) && At(s, '(') && FailsWith(ParseGroup(t, s, false, alts, tokens), UnexpectedEOF)
    ensures Completes(t, s, ext, false, alts, tokens) || Hopeless(t, s, false, alts, tokens)
    decreases |s|, 0
  {
    var g := ParseNested(t, s[1..]);
    if g.Parsed? {
      var more := tokens + [g.value];
      ext := TooShort(t, g.rest, false, alts, more);
      assert g.rest != [];
      forall x ensures ParseGroup(t, s + x, false, alts, tokens) == ParseGroup(t, g.rest + x, false, alts, more) {
        NestedStays(t, s[1..], x);
        assert (s + x)[0] == '(' && (s + x)[1..] == s[1..] + x;
      }
    } else {
      ext := TooShort(t, s[1..], true, [], []);
      if Completes(t, s[1..], ext, true, [], []) {
        var inner := ParseGroup(t, s[1..] + ext, true, [], []).value;
        assert ParseNested(t, s[1..] + ext) == Parsed(Group(inner, false), []);
        var more := tokens + [Group(inner, false)];
        assert ParseGroup(t, [], false, alts, more) == Finish(alts, more, []);
        assert (s + ext)[0] == '(' && (s + ext)[1..] == s[1..] + ext;
      } else {
        forall x ensures FailsWith(ParseGroup(t, s + x, false, alts, tokens), UnexpectedEOF) {
          assert FailsWith(ParseGroup(t, s[1..] + x, true, [], []), UnexpectedEOF);
          assert (s + x)[0] == '(' && (s + x)[1..] == s[1..] + x;
        }
      }
    }
  }

  /** A character out of place rejects every longer text too. A text that ends too early can be
      completed, unless a group in it is closed while empty; then every longer text is rejected as
      ending too early. */
  lemma ErrorsTell(t: CharTable, s: seq<char>)
    requires Sound(t) && Parse(t, s).Failed?
    ensures Parse(t, s).error == UnexpectedChar ==> forall x :: FailsWith(Parse(t, s + x), UnexpectedChar)
    ensures Parse(t, s).error == UnexpectedEOF ==>
              (exists x :: Parse(t, s + x).Parsed?) || (forall x :: FailsWith(Parse(t, s + x), UnexpectedEOF))
    ensures Parse(t, s).error != EOF
  {
    if Parse(t, s).error == UnexpectedChar {
      forall x ensures FailsWith(Parse(t, s + x), UnexpectedChar) {
        OutOfPlace(t, s, x, false, [], []);
      }
    } else if Parse(t, s).error == UnexpectedEOF {
      var ext := TooShort(t, s, false, [], []);
    } else {
      NeverPlainEOF(t, s, false, [], []);
    }
  }

  /** The plain end of the text is never reported by a group. */
  lemma {:induction false} NeverPlainEOF(t: CharTable, s: seq<char>, parens: bool, alts: Keyword, tokens: seq<Token>)
    ensures !FailsWith(ParseGroup(t, s, parens, alts, tokens), EOF)
    decreases |s|
  {
    if At(s, '(') && !parens {
      NeverPlainEOF(t, s[1..], true, [], []);
      var g := ParseNested(t, s[1..]);
      if g.Parsed? {
        NeverPlainEOF(t, g.rest, parens, alts, tokens + [g.value]);
      }
    } else if At(s, '|') && tokens != [] {
      NeverPlainEOF(t, s[1..], parens, alts + [Alternative(tokens)], []);
    } else if s != [] {
      var a := ParseAtom(t, s);
      if a.Parsed? {
        NeverPlainEOF(t, a.rest, parens, alts, tokens + [Plain(a.value)]);
      }
    }
  }

  /** An empty group, a letter in upper case, an empty alternative and a lone backslash. */
  lemma ErrorExamples(t: CharTable, c: char)
    requires Sound(t) && t.isWord(c) && t.lower(c) != c
    ensures FailsWith(Parse(t, "()"), UnexpectedEOF) && FailsWith(Parse(t, [c]), UnexpectedChar)
    ensures FailsWith(Parse(t, "|"), UnexpectedChar) && FailsWith(Parse(t, "\\"), UnexpectedEOF)
  {
    assert "()"[1..] == ")";
    assert ParseGroup(t, ")", true, [], []) == Finish([], [], ")"[1..]);
  }

  // --------------------------------------------------------------------------------------
  // The syntax, character by character
  // --------------------------------------------------------------------------------------

  /** What a class is written as: `#` for digits, a space for anything but a word character, a letter
      for both of its cases, a backslash before any character for that character. */
  lemma ClassSyntax(t: CharTable, c: char, rest: seq<char>)
    requires Sound(t)
    ensures ParseClass(t, "#" + rest) == Parsed(Digits, rest) && ParseClass(t, " " + rest) == Parsed(NonWord, rest)
    ensures ParseClass(t, ['\\', c] + rest) == Parsed(Single(c), rest)
    ensures t.isWord(c) && t.lower(c) == c ==>
              ParseClass(t, [c] + rest) == Parsed(if t.upper(c) == c then Single(c) else Runes(t.upper(c), c), rest)
    ensures !t.isWord(c) && !Reserved(c) && c != '\\' ==> ParseClass(t, [c] + rest) == Parsed(Single(c), rest)
  {
    assert Reserved('#') && Reserved(' ');
    assert ("#" + rest)[1..] == rest && (" " + rest)[1..] == rest && ([c] + rest)[1..] == rest;
    assert (['\\', c] + rest)[2..] == rest;
  }

  /** What follows a class: `?` makes it optional, `+` repeats it; a star stands alone. */
  lemma ModifierSyntax(t: CharTable, s: seq<char>, rest: seq<char>, c: Class)
    requires s != [] && s[0] != '*' && ParseClass(t, s) == Parsed(c, rest)
    ensures At(rest, '?') ==> ParseAtom(t, s) == Parsed(Optional(c), rest[1..])
    ensures At(rest, '+') ==> ParseAtom(t, s) == Parsed(Repeated(c), rest[1..])
    ensures Unmodified(rest) ==> ParseAtom(t, s) == Parsed(One(c), rest)
    ensures ParseAtom(t, "*" + rest) == Parsed(Star, rest)
  {
    assert ("*" + rest)[1..] == rest;
  }
}
