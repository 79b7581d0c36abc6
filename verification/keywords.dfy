/** The keyword language: a keyword is a list of alternatives, each a non-empty list of tokens;
    a token is a wildcard, a character class with an optional modifier, or a parenthesised group.
    The parser builds a syntax tree where the source builds regular expression tokens.
 */
module Keywords {
  import opened Lexing

  /** The Unicode character tables, which the theorems do not depend on beyond `Sound`. */
  datatype CharTable = CharTable(isWord: char -> bool, lower: char -> char, upper: char -> char)

  predicate Reserved(c: char) {
    c in {'(', ')', '|', '*', '?', '+', '#', ' '}
  }

  /** No character with a syntactic role is a letter or a digit. */
  ghost predicate Sound(t: CharTable) {
    forall c :: Reserved(c) || c == '\\' ==> !t.isWord(c)
  }

  datatype Class = Single(c: char) | Runes(upper: char, lower: char) | Digits | NonWord

  datatype Atom = Star | One(class_: Class) | Optional(class_: Class) | Repeated(class_: Class)

  datatype Token = Plain(atom: Atom) | Group(alts: seq<Alternative>, optional: bool)

  datatype Alternative = Alternative(tokens: seq<Token>)

  type Keyword = seq<Alternative>

  datatype Error = EOF | UnexpectedEOF | UnexpectedChar

  datatype Outcome<+T> = Parsed(value: T, rest: seq<char>) | Failed(error: Error, rest: seq<char>)

  // --------------------------------------------------------------------------------------
  // The parser as a function of the remaining text
  // --------------------------------------------------------------------------------------

  predicate At(s: seq<char>, c: char) {
    s != [] && s[0] == c
  }

  function ParseClass(t: CharTable, s: seq<char>): (r: Outcome<Class>)
    ensures r.Parsed? ==> |r.rest| < |s|
    ensures |r.rest| <= |s|
    ensures r.Failed? && r.error.EOF? <==> s == []
  {
    if s == [] then Failed(EOF, s)
    else if s[0] == '\\' then
      if |s| == 1 then Failed(UnexpectedEOF, []) else Parsed(Single(s[1]), s[2..])
    else if t.isWord(s[0]) then
      if t.lower(s[0]) != s[0] then Failed(UnexpectedChar, s[1..])
      else if t.upper(s[0]) == s[0] then Parsed(Single(s[0]), s[1..])
      else Parsed(Runes(t.upper(s[0]), s[0]), s[1..])
    else if s[0] == '#' then Parsed(Digits, s[1..])
    else if s[0] == ' ' then Parsed(NonWord, s[1..])
    else if Reserved(s[0]) then Failed(UnexpectedChar, s)
    else Parsed(Single(s[0]), s[1..])
  }

  function ParseAtom(t: CharTable, s: seq<char>): (r: Outcome<Atom>)
    ensures r.Parsed? ==> |r.rest| < |s|
    ensures |r.rest| <= |s|
    ensures r.Failed? && r.error.EOF? <==> s == []
  {
    if At(s, '*') then Parsed(Star, s[1..])
    else
      match ParseClass(t, s)
      case Failed(e, rest) => Failed(e, rest)
      case Parsed(c, rest) =>
        if At(rest, '?') then Parsed(Optional(c), rest[1..])
        else if At(rest, '+') then Parsed(Repeated(c), rest[1..])
        else Parsed(One(c), rest)
  }

  /** Appends the current alternative unless it is empty. */
  function Close(alts: Keyword, tokens: seq<Token>): Keyword {
    if tokens == [] then alts else alts + [Alternative(tokens)]
  }

  function Finish(alts: Keyword, tokens: seq<Token>, rest: seq<char>): Outcome<Keyword> {
    if Close(alts, tokens) == [] then Failed(UnexpectedEOF, rest) else Parsed(Close(alts, tokens), rest)
  }

  /** The rest of a group, after the alternatives `alts` and the tokens `tokens` of the current one. */
  function ParseGroup(t: CharTable, s: seq<char>, parens: bool, alts: Keyword, tokens: seq<Token>)
    : (r: Outcome<Keyword>)
    ensures |r.rest| <= |s|
    decreases |s|, 0
  {
    if parens && At(s, '(') then Failed(UnexpectedChar, s)
    else if parens && At(s, ')') then Finish(alts, tokens, s[1..])
    else if !parens && At(s, '(') then
      match ParseNested(t, s[1..])
      case Failed(e, rest) => Failed(e, rest)
      case Parsed(group, rest) => ParseGroup(t, rest, parens, alts, tokens + [group])
    else if At(s, '|') then
      if tokens == [] then Failed(UnexpectedChar, s)
      else ParseGroup(t, s[1..], parens, alts + [Alternative(tokens)], [])
    else
      match ParseAtom(t, s)
      case Failed(e, rest) =>
        if !e.EOF? then Failed(e, rest)
        else if parens then Failed(UnexpectedEOF, rest)
        else Finish(alts, tokens, rest)
      case Parsed(a, rest) => ParseGroup(t, rest, parens, alts, tokens + [Plain(a)])
  }

  /** A parenthesised group and its modifier, after the opening parenthesis. */
  function ParseNested(t: CharTable, s: seq<char>): (r: Outcome<Token>)
    ensures |r.rest| <= |s|
    decreases |s|, 1
  {
    match ParseGroup(t, s, true, [], [])
    case Failed(e, rest) => Failed(e, rest)
    case Parsed(inner, rest) =>
      if At(rest, '?') then Parsed(Group(inner, true), rest[1..]) else Parsed(Group(inner, false), rest)
  }

  function Parse(t: CharTable, s: seq<char>): Outcome<Keyword> {
    ParseGroup(t, s, false, [], [])
  }

  // --------------------------------------------------------------------------------------
  // The parser as the source runs it, on the pushback reader
  // --------------------------------------------------------------------------------------

  datatype Result<+T> = Ok(value: T) | Err(error: Error)

  /** The lexer stands where `o` left off and `r` is what `o` says. */
  ghost predicate Agrees<T>(r: Result<T>, rest: seq<char>, o: Outcome<T>) {
    match o
    case Parsed(v, left) => r == Ok(v) && rest == left
    case Failed(e, left) => r == Err(e) && rest == left
  }

  method LexClassToken(l: Lexer, t: CharTable) returns (r: Result<Class>)
    requires l.Valid()
    modifies l
    ensures l.Valid() && Agrees(r, l.Rest(), ParseClass(t, old(l.Rest())))
  {
    ghost var s := l.Rest();
    var ch, ok := l.Read();
    if !ok {
      return Err(EOF);
    }
    if ch == '\\' {
      var exactChar, ok2 := l.Read();
      if !ok2 {
        return Err(UnexpectedEOF);
      }
      assert s[1..][1..] == s[2..];
      return Ok(Single(exactChar));
    }
    if t.isWord(ch) {
      if t.lower(ch) != ch {
        return Err(UnexpectedChar);
      }
      if t.upper(ch) == ch {
        return Ok(Single(ch));
      }
      return Ok(Runes(t.upper(ch), ch));
    }
    if ch == '#' {
      return Ok(Digits);
    }
    if ch == ' ' {
      return Ok(NonWord);
    }
    if Reserved(ch) {
      l.Backup();
      return Err(UnexpectedChar);
    }
    return Ok(Single(ch));
  }

  method LexClassWithModifierToken(l: Lexer, t: CharTable) returns (r: Result<Atom>)
    requires l.Valid()
    modifies l
    ensures l.Valid() && Agrees(r, l.Rest(), ParseAtom(t, old(l.Rest())))
  {
    var star := l.ReadChar('*');
    if star {
      return Ok(Star);
    }
    var tk := LexClassToken(l, t);
    if tk.Err? {
      return Err(tk.error);
    }
    ghost var rest := l.Rest();
    var ch, ok := l.Read();
    if !ok {
      return Ok(One(tk.value));
    }
    if ch == '?' {
      return Ok(Optional(tk.value));
    }
    if ch == '+' {
      return Ok(Repeated(tk.value));
    }
    l.Backup();
    assert l.Rest() == rest;
    return Ok(One(tk.value));
  }

  /** The branch of the group parser that has just read an opening parenthesis. */
  method LexNestedGroup(l: Lexer, t: CharTable) returns (r: Result<Token>)
    requires l.Valid()
    modifies l
    ensures l.Valid() && Agrees(r, l.Rest(), ParseNested(t, old(l.Rest())))
    decreases false, 3
  {
    var group := LexGroupToken(l, t, true);
    if group.Err? {
      return Err(group.error);
    }
    var optional := l.ReadChar('?');
    return Ok(Group(group.value, optional));
  }

  /** What the parenthesis at the front of the text, if any, amounts to. */
  datatype Paren = Absent | OpenInside | Closing | Nested(group: Token) | BadNested(error: Error)

  method LexParenthesis(l: Lexer, t: CharTable, parens: bool) returns (p: Paren)
    requires l.Valid()
    modifies l
    ensures l.Valid()
    ensures var s := old(l.Rest());
            match p
            case Absent => l.Rest() == s && !At(s, '(') && (parens ==> !At(s, ')'))
            case OpenInside => l.Rest() == s && parens && At(s, '(')
            case Closing => parens && At(s, ')') && l.Rest() == s[1..]
            case Nested(g) => !parens && At(s, '(') && ParseNested(t, s[1..]) == Parsed(g, l.Rest())
            case BadNested(e) => !parens && At(s, '(') && ParseNested(t, s[1..]) == Failed(e, l.Rest())
    decreases !parens, 0
  {
    ghost var s := l.Rest();
    var open := l.ReadChar('(');
    if open {
      if parens {
        l.Backup();
        assert l.Rest() == s;
        return OpenInside;
      }
      var group := LexNestedGroup(l, t);
      if group.Err? {
        return BadNested(group.error);
      }
      return Nested(group.value);
    }
    if parens {
      var close := l.ReadChar(')');
      if close {
        return Closing;
      }
    }
    return Absent;
  }

  /** How the loop over one alternative ended. */
  datatype End = Bar | Final | Broken(error: Error)

  /** The inner loop: the tokens of one alternative, `alts` being the earlier ones. */
  method LexAlternative(l: Lexer, t: CharTable, parens: bool, ghost alts: Keyword)
    returns (tokens: seq<Token>, end: End)
    requires l.Valid()
    modifies l
    ensures l.Valid()
    ensures var goal := ParseGroup(t, old(l.Rest()), parens, alts, []);
            match end
            case Bar => tokens != [] && |l.Rest()| < |old(l.Rest())|
                        && goal == ParseGroup(t, l.Rest(), parens, alts + [Alternative(tokens)], [])
            case Final => goal == Finish(alts, tokens, l.Rest())
            case Broken(e) => goal == Failed(e, l.Rest())
    decreases !parens, 1
  {
    ghost var goal := ParseGroup(t, l.Rest(), parens, alts, []);
    tokens := [];
    while true
      invariant l.Valid() && |l.Rest()| <= |old(l.Rest())|
      invariant ParseGroup(t, l.Rest(), parens, alts, tokens) == goal
      decreases |l.Rest()|
    {
      ghost var s := l.Rest();
      var p := LexParenthesis(l, t, parens);
      match p {
        case OpenInside => return tokens, Broken(UnexpectedChar);
        case Closing => return tokens, Final;
        case BadNested(e) => return tokens, Broken(e);
        case Nested(group) =>
          tokens := tokens + [group];
          continue;
        case Absent =>
      }
      var bar := l.ReadChar('|');
      if bar {
        if tokens == [] {
          l.Backup();
          assert l.Rest() == s;
          return tokens, Broken(UnexpectedChar);
        }
        return tokens, Bar;
      }
      var token := LexClassWithModifierToken(l, t);
      if token.Err? {
        if token.error.EOF? {
          if parens {
            return tokens, Broken(UnexpectedEOF);
          }
          return tokens, Final;
        }
        return tokens, Broken(token.error);
      }
      tokens := tokens + [Plain(token.value)];
    }
  }

  method LexGroupToken(l: Lexer, t: CharTable, parens: bool) returns (r: Result<Keyword>)
    requires l.Valid()
    modifies l
    ensures l.Valid() && Agrees(r, l.Rest(), ParseGroup(t, old(l.Rest()), parens, [], []))
    decreases !parens, 2
  {
    var alts: Keyword := [];
    while true
      invariant l.Valid()
      invariant ParseGroup(t, l.Rest(), parens, alts, []) == ParseGroup(t, old(l.Rest()), parens, [], [])
      decreases |l.Rest()|
    {
      var tokens, end := LexAlternative(l, t, parens, alts);
      if end.Broken? {
        return Err(end.error);
      }
      alts := Close(alts, tokens);
      if end.Final? {
        break;
      }
    }
    if alts == [] {
      return Err(UnexpectedEOF);
    }
    return Ok(alts);
  }

  // --------------------------------------------------------------------------------------
  // Printing, and what the parser can produce
  // --------------------------------------------------------------------------------------

  function PrintClass(c: Class): seq<char> {
    match c
    case Single(ch) => ['\\', ch]
    case Runes(_, lower) => [lower]
    case Digits => ['#']
    case NonWord => [' ']
  }

  function PrintAtom(a: Atom): seq<char> {
    match a
    case Star => ['*']
    case One(c) => PrintClass(c)
    case Optional(c) => PrintClass(c) + ['?']
    case Repeated(c) => PrintClass(c) + ['+']
  }

  function PrintToken(tok: Token): seq<char>
    decreases tok, 0
  {
    match tok
    case Plain(a) => PrintAtom(a)
    case Group(alts, optional) => ['('] + Print(alts) + [')'] + (if optional then ['?'] else [])
  }

  function PrintTokens(tokens: seq<Token>): seq<char>
    decreases tokens, 0
  {
    if tokens == [] then [] else PrintToken(tokens[0]) + PrintTokens(tokens[1..])
  }

  function Print(alts: Keyword): seq<char>
    decreases alts, 0
  {
    if alts == [] then []
    else if |alts| == 1 then PrintTokens(alts[0].tokens)
    else PrintTokens(alts[0].tokens) + ['|'] + Print(alts[1..])
  }

  /** The classes the parser can produce: a cased letter stands for both its cases. */
  predicate ValidClass(t: CharTable, c: Class) {
    c.Runes? ==> t.isWord(c.lower) && t.lower(c.lower) == c.lower && t.upper(c.lower) == c.upper != c.lower
  }

  predicate ValidAtom(t: CharTable, a: Atom) {
    a.Star? || ValidClass(t, a.class_)
  }

  /** Groups occur at the outer level only. */
  predicate ValidToken(t: CharTable, tok: Token, nested: bool)
    decreases !nested, 0
  {
    match tok
    case Plain(a) => ValidAtom(t, a)
    case Group(alts, _) => !nested && ValidKeyword(t, alts, true)
  }

  predicate ValidTokens(t: CharTable, tokens: seq<Token>, nested: bool)
    decreases !nested, 1
  {
    forall i :: 0 <= i < |tokens| ==> ValidToken(t, tokens[i], nested)
  }

  predicate ValidAlts(t: CharTable, alts: Keyword, nested: bool)
    decreases !nested, 2
  {
    forall i :: 0 <= i < |alts| ==> alts[i].tokens != [] && ValidTokens(t, alts[i].tokens, nested)
  }

  /** A well-formed keyword: at least one alternative, none of them empty. */
  predicate ValidKeyword(t: CharTable, alts: Keyword, nested: bool)
    decreases !nested, 3
  {
    alts != [] && ValidAlts(t, alts, nested)
  }

  lemma ClassIsValid(t: CharTable, s: seq<char>)
    ensures ParseAtom(t, s).Parsed? ==> ValidAtom(t, ParseAtom(t, s).value)
  {
  }

  /** Whatever the parser accepts is well formed, and a group never contains a group. */
  lemma {:induction false} ParsedIsValid(t: CharTable, s: seq<char>, parens: bool, alts: Keyword, tokens: seq<Token>)
    requires ValidAlts(t, alts, parens) && ValidTokens(t, tokens, parens)
    ensures var r := ParseGroup(t, s, parens, alts, tokens); r.Parsed? ==> ValidKeyword(t, r.value, parens)
    ensures !parens && ParseGroup(t, s, parens, alts, tokens).Parsed? ==> ParseGroup(t, s, parens, alts, tokens).rest == []
    decreases |s|
  {
    if (parens && At(s, '(')) || (parens && At(s, ')')) {
    } else if !parens && At(s, '(') {
      ParsedIsValid(t, s[1..], true, [], []);
      var group := ParseNested(t, s[1..]);
      if group.Parsed? {
        ParsedIsValid(t, group.rest, parens, alts, tokens + [group.value]);
      }
    } else if At(s, '|') {
      if tokens != [] {
        ParsedIsValid(t, s[1..], parens, alts + [Alternative(tokens)], []);
      }
    } else {
      ClassIsValid(t, s);
      var atom := ParseAtom(t, s);
      if atom.Parsed? {
        ParsedIsValid(t, atom.rest, parens, alts, tokens + [Plain(atom.value)]);
      }
    }
  }

  // --------------------------------------------------------------------------------------
  // Parsing what was printed
  // --------------------------------------------------------------------------------------

  /** `rest` does not start with a modifier, so the token before it is complete. */
  predicate NoModifier(rest: seq<char>) {
    !At(rest, '?') && !At(rest, '+')
  }

  lemma ClassRoundTrip(t: CharTable, c: Class, rest: seq<char>)
    requires Sound(t) && ValidClass(t, c)
    ensures ParseClass(t, PrintClass(c) + rest) == Parsed(c, rest)
    ensures PrintClass(c) != [] && PrintClass(c)[0] !in {'(', ')', '|', '*', '?', '+'}
  {
  }

  lemma AtomRoundTrip(t: CharTable, a: Atom, rest: seq<char>)
    requires Sound(t) && ValidAtom(t, a) && NoModifier(rest)
    ensures ParseAtom(t, PrintAtom(a) + rest) == Parsed(a, rest)
    ensures var p := PrintAtom(a); p != [] && p[0] !in {'(', ')', '|', '?', '+'}
  {
    var s := PrintAtom(a) + rest;
    match a
    case Star =>
      assert s[1..] == rest;
    case One(c) =>
      ClassRoundTrip(t, c, rest);
    case Optional(c) =>
      assert s == PrintClass(c) + (['?'] + rest);
      ClassRoundTrip(t, c, ['?'] + rest);
    case Repeated(c) =>
      assert s == PrintClass(c) + (['+'] + rest);
      ClassRoundTrip(t, c, ['+'] + rest);
  }

  /** What may follow the tokens of an alternative: another alternative, or the end. */
  predicate Stops(rest: seq<char>, parens: bool) {
    At(rest, '|') || (if parens then At(rest, ')') else rest == [])
  }

  lemma {:induction false} TokensRoundTrip(
    t: CharTable, tokens: seq<Token>, rest: seq<char>, parens: bool, alts: Keyword, before: seq<Token>
  )
    requires Sound(t) && ValidTokens(t, tokens, parens) && Stops(rest, parens)
    ensures ParseGroup(t, PrintTokens(tokens) + rest, parens, alts, before)
            == ParseGroup(t, rest, parens, alts, before + tokens)
    ensures NoModifier(PrintTokens(tokens) + rest)
    decreases !parens, 1, |tokens|
  {
    if tokens == [] {
      assert PrintTokens(tokens) + rest == rest && before + tokens == before;
    } else {
      var tok := tokens[0];
      var tail := PrintTokens(tokens[1..]) + rest;
      assert PrintTokens(tokens) + rest == PrintToken(tok) + tail;
      TokensRoundTrip(t, tokens[1..], rest, parens, alts, before + [tok]);
      MoveFirst(before, tokens);
      assert ValidToken(t, tokens[0], parens);
      TokenRoundTrip(t, tok, tail, parens, alts, before);
    }
  }

  lemma MoveFirst<T>(before: seq<T>, s: seq<T>)
    requires s != []
    ensures before + [s[0]] + s[1..] == before + s
  {
  }

  lemma AtomStep(
    t: CharTable, s: seq<char>, parens: bool, alts: Keyword, before: seq<Token>, a: Atom, rest: seq<char>
  )
    requires s != [] && s[0] !in {'(', ')', '|'} && ParseAtom(t, s) == Parsed(a, rest)
    ensures ParseGroup(t, s, parens, alts, before) == ParseGroup(t, rest, parens, alts, before + [Plain(a)])
  {
  }

  lemma {:induction false} TokenRoundTrip(
    t: CharTable, tok: Token, tail: seq<char>, parens: bool, alts: Keyword, before: seq<Token>
  )
    requires Sound(t) && ValidToken(t, tok, parens) && NoModifier(tail)
    ensures ParseGroup(t, PrintToken(tok) + tail, parens, alts, before)
            == ParseGroup(t, tail, parens, alts, before + [tok])
    ensures NoModifier(PrintToken(tok) + tail)
    decreases !parens, 0, 0
  {
    var s := PrintToken(tok) + tail;
    if tok.Plain? {
      AtomRoundTrip(t, tok.atom, tail);
      assert s[0] == PrintAtom(tok.atom)[0];
      AtomStep(t, s, parens, alts, before, tok.atom, tail);
    } else {
      NestedRoundTrip(t, tok.alts, tok.optional, tail);
      assert s[0] == '(' && s[1..] == PrintToken(tok)[1..] + tail;
    }
  }

  lemma {:induction false} NestedRoundTrip(t: CharTable, inner: Keyword, optional: bool, tail: seq<char>)
    requires Sound(t) && ValidKeyword(t, inner, true) && NoModifier(tail)
    ensures var s := PrintToken(Group(inner, optional)) + tail; s[0] == '('
    ensures ParseNested(t, PrintToken(Group(inner, optional))[1..] + tail) == Parsed(Group(inner, optional), tail)
    decreases false, 3, 0
  {
    var mod := if optional then ['?'] else [];
    var rest := [')'] + (mod + tail);
    assert PrintToken(Group(inner, optional))[1..] + tail == Print(inner) + rest;
    KeywordRoundTrip(t, inner, rest, true, []);
    assert [] + inner == inner;
    assert rest[1..] == mod + tail;
    if optional {
      assert (mod + tail)[1..] == tail;
    } else {
      assert mod + tail == tail;
    }
  }

  /** Printing the remaining alternatives and parsing them appends exactly these alternatives. */
  lemma {:induction false} KeywordRoundTrip(
    t: CharTable, alts: Keyword, rest: seq<char>, parens: bool, before: Keyword
  )
    requires Sound(t) && ValidKeyword(t, alts, parens)
    requires if parens then At(rest, ')') else rest == []
    ensures ParseGroup(t, Print(alts) + rest, parens, before, [])
            == Parsed(before + alts, if parens then rest[1..] else [])
    decreases !parens, 2, |alts|
  {
    var tokens := alts[0].tokens;
    assert ValidTokens(t, tokens, parens);
    if |alts| == 1 {
      AlternativeRoundTrip(t, tokens, rest, parens, before);
      EndStep(t, rest, parens, before, tokens);
      assert alts == [Alternative(tokens)];
    } else {
      var tail := Print(alts[1..]) + rest;
      PrintCons(alts, rest);
      AlternativeRoundTrip(t, tokens, ['|'] + tail, parens, before);
      BarStep(t, tail, parens, before, tokens);
      KeywordRoundTrip(t, alts[1..], rest, parens, before + [Alternative(tokens)]);
      MoveFirst(before, alts);
    }
  }

  lemma PrintCons(alts: Keyword, rest: seq<char>)
    requires |alts| > 1
    ensures Print(alts) + rest == PrintTokens(alts[0].tokens) + (['|'] + (Print(alts[1..]) + rest))
  {
  }

  lemma AlternativeRoundTrip(t: CharTable, tokens: seq<Token>, rest: seq<char>, parens: bool, alts: Keyword)
    requires Sound(t) && ValidTokens(t, tokens, parens) && Stops(rest, parens)
    ensures ParseGroup(t, PrintTokens(tokens) + rest, parens, alts, []) == ParseGroup(t, rest, parens, alts, tokens)
    decreases !parens, 1, |tokens| + 1
  {
    TokensRoundTrip(t, tokens, rest, parens, alts, []);
    assert [] + tokens == tokens;
  }

  lemma EndStep(t: CharTable, rest: seq<char>, parens: bool, alts: Keyword, tokens: seq<Token>)
    requires tokens != []
    requires if parens then At(rest, ')') else rest == []
    ensures ParseGroup(t, rest, parens, alts, tokens)
            == Parsed(alts + [Alternative(tokens)], if parens then rest[1..] else [])
  {
  }

  lemma BarStep(t: CharTable, tail: seq<char>, parens: bool, alts: Keyword, tokens: seq<Token>)
    requires tokens != []
    ensures ParseGroup(t, ['|'] + tail, parens, alts, tokens)
            == ParseGroup(t, tail, parens, alts + [Alternative(tokens)], [])
  {
  }

  /** Parsing the printed form of a well-formed keyword gives the keyword back. */
  lemma PrintParse(t: CharTable, k: Keyword)
    requires Sound(t) && ValidKeyword(t, k, false)
    ensures Parse(t, Print(k)) == Parsed(k, [])
  {
    KeywordRoundTrip(t, k, [], false, []);
    assert Print(k) + [] == Print(k) && [] + k == k;
  }

  /** Whatever the text, the accepted keyword is well formed, has groups at the outer level only,
      all the text was consumed, and printing the keyword is a text with the same meaning. */
  lemma ParsePrintParse(t: CharTable, s: seq<char>)
    requires Sound(t) && Parse(t, s).Parsed?
    ensures ValidKeyword(t, Parse(t, s).value, false)
    ensures Parse(t, s).rest == []
    ensures Parse(t, Print(Parse(t, s).value)) == Parse(t, s)
  {
    ParsedIsValid(t, s, false, [], []);
    PrintParse(t, Parse(t, s).value);
  }
}
