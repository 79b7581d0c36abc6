/** Building the Torznab tree from raw XML tokens, with an explicit stack of open elements. */
module TorznabTree {

  datatype Attr = Attr(name: string, value: string)

  datatype Element = Element(name: string, attrs: seq<Attr>, children: seq<Child>)

  datatype Child = Elem(element: Element) | Text(text: string)

  /** What the decoder's `RawToken` yields; comments, directives and processing instructions are
      all `Misc`. */
  datatype Token = Start(name: string, attrs: seq<Attr>) | End(name: string) | Chars(text: string) | Misc

  datatype Error =
    | DuplicateAttribute | MultipleRoots | UnexpectedClosing | Mismatch | TextOutsideRoot | Unclosed | NoRoot

  datatype Result<+T> = Ok(value: T) | Err(error: Error)

  /** White space as `strings.TrimSpace` removes it. */
  predicate IsSpace(c: char) {
    || c in {' ', '\t', '\n', '\r', '\U{0B}', '\U{0C}', '\U{85}', '\U{A0}', '\U{1680}', '\U{2028}', '\U{2029}'}
    || c in {'\U{202F}', '\U{205F}', '\U{3000}'}
    || '\U{2000}' <= c <= '\U{200A}'
  }

  predicate Blank(s: string) {
    forall k :: 0 <= k < |s| ==> IsSpace(s[k])
  }

  predicate DistinctAttrs(attrs: seq<Attr>) {
    forall i, j :: 0 <= i < j < |attrs| ==> attrs[i].name != attrs[j].name
  }

  // --------------------------------------------------------------------------------------
  // The parser
  // --------------------------------------------------------------------------------------

  /** The finished root, if any, and the open elements from the outermost to the innermost. */
  datatype State = State(root: seq<Element>, stack: seq<Element>)

  const INITIAL := State([], [])

  function Top(stack: seq<Element>): Element
    requires stack != []
  {
    stack[|stack| - 1]
  }

  function Rest(stack: seq<Element>): seq<Element>
    requires stack != []
  {
    stack[..|stack| - 1]
  }

  /** Text next to text is one child. */
  function AddText(children: seq<Child>, text: string): seq<Child> {
    if children != [] && children[|children| - 1].Text?
    then children[..|children| - 1] + [Text(children[|children| - 1].text + text)]
    else children + [Text(text)]
  }

  function Step(st: State, tok: Token): Result<State> {
    match tok
    case Misc => Ok(st)
    case Start(name, attrs) =>
      if !DistinctAttrs(attrs) then Err(DuplicateAttribute)
      else if st.stack == [] && st.root != [] then Err(MultipleRoots)
      else Ok(st.(stack := st.stack + [Element(name, attrs, [])]))
    case End(name) =>
      if st.stack == [] then Err(UnexpectedClosing)
      else if name != Top(st.stack).name then Err(Mismatch)
      else
        var done, rest := Top(st.stack), Rest(st.stack);
        if rest == [] then Ok(State([done], []))
        else
          var parent := Top(rest);
          Ok(st.(stack := Rest(rest) + [parent.(children := parent.children + [Elem(done)])]))
    case Chars(text) =>
      if Blank(text) then Ok(st)
      else if st.stack == [] then Err(TextOutsideRoot)
      else
        var top := Top(st.stack);
        Ok(st.(stack := Rest(st.stack) + [top.(children := AddText(top.children, text))]))
  }

  function Run(st: State, tokens: seq<Token>): Result<State>
    decreases |tokens|
  {
    if tokens == [] then Ok(st)
    else
      match Step(st, tokens[0])
      case Err(e) => Err(e)
      case Ok(st') => Run(st', tokens[1..])
  }

  function Finish(st: State): Result<Element> {
    if st.stack != [] then Err(Unclosed)
    else if st.root == [] then Err(NoRoot)
    else Ok(st.root[0])
  }

  function Parse(tokens: seq<Token>): Result<Element> {
    match Run(INITIAL, tokens)
    case Err(e) => Err(e)
    case Ok(st) => Finish(st)
  }

  method ParseTorznabXML(tokens: seq<Token>) returns (r: Result<Element>)
    ensures r == Parse(tokens)
  {
    var root: seq<Element> := [];
    var stack: seq<Element> := [];
    for i := 0 to |tokens|
      invariant Run(State(root, stack), tokens[i..]) == Run(INITIAL, tokens)
    {
      assert tokens[i..][1..] == tokens[i + 1..];
      match tokens[i] {
        case Misc =>
        case Start(name, attrs) =>
          var distinct := HasDistinctAttrs(attrs);
          if !distinct {
            return Err(DuplicateAttribute);
          }
          if stack == [] && root != [] {
            return Err(MultipleRoots);
          }
          stack := stack + [Element(name, attrs, [])];
        case End(name) =>
          if stack == [] {
            return Err(UnexpectedClosing);
          }
          var done := Top(stack);
          if name != done.name {
            return Err(Mismatch);
          }
          stack := Rest(stack);
          if stack == [] {
            root := [done];
          } else {
            var parent := Top(stack);
            stack := Rest(stack) + [parent.(children := parent.children + [Elem(done)])];
          }
        case Chars(text) =>
          if !Blank(text) {
            if stack == [] {
              return Err(TextOutsideRoot);
            }
            var top := Top(stack);
            stack := Rest(stack) + [top.(children := AddText(top.children, text))];
          }
      }
    }
    if stack != [] {
      return Err(Unclosed);
    }
    if root == [] {
      return Err(NoRoot);
    }
    return Ok(root[0]);
  }

  /** The loop that collects the attribute names seen so far. */
  method HasDistinctAttrs(attrs: seq<Attr>) returns (distinct: bool)
    ensures distinct == DistinctAttrs(attrs)
  {
    var seen: set<string> := {};
    for i := 0 to |attrs|
      invariant seen == set k | 0 <= k < i :: attrs[k].name
      invariant DistinctAttrs(attrs[..i])
    {
      if attrs[i].name in seen {
        return false;
      }
      seen := seen + {attrs[i].name};
    }
    assert attrs[..|attrs|] == attrs;
    return true;
  }

  // --------------------------------------------------------------------------------------
  // An independent reading: the events of a tree
  // --------------------------------------------------------------------------------------

  function Events(e: Element): seq<Token>
    decreases e, 1
  {
    [Start(e.name, e.attrs)] + ChildEvents(e.children) + [End(e.name)]
  }

  function ChildEvents(children: seq<Child>): seq<Token>
    decreases children, 0
  {
    if children == [] then []
    else ChildEvent(children[0]) + ChildEvents(children[1..])
  }

  function ChildEvent(c: Child): seq<Token>
    decreases c, 0
  {
    match c
    case Text(t) => [Chars(t)]
    case Elem(e) => Events(e)
  }

  /** Trees the parser can produce: distinct attributes, no blank text, no text next to text. */
  predicate WellFormed(e: Element)
    decreases e, 1
  {
    && DistinctAttrs(e.attrs)
    && WellFormedChildren(e.children)
  }

  predicate WellFormedChildren(children: seq<Child>)
    decreases children, 0
  {
    && (forall k :: 0 <= k < |children| - 1 ==> children[k].Elem? || children[k + 1].Elem?)
    && (forall k :: 0 <= k < |children| ==> WellFormedChild(children[k]))
  }

  predicate WellFormedChild(c: Child)
    decreases c, 0
  {
    match c
    case Text(t) => !Blank(t)
    case Elem(e) => WellFormed(e)
  }

  /** One token after the normal form `ev`: noise is dropped and adjacent text is joined. */
  function Append(ev: seq<Token>, tok: Token): seq<Token> {
    if tok.Misc? || (tok.Chars? && Blank(tok.text)) then ev
    else if tok.Chars? && ev != [] && ev[|ev| - 1].Chars?
    then ev[..|ev| - 1] + [Chars(ev[|ev| - 1].text + tok.text)]
    else ev + [tok]
  }

  /** The tokens that matter. */
  function Normal(tokens: seq<Token>): seq<Token> {
    if tokens == [] then [] else Append(Normal(tokens[..|tokens| - 1]), tokens[|tokens| - 1])
  }

  // --------------------------------------------------------------------------------------
  // Only the tokens that matter decide
  // --------------------------------------------------------------------------------------

  function Bind(r: Result<State>, tokens: seq<Token>): Result<State> {
    match r
    case Err(e) => Err(e)
    case Ok(st) => Run(st, tokens)
  }

  lemma {:induction false} RunConcat(st: State, a: seq<Token>, b: seq<Token>)
    ensures Run(st, a + b) == Bind(Run(st, a), b)
    decreases |a|
  {
    if a == [] {
      assert a + b == b;
    } else {
      assert (a + b)[1..] == a[1..] + b;
      var r := Step(st, a[0]);
      if r.Ok? {
        RunConcat(r.value, a[1..], b);
      }
    }
  }

  lemma RunSnoc(st: State, a: seq<Token>, tok: Token)
    ensures Run(st, a + [tok]) == Bind(Run(st, a), [tok])
  {
    RunConcat(st, a, [tok]);
  }

  lemma RunOne(st: State, tok: Token)
    ensures Run(st, [tok]) == Step(st, tok)
  {
  }

  /** Two texts in a row act like their concatenation. */
  lemma TextsJoin(st: State, a: string, b: string)
    requires !Blank(a) && !Blank(b)
    ensures !Blank(a + b)
    ensures Step(st, Chars(a + b)) == Bind(Step(st, Chars(a)), [Chars(b)])
  {
    var k :| 0 <= k < |a| && !IsSpace(a[k]);
    assert (a + b)[k] == a[k];
    if st.stack != [] {
      var top := Top(st.stack);
      var mid := Step(st, Chars(a)).value;
      RunOne(mid, Chars(b));
      assert Rest(mid.stack) == Rest(st.stack);
      AddTextTwice(top.children, a, b);
    }
  }

  lemma AddTextTwice(children: seq<Child>, a: string, b: string)
    ensures AddText(AddText(children, a), b) == AddText(children, a + b)
  {
    var once := AddText(children, a);
    if children != [] && children[|children| - 1].Text? {
      assert once[..|once| - 1] == children[..|children| - 1];
      assert children[|children| - 1].text + a + b == children[|children| - 1].text + (a + b);
    } else {
      assert once[..|once| - 1] == children;
    }
  }

  /** Texts in a normal form are not blank. */
  lemma {:induction false} NormalTexts(tokens: seq<Token>)
    ensures forall k :: 0 <= k < |Normal(tokens)| && Normal(tokens)[k].Chars? ==> !Blank(Normal(tokens)[k].text)
  {
    if tokens != [] {
      NormalTexts(tokens[..|tokens| - 1]);
      var ev, tok := Normal(tokens[..|tokens| - 1]), tokens[|tokens| - 1];
      if tok.Chars? && !Blank(tok.text) && ev != [] && ev[|ev| - 1].Chars? {
        TextsJoin(INITIAL, ev[|ev| - 1].text, tok.text);
      }
    }
  }

  /** Running a token sequence and running its normal form end the same way, errors included. */
  lemma {:induction false} NormalDecides(tokens: seq<Token>)
    ensures Run(INITIAL, tokens) == Run(INITIAL, Normal(tokens))
  {
    if tokens != [] {
      var init, tok := tokens[..|tokens| - 1], tokens[|tokens| - 1];
      var ev := Normal(init);
      NormalDecides(init);
      assert tokens == init + [tok];
      RunSnoc(INITIAL, init, tok);
      AppendRuns(init, tok);
    }
  }

  lemma AppendRuns(init: seq<Token>, tok: Token)
    ensures Run(INITIAL, Append(Normal(init), tok)) == Bind(Run(INITIAL, Normal(init)), [tok])
  {
    var ev := Normal(init);
    var r := Run(INITIAL, ev);
    if r.Ok? { RunOne(r.value, tok); }
    if tok.Misc? || (tok.Chars? && Blank(tok.text)) {
    } else if tok.Chars? && ev != [] && ev[|ev| - 1].Chars? {
      var ev', a, b := ev[..|ev| - 1], ev[|ev| - 1].text, tok.text;
      NormalTexts(init);
      assert ev == ev' + [Chars(a)];
      RunSnoc(INITIAL, ev', Chars(a));
      RunSnoc(INITIAL, ev', Chars(a + b));
      var r' := Run(INITIAL, ev');
      if r'.Ok? {
        RunOne(r'.value, Chars(a));
        RunOne(r'.value, Chars(a + b));
        TextsJoin(r'.value, a, b);
      }
    } else {
      RunSnoc(INITIAL, ev, tok);
    }
  }

  /** White space text, comments, processing instructions and the way text is split into tokens
      never change what is parsed. */
  lemma OnlyNormalMatters(s: seq<Token>, t: seq<Token>)
    requires Normal(s) == Normal(t)
    ensures Parse(s) == Parse(t)
  {
    NormalDecides(s);
    NormalDecides(t);
  }

  // --------------------------------------------------------------------------------------
  // Parsing is exactly reading the events of a well-formed tree
  // --------------------------------------------------------------------------------------

  /** The events seen so far, in a state of the parser. */
  function Seen(st: State): seq<Token> {
    (if st.root == [] then [] else Events(st.root[0])) + OpenEvents(st.stack)
  }

  function OpenEvents(stack: seq<Element>): seq<Token> {
    if stack == [] then [] else OpenEvents(Rest(stack)) + OpenOne(Top(stack))
  }

  function OpenOne(e: Element): seq<Token> {
    [Start(e.name, e.attrs)] + ChildEvents(e.children)
  }

  predicate GoodState(st: State) {
    && |st.root| <= 1 && (st.root == [] || (st.stack == [] && WellFormed(st.root[0])))
    && forall k :: 0 <= k < |st.stack| ==> WellFormed(st.stack[k])
  }

  lemma {:induction false} ChildEventsSnoc(children: seq<Child>, c: Child)
    ensures ChildEvents(children + [c]) == ChildEvents(children) + ChildEvent(c)
    decreases |children|
  {
    if children == [] {
      assert children + [c] == [c];
      assert ChildEvents([c][1..]) == [];
      assert ChildEvents([c]) == ChildEvent(c);
    } else {
      ChildEventsSnoc(children[1..], c);
      assert (children + [c])[1..] == children[1..] + [c];
    }
  }

  lemma OpenEventsPush(stack: seq<Element>, e: Element)
    ensures OpenEvents(stack + [e]) == OpenEvents(stack) + OpenOne(e)
  {
  }

  lemma WellFormedSnoc(children: seq<Child>, c: Child)
    requires WellFormedChildren(children) && WellFormedChild(c)
    requires children == [] || children[|children| - 1].Elem? || c.Elem?
    ensures WellFormedChildren(children + [c])
  {
  }

  /** The last event is text exactly if the last child of the innermost element is. */
  lemma LastEvent(st: State)
    requires GoodState(st) && st.stack != []
    ensures var ev := Seen(st); var children := Top(st.stack).children;
            && ev != []
            && (ev[|ev| - 1].Chars? <==> children != [] && children[|children| - 1].Text?)
  {
    var top := Top(st.stack);
    var children := top.children;
    if children != [] {
      var init, c := children[..|children| - 1], children[|children| - 1];
      assert children == init + [c];
      ChildEventsSnoc(init, c);
    }
  }

  lemma SeenOpen(st: State)
    requires GoodState(st) && st.stack != []
    ensures Seen(st) == OpenEvents(st.stack)
  {
  }

  lemma Associative<T>(a: seq<T>, b: seq<T>, c: seq<T>)
    ensures a + (b + c) == (a + b) + c
  {
  }

  lemma StartSeen(st: State, name: string, attrs: seq<Attr>)
    requires GoodState(st) && Step(st, Start(name, attrs)).Ok?
    ensures GoodState(Step(st, Start(name, attrs)).value)
    ensures Seen(Step(st, Start(name, attrs)).value) == Append(Seen(st), Start(name, attrs))
  {
  }

  lemma EndSeen(st: State, name: string)
    requires GoodState(st) && Step(st, End(name)).Ok?
    ensures GoodState(Step(st, End(name)).value)
    ensures Seen(Step(st, End(name)).value) == Append(Seen(st), End(name))
  {
    var done, rest := Top(st.stack), Rest(st.stack);
    assert st.stack == rest + [done];
    SeenOpen(st);
    OpenEventsPush(rest, done);
    assert Events(done) == OpenOne(done) + [End(name)];
    if rest == [] {
      assert OpenEvents([]) + OpenOne(done) == OpenOne(done);
      assert Events(done) + OpenEvents([]) == Events(done);
    } else {
      var outer, parent := Rest(rest), Top(rest);
      assert rest == outer + [parent];
      assert WellFormed(parent) && WellFormed(done);
      WellFormedSnoc(parent.children, Elem(done));
      ChildEndSeen(outer, parent, done);
      SeenOpen(Step(st, End(name)).value);
      Associative(OpenEvents(rest), OpenOne(done), [End(name)]);
    }
  }

  lemma ChildEndSeen(outer: seq<Element>, parent: Element, done: Element)
    ensures OpenEvents(outer + [parent.(children := parent.children + [Elem(done)])])
            == OpenEvents(outer + [parent]) + Events(done)
  {
    var parent' := parent.(children := parent.children + [Elem(done)]);
    OpenEventsPush(outer, parent);
    OpenEventsPush(outer, parent');
    ChildEventsSnoc(parent.children, Elem(done));
    assert OpenOne(parent') == OpenOne(parent) + Events(done);
    Associative(OpenEvents(outer), OpenOne(parent), Events(done));
  }

  lemma AddTextEvents(children: seq<Child>, text: string)
    requires WellFormedChildren(children) && !Blank(text)
    ensures WellFormedChildren(AddText(children, text))
    ensures ChildEvents(AddText(children, text)) ==
            if children != [] && children[|children| - 1].Text?
            then ChildEvents(children[..|children| - 1]) + [Chars(children[|children| - 1].text + text)]
            else ChildEvents(children) + [Chars(text)]
  {
    if children != [] && children[|children| - 1].Text? {
      var init, t := children[..|children| - 1], children[|children| - 1].text;
      assert WellFormedChild(children[|children| - 1]);
      TextsJoin(INITIAL, t, text);
      assert WellFormedChildren(init);
      assert init != [] ==> init[|init| - 1].Elem? by {
        if init != [] { assert children[|init| - 1].Elem?; }
      }
      WellFormedSnoc(init, Text(t + text));
      ChildEventsSnoc(init, Text(t + text));
    } else {
      WellFormedSnoc(children, Text(text));
      ChildEventsSnoc(children, Text(text));
    }
  }

  lemma TextJoinsOpen(rest: seq<Element>, top: Element, text: string)
    requires WellFormedChildren(top.children) && !Blank(text)
    requires top.children != [] && top.children[|top.children| - 1].Text?
    ensures OpenEvents(rest + [top.(children := AddText(top.children, text))])
            == Append(OpenEvents(rest + [top]), Chars(text))
  {
    AddTextEvents(top.children, text);
    OpenEventsPush(rest, top);
    OpenEventsPush(rest, top.(children := AddText(top.children, text)));
    var start, c := [Start(top.name, top.attrs)], top.children;
    var init, t := c[..|c| - 1], c[|c| - 1].text;
    assert c == init + [c[|c| - 1]];
    ChildEventsSnoc(init, c[|c| - 1]);
    Regroup(OpenEvents(rest), start, ChildEvents(init), [Chars(t)]);
    Regroup(OpenEvents(rest), start, ChildEvents(init), [Chars(t + text)]);
    JoinLast(OpenEvents(rest) + (start + ChildEvents(init)), t, text);
  }

  lemma JoinLast(base: seq<Token>, t: string, text: string)
    requires !Blank(text)
    ensures Append(base + [Chars(t)], Chars(text)) == base + [Chars(t + text)]
  {
  }

  lemma Regroup<T>(a: seq<T>, b: seq<T>, c: seq<T>, d: seq<T>)
    ensures a + (b + (c + d)) == (a + (b + c)) + d
  {
  }

  lemma TextStartsOpen(rest: seq<Element>, top: Element, text: string)
    requires WellFormedChildren(top.children) && !Blank(text)
    requires top.children == [] || top.children[|top.children| - 1].Elem?
    ensures OpenEvents(rest + [top.(children := AddText(top.children, text))])
            == OpenEvents(rest + [top]) + [Chars(text)]
  {
    AddTextEvents(top.children, text);
    OpenEventsPush(rest, top);
    OpenEventsPush(rest, top.(children := AddText(top.children, text)));
    Regroup(OpenEvents(rest), [Start(top.name, top.attrs)], ChildEvents(top.children), [Chars(text)]);
  }

  lemma CharsSeen(st: State, text: string)
    requires GoodState(st) && !Blank(text) && Step(st, Chars(text)).Ok?
    ensures GoodState(Step(st, Chars(text)).value)
    ensures Seen(Step(st, Chars(text)).value) == Append(Seen(st), Chars(text))
  {
    var top, rest := Top(st.stack), Rest(st.stack);
    assert st.stack == rest + [top];
    assert WellFormed(top);
    AddTextEvents(top.children, text);
    SeenOpen(st);
    SeenOpen(Step(st, Chars(text)).value);
    LastEvent(st);
    if top.children != [] && top.children[|top.children| - 1].Text? {
      TextJoinsOpen(rest, top, text);
    } else {
      TextStartsOpen(rest, top, text);
    }
  }

  lemma StepSeen(st: State, tok: Token)
    requires GoodState(st) && Step(st, tok).Ok?
    ensures GoodState(Step(st, tok).value) && Seen(Step(st, tok).value) == Append(Seen(st), tok)
  {
    match tok
    case Misc =>
    case Start(name, attrs) => StartSeen(st, name, attrs);
    case End(name) => EndSeen(st, name);
    case Chars(text) => if !Blank(text) { CharsSeen(st, text); }
  }

  lemma {:induction false} RunSeen(tokens: seq<Token>)
    requires Run(INITIAL, tokens).Ok?
    ensures GoodState(Run(INITIAL, tokens).value) && Seen(Run(INITIAL, tokens).value) == Normal(tokens)
  {
    if tokens != [] {
      var init, tok := tokens[..|tokens| - 1], tokens[|tokens| - 1];
      assert tokens == init + [tok];
      RunSnoc(INITIAL, init, tok);
      RunSeen(init);
      var st := Run(INITIAL, init).value;
      RunOne(st, tok);
      StepSeen(st, tok);
    }
  }

  /** Running the events of children adds exactly these children to the innermost element. */
  lemma {:induction false} RunChildren(
    root: seq<Element>, outer: seq<Element>, e: Element, todo: seq<Child>
  )
    requires WellFormedChildren(e.children + todo)
    ensures Run(State(root, outer + [e]), ChildEvents(todo))
            == Ok(State(root, outer + [e.(children := e.children + todo)]))
    decreases todo, 0
  {
    if todo == [] {
      assert e.children + todo == e.children;
    } else {
      var c := todo[0];
      var e' := e.(children := e.children + [c]);
      assert e.children + todo == e'.children + todo[1..];
      assert (e.children + todo)[|e.children|] == c;
      assert e.children != [] ==> (e.children + todo)[|e.children| - 1] == e.children[|e.children| - 1];
      RunChild(root, outer, e, c);
      RunConcat(State(root, outer + [e]), ChildEvent(c), ChildEvents(todo[1..]));
      RunChildren(root, outer, e', todo[1..]);
    }
  }

  lemma {:induction false} RunChild(root: seq<Element>, outer: seq<Element>, e: Element, c: Child)
    requires WellFormedChild(c)
    requires e.children == [] || e.children[|e.children| - 1].Elem? || c.Elem?
    ensures Run(State(root, outer + [e]), ChildEvent(c)) == Ok(State(root, outer + [e.(children := e.children + [c])]))
    decreases c, 0
  {
    var st := State(root, outer + [e]);
    assert Top(st.stack) == e && Rest(st.stack) == outer;
    match c
    case Text(t) =>
      RunOne(st, Chars(t));
    case Elem(d) =>
      RunElement(st, d);
      RunOne(State(root, outer + [e] + [d]), End(d.name));
      assert Rest(outer + [e] + [d]) == outer + [e];
  }

  /** Running the events of an element up to its end tag leaves it open and complete. */
  lemma {:induction false} RunElement(st: State, d: Element)
    requires WellFormed(d) && (st.stack == [] ==> st.root == [])
    ensures Run(st, Events(d)) == Run(State(st.root, st.stack + [d]), [End(d.name)])
    decreases d, 1
  {
    var shell := Element(d.name, d.attrs, []);
    var st' := State(st.root, st.stack + [shell]);
    RunOne(st, Start(d.name, d.attrs));
    assert shell.children + d.children == d.children;
    RunChildren(st.root, st.stack, shell, d.children);
    RunConcat(st', ChildEvents(d.children), [End(d.name)]);
    assert Events(d) == [Start(d.name, d.attrs)] + (ChildEvents(d.children) + [End(d.name)]);
    RunConcat(st, [Start(d.name, d.attrs)], ChildEvents(d.children) + [End(d.name)]);
  }

  /** The parser accepts a token sequence with tree `t` exactly if the tokens that matter are the
      events of `t` and `t` is well formed. */
  lemma ParseExactly(tokens: seq<Token>, t: Element)
    ensures Parse(tokens) == Ok(t) <==> WellFormed(t) && Normal(tokens) == Events(t)
  {
    if Parse(tokens) == Ok(t) {
      RunSeen(tokens);
      assert OpenEvents([]) == [];
      assert Events(t) + [] == Events(t);
    }
    if WellFormed(t) && Normal(tokens) == Events(t) {
      NormalDecides(tokens);
      RunElement(INITIAL, t);
      assert [] + [t] == [t];
      RunOne(State([], [t]), End(t.name));
      assert Rest([t]) == [];
    }
  }
}
