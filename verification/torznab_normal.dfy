/** The Torznab normal form: what it forgets, and when applying it twice changes nothing. */
module TorznabNormal {
  import opened Options
  import opened Strings
  import opened TorznabTree
  import opened TorznabText

  /** The canonical text of a token stream; `None` for the parser's and the writer's errors. */
  function Normalize(tokens: seq<Token>): Option<string> {
    match Parse(tokens)
    case Err(_) => None
    case Ok(t) => if NoMixedContent(t) then Some(Write(t, 0)) else None
  }

  /** Normalizing a text. */
  function NormalizeText(text: string): Option<string> {
    match Lex(text, [])
    case None => None
    case Some(tokens) => Normalize(tokens)
  }

  // --------------------------------------------------------------------------------------
  // The writer
  // --------------------------------------------------------------------------------------

  class Buffer {
    var data: string

    constructor ()
      ensures data == []
    {
      data := [];
    }

    method Write(s: string)
      modifies this
      ensures data == old(data) + s
    {
      data := data + s;
    }

    method WriteEscaped(value: string, attribute: bool)
      modifies this
      ensures data == old(data) + Escape(value, attribute)
    {
      for i := 0 to |value|
        invariant data + Escape(value[i..], attribute) == old(data) + Escape(value, attribute)
      {
        assert value[i..][1..] == value[i + 1..];
        Associative(data, EscapeChar(value[i], attribute), Escape(value[i + 1..], attribute));
        match value[i] {
          case '&' => Write("&amp;");
          case '<' => Write("&lt;");
          case '>' => Write("&gt;");
          case '"' => if attribute { Write("&quot;"); } else { Write([value[i]]); }
          case _ => Write([value[i]]);
        }
      }
    }

    method WriteAttributes(attrs: seq<Attr>)
      modifies this
      ensures data == old(data) + WriteAttrs(attrs)
    {
      for i := 0 to |attrs|
        invariant data + WriteAttrs(attrs[i..]) == old(data) + WriteAttrs(attrs)
      {
        ghost var before := data;
        assert attrs[i..][1..] == attrs[i + 1..];
        Write(" ");
        Write(attrs[i].name);
        Write("=\"");
        WriteEscaped(attrs[i].value, true);
        Write("\"");
        GlueAttr(before, attrs[i].name, Escape(attrs[i].value, true), WriteAttrs(attrs[i + 1..]));
      }
    }

    method WriteTextChildren(children: seq<Child>)
      requires forall k :: 0 <= k < |children| ==> children[k].Text?
      modifies this
      ensures data == old(data) + WriteTexts(children)
    {
      for i := 0 to |children|
        invariant data + WriteTexts(children[i..]) == old(data) + WriteTexts(children)
      {
        assert children[i..][1..] == children[i + 1..];
        Associative(data, Escape(children[i].text, false), WriteTexts(children[i + 1..]));
        WriteEscaped(children[i].text, false);
      }
    }

    method WriteOpening(e: Element, depth: nat)
      modifies this
      ensures data == old(data) + Opening(e, depth)
    {
      var attrs := SortAttrs(e.attrs);
      Write(Indent(depth));
      Write("<");
      Write(e.name);
      WriteAttributes(attrs);
      GlueHead(old(data), Indent(depth), e.name, WriteAttrs(attrs));
    }

    method WriteClosing(name: string)
      modifies this
      ensures data == old(data) + ("</" + name + ">\n")
    {
      Write("</");
      Write(name);
      Write(">\n");
    }

    /** Fails exactly on mixed content; otherwise appends the canonical text. */
    method WriteElement(e: Element, depth: nat) returns (ok: bool)
      modifies this
      ensures ok == NoMixedContent(e)
      ensures ok ==> data == old(data) + TorznabText.Write(e, depth)
      decreases e, 1
    {
      WriteOpening(e, depth);
      if e.children == [] {
        Write("/>\n");
        WrittenEmpty(old(data), e, depth);
        return true;
      }
      var hasText, hasElements := Kinds(e.children);
      if hasText && hasElements {
        return false;
      }
      if hasText {
        Write(">");
        WriteTextChildren(e.children);
        WriteClosing(e.name);
        WrittenText(old(data), e, depth);
        return true;
      }
      Write(">\n");
      ok := WriteElements(e.children, depth + 1);
      if ok {
        Write(Indent(depth));
        WriteClosing(e.name);
        WrittenParent(old(data), e, depth);
      }
    }

    method WriteChildElement(c: Child, depth: nat) returns (ok: bool)
      requires c.Elem?
      modifies this
      ensures ok == NoMixedChild(c)
      ensures ok ==> data == old(data) + WriteChild(c, depth)
      decreases c, 0
    {
      ok := WriteElement(c.element, depth);
    }

    method WriteElements(children: seq<Child>, depth: nat) returns (ok: bool)
      requires forall k :: 0 <= k < |children| ==> children[k].Elem?
      modifies this
      ensures ok == NoMixedChildren(children)
      ensures ok ==> data == old(data) + WriteChildren(children, depth)
      decreases children, 0
    {
      for i := 0 to |children|
        invariant data + WriteChildren(children[i..], depth) == old(data) + WriteChildren(children, depth)
        invariant forall k :: 0 <= k < i ==> NoMixedChild(children[k])
      {
        assert children[i..][1..] == children[i + 1..];
        Associative(data, WriteChild(children[i], depth), WriteChildren(children[i + 1..], depth));
        ok := WriteChildElement(children[i], depth);
        if !ok {
          return false;
        }
      }
      return true;
    }
  }

  method Kinds(children: seq<Child>) returns (hasText: bool, hasElements: bool)
    ensures hasText <==> exists k :: 0 <= k < |children| && children[k].Text?
    ensures hasElements <==> exists k :: 0 <= k < |children| && children[k].Elem?
  {
    hasText, hasElements := false, false;
    for i := 0 to |children|
      invariant hasText <==> exists k :: 0 <= k < i && children[k].Text?
      invariant hasElements <==> exists k :: 0 <= k < i && children[k].Elem?
    {
      if children[i].Text? { hasText := true; } else { hasElements := true; }
    }
  }

  lemma GlueAttr(base: string, name: string, value: string, rest: string)
    ensures base + " " + name + "=\"" + value + "\"" + rest == base + (" " + name + "=\"" + value + "\"" + rest)
  {
  }

  lemma GlueHead(base: string, indent: string, name: string, attrs: string)
    ensures base + indent + "<" + name + attrs == base + (indent + "<" + name + attrs)
  {
  }

  function Opening(e: Element, depth: nat): string {
    Indent(depth) + "<" + e.name + WriteAttrs(SortAttrs(e.attrs))
  }

  lemma WrittenEmpty(base: string, e: Element, depth: nat)
    requires e.children == []
    ensures base + Opening(e, depth) + "/>\n" == base + Write(e, depth)
    ensures NoMixedContent(e)
  {
  }

  lemma WrittenText(base: string, e: Element, depth: nat)
    requires e.children != [] && forall k :: 0 <= k < |e.children| ==> e.children[k].Text?
    ensures base + Opening(e, depth) + ">" + WriteTexts(e.children) + ("</" + e.name + ">\n") == base + Write(e, depth)
    ensures NoMixedContent(e)
  {
    Glue5(base, Opening(e, depth), ">", WriteTexts(e.children), e.name);
  }

  lemma WrittenParent(base: string, e: Element, depth: nat)
    requires e.children != [] && e.children[0].Elem?
    ensures base + Opening(e, depth) + ">\n" + WriteChildren(e.children, depth + 1) + Indent(depth)
            + ("</" + e.name + ">\n") == base + Write(e, depth)
  {
  }

  lemma Glue5(a: string, b: string, c: string, d: string, name: string)
    ensures a + b + c + d + ("</" + name + ">\n") == a + (b + (c + d + "</" + name + ">\n"))
  {
  }

  method NormalizeTorznabXML(tokens: seq<Token>) returns (r: Option<string>)
    ensures r == Normalize(tokens)
  {
    var root := ParseTorznabXML(tokens);
    if root.Err? {
      return None;
    }
    var out := new Buffer();
    var ok := out.WriteElement(root.value, 0);
    if !ok {
      return None;
    }
    assert [] + Write(root.value, 0) == Write(root.value, 0);
    return Some(out.data);
  }

  // --------------------------------------------------------------------------------------
  // Trees up to the order of attributes
  // --------------------------------------------------------------------------------------

  predicate SameButOrder(e: Element, f: Element)
    decreases e, 1
  {
    && e.name == f.name
    && multiset(e.attrs) == multiset(f.attrs)
    && SameChildren(e.children, f.children)
  }

  predicate SameChildren(cs: seq<Child>, ds: seq<Child>)
    decreases cs, 0
  {
    && |cs| == |ds|
    && (cs != [] ==> SameChild(cs[0], ds[0]) && SameChildren(cs[1..], ds[1..]))
  }

  predicate SameChild(c: Child, d: Child)
    decreases c, 0
  {
    match c
    case Text(t) => c == d
    case Elem(e) => d.Elem? && SameButOrder(e, d.element)
  }

  lemma SortedOrderForgotten(s: seq<Attr>, t: seq<Attr>)
    requires DistinctAttrs(s) && DistinctAttrs(t)
    ensures SortAttrs(s) == SortAttrs(t) <==> multiset(s) == multiset(t)
  {
    SortAttrsSorts(s);
    SortAttrsSorts(t);
    if multiset(s) == multiset(t) {
      SortedIsUnique(SortAttrs(s), SortAttrs(t));
    }
  }

  lemma WellFormedTail(cs: seq<Child>)
    requires cs != [] && WellFormedChildren(cs)
    ensures WellFormedChild(cs[0]) && WellFormedChildren(cs[1..])
  {
  }

  /** Sorting forgets the order of attributes and nothing else. */
  lemma {:induction false} SortTreeForgets(e: Element, f: Element)
    requires WellFormed(e) && WellFormed(f)
    ensures SortTree(e) == SortTree(f) <==> SameButOrder(e, f)
    decreases e, 1
  {
    SortedOrderForgotten(e.attrs, f.attrs);
    SortChildrenForgets(e.children, f.children);
  }

  lemma {:induction false} SortChildrenForgets(cs: seq<Child>, ds: seq<Child>)
    requires WellFormedChildren(cs) && WellFormedChildren(ds)
    ensures SortChildren(cs) == SortChildren(ds) <==> SameChildren(cs, ds)
    decreases cs, 0
  {
    if cs != [] && ds != [] {
      WellFormedTail(cs);
      WellFormedTail(ds);
      SortChildForgets(cs[0], ds[0]);
      SortChildrenForgets(cs[1..], ds[1..]);
      assert SortChildren(cs)[0] == SortChild(cs[0]) && SortChildren(cs)[1..] == SortChildren(cs[1..]);
      assert SortChildren(ds)[0] == SortChild(ds[0]) && SortChildren(ds)[1..] == SortChildren(ds[1..]);
    }
  }

  lemma {:induction false} SortChildForgets(c: Child, d: Child)
    requires WellFormedChild(c) && WellFormedChild(d)
    ensures SortChild(c) == SortChild(d) <==> SameChild(c, d)
    decreases c, 0
  {
    if c.Elem? && d.Elem? {
      SortTreeForgets(c.element, d.element);
    }
  }

  // --------------------------------------------------------------------------------------
  // What sorting keeps
  // --------------------------------------------------------------------------------------

  lemma SortedIsDistinct(attrs: seq<Attr>)
    requires DistinctAttrs(attrs)
    ensures DistinctAttrs(SortAttrs(attrs)) && SortAttrs(SortAttrs(attrs)) == SortAttrs(attrs)
  {
    var r := SortAttrs(attrs);
    SortAttrsSorts(attrs);
    forall i, j | 0 <= i < j < |r| ensures r[i].name != r[j].name {
      LessIrreflexive(r[i].name);
    }
    SortedOrderForgotten(r, attrs);
  }

  lemma {:induction false} SortChildrenAt(cs: seq<Child>, k: nat)
    requires k < |cs|
    ensures SortChildren(cs)[k] == SortChild(cs[k])
  {
    if k > 0 {
      SortChildrenAt(cs[1..], k - 1);
    }
  }

  /** The sorted tree is well-formed, has no mixed content if the tree has none, and has the same
      canonical text. */
  lemma {:induction false} SortTreeKeeps(e: Element, depth: nat)
    requires WellFormed(e)
    ensures WellFormed(SortTree(e)) && NoMixedContent(SortTree(e)) == NoMixedContent(e)
    ensures SortTree(SortTree(e)) == SortTree(e)
    ensures Write(SortTree(e), depth) == Write(e, depth)
    decreases e, 1
  {
    SortedIsDistinct(e.attrs);
    SortChildrenKeep(e.children, depth + 1);
    MixedKept(e.children, SortChildren(e.children));
    SameWrite(e, SortTree(e), depth);
  }

  lemma SameWrite(e: Element, f: Element, depth: nat)
    requires f == SortTree(e) && SortAttrs(f.attrs) == SortAttrs(e.attrs)
    requires WriteChildren(f.children, depth + 1) == WriteChildren(e.children, depth + 1)
    requires WriteTexts(f.children) == WriteTexts(e.children)
    ensures Write(f, depth) == Write(e, depth)
  {
    if e.children != [] {
      SortChildrenAt(e.children, 0);
    }
  }

  lemma {:induction false} MixedKept(cs: seq<Child>, ds: seq<Child>)
    requires ds == SortChildren(cs)
    ensures (forall k :: 0 <= k < |cs| ==> cs[k].Text?) == (forall k :: 0 <= k < |ds| ==> ds[k].Text?)
    ensures (forall k :: 0 <= k < |cs| ==> cs[k].Elem?) == (forall k :: 0 <= k < |ds| ==> ds[k].Elem?)
  {
    forall k | 0 <= k < |cs| ensures ds[k].Text? == cs[k].Text? {
      SortChildrenAt(cs, k);
    }
    SameKinds(cs, ds);
  }

  lemma SameKinds(cs: seq<Child>, ds: seq<Child>)
    requires |cs| == |ds| && forall k :: 0 <= k < |cs| ==> cs[k].Text? == ds[k].Text?
    ensures (forall k :: 0 <= k < |cs| ==> cs[k].Text?) == (forall k :: 0 <= k < |cs| ==> ds[k].Text?)
    ensures (forall k :: 0 <= k < |cs| ==> cs[k].Elem?) == (forall k :: 0 <= k < |cs| ==> ds[k].Elem?)
  {
  }

  lemma {:induction false} SortChildrenKeep(cs: seq<Child>, depth: nat)
    requires WellFormedChildren(cs)
    ensures WellFormedChildren(SortChildren(cs)) && NoMixedChildren(SortChildren(cs)) == NoMixedChildren(cs)
    ensures SortChildren(SortChildren(cs)) == SortChildren(cs)
    ensures WriteChildren(SortChildren(cs), depth) == WriteChildren(cs, depth)
    ensures WriteTexts(SortChildren(cs)) == WriteTexts(cs)
    decreases cs, 0
  {
    if cs != [] {
      WellFormedTail(cs);
      SortChildKeeps(cs[0], depth);
      SortChildrenKeep(cs[1..], depth);
      var r, tail := SortChildren(cs), SortChildren(cs[1..]);
      assert r == [SortChild(cs[0])] + tail && r[1..] == tail;
      AddFirst(SortChild(cs[0]), tail);
      AddFirst(cs[0], cs[1..]);
      assert cs == [cs[0]] + cs[1..];
      if |cs| > 1 {
        assert cs[0].Elem? || cs[1].Elem?;
        SortChildrenAt(cs[1..], 0);
      }
      AddFirstWellFormed(SortChild(cs[0]), tail);
    }
  }

  lemma AddFirst(c: Child, cs: seq<Child>)
    ensures NoMixedChildren([c] + cs) <==> NoMixedChild(c) && NoMixedChildren(cs)
  {
    if NoMixedChildren([c] + cs) {
      assert ([c] + cs)[0] == c;
      forall k | 0 <= k < |cs| ensures NoMixedChild(cs[k]) {
        assert ([c] + cs)[k + 1] == cs[k];
      }
    }
  }

  lemma AddFirstWellFormed(c: Child, cs: seq<Child>)
    requires WellFormedChild(c) && WellFormedChildren(cs) && (cs == [] || c.Elem? || cs[0].Elem?)
    ensures WellFormedChildren([c] + cs)
  {
  }

  lemma {:induction false} SortChildKeeps(c: Child, depth: nat)
    requires WellFormedChild(c)
    ensures WellFormedChild(SortChild(c)) && NoMixedChild(SortChild(c)) == NoMixedChild(c)
    ensures SortChild(SortChild(c)) == SortChild(c) && WriteChild(SortChild(c), depth) == WriteChild(c, depth)
    decreases c, 0
  {
    if c.Elem? {
      SortTreeKeeps(c.element, depth);
    }
  }

  // --------------------------------------------------------------------------------------
  // Reading the normal form back
  // --------------------------------------------------------------------------------------

  /** Reading and parsing the canonical text gives the tree with sorted attributes. */
  lemma ReadBack(t: Element)
    requires WellFormed(t) && Readable(t)
    ensures var r := Lex(Write(t, 0), []); r.Some? && Parse(r.value) == Ok(SortTree(t))
  {
    ReadTokens(t);
    ParseWritten(t);
  }

  lemma ReadTokens(t: Element)
    requires Readable(t)
    ensures Lex(Write(t, 0), []) == Some(Written(t, 0) + [Chars("\n")])
  {
    assert Write(t, 0) + [] == Write(t, 0);
    LexElement(t, 0, [], []);
    assert Lex([], "\n") == Some([Chars("\n")]);
    assert Flush([] + Indent(0)) + Written(t, 0) == Written(t, 0);
  }

  lemma ParseWritten(t: Element)
    requires WellFormed(t) && NoMixedContent(t)
    ensures Parse(Written(t, 0) + [Chars("\n")]) == Ok(SortTree(t))
  {
    NormalWritten(t);
    SortTreeKeeps(t, 0);
    ParseExactly(Written(t, 0) + [Chars("\n")], SortTree(t));
  }

  lemma NormalWritten(t: Element)
    requires WellFormed(t) && NoMixedContent(t)
    ensures Normal(Written(t, 0) + [Chars("\n")]) == Events(SortTree(t))
  {
    var ev := Events(SortTree(t));
    NormalIsAppendAll(Written(t, 0) + [Chars("\n")]);
    AppendAllConcat([], Written(t, 0), [Chars("\n")]);
    WrittenIsEvents([], t, 0);
    assert [] + ev == ev;
    AppendAllOne(ev, Chars("\n"));
    LineFeedVanishes(ev);
  }

  lemma LineFeedVanishes(ev: seq<Token>)
    ensures Append(ev, Chars("\n")) == ev
  {
  }

  // --------------------------------------------------------------------------------------
  // Carriage returns
  // --------------------------------------------------------------------------------------

  /** Names the decoder accepts. */
  predicate GoodToken(tok: Token) {
    && (tok.Start? ==> GoodName(tok.name) && forall k :: 0 <= k < |tok.attrs| ==> GoodName(tok.attrs[k].name))
    && (tok.End? ==> GoodName(tok.name))
  }

  /** No carriage return in an attribute value or in text that is kept. */
  predicate CleanToken(tok: Token) {
    && (tok.Start? ==> forall k :: 0 <= k < |tok.attrs| ==> NoReturn(tok.attrs[k].value))
    && (tok.Chars? && !Blank(tok.text) ==> NoReturn(tok.text))
  }

  predicate AllGood(tokens: seq<Token>) {
    forall k :: 0 <= k < |tokens| ==> GoodToken(tokens[k])
  }

  predicate AllClean(tokens: seq<Token>) {
    forall k :: 0 <= k < |tokens| ==> CleanToken(tokens[k])
  }

  lemma NoReturnConcat(a: string, b: string)
    ensures NoReturn(a + b) <==> NoReturn(a) && NoReturn(b)
  {
    if NoReturn(a + b) {
      forall k | 0 <= k < |a| ensures a[k] != '\r' { assert (a + b)[k] == a[k]; }
      forall k | 0 <= k < |b| ensures b[k] != '\r' { assert (a + b)[|a| + k] == b[k]; }
    }
  }

  lemma CleanConcat(a: seq<Token>, b: seq<Token>)
    ensures AllClean(a + b) <==> AllClean(a) && AllClean(b)
    ensures AllGood(a + b) <==> AllGood(a) && AllGood(b)
  {
    forall k | 0 <= k < |b| ensures (a + b)[|a| + k] == b[k] {}
    forall k | 0 <= k < |a| ensures (a + b)[k] == a[k] {}
  }

  lemma AppendKeeps(ev: seq<Token>, tok: Token)
    requires forall k :: 0 <= k < |ev| && ev[k].Chars? ==> !Blank(ev[k].text)
    ensures AllClean(Append(ev, tok)) <==> AllClean(ev) && CleanToken(tok)
    ensures AllGood(Append(ev, tok)) <==> AllGood(ev) && GoodToken(tok)
  {
    if tok.Misc? || (tok.Chars? && Blank(tok.text)) {
    } else if tok.Chars? && ev != [] && ev[|ev| - 1].Chars? {
      var init, a, b := ev[..|ev| - 1], ev[|ev| - 1].text, tok.text;
      assert ev == init + [Chars(a)];
      CleanConcat(init, [Chars(a)]);
      CleanConcat(init, [Chars(a + b)]);
      TextsJoin(INITIAL, a, b);
      NoReturnConcat(a, b);
      assert [Chars(a)][0] == Chars(a) && [Chars(a + b)][0] == Chars(a + b);
    } else {
      CleanConcat(ev, [tok]);
      assert [tok][0] == tok;
    }
  }

  lemma {:induction false} NormalKeeps(tokens: seq<Token>)
    ensures AllClean(Normal(tokens)) <==> AllClean(tokens)
    ensures AllGood(Normal(tokens)) <==> AllGood(tokens)
    decreases |tokens|
  {
    if tokens != [] {
      var init, tok := tokens[..|tokens| - 1], tokens[|tokens| - 1];
      NormalKeeps(init);
      NormalTexts(init);
      AppendKeeps(Normal(init), tok);
      LastAndInit(tokens, init, tok);
    }
  }

  lemma LastAndInit(tokens: seq<Token>, init: seq<Token>, tok: Token)
    requires tokens != [] && init == tokens[..|tokens| - 1] && tok == tokens[|tokens| - 1]
    ensures AllClean(tokens) <==> AllClean(init) && CleanToken(tok)
    ensures AllGood(tokens) <==> AllGood(init) && GoodToken(tok)
  {
  }

  lemma {:induction false} EventsTell(e: Element)
    requires WellFormed(e)
    ensures AllClean(Events(e)) <==> NoReturns(e)
    ensures AllGood(Events(e)) <==> GoodNames(e)
    decreases e, 1
  {
    var start, end := Start(e.name, e.attrs), End(e.name);
    CleanConcat([start] + ChildEvents(e.children), [end]);
    CleanConcat([start], ChildEvents(e.children));
    ChildEventsTell(e.children);
    assert [start][0] == start && [end][0] == end;
  }

  lemma {:induction false} ChildEventsTell(cs: seq<Child>)
    requires WellFormedChildren(cs)
    ensures AllClean(ChildEvents(cs)) <==> forall k :: 0 <= k < |cs| ==> NoReturnsChild(cs[k])
    ensures AllGood(ChildEvents(cs)) <==> forall k :: 0 <= k < |cs| ==> GoodNamesChild(cs[k])
    decreases cs, 0
  {
    if cs != [] {
      WellFormedTail(cs);
      CleanConcat(ChildEvent(cs[0]), ChildEvents(cs[1..]));
      ChildEventTells(cs[0]);
      ChildEventsTell(cs[1..]);
      FirstAndRest(cs);
    }
  }

  lemma FirstAndRest(cs: seq<Child>)
    requires cs != []
    ensures (forall k :: 0 <= k < |cs| ==> NoReturnsChild(cs[k]))
       <==> NoReturnsChild(cs[0]) && forall k :: 0 <= k < |cs[1..]| ==> NoReturnsChild(cs[1..][k])
    ensures (forall k :: 0 <= k < |cs| ==> GoodNamesChild(cs[k]))
       <==> GoodNamesChild(cs[0]) && forall k :: 0 <= k < |cs[1..]| ==> GoodNamesChild(cs[1..][k])
  {
    forall k | 0 <= k < |cs[1..]| ensures cs[1..][k] == cs[k + 1] {}
    forall k | 0 < k < |cs| ensures cs[k] == cs[1..][k - 1] {}
  }

  lemma {:induction false} ChildEventTells(c: Child)
    requires WellFormedChild(c)
    ensures AllClean(ChildEvent(c)) <==> NoReturnsChild(c)
    ensures AllGood(ChildEvent(c)) <==> GoodNamesChild(c)
    decreases c, 0
  {
    if c.Elem? {
      EventsTell(c.element);
    } else {
      assert [Chars(c.text)][0] == Chars(c.text);
    }
  }

  /** The writer keeps carriage returns. */
  lemma {:induction false} EscapeReturns(v: string, attribute: bool)
    ensures NoReturn(Escape(v, attribute)) <==> NoReturn(v)
  {
    if v != [] {
      EscapeReturns(v[1..], attribute);
      NoReturnConcat(EscapeChar(v[0], attribute), Escape(v[1..], attribute));
      NoReturnConcat([v[0]], v[1..]);
      assert v == [v[0]] + v[1..];
    }
  }

  lemma {:induction false} IndentReturns(depth: nat)
    ensures NoReturn(Indent(depth))
  {
    if depth > 0 { IndentReturns(depth - 1); }
  }

  lemma {:induction false} WriteAttrsReturns(attrs: seq<Attr>)
    requires forall k :: 0 <= k < |attrs| ==> GoodName(attrs[k].name)
    ensures NoReturn(WriteAttrs(attrs)) <==> forall k :: 0 <= k < |attrs| ==> NoReturn(attrs[k].value)
  {
    if attrs != [] {
      var a, tail := attrs[0], attrs[1..];
      WriteAttrsReturns(tail);
      EscapeReturns(a.value, true);
      NoReturnConcat(" " + a.name + "=\"" + Escape(a.value, true) + "\"", WriteAttrs(tail));
      NoReturnConcat(" " + a.name + "=\"" + Escape(a.value, true), "\"");
      NoReturnConcat(" " + a.name + "=\"", Escape(a.value, true));
      FirstAttrAndRest(attrs);
    }
  }

  lemma FirstAttrAndRest(attrs: seq<Attr>)
    requires attrs != []
    ensures (forall k :: 0 <= k < |attrs| ==> NoReturn(attrs[k].value))
       <==> NoReturn(attrs[0].value) && forall k :: 0 <= k < |attrs[1..]| ==> NoReturn(attrs[1..][k].value)
  {
    forall k | 0 <= k < |attrs[1..]| ensures attrs[1..][k] == attrs[k + 1] {}
    forall k | 0 < k < |attrs| ensures attrs[k] == attrs[1..][k - 1] {}
  }

  lemma {:induction false} SortedValues(attrs: seq<Attr>, r: seq<Attr>)
    requires r == SortAttrs(attrs)
    ensures (forall k :: 0 <= k < |attrs| ==> NoReturn(attrs[k].value))
       <==> (forall k :: 0 <= k < |r| ==> NoReturn(r[k].value))
    ensures (forall k :: 0 <= k < |attrs| ==> GoodName(attrs[k].name))
        ==> (forall k :: 0 <= k < |r| ==> GoodName(r[k].name))
  {
    forall k | 0 <= k < |r| ensures r[k] in attrs { SameNames(r, attrs, r[k]); }
    forall k | 0 <= k < |attrs| ensures attrs[k] in r { SameNames(r, attrs, attrs[k]); }
  }

  lemma {:induction false} WriteTextsReturns(cs: seq<Child>)
    requires forall k :: 0 <= k < |cs| ==> cs[k].Text?
    ensures NoReturn(WriteTexts(cs)) <==> forall k :: 0 <= k < |cs| ==> NoReturnsChild(cs[k])
  {
    if cs != [] {
      EscapeReturns(cs[0].text, false);
      WriteTextsReturns(cs[1..]);
      NoReturnConcat(Escape(cs[0].text, false), WriteTexts(cs[1..]));
      FirstAndRest(cs);
    }
  }

  lemma {:induction false} WriteReturns(e: Element, depth: nat)
    requires GoodNames(e) && NoMixedContent(e)
    ensures NoReturn(Write(e, depth)) <==> NoReturns(e)
    decreases e, 1
  {
    SortedValues(e.attrs, SortAttrs(e.attrs));
    WriteAttrsReturns(SortAttrs(e.attrs));
    HeadReturns(e.name, WriteAttrs(SortAttrs(e.attrs)), depth, BodyText(e, depth));
    BodyReturns(e, depth);
  }

  /** The canonical text of an element after its attributes. */
  function BodyText(e: Element, depth: nat): string {
    if e.children == [] then "/>\n"
    else if e.children[0].Text? then ">" + WriteTexts(e.children) + "</" + e.name + ">\n"
    else ">\n" + WriteChildren(e.children, depth + 1) + Indent(depth) + "</" + e.name + ">\n"
  }

  lemma {:induction false} BodyReturns(e: Element, depth: nat)
    requires GoodNames(e) && NoMixedContent(e)
    ensures NoReturn(BodyText(e, depth)) <==> forall k :: 0 <= k < |e.children| ==> NoReturnsChild(e.children[k])
    decreases e, 0
  {
    if e.children == [] {
    } else if e.children[0].Text? {
      WriteTextsReturns(e.children);
      TextReturns(e.name, WriteTexts(e.children));
    } else {
      assert NoMixedChildren(e.children);
      WriteChildrenReturns(e.children, depth + 1);
      ParentReturns(e.name, WriteChildren(e.children, depth + 1), depth);
    }
  }

  lemma HeadReturns(name: string, attrs: string, depth: nat, tail: string)
    requires GoodName(name)
    ensures NoReturn(Indent(depth) + "<" + name + attrs + tail) <==> NoReturn(attrs) && NoReturn(tail)
  {
    IndentReturns(depth);
    NoReturnConcat(Indent(depth) + "<" + name + attrs, tail);
    NoReturnConcat(Indent(depth) + "<" + name, attrs);
    NoReturnConcat(Indent(depth) + "<", name);
    NoReturnConcat(Indent(depth), "<");
  }

  lemma TextReturns(name: string, body: string)
    requires GoodName(name)
    ensures NoReturn(">" + body + "</" + name + ">\n") <==> NoReturn(body)
  {
    NoReturnConcat(">" + body + "</" + name, ">\n");
    NoReturnConcat(">" + body + "</", name);
    NoReturnConcat(">" + body, "</");
    NoReturnConcat(">", body);
  }

  lemma ParentReturns(name: string, body: string, depth: nat)
    requires GoodName(name)
    ensures NoReturn(">\n" + body + Indent(depth) + "</" + name + ">\n") <==> NoReturn(body)
  {
    IndentReturns(depth);
    NoReturnConcat(">\n" + body + Indent(depth) + "</" + name, ">\n");
    NoReturnConcat(">\n" + body + Indent(depth) + "</", name);
    NoReturnConcat(">\n" + body + Indent(depth), "</");
    NoReturnConcat(">\n" + body, Indent(depth));
    NoReturnConcat(">\n", body);
  }

  lemma {:induction false} WriteChildrenReturns(cs: seq<Child>, depth: nat)
    requires forall k :: 0 <= k < |cs| ==> cs[k].Elem? && GoodNamesChild(cs[k]) && NoMixedChild(cs[k])
    ensures NoReturn(WriteChildren(cs, depth)) <==> forall k :: 0 <= k < |cs| ==> NoReturnsChild(cs[k])
    decreases cs, 0
  {
    if cs != [] {
      WriteChildReturns(cs[0], depth);
      WriteChildrenReturns(cs[1..], depth);
      NoReturnConcat(WriteChild(cs[0], depth), WriteChildren(cs[1..], depth));
      FirstAndRest(cs);
    }
  }

  lemma {:induction false} WriteChildReturns(c: Child, depth: nat)
    requires c.Elem? && GoodNamesChild(c) && NoMixedChild(c)
    ensures NoReturn(WriteChild(c, depth)) <==> NoReturnsChild(c)
    decreases c, 0
  {
    WriteReturns(c.element, depth);
  }

  // The reader has none left.

  lemma {:induction false} TakeNameGood(s: string)
    ensures forall k :: 0 <= k < |TakeName(s).value| ==> NameChar(TakeName(s).value[k])
  {
    if s != [] && NameChar(s[0]) {
      TakeNameGood(s[1..]);
    }
  }

  lemma {:induction false} ReadValueClean(s: string, quote: char, acc: string)
    requires NoReturn(acc) && ReadValue(s, quote, acc).Some?
    ensures NoReturn(ReadValue(s, quote, acc).value.value)
    decreases |s|
  {
    if s[0] != quote {
      var p := ReadOne(s).value;
      ReadValueClean(p.rest, quote, acc + [p.value]);
    }
  }

  predicate CleanAttrs(attrs: seq<Attr>) {
    forall k :: 0 <= k < |attrs| ==> GoodName(attrs[k].name) && NoReturn(attrs[k].value)
  }

  lemma {:induction false} ReadAttrsClean(s0: string, attrs: seq<Attr>)
    requires CleanAttrs(attrs) && ReadAttrs(s0, attrs).Some?
    ensures CleanAttrs(ReadAttrs(s0, attrs).value.attrs)
    decreases |s0|
  {
    var s := SkipSpace(s0);
    if s[0] != '>' && s[0] != '/' {
      var name := TakeName(s);
      TakeNameGood(s);
      var q := SkipSpace(SkipSpace(name.rest)[1..]);
      ReadValueClean(q[1..], q[0], []);
      var v := ReadValue(q[1..], q[0], []).value;
      ReadAttrsClean(v.rest, attrs + [Attr(name.value, v.value)]);
    }
  }

  lemma CleanEnd(acc: string, name: string)
    requires NoReturn(acc) && GoodName(name)
    ensures AllClean(Flush(acc) + [End(name)]) && AllGood(Flush(acc) + [End(name)])
  {
  }

  lemma CleanStart(acc: string, name: string, tag: Tag)
    requires NoReturn(acc) && GoodName(name) && CleanAttrs(tag.attrs)
    ensures var tokens := Flush(acc) + [Start(name, tag.attrs)] + (if tag.closed then [End(name)] else []);
            AllClean(tokens) && AllGood(tokens)
  {
  }

  lemma {:induction false} LexClean(s: string, acc: string)
    requires NoReturn(acc) && Lex(s, acc).Some?
    ensures AllClean(Lex(s, acc).value) && AllGood(Lex(s, acc).value)
    decreases |s|
  {
    if s == [] {
    } else if s[0] == '<' {
      if |s| > 1 && s[1] == '/' {
        var name := TakeName(s[2..]);
        TakeNameGood(s[2..]);
        var rest := SkipSpace(name.rest)[1..];
        LexClean(rest, []);
        CleanEnd(acc, name.value);
        CleanConcat(Flush(acc) + [End(name.value)], Lex(rest, []).value);
      } else {
        var name := TakeName(s[1..]);
        TakeNameGood(s[1..]);
        ReadAttrsClean(name.rest, []);
        var tag := ReadAttrs(name.rest, []).value;
        LexClean(tag.rest, []);
        CleanStart(acc, name.value, tag);
        CleanConcat(Flush(acc) + [Start(name.value, tag.attrs)] + (if tag.closed then [End(name.value)] else []),
                    Lex(tag.rest, []).value);
      }
    } else {
      var p := ReadOne(s).value;
      LexClean(p.rest, acc + [p.value]);
    }
  }

  /** Whatever the tokens, the text of normalized read-back text has no carriage return. */
  lemma NormalizedTextIsClean(text: string)
    requires NormalizeText(text).Some?
    ensures NoReturn(NormalizeText(text).value)
  {
    var tokens := Lex(text, []).value;
    LexClean(text, []);
    var t := Parse(tokens).value;
    TreeOf(tokens);
    WriteReturns(t, 0);
  }

  lemma TreeOf(tokens: seq<Token>)
    requires Parse(tokens).Ok? && AllGood(tokens)
    ensures var t := Parse(tokens).value;
            WellFormed(t) && GoodNames(t) && (NoReturns(t) <==> AllClean(tokens))
  {
    var t := Parse(tokens).value;
    ParseExactly(tokens, t);
    NormalKeeps(tokens);
    EventsTell(t);
  }

  // --------------------------------------------------------------------------------------
  // Results
  // --------------------------------------------------------------------------------------

  /** Normalizing twice is normalizing once, exactly if no kept text and no attribute value has a
      carriage return: the decoder turns the carriage return the writer left into a line feed. */
  lemma StableExactly(tokens: seq<Token>)
    requires AllGood(tokens) && Normalize(tokens).Some?
    ensures NormalizeText(Normalize(tokens).value) == Normalize(tokens) <==> AllClean(tokens)
  {
    var t := Parse(tokens).value;
    TreeOf(tokens);
    WriteReturns(t, 0);
    if AllClean(tokens) {
      ReadBack(t);
      SortTreeKeeps(t, 0);
    } else if NormalizeText(Write(t, 0)).Some? {
      NormalizedTextIsClean(Write(t, 0));
    }
  }

  /** Documents with the same tree up to the order of attributes have the same normal form; and
      conversely when they hold no carriage returns. */
  lemma NormalFormForgetsOrder(s: seq<Token>, t: seq<Token>)
    requires AllGood(s) && AllGood(t) && Normalize(s).Some? && Normalize(t).Some?
    ensures SameButOrder(Parse(s).value, Parse(t).value) ==> Normalize(s) == Normalize(t)
    ensures AllClean(s) && AllClean(t) && Normalize(s) == Normalize(t) ==>
              SameButOrder(Parse(s).value, Parse(t).value)
  {
    var e, f := Parse(s).value, Parse(t).value;
    TreeOf(s);
    TreeOf(t);
    SortTreeForgets(e, f);
    SortTreeKeeps(e, 0);
    SortTreeKeeps(f, 0);
    if AllClean(s) && AllClean(t) {
      ReadBack(e);
      ReadBack(f);
    }
  }

  /** A mixed-content error depends on the tree up to order only. */
  lemma SameButOrderMixed(e: Element, f: Element)
    requires WellFormed(e) && WellFormed(f) && SameButOrder(e, f)
    ensures NoMixedContent(e) == NoMixedContent(f)
  {
    SortTreeForgets(e, f);
    SortTreeKeeps(e, 0);
    SortTreeKeeps(f, 0);
  }

  /** `<a/>` and `<a></a>` read the same. */
  lemma EmptyElementForms(name: string, attrs: seq<Attr>, rest: string, acc: string)
    requires GoodName(name) && CleanAttrs(attrs)
    ensures Lex("<" + name + WriteAttrs(attrs) + ("/>" + rest), acc)
            == Lex("<" + name + WriteAttrs(attrs) + (">" + ("</" + name + ">" + rest)), acc)
  {
    var end := "/>" + rest;
    assert end[2..] == rest;
    assert ReadAttrs(end, attrs) == Some(Tag(attrs, true, rest));
    LexStartTag(name, attrs, end, acc, Tag(attrs, true, rest));
    LexOpenTag(name, attrs, "</" + name + ">" + rest, acc);
    LexEndTag(name, rest, []);
    PrependTwice(Flush(acc) + [Start(name, attrs)], [End(name)], Lex(rest, []));
    assert Flush([]) + [End(name)] == [End(name)];
  }

  /** A carriage return that came from a character reference is written as it is, so it is lost when
      the text is read again. */
  lemma ReturnIsLost(tokens: seq<Token>)
    requires tokens == [Start("a", []), Chars("x\ry"), End("a")]
    ensures AllGood(tokens) && Normalize(tokens).Some?
    ensures NormalizeText(Normalize(tokens).value) != Normalize(tokens)
  {
    var t := Element("a", [], [Text("x\ry")]);
    ReturnTree(t, tokens);
    ReturnIsUnclean(tokens);
    StableExactly(tokens);
  }

  lemma ReturnIsUnclean(tokens: seq<Token>)
    requires tokens == [Start("a", []), Chars("x\ry"), End("a")]
    ensures AllGood(tokens) && !AllClean(tokens)
  {
    assert "x\ry"[0] == 'x' && "x\ry"[1] == '\r';
    assert !CleanToken(tokens[1]);
  }

  lemma ReturnTree(t: Element, tokens: seq<Token>)
    requires t == Element("a", [], [Text("x\ry")]) && tokens == [Start("a", []), Chars("x\ry"), End("a")]
    ensures Parse(tokens) == Ok(t)
  {
    ReturnEvents(t, tokens);
    ReturnNormal(tokens);
    ParseExactly(tokens, t);
  }

  lemma ReturnEvents(t: Element, tokens: seq<Token>)
    requires t == Element("a", [], [Text("x\ry")]) && tokens == [Start("a", []), Chars("x\ry"), End("a")]
    ensures WellFormed(t) && Events(t) == tokens
  {
    assert "x\ry"[0] == 'x';
    assert WellFormedChild(t.children[0]) && t.children[1..] == [];
    assert ChildEvents(t.children) == [Chars("x\ry")] + ChildEvents([]);
  }

  lemma ReturnNormal(tokens: seq<Token>)
    requires tokens == [Start("a", []), Chars("x\ry"), End("a")]
    ensures Normal(tokens) == tokens
  {
    var a, b, c := tokens[0], tokens[1], tokens[2];
    assert "x\ry"[0] == 'x';
    NormalIsAppendAll(tokens);
    assert tokens == [a, b] + [c];
    assert [a, b] == [a] + [b];
    AppendAllConcat([], [a, b], [c]);
    AppendAllConcat([], [a], [b]);
    AppendAllOne([], a);
    AppendAllOne([a], b);
    AppendAllOne([a, b], c);
  }

  // --------------------------------------------------------------------------------------
  // The layout of the canonical text
  // --------------------------------------------------------------------------------------

  lemma {:induction false} EscapeConcat(a: string, b: string, attribute: bool)
    ensures Escape(a + b, attribute) == Escape(a, attribute) + Escape(b, attribute)
  {
    if a == [] {
      assert a + b == b;
    } else {
      assert (a + b)[1..] == a[1..] + b;
      EscapeConcat(a[1..], b, attribute);
      Associative(EscapeChar(a[0], attribute), Escape(a[1..], attribute), Escape(b, attribute));
    }
  }

  lemma EscapeOneChar(c: char, attribute: bool)
    ensures Escape([c], attribute) == EscapeChar(c, attribute)
  {
    assert [c][1..] == [];
    assert EscapeChar(c, attribute) + [] == EscapeChar(c, attribute);
  }

  /** The characters that are escaped, and how; every other character stands for itself. */
  lemma EscapeTable(c: char, attribute: bool)
    ensures Escape("&", attribute) == "&amp;" && Escape("<", attribute) == "&lt;" && Escape(">", attribute) == "&gt;"
    ensures Escape("\"", true) == "&quot;"
    ensures c !in {'&', '<', '>'} && !(attribute && c == '"') ==> Escape([c], attribute) == [c]
  {
    EscapeOneChar('&', attribute);
    EscapeOneChar('<', attribute);
    EscapeOneChar('>', attribute);
    EscapeOneChar('"', true);
    EscapeOneChar(c, attribute);
  }

  /** `s` holds no angle bracket, and if `quoted` no quote. */
  predicate NoMarkup(s: string, quoted: bool) {
    forall k :: 0 <= k < |s| ==> s[k] != '<' && s[k] != '>' && !(quoted && s[k] == '"')
  }

  lemma NoMarkupConcat(a: string, b: string, quoted: bool)
    requires NoMarkup(a, quoted) && NoMarkup(b, quoted)
    ensures NoMarkup(a + b, quoted)
  {
  }

  lemma EscapedCharHasNoMarkup(c: char, attribute: bool)
    ensures NoMarkup(EscapeChar(c, attribute), attribute)
  {
  }

  /** A written value holds no angle bracket, and in an attribute no quote. */
  lemma {:induction false} EscapedHasNoMarkup(v: string, attribute: bool)
    ensures NoMarkup(Escape(v, attribute), attribute)
  {
    if v != [] {
      EscapedHasNoMarkup(v[1..], attribute);
      EscapedCharHasNoMarkup(v[0], attribute);
      NoMarkupConcat(EscapeChar(v[0], attribute), Escape(v[1..], attribute), attribute);
    }
  }

  /** A line of the canonical text. */
  datatype Line = Line(depth: nat, text: string)

  /** One line for an element without elements in it; otherwise a line for each tag and, one level
      deeper, the lines of its children. */
  function LinesOf(e: Element, depth: nat): seq<Line>
    decreases e, 1
  {
    var head := "<" + e.name + WriteAttrs(SortAttrs(e.attrs));
    if e.children == [] then [Line(depth, head + "/>")]
    else if e.children[0].Text? then [Line(depth, head + ">" + WriteTexts(e.children) + "</" + e.name + ">")]
    else [Line(depth, head + ">")] + ChildLines(e.children, depth + 1) + [Line(depth, "</" + e.name + ">")]
  }

  function ChildLines(children: seq<Child>, depth: nat): seq<Line>
    decreases children, 0
  {
    if children == [] then [] else LinesIn(children[0], depth) + ChildLines(children[1..], depth)
  }

  function LinesIn(c: Child, depth: nat): seq<Line>
    decreases c, 0
  {
    if c.Elem? then LinesOf(c.element, depth) else []
  }

  /** `n` spaces. */
  function Spaces(n: nat): string {
    seq(n, _ => ' ')
  }

  /** Each line with two spaces per level in front and a line feed behind. */
  function Layout(lines: seq<Line>): string {
    if lines == [] then []
    else Spaces(2 * lines[0].depth) + lines[0].text + "\n" + Layout(lines[1..])
  }

  lemma {:induction false} IndentIs(depth: nat)
    ensures Indent(depth) == Spaces(2 * depth)
  {
    if depth > 0 {
      IndentIs(depth - 1);
      assert "  " + Spaces(2 * (depth - 1)) == Spaces(2 * depth);
    }
  }

  lemma {:induction false} LayoutConcat(a: seq<Line>, b: seq<Line>)
    ensures Layout(a + b) == Layout(a) + Layout(b)
  {
    if a == [] {
      assert a + b == b;
    } else {
      assert (a + b)[1..] == a[1..] + b;
      LayoutConcat(a[1..], b);
      Associative(Spaces(2 * a[0].depth) + a[0].text + "\n", Layout(a[1..]), Layout(b));
    }
  }

  lemma LayoutOne(l: Line)
    ensures Layout([l]) == Spaces(2 * l.depth) + l.text + "\n"
  {
    assert [l][1..] == [];
    assert Layout([l]) == Spaces(2 * l.depth) + l.text + "\n" + [];
  }

  lemma HeadFirst(indent: string, name: string, attrs: string, tail: string)
    ensures indent + "<" + name + attrs + (tail + "\n") == indent + ("<" + name + attrs + tail) + "\n"
  {
  }

  /** The canonical text is laid out in lines, two spaces per level. */
  lemma {:induction false} WriteIsLayout(e: Element, depth: nat)
    ensures Write(e, depth) == Layout(LinesOf(e, depth))
    decreases e, 1
  {
    var head, attrs := "<" + e.name + WriteAttrs(SortAttrs(e.attrs)), WriteAttrs(SortAttrs(e.attrs));
    IndentIs(depth);
    if e.children == [] {
      LayoutOne(Line(depth, head + "/>"));
      HeadFirst(Indent(depth), e.name, attrs, "/>");
      assert "/>" + "\n" == "/>\n";
    } else if e.children[0].Text? {
      var tail := ">" + WriteTexts(e.children) + "</" + e.name + ">";
      LayoutOne(Line(depth, head + ">" + WriteTexts(e.children) + "</" + e.name + ">"));
      HeadFirst(Indent(depth), e.name, attrs, tail);
      TailText(head, WriteTexts(e.children), e.name);
    } else {
      WriteChildrenIsLayout(e.children, depth + 1);
      ParentIsLayout(e.name, attrs, depth, e.children);
    }
  }

  lemma TailText(head: string, text: string, name: string)
    ensures head + ">" + text + "</" + name + ">" == head + (">" + text + "</" + name + ">")
    ensures ">" + text + "</" + name + ">" + "\n" == ">" + text + "</" + name + ">\n"
  {
  }

  lemma ParentIsLayout(name: string, attrs: string, depth: nat, children: seq<Child>)
    requires WriteChildren(children, depth + 1) == Layout(ChildLines(children, depth + 1))
    ensures Indent(depth) + "<" + name + attrs
            + (">\n" + WriteChildren(children, depth + 1) + Indent(depth) + "</" + name + ">\n")
         == Layout([Line(depth, "<" + name + attrs + ">")] + ChildLines(children, depth + 1)
                   + [Line(depth, "</" + name + ">")])
  {
    var open, close := Line(depth, "<" + name + attrs + ">"), Line(depth, "</" + name + ">");
    var kids := ChildLines(children, depth + 1);
    IndentIs(depth);
    LayoutConcat([open] + kids, [close]);
    LayoutConcat([open], kids);
    LayoutOne(open);
    LayoutOne(close);
    ParentText(Indent(depth), name, attrs, Layout(kids));
  }

  lemma ParentText(indent: string, name: string, attrs: string, kids: string)
    ensures indent + "<" + name + attrs + (">\n" + kids + indent + "</" + name + ">\n")
         == (indent + ("<" + name + attrs + ">") + "\n") + kids + (indent + ("</" + name + ">") + "\n")
  {
  }

  lemma {:induction false} WriteChildrenIsLayout(children: seq<Child>, depth: nat)
    ensures WriteChildren(children, depth) == Layout(ChildLines(children, depth))
    decreases children, 0
  {
    if children != [] {
      WriteChildIsLayout(children[0], depth);
      WriteChildrenIsLayout(children[1..], depth);
      LayoutConcat(LinesIn(children[0], depth), ChildLines(children[1..], depth));
    }
  }

  lemma {:induction false} WriteChildIsLayout(c: Child, depth: nat)
    ensures WriteChild(c, depth) == Layout(LinesIn(c, depth))
    decreases c, 0
  {
    if c.Elem? {
      WriteIsLayout(c.element, depth);
    }
  }
}
