/** Carriage returns in Torznab documents: section 2.11 of XML 1.0 has line ends translated before
    parsing, the decoder translates them while it reads, and the writer leaves them alone. */
module TorznabReturns {
  import opened Options
  import opened Strings
  import opened TorznabTree
  import opened TorznabText
  import opened TorznabNormal

  /** Carriage returns, alone or before a line feed, become line feeds. */
  function Eol(s: string): (r: string)
    ensures r == [] <==> s == []
    ensures NoReturn(r)
    decreases |s|
  {
    if s == [] then []
    else if s[0] == '\r' then ['\n'] + Eol(if |s| > 1 && s[1] == '\n' then s[2..] else s[1..])
    else [s[0]] + Eol(s[1..])
  }

  lemma EolStep(s: string)
    requires s != [] && s[0] != '\r'
    ensures Eol(s) == [s[0]] + Eol(s[1..]) && Eol(s)[0] == s[0] && Eol(s)[1..] == Eol(s[1..])
  {
  }

  lemma {:induction false} EolOfClean(s: string)
    requires NoReturn(s)
    ensures Eol(s) == s
  {
    if s != [] {
      EolOfClean(s[1..]);
      EolStep(s);
      assert s == [s[0]] + s[1..];
    }
  }

  // --------------------------------------------------------------------------------------
  // Reading translated text
  // --------------------------------------------------------------------------------------

  lemma {:induction false} TakeNameEol(s: string)
    ensures TakeName(Eol(s)) == Piece(TakeName(s).value, Eol(TakeName(s).rest))
  {
    if s != [] && NameChar(s[0]) {
      EolStep(s);
      TakeNameEol(s[1..]);
    } else if s != [] {
      assert Eol(s)[0] == s[0] || Eol(s)[0] == '\n';
    }
  }

  lemma {:induction false} SkipSpaceEol(s: string)
    ensures SkipSpace(Eol(s)) == Eol(SkipSpace(s))
    decreases |s|
  {
    if s == [] {
    } else if s[0] == '\r' {
      var t := if |s| > 1 && s[1] == '\n' then s[2..] else s[1..];
      assert Eol(s) == ['\n'] + Eol(t);
      assert Eol(s)[1..] == Eol(t);
      SkipSpaceEol(t);
      if |s| > 1 && s[1] == '\n' {
        assert s[1..][1..] == s[2..];
        assert SkipSpace(s[1..]) == SkipSpace(s[2..]);
      }
    } else if XmlSpace(s[0]) {
      EolStep(s);
      SkipSpaceEol(s[1..]);
    } else {
      EolStep(s);
    }
  }

  predicate StartsWith(s: string, w: string) {
    |s| >= |w| && s[..|w|] == w
  }

  predicate OneLine(w: string) {
    forall k :: 0 <= k < |w| ==> w[k] != '\r' && w[k] != '\n'
  }

  lemma StartsWithStep(s: string, w: string)
    requires w != []
    ensures StartsWith(s, w) <==> s != [] && s[0] == w[0] && StartsWith(s[1..], w[1..])
  {
    if s != [] && |s| >= |w| {
      assert s[..|w|] == [s[0]] + s[1..][..|w| - 1];
      assert w == [w[0]] + w[1..];
    }
  }

  lemma {:induction false} StartsWithEol(s: string, w: string)
    requires OneLine(w)
    ensures StartsWith(Eol(s), w) <==> StartsWith(s, w)
    ensures StartsWith(s, w) ==> Eol(s)[|w|..] == Eol(s[|w|..])
    decreases |w|
  {
    if w != [] {
      StartsWithStep(s, w);
      StartsWithStep(Eol(s), w);
      if s != [] && s[0] != '\r' {
        EolStep(s);
        StartsWithEol(s[1..], w[1..]);
        if StartsWith(s, w) {
          assert Eol(s)[|w|..] == Eol(s)[1..][|w| - 1..];
          assert s[|w|..] == s[1..][|w| - 1..];
        }
      }
    }
  }

  /** A piece whose rest is translated. */
  function Translated<T>(r: Option<Piece<T>>): Option<Piece<T>> {
    match r
    case None => None
    case Some(p) => Some(Piece(p.value, Eol(p.rest)))
  }

  lemma EntitiesAreOneLine()
    ensures OneLine("amp;") && OneLine("lt;") && OneLine("gt;") && OneLine("quot;") && OneLine("apos;")
  {
  }

  lemma EntityEol(s: string)
    ensures Entity(Eol(s)) == Translated(Entity(s))
  {
    EntitiesAreOneLine();
    StartsWithEol(s, "amp;");
    StartsWithEol(s, "lt;");
    StartsWithEol(s, "gt;");
    StartsWithEol(s, "quot;");
    StartsWithEol(s, "apos;");
  }

  lemma ReadOneEol(s: string)
    requires s != []
    ensures ReadOne(Eol(s)) == Translated(ReadOne(s))
  {
    if s[0] == '&' {
      EolStep(s);
      EntityEol(s[1..]);
    } else if s[0] == '\r' {
      var t := if |s| > 1 && s[1] == '\n' then s[2..] else s[1..];
      assert Eol(s) == ['\n'] + Eol(t);
      assert Eol(s)[1..] == Eol(t);
    } else {
      EolStep(s);
    }
  }

  lemma {:induction false} ReadValueEol(s: string, quote: char, acc: string)
    requires quote == '"' || quote == '\''
    ensures ReadValue(Eol(s), quote, acc) == Translated(ReadValue(s, quote, acc))
    decreases |s|
  {
    if s == [] {
    } else if s[0] == quote || s[0] == '<' {
      EolStep(s);
    } else {
      ReadOneEol(s);
      assert Eol(s)[0] == s[0] || Eol(s)[0] == '\n';
      var r := ReadOne(s);
      if r.Some? {
        ReadValueEol(r.value.rest, quote, acc + [r.value.value]);
      }
    }
  }

  function TranslatedTag(r: Option<Tag>): Option<Tag> {
    match r
    case None => None
    case Some(t) => Some(t.(rest := Eol(t.rest)))
  }

  lemma AfterFirst(s: string)
    requires s != [] && s[0] != '\r'
    ensures Eol(s) != [] && Eol(s)[0] == s[0] && Eol(s)[1..] == Eol(s[1..])
    ensures |s| > 1 && s[1] != '\r' ==> |Eol(s)| > 1 && Eol(s)[1] == s[1] && Eol(s)[2..] == Eol(s[2..])
    ensures |Eol(s)| > 1 && Eol(s)[1] != '\n' ==> |s| > 1 && s[1] == Eol(s)[1]
  {
    EolStep(s);
    if |s| > 1 {
      assert s[1..][0] == s[1] && s[1..][1..] == s[2..];
      assert Eol(s)[2..] == Eol(s)[1..][1..];
      if s[1] != '\r' {
        EolStep(s[1..]);
      }
    }
  }

  /** The first character after translation tells the first character before, unless it is a line end. */
  lemma FirstEol(s: string, c: char)
    requires c != '\n' && c != '\r'
    ensures (s != [] && s[0] == c) <==> (Eol(s) != [] && Eol(s)[0] == c)
  {
  }

  lemma {:induction false} ReadAttrsEol(s0: string, attrs: seq<Attr>)
    ensures ReadAttrs(Eol(s0), attrs) == TranslatedTag(ReadAttrs(s0, attrs))
    decreases |s0|
  {
    SkipSpaceEol(s0);
    var s := SkipSpace(s0);
    FirstEol(s, '>');
    FirstEol(s, '/');
    if s == [] {
    } else if s[0] == '>' || s[0] == '/' {
      AfterFirst(s);
    } else {
      OneAttrEol(s, attrs);
      var r := OneAttr(s);
      if r.Some? {
        ReadAttrsEol(r.value.rest, attrs + [r.value.value]);
      }
    }
  }

  /** One attribute of a start tag. */
  function OneAttr(s: string): (r: Option<Piece<Attr>>)
    ensures r.Some? ==> |r.value.rest| < |s|
  {
    var name := TakeName(s);
    var eq := SkipSpace(name.rest);
    if name.value == [] || eq == [] || eq[0] != '=' then None
    else
      var q := SkipSpace(eq[1..]);
      if q == [] || (q[0] != '"' && q[0] != '\'') then None
      else
        match ReadValue(q[1..], q[0], [])
        case None => None
        case Some(v) => Some(Piece(Attr(name.value, v.value), v.rest))
  }

  lemma OneAttrEol(s: string, attrs: seq<Attr>)
    ensures OneAttr(Eol(s)) == Translated(OneAttr(s))
  {
    TakeNameEol(s);
    var name := TakeName(s);
    SkipSpaceEol(name.rest);
    var eq := SkipSpace(name.rest);
    FirstEol(eq, '=');
    if eq != [] && eq[0] == '=' {
      EolStep(eq);
      SkipSpaceEol(eq[1..]);
      var q := SkipSpace(eq[1..]);
      FirstEol(q, '"');
      FirstEol(q, '\'');
      if q != [] && (q[0] == '"' || q[0] == '\'') {
        EolStep(q);
        ReadValueEol(q[1..], q[0], []);
      }
    }
  }

  /** Translating line ends first makes no difference to the decoder. */
  lemma {:induction false} LexEol(s: string, acc: string)
    ensures Lex(Eol(s), acc) == Lex(s, acc)
    decreases |s|
  {
    FirstEol(s, '<');
    if s == [] {
    } else if s[0] == '<' {
      AfterFirst(s);
      if |s| > 1 && s[1] == '/' {
        TakeNameEol(s[2..]);
        var name := TakeName(s[2..]);
        SkipSpaceEol(name.rest);
        var gt := SkipSpace(name.rest);
        FirstEol(gt, '>');
        if gt != [] && gt[0] == '>' {
          EolStep(gt);
          LexEol(gt[1..], []);
        }
      } else {
        TakeNameEol(s[1..]);
        var name := TakeName(s[1..]);
        ReadAttrsEol(name.rest, []);
        var tag := ReadAttrs(name.rest, []);
        if tag.Some? {
          LexEol(tag.value.rest, []);
        }
      }
    } else {
      ReadOneEol(s);
      var r := ReadOne(s);
      if r.Some? {
        LexEol(r.value.rest, acc + [r.value.value]);
      }
    }
  }

  // --------------------------------------------------------------------------------------
  // Translating written text
  // --------------------------------------------------------------------------------------

  lemma EolReturn(w: string)
    ensures Eol(['\r', '\n'] + w) == ['\n'] + Eol(w)
    ensures w == [] || w[0] != '\n' ==> Eol(['\r'] + w) == ['\n'] + Eol(w)
  {
    assert (['\r', '\n'] + w)[2..] == w;
    assert (['\r'] + w)[1..] == w;
  }

  lemma EolPlain(c: char, w: string)
    requires c != '\r'
    ensures Eol([c] + w) == [c] + Eol(w)
  {
    assert ([c] + w)[1..] == w;
  }

  lemma ConcatStep(x: string, y: string, t: string, b: string)
    requires Eol(t + b) == Eol(t) + Eol(b)
    requires Eol(x + t) == y + Eol(t) && Eol(x + (t + b)) == y + Eol(t + b)
    ensures Eol((x + t) + b) == Eol(x + t) + Eol(b)
  {
    Associative(x, t, b);
    Associative(y, Eol(t), Eol(b));
  }

  /** Translation works piece by piece unless a line end is split. */
  lemma {:induction false} EolConcat(a: string, b: string)
    requires a == [] || a[|a| - 1] != '\r' || b == [] || b[0] != '\n'
    ensures Eol(a + b) == Eol(a) + Eol(b)
    decreases |a|
  {
    if a == [] {
      assert a + b == b;
    } else if a[0] == '\r' && |a| > 1 && a[1] == '\n' {
      var t := a[2..];
      EolConcat(t, b);
      EolReturn(t);
      EolReturn(t + b);
      ConcatStep(['\r', '\n'], ['\n'], t, b);
      assert a == ['\r', '\n'] + t;
    } else {
      EolConcat(a[1..], b);
      FirstConcat(a[0], a[1..], b);
      assert a == [a[0]] + a[1..];
    }
  }

  lemma FirstConcat(c: char, t: string, b: string)
    requires Eol(t + b) == Eol(t) + Eol(b)
    requires c == '\r' ==> (t == [] || t[0] != '\n') && (t + b == [] || (t + b)[0] != '\n')
    ensures Eol(([c] + t) + b) == Eol([c] + t) + Eol(b)
  {
    if c == '\r' {
      EolReturn(t);
      EolReturn(t + b);
      ConcatStep(['\r'], ['\n'], t, b);
    } else {
      EolPlain(c, t);
      EolPlain(c, t + b);
      ConcatStep([c], [c], t, b);
    }
  }

  /** Text that the writer puts around values: no carriage return, and no line feed in front. */
  lemma EolBefore(a: string, b: string)
    requires NoReturn(a)
    ensures Eol(a + b) == a + Eol(b)
  {
    EolConcat(a, b);
    EolOfClean(a);
  }

  lemma EolAfter(a: string, b: string)
    requires NoReturn(b) && (b == [] || b[0] != '\n')
    ensures Eol(a + b) == Eol(a) + b
  {
    EolConcat(a, b);
    EolOfClean(b);
  }

  lemma EscapeLineEnd(c: char, w: string, attribute: bool)
    requires c == '\r' || c == '\n'
    ensures Escape([c] + w, attribute) == [c] + Escape(w, attribute)
  {
    EscapeOne(c, w, attribute);
  }

  lemma EscapeReturn(v: string, attribute: bool)
    requires v != [] && v[0] == '\r'
    ensures Escape(v, attribute) == ['\r'] + Escape(v[1..], attribute)
    ensures |v| > 1 && v[1] == '\n' ==> Escape(v, attribute) == ['\r', '\n'] + Escape(v[2..], attribute)
  {
    assert v == ['\r'] + v[1..];
    EscapeLineEnd('\r', v[1..], attribute);
    if |v| > 1 && v[1] == '\n' {
      assert v[1..] == ['\n'] + v[2..];
      EscapeLineEnd('\n', v[2..], attribute);
      var w := Escape(v[2..], attribute);
      assert ['\r'] + (['\n'] + w) == ['\r', '\n'] + w;
    }
  }

  lemma {:induction false} EscapeEol(v: string, attribute: bool)
    ensures Eol(Escape(v, attribute)) == Escape(Eol(v), attribute)
    decreases |v|
  {
    if v == [] {
    } else if v[0] == '\r' {
      var t := if |v| > 1 && v[1] == '\n' then v[2..] else v[1..];
      EscapeEol(t, attribute);
      EscapeReturn(v, attribute);
      EscapeFirst(t, attribute);
      EolReturn(Escape(t, attribute));
      EscapeLineEnd('\n', Eol(t), attribute);
    } else {
      EscapePlain(v, attribute);
      EscapeEol(v[1..], attribute);
    }
  }

  lemma EscapedCharIsClean(c: char, attribute: bool)
    requires c != '\r'
    ensures NoReturn(EscapeChar(c, attribute))
  {
  }

  lemma EscapeOne(c: char, w: string, attribute: bool)
    ensures Escape([c] + w, attribute) == EscapeChar(c, attribute) + Escape(w, attribute)
  {
    assert ([c] + w)[1..] == w;
  }

  lemma EscapePlain(v: string, attribute: bool)
    requires v != [] && v[0] != '\r'
    ensures Eol(Escape(v, attribute)) == EscapeChar(v[0], attribute) + Eol(Escape(v[1..], attribute))
    ensures Escape(Eol(v), attribute) == EscapeChar(v[0], attribute) + Escape(Eol(v[1..]), attribute)
  {
    EolStep(v);
    EscapeOne(v[0], Eol(v[1..]), attribute);
    EscapedCharIsClean(v[0], attribute);
    var one, rest := EscapeChar(v[0], attribute), Escape(v[1..], attribute);
    EolBefore(one, rest);
  }

  lemma EscapeFirst(v: string, attribute: bool)
    ensures Escape(v, attribute) != [] && Escape(v, attribute)[0] == '\n' ==> v != [] && v[0] == '\n'
  {
  }

  function EolAttr(a: Attr): Attr {
    Attr(a.name, Eol(a.value))
  }

  function EolAttrs(attrs: seq<Attr>): (r: seq<Attr>)
    ensures |r| == |attrs| && forall k :: 0 <= k < |r| ==> r[k] == EolAttr(attrs[k])
  {
    if attrs == [] then [] else [EolAttr(attrs[0])] + EolAttrs(attrs[1..])
  }

  /** The tree with the line ends of all values and texts translated. */
  function EolTree(e: Element): Element
    decreases e, 1
  {
    Element(e.name, EolAttrs(e.attrs), EolChildren(e.children))
  }

  function EolChildren(cs: seq<Child>): (r: seq<Child>)
    ensures |r| == |cs|
    decreases cs, 0
  {
    if cs == [] then [] else [EolChild(cs[0])] + EolChildren(cs[1..])
  }

  function EolChild(c: Child): (r: Child)
    ensures r.Text? == c.Text?
    decreases c, 0
  {
    match c
    case Text(t) => Text(Eol(t))
    case Elem(e) => Elem(EolTree(e))
  }

  lemma {:induction false} EolChildrenAt(cs: seq<Child>, k: nat)
    requires k < |cs|
    ensures EolChildren(cs)[k] == EolChild(cs[k])
  {
    if k > 0 {
      EolChildrenAt(cs[1..], k - 1);
    }
  }

  lemma {:induction false} InsertEol(a: Attr, attrs: seq<Attr>)
    ensures Insert(EolAttr(a), EolAttrs(attrs)) == EolAttrs(Insert(a, attrs))
  {
    if attrs != [] && !Less(a.name, attrs[0].name) {
      InsertEol(a, attrs[1..]);
      assert EolAttrs(attrs)[1..] == EolAttrs(attrs[1..]);
    }
  }

  lemma {:induction false} SortAttrsEol(attrs: seq<Attr>)
    ensures SortAttrs(EolAttrs(attrs)) == EolAttrs(SortAttrs(attrs))
  {
    if attrs != [] {
      SortAttrsEol(attrs[1..]);
      assert EolAttrs(attrs)[1..] == EolAttrs(attrs[1..]);
      InsertEol(attrs[0], SortAttrs(attrs[1..]));
    }
  }

  lemma {:induction false} WriteAttrsEol(attrs: seq<Attr>)
    requires forall k :: 0 <= k < |attrs| ==> GoodName(attrs[k].name)
    ensures Eol(WriteAttrs(attrs)) == WriteAttrs(EolAttrs(attrs))
  {
    if attrs != [] {
      var a, tail := attrs[0], attrs[1..];
      WriteAttrsEol(tail);
      EscapeEol(a.value, true);
      OneAttrWritten(" " + a.name + "=\"", Escape(a.value, true), WriteAttrs(tail));
      assert EolAttrs(attrs)[1..] == EolAttrs(tail);
    }
  }

  lemma OneAttrWritten(head: string, value: string, tail: string)
    requires NoReturn(head)
    ensures Eol(head + value + "\"" + tail) == head + Eol(value) + "\"" + Eol(tail)
  {
    EolConcat(head + value + "\"", tail);
    EolAfter(head + value, "\"");
    EolBefore(head, value);
  }

  lemma NameIsClean(name: string)
    requires GoodName(name)
    ensures NoReturn(name)
  {
  }

  lemma WriteIs(e: Element, depth: nat)
    ensures Write(e, depth) == Indent(depth) + "<" + e.name + WriteAttrs(SortAttrs(e.attrs)) + BodyText(e, depth)
  {
  }

  lemma OpenTagIsClean(name: string, depth: nat)
    requires GoodName(name)
    ensures NoReturn(Indent(depth) + "<" + name)
  {
    IndentReturns(depth);
    NameIsClean(name);
  }

  lemma WriteAttrsSorted(e: Element)
    requires GoodNames(e)
    ensures Eol(WriteAttrs(SortAttrs(e.attrs))) == WriteAttrs(SortAttrs(EolTree(e).attrs))
  {
    SortedValues(e.attrs, SortAttrs(e.attrs));
    WriteAttrsEol(SortAttrs(e.attrs));
    SortAttrsEol(e.attrs);
  }

  /** The writer keeps line ends as they are: translating what it wrote is writing the translated tree. */
  lemma {:induction false} WriteEol(e: Element, depth: nat)
    requires WellFormed(e) && GoodNames(e) && NoMixedContent(e)
    ensures Eol(Write(e, depth)) == Write(EolTree(e), depth)
    decreases e, 1
  {
    WriteIs(e, depth);
    WriteIs(EolTree(e), depth);
    WriteAttrsSorted(e);
    BodyEol(e, depth);
    OpenTagIsClean(e.name, depth);
    BodyStart(e, depth);
    HeadEol(Indent(depth) + "<" + e.name, WriteAttrs(SortAttrs(e.attrs)), BodyText(e, depth));
  }

  lemma HeadEol(head: string, attrs: string, body: string)
    requires NoReturn(head) && body != [] && body[0] != '\n'
    ensures Eol(head + attrs + body) == head + Eol(attrs) + Eol(body)
  {
    EolConcat(head + attrs, body);
    EolBefore(head, attrs);
  }

  lemma BodyStart(e: Element, depth: nat)
    ensures BodyText(e, depth) != [] && BodyText(e, depth)[0] != '\n'
  {
  }

  lemma {:induction false} BodyEol(e: Element, depth: nat)
    requires WellFormed(e) && GoodNames(e) && NoMixedContent(e)
    ensures Eol(BodyText(e, depth)) == BodyText(EolTree(e), depth)
    decreases e, 0
  {
    NameIsClean(e.name);
    if e.children == [] {
      EolOfClean("/>\n");
    } else {
      EolChildrenAt(e.children, 0);
      if e.children[0].Text? {
        OneText(e);
        var t := e.children[0].text;
        EscapeEol(t, false);
        WriteOneText(e.children);
        WriteOneText(EolChildren(e.children));
        TextBodyEol(e.name, Escape(t, false));
      } else {
        assert NoMixedChildren(e.children);
        WriteChildrenEol(e.children, depth + 1);
        IndentReturns(depth);
        ParentBodyEol(e.name, WriteChildren(e.children, depth + 1), Indent(depth));
      }
    }
  }

  lemma WriteOneText(cs: seq<Child>)
    requires |cs| == 1 && cs[0].Text?
    ensures WriteTexts(cs) == Escape(cs[0].text, false)
  {
    assert cs[1..] == [];
  }

  lemma TextBodyEol(name: string, text: string)
    requires NoReturn(name)
    ensures Eol(">" + text + "</" + name + ">\n") == ">" + Eol(text) + "</" + name + ">\n"
  {
    EolAfter(">" + text, "</" + name + ">\n");
    EolBefore(">", text);
    assert ">" + text + "</" + name + ">\n" == (">" + text) + ("</" + name + ">\n");
    assert ">" + Eol(text) + "</" + name + ">\n" == (">" + Eol(text)) + ("</" + name + ">\n");
  }

  function CloseTag(indent: string, name: string): string {
    indent + "</" + name + ">\n"
  }

  lemma CloseTagIsClean(indent: string, name: string)
    requires NoReturn(name) && NoReturn(indent) && (indent == [] || indent[0] != '\n')
    ensures NoReturn(CloseTag(indent, name)) && CloseTag(indent, name) != [] && CloseTag(indent, name)[0] != '\n'
  {
  }

  lemma CloseTagGroups(open: string, kids: string, indent: string, name: string)
    ensures open + kids + indent + "</" + name + ">\n" == (open + kids) + CloseTag(indent, name)
  {
  }

  lemma ParentBodyEol(name: string, kids: string, indent: string)
    requires NoReturn(name) && NoReturn(indent) && (indent == [] || indent[0] != '\n')
    ensures Eol(">\n" + kids + indent + "</" + name + ">\n") == ">\n" + Eol(kids) + indent + "</" + name + ">\n"
  {
    CloseTagIsClean(indent, name);
    CloseTagGroups(">\n", kids, indent, name);
    CloseTagGroups(">\n", Eol(kids), indent, name);
    EolAfter(">\n" + kids, CloseTag(indent, name));
    EolBefore(">\n", kids);
  }

  lemma {:induction false} WriteChildrenEol(cs: seq<Child>, depth: nat)
    requires WellFormedChildren(cs) && NoMixedChildren(cs)
    requires forall k :: 0 <= k < |cs| ==> cs[k].Elem? && GoodNamesChild(cs[k])
    ensures Eol(WriteChildren(cs, depth)) == WriteChildren(EolChildren(cs), depth)
    decreases cs, 0
  {
    if cs != [] {
      WellFormedTail(cs);
      WriteChildEol(cs[0], depth);
      WriteChildrenEol(cs[1..], depth);
      WriteEnds(cs[0].element, depth);
      EolConcat(WriteChild(cs[0], depth), WriteChildren(cs[1..], depth));
      assert EolChildren(cs)[1..] == EolChildren(cs[1..]);
    }
  }

  lemma {:induction false} WriteChildEol(c: Child, depth: nat)
    requires WellFormedChild(c) && NoMixedChild(c) && c.Elem? && GoodNamesChild(c)
    ensures Eol(WriteChild(c, depth)) == WriteChild(EolChild(c), depth)
    decreases c, 0
  {
    WriteEol(c.element, depth);
  }

  /** Every written element ends in a line feed. */
  lemma WriteEnds(e: Element, depth: nat)
    ensures var w := Write(e, depth); w != [] && w[|w| - 1] == '\n'
  {
  }

  // --------------------------------------------------------------------------------------
  // Reading the normal form of any document back
  // --------------------------------------------------------------------------------------

  lemma {:induction false} BlankEol(t: string)
    ensures Blank(Eol(t)) <==> Blank(t)
    decreases |t|
  {
    if t == [] {
    } else if t[0] == '\r' {
      var rest := if |t| > 1 && t[1] == '\n' then t[2..] else t[1..];
      BlankEol(rest);
      BlankFirst('\n', Eol(rest));
      BlankFirst('\r', t[1..]);
      assert t == ['\r'] + t[1..];
      if |t| > 1 && t[1] == '\n' {
        assert t[1..] == ['\n'] + t[2..];
        BlankFirst('\n', t[2..]);
      }
    } else {
      BlankEol(t[1..]);
      EolStep(t);
      BlankFirst(t[0], Eol(t[1..]));
      BlankFirst(t[0], t[1..]);
      assert t == [t[0]] + t[1..];
    }
  }

  lemma BlankFirst(c: char, t: string)
    ensures Blank([c] + t) <==> IsSpace(c) && Blank(t)
  {
    if Blank([c] + t) {
      assert ([c] + t)[0] == c;
      forall k | 0 <= k < |t| ensures IsSpace(t[k]) { assert ([c] + t)[k + 1] == t[k]; }
    }
  }

  /** The translated tree is one that the writer and the reader agree on. */
  lemma {:induction false} EolTreeIsReadable(e: Element)
    requires WellFormed(e) && GoodNames(e) && NoMixedContent(e)
    ensures WellFormed(EolTree(e)) && Readable(EolTree(e))
    decreases e, 1
  {
    forall k | 0 <= k < |e.children|
      ensures EolTree(e).children[k] == EolChild(e.children[k])
      ensures WellFormedChild(EolChild(e.children[k])) && GoodNamesChild(EolChild(e.children[k]))
      ensures NoReturnsChild(EolChild(e.children[k])) && NoMixedChild(EolChild(e.children[k]))
    {
      EolChildrenAt(e.children, k);
      assert NoMixedChild(e.children[k]) && GoodNamesChild(e.children[k]) && WellFormedChild(e.children[k]);
      EolChildIsReadable(e.children[k]);
    }
    EolWellFormed(e);
    EolNoMixed(e);
  }

  lemma {:induction false} EolChildIsReadable(c: Child)
    requires WellFormedChild(c) && GoodNamesChild(c) && NoMixedChild(c)
    ensures WellFormedChild(EolChild(c)) && GoodNamesChild(EolChild(c))
    ensures NoReturnsChild(EolChild(c)) && NoMixedChild(EolChild(c))
    decreases c, 0
  {
    if c.Elem? {
      EolTreeIsReadable(c.element);
    } else {
      BlankEol(c.text);
    }
  }

  lemma EolWellFormed(e: Element)
    requires WellFormed(e)
    requires forall k :: 0 <= k < |e.children| ==> EolTree(e).children[k] == EolChild(e.children[k])
    requires forall k :: 0 <= k < |e.children| ==> WellFormedChild(EolChild(e.children[k]))
    ensures WellFormed(EolTree(e))
  {
    var cs, ds := e.children, EolTree(e).children;
    assert WellFormedChildren(cs);
    forall k | 0 <= k < |ds| - 1 ensures ds[k].Elem? || ds[k + 1].Elem? {
      assert ds[k] == EolChild(cs[k]) && ds[k + 1] == EolChild(cs[k + 1]);
    }
  }

  lemma EolNoMixed(e: Element)
    requires NoMixedContent(e)
    requires forall k :: 0 <= k < |e.children| ==> EolTree(e).children[k] == EolChild(e.children[k])
    requires forall k :: 0 <= k < |e.children| ==> NoMixedChild(EolChild(e.children[k]))
    ensures NoMixedContent(EolTree(e))
  {
    var cs, ds := e.children, EolTree(e).children;
    assert forall k :: 0 <= k < |cs| ==> ds[k].Text? == cs[k].Text?;
    SameKinds(cs, ds);
  }

  /** Reading the canonical text of any tree gives the sorted tree with its line ends translated. */
  lemma ReadBackAny(t: Element)
    requires WellFormed(t) && GoodNames(t) && NoMixedContent(t)
    ensures var r := Lex(Write(t, 0), []); r.Some? && Parse(r.value) == Ok(SortTree(EolTree(t)))
  {
    EolTreeIsReadable(t);
    WriteEol(t, 0);
    LexEol(Write(t, 0), []);
    ReadBack(EolTree(t));
  }

  /** For every document: normalizing its normal form again translates line ends and does nothing
      else, so from then on nothing changes. */
  lemma NormalizedAgain(tokens: seq<Token>)
    requires AllGood(tokens) && Normalize(tokens).Some?
    ensures var n := Normalize(tokens).value;
            NormalizeText(n) == Some(Eol(n)) && NormalizeText(Eol(n)) == Some(Eol(n))
  {
    var t := Parse(tokens).value;
    var n := Write(t, 0);
    TreeOf(tokens);
    ReadBackAny(t);
    WriteEol(t, 0);
    EolTreeIsReadable(t);
    SortTreeKeeps(EolTree(t), 0);
    LexEol(n, []);
  }
}
