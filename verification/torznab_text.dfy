/** The canonical text of a Torznab tree, and reading that text back.

    `Lex` is a model of the XML decoder's raw tokenizer on elements, attributes, character data and
    the predefined entities, including the end-of-line handling of section 2.11 of XML 1.0. Input
    outside that fragment gives `None`; the canonical text stays inside it.
 */
module TorznabText {
  import opened Options
  import opened Strings
  import opened TorznabTree

  // --------------------------------------------------------------------------------------
  // Sorting attributes by name
  // --------------------------------------------------------------------------------------

  predicate Sorted(attrs: seq<Attr>) {
    forall i, j :: 0 <= i < j < |attrs| ==> Less(attrs[i].name, attrs[j].name)
  }

  function Insert(a: Attr, attrs: seq<Attr>): (r: seq<Attr>)
    ensures multiset(r) == multiset(attrs) + multiset{a}
  {
    if attrs == [] || Less(a.name, attrs[0].name) then
      [a] + attrs
    else
      assert attrs == [attrs[0]] + attrs[1..];
      [attrs[0]] + Insert(a, attrs[1..])
  }

  function SortAttrs(attrs: seq<Attr>): (r: seq<Attr>)
    ensures multiset(r) == multiset(attrs)
  {
    if attrs == [] then []
    else
      assert attrs == [attrs[0]] + attrs[1..];
      Insert(attrs[0], SortAttrs(attrs[1..]))
  }

  lemma {:induction false} InsertSorted(a: Attr, attrs: seq<Attr>)
    requires Sorted(attrs) && forall k :: 0 <= k < |attrs| ==> attrs[k].name != a.name
    ensures Sorted(Insert(a, attrs))
  {
    if attrs == [] {
    } else if Less(a.name, attrs[0].name) {
      forall j | 0 <= j < |attrs| ensures Less(a.name, attrs[j].name) {
        if j > 0 { LessTransitive(a.name, attrs[0].name, attrs[j].name); }
      }
    } else {
      LessTotal(a.name, attrs[0].name);
      InsertSorted(a, attrs[1..]);
      var r := Insert(a, attrs[1..]);
      forall j | 0 <= j < |r| ensures Less(attrs[0].name, r[j].name) {
        assert r[j] in multiset(r);
        assert r[j] in multiset(attrs[1..]) + multiset{a};
        if r[j] != a {
          assert r[j] in attrs[1..];
          var k :| 0 <= k < |attrs[1..]| && attrs[1..][k] == r[j];
          assert attrs[k + 1] == r[j];
        }
      }
    }
  }

  lemma SameNames(s: seq<Attr>, t: seq<Attr>, a: Attr)
    requires multiset(s) == multiset(t)
    ensures a in s <==> a in t
  {
    assert a in s <==> a in multiset(s);
    assert a in t <==> a in multiset(t);
  }

  lemma {:induction false} SortAttrsSorts(attrs: seq<Attr>)
    requires DistinctAttrs(attrs)
    ensures Sorted(SortAttrs(attrs))
  {
    if attrs != [] {
      SortAttrsSorts(attrs[1..]);
      var r := SortAttrs(attrs[1..]);
      forall k | 0 <= k < |r| ensures r[k].name != attrs[0].name {
        SameNames(r, attrs[1..], r[k]);
        var j :| 0 <= j < |attrs[1..]| && attrs[1..][j] == r[k];
        assert attrs[j + 1] == r[k];
      }
      InsertSorted(attrs[0], r);
    }
  }

  /** A set of attributes with distinct names has one sorted order, so any sorting algorithm
      computes `SortAttrs`. */
  lemma {:induction false} SortedIsUnique(s: seq<Attr>, t: seq<Attr>)
    requires Sorted(s) && Sorted(t) && multiset(s) == multiset(t)
    ensures s == t
  {
    assert |s| == |multiset(s)| == |multiset(t)| == |t|;
    if s != [] {
      FirstIsLeast(s, t);
      FirstIsLeast(t, s);
      LessTotal(s[0].name, t[0].name);
      SortedHasOneName(s, t);
      WithoutFirst(s);
      WithoutFirst(t);
      SortedIsUnique(s[1..], t[1..]);
    }
  }

  lemma WithoutFirst(s: seq<Attr>)
    requires s != []
    ensures s == [s[0]] + s[1..] && multiset(s[1..]) == multiset(s) - multiset{s[0]}
  {
  }

  lemma FirstIsLeast(s: seq<Attr>, t: seq<Attr>)
    requires Sorted(s) && s != [] && t != [] && multiset(s) == multiset(t)
    ensures s[0].name == t[0].name || Less(s[0].name, t[0].name)
  {
    SameNames(s, t, t[0]);
    var k :| 0 <= k < |s| && s[k] == t[0];
  }

  lemma SortedHasOneName(s: seq<Attr>, t: seq<Attr>)
    requires Sorted(s) && s != [] && t != [] && multiset(s) == multiset(t) && s[0].name == t[0].name
    ensures s[0] == t[0]
  {
    SameNames(s, t, t[0]);
    var k :| 0 <= k < |s| && s[k] == t[0];
    if k > 0 {
      LessIrreflexive(s[0].name);
    }
  }

  /** The tree with the attributes of every element sorted. */
  function SortTree(e: Element): Element
    decreases e, 1
  {
    Element(e.name, SortAttrs(e.attrs), SortChildren(e.children))
  }

  function SortChildren(children: seq<Child>): (r: seq<Child>)
    ensures |r| == |children|
    decreases children, 0
  {
    if children == [] then [] else [SortChild(children[0])] + SortChildren(children[1..])
  }

  function SortChild(c: Child): Child
    decreases c, 0
  {
    match c
    case Text(t) => c
    case Elem(e) => Elem(SortTree(e))
  }

  // --------------------------------------------------------------------------------------
  // The canonical text
  // --------------------------------------------------------------------------------------

  function EscapeChar(c: char, attribute: bool): string {
    match c
    case '&' => "&amp;"
    case '<' => "&lt;"
    case '>' => "&gt;"
    case '"' => if attribute then "&quot;" else [c]
    case _ => [c]
  }

  function Escape(s: string, attribute: bool): string {
    if s == [] then [] else EscapeChar(s[0], attribute) + Escape(s[1..], attribute)
  }

  function Indent(depth: nat): string {
    if depth == 0 then [] else "  " + Indent(depth - 1)
  }

  function WriteAttrs(attrs: seq<Attr>): string {
    if attrs == [] then []
    else " " + attrs[0].name + "=\"" + Escape(attrs[0].value, true) + "\"" + WriteAttrs(attrs[1..])
  }

  /** No element has both text and elements as children. */
  predicate NoMixedContent(e: Element)
    decreases e, 1
  {
    && ((forall k :: 0 <= k < |e.children| ==> e.children[k].Text?)
        || (forall k :: 0 <= k < |e.children| ==> e.children[k].Elem?))
    && NoMixedChildren(e.children)
  }

  predicate NoMixedChildren(children: seq<Child>)
    decreases children, 0
  {
    forall k :: 0 <= k < |children| ==> NoMixedChild(children[k])
  }

  predicate NoMixedChild(c: Child)
    decreases c, 0
  {
    c.Elem? ==> NoMixedContent(c.element)
  }

  function WriteTexts(children: seq<Child>): string {
    if children == [] then []
    else (if children[0].Text? then Escape(children[0].text, false) else []) + WriteTexts(children[1..])
  }

  /** The canonical text of an element without mixed content. */
  function Write(e: Element, depth: nat): string
    decreases e, 1
  {
    Indent(depth) + "<" + e.name + WriteAttrs(SortAttrs(e.attrs)) +
    (if e.children == [] then "/>\n"
     else if e.children[0].Text? then ">" + WriteTexts(e.children) + "</" + e.name + ">\n"
     else ">\n" + WriteChildren(e.children, depth + 1) + Indent(depth) + "</" + e.name + ">\n")
  }

  function WriteChildren(children: seq<Child>, depth: nat): string
    decreases children, 0
  {
    if children == [] then [] else WriteChild(children[0], depth) + WriteChildren(children[1..], depth)
  }

  function WriteChild(c: Child, depth: nat): string
    decreases c, 0
  {
    if c.Elem? then Write(c.element, depth) else []
  }

  // --------------------------------------------------------------------------------------
  // Reading text
  // --------------------------------------------------------------------------------------

  predicate NameChar(c: char) {
    || 'a' <= c <= 'z' || 'A' <= c <= 'Z' || '0' <= c <= '9'
    || c == '_' || c == ':' || c == '.' || c == '-'
    || c >= '\U{80}'
  }

  predicate XmlSpace(c: char) {
    c == ' ' || c == '\t' || c == '\n' || c == '\r'
  }

  /** A decoded piece of text and what follows it. */
  datatype Piece<+T> = Piece(value: T, rest: string)

  function TakeName(s: string): (p: Piece<string>)
    ensures |p.value| + |p.rest| == |s|
  {
    if s == [] || !NameChar(s[0]) then Piece([], s)
    else
      var p := TakeName(s[1..]);
      Piece([s[0]] + p.value, p.rest)
  }

  function SkipSpace(s: string): (r: string)
    ensures |r| <= |s|
  {
    if s != [] && XmlSpace(s[0]) then SkipSpace(s[1..]) else s
  }

  /** The character after an ampersand, for the five predefined entities. */
  function Entity(s: string): Option<Piece<char>> {
    if |s| >= 4 && s[..4] == "amp;" then Some(Piece('&', s[4..]))
    else if |s| >= 3 && s[..3] == "lt;" then Some(Piece('<', s[3..]))
    else if |s| >= 3 && s[..3] == "gt;" then Some(Piece('>', s[3..]))
    else if |s| >= 5 && s[..5] == "quot;" then Some(Piece('"', s[5..]))
    else if |s| >= 5 && s[..5] == "apos;" then Some(Piece('\'', s[5..]))
    else None
  }

  /** One character of text or attribute value. A carriage return, alone or before a line feed,
      is read as a line feed. */
  function ReadOne(s: string): (r: Option<Piece<char>>)
    requires s != []
    ensures r.Some? ==> |r.value.rest| < |s|
  {
    if s[0] == '&' then Entity(s[1..])
    else if s[0] == '\r' then
      Some(Piece('\n', if |s| > 1 && s[1] == '\n' then s[2..] else s[1..]))
    else Some(Piece(s[0], s[1..]))
  }

  function ReadValue(s: string, quote: char, acc: string): (r: Option<Piece<string>>)
    ensures r.Some? ==> |r.value.rest| < |s|
    decreases |s|
  {
    if s == [] then None
    else if s[0] == quote then Some(Piece(acc, s[1..]))
    else if s[0] == '<' then None
    else
      match ReadOne(s)
      case None => None
      case Some(p) => ReadValue(p.rest, quote, acc + [p.value])
  }

  datatype Tag = Tag(attrs: seq<Attr>, closed: bool, rest: string)

  /** The attributes of a start tag up to its `>` or `/>`. */
  function ReadAttrs(s0: string, attrs: seq<Attr>): (r: Option<Tag>)
    ensures r.Some? ==> |r.value.rest| < |s0|
    decreases |s0|
  {
    var s := SkipSpace(s0);
    if s == [] then None
    else if s[0] == '>' then Some(Tag(attrs, false, s[1..]))
    else if s[0] == '/' then
      if |s| > 1 && s[1] == '>' then Some(Tag(attrs, true, s[2..])) else None
    else
      var name := TakeName(s);
      var eq := SkipSpace(name.rest);
      if name.value == [] || eq == [] || eq[0] != '=' then None
      else
        var q := SkipSpace(eq[1..]);
        if q == [] || (q[0] != '"' && q[0] != '\'') then None
        else
          match ReadValue(q[1..], q[0], [])
          case None => None
          case Some(v) => ReadAttrs(v.rest, attrs + [Attr(name.value, v.value)])
  }

  /** The character data collected before a tag is a token unless it is empty. */
  function Flush(acc: string): seq<Token> {
    if acc == [] then [] else [Chars(acc)]
  }

  function Prepend(tokens: seq<Token>, r: Option<seq<Token>>): Option<seq<Token>> {
    match r
    case None => None
    case Some(rest) => Some(tokens + rest)
  }

  function Lex(s: string, acc: string): Option<seq<Token>>
    decreases |s|
  {
    if s == [] then Some(Flush(acc))
    else if s[0] == '<' then
      if |s| > 1 && s[1] == '/' then
        var name := TakeName(s[2..]);
        var gt := SkipSpace(name.rest);
        if name.value == [] || gt == [] || gt[0] != '>' then None
        else Prepend(Flush(acc) + [End(name.value)], Lex(gt[1..], []))
      else
        var name := TakeName(s[1..]);
        if name.value == [] then None
        else
          match ReadAttrs(name.rest, [])
          case None => None
          case Some(tag) =>
            Prepend(Flush(acc) + [Start(name.value, tag.attrs)] + (if tag.closed then [End(name.value)] else []),
                    Lex(tag.rest, []))
    else
      match ReadOne(s)
      case None => None
      case Some(p) => Lex(p.rest, acc + [p.value])
  }

  // --------------------------------------------------------------------------------------
  // Reading what was written
  // --------------------------------------------------------------------------------------

  predicate GoodName(name: string) {
    name != [] && forall k :: 0 <= k < |name| ==> NameChar(name[k])
  }

  predicate NoReturn(s: string) {
    forall k :: 0 <= k < |s| ==> s[k] != '\r'
  }

  /** Names the decoder accepts, in an element and all below it. */
  predicate GoodNames(e: Element)
    decreases e, 1
  {
    && GoodName(e.name)
    && (forall k :: 0 <= k < |e.attrs| ==> GoodName(e.attrs[k].name))
    && (forall k :: 0 <= k < |e.children| ==> GoodNamesChild(e.children[k]))
  }

  predicate GoodNamesChild(c: Child)
    decreases c, 0
  {
    c.Elem? ==> GoodNames(c.element)
  }

  /** No carriage return in any text or attribute value. */
  predicate NoReturns(e: Element)
    decreases e, 1
  {
    && (forall k :: 0 <= k < |e.attrs| ==> NoReturn(e.attrs[k].value))
    && (forall k :: 0 <= k < |e.children| ==> NoReturnsChild(e.children[k]))
  }

  predicate NoReturnsChild(c: Child)
    decreases c, 0
  {
    match c
    case Text(t) => NoReturn(t)
    case Elem(e) => NoReturns(e)
  }

  /** An escape consists of an ampersand and the entity's name. */
  lemma EntityIs(name: string, c: char, rest: string)
    requires (name, c) in {("amp;", '&'), ("lt;", '<'), ("gt;", '>'), ("quot;", '"')}
    ensures Entity(name + rest) == Some(Piece(c, rest))
    ensures (("&" + name) + rest)[1..] == name + rest
  {
    var s := name + rest;
    assert s[..|name|] == name && s[|name|..] == rest;
    assert s[0] == name[0];
    assert |s| >= 4 ==> s[..4][0] == s[0];
    assert s[..3][0] == s[0];
    assert (("&" + name) + rest)[1..] == s;
  }

  lemma ReadOneEscaped(c: char, attribute: bool, rest: string)
    requires c != '\r'
    ensures var s := EscapeChar(c, attribute) + rest;
            s != [] && s[0] != '<' && (attribute ==> s[0] != '"') && ReadOne(s) == Some(Piece(c, rest))
  {
    var s := EscapeChar(c, attribute) + rest;
    match c
    case '&' =>
      assert EscapeChar(c, attribute) == "&" + "amp;";
      EntityIs("amp;", '&', rest);
    case '<' =>
      assert EscapeChar(c, attribute) == "&" + "lt;";
      EntityIs("lt;", '<', rest);
    case '>' =>
      assert EscapeChar(c, attribute) == "&" + "gt;";
      EntityIs("gt;", '>', rest);
    case '"' =>
      if attribute {
        assert EscapeChar(c, attribute) == "&" + "quot;";
        EntityIs("quot;", '"', rest);
      } else {
        assert s[1..] == rest;
      }
    case _ => assert s[1..] == rest;
  }

  lemma MoveChar(acc: string, v: string)
    requires v != []
    ensures acc + [v[0]] + v[1..] == acc + v
  {
  }

  lemma EscapeCons(v: string, attribute: bool, rest: string)
    requires v != []
    ensures Escape(v, attribute) + rest == EscapeChar(v[0], attribute) + (Escape(v[1..], attribute) + rest)
  {
  }

  lemma {:induction false} LexEscaped(v: string, rest: string, acc: string)
    requires NoReturn(v)
    ensures Lex(Escape(v, false) + rest, acc) == Lex(rest, acc + v)
    decreases |v|
  {
    if v == [] {
      assert Escape(v, false) + rest == rest && acc + v == acc;
    } else {
      var tail := Escape(v[1..], false) + rest;
      EscapeCons(v, false, rest);
      ReadOneEscaped(v[0], false, tail);
      LexEscaped(v[1..], rest, acc + [v[0]]);
      MoveChar(acc, v);
    }
  }

  lemma {:induction false} ReadValueEscaped(v: string, rest: string, acc: string)
    requires NoReturn(v)
    ensures ReadValue(Escape(v, true) + rest, '"', acc) == ReadValue(rest, '"', acc + v)
    decreases |v|
  {
    if v == [] {
      assert Escape(v, true) + rest == rest && acc + v == acc;
    } else {
      var tail := Escape(v[1..], true) + rest;
      EscapeCons(v, true, rest);
      ReadOneEscaped(v[0], true, tail);
      ReadValueEscaped(v[1..], rest, acc + [v[0]]);
      MoveChar(acc, v);
    }
  }

  lemma {:induction false} TakeNameAll(name: string, rest: string)
    requires forall k :: 0 <= k < |name| ==> NameChar(name[k])
    requires rest == [] || !NameChar(rest[0])
    ensures TakeName(name + rest) == Piece(name, rest)
  {
    if name == [] {
      assert name + rest == rest;
    } else {
      TakeNameAll(name[1..], rest);
      assert (name + rest)[1..] == name[1..] + rest;
      assert name == [name[0]] + name[1..];
    }
  }

  lemma LexSpace(rest: string, acc: string)
    ensures Lex([' '] + rest, acc) == Lex(rest, acc + [' '])
  {
    assert ([' '] + rest)[1..] == rest;
  }

  lemma {:induction false} LexIndent(depth: nat, rest: string, acc: string)
    ensures Lex(Indent(depth) + rest, acc) == Lex(rest, acc + Indent(depth))
    decreases depth
  {
    if depth == 0 {
      assert Indent(0) + rest == rest && acc + Indent(0) == acc;
    } else {
      var tail := Indent(depth - 1) + rest;
      IndentStep(depth, rest, acc);
      LexSpace([' '] + tail, acc);
      LexSpace(tail, acc + [' ']);
      LexIndent(depth - 1, rest, acc + [' '] + [' ']);
    }
  }

  lemma IndentStep(depth: nat, rest: string, acc: string)
    requires depth > 0
    ensures Indent(depth) + rest == [' '] + ([' '] + (Indent(depth - 1) + rest))
    ensures acc + [' '] + [' '] + Indent(depth - 1) == acc + Indent(depth)
  {
  }

  /** Reading one written attribute. */
  lemma ReadAttrWritten(a: Attr, rest: string, acc: seq<Attr>)
    requires GoodName(a.name) && NoReturn(a.value)
    ensures ReadAttrs(" " + a.name + "=\"" + Escape(a.value, true) + "\"" + rest, acc)
            == ReadAttrs(rest, acc + [a])
  {
    var value := Escape(a.value, true) + ("\"" + rest);
    var eq := "=\"" + value;
    var s := a.name + eq;
    var s0 := " " + a.name + "=\"" + Escape(a.value, true) + "\"" + rest;
    assert s0 == [' '] + s;
    assert NameChar(s[0]);
    SkipOneSpace(s);
    TakeNameAll(a.name, eq);
    ReadValueEscaped(a.value, "\"" + rest, []);
    assert [] + a.value == a.value;
    assert ("\"" + rest)[1..] == rest;
    assert eq[2..] == value;
    ReadAttrsStep(s0, s, Piece(a.name, eq), Piece(a.value, rest), acc);
  }

  lemma SkipOneSpace(s: string)
    requires s != [] && NameChar(s[0])
    ensures SkipSpace([' '] + s) == s
  {
    assert ([' '] + s)[1..] == s;
  }

  lemma ReadAttrsStep(s0: string, s: string, name: Piece<string>, v: Piece<string>, acc: seq<Attr>)
    requires SkipSpace(s0) == s && s != [] && NameChar(s[0])
    requires TakeName(s) == name && name.value != []
    requires |name.rest| >= 2 && name.rest[0] == '=' && name.rest[1] == '"'
    requires ReadValue(name.rest[2..], '"', []) == Some(v)
    ensures ReadAttrs(s0, acc) == ReadAttrs(v.rest, acc + [Attr(name.value, v.value)])
  {
    var eq := name.rest;
    assert SkipSpace(eq) == eq;
    assert eq[1..][0] == '"' && SkipSpace(eq[1..]) == eq[1..];
    assert eq[1..][1..] == eq[2..];
  }

  lemma {:induction false} ReadAttrsWritten(attrs: seq<Attr>, rest: string, acc: seq<Attr>)
    requires forall k :: 0 <= k < |attrs| ==> GoodName(attrs[k].name) && NoReturn(attrs[k].value)
    ensures ReadAttrs(WriteAttrs(attrs) + rest, acc) == ReadAttrs(rest, acc + attrs)
    decreases |attrs|
  {
    if attrs == [] {
      assert WriteAttrs(attrs) + rest == rest && acc + attrs == acc;
    } else {
      var a, tail := attrs[0], WriteAttrs(attrs[1..]) + rest;
      assert WriteAttrs(attrs) + rest == " " + a.name + "=\"" + Escape(a.value, true) + "\"" + tail;
      ReadAttrWritten(a, tail, acc);
      ReadAttrsWritten(attrs[1..], rest, acc + [a]);
      MoveAttr(acc, attrs);
    }
  }

  lemma MoveAttr(acc: seq<Attr>, attrs: seq<Attr>)
    requires attrs != []
    ensures acc + [attrs[0]] + attrs[1..] == acc + attrs
  {
  }

  // --------------------------------------------------------------------------------------
  // The tokens of the canonical text
  // --------------------------------------------------------------------------------------

  function LineBreak(depth: nat): Token {
    Chars("\n" + Indent(depth))
  }

  /** What reading the canonical text of `e` yields, without the indentation before it. */
  function Written(e: Element, depth: nat): seq<Token>
    decreases e, 1
  {
    [Start(e.name, SortAttrs(e.attrs))] +
    (if e.children == [] then []
     else if e.children[0].Text? then Flush(AllText(e.children))
     else WrittenChildren(e.children, depth + 1) + [LineBreak(depth)]) +
    [End(e.name)]
  }

  function AllText(children: seq<Child>): string {
    if children == [] then [] else (if children[0].Text? then children[0].text else []) + AllText(children[1..])
  }

  function WrittenChildren(children: seq<Child>, depth: nat): seq<Token>
    decreases children, 0
  {
    if children == [] then [] else WrittenChild(children[0], depth) + WrittenChildren(children[1..], depth)
  }

  function WrittenChild(c: Child, depth: nat): seq<Token>
    decreases c, 0
  {
    if c.Elem? then [LineBreak(depth)] + Written(c.element, depth) else []
  }

  /** Everything the canonical text needs to be read back. */
  predicate Readable(e: Element) {
    GoodNames(e) && NoReturns(e) && NoMixedContent(e)
  }

  lemma SortedAttrsAreGood(attrs: seq<Attr>)
    requires forall k :: 0 <= k < |attrs| ==> GoodName(attrs[k].name) && NoReturn(attrs[k].value)
    ensures forall k :: 0 <= k < |SortAttrs(attrs)| ==>
              GoodName(SortAttrs(attrs)[k].name) && NoReturn(SortAttrs(attrs)[k].value)
  {
    var r := SortAttrs(attrs);
    forall k | 0 <= k < |r| ensures GoodName(r[k].name) && NoReturn(r[k].value) {
      SameNames(r, attrs, r[k]);
    }
  }

  /** Reading a start tag: `end` is what follows the attributes. */
  lemma LexStartTag(name: string, attrs: seq<Attr>, end: string, acc: string, tag: Tag)
    requires GoodName(name) && forall k :: 0 <= k < |attrs| ==> GoodName(attrs[k].name) && NoReturn(attrs[k].value)
    requires end != [] && (end[0] == '>' || end[0] == '/')
    requires ReadAttrs(end, attrs) == Some(tag)
    ensures Lex("<" + name + WriteAttrs(attrs) + end, acc)
            == Prepend(Flush(acc) + [Start(name, tag.attrs)] + (if tag.closed then [End(name)] else []), Lex(tag.rest, []))
  {
    var rest := WriteAttrs(attrs) + end;
    var s := "<" + name + WriteAttrs(attrs) + end;
    StartTagSplits(name, WriteAttrs(attrs), end);
    assert rest != [] && !NameChar(rest[0]);
    TakeNameAll(name, rest);
    ReadAttrsWritten(attrs, end, []);
    assert [] + attrs == attrs;
    LexStart(s, Piece(name, rest), tag, acc);
  }

  lemma StartTagSplits(name: string, attrs: string, end: string)
    requires name != []
    ensures ("<" + name + attrs + end)[1..] == name + (attrs + end)
    ensures ("<" + name + attrs + end)[1] == name[0]
  {
  }

  lemma LexStart(s: string, name: Piece<string>, tag: Tag, acc: string)
    requires |s| > 1 && s[0] == '<' && s[1] != '/'
    requires TakeName(s[1..]) == name && name.value != []
    requires ReadAttrs(name.rest, []) == Some(tag)
    ensures Lex(s, acc) == Prepend(Flush(acc) + [Start(name.value, tag.attrs)]
                                   + (if tag.closed then [End(name.value)] else []), Lex(tag.rest, []))
  {
  }

  lemma LexEndTag(name: string, rest: string, acc: string)
    requires GoodName(name)
    ensures Lex("</" + name + ">" + rest, acc) == Prepend(Flush(acc) + [End(name)], Lex(rest, []))
  {
    var s := "</" + name + ">" + rest;
    assert s[2..] == name + (">" + rest);
    TakeNameAll(name, ">" + rest);
    assert (">" + rest)[1..] == rest;
  }

  lemma LexNewline(rest: string, acc: string)
    ensures Lex("\n" + rest, acc) == Lex(rest, acc + "\n")
  {
    assert ("\n" + rest)[1..] == rest;
  }

  lemma PrependTwice(a: seq<Token>, b: seq<Token>, r: Option<seq<Token>>)
    ensures Prepend(a, Prepend(b, r)) == Prepend(a + b, r)
  {
    if r.Some? {
      assert a + (b + r.value) == a + b + r.value;
    }
  }

  lemma {:induction false} LexTexts(children: seq<Child>, rest: string, acc: string)
    requires forall k :: 0 <= k < |children| ==> children[k].Text? && NoReturn(children[k].text)
    ensures Lex(WriteTexts(children) + rest, acc) == Lex(rest, acc + AllText(children))
    decreases |children|
  {
    if children == [] {
      assert WriteTexts(children) + rest == rest && acc + AllText(children) == acc;
    } else {
      var t, tail := children[0].text, WriteTexts(children[1..]) + rest;
      Associative(Escape(t, false), WriteTexts(children[1..]), rest);
      LexEscaped(t, tail, acc);
      LexTexts(children[1..], rest, acc + t);
      Associative(acc, t, AllText(children[1..]));
    }
  }

  /** Reading the rest of an element after its attributes. */
  lemma LexEmpty(e: Element, rest: string, acc: string)
    requires Readable(e) && e.children == []
    ensures Lex("<" + e.name + WriteAttrs(SortAttrs(e.attrs)) + ("/>\n" + rest), acc)
            == Prepend(Flush(acc) + Written(e, 0), Lex(rest, "\n"))
  {
    var attrs := SortAttrs(e.attrs);
    SortedAttrsAreGood(e.attrs);
    var end := "/>\n" + rest;
    assert end[2..] == "\n" + rest;
    assert ReadAttrs(end, attrs) == Some(Tag(attrs, true, "\n" + rest));
    LexStartTag(e.name, attrs, end, acc, Tag(attrs, true, "\n" + rest));
    LexNewline(rest, []);
    assert [] + "\n" == "\n";
    assert Flush(acc) + [Start(e.name, attrs)] + [End(e.name)] == Flush(acc) + Written(e, 0);
  }

  lemma LexText(e: Element, depth: nat, rest: string, acc: string)
    requires Readable(e) && e.children != [] && e.children[0].Text?
    ensures Lex("<" + e.name + WriteAttrs(SortAttrs(e.attrs)) + Tail(e, depth, rest), acc)
            == Prepend(Flush(acc) + Written(e, depth), Lex(rest, "\n"))
  {
    var attrs := SortAttrs(e.attrs);
    SortedAttrsAreGood(e.attrs);
    var close := "</" + e.name + ">" + ("\n" + rest);
    TextTail(e, depth, rest, close);
    LexOpenTag(e.name, attrs, WriteTexts(e.children) + close, acc);
    OnlyTexts(e);
    LexTextClose(e.name, e.children, rest);
    var a, b := Flush(acc) + [Start(e.name, attrs)], Flush(AllText(e.children)) + [End(e.name)];
    PrependTwice(a, b, Lex(rest, "\n"));
    Regroup3(Flush(acc), [Start(e.name, attrs)], Flush(AllText(e.children)), [End(e.name)]);
  }

  lemma TextTail(e: Element, depth: nat, rest: string, close: string)
    requires e.children != [] && e.children[0].Text?
    requires close == "</" + e.name + ">" + ("\n" + rest)
    ensures Tail(e, depth, rest) == ">" + (WriteTexts(e.children) + close)
  {
  }

  lemma LexTextClose(name: string, children: seq<Child>, rest: string)
    requires GoodName(name)
    requires forall k :: 0 <= k < |children| ==> children[k].Text? && NoReturn(children[k].text)
    ensures Lex(WriteTexts(children) + ("</" + name + ">" + ("\n" + rest)), [])
            == Prepend(Flush(AllText(children)) + [End(name)], Lex(rest, "\n"))
  {
    LexTexts(children, "</" + name + ">" + ("\n" + rest), []);
    assert [] + AllText(children) == AllText(children);
    LexEndTag(name, "\n" + rest, AllText(children));
    LexFirstNewline(rest);
  }

  lemma LexFirstNewline(rest: string)
    ensures Lex("\n" + rest, []) == Lex(rest, "\n")
  {
    LexNewline(rest, []);
    assert [] + "\n" == "\n";
  }

  lemma Regroup3(a: seq<Token>, b: seq<Token>, c: seq<Token>, d: seq<Token>)
    ensures a + b + (c + d) == a + (b + c + d)
  {
  }

  lemma OnlyTexts(e: Element)
    requires Readable(e) && e.children != [] && e.children[0].Text?
    ensures forall k :: 0 <= k < |e.children| ==> e.children[k].Text? && NoReturn(e.children[k].text)
  {
    forall k | 0 <= k < |e.children| ensures e.children[k].Text? && NoReturn(e.children[k].text) {
      assert NoReturnsChild(e.children[k]);
    }
  }

  lemma OnlyElements(e: Element)
    requires Readable(e) && e.children != [] && e.children[0].Elem?
    ensures forall k :: 0 <= k < |e.children| ==> e.children[k].Elem? && Readable(e.children[k].element)
  {
    forall k | 0 <= k < |e.children| ensures e.children[k].Elem? && Readable(e.children[k].element) {
      assert NoMixedChildren(e.children);
      assert NoReturnsChild(e.children[k]) && GoodNamesChild(e.children[k]) && NoMixedChild(e.children[k]);
    }
  }

  /** The canonical text of an element, with what follows it, after the attributes. */
  function Tail(e: Element, depth: nat, rest: string): string {
    if e.children == [] then "/>\n" + rest
    else if e.children[0].Text? then ">" + WriteTexts(e.children) + "</" + e.name + ">\n" + rest
    else ">\n" + WriteChildren(e.children, depth + 1) + Indent(depth) + "</" + e.name + ">\n" + rest
  }

  lemma Glue(a: string, b: string, c: string, d: string, e: string, f: string)
    ensures a + b + c + d + e + f == a + (b + c + d + (e + f))
  {
  }

  lemma WriteIsIndentHeadTail(e: Element, depth: nat, rest: string)
    ensures Write(e, depth) + rest
            == Indent(depth) + ("<" + e.name + WriteAttrs(SortAttrs(e.attrs)) + Tail(e, depth, rest))
  {
    var attrs := WriteAttrs(SortAttrs(e.attrs));
    if e.children == [] {
      Glue(Indent(depth), "<", e.name, attrs, "/>\n", rest);
    } else if e.children[0].Text? {
      Glue(Indent(depth), "<", e.name, attrs, ">" + WriteTexts(e.children) + "</" + e.name + ">\n", rest);
    } else {
      var body := ">\n" + WriteChildren(e.children, depth + 1) + Indent(depth) + "</" + e.name + ">\n";
      Glue(Indent(depth), "<", e.name, attrs, body, rest);
    }
  }

  /** Reading the canonical text of an element, followed by anything. */
  lemma {:induction false} LexElement(e: Element, depth: nat, rest: string, acc: string)
    requires Readable(e)
    ensures Lex(Write(e, depth) + rest, acc)
            == Prepend(Flush(acc + Indent(depth)) + Written(e, depth), Lex(rest, "\n"))
    decreases e, 1
  {
    WriteIsIndentHeadTail(e, depth, rest);
    LexIndent(depth, "<" + e.name + WriteAttrs(SortAttrs(e.attrs)) + Tail(e, depth, rest), acc);
    if e.children == [] {
      LexEmpty(e, rest, acc + Indent(depth));
    } else if e.children[0].Text? {
      LexText(e, depth, rest, acc + Indent(depth));
    } else {
      LexParent(e, depth, rest, acc + Indent(depth));
    }
  }

  lemma ParentTail(e: Element, depth: nat, rest: string, kids: string)
    requires e.children != [] && e.children[0].Elem?
    requires kids == WriteChildren(e.children, depth + 1) + (Indent(depth) + ("</" + e.name + ">" + ("\n" + rest)))
    ensures Tail(e, depth, rest) == ">" + ("\n" + kids)
  {
    GlueTail(WriteChildren(e.children, depth + 1), Indent(depth), e.name, rest);
  }

  lemma GlueTail(body: string, indent: string, name: string, rest: string)
    ensures ">\n" + body + indent + "</" + name + ">\n" + rest
            == ">" + ("\n" + (body + (indent + ("</" + name + ">" + ("\n" + rest)))))
  {
  }

  lemma {:induction false} LexParent(e: Element, depth: nat, rest: string, acc: string)
    requires Readable(e) && e.children != [] && e.children[0].Elem?
    ensures Lex("<" + e.name + WriteAttrs(SortAttrs(e.attrs)) + Tail(e, depth, rest), acc)
            == Prepend(Flush(acc) + Written(e, depth), Lex(rest, "\n"))
    decreases e, 0
  {
    var attrs := SortAttrs(e.attrs);
    SortedAttrsAreGood(e.attrs);
    var close := Indent(depth) + ("</" + e.name + ">" + ("\n" + rest));
    var kids := WriteChildren(e.children, depth + 1) + close;
    ParentTail(e, depth, rest, kids);
    LexOpenTag(e.name, attrs, "\n" + kids, acc);
    OnlyElements(e);
    LexBody(e.name, e.children, depth, rest);
    var a, b := Flush(acc) + [Start(e.name, attrs)], WrittenChildren(e.children, depth + 1);
    PrependTwice(a, b + ([LineBreak(depth)] + [End(e.name)]), Lex(rest, "\n"));
    Regroup4(Flush(acc), [Start(e.name, attrs)], b, [LineBreak(depth)], [End(e.name)]);
  }

  /** Reading the lines between a start tag and its end tag. */
  lemma {:induction false} LexBody(name: string, children: seq<Child>, depth: nat, rest: string)
    requires GoodName(name)
    requires forall k :: 0 <= k < |children| ==> children[k].Elem? && Readable(children[k].element)
    ensures Lex("\n" + (WriteChildren(children, depth + 1) + (Indent(depth) + ("</" + name + ">" + ("\n" + rest)))), [])
            == Prepend(WrittenChildren(children, depth + 1) + ([LineBreak(depth)] + [End(name)]), Lex(rest, "\n"))
    decreases children, 1
  {
    var close := Indent(depth) + ("</" + name + ">" + ("\n" + rest));
    LexFirstNewline(WriteChildren(children, depth + 1) + close);
    LexChildren(children, depth + 1, close);
    LexClose(name, depth, rest);
    PrependTwice(WrittenChildren(children, depth + 1), [LineBreak(depth)] + [End(name)], Lex(rest, "\n"));
  }

  lemma Regroup4(a: seq<Token>, b: seq<Token>, c: seq<Token>, d: seq<Token>, e: seq<Token>)
    ensures a + b + (c + (d + e)) == a + (b + (c + d) + e)
  {
  }

  lemma LexOpenTag(name: string, attrs: seq<Attr>, rest: string, acc: string)
    requires GoodName(name) && forall k :: 0 <= k < |attrs| ==> GoodName(attrs[k].name) && NoReturn(attrs[k].value)
    ensures Lex("<" + name + WriteAttrs(attrs) + (">" + rest), acc)
            == Prepend(Flush(acc) + [Start(name, attrs)], Lex(rest, []))
  {
    var end := ">" + rest;
    assert end[1..] == rest;
    var tag := Tag(attrs, false, rest);
    assert ReadAttrs(end, attrs) == Some(tag);
    LexStartTag(name, attrs, end, acc, tag);
    assert Flush(acc) + [Start(name, attrs)] + [] == Flush(acc) + [Start(name, attrs)];
  }

  lemma LexClose(name: string, depth: nat, rest: string)
    requires GoodName(name)
    ensures Lex(Indent(depth) + ("</" + name + ">" + ("\n" + rest)), "\n")
            == Prepend([LineBreak(depth)] + [End(name)], Lex(rest, "\n"))
  {
    LexIndent(depth, "</" + name + ">" + ("\n" + rest), "\n");
    LexEndTag(name, "\n" + rest, "\n" + Indent(depth));
    LexFirstNewline(rest);
  }

  lemma {:induction false} LexChildren(children: seq<Child>, depth: nat, rest: string)
    requires forall k :: 0 <= k < |children| ==> children[k].Elem? && Readable(children[k].element)
    ensures Lex(WriteChildren(children, depth) + rest, "\n")
            == Prepend(WrittenChildren(children, depth), Lex(rest, "\n"))
    decreases children, 0
  {
    if children == [] {
      assert WriteChildren(children, depth) + rest == rest;
      var r := Lex(rest, "\n");
      assert r.Some? ==> [] + r.value == r.value;
    } else {
      var c, tail := children[0], WriteChildren(children[1..], depth) + rest;
      assert WriteChildren(children, depth) + rest == WriteChild(c, depth) + tail;
      LexChild(c, depth, tail);
      LexChildren(children[1..], depth, rest);
      PrependTwice(WrittenChild(c, depth), WrittenChildren(children[1..], depth), Lex(rest, "\n"));
    }
  }

  lemma {:induction false} LexChild(c: Child, depth: nat, rest: string)
    requires c.Elem? && Readable(c.element)
    ensures Lex(WriteChild(c, depth) + rest, "\n") == Prepend(WrittenChild(c, depth), Lex(rest, "\n"))
    decreases c, 0
  {
    LexElement(c.element, depth, rest, "\n");
  }

  // --------------------------------------------------------------------------------------
  // Parsing what was read
  // --------------------------------------------------------------------------------------

  /** The tokens one after another behind the normal form `ev`. */
  function AppendAll(ev: seq<Token>, tokens: seq<Token>): seq<Token>
    decreases |tokens|
  {
    if tokens == [] then ev else AppendAll(Append(ev, tokens[0]), tokens[1..])
  }

  lemma {:induction false} AppendAllConcat(ev: seq<Token>, a: seq<Token>, b: seq<Token>)
    ensures AppendAll(ev, a + b) == AppendAll(AppendAll(ev, a), b)
    decreases |a|
  {
    if a == [] {
      assert a + b == b;
    } else {
      assert (a + b)[1..] == a[1..] + b;
      AppendAllConcat(Append(ev, a[0]), a[1..], b);
    }
  }

  lemma AppendAllOne(ev: seq<Token>, tok: Token)
    ensures AppendAll(ev, [tok]) == Append(ev, tok)
  {
    assert [tok][1..] == [];
  }

  lemma {:induction false} NormalIsAppendAll(tokens: seq<Token>)
    ensures Normal(tokens) == AppendAll([], tokens)
    decreases |tokens|
  {
    if tokens != [] {
      var init, tok := tokens[..|tokens| - 1], tokens[|tokens| - 1];
      NormalIsAppendAll(init);
      assert tokens == init + [tok];
      AppendAllConcat([], init, [tok]);
      AppendAllOne(Normal(init), tok);
    }
  }

  lemma {:induction false} IndentIsBlank(depth: nat)
    ensures Blank(Indent(depth))
  {
    if depth > 0 { IndentIsBlank(depth - 1); }
  }

  lemma LineBreakVanishes(ev: seq<Token>, depth: nat)
    ensures Append(ev, LineBreak(depth)) == ev
  {
    IndentIsBlank(depth);
  }

  lemma TwoTexts(children: seq<Child>)
    requires |children| > 1 && forall k :: 0 <= k < |children| ==> children[k].Text?
    ensures !WellFormedChildren(children)
  {
    assert children[0].Text? && children[0 + 1].Text?;
  }

  lemma OneText(e: Element)
    requires WellFormed(e) && NoMixedContent(e) && e.children != [] && e.children[0].Text?
    ensures |e.children| == 1 && Flush(AllText(e.children)) == [Chars(e.children[0].text)]
    ensures !Blank(e.children[0].text) && SortChildren(e.children) == e.children
  {
    var t := e.children[0].text;
    assert WellFormedChild(e.children[0]);
    if |e.children| > 1 { TwoTexts(e.children); }
    assert e.children[1..] == [];
    assert AllText(e.children) == t + [] == t;
    assert SortChildren(e.children) == [e.children[0]];
  }

  /** Once the line breaks are dropped, the tokens are the events of the sorted tree. */
  lemma {:induction false} WrittenIsEvents(ev: seq<Token>, e: Element, depth: nat)
    requires WellFormed(e) && NoMixedContent(e)
    ensures AppendAll(ev, Written(e, depth)) == ev + Events(SortTree(e))
    decreases e, 1
  {
    var start, end := Start(e.name, SortAttrs(e.attrs)), End(e.name);
    var body := if e.children == [] then []
                else if e.children[0].Text? then Flush(AllText(e.children))
                else WrittenChildren(e.children, depth + 1) + [LineBreak(depth)];
    AppendAllConcat(ev, [start] + body, [end]);
    AppendAllConcat(ev, [start], body);
    AppendAllOne(ev, start);
    AppendAllOne(ev + [start] + ChildEvents(SortChildren(e.children)), end);
    WrittenBodyIsEvents(ev + [start], e, depth);
    Regroup3(ev, [start], ChildEvents(SortChildren(e.children)), [end]);
    Associative(ev + [start], ChildEvents(SortChildren(e.children)), [end]);
  }

  lemma {:induction false} WrittenBodyIsEvents(ev: seq<Token>, e: Element, depth: nat)
    requires WellFormed(e) && NoMixedContent(e)
    requires ev != [] && ev[|ev| - 1].Start?
    ensures AppendAll(ev, if e.children == [] then []
                          else if e.children[0].Text? then Flush(AllText(e.children))
                          else WrittenChildren(e.children, depth + 1) + [LineBreak(depth)])
            == ev + ChildEvents(SortChildren(e.children))
    decreases e, 0
  {
    if e.children == [] {
    } else if e.children[0].Text? {
      OneText(e);
      AppendAllOne(ev, Chars(e.children[0].text));
      assert ChildEvents(e.children) == [Chars(e.children[0].text)] + ChildEvents(e.children[1..]);
    } else {
      assert NoMixedChildren(e.children);
      WrittenChildrenIsEvents(ev, e.children, depth + 1);
      AppendAllConcat(ev, WrittenChildren(e.children, depth + 1), [LineBreak(depth)]);
      var ev' := ev + ChildEvents(SortChildren(e.children));
      AppendAllOne(ev', LineBreak(depth));
      LineBreakVanishes(ev', depth);
    }
  }

  lemma {:induction false} WrittenChildrenIsEvents(ev: seq<Token>, children: seq<Child>, depth: nat)
    requires forall k :: 0 <= k < |children| ==>
               children[k].Elem? && WellFormedChild(children[k]) && NoMixedChild(children[k])
    ensures AppendAll(ev, WrittenChildren(children, depth)) == ev + ChildEvents(SortChildren(children))
    decreases children, 0
  {
    if children != [] {
      var c := children[0];
      var ev' := ev + ChildEvent(SortChild(c));
      AppendAllConcat(ev, WrittenChild(c, depth), WrittenChildren(children[1..], depth));
      WrittenChildIsEvents(ev, c, depth);
      WrittenChildrenIsEvents(ev', children[1..], depth);
      SortChildrenStep(children);
      Associative(ev, ChildEvent(SortChild(c)), ChildEvents(SortChildren(children[1..])));
    }
  }

  lemma SortChildrenStep(children: seq<Child>)
    requires children != []
    ensures ChildEvents(SortChildren(children))
            == ChildEvent(SortChild(children[0])) + ChildEvents(SortChildren(children[1..]))
  {
    assert SortChildren(children)[1..] == SortChildren(children[1..]);
  }

  lemma {:induction false} WrittenChildIsEvents(ev: seq<Token>, c: Child, depth: nat)
    requires c.Elem? && WellFormedChild(c) && NoMixedChild(c)
    ensures AppendAll(ev, WrittenChild(c, depth)) == ev + ChildEvent(SortChild(c))
    decreases c, 0
  {
    AppendAllConcat(ev, [LineBreak(depth)], Written(c.element, depth));
    AppendAllOne(ev, LineBreak(depth));
    LineBreakVanishes(ev, depth);
    WrittenIsEvents(ev, c.element, depth);
  }
}
