/** Extracting one infohash per item of a Torznab document. */
module TorznabInfohashes {
  import opened Options
  import opened TorznabTree
  import opened TorznabText
  import opened TorznabNormal
  import opened TorznabReturns

  /** The part of a name after its last colon. */
  function LocalName(name: string): string {
    if name == [] then []
    else if ':' in name[1..] then LocalName(name[1..])
    else if name[0] == ':' then name[1..]
    else name
  }

  function AttrValue(attrs: seq<Attr>, name: string): Option<string> {
    if attrs == [] then None
    else if attrs[0].name == name then Some(attrs[0].value)
    else AttrValue(attrs[1..], name)
  }

  /** The infohash given by a `torznab:attr` element. */
  function AttrHash(c: Child): Option<string> {
    if c.Elem? && c.element.name == "torznab:attr" && AttrValue(c.element.attrs, "name") == Some("infohash")
    then AttrValue(c.element.attrs, "value")
    else None
  }

  function FirstAttrHash(cs: seq<Child>): Option<string> {
    if cs == [] then None
    else if AttrHash(cs[0]).Some? then AttrHash(cs[0])
    else FirstAttrHash(cs[1..])
  }

  function GuidText(c: Child): string {
    if c.Elem? && c.element.name == "guid" then AllText(c.element.children) else []
  }

  function FirstGuid(cs: seq<Child>): string {
    if cs == [] then [] else if GuidText(cs[0]) != [] then GuidText(cs[0]) else FirstGuid(cs[1..])
  }

  function ItemHash(cs: seq<Child>): string {
    match FirstAttrHash(cs)
    case Some(h) => h
    case None => FirstGuid(cs)
  }

  /** The infohashes of all items in document order; items are not searched for items. `canon` is
      trimming and lower-casing. */
  function Infohashes(canon: string -> string, e: Element): seq<string>
    decreases e, 1
  {
    if LocalName(e.name) == "item" then [canon(ItemHash(e.children))] else ChildHashes(canon, e.children)
  }

  function ChildHashes(canon: string -> string, cs: seq<Child>): seq<string>
    decreases cs, 0
  {
    if cs == [] then [] else ChildHash(canon, cs[0]) + ChildHashes(canon, cs[1..])
  }

  function ChildHash(canon: string -> string, c: Child): seq<string>
    decreases c, 0
  {
    if c.Elem? then Infohashes(canon, c.element) else []
  }

  // --------------------------------------------------------------------------------------
  // The loops
  // --------------------------------------------------------------------------------------

  method TorznabXMLAttributeValue(e: Element, name: string) returns (r: Option<string>)
    ensures r == AttrValue(e.attrs, name)
    ensures r.None? <==> forall k :: 0 <= k < |e.attrs| ==> e.attrs[k].name != name
  {
    for i := 0 to |e.attrs|
      invariant AttrValue(e.attrs[i..], name) == AttrValue(e.attrs, name)
      invariant forall k :: 0 <= k < i ==> e.attrs[k].name != name
    {
      assert e.attrs[i..][1..] == e.attrs[i + 1..];
      if e.attrs[i].name == name {
        return Some(e.attrs[i].value);
      }
    }
    return None;
  }

  method TorznabXMLElementText(e: Element) returns (text: string)
    ensures text == AllText(e.children)
  {
    text := [];
    for i := 0 to |e.children|
      invariant text + AllText(e.children[i..]) == AllText(e.children)
    {
      AllTextStep(e.children, i, text);
      if e.children[i].Text? {
        text := text + e.children[i].text;
      }
    }
  }

  lemma AllTextStep(cs: seq<Child>, i: nat, text: string)
    requires i < |cs|
    ensures text + AllText(cs[i..]) == (if cs[i].Text? then text + cs[i].text else text) + AllText(cs[i + 1..])
  {
  }

  method ItemInfohash(cs: seq<Child>) returns (infohash: string)
    ensures infohash == ItemHash(cs)
  {
    var guid := [];
    var found: Option<string> := None;
    for i := 0 to |cs|
      invariant found.Some? ==> FirstAttrHash(cs) == found
      invariant found.None? ==> FirstAttrHash(cs[i..]) == FirstAttrHash(cs)
      invariant guid != [] ==> FirstGuid(cs) == guid
      invariant guid == [] ==> FirstGuid(cs[i..]) == FirstGuid(cs)
    {
      assert cs[i..][1..] == cs[i + 1..];
      if cs[i].Elem? {
        var e := cs[i].element;
        if e.name == "torznab:attr" {
          var name := TorznabXMLAttributeValue(e, "name");
          var value := TorznabXMLAttributeValue(e, "value");
          if found.None? && name == Some("infohash") && value.Some? {
            found := value;
          }
        } else if e.name == "guid" {
          if guid == [] {
            guid := TorznabXMLElementText(e);
          }
        }
      }
    }
    infohash := if found.Some? then found.value else guid;
  }

  /** The slice the recursive visit appends to. */
  class Collector {
    var hashes: seq<string>

    constructor ()
      ensures hashes == []
    {
      hashes := [];
    }

    method Visit(canon: string -> string, e: Element)
      modifies this
      ensures hashes == old(hashes) + Infohashes(canon, e)
      decreases e, 1
    {
      if LocalName(e.name) == "item" {
        var infohash := ItemInfohash(e.children);
        hashes := hashes + [canon(infohash)];
        return;
      }
      VisitChildren(canon, e.children);
    }

    method VisitChildren(canon: string -> string, cs: seq<Child>)
      modifies this
      ensures hashes == old(hashes) + ChildHashes(canon, cs)
      decreases cs, 0
    {
      for i := 0 to |cs|
        invariant hashes + ChildHashes(canon, cs[i..]) == old(hashes) + ChildHashes(canon, cs)
      {
        assert cs[i..][1..] == cs[i + 1..];
        Associative(hashes, ChildHash(canon, cs[i]), ChildHashes(canon, cs[i + 1..]));
        VisitChild(canon, cs[i]);
      }
    }

    method VisitChild(canon: string -> string, c: Child)
      modifies this
      ensures hashes == old(hashes) + ChildHash(canon, c)
      decreases c, 0
    {
      if c.Elem? {
        Visit(canon, c.element);
      }
    }
  }

  method ExtractInfohashes(canon: string -> string, tokens: seq<Token>) returns (r: Option<seq<string>>)
    ensures r == match Parse(tokens) case Err(_) => None case Ok(t) => Some(Infohashes(canon, t))
  {
    var root := ParseTorznabXML(tokens);
    if root.Err? {
      return None;
    }
    var out := new Collector();
    out.Visit(canon, root.value);
    assert [] + Infohashes(canon, root.value) == Infohashes(canon, root.value);
    return Some(out.hashes);
  }

  // --------------------------------------------------------------------------------------
  // Extraction does not depend on the order of attributes
  // --------------------------------------------------------------------------------------

  lemma {:induction false} LookupIs(attrs: seq<Attr>, k: nat)
    requires DistinctAttrs(attrs) && k < |attrs|
    ensures AttrValue(attrs, attrs[k].name) == Some(attrs[k].value)
  {
    if k > 0 {
      LookupIs(attrs[1..], k - 1);
    }
  }

  lemma {:induction false} LookupFinds(attrs: seq<Attr>, name: string) returns (k: nat)
    requires AttrValue(attrs, name).Some?
    ensures k < |attrs| && attrs[k].name == name && AttrValue(attrs, name) == Some(attrs[k].value)
  {
    if attrs[0].name == name {
      k := 0;
    } else {
      k := LookupFinds(attrs[1..], name);
      k := k + 1;
    }
  }

  lemma LookupIgnoresOrder(s: seq<Attr>, t: seq<Attr>, name: string)
    requires DistinctAttrs(s) && DistinctAttrs(t) && multiset(s) == multiset(t)
    ensures AttrValue(s, name) == AttrValue(t, name)
  {
    if AttrValue(s, name).Some? {
      var k := LookupFinds(s, name);
      SameNames(s, t, s[k]);
      var j :| 0 <= j < |t| && t[j] == s[k];
      LookupIs(t, j);
    } else if AttrValue(t, name).Some? {
      var k := LookupFinds(t, name);
      SameNames(s, t, t[k]);
      var j :| 0 <= j < |s| && s[j] == t[k];
      LookupIs(s, j);
    }
  }

  lemma {:induction false} SameText(cs: seq<Child>, ds: seq<Child>)
    requires SameChildren(cs, ds)
    ensures AllText(cs) == AllText(ds)
    decreases |cs|
  {
    if cs != [] {
      SameText(cs[1..], ds[1..]);
    }
  }

  lemma SameItemChild(c: Child, d: Child)
    requires SameChild(c, d) && WellFormedChild(c) && WellFormedChild(d)
    ensures AttrHash(c) == AttrHash(d) && GuidText(c) == GuidText(d)
  {
    if c.Elem? {
      LookupIgnoresOrder(c.element.attrs, d.element.attrs, "name");
      LookupIgnoresOrder(c.element.attrs, d.element.attrs, "value");
      SameText(c.element.children, d.element.children);
    }
  }

  lemma {:induction false} SameItem(cs: seq<Child>, ds: seq<Child>)
    requires SameChildren(cs, ds) && WellFormedChildren(cs) && WellFormedChildren(ds)
    ensures FirstAttrHash(cs) == FirstAttrHash(ds) && FirstGuid(cs) == FirstGuid(ds)
    decreases |cs|
  {
    if cs != [] {
      WellFormedTail(cs);
      WellFormedTail(ds);
      SameItemChild(cs[0], ds[0]);
      SameItem(cs[1..], ds[1..]);
    }
  }

  /** Trees that differ only in the order of attributes have the same infohashes. */
  lemma {:induction false} SameInfohashes(canon: string -> string, e: Element, f: Element)
    requires SameButOrder(e, f) && WellFormed(e) && WellFormed(f)
    ensures Infohashes(canon, e) == Infohashes(canon, f)
    decreases e, 1
  {
    SameItem(e.children, f.children);
    SameChildHashes(canon, e.children, f.children);
  }

  lemma {:induction false} SameChildHashes(canon: string -> string, cs: seq<Child>, ds: seq<Child>)
    requires SameChildren(cs, ds) && WellFormedChildren(cs) && WellFormedChildren(ds)
    ensures ChildHashes(canon, cs) == ChildHashes(canon, ds)
    decreases cs, 0
  {
    if cs != [] {
      WellFormedTail(cs);
      WellFormedTail(ds);
      SameChildHash(canon, cs[0], ds[0]);
      SameChildHashes(canon, cs[1..], ds[1..]);
    }
  }

  lemma {:induction false} SameChildHash(canon: string -> string, c: Child, d: Child)
    requires SameChild(c, d) && WellFormedChild(c) && WellFormedChild(d)
    ensures ChildHash(canon, c) == ChildHash(canon, d)
    decreases c, 0
  {
    if c.Elem? {
      SameInfohashes(canon, c.element, d.element);
    }
  }

  // --------------------------------------------------------------------------------------
  // Extraction from the normal form
  // --------------------------------------------------------------------------------------

  lemma {:induction false} AttrValueEol(attrs: seq<Attr>, name: string)
    ensures AttrValue(EolAttrs(attrs), name)
            == match AttrValue(attrs, name) case None => None case Some(v) => Some(Eol(v))
  {
    if attrs != [] {
      AttrValueEol(attrs[1..], name);
      assert EolAttrs(attrs)[1..] == EolAttrs(attrs[1..]);
    }
  }

  lemma {:induction false} EolIs(v: string, w: string)
    requires OneLine(w)
    ensures Eol(v) == w <==> v == w
  {
    if v != [] && w != [] && v[0] != '\r' {
      EolStep(v);
      EolIs(v[1..], w[1..]);
      assert v == [v[0]] + v[1..] && w == [w[0]] + w[1..];
    }
  }

  lemma {:induction false} ElementsHaveNoText(cs: seq<Child>)
    requires forall k :: 0 <= k < |cs| ==> cs[k].Elem?
    ensures AllText(cs) == []
  {
    if cs != [] {
      ElementsHaveNoText(cs[1..]);
    }
  }

  lemma AllTextEol(e: Element)
    requires WellFormed(e) && NoMixedContent(e)
    ensures AllText(EolChildren(e.children)) == Eol(AllText(e.children))
  {
    var cs, ds := e.children, EolChildren(e.children);
    forall k | 0 <= k < |cs| ensures ds[k] == EolChild(cs[k]) {
      EolChildrenAt(cs, k);
    }
    if cs != [] && cs[0].Text? {
      OneText(e);
      assert cs[1..] == [] && ds[1..] == [];
    } else {
      assert forall k :: 0 <= k < |cs| ==> cs[k].Elem?;
      ElementsHaveNoText(cs);
      ElementsHaveNoText(ds);
    }
  }

  lemma AttrHashEol(c: Child)
    ensures AttrHash(EolChild(c)) == match AttrHash(c) case None => None case Some(h) => Some(Eol(h))
  {
    if c.Elem? {
      AttrValueEol(c.element.attrs, "name");
      AttrValueEol(c.element.attrs, "value");
      var name := AttrValue(c.element.attrs, "name");
      if name.Some? {
        EolIs(name.value, "infohash");
      }
    }
  }

  lemma GuidTextEol(c: Child)
    requires WellFormedChild(c) && NoMixedChild(c)
    ensures GuidText(EolChild(c)) == Eol(GuidText(c))
  {
    if c.Elem? {
      AllTextEol(c.element);
    }
  }

  /** Translating the line ends of an item translates those of its infohash. */
  lemma {:induction false} ItemEol(cs: seq<Child>)
    requires WellFormedChildren(cs) && NoMixedChildren(cs)
    ensures FirstAttrHash(EolChildren(cs))
            == match FirstAttrHash(cs) case None => None case Some(h) => Some(Eol(h))
    ensures FirstGuid(EolChildren(cs)) == Eol(FirstGuid(cs))
  {
    if cs != [] {
      WellFormedTail(cs);
      assert cs == [cs[0]] + cs[1..];
      AddFirst(cs[0], cs[1..]);
      AttrHashEol(cs[0]);
      GuidTextEol(cs[0]);
      ItemEol(cs[1..]);
      assert EolChildren(cs)[1..] == EolChildren(cs[1..]);
    }
  }

  lemma {:induction false} InfohashesEol(canon: string -> string, e: Element)
    requires WellFormed(e) && NoMixedContent(e)
    ensures Infohashes(canon, EolTree(e)) == Infohashes(h => canon(Eol(h)), e)
    decreases e, 1
  {
    ItemEol(e.children);
    ChildHashesEol(canon, e.children);
  }

  lemma {:induction false} ChildHashesEol(canon: string -> string, cs: seq<Child>)
    requires WellFormedChildren(cs) && NoMixedChildren(cs)
    ensures ChildHashes(canon, EolChildren(cs)) == ChildHashes(h => canon(Eol(h)), cs)
    decreases cs, 0
  {
    if cs != [] {
      WellFormedTail(cs);
      assert cs == [cs[0]] + cs[1..];
      AddFirst(cs[0], cs[1..]);
      ChildHashEol(canon, cs[0]);
      ChildHashesEol(canon, cs[1..]);
      assert EolChildren(cs)[1..] == EolChildren(cs[1..]);
    }
  }

  lemma {:induction false} ChildHashEol(canon: string -> string, c: Child)
    requires WellFormedChild(c) && NoMixedChild(c)
    ensures ChildHash(canon, EolChild(c)) == ChildHash(h => canon(Eol(h)), c)
    decreases c, 0
  {
    if c.Elem? {
      InfohashesEol(canon, c.element);
    }
  }

  /** The infohashes as they stand in the document. */
  function RawHashes(e: Element): seq<string> {
    Infohashes((h: string) => h, e)
  }

  /** `canon` is applied hash by hash. */
  ghost predicate Each(canon: string -> string, hashes: seq<string>, raw: seq<string>) {
    |hashes| == |raw| && forall k :: 0 <= k < |raw| ==> hashes[k] == canon(raw[k])
  }

  lemma EachConcat(canon: string -> string, a: seq<string>, ra: seq<string>, b: seq<string>, rb: seq<string>)
    requires Each(canon, a, ra) && Each(canon, b, rb)
    ensures Each(canon, a + b, ra + rb)
  {
  }

  lemma {:induction false} CanonEach(canon: string -> string, e: Element)
    ensures Each(canon, Infohashes(canon, e), Infohashes((h: string) => h, e))
    decreases e, 1
  {
    CanonEachChild(canon, e.children);
  }

  lemma {:induction false} CanonEachChild(canon: string -> string, cs: seq<Child>)
    ensures Each(canon, ChildHashes(canon, cs), ChildHashes((h: string) => h, cs))
    decreases cs, 0
  {
    if cs != [] {
      CanonEachIn(canon, cs[0]);
      CanonEachChild(canon, cs[1..]);
      EachConcat(canon, ChildHash(canon, cs[0]), ChildHash((h: string) => h, cs[0]),
                 ChildHashes(canon, cs[1..]), ChildHashes((h: string) => h, cs[1..]));
    }
  }

  lemma {:induction false} CanonEachIn(canon: string -> string, c: Child)
    ensures Each(canon, ChildHash(canon, c), ChildHash((h: string) => h, c))
    decreases c, 0
  {
    if c.Elem? {
      CanonEach(canon, c.element);
    }
  }

  lemma SameWhenEach(f: string -> string, g: string -> string, e: Element)
    ensures Infohashes(f, e) == Infohashes(g, e)
       <==> forall k :: 0 <= k < |RawHashes(e)| ==> f(RawHashes(e)[k]) == g(RawHashes(e)[k])
  {
    CanonEach(f, e);
    CanonEach(g, e);
    var raw, a, b := RawHashes(e), Infohashes(f, e), Infohashes(g, e);
    if a == b {
      forall k | 0 <= k < |raw| ensures f(raw[k]) == g(raw[k]) { assert a[k] == b[k]; }
    }
  }

  /** The infohashes of the normal form are those of the document with the line ends translated. */
  lemma NormalFormInfohashes(canon: string -> string, tokens: seq<Token>)
    requires AllGood(tokens) && Normalize(tokens).Some?
    ensures var r := Lex(Normalize(tokens).value, []);
            && r.Some? && Parse(r.value).Ok?
            && Infohashes(canon, Parse(r.value).value) == Infohashes(h => canon(Eol(h)), Parse(tokens).value)
  {
    var t := Parse(tokens).value;
    TreeOf(tokens);
    ReadBackAny(t);
    EolTreeIsReadable(t);
    var u := EolTree(t);
    SortTreeKeeps(u, 0);
    SortTreeForgets(SortTree(u), u);
    SameInfohashes(canon, SortTree(u), u);
    InfohashesEol(canon, t);
  }

  /** For every document: the normal form has the document's infohashes exactly if translating the
      line ends inside the hashes makes no difference to `canon`. */
  lemma NormalFormKeepsInfohashes(canon: string -> string, tokens: seq<Token>)
    requires AllGood(tokens) && Normalize(tokens).Some?
    ensures var t, r := Parse(tokens).value, Lex(Normalize(tokens).value, []);
            && r.Some? && Parse(r.value).Ok?
            && (Infohashes(canon, Parse(r.value).value) == Infohashes(canon, t)
                <==> forall k :: 0 <= k < |RawHashes(t)| ==> canon(Eol(RawHashes(t)[k])) == canon(RawHashes(t)[k]))
  {
    NormalFormInfohashes(canon, tokens);
    var translated := (h: string) => canon(Eol(h));
    assert Infohashes(translated, Parse(tokens).value) == Infohashes(h => canon(Eol(h)), Parse(tokens).value);
    SameWhenEach(translated, canon, Parse(tokens).value);
  }

  // --------------------------------------------------------------------------------------
  // One infohash per item
  // --------------------------------------------------------------------------------------

  predicate IsItem(tok: Token) {
    tok.Start? && LocalName(tok.name) == "item"
  }

  /** The items in a token sequence that are not inside another item; `open` is the number of open
      elements from the surrounding item on. */
  function CountItems(tokens: seq<Token>, open: nat): nat {
    if tokens == [] then 0
    else if tokens[0].Start? then
      if open > 0 then CountItems(tokens[1..], open + 1)
      else if IsItem(tokens[0]) then 1 + CountItems(tokens[1..], 1)
      else CountItems(tokens[1..], 0)
    else if tokens[0].End? && open > 0 then CountItems(tokens[1..], open - 1)
    else CountItems(tokens[1..], open)
  }

  lemma CountStep(tok: Token, rest: seq<Token>, open: nat)
    ensures CountItems([tok] + rest, open)
            == if tok.Start? then
                 if open > 0 then CountItems(rest, open + 1)
                 else if IsItem(tok) then 1 + CountItems(rest, 1)
                 else CountItems(rest, 0)
               else if tok.End? && open > 0 then CountItems(rest, open - 1)
               else CountItems(rest, open)
  {
    assert ([tok] + rest)[1..] == rest;
  }

  lemma EventsSplit(e: Element, rest: seq<Token>)
    ensures Events(e) + rest == [Start(e.name, e.attrs)] + (ChildEvents(e.children) + ([End(e.name)] + rest))
  {
  }

  /** Nothing inside an item counts. */
  lemma {:induction false} InsideItem(e: Element, rest: seq<Token>, open: nat)
    requires open > 0
    ensures CountItems(Events(e) + rest, open) == CountItems(rest, open)
    decreases e, 1
  {
    EventsSplit(e, rest);
    CountStep(Start(e.name, e.attrs), ChildEvents(e.children) + ([End(e.name)] + rest), open);
    ChildrenInside(e.children, [End(e.name)] + rest, open + 1);
    CountStep(End(e.name), rest, open + 1);
  }

  lemma {:induction false} ChildrenInside(cs: seq<Child>, rest: seq<Token>, open: nat)
    requires open > 0
    ensures CountItems(ChildEvents(cs) + rest, open) == CountItems(rest, open)
    decreases cs, 0
  {
    if cs == [] {
      assert ChildEvents(cs) + rest == rest;
    } else {
      Associative(ChildEvent(cs[0]), ChildEvents(cs[1..]), rest);
      ChildInside(cs[0], ChildEvents(cs[1..]) + rest, open);
      ChildrenInside(cs[1..], rest, open);
    }
  }

  lemma {:induction false} ChildInside(c: Child, rest: seq<Token>, open: nat)
    requires open > 0
    ensures CountItems(ChildEvent(c) + rest, open) == CountItems(rest, open)
    decreases c, 0
  {
    if c.Elem? {
      InsideItem(c.element, rest, open);
    } else {
      CountStep(Chars(c.text), rest, open);
    }
  }

  lemma {:induction false} OnePerItemIn(canon: string -> string, e: Element, rest: seq<Token>)
    ensures CountItems(Events(e) + rest, 0) == |Infohashes(canon, e)| + CountItems(rest, 0)
    decreases e, 1
  {
    EventsSplit(e, rest);
    var start, inner := Start(e.name, e.attrs), [End(e.name)] + rest;
    CountStep(start, ChildEvents(e.children) + inner, 0);
    if IsItem(start) {
      ChildrenInside(e.children, inner, 1);
      CountStep(End(e.name), rest, 1);
    } else {
      OnePerItemBelow(canon, e.children, inner);
      CountStep(End(e.name), rest, 0);
    }
  }

  lemma {:induction false} OnePerItemBelow(canon: string -> string, cs: seq<Child>, rest: seq<Token>)
    ensures CountItems(ChildEvents(cs) + rest, 0) == |ChildHashes(canon, cs)| + CountItems(rest, 0)
    decreases cs, 0
  {
    if cs == [] {
      assert ChildEvents(cs) + rest == rest;
    } else {
      Associative(ChildEvent(cs[0]), ChildEvents(cs[1..]), rest);
      OnePerChild(canon, cs[0], ChildEvents(cs[1..]) + rest);
      OnePerItemBelow(canon, cs[1..], rest);
    }
  }

  lemma {:induction false} OnePerChild(canon: string -> string, c: Child, rest: seq<Token>)
    ensures CountItems(ChildEvent(c) + rest, 0) == |ChildHash(canon, c)| + CountItems(rest, 0)
    decreases c, 0
  {
    if c.Elem? {
      OnePerItemIn(canon, c.element, rest);
    } else {
      CountStep(Chars(c.text), rest, 0);
    }
  }

  predicate IsTag(tok: Token) {
    tok.Start? || tok.End?
  }

  /** Only tags count. */
  function Tags(tokens: seq<Token>): seq<Token> {
    if tokens == [] then []
    else Tags(tokens[..|tokens| - 1]) + (if IsTag(tokens[|tokens| - 1]) then [tokens[|tokens| - 1]] else [])
  }

  lemma {:induction false} TagsConcat(a: seq<Token>, b: seq<Token>)
    ensures Tags(a + b) == Tags(a) + Tags(b)
    decreases |b|
  {
    if b == [] {
      assert a + b == a;
    } else {
      var init := b[..|b| - 1];
      assert (a + b)[..|a + b| - 1] == a + init;
      TagsConcat(a, init);
    }
  }

  lemma TagsOne(tok: Token)
    ensures Tags([tok]) == if IsTag(tok) then [tok] else []
  {
    assert [tok][..0] == [];
  }

  lemma {:induction false} CountTags(tokens: seq<Token>, open: nat)
    ensures CountItems(Tags(tokens), open) == CountItems(tokens, open)
    decreases |tokens|
  {
    if tokens != [] {
      var tok, rest := tokens[0], tokens[1..];
      assert tokens == [tok] + rest;
      TagsConcat([tok], rest);
      TagsOne(tok);
      CountStep(tok, rest, open);
      if IsTag(tok) {
        CountStep(tok, Tags(rest), open);
        CountTags(rest, if tok.Start? then (if open > 0 then open + 1 else if IsItem(tok) then 1 else 0)
                        else if open > 0 then open - 1 else open);
      } else {
        assert Tags(tokens) == [] + Tags(rest) == Tags(rest);
        CountTags(rest, open);
      }
    }
  }

  lemma {:induction false} NormalTags(tokens: seq<Token>)
    ensures Tags(Normal(tokens)) == Tags(tokens)
    decreases |tokens|
  {
    if tokens != [] {
      var init, tok := tokens[..|tokens| - 1], tokens[|tokens| - 1];
      NormalTags(init);
      AppendTags(Normal(init), tok);
    }
  }

  lemma AppendTags(ev: seq<Token>, tok: Token)
    ensures Tags(Append(ev, tok)) == Tags(ev) + (if IsTag(tok) then [tok] else [])
  {
    if tok.Misc? || (tok.Chars? && Blank(tok.text)) {
    } else if tok.Chars? && ev != [] && ev[|ev| - 1].Chars? {
      var joined := ev[..|ev| - 1] + [Chars(ev[|ev| - 1].text + tok.text)];
      assert joined[..|joined| - 1] == ev[..|ev| - 1];
    } else {
      assert (ev + [tok])[..|ev|] == ev;
    }
  }

  /** A document has as many infohashes as its tokens open items outside other items. */
  lemma OnePerItem(canon: string -> string, tokens: seq<Token>)
    requires Parse(tokens).Ok?
    ensures |Infohashes(canon, Parse(tokens).value)| == CountItems(tokens, 0)
  {
    var t := Parse(tokens).value;
    ParseExactly(tokens, t);
    OnePerItemIn(canon, t, []);
    assert Events(t) + [] == Events(t);
    CountTags(Normal(tokens), 0);
    CountTags(tokens, 0);
    NormalTags(tokens);
  }
}
