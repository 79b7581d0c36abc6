/** Which infohash an item has and where it stands, read off positions in the document. */
module TorznabItems {
  import opened Options
  import opened TorznabTree
  import opened TorznabText
  import opened TorznabNormal
  import opened TorznabInfohashes

  // --------------------------------------------------------------------------------------
  // Names, attributes and text
  // --------------------------------------------------------------------------------------

  lemma {:induction false} LocalNameWhole(l: string)
    requires ':' !in l
    ensures LocalName(l) == l
  {
    if l != [] {
      assert l[0] in l;
      forall k | 0 <= k < |l[1..]| ensures l[1..][k] != ':' { assert l[1..][k] == l[k + 1]; }
    }
  }

  /** A local name is what follows the last colon. */
  lemma {:induction false} LocalNameIs(prefix: string, l: string)
    requires ':' !in l
    ensures LocalName(prefix + ":" + l) == l
    decreases |prefix|
  {
    var name := prefix + ":" + l;
    if prefix == [] {
      assert name[1..] == l;
      if l != [] { LocalNameWhole(l); }
    } else {
      assert name[1..] == prefix[1..] + ":" + l;
      assert name[1..][|prefix| - 1] == ':';
      LocalNameIs(prefix[1..], l);
    }
  }

  /** `k` is the first attribute of that name. */
  predicate FirstNamed(attrs: seq<Attr>, k: int, name: string) {
    0 <= k < |attrs| && attrs[k].name == name && forall j :: 0 <= j < k ==> attrs[j].name != name
  }

  lemma {:induction false} AttrValueExactly(attrs: seq<Attr>, name: string, v: string)
    ensures AttrValue(attrs, name) == Some(v) <==> exists k :: FirstNamed(attrs, k, name) && attrs[k].value == v
  {
    if attrs != [] {
      var rest := attrs[1..];
      if attrs[0].name == name {
        assert FirstNamed(attrs, 0, name);
      } else {
        AttrValueExactly(rest, name, v);
        if k :| FirstNamed(rest, k, name) && rest[k].value == v {
          assert forall j :: 0 < j <= k ==> attrs[j] == rest[j - 1];
          assert FirstNamed(attrs, k + 1, name) && attrs[k + 1].value == v;
        }
        if k :| FirstNamed(attrs, k, name) && attrs[k].value == v {
          assert forall j :: 0 <= j < |rest| ==> rest[j] == attrs[j + 1];
          assert FirstNamed(rest, k - 1, name) && rest[k - 1].value == v;
        }
      }
    }
  }

  /** The text of an element is that of its text children, in order. */
  lemma {:induction false} AllTextConcat(a: seq<Child>, b: seq<Child>)
    ensures AllText(a + b) == AllText(a) + AllText(b)
  {
    if a == [] {
      assert a + b == b;
    } else {
      assert (a + b)[1..] == a[1..] + b;
      AllTextConcat(a[1..], b);
      var one := if a[0].Text? then a[0].text else [];
      assert AllText(a + b) == one + (AllText(a[1..]) + AllText(b)) == AllText(a) + AllText(b);
    }
  }

  lemma AllTextOne(c: Child)
    ensures AllText([c]) == if c.Text? then c.text else []
  {
    assert [c][1..] == [];
  }

  // --------------------------------------------------------------------------------------
  // The hash of one item
  // --------------------------------------------------------------------------------------

  /** `c` is a `torznab:attr` element whose `name` is `infohash` and whose `value` is `v`. */
  ghost predicate Gives(c: Child, v: string) {
    && c.Elem? && c.element.name == "torznab:attr"
    && (exists k :: FirstNamed(c.element.attrs, k, "name") && c.element.attrs[k].value == "infohash")
    && (exists k :: FirstNamed(c.element.attrs, k, "value") && c.element.attrs[k].value == v)
  }

  /** `c` is a `guid` element with the text `v`, which is not empty. */
  predicate IsGuid(c: Child, v: string) {
    c.Elem? && c.element.name == "guid" && AllText(c.element.children) == v && v != []
  }

  lemma GivesExactly(c: Child, v: string)
    ensures AttrHash(c) == Some(v) <==> Gives(c, v)
  {
    if c.Elem? {
      AttrValueExactly(c.element.attrs, "name", "infohash");
      AttrValueExactly(c.element.attrs, "value", v);
    }
  }

  lemma SomeGiver(c: Child)
    ensures AttrHash(c).Some? ==> exists u :: Gives(c, u)
  {
    if AttrHash(c).Some? {
      GivesExactly(c, AttrHash(c).value);
    }
  }

  lemma {:induction false} FirstGiver(cs: seq<Child>, k: nat, v: string)
    requires k < |cs| && Gives(cs[k], v) && forall j, u :: 0 <= j < k ==> !Gives(cs[j], u)
    ensures FirstAttrHash(cs) == Some(v)
  {
    GivesExactly(cs[0], v);
    if k > 0 {
      SomeGiver(cs[0]);
      forall j, u | 0 <= j < k - 1 ensures !Gives(cs[1..][j], u) { assert cs[1..][j] == cs[j + 1]; }
      FirstGiver(cs[1..], k - 1, v);
    }
  }

  lemma {:induction false} NoGiver(cs: seq<Child>)
    requires forall j, u :: 0 <= j < |cs| ==> !Gives(cs[j], u)
    ensures FirstAttrHash(cs).None?
  {
    if cs != [] {
      SomeGiver(cs[0]);
      forall j, u | 0 <= j < |cs[1..]| ensures !Gives(cs[1..][j], u) { assert cs[1..][j] == cs[j + 1]; }
      NoGiver(cs[1..]);
    }
  }

  lemma {:induction false} FirstGuidIs(cs: seq<Child>, k: nat, v: string)
    requires k < |cs| && IsGuid(cs[k], v) && forall j, u :: 0 <= j < k ==> !IsGuid(cs[j], u)
    ensures FirstGuid(cs) == v
  {
    if k > 0 {
      assert !IsGuid(cs[0], GuidText(cs[0]));
      forall j, u | 0 <= j < k - 1 ensures !IsGuid(cs[1..][j], u) { assert cs[1..][j] == cs[j + 1]; }
      FirstGuidIs(cs[1..], k - 1, v);
    }
  }

  lemma {:induction false} NoGuid(cs: seq<Child>)
    requires forall j, u :: 0 <= j < |cs| ==> !IsGuid(cs[j], u)
    ensures FirstGuid(cs) == []
  {
    if cs != [] {
      assert !IsGuid(cs[0], GuidText(cs[0]));
      forall j, u | 0 <= j < |cs[1..]| ensures !IsGuid(cs[1..][j], u) { assert cs[1..][j] == cs[j + 1]; }
      NoGuid(cs[1..]);
    }
  }

  /** The first child that gives an infohash decides, wherever a guid stands. */
  lemma AttributeDecides(canon: string -> string, e: Element, k: nat, v: string)
    requires LocalName(e.name) == "item" && k < |e.children| && Gives(e.children[k], v)
    requires forall j, u :: 0 <= j < k ==> !Gives(e.children[j], u)
    ensures Infohashes(canon, e) == [canon(v)]
  {
    FirstGiver(e.children, k, v);
  }

  /** Without one, the first guid with text decides. */
  lemma GuidDecides(canon: string -> string, e: Element, k: nat, v: string)
    requires LocalName(e.name) == "item" && forall j, u :: 0 <= j < |e.children| ==> !Gives(e.children[j], u)
    requires k < |e.children| && IsGuid(e.children[k], v) && forall j, u :: 0 <= j < k ==> !IsGuid(e.children[j], u)
    ensures Infohashes(canon, e) == [canon(v)]
  {
    NoGiver(e.children);
    FirstGuidIs(e.children, k, v);
  }

  /** Without either, the hash is empty. */
  lemma NothingDecides(canon: string -> string, e: Element)
    requires LocalName(e.name) == "item"
    requires forall j, u :: 0 <= j < |e.children| ==> !Gives(e.children[j], u) && !IsGuid(e.children[j], u)
    ensures Infohashes(canon, e) == [canon("")]
  {
    NoGiver(e.children);
    NoGuid(e.children);
  }

  // --------------------------------------------------------------------------------------
  // The hashes of a document, in document order
  // --------------------------------------------------------------------------------------

  /** The number of open elements from the surrounding item on, after some tokens. */
  function OpenAfter(tokens: seq<Token>, open: nat): nat {
    if tokens == [] then open
    else
      var tok := tokens[0];
      OpenAfter(tokens[1..],
                if tok.Start? then (if open > 0 then open + 1 else if IsItem(tok) then 1 else 0)
                else if tok.End? && open > 0 then open - 1
                else open)
  }

  lemma {:induction false} OpenConcat(a: seq<Token>, b: seq<Token>, open: nat)
    ensures OpenAfter(a + b, open) == OpenAfter(b, OpenAfter(a, open))
    decreases |a|
  {
    if a == [] {
      assert a + b == b;
    } else {
      assert (a + b)[1..] == a[1..] + b;
      var tok := a[0];
      OpenConcat(a[1..], b, if tok.Start? then (if open > 0 then open + 1 else if IsItem(tok) then 1 else 0)
                            else if tok.End? && open > 0 then open - 1
                            else open);
    }
  }

  lemma OpenOne(tok: Token, open: nat)
    ensures OpenAfter([tok], open)
            == if tok.Start? then (if open > 0 then open + 1 else if IsItem(tok) then 1 else 0)
               else if tok.End? && open > 0 then open - 1
               else open
  {
    assert [tok][1..] == [];
  }

  /** A whole element leaves things as they were. */
  lemma {:induction false} OpenElement(e: Element, open: nat)
    ensures OpenAfter(Events(e), open) == open
    decreases e, 1
  {
    var start, end := [Start(e.name, e.attrs)], [End(e.name)];
    OpenConcat(start + ChildEvents(e.children), end, open);
    OpenConcat(start, ChildEvents(e.children), open);
    OpenOne(start[0], open);
    OpenChildren(e.children, OpenAfter(start, open));
    OpenOne(end[0], OpenAfter(start, open));
  }

  lemma {:induction false} OpenChildren(cs: seq<Child>, open: nat)
    ensures OpenAfter(ChildEvents(cs), open) == open
    decreases cs, 0
  {
    if cs != [] {
      OpenConcat(ChildEvent(cs[0]), ChildEvents(cs[1..]), open);
      OpenChild(cs[0], open);
      OpenChildren(cs[1..], open);
    }
  }

  lemma {:induction false} OpenChild(c: Child, open: nat)
    ensures OpenAfter(ChildEvent(c), open) == open
    decreases c, 0
  {
    if c.Elem? {
      OpenElement(c.element, open);
    } else {
      OpenOne(Chars(c.text), open);
    }
  }

  /** An item with the tokens before and after it. */
  datatype Site = Site(before: seq<Token>, item: Element, after: seq<Token>)

  /** Where the item ends. */
  function EndOf(s: Site): nat {
    |s.before| + |Events(s.item)|
  }

  /** The tokens are those of an item outside all other items, with others before and after it. */
  predicate At(ev: seq<Token>, s: Site) {
    && LocalName(s.item.name) == "item"
    && ev == s.before + (Events(s.item) + s.after)
    && OpenAfter(s.before, 0) == 0
  }

  predicate InOrder(sites: seq<Site>) {
    forall j, k :: 0 <= j < k < |sites| ==> EndOf(sites[j]) <= |sites[k].before|
  }

  /** The hashes are those of the items at `sites`, which follow one another. */
  ghost predicate Stand(canon: string -> string, ev: seq<Token>, sites: seq<Site>, hashes: seq<string>) {
    && |sites| == |hashes|
    && (forall k :: 0 <= k < |sites| ==> At(ev, sites[k]))
    && (forall k :: 0 <= k < |sites| ==> [hashes[k]] == Infohashes(canon, sites[k].item))
    && InOrder(sites)
  }

  /** The sites of a part of a document, in the whole. */
  function Within(a: seq<Token>, sites: seq<Site>, b: seq<Token>): (r: seq<Site>)
    ensures |r| == |sites|
    ensures forall k :: 0 <= k < |r| ==> r[k] == Site(a + sites[k].before, sites[k].item, sites[k].after + b)
  {
    seq(|sites|, k requires 0 <= k < |sites| => Site(a + sites[k].before, sites[k].item, sites[k].after + b))
  }

  lemma Split5(a: seq<Token>, before: seq<Token>, ev: seq<Token>, after: seq<Token>, b: seq<Token>)
    ensures a + (before + (ev + after)) + b == (a + before) + (ev + (after + b))
  {
  }

  lemma AtWithin(a: seq<Token>, ev: seq<Token>, s: Site, b: seq<Token>)
    requires At(ev, s) && OpenAfter(a, 0) == 0
    ensures At(a + ev + b, Site(a + s.before, s.item, s.after + b))
  {
    Split5(a, s.before, Events(s.item), s.after, b);
    OpenConcat(a, s.before, 0);
  }

  /** The hashes of a part stand in the whole. */
  lemma StandWithin(
    canon: string -> string, a: seq<Token>, ev: seq<Token>, sites: seq<Site>, hashes: seq<string>, b: seq<Token>
  )
    requires Stand(canon, ev, sites, hashes) && OpenAfter(a, 0) == 0
    ensures Stand(canon, a + ev + b, Within(a, sites, b), hashes)
  {
    var r := Within(a, sites, b);
    forall k | 0 <= k < |r| ensures At(a + ev + b, r[k]) && [hashes[k]] == Infohashes(canon, r[k].item) {
      AtWithin(a, ev, sites[k], b);
    }
    forall j, k | 0 <= j < k < |r| ensures EndOf(r[j]) <= |r[k].before| {
      assert EndOf(sites[j]) <= |sites[k].before|;
    }
  }

  /** Items of a first part and items of a second one. */
  lemma StandBoth(
    canon: string -> string, ev: seq<Token>, d: nat, sa: seq<Site>, ha: seq<string>, sb: seq<Site>, hb: seq<string>
  )
    requires Stand(canon, ev, sa, ha) && Stand(canon, ev, sb, hb)
    requires forall k :: 0 <= k < |sa| ==> EndOf(sa[k]) <= d
    requires forall k :: 0 <= k < |sb| ==> d <= |sb[k].before|
    ensures Stand(canon, ev, sa + sb, ha + hb)
  {
    var sites := sa + sb;
    forall j, k | 0 <= j < k < |sites| ensures EndOf(sites[j]) <= |sites[k].before| {
      if k < |sa| {
        assert sites[j] == sa[j] && sites[k] == sa[k];
      } else if j >= |sa| {
        assert sites[j] == sb[j - |sa|] && sites[k] == sb[k - |sa|];
      }
    }
  }

  lemma Ends(ev: seq<Token>, s: Site)
    requires At(ev, s)
    ensures EndOf(s) <= |ev|
  {
  }

  lemma StandConcat(
    canon: string -> string, a: seq<Token>, sa: seq<Site>, ha: seq<string>, b: seq<Token>, sb: seq<Site>, hb: seq<string>
  )
    requires Stand(canon, a, sa, ha) && Stand(canon, b, sb, hb) && OpenAfter(a, 0) == 0
    ensures Stand(canon, a + b, Within([], sa, b) + Within(a, sb, []), ha + hb)
  {
    StandWithin(canon, [], a, sa, ha, b);
    StandWithin(canon, a, b, sb, hb, []);
    assert [] + a + b == a + b && a + b + [] == a + b;
    forall k | 0 <= k < |sa| ensures EndOf(Within([], sa, b)[k]) <= |a| {
      Ends(a, sa[k]);
    }
    StandBoth(canon, a + b, |a|, Within([], sa, b), ha, Within(a, sb, []), hb);
  }

  /** Hash by hash, in document order, each hash is that of an item outside all other items. */
  lemma {:induction false} HashesStand(canon: string -> string, e: Element) returns (sites: seq<Site>)
    ensures Stand(canon, Events(e), sites, Infohashes(canon, e))
    decreases e, 1
  {
    if LocalName(e.name) == "item" {
      sites := [Site([], e, [])];
      assert Events(e) == [] + (Events(e) + []);
    } else {
      var inner := ChildHashesStand(canon, e.children);
      OpenOne(Start(e.name, e.attrs), 0);
      StandWithin(canon, [Start(e.name, e.attrs)], ChildEvents(e.children), inner, ChildHashes(canon, e.children),
                  [End(e.name)]);
      sites := Within([Start(e.name, e.attrs)], inner, [End(e.name)]);
    }
  }

  lemma {:induction false} ChildHashesStand(canon: string -> string, cs: seq<Child>) returns (sites: seq<Site>)
    ensures Stand(canon, ChildEvents(cs), sites, ChildHashes(canon, cs))
    decreases cs, 0
  {
    if cs == [] {
      sites := [];
    } else {
      var first := ChildHashStands(canon, cs[0]);
      var rest := ChildHashesStand(canon, cs[1..]);
      OpenChild(cs[0], 0);
      StandConcat(canon, ChildEvent(cs[0]), first, ChildHash(canon, cs[0]),
                  ChildEvents(cs[1..]), rest, ChildHashes(canon, cs[1..]));
      sites := Within([], first, ChildEvents(cs[1..])) + Within(ChildEvent(cs[0]), rest, []);
    }
  }

  lemma {:induction false} ChildHashStands(canon: string -> string, c: Child) returns (sites: seq<Site>)
    ensures Stand(canon, ChildEvent(c), sites, ChildHash(canon, c))
    decreases c, 0
  {
    if c.Elem? {
      sites := HashesStand(canon, c.element);
    } else {
      sites := [];
    }
  }
}
