/** The Torznab parser with its tree on the heap: an element is attached to its parent when it is
    opened and filled in place afterwards. It builds the tree that the value model describes. */
module TorznabHeap {
  import opened TorznabTree

  datatype Kid = KidElement(node: Node) | KidText(text: string)

  class Node {
    const name: string
    const attrs: seq<Attr>
    var children: seq<Kid>
    /** Set when the element is closed: the tree that this node is the root of. */
    ghost var tree: Element
    ghost var done: bool

    constructor (name: string, attrs: seq<Attr>)
      ensures this.name == name && this.attrs == attrs && children == [] && !done
    {
      this.name, this.attrs, children, done := name, attrs, [], false;
      tree := Element(name, attrs, []);
    }
  }

  ghost predicate KidIs(k: Kid, c: Child)
    reads if k.KidElement? then {k.node} else {}
  {
    match k
    case KidText(t) => c == Text(t)
    case KidElement(n) => c.Elem? && n.done && n.tree == c.element
  }

  /** Children of a node, as those of a tree. */
  ghost predicate KidsAre(kids: seq<Kid>, cs: seq<Child>)
    reads set k | 0 <= k < |kids| && kids[k].KidElement? :: kids[k].node
  {
    |kids| == |cs| && forall j :: 0 <= j < |kids| ==> KidIs(kids[j], cs[j])
  }

  function Last(stack: seq<Node>): Node
    requires stack != []
  {
    stack[|stack| - 1]
  }

  /** The children that are finished: for a node with an open child, all but that one. */
  ghost function Finished(stack: seq<Node>, i: nat): seq<Kid>
    requires i < |stack|
    reads stack[i]
  {
    if i == |stack| - 1 || stack[i].children == [] then stack[i].children
    else stack[i].children[..|stack[i].children| - 1]
  }

  function WithText(kids: seq<Kid>, text: string): seq<Kid> {
    var n := |kids|;
    if n > 0 && kids[n - 1].KidText? then kids[n - 1 := KidText(kids[n - 1].text + text)] else kids + [KidText(text)]
  }

  /** Adding text to children adds it to those of the tree. */
  lemma WithTextIs(kids: seq<Kid>, cs: seq<Child>, text: string)
    requires KidsAre(kids, cs)
    ensures KidsAre(WithText(kids, text), AddText(cs, text))
  {
  }

  class Parser {
    var root: Node?
    var stack: seq<Node>
    ghost var nodes: set<Node>
    ghost var model: State

    /** All nodes made so far. */
    ghost predicate Owned()
      reads this, nodes
    {
      && (forall i :: 0 <= i < |stack| ==> stack[i] in nodes)
      && (root != null ==> root in nodes)
      && (forall n, k :: n in nodes && 0 <= k < |n.children| && n.children[k].KidElement? ==> n.children[k].node in nodes)
    }

    /** A closed node is the tree it is said to be. */
    ghost predicate ClosedRight()
      reads this, nodes
      requires Owned()
    {
      forall n :: n in nodes && n.done ==>
                    n.name == n.tree.name && n.attrs == n.tree.attrs && KidsAre(n.children, n.tree.children)
    }

    ghost predicate OpenAt(i: nat)
      reads this, nodes
      requires Owned() && i < |stack| && i < |model.stack|
    {
      && !stack[i].done && stack[i].name == model.stack[i].name && stack[i].attrs == model.stack[i].attrs
      && KidsAre(Finished(stack, i), model.stack[i].children)
    }

    /** An open node is one of the open elements of the model; the next one is its last child. */
    ghost predicate OpenRight()
      reads this, nodes
      requires Owned()
    {
      && |stack| == |model.stack|
      && (forall i, j :: 0 <= i < j < |stack| ==> stack[i] != stack[j])
      && (forall i :: 0 <= i < |stack| ==> OpenAt(i))
      && (forall i :: 0 <= i < |stack| - 1 ==>
            stack[i].children != [] && stack[i].children[|stack[i].children| - 1] == KidElement(stack[i + 1]))
    }

    ghost predicate RootRight()
      reads this, nodes
      requires Owned()
    {
      if stack == [] then (if root == null then model.root == [] else root.done && model.root == [root.tree])
      else root == stack[0] && model.root == []
    }

    ghost predicate Valid()
      reads this, nodes
    {
      Owned() && ClosedRight() && OpenRight() && RootRight()
    }

    constructor ()
      ensures Valid() && model == INITIAL && fresh(nodes)
    {
      root, stack, nodes, model := null, [], {}, INITIAL;
    }

    /** A start tag outside any element. */
    method OpenRoot(name: string, attrs: seq<Attr>)
      requires Valid() && stack == [] && Step(model, Start(name, attrs)).Ok?
      modifies this
      ensures Valid() && model == Step(old(model), Start(name, attrs)).value && fresh(nodes - old(nodes))
    {
      var node := new Node(name, attrs);
      root := node;
      stack := [node];
      nodes := nodes + {node};
      model := Step(model, Start(name, attrs)).value;
      assert stack[0] == node && model.stack == [Element(name, attrs, [])];
    }

    /** A start tag inside an element: the new node becomes its last child at once. */
    method OpenChild(name: string, attrs: seq<Attr>)
      requires Valid() && stack != [] && Step(model, Start(name, attrs)).Ok?
      modifies this, Last(stack)
      ensures Valid() && model == Step(old(model), Start(name, attrs)).value && fresh(nodes - old(nodes))
    {
      var node := Push(name, attrs);
      OpenedOwned(node);
      OpenedClosed(node);
      OpenedOpen(node);
    }

    method Push(name: string, attrs: seq<Attr>) returns (node: Node)
      requires Valid() && stack != [] && Step(model, Start(name, attrs)).Ok?
      modifies this, Last(stack)
      ensures fresh(node) && node.name == name && node.attrs == attrs && Opened(node)
    {
      node := new Node(name, attrs);
      var parent := Last(stack);
      parent.children := parent.children + [KidElement(node)];
      stack := stack + [node];
      nodes := nodes + {node};
      model := Step(model, Start(name, attrs)).value;
    }

    twostate predicate Opened(new node: Node)
      reads this, nodes, node
    {
      && old(Valid()) && old(stack) != [] && node !in old(nodes)
      && stack == old(stack) + [node] && nodes == old(nodes) + {node} && root == old(root)
      && !node.done && node.children == []
      && (forall n :: n in old(nodes) ==> n.done == old(n.done) && n.tree == old(n.tree))
      && (forall n :: n in old(nodes) && n != Last(old(stack)) ==> n.children == old(n.children))
      && Last(old(stack)).children == old(Last(stack).children) + [KidElement(node)]
      && model == old(model).(stack := old(model.stack) + [Element(node.name, node.attrs, [])])
    }

    twostate lemma OpenedOwned(new node: Node)
      requires Opened(node)
      ensures Owned() && RootRight()
    {
    }

    twostate lemma OpenedClosed(new node: Node)
      requires Opened(node) && Owned()
      ensures ClosedRight()
    {
      forall n | n in nodes && n.done
        ensures n.name == n.tree.name && n.attrs == n.tree.attrs && KidsAre(n.children, n.tree.children)
      {
        assert old(OpenAt(|stack| - 1));
        assert n != Last(old(stack));
        assert old(KidsAre(n.children, n.tree.children));
      }
    }

    twostate lemma OpenedOpen(new node: Node)
      requires Opened(node) && Owned()
      ensures OpenRight()
    {
      forall i | 0 <= i < |stack| ensures OpenAt(i) {
        if i < |old(stack)| {
          assert old(OpenAt(i));
          assert Finished(stack, i) == old(Finished(stack, i));
        }
      }
    }

    /** Text inside an element: joined in place to text before it. */
    method AddChars(text: string)
      requires Valid() && stack != [] && !Blank(text)
      modifies this, Last(stack)
      ensures Valid() && model == Step(old(model), Chars(text)).value && nodes == old(nodes)
    {
      Fill(text);
      FilledOwned(text);
      FilledClosed(text);
      FilledBelow(text);
      FilledTop(text);
    }

    method Fill(text: string)
      requires Valid() && stack != [] && !Blank(text)
      modifies this, Last(stack)
      ensures Filled(text)
    {
      var parent := Last(stack);
      var n := |parent.children|;
      if n > 0 && parent.children[n - 1].KidText? {
        parent.children := parent.children[n - 1 := KidText(parent.children[n - 1].text + text)];
      } else {
        parent.children := parent.children + [KidText(text)];
      }
      model := Step(model, Chars(text)).value;
    }

    twostate predicate Filled(text: string)
      reads this, nodes
    {
      && old(Valid()) && old(stack) != [] && !Blank(text)
      && stack == old(stack) && nodes == old(nodes) && root == old(root)
      && (forall n :: n in nodes ==> n.done == old(n.done) && n.tree == old(n.tree))
      && (forall n :: n in nodes && n != Last(stack) ==> n.children == old(n.children))
      && Last(stack).children == WithText(old(Last(stack).children), text)
      && model == Step(old(model), Chars(text)).value
    }

    twostate lemma FilledOwned(text: string)
      requires Filled(text)
      ensures Owned() && RootRight()
    {
    }

    twostate lemma FilledClosed(text: string)
      requires Filled(text) && Owned()
      ensures ClosedRight()
    {
      forall n | n in nodes && n.done
        ensures n.name == n.tree.name && n.attrs == n.tree.attrs && KidsAre(n.children, n.tree.children)
      {
        assert old(OpenAt(|stack| - 1));
        assert n != Last(stack);
        assert old(KidsAre(n.children, n.tree.children));
      }
    }

    twostate lemma FilledBelow(text: string)
      requires Filled(text) && Owned()
      ensures |model.stack| == |stack|
      ensures forall i :: 0 <= i < |stack| - 1 ==> OpenAt(i)
    {
      forall i | 0 <= i < |stack| - 1 ensures OpenAt(i) {
        assert old(OpenAt(i));
        assert Finished(stack, i) == old(Finished(stack, i));
      }
    }

    twostate lemma FilledTop(text: string)
      requires Filled(text) && Owned()
      ensures |model.stack| == |stack| && OpenAt(|stack| - 1)
    {
      assert old(OpenAt(|stack| - 1));
      var kids, cs := old(Finished(stack, |stack| - 1)), old(model.stack[|stack| - 1].children);
      assert KidsAre(kids, cs) by {
        forall j | 0 <= j < |kids| ensures KidIs(kids[j], cs[j]) {
          assert old(KidIs(kids[j], cs[j]));
        }
      }
      WithTextIs(kids, cs, text);
    }

    /** An end tag: the node is finished. */
    method Close(name: string)
      requires Valid() && Step(model, End(name)).Ok?
      modifies this, Last(stack)
      ensures Valid() && model == Step(old(model), End(name)).value && nodes == old(nodes)
    {
      Pop(name);
      ShutOwned(name);
      ShutClosed(name);
      ShutNode(name);
      ShutBelow(name);
      ShutTop(name);
    }

    method Pop(name: string)
      requires Valid() && Step(model, End(name)).Ok?
      modifies this, Last(stack)
      ensures Shut(name)
    {
      ghost var node := Last(stack);
      node.done, node.tree := true, Top(model.stack);
      stack := stack[..|stack| - 1];
      model := Step(model, End(name)).value;
    }

    twostate predicate Shut(name: string)
      reads this, nodes
    {
      && old(Valid()) && Step(old(model), End(name)).Ok? && old(stack) != []
      && stack == old(stack)[..|old(stack)| - 1] && nodes == old(nodes) && root == old(root)
      && (forall n :: n in nodes ==> n.children == old(n.children))
      && (forall n :: n in nodes && n != Last(old(stack)) ==> n.done == old(n.done) && n.tree == old(n.tree))
      && Last(old(stack)).done && Last(old(stack)).tree == Top(old(model.stack))
      && model == Step(old(model), End(name)).value
    }

    twostate lemma ShutOwned(name: string)
      requires Shut(name)
      ensures Owned() && RootRight()
    {
    }

    twostate lemma ShutClosed(name: string)
      requires Shut(name) && Owned()
      ensures forall n :: n in nodes && n.done && n != Last(old(stack)) ==>
                n.name == n.tree.name && n.attrs == n.tree.attrs && KidsAre(n.children, n.tree.children)
    {
      assert old(OpenAt(|stack| - 1));
      forall n | n in nodes && n.done && n != Last(old(stack))
        ensures n.name == n.tree.name && n.attrs == n.tree.attrs && KidsAre(n.children, n.tree.children)
      {
        assert old(KidsAre(n.children, n.tree.children));
        forall j | 0 <= j < |n.children| ensures KidIs(n.children[j], n.tree.children[j]) {
          assert old(KidIs(n.children[j], n.tree.children[j]));
        }
      }
    }

    twostate lemma ShutNode(name: string)
      requires Shut(name) && Owned()
      ensures var n := Last(old(stack));
              n.name == n.tree.name && n.attrs == n.tree.attrs && KidsAre(n.children, n.tree.children)
    {
      var n := Last(old(stack));
      assert old(Finished(stack, |stack| - 1)) == n.children;
      assert old(OpenAt(|stack| - 1));
      var kids, cs := n.children, Top(old(model.stack)).children;
      forall j | 0 <= j < |kids| ensures KidIs(kids[j], cs[j]) {
        assert old(KidIs(kids[j], cs[j]));
      }
    }

    twostate lemma ShutBelow(name: string)
      requires Shut(name) && Owned()
      ensures |model.stack| == |stack|
      ensures forall i :: 0 <= i < |stack| - 1 ==> OpenAt(i)
    {
      assert old(OpenAt(|stack| - 1));
      forall i | 0 <= i < |stack| - 1 ensures OpenAt(i) {
        assert old(OpenAt(i));
        assert Finished(stack, i) == old(Finished(stack, i));
      }
    }

    twostate lemma ShutTop(name: string)
      requires Shut(name) && Owned()
      ensures stack != [] ==> |model.stack| == |stack| && OpenAt(|stack| - 1)
    {
      if stack != [] {
        var top := |stack| - 1;
        assert old(OpenAt(|stack| - 1)) && old(OpenAt(|stack| - 2));
        var kids, cs := old(Finished(stack, |stack| - 2)), old(model.stack[|stack| - 2].children);
        forall j | 0 <= j < |kids| ensures KidIs(kids[j], cs[j]) {
          assert old(KidIs(kids[j], cs[j]));
        }
        assert Finished(stack, top) == kids + [KidElement(Last(old(stack)))];
      }
    }

    /** One token, with the checks of the source in its order. */
    method Feed(tok: Token) returns (failed: seq<Error>)
      requires Valid()
      modifies this, nodes
      ensures failed == ErrorOf(Step(old(model), tok))
      ensures failed == [] ==> Valid() && model == Step(old(model), tok).value && fresh(nodes - old(nodes))
    {
      failed := [];
      assert stack != [] ==> OpenAt(|stack| - 1);
      if tok.Start? {
        failed := FeedStart(tok.name, tok.attrs);
      } else if tok.End? {
        if stack == [] {
          failed := [UnexpectedClosing];
        } else if tok.name != Last(stack).name {
          failed := [Mismatch];
        } else {
          Close(tok.name);
        }
      } else if tok.Chars? && !Blank(tok.text) {
        if stack == [] {
          failed := [TextOutsideRoot];
        } else {
          AddChars(tok.text);
        }
      }
    }

    method FeedStart(name: string, attrs: seq<Attr>) returns (failed: seq<Error>)
      requires Valid()
      modifies this, nodes
      ensures failed == ErrorOf(Step(old(model), Start(name, attrs)))
      ensures failed == [] ==>
                Valid() && model == Step(old(model), Start(name, attrs)).value && fresh(nodes - old(nodes))
    {
      var distinct := HasDistinctAttrs(attrs);
      failed := [];
      if !distinct {
        failed := [DuplicateAttribute];
      } else if stack == [] && root != null {
        failed := [MultipleRoots];
      } else if stack == [] {
        OpenRoot(name, attrs);
      } else {
        OpenChild(name, attrs);
      }
    }
  }

  function ErrorOf<T>(r: Result<T>): seq<Error> {
    if r.Err? then [r.error] else []
  }

  /** The parser: the errors of the value model, or a root node whose tree is the model's. */
  method ParseTorznabXML(tokens: seq<Token>) returns (root: Node?, failed: seq<Error>, ghost nodes: set<Node>)
    ensures failed == ErrorOf(Parse(tokens))
    ensures failed == [] ==> root != null && root in nodes && root.done && root.tree == Parse(tokens).value
    ensures failed == [] ==>
              forall n :: n in nodes && n.done ==>
                            && n.name == n.tree.name && n.attrs == n.tree.attrs
                            && KidsAre(n.children, n.tree.children)
                            && forall k :: 0 <= k < |n.children| && n.children[k].KidElement? ==> n.children[k].node in nodes
  {
    var p := new Parser();
    for i := 0 to |tokens|
      invariant fresh(p) && fresh(p.nodes) && p.Valid()
      invariant Run(p.model, tokens[i..]) == Run(INITIAL, tokens)
    {
      assert tokens[i..][1..] == tokens[i + 1..];
      failed := p.Feed(tokens[i]);
      if failed != [] {
        return null, failed, {};
      }
    }
    nodes := p.nodes;
    if p.stack != [] {
      return null, [Unclosed], {};
    }
    if p.root == null {
      return null, [NoRoot], {};
    }
    return p.root, [], nodes;
  }
}
