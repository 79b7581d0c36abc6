/** Printing compiled actions as sources, and compiling what was printed. */
module ClassifierPrint {
  import opened Options
  import opened Classifier
  import opened ClassifierCompile

  /** How conditions and content types are written, and whether the fields of an `if_else` have their
      Go names or their snake case names. */
  datatype Writing = Writing(condition: nat -> Source, contentType: nat -> string, goNames: bool)

  const ATTACH_NAMES: seq<string> := [
    "attach_local_content_by_id", "attach_local_content_by_search",
    "attach_tmdb_content_by_id", "attach_tmdb_content_by_search"
  ]

  /** An action as the compiler makes it: a sequence of actions that each have one source node. */
  predicate Printable(cfg: Config, wr: Writing, a: Action)
    decreases a, 1
  {
    a.Seq? && forall k :: 0 <= k < |a.actions| ==> PrintableNode(cfg, wr, a.actions[k])
  }

  predicate PrintableNode(cfg: Config, wr: Writing, a: Action)
    decreases a, 0
  {
    match a
    case Seq(_) => false
    case AddTag(tags) => forall k :: 0 <= k < |tags| ==> cfg.validTag(tags[k])
    case DeleteTorrent => true
    case NoMatch => true
    case Leaf(id) => id == 0 || cfg.contentType(wr.contentType(id - 1)) == Some(id - 1)
    case Attach(id) => id < 4
    case Parse(id) => id == 0
    case FindMatch(alternatives) => forall k :: 0 <= k < |alternatives| ==> Printable(cfg, wr, alternatives[k])
    case IfElse(cond, i, e) =>
      && cfg.condition(wr.condition(cond)) == Success(cond)
      && (i.Some? ==> Printable(cfg, wr, i.value))
      && (e.Some? ==> Printable(cfg, wr, e.value))
    case RunWorkflow(names) => forall k :: 0 <= k < |names| ==> names[k] in cfg.workflows
  }

  function Texts(ts: seq<string>): (r: seq<Source>)
    ensures |r| == |ts| && forall k :: 0 <= k < |r| ==> r[k] == Text(ts[k])
  {
    seq(|ts|, k requires 0 <= k < |ts| => Text(ts[k]))
  }

  function Keyed(key: string, value: Source): Source {
    Object(map[key := value])
  }

  /** The payload of an `if_else`; a missing branch has no key. */
  function Branches(wr: Writing, cond: Source, i: Option<Source>, e: Option<Source>): map<string, Source> {
    var m := map[(if wr.goNames then "Condition" else "condition") := cond];
    var m := if i.Some? then m[(if wr.goNames then "IfAction" else "if_action") := i.value] else m;
    if e.Some? then m[(if wr.goNames then "ElseAction" else "else_action") := e.value] else m
  }

  function Print(cfg: Config, wr: Writing, a: Action): (s: Source)
    requires Printable(cfg, wr, a)
    ensures s.List?
    decreases a, 1
  {
    List(seq(|a.actions|, k requires 0 <= k < |a.actions| => PrintNode(cfg, wr, a.actions[k])))
  }

  function PrintNode(cfg: Config, wr: Writing, a: Action): Source
    requires PrintableNode(cfg, wr, a)
    decreases a, 0
  {
    match a
    case AddTag(tags) => Keyed("add_tag", List(Texts(tags)))
    case DeleteTorrent => Text("delete")
    case NoMatch => Text("unmatched")
    case Leaf(id) => if id == 0 then Text("parse_date") else Keyed("set_content_type", Text(wr.contentType(id - 1)))
    case Attach(id) => Text(ATTACH_NAMES[id])
    case Parse(_) => Text("parse_video_content")
    case FindMatch(alternatives) =>
      Keyed("find_match", List(seq(|alternatives|, k requires 0 <= k < |alternatives| => Print(cfg, wr, alternatives[k]))))
    case IfElse(cond, i, e) =>
      Keyed("if_else", Object(Branches(wr, wr.condition(cond),
                                       if i.Some? then Some(Print(cfg, wr, i.value)) else None,
                                       if e.Some? then Some(Print(cfg, wr, e.value)) else None)))
    case RunWorkflow(names) => Keyed("run_workflow", List(Texts(names)))
  }

  // --------------------------------------------------------------------------------------
  // Compiling what was printed
  // --------------------------------------------------------------------------------------

  lemma Decides(cfg: Config, j: nat, s: Source, a: Action)
    requires j < 13 && TryDef(cfg, DEFAULT_DEFINITIONS, DEFAULT_DEFINITIONS[j], s) == Success(a)
    ensures TryDefs(cfg, DEFAULT_DEFINITIONS, 0, s) == Success(a)
  {
    DefaultsHaveDistinctNames();
    OnlyOneDecides(cfg, DEFAULT_DEFINITIONS, 0, j, s);
  }

  lemma KeyedValue(key: string, value: Source)
    ensures SingleValue(Keyed(key, value), key) == Some(value)
  {
  }

  lemma TextsRead(ts: seq<string>)
    ensures TextsOf(Texts(ts)) == ts
  {
  }

  lemma BranchesRead(wr: Writing, cond: Source, i: Option<Source>, e: Option<Source>)
    ensures var m := Branches(wr, cond, i, e);
            && IfElseKeys(m)
            && Field(m, "Condition", "condition") == cond
            && Field(m, "IfAction", "if_action") == (if i.Some? then i.value else Null)
            && Field(m, "ElseAction", "else_action") == (if e.Some? then e.value else Null)
  {
  }

  /** Compiling a printed action gives the action. */
  lemma {:induction false} PrintCompiles(cfg: Config, wr: Writing, a: Action)
    requires Printable(cfg, wr, a)
    ensures Compile(cfg, DEFAULT_DEFINITIONS, Print(cfg, wr, a)) == Success(a)
    decreases a, 1, 0
  {
    NodesCompile(cfg, wr, a, 0);
    assert a.actions[0..] == a.actions;
  }

  lemma {:induction false} NodesCompile(cfg: Config, wr: Writing, a: Action, k: nat)
    requires Printable(cfg, wr, a) && k <= |a.actions|
    ensures CompileRaws(cfg, DEFAULT_DEFINITIONS, Print(cfg, wr, a), k) == Success(a.actions[k..])
    decreases a, 0, |a.actions| - k
  {
    var s := Print(cfg, wr, a);
    if k == |a.actions| {
      assert a.actions[k..] == [];
    } else {
      NodeCompiles(cfg, wr, a.actions[k]);
      NodesCompile(cfg, wr, a, k + 1);
      assert s.items[k] == PrintNode(cfg, wr, a.actions[k]);
      assert a.actions[k..] == [a.actions[k]] + a.actions[k + 1..];
    }
  }

  lemma {:induction false} NodeCompiles(cfg: Config, wr: Writing, a: Action)
    requires PrintableNode(cfg, wr, a)
    ensures TryDefs(cfg, DEFAULT_DEFINITIONS, 0, PrintNode(cfg, wr, a)) == Success(a)
    decreases a, 0, 1
  {
    match a
    case AddTag(tags) =>
      KeyedValue("add_tag", List(Texts(tags)));
      TextsRead(tags);
      Decides(cfg, 0, PrintNode(cfg, wr, a), a);
    case RunWorkflow(names) =>
      KeyedValue("run_workflow", List(Texts(names)));
      TextsRead(names);
      Decides(cfg, 11, PrintNode(cfg, wr, a), a);
    case FindMatch(_) =>
      FindCompiles(cfg, wr, a);
    case IfElse(_, _, _) =>
      IfElseCompiles(cfg, wr, a);
    case _ =>
      LiteralCompiles(cfg, wr, a);
  }

  lemma LiteralCompiles(cfg: Config, wr: Writing, a: Action)
    requires PrintableNode(cfg, wr, a)
    requires a.DeleteTorrent? || a.NoMatch? || a.Leaf? || a.Attach? || a.Parse?
    ensures TryDefs(cfg, DEFAULT_DEFINITIONS, 0, PrintNode(cfg, wr, a)) == Success(a)
  {
    var s := PrintNode(cfg, wr, a);
    match a
    case DeleteTorrent => Decides(cfg, 5, s, a);
    case NoMatch => Decides(cfg, 8, s, a);
    case Attach(id) => Decides(cfg, id + 1, s, a);
    case Parse(_) => Decides(cfg, 10, s, a);
    case Leaf(id) =>
      if id == 0 {
        Decides(cfg, 9, s, a);
      } else {
        KeyedValue("set_content_type", Text(wr.contentType(id - 1)));
        Decides(cfg, 12, s, a);
      }
  }

  lemma {:induction false} FindCompiles(cfg: Config, wr: Writing, a: Action)
    requires PrintableNode(cfg, wr, a) && a.FindMatch?
    ensures TryDefs(cfg, DEFAULT_DEFINITIONS, 0, PrintNode(cfg, wr, a)) == Success(a)
    decreases a, 0, 0
  {
    var s := PrintNode(cfg, wr, a);
    var v := s.fields["find_match"];
    KeyedValue("find_match", v);
    ItemsCompile(cfg, wr, a.alternatives, v, 0);
    assert a.alternatives[0..] == a.alternatives;
    assert Null !in ListItems(v);
    Decides(cfg, 6, s, a);
  }

  lemma {:induction false} ItemsCompile(cfg: Config, wr: Writing, alternatives: seq<Action>, v: Source, k: nat)
    requires k <= |alternatives| && forall j :: 0 <= j < |alternatives| ==> Printable(cfg, wr, alternatives[j])
    requires v.List? && |v.items| == |alternatives|
    requires forall j :: 0 <= j < |alternatives| ==> v.items[j] == Print(cfg, wr, alternatives[j])
    ensures CompileItems(cfg, DEFAULT_DEFINITIONS, v, k) == Success(alternatives[k..])
    decreases alternatives, 0, |alternatives| - k
  {
    if k < |alternatives| {
      PrintCompiles(cfg, wr, alternatives[k]);
      ItemsCompile(cfg, wr, alternatives, v, k + 1);
      assert alternatives[k..] == [alternatives[k]] + alternatives[k + 1..];
    }
  }

  lemma {:induction false} IfElseCompiles(cfg: Config, wr: Writing, a: Action)
    requires PrintableNode(cfg, wr, a) && a.IfElse?
    ensures TryDefs(cfg, DEFAULT_DEFINITIONS, 0, PrintNode(cfg, wr, a)) == Success(a)
    decreases a, 0, 0
  {
    var s := PrintNode(cfg, wr, a);
    var v := s.fields["if_else"];
    KeyedValue("if_else", v);
    BranchesRead(wr, wr.condition(a.cond),
                 if a.ifAction.Some? then Some(Print(cfg, wr, a.ifAction.value)) else None,
                 if a.elseAction.Some? then Some(Print(cfg, wr, a.elseAction.value)) else None);
    if a.ifAction.Some? { PrintCompiles(cfg, wr, a.ifAction.value); }
    if a.elseAction.Some? { PrintCompiles(cfg, wr, a.elseAction.value); }
    assert CompileBranch(cfg, DEFAULT_DEFINITIONS, v, "IfAction", "if_action") == Success(a.ifAction);
    assert CompileBranch(cfg, DEFAULT_DEFINITIONS, v, "ElseAction", "else_action") == Success(a.elseAction);
    Decides(cfg, 7, s, a);
  }

  // --------------------------------------------------------------------------------------
  // Everything compiled can be printed
  // --------------------------------------------------------------------------------------

  /** `wr` can write every condition and content type that the compiler accepts. */
  ghost predicate Covers(cfg: Config, wr: Writing) {
    && (forall s, n :: cfg.condition(s) == Success(n) ==> cfg.condition(wr.condition(n)) == Success(n))
    && (forall t, n :: cfg.contentType(t) == Some(n) ==> cfg.contentType(wr.contentType(n)) == Some(n))
  }

  predicate AllNodes(cfg: Config, wr: Writing, actions: seq<Action>) {
    forall k :: 0 <= k < |actions| ==> PrintableNode(cfg, wr, actions[k])
  }

  predicate AllPrintable(cfg: Config, wr: Writing, actions: seq<Action>) {
    forall k :: 0 <= k < |actions| ==> Printable(cfg, wr, actions[k])
  }

  lemma NodesPrepend(cfg: Config, wr: Writing, a: Action, rest: seq<Action>)
    requires PrintableNode(cfg, wr, a) && AllNodes(cfg, wr, rest)
    ensures AllNodes(cfg, wr, [a] + rest)
  {
    forall k | 0 <= k < |[a] + rest| ensures PrintableNode(cfg, wr, ([a] + rest)[k]) {
      if k > 0 { assert ([a] + rest)[k] == rest[k - 1]; }
    }
  }

  lemma ActionsPrepend(cfg: Config, wr: Writing, a: Action, rest: seq<Action>)
    requires Printable(cfg, wr, a) && AllPrintable(cfg, wr, rest)
    ensures AllPrintable(cfg, wr, [a] + rest)
  {
    forall k | 0 <= k < |[a] + rest| ensures Printable(cfg, wr, ([a] + rest)[k]) {
      if k > 0 { assert ([a] + rest)[k] == rest[k - 1]; }
    }
  }

  lemma {:induction false} CompiledIsPrintable(cfg: Config, wr: Writing, s: Source)
    requires Covers(cfg, wr)
    ensures var r := Compile(cfg, DEFAULT_DEFINITIONS, s); r.Success? ==> Printable(cfg, wr, r.value)
    decreases s, 2, 0
  {
    RawsArePrintable(cfg, wr, s, 0);
    var raws := CompileRaws(cfg, DEFAULT_DEFINITIONS, s, 0);
    if raws.Success? {
      assert Printable(cfg, wr, Seq(raws.value));
    }
  }

  lemma {:induction false} RawsArePrintable(cfg: Config, wr: Writing, s: Source, k: nat)
    requires Covers(cfg, wr) && k <= |RawActions(s)|
    ensures var r := CompileRaws(cfg, DEFAULT_DEFINITIONS, s, k);
            r.Success? ==> AllNodes(cfg, wr, r.value)
    decreases s, 1, |RawActions(s)| - k
  {
    if k < |RawActions(s)| {
      var raw := if s.List? then s.items[k] else s;
      TriedIsPrintable(cfg, wr, 0, raw);
      RawsArePrintable(cfg, wr, s, k + 1);
      var first, rest := TryDefs(cfg, DEFAULT_DEFINITIONS, 0, raw), CompileRaws(cfg, DEFAULT_DEFINITIONS, s, k + 1);
      var r := CompileRaws(cfg, DEFAULT_DEFINITIONS, s, k);
      if r.Success? {
        assert first.Success? && rest.Success? && r.value == [first.value] + rest.value;
        NodesPrepend(cfg, wr, first.value, rest.value);
      }
    }
  }

  lemma {:induction false} TriedIsPrintable(cfg: Config, wr: Writing, k: nat, s: Source)
    requires Covers(cfg, wr) && k <= 13
    ensures var r := TryDefs(cfg, DEFAULT_DEFINITIONS, k, s); r.Success? ==> PrintableNode(cfg, wr, r.value)
    decreases s, 0, 14 - k
  {
    if k < 13 {
      DefinedIsPrintable(cfg, wr, k, s);
      TriedIsPrintable(cfg, wr, k + 1, s);
    }
  }

  lemma {:induction false} DefinedIsPrintable(cfg: Config, wr: Writing, k: nat, s: Source)
    requires Covers(cfg, wr) && k < 13
    ensures var r := TryDef(cfg, DEFAULT_DEFINITIONS, DEFAULT_DEFINITIONS[k], s);
            r.Success? ==> PrintableNode(cfg, wr, r.value)
    decreases s, 0, 0
  {
    var d := DEFAULT_DEFINITIONS[k];
    if !d.Literal? && SingleValue(s, NameOf(d)).Some? {
      var v := s.fields[NameOf(d)];
      if d.FindMatchDef? {
        ItemsArePrintable(cfg, wr, v, 0);
      } else if d.IfElseDef? && v.Object? {
        BranchIsPrintable(cfg, wr, v, "IfAction", "if_action");
        BranchIsPrintable(cfg, wr, v, "ElseAction", "else_action");
      }
    }
  }

  lemma {:induction false} ItemsArePrintable(cfg: Config, wr: Writing, v: Source, k: nat)
    requires Covers(cfg, wr) && k <= |ListItems(v)|
    ensures var r := CompileItems(cfg, DEFAULT_DEFINITIONS, v, k);
            r.Success? ==> AllPrintable(cfg, wr, r.value)
    decreases v, 3, |ListItems(v)| - k
  {
    if k < |ListItems(v)| {
      var item := if v.List? then v.items[k] else v;
      CompiledIsPrintable(cfg, wr, item);
      ItemsArePrintable(cfg, wr, v, k + 1);
      var first, rest := Compile(cfg, DEFAULT_DEFINITIONS, item), CompileItems(cfg, DEFAULT_DEFINITIONS, v, k + 1);
      var r := CompileItems(cfg, DEFAULT_DEFINITIONS, v, k);
      if r.Success? {
        assert first.Success? && rest.Success? && r.value == [first.value] + rest.value;
        ActionsPrepend(cfg, wr, first.value, rest.value);
      }
    }
  }

  lemma {:induction false} BranchIsPrintable(cfg: Config, wr: Writing, v: Source, goName: string, snake: string)
    requires Covers(cfg, wr) && v.Object?
    ensures var r := CompileBranch(cfg, DEFAULT_DEFINITIONS, v, goName, snake);
            r.Success? && r.value.Some? ==> Printable(cfg, wr, r.value.value)
    decreases v, 2, 0
  {
    var b := Field(v.fields, goName, snake);
    if !b.Null? {
      CompiledIsPrintable(cfg, wr, b);
    }
  }

  /** For every accepted source: printing what was compiled is a source with the same compilation. */
  lemma CompilePrintCompile(cfg: Config, wr: Writing, s: Source)
    requires Covers(cfg, wr) && Compile(cfg, DEFAULT_DEFINITIONS, s).Success?
    ensures var a := Compile(cfg, DEFAULT_DEFINITIONS, s).value;
            Printable(cfg, wr, a) && Compile(cfg, DEFAULT_DEFINITIONS, Print(cfg, wr, a)) == Success(a)
  {
    CompiledIsPrintable(cfg, wr, s);
    PrintCompiles(cfg, wr, Compile(cfg, DEFAULT_DEFINITIONS, s).value);
  }

  // --------------------------------------------------------------------------------------
  // What is rejected, and how
  // --------------------------------------------------------------------------------------

  /** What the node at `k` of a source compiles to. */
  function NodeAt(cfg: Config, s: Source, k: nat): Compiled<Action>
    requires k < |RawActions(s)|
  {
    TryDefs(cfg, DEFAULT_DEFINITIONS, 0, RawActions(s)[k])
  }

  /** A source fails fatally exactly if one of its nodes does, wherever it stands; otherwise softly
      exactly if one of them does; otherwise it is the sequence of its nodes. */
  lemma NodesDecide(cfg: Config, s: Source)
    ensures NodesDecided(cfg, s, 0, CompileRaws(cfg, DEFAULT_DEFINITIONS, s, 0))
    ensures match CompileRaws(cfg, DEFAULT_DEFINITIONS, s, 0)
            case Fatal => Compile(cfg, DEFAULT_DEFINITIONS, s) == Fatal
            case Soft => Compile(cfg, DEFAULT_DEFINITIONS, s) == Soft
            case Success(actions) => Compile(cfg, DEFAULT_DEFINITIONS, s) == Success(Seq(actions))
  {
    NodesDecideFrom(cfg, s, 0);
  }

  /** `r` is what the nodes from `i` on make of a source. */
  ghost predicate NodesDecided(cfg: Config, s: Source, i: nat, r: Compiled<seq<Action>>) {
    var n := |RawActions(s)|;
    && (r.Fatal? <==> exists k :: i <= k < n && NodeAt(cfg, s, k).Fatal?)
    && (r.Success? <==> forall k :: i <= k < n ==> NodeAt(cfg, s, k).Success?)
    && (r.Success? ==> |r.value| == n - i)
    && (r.Success? ==> forall k :: i <= k < n ==> r.value[k - i] == NodeAt(cfg, s, k).value)
  }

  lemma {:induction false} NodesDecideFrom(cfg: Config, s: Source, i: nat)
    requires i <= |RawActions(s)|
    ensures NodesDecided(cfg, s, i, CompileRaws(cfg, DEFAULT_DEFINITIONS, s, i))
    decreases |RawActions(s)| - i
  {
    if i < |RawActions(s)| {
      NodesDecideFrom(cfg, s, i + 1);
      assert NodeAt(cfg, s, i) == TryDefs(cfg, DEFAULT_DEFINITIONS, 0, if s.List? then s.items[i] else s);
      OneMoreNode(cfg, s, i, CompileRaws(cfg, DEFAULT_DEFINITIONS, s, i + 1), CompileRaws(cfg, DEFAULT_DEFINITIONS, s, i));
    }
  }

  lemma OneMoreNode(cfg: Config, s: Source, i: nat, rest: Compiled<seq<Action>>, r: Compiled<seq<Action>>)
    requires i < |RawActions(s)| && NodesDecided(cfg, s, i + 1, rest)
    requires var first := NodeAt(cfg, s, i);
             r == if first.Fatal? || rest.Fatal? then Fatal
                  else if first.Soft? || rest.Soft? then Soft
                  else Success([first.value] + rest.value)
    ensures NodesDecided(cfg, s, i, r)
  {
  }

  /** A node that names no definition is rejected softly. */
  lemma UnknownIsSoft(cfg: Config, s: Source)
    requires forall j :: 0 <= j < 13 ==> !Selects(s, NameOf(DEFAULT_DEFINITIONS[j]))
    ensures TryDefs(cfg, DEFAULT_DEFINITIONS, 0, s).Soft?
  {
    forall j | 0 <= j < 13 ensures TryDef(cfg, DEFAULT_DEFINITIONS, DEFAULT_DEFINITIONS[j], s).Soft? {
      if !TryDef(cfg, DEFAULT_DEFINITIONS, DEFAULT_DEFINITIONS[j], s).Soft? {
        DecidesOnlyIfSelected(cfg, DEFAULT_DEFINITIONS, DEFAULT_DEFINITIONS[j], s);
      }
    }
    NoneDecides(cfg, DEFAULT_DEFINITIONS, 0, s);
  }

  lemma DecidesFatally(cfg: Config, j: nat, s: Source)
    requires j < 13 && TryDef(cfg, DEFAULT_DEFINITIONS, DEFAULT_DEFINITIONS[j], s).Fatal?
    ensures TryDefs(cfg, DEFAULT_DEFINITIONS, 0, s).Fatal?
  {
    DefaultsHaveDistinctNames();
    OnlyOneDecides(cfg, DEFAULT_DEFINITIONS, 0, j, s);
  }

  /** A known key with a payload that its definition does not accept is rejected fatally: a tag or
      workflow name that is no text or not valid, an unknown content type, an empty alternative, a
      field that `if_else` does not have or has twice. */
  lemma BadPayloadIsFatal(cfg: Config, key: string, v: Source)
    requires || (key == "add_tag" && exists x :: x in ListItems(v) && !(x.Text? && cfg.validTag(x.s)))
             || (key == "run_workflow" && exists x :: x in ListItems(v) && !(x.Text? && x.s in cfg.workflows))
             || (key == "set_content_type" && !(v.Text? && cfg.contentType(v.s).Some?))
             || (key == "find_match" && Null in ListItems(v))
             || (key == "if_else" && !v.Null? && !(v.Object? && IfElseKeys(v.fields)))
    ensures TryDefs(cfg, DEFAULT_DEFINITIONS, 0, Keyed(key, v)).Fatal?
  {
    KeyedValue(key, v);
    var s := Keyed(key, v);
    if key == "add_tag" {
      DecidesFatally(cfg, 0, s);
    } else if key == "run_workflow" {
      DecidesFatally(cfg, 11, s);
    } else if key == "set_content_type" {
      DecidesFatally(cfg, 12, s);
    } else if key == "find_match" {
      DecidesFatally(cfg, 6, s);
    } else {
      DecidesFatally(cfg, 7, s);
    }
  }
}
