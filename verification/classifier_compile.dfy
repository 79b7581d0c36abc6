/** Compiling classifier sources: each source node is offered to the registered definitions in
    order; the first one that accepts it, or rejects it fatally, decides. */
module ClassifierCompile {
  import opened Options
  import opened Classifier

  /** A decoded YAML or JSON value. */
  datatype Source =
    | Null
    | Text(s: string)
    | Scalar(n: int)
    | List(items: seq<Source>)
    | Object(fields: map<string, Source>)

  /** `Soft` errors let the next definition try; `Fatal` ones end the compilation. */
  datatype Compiled<+T> = Success(value: T) | Soft | Fatal

  /** The registered action definitions: literals such as `delete`, and keyed ones. */
  datatype Definition =
    | Literal(name: string, action: Action)
    | AddTagDef
    | FindMatchDef
    | IfElseDef
    | RunWorkflowDef
    | SetContentTypeDef

  function NameOf(d: Definition): string {
    match d
    case Literal(name, _) => name
    case AddTagDef => "add_tag"
    case FindMatchDef => "find_match"
    case IfElseDef => "if_else"
    case RunWorkflowDef => "run_workflow"
    case SetContentTypeDef => "set_content_type"
  }

  /** The compiler context: known workflows, tag and content type validation, and conditions. */
  datatype Config = Config(
    workflows: set<string>,
    validTag: string -> bool,
    contentType: string -> Option<nat>,
    condition: Source -> Compiled<nat>
  )

  // --------------------------------------------------------------------------------------
  // Payloads
  // --------------------------------------------------------------------------------------

  /** The value under `key` if the source is an object with that single key. */
  function SingleValue(s: Source, key: string): Option<Source> {
    if s.Object? && s.fields.Keys == {key} then Some(s.fields[key]) else None
  }

  /** A list payload: null is empty, and a single value stands for a list of one. */
  function ListItems(s: Source): seq<Source> {
    if s.Null? then [] else if s.List? then s.items else [s]
  }

  predicate AllTexts(items: seq<Source>, ok: string -> bool) {
    forall k :: 0 <= k < |items| ==> items[k].Text? && ok(items[k].s)
  }

  function TextsOf(items: seq<Source>): (r: seq<string>)
    requires forall k :: 0 <= k < |items| ==> items[k].Text?
    ensures |r| == |items|
  {
    seq(|items|, k requires 0 <= k < |items| => items[k].s)
  }

  /** A field of the `if_else` payload, under its Go name or its snake case name. */
  function Field(m: map<string, Source>, goName: string, snake: string): Source {
    if goName in m then m[goName] else if snake in m then m[snake] else Null
  }

  /** Every key is used by exactly one field, and no other key is present. */
  predicate IfElseKeys(m: map<string, Source>) {
    && m.Keys <= {"Condition", "condition", "IfAction", "if_action", "ElseAction", "else_action"}
    && !("Condition" in m && "condition" in m)
    && !("IfAction" in m && "if_action" in m)
    && !("ElseAction" in m && "else_action" in m)
  }

  // --------------------------------------------------------------------------------------
  // The compiler
  // --------------------------------------------------------------------------------------

  function RawActions(s: Source): seq<Source> {
    if s.List? then s.items else [s]
  }

  function Compile(cfg: Config, defs: seq<Definition>, s: Source): Compiled<Action>
    decreases s, 2, 0
  {
    match CompileRaws(cfg, defs, s, 0)
    case Success(actions) => Success(Seq(actions))
    case Soft => Soft
    case Fatal => Fatal
  }

  /** The raw actions from `k` on: a fatal error anywhere wins, then any soft error. */
  function CompileRaws(cfg: Config, defs: seq<Definition>, s: Source, k: nat): Compiled<seq<Action>>
    requires k <= |RawActions(s)|
    decreases s, 1, |RawActions(s)| - k
  {
    if k == |RawActions(s)| then Success([])
    else
      var first := TryDefs(cfg, defs, 0, if s.List? then s.items[k] else s);
      if first.Fatal? then Fatal
      else
        match CompileRaws(cfg, defs, s, k + 1)
        case Fatal => Fatal
        case Soft => Soft
        case Success(rest) => if first.Soft? then Soft else Success([first.value] + rest)
  }

  function TryDefs(cfg: Config, defs: seq<Definition>, k: nat, s: Source): Compiled<Action>
    requires k <= |defs|
    decreases s, 0, |defs| - k + 1
  {
    if k == |defs| then Soft
    else
      var r := TryDef(cfg, defs, defs[k], s);
      if r.Soft? then TryDefs(cfg, defs, k + 1, s) else r
  }

  function TryDef(cfg: Config, defs: seq<Definition>, d: Definition, s: Source): Compiled<Action>
    decreases s, 0, 0
  {
    if d.Literal? then
      if s == Text(d.name) then Success(d.action) else Soft
    else
      match SingleValue(s, NameOf(d))
      case None => Soft
      case Some(v) =>
        match d
        case AddTagDef =>
          if AllTexts(ListItems(v), cfg.validTag) then Success(AddTag(TextsOf(ListItems(v)))) else Fatal
        case RunWorkflowDef =>
          if AllTexts(ListItems(v), name => name in cfg.workflows) then Success(RunWorkflow(TextsOf(ListItems(v))))
          else Fatal
        case SetContentTypeDef =>
          if v.Text? && cfg.contentType(v.s).Some? then Success(Leaf(1 + cfg.contentType(v.s).value)) else Fatal
        case FindMatchDef =>
          if Null in ListItems(v) then Fatal
          else
            (match CompileItems(cfg, defs, v, 0)
             case Success(alternatives) => Success(FindMatch(alternatives))
             case Soft => Soft
             case Fatal => Fatal)
        case IfElseDef =>
          if !v.Null? && !(v.Object? && IfElseKeys(v.fields)) then Fatal
          else
            var m := if v.Null? then map[] else v.fields;
            (match cfg.condition(Field(m, "Condition", "condition"))
             case Fatal => Fatal
             case Soft => Soft
             case Success(cond) =>
               CompileBranches(cfg, defs, v, cond))
  }

  /** The alternatives of a `find_match`, from `k` on; the first error ends it. */
  function CompileItems(cfg: Config, defs: seq<Definition>, v: Source, k: nat): Compiled<seq<Action>>
    requires k <= |ListItems(v)|
    decreases v, 3, |ListItems(v)| - k
  {
    if k == |ListItems(v)| then Success([])
    else
      match Compile(cfg, defs, if v.List? then v.items[k] else v)
      case Fatal => Fatal
      case Soft => Soft
      case Success(a) =>
        match CompileItems(cfg, defs, v, k + 1)
        case Fatal => Fatal
        case Soft => Soft
        case Success(rest) => Success([a] + rest)
  }

  /** The branches of an `if_else` whose payload is `v`; a missing branch is not compiled. */
  function CompileBranches(cfg: Config, defs: seq<Definition>, v: Source, cond: nat): Compiled<Action>
    decreases v, 3, 0
  {
    if !v.Object? then Success(IfElse(cond, None, None))
    else
      match CompileBranch(cfg, defs, v, "IfAction", "if_action")
      case Fatal => Fatal
      case Soft => Soft
      case Success(i) =>
        match CompileBranch(cfg, defs, v, "ElseAction", "else_action")
        case Fatal => Fatal
        case Soft => Soft
        case Success(e) => Success(IfElse(cond, i, e))
  }

  function CompileBranch(cfg: Config, defs: seq<Definition>, v: Source, goName: string, snake: string)
    : Compiled<Option<Action>>
    requires v.Object?
    decreases v, 2, 0
  {
    var b := Field(v.fields, goName, snake);
    if b.Null? then Success(None)
    else
      match Compile(cfg, defs, b)
      case Fatal => Fatal
      case Soft => Soft
      case Success(a) => Success(Some(a))
  }

  /** The labelled loop of the source: raw actions outside, definitions inside. */
  method CompileAction(cfg: Config, defs: seq<Definition>, s: Source) returns (r: Compiled<Action>)
    ensures r == Compile(cfg, defs, s)
  {
    var raws := RawActions(s);
    var actions: seq<Action> := [];
    var errs := 0;
    ghost var whole := CompileRaws(cfg, defs, s, 0);
    label outer: for i := 0 to |raws|
      invariant match CompileRaws(cfg, defs, s, i)
                case Fatal => whole.Fatal?
                case Soft => whole.Soft?
                case Success(rest) => if errs > 0 then whole.Soft? else whole.Success? && whole.value == actions + rest
    {
      var raw := raws[i];
      for k := 0 to |defs|
        invariant TryDefs(cfg, defs, k, raw) == TryDefs(cfg, defs, 0, raw)
      {
        var c := TryDef(cfg, defs, defs[k], raw);
        if c.Success? {
          actions := actions + [c.value];
          continue outer;
        }
        if c.Fatal? {
          return Fatal;
        }
      }
      errs := errs + 1;
    }
    if errs > 0 {
      return Soft;
    }
    assert actions + [] == actions;
    return Success(Seq(actions));
  }

  // --------------------------------------------------------------------------------------
  // The order of the definitions does not matter
  // --------------------------------------------------------------------------------------

  /** The name a source node selects a definition by: its text, or its only key. */
  ghost function Selects(s: Source, name: string): bool {
    s == Text(name) || (s.Object? && s.fields.Keys == {name})
  }

  predicate DistinctNames(defs: seq<Definition>) {
    forall i, j :: 0 <= i < j < |defs| ==> NameOf(defs[i]) != NameOf(defs[j])
  }

  lemma OneNameSelected(s: Source, m: string, n: string)
    requires Selects(s, m) && Selects(s, n)
    ensures m == n
  {
  }

  /** A definition that does not reject a node softly is the one the node selects. */
  lemma DecidesOnlyIfSelected(cfg: Config, defs: seq<Definition>, d: Definition, s: Source)
    requires !TryDef(cfg, defs, d, s).Soft?
    ensures Selects(s, NameOf(d))
  {
  }

  /** At most one definition decides, so trying them in order finds that one. */
  lemma {:induction false} OnlyOneDecides(cfg: Config, defs: seq<Definition>, k: nat, j: nat, s: Source)
    requires DistinctNames(defs) && k <= j < |defs| && !TryDef(cfg, defs, defs[j], s).Soft?
    ensures TryDefs(cfg, defs, k, s) == TryDef(cfg, defs, defs[j], s)
    decreases j - k
  {
    if k < j {
      if !TryDef(cfg, defs, defs[k], s).Soft? {
        DecidesOnlyIfSelected(cfg, defs, defs[k], s);
        DecidesOnlyIfSelected(cfg, defs, defs[j], s);
        OneNameSelected(s, NameOf(defs[k]), NameOf(defs[j]));
      } else {
        OnlyOneDecides(cfg, defs, k + 1, j, s);
      }
    }
  }

  lemma {:induction false} NoneDecides(cfg: Config, defs: seq<Definition>, k: nat, s: Source)
    requires k <= |defs| && forall j :: k <= j < |defs| ==> TryDef(cfg, defs, defs[j], s).Soft?
    ensures TryDefs(cfg, defs, k, s).Soft?
    decreases |defs| - k
  {
    if k < |defs| {
      NoneDecides(cfg, defs, k + 1, s);
    }
  }

  /** Two registrations of the same definitions, each under distinct names. */
  ghost predicate SameDefinitions(defs: seq<Definition>, defs': seq<Definition>) {
    && DistinctNames(defs) && DistinctNames(defs')
    && (forall d :: d in defs <==> d in defs')
  }

  lemma TryDefsAgree(cfg: Config, defs: seq<Definition>, defs': seq<Definition>, s: Source)
    requires SameDefinitions(defs, defs')
    requires forall d :: d in defs ==> TryDef(cfg, defs, d, s) == TryDef(cfg, defs', d, s)
    ensures TryDefs(cfg, defs, 0, s) == TryDefs(cfg, defs', 0, s)
  {
    if j :| 0 <= j < |defs| && !TryDef(cfg, defs, defs[j], s).Soft? {
      OnlyOneDecides(cfg, defs, 0, j, s);
      assert defs[j] in defs';
      var j' :| 0 <= j' < |defs'| && defs'[j'] == defs[j];
      OnlyOneDecides(cfg, defs', 0, j', s);
    } else {
      NoneDecides(cfg, defs, 0, s);
      forall j | 0 <= j < |defs'| ensures TryDef(cfg, defs', defs'[j], s).Soft? {
        assert defs'[j] in defs;
        var i :| 0 <= i < |defs| && defs[i] == defs'[j];
      }
      NoneDecides(cfg, defs', 0, s);
    }
  }

  /** Success, soft or fatal failure, and the compiled meaning are the same for every order in
      which the definitions are registered. */
  lemma {:induction false} OrderDoesNotMatter(cfg: Config, defs: seq<Definition>, defs': seq<Definition>, s: Source)
    requires SameDefinitions(defs, defs')
    ensures Compile(cfg, defs, s) == Compile(cfg, defs', s)
    decreases s, 2, 0
  {
    RawsAgree(cfg, defs, defs', s, 0);
  }

  lemma {:induction false} RawsAgree(cfg: Config, defs: seq<Definition>, defs': seq<Definition>, s: Source, k: nat)
    requires SameDefinitions(defs, defs') && k <= |RawActions(s)|
    ensures CompileRaws(cfg, defs, s, k) == CompileRaws(cfg, defs', s, k)
    decreases s, 1, |RawActions(s)| - k
  {
    if k < |RawActions(s)| {
      var raw := if s.List? then s.items[k] else s;
      forall d | d in defs ensures TryDef(cfg, defs, d, raw) == TryDef(cfg, defs', d, raw) {
        DefinitionAgrees(cfg, defs, defs', d, raw);
      }
      TryDefsAgree(cfg, defs, defs', raw);
      RawsAgree(cfg, defs, defs', s, k + 1);
    }
  }

  lemma {:induction false} DefinitionAgrees(
    cfg: Config, defs: seq<Definition>, defs': seq<Definition>, d: Definition, s: Source
  )
    requires SameDefinitions(defs, defs')
    ensures TryDef(cfg, defs, d, s) == TryDef(cfg, defs', d, s)
    decreases s, 0, 0
  {
    if (d.FindMatchDef? || d.IfElseDef?) && SingleValue(s, NameOf(d)).Some? {
      var v := s.fields[NameOf(d)];
      if d.FindMatchDef? {
        ItemsAgree(cfg, defs, defs', v, 0);
      } else if v.Object? {
        BranchAgrees(cfg, defs, defs', v, "IfAction", "if_action");
        BranchAgrees(cfg, defs, defs', v, "ElseAction", "else_action");
      }
    }
  }

  lemma {:induction false} ItemsAgree(cfg: Config, defs: seq<Definition>, defs': seq<Definition>, v: Source, k: nat)
    requires SameDefinitions(defs, defs') && k <= |ListItems(v)|
    ensures CompileItems(cfg, defs, v, k) == CompileItems(cfg, defs', v, k)
    decreases v, 3, |ListItems(v)| - k
  {
    if k < |ListItems(v)| {
      OrderDoesNotMatter(cfg, defs, defs', if v.List? then v.items[k] else v);
      ItemsAgree(cfg, defs, defs', v, k + 1);
    }
  }

  lemma {:induction false} BranchAgrees(
    cfg: Config, defs: seq<Definition>, defs': seq<Definition>, v: Source, goName: string, snake: string
  )
    requires SameDefinitions(defs, defs') && v.Object?
    ensures CompileBranch(cfg, defs, v, goName, snake) == CompileBranch(cfg, defs', v, goName, snake)
    decreases v, 2, 0
  {
    var b := Field(v.fields, goName, snake);
    if !b.Null? {
      OrderDoesNotMatter(cfg, defs, defs', b);
    }
  }

  // --------------------------------------------------------------------------------------
  // What compiling guarantees to the interpreter
  // --------------------------------------------------------------------------------------

  /** Every workflow that the action calls is known. */
  predicate CallsKnown(workflows: set<string>, a: Action) {
    match a
    case Seq(actions) => forall k :: 0 <= k < |actions| ==> CallsKnown(workflows, actions[k])
    case FindMatch(alternatives) => forall k :: 0 <= k < |alternatives| ==> CallsKnown(workflows, alternatives[k])
    case IfElse(_, i, e) => (i.Some? ==> CallsKnown(workflows, i.value)) && (e.Some? ==> CallsKnown(workflows, e.value))
    case RunWorkflow(names) => forall k :: 0 <= k < |names| ==> names[k] in workflows
    case _ => true
  }

  ghost predicate LiteralsAreLeaves(defs: seq<Definition>) {
    forall d :: d in defs && d.Literal? ==>
                  || d.action.Leaf? || d.action.Attach? || d.action.Parse?
                  || d.action.DeleteTorrent? || d.action.NoMatch?
  }

  /** The registered definitions of the source, in its order. */
  const DEFAULT_DEFINITIONS: seq<Definition> := [
    AddTagDef,
    Literal("attach_local_content_by_id", Attach(0)),
    Literal("attach_local_content_by_search", Attach(1)),
    Literal("attach_tmdb_content_by_id", Attach(2)),
    Literal("attach_tmdb_content_by_search", Attach(3)),
    Literal("delete", DeleteTorrent),
    FindMatchDef,
    IfElseDef,
    Literal("unmatched", NoMatch),
    Literal("parse_date", Leaf(0)),
    Literal("parse_video_content", Parse(0)),
    RunWorkflowDef,
    SetContentTypeDef
  ]

  const NAME_LENGTHS: seq<nat> := [7, 26, 30, 25, 29, 6, 10, 7, 9, 10, 19, 12, 16]

  lemma DefaultNameLength(i: nat)
    requires i < 13
    ensures |NameOf(DEFAULT_DEFINITIONS[i])| == NAME_LENGTHS[i]
  {
  }

  lemma SameLengths(i: nat, j: nat)
    requires i < j < 13 && NAME_LENGTHS[i] == NAME_LENGTHS[j]
    ensures (i == 0 && j == 7) || (i == 6 && j == 9)
  {
  }

  lemma FirstLettersDiffer()
    ensures NameOf(DEFAULT_DEFINITIONS[0]) != NameOf(DEFAULT_DEFINITIONS[7])
    ensures NameOf(DEFAULT_DEFINITIONS[6]) != NameOf(DEFAULT_DEFINITIONS[9])
  {
  }

  /** The definitions of the source satisfy what the theorems ask of a registration. */
  lemma DefaultsHaveDistinctNames()
    ensures DistinctNames(DEFAULT_DEFINITIONS) && LiteralsAreLeaves(DEFAULT_DEFINITIONS)
  {
    forall i, j | 0 <= i < j < |DEFAULT_DEFINITIONS|
      ensures NameOf(DEFAULT_DEFINITIONS[i]) != NameOf(DEFAULT_DEFINITIONS[j])
    {
      DefaultNameLength(i);
      DefaultNameLength(j);
      if NAME_LENGTHS[i] == NAME_LENGTHS[j] {
        SameLengths(i, j);
        FirstLettersDiffer();
      }
    }
  }

  /** A compiled action calls known workflows only, so a run never misses a workflow. */
  lemma {:induction false} CompiledCallsAreKnown(cfg: Config, defs: seq<Definition>, s: Source)
    requires LiteralsAreLeaves(defs)
    ensures Compile(cfg, defs, s).Success? ==> CallsKnown(cfg.workflows, Compile(cfg, defs, s).value)
    decreases s, 2, 0
  {
    RawCallsAreKnown(cfg, defs, s, 0);
  }

  lemma {:induction false} RawCallsAreKnown(cfg: Config, defs: seq<Definition>, s: Source, k: nat)
    requires LiteralsAreLeaves(defs) && k <= |RawActions(s)|
    ensures var r := CompileRaws(cfg, defs, s, k);
            r.Success? ==> forall i :: 0 <= i < |r.value| ==> CallsKnown(cfg.workflows, r.value[i])
    decreases s, 1, |RawActions(s)| - k
  {
    if k < |RawActions(s)| {
      TriedCallsAreKnown(cfg, defs, 0, if s.List? then s.items[k] else s);
      RawCallsAreKnown(cfg, defs, s, k + 1);
      var r, rest := CompileRaws(cfg, defs, s, k), CompileRaws(cfg, defs, s, k + 1);
      if r.Success? {
        forall i | 0 <= i < |r.value| ensures CallsKnown(cfg.workflows, r.value[i]) {
          if i > 0 { assert r.value[i] == rest.value[i - 1]; }
        }
      }
    }
  }

  lemma {:induction false} TriedCallsAreKnown(cfg: Config, defs: seq<Definition>, k: nat, s: Source)
    requires LiteralsAreLeaves(defs) && k <= |defs|
    ensures TryDefs(cfg, defs, k, s).Success? ==> CallsKnown(cfg.workflows, TryDefs(cfg, defs, k, s).value)
    decreases s, 0, |defs| - k + 1
  {
    if k < |defs| {
      DefinitionCallsAreKnown(cfg, defs, defs[k], s);
      TriedCallsAreKnown(cfg, defs, k + 1, s);
    }
  }

  lemma {:induction false} DefinitionCallsAreKnown(cfg: Config, defs: seq<Definition>, d: Definition, s: Source)
    requires LiteralsAreLeaves(defs) && d in defs
    ensures TryDef(cfg, defs, d, s).Success? ==> CallsKnown(cfg.workflows, TryDef(cfg, defs, d, s).value)
    decreases s, 0, 0
  {
    if !d.Literal? && SingleValue(s, NameOf(d)).Some? {
      var v := s.fields[NameOf(d)];
      match d {
        case FindMatchDef =>
          ItemCallsAreKnown(cfg, defs, v, 0);
          FindTried(cfg, defs, s, v);
        case IfElseDef =>
          if v.Object? {
            BranchCallsAreKnown(cfg, defs, v, "IfAction", "if_action");
            BranchCallsAreKnown(cfg, defs, v, "ElseAction", "else_action");
            IfElseTried(cfg, defs, s, v);
          }
        case RunWorkflowDef =>
          CallTried(cfg, defs, s, v);
        case _ =>
      }
    }
  }

  lemma FindTried(cfg: Config, defs: seq<Definition>, s: Source, v: Source)
    requires SingleValue(s, "find_match") == Some(v)
    requires var items := CompileItems(cfg, defs, v, 0);
             items.Success? ==> forall i :: 0 <= i < |items.value| ==> CallsKnown(cfg.workflows, items.value[i])
    ensures var r := TryDef(cfg, defs, FindMatchDef, s); r.Success? ==> CallsKnown(cfg.workflows, r.value)
  {
    var items := CompileItems(cfg, defs, v, 0);
    if items.Success? {
      assert CallsKnown(cfg.workflows, FindMatch(items.value));
    }
  }

  lemma IfElseTried(cfg: Config, defs: seq<Definition>, s: Source, v: Source)
    requires SingleValue(s, "if_else") == Some(v) && v.Object?
    requires var i := CompileBranch(cfg, defs, v, "IfAction", "if_action");
             i.Success? && i.value.Some? ==> CallsKnown(cfg.workflows, i.value.value)
    requires var e := CompileBranch(cfg, defs, v, "ElseAction", "else_action");
             e.Success? && e.value.Some? ==> CallsKnown(cfg.workflows, e.value.value)
    ensures var r := TryDef(cfg, defs, IfElseDef, s); r.Success? ==> CallsKnown(cfg.workflows, r.value)
  {
    var c := cfg.condition(Field(v.fields, "Condition", "condition"));
    if c.Success? {
      BranchesTried(cfg, defs, v, c.value);
    }
  }

  lemma BranchesTried(cfg: Config, defs: seq<Definition>, v: Source, cond: nat)
    requires v.Object?
    requires var i := CompileBranch(cfg, defs, v, "IfAction", "if_action");
             i.Success? && i.value.Some? ==> CallsKnown(cfg.workflows, i.value.value)
    requires var e := CompileBranch(cfg, defs, v, "ElseAction", "else_action");
             e.Success? && e.value.Some? ==> CallsKnown(cfg.workflows, e.value.value)
    ensures var r := CompileBranches(cfg, defs, v, cond); r.Success? ==> CallsKnown(cfg.workflows, r.value)
  {
    var i := CompileBranch(cfg, defs, v, "IfAction", "if_action");
    var e := CompileBranch(cfg, defs, v, "ElseAction", "else_action");
    if i.Success? && e.Success? {
      assert CallsKnown(cfg.workflows, IfElse(cond, i.value, e.value));
    }
  }

  lemma CallTried(cfg: Config, defs: seq<Definition>, s: Source, v: Source)
    requires SingleValue(s, "run_workflow") == Some(v)
    ensures var r := TryDef(cfg, defs, RunWorkflowDef, s); r.Success? ==> CallsKnown(cfg.workflows, r.value)
  {
    var r := TryDef(cfg, defs, RunWorkflowDef, s);
    if r.Success? {
      var items := ListItems(v);
      assert r.value == RunWorkflow(TextsOf(items));
      forall k | 0 <= k < |items| ensures TextsOf(items)[k] in cfg.workflows {
        assert items[k].Text?;
      }
    }
  }

  lemma {:induction false} ItemCallsAreKnown(cfg: Config, defs: seq<Definition>, v: Source, k: nat)
    requires LiteralsAreLeaves(defs) && k <= |ListItems(v)|
    ensures var r := CompileItems(cfg, defs, v, k);
            r.Success? ==> forall i :: 0 <= i < |r.value| ==> CallsKnown(cfg.workflows, r.value[i])
    decreases v, 3, |ListItems(v)| - k
  {
    if k < |ListItems(v)| {
      CompiledCallsAreKnown(cfg, defs, if v.List? then v.items[k] else v);
      ItemCallsAreKnown(cfg, defs, v, k + 1);
      var r, rest := CompileItems(cfg, defs, v, k), CompileItems(cfg, defs, v, k + 1);
      if r.Success? {
        forall i | 0 <= i < |r.value| ensures CallsKnown(cfg.workflows, r.value[i]) {
          if i > 0 { assert r.value[i] == rest.value[i - 1]; }
        }
      }
    }
  }

  lemma {:induction false} BranchCallsAreKnown(cfg: Config, defs: seq<Definition>, v: Source, goName: string, snake: string)
    requires LiteralsAreLeaves(defs) && v.Object?
    ensures var r := CompileBranch(cfg, defs, v, goName, snake);
            r.Success? && r.value.Some? ==> CallsKnown(cfg.workflows, r.value.value)
    decreases v, 2, 0
  {
    var b := Field(v.fields, goName, snake);
    if !b.Null? {
      CompiledCallsAreKnown(cfg, defs, b);
    }
  }
}
