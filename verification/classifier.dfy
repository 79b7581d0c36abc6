/** The classifier's compiled workflows: what an action does to a classification result, and how a
    result's tag map and language map are shared by reference between alternatives.

    Parsing, content lookup and CEL conditions are functions in `Env`. None of them sees the tag
    map. Conditions see the languages, but only through the protobuf view, which is a copy.
 */
module Classifier {
  import opened Options

  type Tag = string
  type Lang = string
  type Name = string
  /** Everything in a classification result except its tags, its languages and its multi flag. */
  type Core = nat

  datatype Error = Unmatched | Delete | Other

  datatype Step = Done(core: Core) | Fails(error: Error)
  datatype Check = Answer(holds: bool) | CheckFails(error: Error)

  /** What an attach action finds: the result with the content in it, and its original language. */
  datatype Lookup = Found(core: Core, language: Option<Lang>) | NotFound(error: Error)

  /** What `parse_video_content` finds: the merged result, and the languages of the name. */
  datatype Parsed = Parsed(core: Core, languages: set<Lang>, multi: bool) | NotParsed(error: Error)

  /** The protobuf view of a result: a copy that holds the languages but not the tags. */
  datatype Classification = Classification(core: Core, languages: set<Lang>)

  /** `step` runs an action that only changes values; `check` evaluates a condition on the protobuf
      view of the result, which is missing until `withResult` has built it for the first time. */
  datatype Env = Env(
    step: (nat, Core) -> Step,
    attach: (nat, Core) -> Lookup,
    parse: (nat, Core) -> Parsed,
    check: (nat, Option<Classification>) -> Check
  )

  /** Only `delete` actions report a deletion. */
  ghost predicate NeverDeletes(env: Env) {
    && (forall id, core :: env.step(id, core) != Fails(Delete))
    && (forall id, core :: env.attach(id, core) != NotFound(Delete))
    && (forall id, core :: env.parse(id, core) != NotParsed(Delete))
    && (forall cond, pb :: env.check(cond, pb) != CheckFails(Delete))
  }

  datatype Action =
    | Seq(actions: seq<Action>)
    | AddTag(tags: seq<Tag>)
    | DeleteTorrent
    | NoMatch
    | Leaf(id: nat)
    | Attach(id: nat)
    | Parse(id: nat)
    | FindMatch(alternatives: seq<Action>)
    | IfElse(cond: nat, ifAction: Option<Action>, elseAction: Option<Action>)
    | RunWorkflow(names: seq<Name>)

  /** The workflows, with a rank that witnesses that none of them reaches itself. */
  datatype Program = Program(bodies: map<Name, Action>, rank: map<Name, nat>)

  const NO_WORKFLOWS := Program(map[], map[])

  /** Every workflow that `a` calls exists and ranks below `r`. */
  predicate Below(p: Program, a: Action, r: nat) {
    match a
    case Seq(actions) => AllBelow(p, actions, r)
    case FindMatch(alternatives) => AllBelow(p, alternatives, r)
    case IfElse(_, i, e) => (i.Some? ==> Below(p, i.value, r)) && (e.Some? ==> Below(p, e.value, r))
    case RunWorkflow(names) =>
      forall k :: 0 <= k < |names| ==> names[k] in p.bodies && names[k] in p.rank && p.rank[names[k]] < r
    case _ => true
  }

  predicate AllBelow(p: Program, actions: seq<Action>, r: nat) {
    forall k :: 0 <= k < |actions| ==> Below(p, actions[k], r)
  }

  predicate Acyclic(p: Program) {
    forall w :: w in p.bodies ==> w in p.rank && Below(p, p.bodies[w], p.rank[w])
  }

  // --------------------------------------------------------------------------------------
  // What a run does
  // --------------------------------------------------------------------------------------

  /** The context: the result, with its tags and its languages (`None` is the nil map), and the
      protobuf view. */
  datatype Ctx = Ctx(
    core: Core,
    multi: bool,
    tags: Option<set<Tag>>,
    langs: Option<set<Lang>>,
    pb: Option<Classification>
  )

  datatype Res = Ok(core: Core, multi: bool, tags: Option<set<Tag>>, langs: Option<set<Lang>>) | Err(error: Error)

  /** `tags` and `langs` are what the incoming maps hold after the run. `added` are the tags of all
      executed `add_tag` actions, `learned` the languages written into the incoming language map,
      `same` whether the result still has that map, `deleted` whether a `delete` was executed. */
  datatype Out = Out(
    res: Res,
    tags: Option<set<Tag>>,
    langs: Option<set<Lang>>,
    added: set<Tag>,
    learned: set<Lang>,
    same: bool,
    deleted: bool
  )

  function TagSet(tags: seq<Tag>): set<Tag> {
    set t | t in tags
  }

  function Contents<T>(m: Option<set<T>>): set<T> {
    if m.Some? then m.value else {}
  }

  function ResultOf(c: Ctx): Res {
    Ok(c.core, c.multi, c.tags, c.langs)
  }

  function WithResult(res: Res): Ctx
    requires res.Ok?
  {
    Ctx(res.core, res.multi, res.tags, res.langs, Some(Classification(res.core, Contents(res.langs))))
  }

  /** A run that touches neither map. */
  function Plain(c: Ctx, res: Res, deleted: bool): Out {
    Out(res, c.tags, c.langs, {}, {}, c.langs.Some?, deleted)
  }

  /** An attached language is recorded if there is none yet or the torrent has several. */
  predicate Records(c: Ctx, language: Option<Lang>) {
    language.Some? && (Contents(c.langs) == {} || c.multi)
  }

  function AttachContent(c: Ctx, core: Core, language: Option<Lang>): Out {
    if !Records(c, language) then Plain(c, Ok(core, c.multi, c.tags, c.langs), false)
    else
      var all := Contents(c.langs) + {language.value};
      Out(Ok(core, c.multi, c.tags, Some(all)), c.tags, if c.langs.Some? then Some(all) else None,
          {}, if c.langs.Some? then {language.value} else {}, c.langs.Some?, false)
  }

  /** Parsed languages replace the map if it is empty; they never go into it. */
  function Merge(c: Ctx, core: Core, languages: set<Lang>, multi: bool): Out {
    if Contents(c.langs) == {} then
      var parsed := if languages == {} then None else Some(languages);
      Plain(c, Ok(core, c.multi || multi, c.tags, parsed), false).(same := false)
    else Plain(c, Ok(core, c.multi || multi, c.tags, c.langs), false)
  }

  /** What every run keeps. The incoming maps gain exactly what was added and learned and lose
      nothing; a result has the incoming tag map if there is one, and the incoming language map if
      that held a language; without an incoming tag map it has only added tags; and an executed
      `delete` is always the outcome. */
  ghost predicate Sound(env: Env, c: Ctx, o: Out) {
    && (o.tags.Some? <==> c.tags.Some?)
    && (o.langs.Some? <==> c.langs.Some?)
    && (c.tags.Some? ==> o.tags.value == c.tags.value + o.added)
    && (c.langs.Some? ==> o.langs.value == c.langs.value + o.learned)
    && (c.langs.None? ==> o.learned == {} && !o.same)
    && (o.res.Ok? && c.tags.Some? ==> o.res.tags == o.tags)
    && (o.res.Ok? && c.tags.None? ==> Contents(o.res.tags) <= o.added)
    && (o.res.Ok? && o.same ==> o.res.langs == o.langs)
    && (o.res.Ok? && Contents(c.langs) != {} ==> o.same)
    && (o.res.Ok? && c.multi ==> o.res.multi)
    && (o.deleted ==> o.res == Err(Delete))
    && (o.res == Err(Delete) && NeverDeletes(env) ==> o.deleted)
  }

  function Run(env: Env, p: Program, r: nat, a: Action, c: Ctx): (o: Out)
    requires Acyclic(p) && Below(p, a, r)
    ensures Sound(env, c, o)
    decreases r, a, 2, 0
  {
    match a
    case Seq(actions) => RunSeq(env, p, r, actions, 0, c)
    case AddTag(tags) =>
      var all := Contents(c.tags) + TagSet(tags);
      Out(Ok(c.core, c.multi, Some(all), c.langs), if c.tags.Some? then Some(all) else None, c.langs,
          TagSet(tags), {}, c.langs.Some?, false)
    case DeleteTorrent => Plain(c, Err(Delete), true)
    case NoMatch => Plain(c, Err(Unmatched), false)
    case Leaf(id) =>
      (match env.step(id, c.core)
       case Done(core) => Plain(c, Ok(core, c.multi, c.tags, c.langs), false)
       case Fails(e) => Plain(c, Err(e), false))
    case Attach(id) =>
      (match env.attach(id, c.core)
       case Found(core, language) => AttachContent(c, core, language)
       case NotFound(e) => Plain(c, Err(e), false))
    case Parse(id) =>
      (match env.parse(id, c.core)
       case Parsed(core, languages, multi) => Merge(c, core, languages, multi)
       case NotParsed(e) => Plain(c, Err(e), false))
    case FindMatch(alternatives) => RunFind(env, p, r, alternatives, 0, c)
    case IfElse(cond, i, e) =>
      (match env.check(cond, c.pb)
       case CheckFails(err) => Plain(c, Err(err), false)
       case Answer(holds) =>
         var branch := if holds then i else e;
         if branch.Some? then Run(env, p, r, branch.value, c) else Plain(c, ResultOf(c), false))
    case RunWorkflow(_) => RunNames(env, p, r, a, 0, c)
  }

  /** The second run starts from the result of the first: it writes the incoming language map only
      if that result still has it. */
  function Then(first: Out, second: Out): Out {
    Out(second.res,
        if first.tags.Some? then second.tags else None,
        if first.same then second.langs else first.langs,
        first.added + second.added,
        if first.same then first.learned + second.learned else first.learned,
        first.same && second.same,
        first.deleted || second.deleted)
  }

  /** The loop of a sequence, from action `k` on. */
  function RunSeq(env: Env, p: Program, r: nat, actions: seq<Action>, k: nat, c: Ctx): (o: Out)
    requires k <= |actions| && Acyclic(p) && AllBelow(p, actions, r)
    ensures Sound(env, c, o)
    decreases r, actions, 1, |actions| - k
  {
    if k == |actions| then Plain(c, ResultOf(c), false)
    else
      var first := Run(env, p, r, actions[k], c);
      if first.res.Err? then first
      else Then(first, RunSeq(env, p, r, actions, k + 1, WithResult(first.res)))
  }

  /** The context after an alternative that did not match: the same result and the same view, with
      whatever the alternative wrote into the shared maps. */
  function Abandon(c: Ctx, tried: Out): Ctx {
    c.(tags := tried.tags, langs := tried.langs)
  }

  /** The second run starts from the incoming result again. */
  function OrElse(first: Out, second: Out): Out {
    second.(added := first.added + second.added, learned := first.learned + second.learned,
            deleted := first.deleted || second.deleted)
  }

  /** The loop of `find_match`, from alternative `k` on. */
  function RunFind(env: Env, p: Program, r: nat, alternatives: seq<Action>, k: nat, c: Ctx): (o: Out)
    requires k <= |alternatives| && Acyclic(p) && AllBelow(p, alternatives, r)
    ensures Sound(env, c, o)
    decreases r, alternatives, 1, |alternatives| - k
  {
    if k == |alternatives| then Plain(c, ResultOf(c), false)
    else
      var first := Run(env, p, r, alternatives[k], c);
      if first.res != Err(Unmatched) then first
      else OrElse(first, RunFind(env, p, r, alternatives, k + 1, Abandon(c, first)))
  }

  /** The loop of `run_workflow`, from name `k` on: every workflow gets a rebuilt view. */
  function RunNames(env: Env, p: Program, r: nat, a: Action, k: nat, c: Ctx): (o: Out)
    requires a.RunWorkflow? && k <= |a.names| && Acyclic(p) && Below(p, a, r)
    ensures Sound(env, c, o)
    decreases r, a, 1, |a.names| - k
  {
    if k == |a.names| then Plain(c, ResultOf(c), false)
    else
      var w := a.names[k];
      var first := Run(env, p, p.rank[w], p.bodies[w], WithResult(ResultOf(c)));
      if first.res.Err? then first
      else Then(first, RunNames(env, p, r, a, k + 1, WithResult(first.res)))
  }

  // --------------------------------------------------------------------------------------
  // The outcome of each kind of action
  // --------------------------------------------------------------------------------------

  /** The languages after content with the given language was attached. */
  predicate AttachedLanguages(c: Ctx, language: Option<Lang>, langs: Option<set<Lang>>) {
    if language.Some? && (c.langs.None? || c.langs.value == {} || c.multi)
    then langs.Some? && langs.value == Contents(c.langs) + {language.value}
    else langs == c.langs
  }

  /** What an action that runs no other action gives. */
  lemma LeafRules(env: Env, p: Program, r: nat, a: Action, c: Ctx)
    requires Acyclic(p) && Below(p, a, r)
    ensures var res := Run(env, p, r, a, c).res;
            match a
            case AddTag(tags) => res == Ok(c.core, c.multi, Some(Contents(c.tags) + TagSet(tags)), c.langs)
            case DeleteTorrent => res == Err(Delete)
            case NoMatch => res == Err(Unmatched)
            case Leaf(id) =>
              (match env.step(id, c.core)
               case Done(core) => res == Ok(core, c.multi, c.tags, c.langs)
               case Fails(e) => res == Err(e))
            case Attach(id) =>
              (match env.attach(id, c.core)
               case Found(core, language) =>
                 && res.Ok? && res == Ok(core, c.multi, c.tags, res.langs)
                 && AttachedLanguages(c, language, res.langs)
               case NotFound(e) => res == Err(e))
            case Parse(id) =>
              (match env.parse(id, c.core)
               case Parsed(core, languages, multi) =>
                 && res.Ok? && res == Ok(core, c.multi || multi, c.tags, res.langs)
                 && (Contents(c.langs) != {} ==> res.langs == c.langs)
                 && (Contents(c.langs) == {} ==> Contents(res.langs) == languages && (res.langs.None? <==> languages == {}))
               case NotParsed(e) => res == Err(e))
            case _ => true
  {
  }

  /** An `if_else` is the branch that its condition chooses, nothing if that branch is missing, and
      the condition's error if it has one. */
  lemma IfElseRule(env: Env, p: Program, r: nat, cond: nat, i: Option<Action>, e: Option<Action>, c: Ctx)
    requires Acyclic(p) && Below(p, IfElse(cond, i, e), r)
    ensures var o := Run(env, p, r, IfElse(cond, i, e), c);
            match env.check(cond, c.pb)
            case CheckFails(err) => o.res == Err(err) && o.tags == c.tags && o.langs == c.langs
            case Answer(true) => if i.Some? then o == Run(env, p, r, i.value, c) else o.res == ResultOf(c)
            case Answer(false) => if e.Some? then o == Run(env, p, r, e.value, c) else o.res == ResultOf(c)
  {
  }

  /** Empty sequences, alternatives and calls change nothing. */
  lemma EmptyRules(env: Env, p: Program, r: nat, c: Ctx)
    requires Acyclic(p)
    ensures Run(env, p, r, Seq([]), c) == Plain(c, ResultOf(c), false)
    ensures Run(env, p, r, FindMatch([]), c) == Plain(c, ResultOf(c), false)
    ensures Run(env, p, r, RunWorkflow([]), c) == Plain(c, ResultOf(c), false)
  {
  }

  lemma {:induction false} SeqFromSuffix(env: Env, p: Program, r: nat, a: Action, rest: seq<Action>, k: nat, c: Ctx)
    requires k <= |rest| && Acyclic(p) && AllBelow(p, [a] + rest, r) && AllBelow(p, rest, r)
    ensures RunSeq(env, p, r, [a] + rest, k + 1, c) == RunSeq(env, p, r, rest, k, c)
    decreases |rest| - k
  {
    if k < |rest| {
      assert ([a] + rest)[k + 1] == rest[k];
      var first := Run(env, p, r, rest[k], c);
      if first.res.Ok? {
        SeqFromSuffix(env, p, r, a, rest, k + 1, WithResult(first.res));
      }
    }
  }

  /** `all` is `first` and then `next`, run on the result of `first`: an error ends it, and `next` can
      write the incoming maps only as far as that result still has them. */
  ghost predicate Continued(all: Out, first: Out, next: Out) {
    if first.res.Err? then all.res == first.res && all.tags == first.tags && all.langs == first.langs
    else
      && all.res == next.res
      && (first.tags.Some? ==> all.tags == next.tags)
      && all.langs == (if first.same then next.langs else first.langs)
  }

  /** A sequence runs its first action, and the rest on the result with a current view. */
  lemma SeqRule(env: Env, p: Program, r: nat, a: Action, rest: seq<Action>, c: Ctx)
    requires Acyclic(p) && AllBelow(p, [a] + rest, r) && Below(p, a, r) && AllBelow(p, rest, r)
    ensures var first, all := Run(env, p, r, a, c), Run(env, p, r, Seq([a] + rest), c);
            Continued(all, first, if first.res.Ok? then Run(env, p, r, Seq(rest), WithResult(first.res)) else first)
  {
    assert ([a] + rest)[0] == a;
    var first := Run(env, p, r, a, c);
    if first.res.Ok? {
      SeqFromSuffix(env, p, r, a, rest, 0, WithResult(first.res));
    }
  }

  lemma {:induction false} NamesFromSuffix(
    env: Env, p: Program, r: nat, w: Name, names: seq<Name>, k: nat, c: Ctx
  )
    requires k <= |names| && Acyclic(p) && Below(p, RunWorkflow([w] + names), r) && Below(p, RunWorkflow(names), r)
    ensures RunNames(env, p, r, RunWorkflow([w] + names), k + 1, c) == RunNames(env, p, r, RunWorkflow(names), k, c)
    decreases |names| - k
  {
    if k < |names| {
      assert ([w] + names)[k + 1] == names[k];
      var first := Run(env, p, p.rank[names[k]], p.bodies[names[k]], WithResult(ResultOf(c)));
      if first.res.Ok? {
        NamesFromSuffix(env, p, r, w, names, k + 1, WithResult(first.res));
      }
    }
  }

  /** A call runs the first workflow with a current view, and the other names on its result. */
  lemma CallRule(env: Env, p: Program, r: nat, w: Name, names: seq<Name>, c: Ctx)
    requires Acyclic(p) && Below(p, RunWorkflow([w] + names), r) && Below(p, RunWorkflow(names), r)
    requires w in p.bodies && w in p.rank
    ensures var first := Run(env, p, p.rank[w], p.bodies[w], WithResult(ResultOf(c)));
            var all := Run(env, p, r, RunWorkflow([w] + names), c);
            Continued(all, first,
                      if first.res.Ok? then Run(env, p, r, RunWorkflow(names), WithResult(first.res)) else first)
  {
    assert ([w] + names)[0] == w;
    var first := Run(env, p, p.rank[w], p.bodies[w], WithResult(ResultOf(c)));
    if first.res.Ok? {
      NamesFromSuffix(env, p, r, w, names, 0, WithResult(first.res));
    }
  }

  /** The first alternative decides unless it does not match. */
  lemma FindRule(env: Env, p: Program, r: nat, a: Action, rest: seq<Action>, c: Ctx)
    requires Acyclic(p) && AllBelow(p, [a] + rest, r) && Below(p, a, r)
    requires Run(env, p, r, a, c).res != Err(Unmatched)
    ensures Run(env, p, r, FindMatch([a] + rest), c) == Run(env, p, r, a, c)
  {
    assert ([a] + rest)[0] == a;
  }

  // --------------------------------------------------------------------------------------
  // Matching
  // --------------------------------------------------------------------------------------

  /** `unmatched` never leaves a `find_match`. */
  lemma {:induction false} UnmatchedIsCaught(env: Env, p: Program, r: nat, alternatives: seq<Action>, k: nat, c: Ctx)
    requires k <= |alternatives| && Acyclic(p) && AllBelow(p, alternatives, r)
    ensures RunFind(env, p, r, alternatives, k, c).res != Err(Unmatched)
    decreases |alternatives| - k
  {
    if k < |alternatives| {
      var first := Run(env, p, r, alternatives[k], c);
      if first.res == Err(Unmatched) {
        UnmatchedIsCaught(env, p, r, alternatives, k + 1, Abandon(c, first));
      }
    }
  }

  lemma {:induction false} FindFromSuffix(
    env: Env, p: Program, r: nat, a: Action, rest: seq<Action>, k: nat, c: Ctx
  )
    requires k <= |rest| && Acyclic(p) && AllBelow(p, [a] + rest, r) && AllBelow(p, rest, r)
    ensures RunFind(env, p, r, [a] + rest, k + 1, c) == RunFind(env, p, r, rest, k, c)
    decreases |rest| - k
  {
    if k < |rest| {
      assert ([a] + rest)[k + 1] == rest[k];
      var first := Run(env, p, r, rest[k], c);
      if first.res == Err(Unmatched) {
        FindFromSuffix(env, p, r, a, rest, k + 1, Abandon(c, first));
      }
    }
  }

  function Grown<T>(m: Option<set<T>>, more: set<T>): Option<set<T>> {
    if m.Some? then Some(m.value + more) else None
  }

  /** An alternative that does not match is followed by the other alternatives in the same context,
      except that the tags it added and the languages it learned, and nothing else, stay in those
      of the two maps that were allocated. Nil maps stay nil. */
  lemma AbandonedAlternative(env: Env, p: Program, r: nat, a: Action, rest: seq<Action>, c: Ctx)
    requires Acyclic(p) && AllBelow(p, [a] + rest, r) && Below(p, a, r) && AllBelow(p, rest, r)
    requires Run(env, p, r, a, c).res == Err(Unmatched)
    ensures var tried := Run(env, p, r, a, c);
            Run(env, p, r, FindMatch([a] + rest), c).res
            == Run(env, p, r, FindMatch(rest),
                   c.(tags := Grown(c.tags, tried.added), langs := Grown(c.langs, tried.learned))).res
  {
    var tried := Run(env, p, r, a, c);
    assert ([a] + rest)[0] == a;
    assert Abandon(c, tried) == c.(tags := Grown(c.tags, tried.added), langs := Grown(c.langs, tried.learned));
    FindFromSuffix(env, p, r, a, rest, 0, Abandon(c, tried));
  }

  lemma UnchangedExactly<T>(m: Option<set<T>>, more: set<T>)
    ensures Grown(m, more) == m <==> m.None? || more <= m.value
  {
    if m.Some? && m.value + more == m.value {
      assert more <= m.value + more;
    }
  }

  /** `a` can be dropped from the head of a `find_match`, whatever the other alternatives are. */
  ghost predicate Droppable(env: Env, p: Program, r: nat, a: Action, c: Ctx)
    requires Acyclic(p)
  {
    forall rest :: AllBelow(p, rest, r) && AllBelow(p, [a] + rest, r) ==>
                     Run(env, p, r, FindMatch([a] + rest), c).res == Run(env, p, r, FindMatch(rest), c).res
  }

  /** An alternative that does not match leaves no trace exactly if each map was nil before or
      already held what the alternative wrote. */
  lemma NoTraceExactly(env: Env, p: Program, r: nat, a: Action, c: Ctx)
    requires Acyclic(p) && Below(p, a, r) && Run(env, p, r, a, c).res == Err(Unmatched)
    ensures var tried := Run(env, p, r, a, c);
            Droppable(env, p, r, a, c)
            <==> (c.tags.None? || tried.added <= c.tags.value) && (c.langs.None? || tried.learned <= c.langs.value)
  {
    var tried := Run(env, p, r, a, c);
    var c' := c.(tags := Grown(c.tags, tried.added), langs := Grown(c.langs, tried.learned));
    UnchangedExactly(c.tags, tried.added);
    UnchangedExactly(c.langs, tried.learned);
    if c' == c {
      forall rest | AllBelow(p, rest, r) && AllBelow(p, [a] + rest, r)
        ensures Run(env, p, r, FindMatch([a] + rest), c).res == Run(env, p, r, FindMatch(rest), c).res
      {
        AbandonedAlternative(env, p, r, a, rest, c);
      }
    } else {
      var none: seq<Action> := [];
      assert AllBelow(p, none, r) && AllBelow(p, [a] + none, r);
      AbandonedAlternative(env, p, r, a, none, c);
      assert Run(env, p, r, FindMatch(none), c).res == ResultOf(c);
      assert Run(env, p, r, FindMatch(none), c').res == ResultOf(c');
    }
  }

  /** Runs `x`, gives up, and then matches without doing anything. */
  function LeakyFind(x: Action): Action {
    FindMatch([Seq([x, NoMatch]), Seq([])])
  }

  lemma GiveUp(env: Env, p: Program, r: nat, x: Action, c: Ctx)
    requires Acyclic(p) && Below(p, x, r) && Run(env, p, r, x, c).res.Ok?
    ensures Below(p, Seq([x, NoMatch]), r)
    ensures var tried, once := Run(env, p, r, Seq([x, NoMatch]), c), Run(env, p, r, x, c);
            tried.res == Err(Unmatched) && tried.tags == once.tags && tried.langs == once.langs
  {
    var tried := [x, NoMatch];
    assert AllBelow(p, tried, r);
    var first := Run(env, p, r, x, c);
    var c' := WithResult(first.res);
    assert tried[0] == x && tried[1] == NoMatch;
    assert RunSeq(env, p, r, tried, 1, c') == Run(env, p, r, NoMatch, c');
    assert RunSeq(env, p, r, tried, 0, c) == Then(first, RunSeq(env, p, r, tried, 1, c'));
  }

  lemma LeakyFindRun(env: Env, x: Action, c: Ctx)
    requires Below(NO_WORKFLOWS, x, 0) && Run(env, NO_WORKFLOWS, 0, x, c).res.Ok?
    ensures Below(NO_WORKFLOWS, LeakyFind(x), 0)
    ensures var once := Run(env, NO_WORKFLOWS, 0, x, c);
            Run(env, NO_WORKFLOWS, 0, LeakyFind(x), c).res == Ok(c.core, c.multi, once.tags, once.langs)
  {
    var p, alternatives := NO_WORKFLOWS, LeakyFind(x).alternatives;
    var empty: seq<Action> := [];
    GiveUp(env, p, 0, x, c);
    assert Below(p, Seq(empty), 0);
    assert alternatives[0] == Seq([x, NoMatch]) && alternatives[1] == Seq(empty);
    assert AllBelow(p, alternatives, 0);
    var tried := Run(env, p, 0, Seq([x, NoMatch]), c);
    var d := Abandon(c, tried);
    assert Run(env, p, 0, Seq(empty), d) == RunSeq(env, p, 0, empty, 0, d);
    assert RunFind(env, p, 0, alternatives, 1, d) == Run(env, p, 0, Seq(empty), d);
    assert RunFind(env, p, 0, alternatives, 0, c) == OrElse(tried, RunFind(env, p, 0, alternatives, 1, d));
  }

  /** A sequence of two actions is the first one and then the second one. */
  lemma RunTwo(env: Env, x: Action, y: Action, c: Ctx)
    requires Below(NO_WORKFLOWS, x, 0) && Below(NO_WORKFLOWS, y, 0) && Run(env, NO_WORKFLOWS, 0, x, c).res.Ok?
    requires Run(env, NO_WORKFLOWS, 0, y, WithResult(Run(env, NO_WORKFLOWS, 0, x, c).res)).res.Ok?
    ensures Below(NO_WORKFLOWS, Seq([x, y]), 0)
    ensures Run(env, NO_WORKFLOWS, 0, Seq([x, y]), c).res
            == Run(env, NO_WORKFLOWS, 0, y, WithResult(Run(env, NO_WORKFLOWS, 0, x, c).res)).res
  {
    var p, actions := NO_WORKFLOWS, [x, y];
    assert actions[0] == x && actions[1] == y;
    assert AllBelow(p, actions, 0);
    var first := Run(env, p, 0, x, c);
    var c' := WithResult(first.res);
    var second := Run(env, p, 0, y, c');
    var c'' := WithResult(second.res);
    assert RunSeq(env, p, 0, actions, 2, c'').res == second.res;
    assert RunSeq(env, p, 0, actions, 1, c') == Then(second, RunSeq(env, p, 0, actions, 2, c''));
    assert RunSeq(env, p, 0, actions, 0, c) == Then(first, RunSeq(env, p, 0, actions, 1, c'));
  }

  /** A new result: nothing known, no map allocated, no view. */
  function Start(core: Core): Ctx {
    Ctx(core, false, None, None, None)
  }

  /** A tag added by an abandoned alternative ends up in the result if the tag map was allocated
      before: the same `find_match` without the first `add_tag` returns no tags. */
  lemma AbandonedTagsCanLeak(env: Env, core: Core, x: Tag, y: Tag)
    ensures Below(NO_WORKFLOWS, Seq([AddTag([x]), LeakyFind(AddTag([y]))]), 0)
    ensures Below(NO_WORKFLOWS, LeakyFind(AddTag([y])), 0)
    ensures Run(env, NO_WORKFLOWS, 0, Seq([AddTag([x]), LeakyFind(AddTag([y]))]), Start(core)).res
            == Ok(core, false, Some({x, y}), None)
    ensures Run(env, NO_WORKFLOWS, 0, LeakyFind(AddTag([y])), Start(core)).res == Ok(core, false, None, None)
  {
    assert TagSet([x]) == {x} && TagSet([y]) == {y} && {x} + {y} == {x, y};
    LeakyFindRun(env, AddTag([y]), Start(core));
    var first := Run(env, NO_WORKFLOWS, 0, AddTag([x]), Start(core)).res;
    assert first.tags.value == Contents(Start(core).tags) + {x} == {x};
    LeakyFindRun(env, AddTag([y]), WithResult(first));
    RunTwo(env, AddTag([x]), LeakyFind(AddTag([y])), Start(core));
  }

  /** The original language of content that an abandoned alternative attached ends up in the result
      of a torrent whose name has one language and says that there are more, without any tag map. */
  lemma AbandonedLanguageCanLeak(env: Env, core: Core, named: Core, found: Core, x: Lang, y: Lang)
    requires env.parse(0, core) == Parsed(named, {x}, true) && env.attach(0, named) == Found(found, Some(y))
    ensures Below(NO_WORKFLOWS, Seq([Parse(0), LeakyFind(Attach(0))]), 0) && Below(NO_WORKFLOWS, Parse(0), 0)
    ensures Run(env, NO_WORKFLOWS, 0, Seq([Parse(0), LeakyFind(Attach(0))]), Start(core)).res
            == Ok(named, true, None, Some({x, y}))
    ensures Run(env, NO_WORKFLOWS, 0, Parse(0), Start(core)).res == Ok(named, true, None, Some({x}))
  {
    var first := Run(env, NO_WORKFLOWS, 0, Parse(0), Start(core)).res;
    assert {x} != {} by { assert x in {x}; }
    assert {x} + {y} == {x, y};
    LeakyFindRun(env, Attach(0), WithResult(first));
    RunTwo(env, Parse(0), LeakyFind(Attach(0)), Start(core));
  }
}
