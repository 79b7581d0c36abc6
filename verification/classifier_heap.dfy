/** The compiled closures as they run, on a tag map and a language map that are shared by reference
    with every result they came from. */
module ClassifierHeap {
  import opened Options
  import opened Classifier

  class TagMap {
    var tags: set<Tag>

    constructor ()
      ensures tags == {}
    {
      tags := {};
    }
  }

  class LangMap {
    var langs: set<Lang>

    constructor (langs: set<Lang>)
      ensures this.langs == langs
    {
      this.langs := langs;
    }
  }

  function TagsIn(m: TagMap?): Option<set<Tag>>
    reads m
  {
    if m == null then None else Some(m.tags)
  }

  function LangsIn(m: LangMap?): Option<set<Lang>>
    reads m
  {
    if m == null then None else Some(m.langs)
  }

  /** A classification result: the two maps are references, the rest are values. */
  datatype Result = Result(core: Core, multi: bool, tags: TagMap?, langs: LangMap?)

  datatype HeapRes = HeapOk(result: Result) | HeapErr(error: Error)

  function Maps(c: Result): set<object?> {
    {c.tags, c.langs}
  }

  function ContextOf(c: Result, pb: Option<Classification>): Ctx
    reads Maps(c)
  {
    Ctx(c.core, c.multi, TagsIn(c.tags), LangsIn(c.langs), pb)
  }

  function ViewOf(c: Result): Option<Classification>
    reads Maps(c)
  {
    Some(Classification(c.core, Contents(LangsIn(c.langs))))
  }

  /** `res` and the maps of the incoming result `c` are what `o` describes. A result has the incoming
      tag map if there is one, and the incoming language map exactly if `o` says so. */
  ghost predicate Matches(o: Out, res: HeapRes, c: Result)
    reads Maps(c), if res.HeapOk? then Maps(res.result) else {}
  {
    && TagsIn(c.tags) == o.tags
    && LangsIn(c.langs) == o.langs
    && (match o.res
        case Err(e) => res == HeapErr(e)
        case Ok(core, multi, tags, langs) =>
          && res.HeapOk?
          && ContextOf(res.result, None) == Ctx(core, multi, tags, langs, None)
          && (c.tags != null ==> res.result.tags == c.tags)
          && (o.same <==> c.langs != null && res.result.langs == c.langs))
  }

  /** Every map in `now` that is not one of `c`'s was allocated after `c`. */
  twostate predicate OwnMaps(c: Result, new now: Result) {
    && (c.tags != null ==> now.tags == c.tags)
    && (c.tags == null && now.tags != null ==> fresh(now.tags))
    && (now.langs != null && now.langs != c.langs ==> fresh(now.langs))
  }

  method ExecAddTag(newTags: seq<Tag>, c: Result) returns (res: Result)
    modifies c.tags
    ensures res == c.(tags := res.tags) && res.tags != null && OwnMaps(c, res)
    ensures res.tags.tags == Contents(old(TagsIn(c.tags))) + TagSet(newTags)
  {
    var m := c.tags;
    if m == null {
      m := new TagMap();
    }
    ghost var start := m.tags;
    for k := 0 to |newTags|
      invariant m.tags == start + TagSet(newTags[..k])
      modifies m
    {
      assert newTags[..k + 1] == newTags[..k] + [newTags[k]];
      m.tags := m.tags + {newTags[k]};
    }
    assert newTags[..|newTags|] == newTags;
    return c.(tags := m);
  }

  /** `res` is `c` with the content found and, if there was none yet or there may be several, its
      language, which is written in place. */
  twostate predicate Attaches(c: Result, core: Core, language: Option<Lang>, new res: Result)
    reads c.langs, res.langs
  {
    && res == c.(core := core, langs := res.langs)
    && (c.langs != null ==> res.langs == c.langs)
    && AttachedLanguages(old(ContextOf(c, None)), language, LangsIn(res.langs))
  }

  /** `res` is `c` merged with what was parsed: a language map that holds something is kept as it is,
      any other replaced. */
  twostate predicate Merges(c: Result, core: Core, languages: set<Lang>, multi: bool, new res: Result)
    reads c.langs, res.langs
  {
    && res == c.(core := core, multi := c.multi || multi, langs := res.langs)
    && LangsIn(c.langs) == old(LangsIn(c.langs))
    && (Contents(LangsIn(c.langs)) != {} ==> res.langs == c.langs)
    && (Contents(LangsIn(c.langs)) == {} ==> LangsIn(res.langs) == if languages == {} then None else Some(languages))
  }

  /** The outcome of an action that runs no other action, from what it is given alone. */
  twostate predicate Outcome(env: Env, a: Action, c: Result, pb: Option<Classification>, new res: HeapRes)
    reads Maps(c), if res.HeapOk? then Maps(res.result) else {}
  {
    match a
    case AddTag(tags) =>
      && res.HeapOk? && res.result == c.(tags := res.result.tags)
      && TagsIn(res.result.tags) == Some(Contents(old(TagsIn(c.tags))) + TagSet(tags))
    case DeleteTorrent => res == HeapErr(Delete)
    case NoMatch => res == HeapErr(Unmatched)
    case Leaf(id) =>
      (match env.step(id, c.core)
       case Done(core) => res == HeapOk(c.(core := core))
       case Fails(e) => res == HeapErr(e))
    case Attach(id) =>
      (match env.attach(id, c.core)
       case Found(core, language) => res.HeapOk? && Attaches(c, core, language, res.result)
       case NotFound(e) => res == HeapErr(e))
    case Parse(id) =>
      (match env.parse(id, c.core)
       case Parsed(core, languages, multi) => res.HeapOk? && Merges(c, core, languages, multi, res.result)
       case NotParsed(e) => res == HeapErr(e))
    case IfElse(cond, i, e) =>
      (match env.check(cond, pb)
       case CheckFails(err) => res == HeapErr(err)
       case Answer(true) => i.None? ==> res == HeapOk(c)
       case Answer(false) => e.None? ==> res == HeapOk(c))
    case _ => true
  }

  /** The language of attached content goes into the map that the result has, in place. */
  method ExecAttachContent(c: Result, core: Core, language: Option<Lang>) returns (res: Result)
    modifies c.langs
    ensures OwnMaps(c, res)
    ensures Attaches(c, core, language, res)
    ensures Matches(AttachContent(old(ContextOf(c, None)), core, language), HeapOk(res), c)
  {
    var m := c.langs;
    if language.Some? {
      if m == null || m.langs == {} || c.multi {
        if m == null {
          m := new LangMap({});
        }
        m.langs := m.langs + {language.value};
      }
    }
    return c.(core := core, langs := m);
  }

  /** Parsed languages come in a map of their own, nil if there are none. */
  method ExecMerge(c: Result, core: Core, languages: set<Lang>, multi: bool) returns (res: Result)
    ensures OwnMaps(c, res)
    ensures Merges(c, core, languages, multi, res)
    ensures Matches(Merge(ContextOf(c, None), core, languages, multi), HeapOk(res), c)
  {
    var m := c.langs;
    if m == null || m.langs == {} {
      m := null;
      if languages != {} {
        m := new LangMap(languages);
      }
    }
    return c.(core := core, multi := c.multi || multi, langs := m);
  }

  predicate Simple(a: Action) {
    !a.Seq? && !a.FindMatch? && !a.IfElse? && !a.RunWorkflow?
  }

  method ExecSimple(env: Env, p: Program, ghost r: nat, a: Action, c: Result, pb: Option<Classification>)
    returns (res: HeapRes)
    requires Acyclic(p) && Below(p, a, r) && Simple(a)
    modifies Maps(c)
    ensures Matches(Run(env, p, r, a, old(ContextOf(c, pb))), res, c)
    ensures Outcome(env, a, c, pb, res)
    ensures res.HeapOk? ==> OwnMaps(c, res.result)
  {
    match a
    case AddTag(newTags) =>
      var tagged := ExecAddTag(newTags, c);
      res := HeapOk(tagged);
    case DeleteTorrent =>
      res := HeapErr(Delete);
    case NoMatch =>
      res := HeapErr(Unmatched);
    case Leaf(id) =>
      match env.step(id, c.core) {
        case Done(core) => res := HeapOk(c.(core := core));
        case Fails(e) => res := HeapErr(e);
      }
    case Attach(id) =>
      match env.attach(id, c.core) {
        case Found(core, language) =>
          var attached := ExecAttachContent(c, core, language);
          res := HeapOk(attached);
        case NotFound(e) => res := HeapErr(e);
      }
    case Parse(id) =>
      match env.parse(id, c.core) {
        case Parsed(core, languages, multi) =>
          var merged := ExecMerge(c, core, languages, multi);
          res := HeapOk(merged);
        case NotParsed(e) => res := HeapErr(e);
      }
  }

  method Exec(env: Env, p: Program, ghost r: nat, a: Action, c: Result, pb: Option<Classification>)
    returns (res: HeapRes)
    requires Acyclic(p) && Below(p, a, r)
    modifies Maps(c)
    ensures Matches(Run(env, p, r, a, old(ContextOf(c, pb))), res, c)
    ensures Outcome(env, a, c, pb, res)
    ensures res.HeapOk? ==> OwnMaps(c, res.result)
    decreases r, a, 2, 0
  {
    match a
    case Seq(actions) =>
      res := ExecSeq(env, p, r, actions, c, pb);
    case FindMatch(alternatives) =>
      res := ExecFind(env, p, r, alternatives, c, pb);
    case IfElse(cond, i, e) =>
      match env.check(cond, pb) {
        case CheckFails(err) => res := HeapErr(err);
        case Answer(holds) =>
          var branch := if holds then i else e;
          if branch.Some? {
            res := Exec(env, p, r, branch.value, c, pb);
          } else {
            res := HeapOk(c);
          }
      }
    case RunWorkflow(_) =>
      res := ExecNames(env, p, r, a, c, pb);
    case _ =>
      res := ExecSimple(env, p, r, a, c, pb);
  }

  /** `c`'s language map, if it has one, is still that of `now`. */
  predicate Still(c: Result, now: Result) {
    c.langs != null && now.langs == c.langs
  }

  /** `whole`, a run from `c`, ends like `now`, the run that is left from `cur`: what is left writes
      the language map of `c` only if `cur` still has it. */
  ghost predicate Continues(whole: Out, now: Out, c: Result, cur: Result)
    reads c.langs
  {
    && (c.tags != null ==> cur.tags == c.tags)
    && whole.res == now.res
    && whole.tags == (if c.tags != null then now.tags else None)
    && whole.langs == (if Still(c, cur) then now.langs else LangsIn(c.langs))
    && whole.same == (Still(c, cur) && now.same)
  }

  /** One turn of the loop of a sequence or of `run_workflow`: an error ends the loop, a result
      replaces the current one. */
  method ExecNext(
    env: Env, p: Program, ghost r: nat, a: Action, ghost c: Result, cur: Result, pb: Option<Classification>,
    ghost whole: Out, ghost first: Out, ghost rest: Out
  )
    returns (res: HeapRes)
    requires Acyclic(p) && Below(p, a, r)
    requires first == Run(env, p, r, a, ContextOf(cur, pb))
    requires Continues(whole, if first.res.Err? then first else Then(first, rest), c, cur)
    modifies Maps(cur)
    ensures res.HeapErr? ==> first.res.Err? && Matches(whole, res, c)
    ensures res.HeapOk? ==> first.res.Ok? && Continues(whole, rest, c, res.result)
    ensures res.HeapOk? ==> ContextOf(res.result, ViewOf(res.result)) == WithResult(first.res)
    ensures res.HeapOk? ==> OwnMaps(cur, res.result)
    decreases r, a, 3, 0
  {
    res := Exec(env, p, r, a, cur, pb);
  }

  method ExecSeq(env: Env, p: Program, ghost r: nat, actions: seq<Action>, c: Result, pb: Option<Classification>)
    returns (res: HeapRes)
    requires Acyclic(p) && AllBelow(p, actions, r)
    modifies Maps(c)
    ensures Matches(RunSeq(env, p, r, actions, 0, old(ContextOf(c, pb))), res, c)
    ensures res.HeapOk? ==> OwnMaps(c, res.result)
    decreases r, actions, 1, |actions|
  {
    ghost var whole := RunSeq(env, p, r, actions, 0, ContextOf(c, pb));
    var cur, pb' := c, pb;
    for k := 0 to |actions|
      invariant OwnMaps(c, cur)
      invariant Continues(whole, RunSeq(env, p, r, actions, k, ContextOf(cur, pb')), c, cur)
    {
      ghost var first := Run(env, p, r, actions[k], ContextOf(cur, pb'));
      ghost var rest := if first.res.Ok? then RunSeq(env, p, r, actions, k + 1, WithResult(first.res)) else first;
      var one := ExecNext(env, p, r, actions[k], c, cur, pb', whole, first, rest);
      if one.HeapErr? {
        return one;
      }
      cur, pb' := one.result, ViewOf(one.result);
    }
    return HeapOk(cur);
  }

  method ExecFind(env: Env, p: Program, ghost r: nat, alternatives: seq<Action>, c: Result, pb: Option<Classification>)
    returns (res: HeapRes)
    requires Acyclic(p) && AllBelow(p, alternatives, r)
    modifies Maps(c)
    ensures Matches(RunFind(env, p, r, alternatives, 0, old(ContextOf(c, pb))), res, c)
    ensures res.HeapOk? ==> OwnMaps(c, res.result)
    decreases r, alternatives, 1, |alternatives|
  {
    ghost var whole := RunFind(env, p, r, alternatives, 0, ContextOf(c, pb));
    for k := 0 to |alternatives|
      invariant var now := RunFind(env, p, r, alternatives, k, ContextOf(c, pb));
                whole.res == now.res && whole.tags == now.tags && whole.langs == now.langs && whole.same == now.same
    {
      var one := Exec(env, p, r, alternatives[k], c, pb);
      if one.HeapErr? {
        if one.error == Unmatched {
          continue;
        }
        return HeapErr(one.error);
      }
      return one;
    }
    return HeapOk(c);
  }

  method ExecNames(env: Env, p: Program, ghost r: nat, a: Action, c: Result, ghost pb: Option<Classification>)
    returns (res: HeapRes)
    requires a.RunWorkflow? && Acyclic(p) && Below(p, a, r)
    modifies Maps(c)
    ensures Matches(RunNames(env, p, r, a, 0, old(ContextOf(c, pb))), res, c)
    ensures res.HeapOk? ==> OwnMaps(c, res.result)
    decreases r, a, 1, |a.names|
  {
    ghost var whole := RunNames(env, p, r, a, 0, ContextOf(c, pb));
    var cur := c;
    ghost var pb' := pb;
    for k := 0 to |a.names|
      invariant OwnMaps(c, cur)
      invariant Continues(whole, RunNames(env, p, r, a, k, ContextOf(cur, pb')), c, cur)
    {
      ghost var w := a.names[k];
      ghost var first := Run(env, p, p.rank[w], p.bodies[w], ContextOf(cur, ViewOf(cur)));
      ghost var rest := if first.res.Ok? then RunNames(env, p, r, a, k + 1, WithResult(first.res)) else first;
      var one := ExecNext(env, p, p.rank[w], p.bodies[a.names[k]], c, cur, ViewOf(cur), whole, first, rest);
      if one.HeapErr? {
        return one;
      }
      cur, pb' := one.result, ViewOf(one.result);
    }
    return HeapOk(cur);
  }
}
