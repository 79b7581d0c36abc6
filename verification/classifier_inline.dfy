/** Inlining: replacing every `run_workflow` by the bodies it names.

    A condition sees the protobuf view of the result, and `run_workflow` rebuilds that view before it
    enters a workflow. A sequence rebuilds it only after each of its actions, so a body that is
    inlined as it stands sees the view of its caller.
 */
module ClassifierInline {
  import opened Options
  import opened Classifier

  /** An action that does nothing, after which a sequence rebuilds the view. */
  const NOTHING := Seq([])

  function Lead(refresh: bool): seq<Action> {
    if refresh then [NOTHING] else []
  }

  /** Replaces every `run_workflow` by the sequence of the bodies it names, with an empty action in
      front if `refresh` is set. */
  function Inline(p: Program, r: nat, refresh: bool, a: Action): Action
    requires Acyclic(p) && Below(p, a, r)
    decreases r, a, 2, 0
  {
    match a
    case Seq(actions) => Seq(InlineAll(p, r, refresh, actions, 0))
    case FindMatch(alternatives) => FindMatch(InlineAll(p, r, refresh, alternatives, 0))
    case IfElse(cond, i, e) =>
      IfElse(cond, if i.Some? then Some(Inline(p, r, refresh, i.value)) else None,
             if e.Some? then Some(Inline(p, r, refresh, e.value)) else None)
    case RunWorkflow(_) => Seq(Lead(refresh) + InlineNames(p, r, refresh, a, 0))
    case _ => a
  }

  function InlineAll(p: Program, r: nat, refresh: bool, actions: seq<Action>, k: nat): (s: seq<Action>)
    requires k <= |actions| && Acyclic(p) && AllBelow(p, actions, r)
    ensures |s| == |actions| - k
    ensures forall j :: 0 <= j < |s| ==> s[j] == Inline(p, r, refresh, actions[k + j])
    decreases r, actions, 1, |actions| - k
  {
    if k == |actions| then []
    else [Inline(p, r, refresh, actions[k])] + InlineAll(p, r, refresh, actions, k + 1)
  }

  function InlineNames(p: Program, r: nat, refresh: bool, a: Action, k: nat): (s: seq<Action>)
    requires a.RunWorkflow? && k <= |a.names| && Acyclic(p) && Below(p, a, r)
    ensures |s| == |a.names| - k
    ensures forall j :: 0 <= j < |s| ==> s[j] == Inline(p, p.rank[a.names[k + j]], refresh, p.bodies[a.names[k + j]])
    decreases r, a, 1, |a.names| - k
  {
    if k == |a.names| then []
    else [Inline(p, p.rank[a.names[k]], refresh, p.bodies[a.names[k]])] + InlineNames(p, r, refresh, a, k + 1)
  }

  /** No workflow call is left. */
  lemma {:induction false} InlinedCallsNothing(p: Program, r: nat, refresh: bool, a: Action)
    requires Acyclic(p) && Below(p, a, r)
    ensures Below(NO_WORKFLOWS, Inline(p, r, refresh, a), 0)
    decreases r, a
  {
    match a
    case Seq(actions) =>
      forall k | 0 <= k < |actions| ensures Below(NO_WORKFLOWS, Inline(p, r, refresh, actions[k]), 0) {
        InlinedCallsNothing(p, r, refresh, actions[k]);
      }
    case FindMatch(alternatives) =>
      forall k | 0 <= k < |alternatives| ensures Below(NO_WORKFLOWS, Inline(p, r, refresh, alternatives[k]), 0) {
        InlinedCallsNothing(p, r, refresh, alternatives[k]);
      }
    case IfElse(_, i, e) =>
      if i.Some? { InlinedCallsNothing(p, r, refresh, i.value); }
      if e.Some? { InlinedCallsNothing(p, r, refresh, e.value); }
    case RunWorkflow(names) =>
      forall k | 0 <= k < |names|
        ensures Below(NO_WORKFLOWS, Inline(p, p.rank[names[k]], refresh, p.bodies[names[k]]), 0)
      {
        InlinedCallsNothing(p, p.rank[names[k]], refresh, p.bodies[names[k]]);
      }
      assert AllBelow(NO_WORKFLOWS, Lead(refresh), 0);
    case _ =>
  }

  lemma InlinedAllCallNothing(p: Program, r: nat, refresh: bool, actions: seq<Action>)
    requires Acyclic(p) && AllBelow(p, actions, r)
    ensures AllBelow(NO_WORKFLOWS, InlineAll(p, r, refresh, actions, 0), 0)
  {
    forall k | 0 <= k < |actions| ensures Below(NO_WORKFLOWS, Inline(p, r, refresh, actions[k]), 0) {
      InlinedCallsNothing(p, r, refresh, actions[k]);
    }
  }

  // --------------------------------------------------------------------------------------
  // When the view is current
  // --------------------------------------------------------------------------------------

  /** The protobuf view of the context shows its result. */
  predicate InSync(c: Ctx) {
    c.pb == Some(Classification(c.core, Contents(c.langs)))
  }

  /** Every workflow that a run of `a` in `c` enters is called with a current view. */
  predicate CallsInSync(env: Env, p: Program, r: nat, a: Action, c: Ctx)
    requires Acyclic(p) && Below(p, a, r)
    decreases r, a, 2, 0
  {
    match a
    case Seq(actions) => SeqInSync(env, p, r, actions, 0, c)
    case FindMatch(alternatives) => FindInSync(env, p, r, alternatives, 0, c)
    case IfElse(cond, i, e) =>
      (match env.check(cond, c.pb)
       case CheckFails(_) => true
       case Answer(holds) =>
         var branch := if holds then i else e;
         branch.Some? ==> CallsInSync(env, p, r, branch.value, c))
    case RunWorkflow(names) => (|names| > 0 ==> InSync(c)) && NamesInSync(env, p, r, a, 0, c)
    case _ => true
  }

  predicate SeqInSync(env: Env, p: Program, r: nat, actions: seq<Action>, k: nat, c: Ctx)
    requires k <= |actions| && Acyclic(p) && AllBelow(p, actions, r)
    decreases r, actions, 1, |actions| - k
  {
    k < |actions| ==>
      var first := Run(env, p, r, actions[k], c);
      && CallsInSync(env, p, r, actions[k], c)
      && (first.res.Ok? ==> SeqInSync(env, p, r, actions, k + 1, WithResult(first.res)))
  }

  predicate FindInSync(env: Env, p: Program, r: nat, alternatives: seq<Action>, k: nat, c: Ctx)
    requires k <= |alternatives| && Acyclic(p) && AllBelow(p, alternatives, r)
    decreases r, alternatives, 1, |alternatives| - k
  {
    k < |alternatives| ==>
      var first := Run(env, p, r, alternatives[k], c);
      && CallsInSync(env, p, r, alternatives[k], c)
      && (first.res == Err(Unmatched) ==> FindInSync(env, p, r, alternatives, k + 1, Abandon(c, first)))
  }

  predicate NamesInSync(env: Env, p: Program, r: nat, a: Action, k: nat, c: Ctx)
    requires a.RunWorkflow? && k <= |a.names| && Acyclic(p) && Below(p, a, r)
    decreases r, a, 1, |a.names| - k
  {
    k < |a.names| ==>
      var w := a.names[k];
      var entered := WithResult(ResultOf(c));
      var first := Run(env, p, p.rank[w], p.bodies[w], entered);
      && CallsInSync(env, p, p.rank[w], p.bodies[w], entered)
      && (first.res.Ok? ==> NamesInSync(env, p, r, a, k + 1, WithResult(first.res)))
  }

  // --------------------------------------------------------------------------------------
  // Inlining keeps the meaning
  // --------------------------------------------------------------------------------------

  /** Inlining changes nothing: same result or error, same maps, same deletions. With an empty action
      in front of the bodies that holds in every context; without, if every workflow is entered with
      a current view. */
  lemma {:induction false} InlineKeepsMeaning(env: Env, p: Program, r: nat, refresh: bool, a: Action, c: Ctx)
    requires Acyclic(p) && Below(p, a, r)
    requires refresh || CallsInSync(env, p, r, a, c)
    ensures Below(NO_WORKFLOWS, Inline(p, r, refresh, a), 0)
    ensures Run(env, NO_WORKFLOWS, 0, Inline(p, r, refresh, a), c) == Run(env, p, r, a, c)
    decreases r, a, 2, 0
  {
    InlinedCallsNothing(p, r, refresh, a);
    match a
    case Seq(actions) =>
      InlineSeq(env, p, r, refresh, actions, 0, c);
    case FindMatch(alternatives) =>
      InlineFind(env, p, r, refresh, alternatives, 0, c);
    case IfElse(cond, i, e) =>
      match env.check(cond, c.pb) {
        case CheckFails(_) =>
        case Answer(holds) =>
          var branch := if holds then i else e;
          if branch.Some? { InlineKeepsMeaning(env, p, r, refresh, branch.value, c); }
      }
    case RunWorkflow(names) =>
      InlineCall(env, p, r, refresh, a, c);
    case _ =>
  }

  lemma {:induction false} InlineSeq(
    env: Env, p: Program, r: nat, refresh: bool, actions: seq<Action>, k: nat, c: Ctx
  )
    requires k <= |actions| && Acyclic(p) && AllBelow(p, actions, r)
    requires refresh || SeqInSync(env, p, r, actions, k, c)
    ensures AllBelow(NO_WORKFLOWS, InlineAll(p, r, refresh, actions, 0), 0)
    ensures RunSeq(env, NO_WORKFLOWS, 0, InlineAll(p, r, refresh, actions, 0), k, c)
            == RunSeq(env, p, r, actions, k, c)
    decreases r, actions, 1, |actions| - k
  {
    InlinedAllCallNothing(p, r, refresh, actions);
    if k < |actions| {
      InlineKeepsMeaning(env, p, r, refresh, actions[k], c);
      var first := Run(env, p, r, actions[k], c);
      if first.res.Ok? {
        InlineSeq(env, p, r, refresh, actions, k + 1, WithResult(first.res));
      }
    }
  }

  lemma {:induction false} InlineFind(
    env: Env, p: Program, r: nat, refresh: bool, alternatives: seq<Action>, k: nat, c: Ctx
  )
    requires k <= |alternatives| && Acyclic(p) && AllBelow(p, alternatives, r)
    requires refresh || FindInSync(env, p, r, alternatives, k, c)
    ensures AllBelow(NO_WORKFLOWS, InlineAll(p, r, refresh, alternatives, 0), 0)
    ensures RunFind(env, NO_WORKFLOWS, 0, InlineAll(p, r, refresh, alternatives, 0), k, c)
            == RunFind(env, p, r, alternatives, k, c)
    decreases r, alternatives, 1, |alternatives| - k
  {
    InlinedAllCallNothing(p, r, refresh, alternatives);
    if k < |alternatives| {
      InlineKeepsMeaning(env, p, r, refresh, alternatives[k], c);
      var first := Run(env, p, r, alternatives[k], c);
      if first.res == Err(Unmatched) {
        InlineFind(env, p, r, refresh, alternatives, k + 1, Abandon(c, first));
      }
    }
  }

  /** `s` holds the inlined bodies after its first `d` actions. */
  predicate HoldsBodies(p: Program, r: nat, refresh: bool, a: Action, d: nat, s: seq<Action>)
    requires a.RunWorkflow? && Acyclic(p) && Below(p, a, r)
  {
    && |s| == d + |a.names|
    && forall k :: 0 <= k < |a.names| ==> s[d + k] == Inline(p, p.rank[a.names[k]], refresh, p.bodies[a.names[k]])
  }

  lemma {:induction false} InlineNamesFrom(
    env: Env, p: Program, r: nat, refresh: bool, a: Action, d: nat, s: seq<Action>, k: nat, c: Ctx
  )
    requires a.RunWorkflow? && k <= |a.names| && Acyclic(p) && Below(p, a, r)
    requires HoldsBodies(p, r, refresh, a, d, s) && AllBelow(NO_WORKFLOWS, s, 0)
    requires refresh || NamesInSync(env, p, r, a, k, c)
    requires k < |a.names| ==> InSync(c)
    ensures RunSeq(env, NO_WORKFLOWS, 0, s, d + k, c) == RunNames(env, p, r, a, k, c)
    decreases r, a, 0, |a.names| - k
  {
    if k < |a.names| {
      var w := a.names[k];
      assert s[d + k] == Inline(p, p.rank[w], refresh, p.bodies[w]);
      assert WithResult(ResultOf(c)) == c;
      InlineKeepsMeaning(env, p, p.rank[w], refresh, p.bodies[w], c);
      var first := Run(env, p, p.rank[w], p.bodies[w], c);
      if first.res.Ok? {
        InlineNamesFrom(env, p, r, refresh, a, d, s, k + 1, WithResult(first.res));
      }
    }
  }

  lemma NamesIgnoreView(env: Env, p: Program, r: nat, a: Action, c: Ctx)
    requires a.RunWorkflow? && Acyclic(p) && Below(p, a, r)
    ensures RunNames(env, p, r, a, 0, c) == RunNames(env, p, r, a, 0, WithResult(ResultOf(c)))
  {
  }

  /** Doing nothing first makes no difference beyond the rebuilt view. */
  lemma NothingFirst(env: Env, rest: seq<Action>, c: Ctx)
    requires AllBelow(NO_WORKFLOWS, [NOTHING] + rest, 0)
    ensures RunSeq(env, NO_WORKFLOWS, 0, [NOTHING] + rest, 0, c)
            == RunSeq(env, NO_WORKFLOWS, 0, [NOTHING] + rest, 1, WithResult(ResultOf(c)))
  {
    var actions := [NOTHING] + rest;
    assert actions[0] == NOTHING && NOTHING.actions == [];
    var first := Run(env, NO_WORKFLOWS, 0, NOTHING, c);
    assert first == Plain(c, ResultOf(c), false);
    var second := RunSeq(env, NO_WORKFLOWS, 0, actions, 1, WithResult(ResultOf(c)));
    assert first.added + second.added == second.added && first.learned + second.learned == second.learned;
    assert Then(first, second) == second;
  }

  lemma {:induction false} InlineCall(env: Env, p: Program, r: nat, refresh: bool, a: Action, c: Ctx)
    requires a.RunWorkflow? && Acyclic(p) && Below(p, a, r)
    requires refresh || CallsInSync(env, p, r, a, c)
    ensures Below(NO_WORKFLOWS, Inline(p, r, refresh, a), 0)
    ensures Run(env, NO_WORKFLOWS, 0, Inline(p, r, refresh, a), c) == RunNames(env, p, r, a, 0, c)
    decreases r, a, 1, 0
  {
    InlinedCallsNothing(p, r, refresh, a);
    var bodies := InlineNames(p, r, refresh, a, 0);
    if refresh {
      RefreshedCall(env, p, r, a, bodies, c);
    } else {
      assert Lead(refresh) + bodies == bodies;
      InlineNamesFrom(env, p, r, refresh, a, 0, bodies, 0, c);
    }
  }

  lemma {:induction false} RefreshedCall(env: Env, p: Program, r: nat, a: Action, bodies: seq<Action>, c: Ctx)
    requires a.RunWorkflow? && Acyclic(p) && Below(p, a, r)
    requires HoldsBodies(p, r, true, a, 0, bodies) && AllBelow(NO_WORKFLOWS, [NOTHING] + bodies, 0)
    ensures RunSeq(env, NO_WORKFLOWS, 0, [NOTHING] + bodies, 0, c) == RunNames(env, p, r, a, 0, c)
    decreases r, a, 0, |a.names| + 1
  {
    var s := [NOTHING] + bodies;
    forall k | 0 <= k < |a.names| ensures s[1 + k] == Inline(p, p.rank[a.names[k]], true, p.bodies[a.names[k]]) {
      assert s[1 + k] == bodies[0 + k];
    }
    NothingFirst(env, bodies, c);
    InlineNamesFrom(env, p, r, true, a, 1, s, 0, WithResult(ResultOf(c)));
    NamesIgnoreView(env, p, r, a, c);
  }

  // --------------------------------------------------------------------------------------
  // When plain inlining is safe
  // --------------------------------------------------------------------------------------

  /** No action that `a` reaches attaches content. */
  predicate NeverAttaches(p: Program, r: nat, a: Action)
    requires Acyclic(p) && Below(p, a, r)
    decreases r, a
  {
    match a
    case Attach(_) => false
    case Seq(actions) =>
      assert AllBelow(p, actions, r);
      forall k :: 0 <= k < |actions| ==> NeverAttaches(p, r, actions[k])
    case FindMatch(alternatives) =>
      assert AllBelow(p, alternatives, r);
      forall k :: 0 <= k < |alternatives| ==> NeverAttaches(p, r, alternatives[k])
    case IfElse(_, i, e) =>
      (i.Some? ==> NeverAttaches(p, r, i.value)) && (e.Some? ==> NeverAttaches(p, r, e.value))
    case RunWorkflow(names) =>
      forall k :: 0 <= k < |names| ==> NeverAttaches(p, p.rank[names[k]], p.bodies[names[k]])
    case _ => true
  }

  /** `a` may call a workflow before a sequence has rebuilt the view. */
  predicate Exposed(a: Action) {
    match a
    case Seq(actions) => |actions| > 0 && Exposed(actions[0])
    case FindMatch(alternatives) => exists k :: 0 <= k < |alternatives| && Exposed(alternatives[k])
    case IfElse(_, i, e) => (i.Some? && Exposed(i.value)) || (e.Some? && Exposed(e.value))
    case RunWorkflow(names) => |names| > 0
    case _ => false
  }

  /** No alternative that attaches content is followed by one that calls a workflow at once. */
  predicate Guarded(p: Program, r: nat, a: Action)
    requires Acyclic(p) && Below(p, a, r)
    decreases r, a
  {
    match a
    case Seq(actions) =>
      assert AllBelow(p, actions, r);
      forall k :: 0 <= k < |actions| ==> Guarded(p, r, actions[k])
    case FindMatch(alternatives) =>
      assert AllBelow(p, alternatives, r);
      && (forall k :: 0 <= k < |alternatives| ==> Guarded(p, r, alternatives[k]))
      && (forall j, k :: 0 <= j < k < |alternatives| ==>
                           NeverAttaches(p, r, alternatives[j]) || !Exposed(alternatives[k]))
    case IfElse(_, i, e) => (i.Some? ==> Guarded(p, r, i.value)) && (e.Some? ==> Guarded(p, r, e.value))
    case RunWorkflow(names) =>
      forall k :: 0 <= k < |names| ==> Guarded(p, p.rank[names[k]], p.bodies[names[k]])
    case _ => true
  }

  /** No lookup returns content with an original language. */
  ghost predicate Silent(attach: (nat, Core) -> Lookup) {
    forall id, core :: attach(id, core).Found? ==> attach(id, core).language.None?
  }

  /** Only attached content is written into a language map. */
  lemma {:induction false} LearnsNothing(env: Env, p: Program, r: nat, a: Action, c: Ctx)
    requires Acyclic(p) && Below(p, a, r)
    requires Silent(env.attach) || NeverAttaches(p, r, a)
    ensures Run(env, p, r, a, c).learned == {}
    decreases r, a, 2, 0
  {
    match a
    case Seq(actions) =>
      SeqLearnsNothing(env, p, r, actions, 0, c);
    case FindMatch(alternatives) =>
      FindLearnsNothing(env, p, r, alternatives, 0, c);
    case IfElse(_, i, e) =>
      if i.Some? { LearnsNothing(env, p, r, i.value, c); }
      if e.Some? { LearnsNothing(env, p, r, e.value, c); }
    case RunWorkflow(names) =>
      NamesLearnNothing(env, p, r, a, 0, c);
    case _ =>
  }

  lemma {:induction false} SeqLearnsNothing(env: Env, p: Program, r: nat, actions: seq<Action>, k: nat, c: Ctx)
    requires k <= |actions| && Acyclic(p) && AllBelow(p, actions, r)
    requires Silent(env.attach) || forall j :: 0 <= j < |actions| ==> NeverAttaches(p, r, actions[j])
    ensures RunSeq(env, p, r, actions, k, c).learned == {}
    decreases r, actions, 1, |actions| - k
  {
    if k < |actions| {
      LearnsNothing(env, p, r, actions[k], c);
      var first := Run(env, p, r, actions[k], c);
      if first.res.Ok? {
        SeqLearnsNothing(env, p, r, actions, k + 1, WithResult(first.res));
      }
    }
  }

  lemma {:induction false} FindLearnsNothing(env: Env, p: Program, r: nat, alternatives: seq<Action>, k: nat, c: Ctx)
    requires k <= |alternatives| && Acyclic(p) && AllBelow(p, alternatives, r)
    requires Silent(env.attach) || forall j :: 0 <= j < |alternatives| ==> NeverAttaches(p, r, alternatives[j])
    ensures RunFind(env, p, r, alternatives, k, c).learned == {}
    decreases r, alternatives, 1, |alternatives| - k
  {
    if k < |alternatives| {
      LearnsNothing(env, p, r, alternatives[k], c);
      var first := Run(env, p, r, alternatives[k], c);
      if first.res == Err(Unmatched) {
        FindLearnsNothing(env, p, r, alternatives, k + 1, Abandon(c, first));
      }
    }
  }

  lemma {:induction false} NamesLearnNothing(env: Env, p: Program, r: nat, a: Action, k: nat, c: Ctx)
    requires a.RunWorkflow? && k <= |a.names| && Acyclic(p) && Below(p, a, r)
    requires Silent(env.attach) || NeverAttaches(p, r, a)
    ensures RunNames(env, p, r, a, k, c).learned == {}
    decreases r, a, 1, |a.names| - k
  {
    if k < |a.names| {
      var w, entered := a.names[k], WithResult(ResultOf(c));
      LearnsNothing(env, p, p.rank[w], p.bodies[w], entered);
      var first := Run(env, p, p.rank[w], p.bodies[w], entered);
      if first.res.Ok? {
        NamesLearnNothing(env, p, r, a, k + 1, WithResult(first.res));
      }
    }
  }

  /** From a current view, a guarded program calls every workflow with a current view; so does any
      program if no lookup returns a language. */
  lemma {:induction false} StaysInSync(env: Env, p: Program, r: nat, a: Action, c: Ctx)
    requires Acyclic(p) && Below(p, a, r)
    requires Silent(env.attach) || Guarded(p, r, a)
    requires InSync(c) || (Guarded(p, r, a) && !Exposed(a))
    ensures CallsInSync(env, p, r, a, c)
    decreases r, a, 2, 0
  {
    match a
    case Seq(actions) =>
      SeqStaysInSync(env, p, r, actions, 0, c);
    case FindMatch(alternatives) =>
      FindStaysInSync(env, p, r, alternatives, 0, c);
    case IfElse(_, i, e) =>
      if i.Some? { StaysInSync(env, p, r, i.value, c); }
      if e.Some? { StaysInSync(env, p, r, e.value, c); }
    case RunWorkflow(names) =>
      NamesStayInSync(env, p, r, a, 0, c);
    case _ =>
  }

  lemma {:induction false} SeqStaysInSync(env: Env, p: Program, r: nat, actions: seq<Action>, k: nat, c: Ctx)
    requires k <= |actions| && Acyclic(p) && AllBelow(p, actions, r)
    requires Silent(env.attach) || Guarded(p, r, Seq(actions))
    requires InSync(c) || (k == 0 && Guarded(p, r, Seq(actions)) && !Exposed(Seq(actions)))
    ensures SeqInSync(env, p, r, actions, k, c)
    decreases r, actions, 1, |actions| - k
  {
    if k < |actions| {
      StaysInSync(env, p, r, actions[k], c);
      var first := Run(env, p, r, actions[k], c);
      if first.res.Ok? {
        SeqStaysInSync(env, p, r, actions, k + 1, WithResult(first.res));
      }
    }
  }

  lemma {:induction false} FindStaysInSync(env: Env, p: Program, r: nat, alternatives: seq<Action>, k: nat, c: Ctx)
    requires k <= |alternatives| && Acyclic(p) && AllBelow(p, alternatives, r)
    requires Silent(env.attach) || Guarded(p, r, FindMatch(alternatives))
    requires InSync(c) || (Guarded(p, r, FindMatch(alternatives))
                           && forall j :: k <= j < |alternatives| ==> !Exposed(alternatives[j]))
    ensures FindInSync(env, p, r, alternatives, k, c)
    decreases r, alternatives, 1, |alternatives| - k
  {
    if k < |alternatives| {
      StaysInSync(env, p, r, alternatives[k], c);
      var first := Run(env, p, r, alternatives[k], c);
      if first.res == Err(Unmatched) {
        if Silent(env.attach) || NeverAttaches(p, r, alternatives[k]) {
          LearnsNothing(env, p, r, alternatives[k], c);
          UnchangedExactly(c.langs, first.learned);
          assert Abandon(c, first).langs == c.langs;
        }
        FindStaysInSync(env, p, r, alternatives, k + 1, Abandon(c, first));
      }
    }
  }

  lemma {:induction false} NamesStayInSync(env: Env, p: Program, r: nat, a: Action, k: nat, c: Ctx)
    requires a.RunWorkflow? && k <= |a.names| && Acyclic(p) && Below(p, a, r)
    requires Silent(env.attach) || Guarded(p, r, a)
    ensures NamesInSync(env, p, r, a, k, c)
    decreases r, a, 1, |a.names| - k
  {
    if k < |a.names| {
      var w, entered := a.names[k], WithResult(ResultOf(c));
      StaysInSync(env, p, p.rank[w], p.bodies[w], entered);
      var first := Run(env, p, p.rank[w], p.bodies[w], entered);
      if first.res.Ok? {
        NamesStayInSync(env, p, r, a, k + 1, WithResult(first.res));
      }
    }
  }

  // --------------------------------------------------------------------------------------
  // When plain inlining is not safe
  // --------------------------------------------------------------------------------------

  /** Plain inlining of `a` in `c` keeps its result. */
  ghost predicate InliningSafe(env: Env, p: Program, r: nat, a: Action, c: Ctx)
    requires Acyclic(p) && Below(p, a, r)
  {
    && Below(NO_WORKFLOWS, Inline(p, r, false, a), 0)
    && Run(env, NO_WORKFLOWS, 0, Inline(p, r, false, a), c).res == Run(env, p, r, a, c).res
  }

  /** Deletes if condition 0 holds and is unmatched otherwise. */
  const PROBE := IfElse(0, Some(DeleteTorrent), Some(NoMatch))

  const PROBED := Program(map["w" := PROBE], map["w" := 0])

  const CALL := RunWorkflow(["w"])

  lemma ProbeIsGuarded()
    ensures Acyclic(PROBED) && Below(PROBED, CALL, 1) && Guarded(PROBED, 1, CALL)
  {
    assert Below(PROBED, DeleteTorrent, 0) && Below(PROBED, NoMatch, 0);
    assert Below(PROBED, PROBE, 0);
    assert Guarded(PROBED, 0, DeleteTorrent) && Guarded(PROBED, 0, NoMatch);
    assert Guarded(PROBED, 0, PROBE);
  }

  /** A call of the probe evaluates its condition on a current view, the inlined probe on the view
      it is given. */
  lemma ProbeRuns(env: Env, c: Ctx)
    requires Acyclic(PROBED) && Below(PROBED, CALL, 1)
    requires env.check(0, WithResult(ResultOf(c)).pb) == Answer(true) && env.check(0, c.pb) == Answer(false)
    ensures Run(env, PROBED, 1, CALL, c).res == Err(Delete)
    ensures Below(NO_WORKFLOWS, Inline(PROBED, 1, false, CALL), 0)
    ensures Run(env, NO_WORKFLOWS, 0, Inline(PROBED, 1, false, CALL), c).res == Err(Unmatched)
  {
    assert Below(PROBED, DeleteTorrent, 0) && Below(PROBED, NoMatch, 0);
    assert Run(env, PROBED, 0, PROBE, WithResult(ResultOf(c))).res == Err(Delete);
    assert Run(env, PROBED, 1, CALL, c).res == RunNames(env, PROBED, 1, CALL, 0, c).res;
    InlinedCallsNothing(PROBED, 1, false, CALL);
    var inlined := Lead(false) + InlineNames(PROBED, 1, false, CALL, 0);
    assert inlined[0] == Inline(PROBED, 0, false, PROBE) == PROBE;
    assert Run(env, NO_WORKFLOWS, 0, PROBE, c).res == Err(Unmatched);
    assert RunSeq(env, NO_WORKFLOWS, 0, inlined, 0, c).res == Err(Unmatched);
  }

  lemma InlinedProbeLearnsNothing(env: Env, c: Ctx)
    requires Acyclic(PROBED) && Below(PROBED, CALL, 1) && env.check(0, c.pb) == Answer(false)
    ensures Below(NO_WORKFLOWS, Inline(PROBED, 1, false, CALL), 0)
    ensures Abandon(c, Run(env, NO_WORKFLOWS, 0, Inline(PROBED, 1, false, CALL), c)) == c
  {
    InlinedCallsNothing(PROBED, 1, false, CALL);
    var inlined := Lead(false) + InlineNames(PROBED, 1, false, CALL, 0);
    assert inlined[0] == Inline(PROBED, 0, false, PROBE) == PROBE;
    assert Run(env, NO_WORKFLOWS, 0, PROBE, c) == Plain(c, Err(Unmatched), false);
    assert RunSeq(env, NO_WORKFLOWS, 0, inlined, 0, c) == Plain(c, Err(Unmatched), false);
  }

  /** The probe tells a context whose view is not current. */
  lemma ProbeTellsSync(c: Ctx) returns (env: Env)
    requires !InSync(c)
    ensures Acyclic(PROBED) && Below(PROBED, CALL, 1) && Guarded(PROBED, 1, CALL)
    ensures !InliningSafe(env, PROBED, 1, CALL, c)
  {
    var current := WithResult(ResultOf(c)).pb;
    env := Env((_: nat, core: Core) => Done(core), (_: nat, _: Core) => NotFound(Unmatched),
               (_: nat, _: Core) => NotParsed(Unmatched),
               (_: nat, pb: Option<Classification>) => Answer(pb == current));
    ProbeIsGuarded();
    ProbeRuns(env, c);
  }

  /** Plain inlining is safe in `c` for every guarded program. */
  ghost predicate SafeWhenGuarded(c: Ctx) {
    forall env: Env, p: Program, r: nat, a: Action ::
      Acyclic(p) && Below(p, a, r) && Guarded(p, r, a) ==> InliningSafe(env, p, r, a, c)
  }

  /** Plain inlining is safe in a context for every guarded program exactly if the view is current
      there. A run starts without a view, so it is not safe at the start of a run. */
  lemma InliningNeedsSync(c: Ctx)
    ensures InSync(c) <==> SafeWhenGuarded(c)
  {
    if InSync(c) {
      forall env: Env, p: Program, r: nat, a: Action | Acyclic(p) && Below(p, a, r) && Guarded(p, r, a)
        ensures InliningSafe(env, p, r, a, c)
      {
        StaysInSync(env, p, r, a, c);
        InlineKeepsMeaning(env, p, r, false, a, c);
      }
    } else {
      var env := ProbeTellsSync(c);
    }
  }

  /** Attaches content and gives up, then calls the probe. */
  function StaleCall(id: nat): Action {
    FindMatch([Seq([Attach(id), NoMatch]), CALL])
  }

  /** A torrent with language `x` that may have more, and a current view of it. */
  function OneOfMany(core: Core, x: Lang): Ctx {
    Ctx(core, true, None, Some({x}), Some(Classification(core, {x})))
  }

  /** Whether a view shows language `l`. */
  function Shows(l: Lang): (nat, Option<Classification>) -> Check {
    (_: nat, pb: Option<Classification>) => Answer(pb.Some? && l in pb.value.languages)
  }

  lemma StaleCallIsAcyclic(id: nat)
    ensures Acyclic(PROBED) && Below(PROBED, StaleCall(id), 1)
    ensures AllBelow(PROBED, [Seq([Attach(id), NoMatch])] + [CALL], 1) && AllBelow(PROBED, [CALL], 1)
    ensures Below(PROBED, Seq([Attach(id), NoMatch]), 1) && Below(PROBED, CALL, 1)
  {
    ProbeIsGuarded();
    assert AllBelow(PROBED, [Attach(id), NoMatch], 1);
    assert Below(PROBED, Seq([Attach(id), NoMatch]), 1);
  }

  /** After the abandoned attach, the result has both languages and the view still has one. */
  lemma StaleContext(env: Env, p: Program, r: nat, id: nat, core: Core, x: Lang, l: Lang)
    requires Acyclic(p) && x != l
    requires env.attach(id, core).Found? && env.attach(id, core).language == Some(l)
    ensures Below(p, Seq([Attach(id), NoMatch]), r)
    ensures var c := OneOfMany(core, x);
            var tried := Run(env, p, r, Seq([Attach(id), NoMatch]), c);
            tried.res == Err(Unmatched) && Abandon(c, tried) == c.(langs := Some({x, l}))
  {
    var c := OneOfMany(core, x);
    var once := Run(env, p, r, Attach(id), c);
    assert once == AttachContent(c, env.attach(id, core).core, Some(l));
    assert once.langs.value == {x} + {l} == {x, l};
    GiveUp(env, p, r, Attach(id), c);
  }

  lemma OnlyAlternative(env: Env, p: Program, r: nat, a: Action, c: Ctx)
    requires Acyclic(p) && Below(p, a, r) && AllBelow(p, [a], r)
    ensures Run(env, p, r, FindMatch([a]), c).res
            == if Run(env, p, r, a, c).res == Err(Unmatched) then ResultOf(Abandon(c, Run(env, p, r, a, c)))
               else Run(env, p, r, a, c).res
  {
    assert [a][0] == a;
    var first := Run(env, p, r, a, c);
    if first.res == Err(Unmatched) {
      assert RunFind(env, p, r, [a], 1, Abandon(c, first)).res == ResultOf(Abandon(c, first));
    }
  }

  lemma CalledAfter(env: Env, p: Program, r: nat, try: Action, last: Action, c: Ctx, d: Ctx)
    requires Acyclic(p) && Below(p, try, r) && Below(p, last, r)
    requires Run(env, p, r, try, c).res == Err(Unmatched) && Abandon(c, Run(env, p, r, try, c)) == d
    ensures Below(p, FindMatch([try, last]), r)
    ensures Run(env, p, r, FindMatch([try, last]), c).res
            == if Run(env, p, r, last, d).res == Err(Unmatched) then ResultOf(Abandon(d, Run(env, p, r, last, d)))
               else Run(env, p, r, last, d).res
  {
    var tried := Run(env, p, r, try, c);
    assert [try] + [last] == [try, last];
    assert AllBelow(p, [try] + [last], r) && AllBelow(p, [last], r);
    assert d == c.(tags := Grown(c.tags, tried.added), langs := Grown(c.langs, tried.learned));
    AbandonedAlternative(env, p, r, try, [last], c);
    OnlyAlternative(env, p, r, last, d);
  }

  lemma InlinedStaleCall(id: nat)
    requires Acyclic(PROBED) && Below(PROBED, StaleCall(id), 1) && Below(PROBED, CALL, 1)
    ensures Inline(PROBED, 1, false, StaleCall(id))
            == FindMatch([Seq([Attach(id), NoMatch]), Inline(PROBED, 1, false, CALL)])
  {
    var try := Seq([Attach(id), NoMatch]);
    var alternatives := StaleCall(id).alternatives;
    assert alternatives[0] == try && alternatives[1] == CALL;
    assert InlineAll(PROBED, 1, false, try.actions, 0) == try.actions;
    assert Inline(PROBED, 1, false, try) == try;
    assert InlineAll(PROBED, 1, false, alternatives, 0) == [try, Inline(PROBED, 1, false, CALL)];
  }

  lemma StaleCallCalled(env: Env, id: nat, core: Core, x: Lang, l: Lang)
    requires env.attach(id, core).Found? && env.attach(id, core).language == Some(l) && x != l
    requires env.check == Shows(l)
    ensures Acyclic(PROBED) && Below(PROBED, StaleCall(id), 1)
    ensures Run(env, PROBED, 1, StaleCall(id), OneOfMany(core, x)).res == Err(Delete)
  {
    var c := OneOfMany(core, x);
    var d := c.(langs := Some({x, l}));
    StaleCallIsAcyclic(id);
    assert l !in {x};
    ProbeRuns(env, d);
    StaleContext(env, PROBED, 1, id, core, x, l);
    CalledAfter(env, PROBED, 1, Seq([Attach(id), NoMatch]), CALL, c, d);
  }

  lemma StaleCallInlined(env: Env, id: nat, core: Core, x: Lang, l: Lang)
    requires Acyclic(PROBED) && Below(PROBED, CALL, 1)
    requires env.attach(id, core).Found? && env.attach(id, core).language == Some(l) && x != l
    requires env.check == Shows(l)
    ensures var flat := FindMatch([Seq([Attach(id), NoMatch]), Inline(PROBED, 1, false, CALL)]);
            && Below(NO_WORKFLOWS, flat, 0)
            && Run(env, NO_WORKFLOWS, 0, flat, OneOfMany(core, x)).res == Ok(core, true, None, Some({x, l}))
  {
    var c := OneOfMany(core, x);
    var d := c.(langs := Some({x, l}));
    assert l !in {x};
    ProbeRuns(env, d);
    InlinedProbeLearnsNothing(env, d);
    StaleContext(env, NO_WORKFLOWS, 0, id, core, x, l);
    CalledAfter(env, NO_WORKFLOWS, 0, Seq([Attach(id), NoMatch]), Inline(PROBED, 1, false, CALL), c, d);
  }

  /** The called workflow sees the language that the abandoned attach has left, the inlined one does
      not, although the view was current when the `find_match` began. */
  lemma StaleCallDiffers(env: Env, id: nat, core: Core, x: Lang, l: Lang)
    requires env.attach(id, core).Found? && env.attach(id, core).language == Some(l) && x != l
    requires env.check == Shows(l)
    ensures Acyclic(PROBED) && Below(PROBED, StaleCall(id), 1) && InSync(OneOfMany(core, x))
    ensures Run(env, PROBED, 1, StaleCall(id), OneOfMany(core, x)).res == Err(Delete)
    ensures Below(NO_WORKFLOWS, Inline(PROBED, 1, false, StaleCall(id)), 0)
    ensures Run(env, NO_WORKFLOWS, 0, Inline(PROBED, 1, false, StaleCall(id)), OneOfMany(core, x)).res
            == Ok(core, true, None, Some({x, l}))
  {
    StaleCallIsAcyclic(id);
    StaleCallCalled(env, id, core, x, l);
    StaleCallInlined(env, id, core, x, l);
    InlinedStaleCall(id);
  }

  /** Plain inlining is safe from every current view, whatever the program. */
  ghost predicate AlwaysSafe(env: Env) {
    forall p: Program, r: nat, a: Action, c: Ctx ::
      Acyclic(p) && Below(p, a, r) && InSync(c) ==> InliningSafe(env, p, r, a, c)
  }

  /** Plain inlining is safe from every current view, whatever the program and its conditions,
      exactly if no lookup returns content with an original language. */
  lemma LookupsDecide(
    step: (nat, Core) -> Step, attach: (nat, Core) -> Lookup, parse: (nat, Core) -> Parsed
  )
    ensures Silent(attach) <==>
            forall check: (nat, Option<Classification>) -> Check :: AlwaysSafe(Env(step, attach, parse, check))
  {
    if Silent(attach) {
      forall check: (nat, Option<Classification>) -> Check ensures AlwaysSafe(Env(step, attach, parse, check)) {
        var env := Env(step, attach, parse, check);
        forall p: Program, r: nat, a: Action, c: Ctx | Acyclic(p) && Below(p, a, r) && InSync(c)
          ensures InliningSafe(env, p, r, a, c)
        {
          StaysInSync(env, p, r, a, c);
          InlineKeepsMeaning(env, p, r, false, a, c);
        }
      }
    } else {
      var id: nat, core: Core :| attach(id, core).Found? && attach(id, core).language.Some?;
      var l := attach(id, core).language.value;
      var x, check := l + "x", Shows(l);
      StaleCallDiffers(Env(step, attach, parse, check), id, core, x, l);
      assert !InliningSafe(Env(step, attach, parse, check), PROBED, 1, StaleCall(id), OneOfMany(core, x));
      assert !AlwaysSafe(Env(step, attach, parse, check));
    }
  }
}
