/** The blocking manager: a per-process buffer and cached filter in front of one persisted filter
    that every process rewrites under an advisory lock.

    The Bloom filter is abstracted to the set of hashes that test positive. Adding hashes yields
    any larger set that contains them, so false positives are allowed and false negatives are not.
 */
module Blocking {
  import opened Options

  type ID = nat
  type Filter = iset<ID>
  type Pid = nat

  /** The `bloom_filters` row: absent, present without a large object, or pointing at one. */
  datatype Row = Missing | NullObject | Object(filter: Filter)

  ghost function Stored(row: Row): Filter {
    if row.Object? then row.filter else iset{}
  }

  /** How far a flush has got inside its transaction. */
  datatype Phase =
    | Idle
    | Begun(hashes: set<ID>)
    | Deleted(hashes: set<ID>)
    | Locked(hashes: set<ID>)
    | Loaded(hashes: set<ID>, base: Filter)
    | Staged(hashes: set<ID>, next: Filter)

  predicate HoldsLock(phase: Phase) {
    phase.Locked? || phase.Loaded? || phase.Staged?
  }

  /** `blocked` records every hash passed to `Block` since the process started. */
  datatype Process = Process(buffer: set<ID>, filter: Option<Filter>, phase: Phase, blocked: set<ID>)

  const NEW_PROCESS := Process({}, None, Idle, {})

  /** `committed` records every hash of every transaction that committed. */
  datatype State = State(
    procs: map<Pid, Process>,
    lock: Option<Pid>,
    row: Row,
    torrents: set<ID>,
    committed: iset<ID>
  )

  datatype Event =
    | Start(p: Pid)
    | Block(p: Pid, hashes: set<ID>)
    | Begin(p: Pid)
    | Delete(p: Pid)
    | Lock(p: Pid)
    | Load(p: Pid)
    | Stage(p: Pid, next: Filter)
    | Commit(p: Pid, acknowledged: bool)
    | Abort(p: Pid)
    | Crawl(h: ID)

  ghost predicate Init(s: State) {
    s.procs == map[] && s.lock.None? && s.committed <= Stored(s.row)
  }

  /** Whether `e` can happen. The process mutex keeps `Block` out of a running flush; `locking`
      says whether the advisory lock is honoured. A process may restart at any time, which drops
      its transaction; a commit may take effect although the process sees an error. */
  ghost predicate Enabled(locking: bool, s: State, e: Event) {
    match e
    case Start(_) => true
    case Crawl(_) => true
    case Block(p, _) => p in s.procs && s.procs[p].phase.Idle?
    case Begin(p) => p in s.procs && s.procs[p].phase.Idle?
    case Delete(p) => p in s.procs && s.procs[p].phase.Begun?
    case Lock(p) => p in s.procs && s.procs[p].phase.Deleted? && (locking ==> s.lock.None?)
    case Load(p) => p in s.procs && s.procs[p].phase.Locked?
    case Stage(p, next) =>
      && p in s.procs && s.procs[p].phase.Loaded?
      && s.procs[p].phase.base <= next
      && forall h :: h in s.procs[p].phase.hashes ==> h in next
    case Commit(p, _) => p in s.procs && s.procs[p].phase.Staged?
    case Abort(p) => p in s.procs && !s.procs[p].phase.Idle?
  }

  function Released(lock: Option<Pid>, p: Pid): Option<Pid> {
    if lock == Some(p) then None else lock
  }

  ghost function Apply(s: State, e: Event): State
    requires Enabled(false, s, e)
  {
    match e
    case Start(p) => s.(procs := s.procs[p := NEW_PROCESS], lock := Released(s.lock, p))
    case Crawl(h) => s.(torrents := s.torrents + {h})
    case Block(p, hs) =>
      var m := s.procs[p];
      s.(procs := s.procs[p := m.(buffer := m.buffer + hs, blocked := m.blocked + hs)])
    case Begin(p) => s.(procs := s.procs[p := s.procs[p].(phase := Begun(s.procs[p].buffer))])
    case Delete(p) => s.(procs := s.procs[p := s.procs[p].(phase := Deleted(s.procs[p].phase.hashes))])
    case Lock(p) =>
      s.(procs := s.procs[p := s.procs[p].(phase := Locked(s.procs[p].phase.hashes))], lock := Some(p))
    case Load(p) =>
      s.(procs := s.procs[p := s.procs[p].(phase := Loaded(s.procs[p].phase.hashes, Stored(s.row)))])
    case Stage(p, next) =>
      s.(procs := s.procs[p := s.procs[p].(phase := Staged(s.procs[p].phase.hashes, next))])
    case Commit(p, acknowledged) =>
      var m := s.procs[p];
      var m' := if acknowledged then Process({}, Some(m.phase.next), Idle, m.blocked) else m.(phase := Idle);
      s.(procs := s.procs[p := m'],
      lock := Released(s.lock, p),
      row := Object(m.phase.next),
      torrents := s.torrents - m.phase.hashes,
      committed := s.committed + (iset h | h in m.phase.hashes))
    case Abort(p) =>
      s.(procs := s.procs[p := s.procs[p].(phase := Idle)], lock := Released(s.lock, p))
  }

  ghost predicate Runs(locking: bool, s: State, es: seq<Event>)
    decreases |es|
  {
    es == [] || (Enabled(locking, s, es[0]) && Runs(locking, Apply(s, es[0]), es[1..]))
  }

  ghost function Exec(s: State, es: seq<Event>): State
    requires Runs(false, s, es)
    decreases |es|
  {
    if es == [] then s else Exec(Apply(s, es[0]), es[1..])
  }

  // --------------------------------------------------------------------------------------
  // What every step keeps
  // --------------------------------------------------------------------------------------

  ghost predicate ProcessInv(m: Process, stored: Filter) {
    && (!m.phase.Idle? ==> m.phase.hashes == m.buffer)
    && (m.phase.Loaded? ==> m.phase.base == stored)
    && (m.phase.Staged? ==> stored <= m.phase.next && forall h :: h in m.buffer ==> h in m.phase.next)
    && (m.filter.Some? ==> m.filter.value <= stored)
    && (forall h :: h in m.blocked ==> h in m.buffer || (m.filter.Some? && h in m.filter.value))
  }

  ghost predicate Inv(s: State) {
    && (forall p :: p in s.procs ==> (HoldsLock(s.procs[p].phase) <==> s.lock == Some(p)))
    && (s.lock.Some? ==> s.lock.value in s.procs)
    && (forall p :: p in s.procs ==> ProcessInv(s.procs[p], Stored(s.row)))
    && s.committed <= Stored(s.row)
  }

  lemma {:induction false} LockingRunsAreRuns(s: State, es: seq<Event>)
    requires Runs(true, s, es)
    ensures Runs(false, s, es)
    decreases |es|
  {
    if es != [] {
      LockingRunsAreRuns(Apply(s, es[0]), es[1..]);
    }
  }

  lemma StepKeepsInv(s: State, e: Event)
    requires Inv(s) && Enabled(true, s, e)
    ensures Inv(Apply(s, e))
    ensures Stored(s.row) <= Stored(Apply(s, e).row)
    ensures s.committed <= Apply(s, e).committed
  {
    if e.Commit? {
      CommitKeepsInv(s, e.p, e.acknowledged);
    }
  }

  lemma CommitKeepsInv(s: State, p: Pid, acknowledged: bool)
    requires Inv(s) && Enabled(true, s, Commit(p, acknowledged))
    ensures Inv(Apply(s, Commit(p, acknowledged)))
    ensures Stored(s.row) <= Stored(Apply(s, Commit(p, acknowledged)).row)
  {
    var t := Apply(s, Commit(p, acknowledged));
    assert ProcessInv(s.procs[p], Stored(s.row));
    forall q | q in t.procs
      ensures HoldsLock(t.procs[q].phase) <==> t.lock == Some(q)
      ensures ProcessInv(t.procs[q], Stored(t.row))
    {
      if q != p {
        assert ProcessInv(s.procs[q], Stored(s.row));
        assert !HoldsLock(s.procs[q].phase);
      }
    }
  }

  /** Every run keeps the invariant, and never shrinks the persisted filter. */
  lemma {:induction false} RunKeepsInv(s: State, es: seq<Event>)
    requires Inv(s) && Runs(true, s, es)
    ensures Runs(false, s, es)
    ensures Inv(Exec(s, es))
    ensures Stored(s.row) <= Stored(Exec(s, es).row)
    ensures s.committed <= Exec(s, es).committed
    decreases |es|
  {
    if es != [] {
      StepKeepsInv(s, es[0]);
      RunKeepsInv(Apply(s, es[0]), es[1..]);
    }
  }

  lemma {:induction false} RunsConcat(locking: bool, s: State, es: seq<Event>, fs: seq<Event>)
    requires Runs(locking, s, es + fs)
    ensures Runs(locking, s, es) && Runs(false, s, es) && Runs(false, s, es + fs)
    ensures Runs(locking, Exec(s, es), fs) && Runs(false, Exec(s, es), fs)
    ensures Exec(s, es + fs) == Exec(Exec(s, es), fs)
    decreases |es|
  {
    if es == [] {
      assert es + fs == fs;
      if locking { LockingRunsAreRuns(s, fs); }
    } else {
      assert (es + fs)[1..] == es[1..] + fs;
      RunsConcat(locking, Apply(s, es[0]), es[1..], fs);
    }
  }

  // --------------------------------------------------------------------------------------
  // What the protocol guarantees over whole runs
  // --------------------------------------------------------------------------------------

  lemma MutualExclusion(s0: State, es: seq<Event>, p: Pid, q: Pid)
    requires Init(s0) && Runs(true, s0, es)
    ensures Runs(false, s0, es)
    ensures var s := Exec(s0, es);
            p in s.procs && q in s.procs && HoldsLock(s.procs[p].phase) && HoldsLock(s.procs[q].phase) ==> p == q
  {
    RunKeepsInv(s0, es);
  }

  /** Nothing that ever committed is lost from the persisted filter, whatever happens next. */
  lemma CommittedIsNeverLost(s0: State, es: seq<Event>, fs: seq<Event>)
    requires Init(s0) && Runs(true, s0, es + fs)
    ensures Runs(false, s0, es) && Runs(false, s0, es + fs)
    ensures Exec(s0, es).committed <= Stored(Exec(s0, es + fs).row)
  {
    RunsConcat(true, s0, es, fs);
    RunKeepsInv(s0, es);
    RunKeepsInv(Exec(s0, es), fs);
  }

  /** What `Filter` lets through, given a buffer and a cached filter. */
  ghost function Passed(hashes: seq<ID>, buffer: set<ID>, filter: Filter): (r: seq<ID>)
    ensures forall h :: h in r <==> h in hashes && h !in buffer && h !in filter
    ensures |r| <= |hashes|
  {
    if hashes == [] then []
    else if hashes[0] in buffer || hashes[0] in filter then Passed(hashes[1..], buffer, filter)
    else [hashes[0]] + Passed(hashes[1..], buffer, filter)
  }

  ghost predicate Restarts(p: Pid, es: seq<Event>) {
    exists i :: 0 <= i < |es| && es[i] == Start(p)
  }

  /** A blocked hash stays in the buffer or in the cached filter until the process restarts. */
  lemma {:induction false} BlockedIsRemembered(s: State, es: seq<Event>, p: Pid, h: ID)
    requires Inv(s) && Runs(true, s, es) && !Restarts(p, es)
    requires p in s.procs && h in s.procs[p].blocked
    ensures Runs(false, s, es)
    ensures p in Exec(s, es).procs && h in Exec(s, es).procs[p].blocked
    ensures var m := Exec(s, es).procs[p]; h in m.buffer || (m.filter.Some? && h in m.filter.value)
    decreases |es|
  {
    if es == [] {
      assert ProcessInv(s.procs[p], Stored(s.row));
    } else {
      StepKeepsInv(s, es[0]);
      assert es[0] != Start(p);
      forall i | 0 <= i < |es[1..]| ensures es[1..][i] != Start(p) {
        assert es[1..][i] == es[i + 1];
      }
      BlockedIsRemembered(Apply(s, es[0]), es[1..], p, h);
    }
  }

  /** A hash passed to `Block` is never let through again by that process while it lives, with
      failed, aborted and unacknowledged flushes included. */
  lemma BlockedNeverPasses(
    s0: State, es: seq<Event>, p: Pid, hs: set<ID>, fs: seq<Event>, query: seq<ID>, cached: Filter
  )
    requires Init(s0) && Runs(true, s0, es + ([Block(p, hs)] + fs)) && !Restarts(p, fs)
    ensures Runs(false, s0, es + ([Block(p, hs)] + fs))
    ensures var s := Exec(s0, es + ([Block(p, hs)] + fs));
            && p in s.procs
            && (s.procs[p].filter == Some(cached) ==>
                  forall h :: h in hs ==> h !in Passed(query, s.procs[p].buffer, cached))
  {
    RunsConcat(true, s0, es, [Block(p, hs)] + fs);
    RunKeepsInv(s0, es);
    var s1 := Exec(s0, es);
    RunsConcat(true, s1, [Block(p, hs)], fs);
    RunKeepsInv(s1, [Block(p, hs)]);
    var s2 := Apply(s1, Block(p, hs));
    assert Exec(s1, [Block(p, hs)]) == s2;
    RunKeepsInv(s2, fs);
    var s := Exec(s2, fs);
    StaysStarted(s2, fs, p);
    forall h | h in hs ensures h in s.procs[p].blocked {
      BlockedIsRemembered(s2, fs, p, h);
    }
    assert ProcessInv(s.procs[p], Stored(s.row));
  }

  lemma {:induction false} StaysStarted(s: State, es: seq<Event>, p: Pid)
    requires Runs(true, s, es) && p in s.procs
    ensures Runs(false, s, es)
    ensures p in Exec(s, es).procs
    decreases |es|
  {
    if es != [] {
      StaysStarted(Apply(s, es[0]), es[1..], p);
    }
  }

  /** What a process's cached filter refuses, it refuses until the process restarts. */
  lemma {:induction false} FilterGrows(s: State, es: seq<Event>, p: Pid, h: ID)
    requires Inv(s) && Runs(true, s, es) && !Restarts(p, es)
    requires p in s.procs && s.procs[p].filter.Some? && h in s.procs[p].filter.value
    ensures Runs(false, s, es)
    ensures p in Exec(s, es).procs && Exec(s, es).procs[p].filter.Some? && h in Exec(s, es).procs[p].filter.value
    decreases |es|
  {
    if es != [] {
      assert ProcessInv(s.procs[p], Stored(s.row));
      StepKeepsInv(s, es[0]);
      assert es[0] != Start(p);
      forall i | 0 <= i < |es[1..]| ensures es[1..][i] != Start(p) {
        assert es[1..][i] == es[i + 1];
      }
      FilterGrows(Apply(s, es[0]), es[1..], p, h);
    }
  }

  /** What has been committed when a process commits is in its cached filter from then on. */
  lemma CommitCaches(s: State, q: Pid, gs: seq<Event>, h: ID)
    requires Inv(s) && Runs(true, s, [Commit(q, true)] + gs) && !Restarts(q, gs) && h in Stored(s.row)
    ensures Runs(false, s, [Commit(q, true)] + gs)
    ensures var t := Exec(s, [Commit(q, true)] + gs);
            q in t.procs && t.procs[q].filter.Some? && h in t.procs[q].filter.value
  {
    RunsConcat(true, s, [Commit(q, true)], gs);
    assert ProcessInv(s.procs[q], Stored(s.row));
    StepKeepsInv(s, Commit(q, true));
    assert Exec(s, [Commit(q, true)]) == Apply(s, Commit(q, true));
    FilterGrows(Apply(s, Commit(q, true)), gs, q, h);
  }

  /** Hashes that one process committed are refused by every process from its next acknowledged flush
      on, through whatever happens after that, until it restarts. */
  lemma CommitsSpread(s0: State, es: seq<Event>, p: Pid, ack: bool, fs: seq<Event>, q: Pid, gs: seq<Event>)
    requires Init(s0) && Runs(true, s0, es + ([Commit(p, ack)] + (fs + ([Commit(q, true)] + gs)))) && !Restarts(q, gs)
    ensures Runs(false, s0, es) && Runs(false, s0, es + ([Commit(p, ack)] + (fs + ([Commit(q, true)] + gs))))
    ensures var before := Exec(s0, es);
            var after := Exec(s0, es + ([Commit(p, ack)] + (fs + ([Commit(q, true)] + gs))));
            && p in before.procs && before.procs[p].phase.Staged?
            && q in after.procs && after.procs[q].filter.Some?
            && forall h :: h in before.procs[p].phase.hashes ==> h in after.procs[q].filter.value
  {
    var last := [Commit(q, true)] + gs;
    RunsConcat(true, s0, es, [Commit(p, ack)] + (fs + last));
    RunKeepsInv(s0, es);
    var s1 := Exec(s0, es);
    RunsConcat(true, s1, [Commit(p, ack)], fs + last);
    StepKeepsInv(s1, Commit(p, ack));
    var s2 := Apply(s1, Commit(p, ack));
    assert Exec(s1, [Commit(p, ack)]) == s2;
    RunsConcat(true, s2, fs, last);
    RunKeepsInv(s2, fs);
    var s3 := Exec(s2, fs);
    RunsConcat(true, s3, [Commit(q, true)], gs);
    StaysStarted(s3, last, q);
    CacheExists(s3, q, gs);
    forall h | h in s1.procs[p].phase.hashes ensures h in Exec(s3, last).procs[q].filter.value {
      CommitCaches(s3, q, gs, h);
    }
  }

  lemma CacheExists(s: State, q: Pid, gs: seq<Event>)
    requires Runs(true, s, [Commit(q, true)] + gs) && !Restarts(q, gs)
    ensures Runs(false, s, [Commit(q, true)] + gs)
    ensures var t := Exec(s, [Commit(q, true)] + gs); q in t.procs && t.procs[q].filter.Some?
  {
    RunsConcat(true, s, [Commit(q, true)], gs);
    assert Exec(s, [Commit(q, true)]) == Apply(s, Commit(q, true));
    FilterStays(Apply(s, Commit(q, true)), gs, q);
  }

  lemma {:induction false} FilterStays(s: State, es: seq<Event>, p: Pid)
    requires Runs(true, s, es) && !Restarts(p, es) && p in s.procs && s.procs[p].filter.Some?
    ensures Runs(false, s, es)
    ensures p in Exec(s, es).procs && Exec(s, es).procs[p].filter.Some?
    decreases |es|
  {
    if es != [] {
      assert es[0] != Start(p);
      forall i | 0 <= i < |es[1..]| ensures es[1..][i] != Start(p) {
        assert es[1..][i] == es[i + 1];
      }
      FilterStays(Apply(s, es[0]), es[1..], p);
    }
  }

  /** Without the advisory lock the same steps lose a committed hash: two flushes load the same
      filter and the second commit drops the first one's hash. */
  lemma LockIsNeeded()
    ensures exists s0, es ::
              && Init(s0) && Runs(false, s0, es)
              && !(Exec(s0, es).committed <= Stored(Exec(s0, es).row))
  {
    var s0 := State(map[], None, Missing, {}, iset{});
    var setup := [Start(0), Start(1), Block(0, {1}), Block(1, {2})];
    TwoBuffers(s0, setup);
    var es := LosingRace(Exec(s0, setup));
    RunsAppend(false, s0, setup, es);
  }

  function TwoProcesses(): map<Pid, Process> {
    map[0 := Process({1}, None, Idle, {1}), 1 := Process({2}, None, Idle, {2})]
  }

  lemma TwoBuffers(s0: State, setup: seq<Event>)
    requires s0 == State(map[], None, Missing, {}, iset{})
    requires setup == [Start(0), Start(1), Block(0, {1}), Block(1, {2})]
    ensures Runs(false, s0, setup)
    ensures Exec(s0, setup) == State(TwoProcesses(), None, Missing, {}, iset{})
  {
    var s1 := Apply(s0, Start(0));
    var s2 := Apply(s1, Start(1));
    var s3 := Apply(s2, Block(0, {1}));
    var s4 := Apply(s3, Block(1, {2}));
    assert s4.procs[0].buffer == s4.procs[0].blocked == {1};
    assert s4.procs[1].buffer == s4.procs[1].blocked == {2};
    assert s4.procs == TwoProcesses();
    var es := BeforeIn(false, s3, Block(1, {2}), []);
    es := BeforeIn(false, s2, Block(0, {1}), es);
    es := BeforeIn(false, s1, Start(1), es);
    es := BeforeIn(false, s0, Start(0), es);
    assert es == setup;
  }

  lemma LosingRace(s: State) returns (es: seq<Event>)
    requires s == State(TwoProcesses(), None, Missing, {}, iset{})
    ensures Runs(false, s, es)
    ensures 1 in Exec(s, es).committed && 1 !in Stored(Exec(s, es).row)
  {
    var f, g := iset{1}, iset{2};
    StageRun(s, 0, f);
    var s1 := Exec(s, StageEvents(0, f));
    StageRun(s1, 1, g);
    var s2 := Exec(s1, StageEvents(1, g));
    es := BeforeIn(false, Apply(s2, Commit(0, true)), Commit(1, true), []);
    es := BeforeIn(false, s2, Commit(0, true), es);
    RunsAppend(false, s1, StageEvents(1, g), es);
    es := StageEvents(1, g) + es;
    RunsAppend(false, s, StageEvents(0, f), es);
    es := StageEvents(0, f) + es;
  }

  /** The steps of a flush up to, and not including, its commit. */
  function StageEvents(p: Pid, next: Filter): seq<Event> {
    [Begin(p), Delete(p), Lock(p), Load(p), Stage(p, next)]
  }

  lemma StageRun(s: State, p: Pid, next: Filter)
    requires p in s.procs && s.procs[p].phase.Idle?
    requires Stored(s.row) <= next && forall h :: h in s.procs[p].buffer ==> h in next
    ensures Runs(false, s, StageEvents(p, next))
    ensures s.lock.None? ==> Runs(true, s, StageEvents(p, next))
    ensures Exec(s, StageEvents(p, next)) ==
            s.(procs := s.procs[p := s.procs[p].(phase := Staged(s.procs[p].buffer, next))], lock := Some(p))
  {
    var locking := s.lock.None?;
    var s1 := Apply(s, Begin(p));
    var s2 := Apply(s1, Delete(p));
    var s3 := Apply(s2, Lock(p));
    var s4 := Apply(s3, Load(p));
    var s5 := Apply(s4, Stage(p, next));
    assert s5.procs == s.procs[p := s.procs[p].(phase := Staged(s.procs[p].buffer, next))];
    var es := [];
    es := BeforeIn(locking, s4, Stage(p, next), es);
    es := BeforeIn(locking, s3, Load(p), es);
    es := BeforeIn(locking, s2, Lock(p), es);
    es := BeforeIn(locking, s1, Delete(p), es);
    es := BeforeIn(locking, s, Begin(p), es);
    assert es == StageEvents(p, next);
  }

  lemma BeforeIn(locking: bool, s: State, e: Event, es: seq<Event>) returns (r: seq<Event>)
    requires Enabled(locking, s, e) && Runs(locking, Apply(s, e), es) && Runs(false, Apply(s, e), es)
    ensures r == [e] + es && Runs(locking, s, r) && Runs(false, s, r)
    ensures Exec(s, r) == Exec(Apply(s, e), es)
  {
    r := [e] + es;
    assert r[1..] == es;
  }

  lemma {:induction false} RunsAppend(locking: bool, s: State, es: seq<Event>, fs: seq<Event>)
    requires Runs(locking, s, es) && Runs(false, s, es)
    requires Runs(locking, Exec(s, es), fs) && Runs(false, Exec(s, es), fs)
    ensures Runs(locking, s, es + fs) && Runs(false, s, es + fs)
    ensures Exec(s, es + fs) == Exec(Exec(s, es), fs)
    decreases |es|
  {
    if es == [] {
      assert es + fs == fs;
    } else {
      assert (es + fs)[1..] == es[1..] + fs;
      RunsAppend(locking, Apply(s, es[0]), es[1..], fs);
    }
  }

  /** A flush that nobody interrupts, from an idle process to its commit, as one step. */
  lemma FlushRun(s: State, p: Pid, next: Filter, ack: bool)
    requires p in s.procs && s.procs[p].phase.Idle? && s.lock.None?
    requires Stored(s.row) <= next && forall h :: h in s.procs[p].buffer ==> h in next
    ensures Runs(true, s, StageEvents(p, next) + [Commit(p, ack)])
    ensures Runs(false, s, StageEvents(p, next) + [Commit(p, ack)])
    ensures var m, t := s.procs[p], Exec(s, StageEvents(p, next) + [Commit(p, ack)]);
            && t.row == Object(next) && t.torrents == s.torrents - m.buffer && t.lock.None?
            && t.committed == s.committed + (iset h | h in m.buffer)
            && t.procs == s.procs[p := if ack then m.(buffer := {}, filter := Some(next)) else m]
  {
    StageRun(s, p, next);
    var t := Exec(s, StageEvents(p, next));
    var es := BeforeIn(true, t, Commit(p, ack), []);
    assert es == [Commit(p, ack)];
    RunsAppend(true, s, StageEvents(p, next), es);
    assert Apply(t, Commit(p, ack)).procs
        == s.procs[p := if ack then s.procs[p].(buffer := {}, filter := Some(next)) else s.procs[p]];
  }

  // --------------------------------------------------------------------------------------
  // The manager object, and how its flush is a run of the protocol
  // --------------------------------------------------------------------------------------

  /** Where a flush may fail. `CommitLost` is a commit that took effect although it reported
      an error; every other failure rolls the transaction back. */
  datatype Fault =
    | NoFault | BeginFails | DeleteFails | LockFails | QueryFails | ReadFails | CreateFails
    | WriteFails | SaveRowFails | CommitFails | CommitLost

  /** Whether a flush reaches the statement that `fault` breaks: deleting needs hashes, reading
      needs a stored filter, creating and saving the row need its absence. */
  predicate Strikes(fault: Fault, buffer: set<ID>, row: Row) {
    match fault
    case NoFault => false
    case DeleteFails => buffer != {}
    case ReadFails => row.Object?
    case CreateFails => !row.Object?
    case SaveRowFails => !row.Object?
    case _ => true
  }

  /** How many steps a flush takes before it rolls back. */
  function Depth(fault: Fault): (n: nat)
    ensures n <= 5
  {
    match fault
    case BeginFails => 0
    case DeleteFails => 1
    case LockFails => 2
    case QueryFails => 3
    case ReadFails => 3
    case CreateFails => 3
    case WriteFails => 4
    case SaveRowFails => 4
    case _ => 5
  }

  /** The steps of a flush of process `p`. */
  function FlushEvents(p: Pid, fault: Fault, strikes: bool, next: Filter): seq<Event> {
    if !strikes then StageEvents(p, next) + [Commit(p, true)]
    else if fault.CommitLost? then StageEvents(p, next) + [Commit(p, false)]
    else if Depth(fault) == 0 then []
    else StageEvents(p, next)[..Depth(fault)] + [Abort(p)]
  }

  /** What a flush leaves behind. */
  ghost function Flushed(s: State, p: Pid, fault: Fault, strikes: bool, next: Filter): State
    requires p in s.procs
  {
    var m := s.procs[p];
    if strikes && !fault.CommitLost? then s
    else s.(procs := s.procs[p := if strikes then m else m.(buffer := {}, filter := Some(next))],
         row := Object(next),
         torrents := s.torrents - m.buffer,
         committed := s.committed + (iset h | h in m.buffer))
  }

  /** Up to its commit, a flush changes nothing but its own phase and the lock. */
  ghost predicate OnlyPhase(s: State, t: State, p: Pid) {
    && p in s.procs && p in t.procs
    && t == s.(procs := s.procs[p := s.procs[p].(phase := t.procs[p].phase)], lock := t.lock)
    && (t.lock == s.lock || t.lock == Some(p))
  }

  predicate Inner(e: Event, p: Pid) {
    e == Begin(p) || e == Delete(p) || e == Lock(p) || e == Load(p) || (e.Stage? && e.p == p)
  }

  lemma {:induction false} InnerSteps(s: State, es: seq<Event>, p: Pid)
    requires p in s.procs && Runs(true, s, es) && forall i :: 0 <= i < |es| ==> Inner(es[i], p)
    ensures Runs(false, s, es) && OnlyPhase(s, Exec(s, es), p)
    ensures es != [] ==> !Exec(s, es).procs[p].phase.Idle?
    decreases |es|
  {
    if es != [] {
      assert Inner(es[0], p);
      InnerSteps(Apply(s, es[0]), es[1..], p);
    } else {
      assert s.procs[p := s.procs[p].(phase := s.procs[p].phase)] == s.procs;
    }
  }

  lemma AbortUndoes(s: State, t: State, p: Pid)
    requires p in s.procs && s.procs[p].phase.Idle? && s.lock.None?
    requires OnlyPhase(s, t, p) && !t.procs[p].phase.Idle?
    ensures Apply(t, Abort(p)) == s
  {
    assert Apply(t, Abort(p)).procs == s.procs;
  }

  /** Every flush that nobody interrupts, with every way it can fail, is a run of the protocol. */
  lemma FlushIsRun(s: State, p: Pid, fault: Fault, strikes: bool, next: Filter)
    requires p in s.procs && s.procs[p].phase.Idle? && s.lock.None?
    requires Stored(s.row) <= next && forall h :: h in s.procs[p].buffer ==> h in next
    ensures Runs(true, s, FlushEvents(p, fault, strikes, next)) && Runs(false, s, FlushEvents(p, fault, strikes, next))
    ensures Exec(s, FlushEvents(p, fault, strikes, next)) == Flushed(s, p, fault, strikes, next)
  {
    if !strikes || fault.CommitLost? {
      FlushRun(s, p, next, !strikes);
    } else if Depth(fault) > 0 {
      StageRun(s, p, next);
      var head, rest := StageEvents(p, next)[..Depth(fault)], StageEvents(p, next)[Depth(fault)..];
      assert StageEvents(p, next) == head + rest;
      RunsConcat(true, s, head, rest);
      InnerSteps(s, head, p);
      var t := Exec(s, head);
      AbortUndoes(s, t, p);
      var last := BeforeIn(true, t, Abort(p), []);
      assert last == [Abort(p)];
      RunsAppend(true, s, head, last);
    }
  }

  class Store {
    var row: Row
    var torrents: set<ID>

    constructor ()
      ensures row == Missing && torrents == {}
    {
      row := Missing;
      torrents := {};
    }
  }

  /** The loop of `Filter` over the queried hashes. */
  method PassThrough(hashes: seq<ID>, buffer: set<ID>, filter: Filter) returns (out: seq<ID>)
    ensures out == Passed(hashes, buffer, filter)
  {
    out := [];
    for i := 0 to |hashes|
      invariant out + Passed(hashes[i..], buffer, filter) == Passed(hashes, buffer, filter)
    {
      assert hashes[i..][1..] == hashes[i + 1..];
      if hashes[i] !in buffer && hashes[i] !in filter {
        out := out + [hashes[i]];
      }
    }
  }

  class Manager {
    var buffer: set<ID>
    var filter: Option<Filter>
    var lastFlushedAt: int
    const maxBufferSize: nat
    const maxFlushWait: int

    constructor (maxBufferSize: nat, maxFlushWait: int)
      ensures buffer == {} && filter.None?
      ensures this.maxBufferSize == maxBufferSize && this.maxFlushWait == maxFlushWait
    {
      buffer := {};
      filter := None;
      lastFlushedAt := 0;
      this.maxBufferSize := maxBufferSize;
      this.maxFlushWait := maxFlushWait;
    }

    predicate ShouldFlush(now: int)
      reads this
    {
      |buffer| >= maxBufferSize || now - lastFlushedAt >= maxFlushWait
    }

    /** The cached filter never claims more than the persisted one. */
    ghost predicate Consistent(store: Store)
      reads this, store
    {
      filter.Some? ==> filter.value <= Stored(store.row)
    }

    /** Every hash this process currently refuses. */
    ghost function Remembered(): Filter
      reads this
    {
      (iset h | h in buffer) + (if filter.Some? then filter.value else iset{})
    }

    /** `s` is a state of the protocol in which this manager is the idle process `p`. */
    ghost predicate Shows(s: State, p: Pid, store: Store)
      reads this, store
    {
      && p in s.procs && s.procs[p].phase.Idle? && s.lock.None?
      && s.procs[p].buffer == buffer && s.procs[p].filter == filter
      && s.row == store.row && s.torrents == store.torrents
    }

    /** The filter that a flush writes. */
    ghost function Next(store: Store, spurious: Filter): Filter
      reads this, store
    {
      Stored(store.row) + (iset h | h in buffer) + spurious
    }

    /** The transaction behind every flush. A failed flush leaves the buffer and the cached filter
        alone, and unless the commit was lost it leaves the store alone too. Every outcome is that of
        a run of the protocol, with `FlushIsRun`. */
    method FlushTransaction(store: Store, fault: Fault, spurious: Filter, now: int) returns (ok: bool)
      modifies this, store
      ensures ok <==> !Strikes(fault, old(buffer), old(store.row))
      ensures !ok ==> buffer == old(buffer) && filter == old(filter) && lastFlushedAt == old(lastFlushedAt)
      ensures !ok && !fault.CommitLost? ==> store.row == old(store.row) && store.torrents == old(store.torrents)
      ensures ok || fault.CommitLost? ==>
                && store.row == Object(old(Stored(store.row)) + (iset h | h in old(buffer)) + spurious)
                && store.torrents == old(store.torrents) - old(buffer)
      ensures ok ==> buffer == {} && filter == Some(Stored(store.row)) && lastFlushedAt == now
      ensures forall s: State, p: Pid :: old(Shows(s, p, store)) ==>
                                           Shows(Flushed(s, p, fault, !ok, old(Next(store, spurious))), p, store)
    {
      var hashes := buffer;
      if fault.BeginFails? {
        return false;
      }
      if hashes != {} && fault.DeleteFails? {
        return false;
      }
      if fault.LockFails? || fault.QueryFails? {
        return false;
      }
      var bf: Filter := iset{};
      if store.row.Object? {
        if fault.ReadFails? {
          return false;
        }
        bf := store.row.filter;
      } else if fault.CreateFails? {
        return false;
      }
      var todo := hashes;
      while todo != {}
        invariant todo <= hashes
        invariant bf == old(Stored(store.row)) + (iset h | h in hashes && h !in todo)
      {
        var hash :| hash in todo;
        bf := bf + iset{hash};
        todo := todo - {hash};
      }
      bf := bf + spurious;
      if fault.WriteFails? || (!store.row.Object? && fault.SaveRowFails?) || fault.CommitFails? {
        return false;
      }
      store.row := Object(bf);
      store.torrents := store.torrents - hashes;
      if fault.CommitLost? {
        return false;
      }
      buffer := {};
      filter := Some(bf);
      lastFlushedAt := now;
      return true;
    }

    /** `Filter`: everything neither buffered nor testing positive, in order; nothing on a failed flush. */
    method FilterHashes(store: Store, hashes: seq<ID>, fault: Fault, spurious: Filter, now: int)
      returns (filtered: Option<seq<ID>>)
      requires Consistent(store)
      modifies this, store
      ensures Consistent(store)
      ensures filtered.Some? ==> filter.Some? && filtered.value == Passed(hashes, buffer, filter.value)
      ensures filtered.None? ==> buffer == old(buffer) && filter == old(filter)
      ensures fault.NoFault? ==> filtered.Some?
      ensures old(filter.Some? && !ShouldFlush(now)) ==>
                filtered.Some? && buffer == old(buffer) && filter == old(filter)
      ensures old(Remembered()) <= Remembered()
    {
      if filter.None? || ShouldFlush(now) {
        var ok := FlushTransaction(store, fault, spurious, now);
        if !ok {
          return None;
        }
      }
      var out := PassThrough(hashes, buffer, filter.value);
      return Some(out);
    }

    /** `Block`: the hashes are remembered whether or not the flush that follows succeeds. */
    method BlockHashes(store: Store, hashes: seq<ID>, flush: bool, fault: Fault, spurious: Filter, now: int)
      returns (ok: bool)
      requires Consistent(store)
      modifies this, store
      ensures Consistent(store)
      ensures forall h :: h in hashes ==> h in Remembered()
      ensures old(Remembered()) <= Remembered()
      ensures flush && fault.NoFault? ==> ok && buffer == {}
    {
      for i := 0 to |hashes|
        invariant unchanged(store) && filter == old(filter)
        invariant buffer == old(buffer) + set h | h in hashes[..i]
      {
        assert hashes[..i + 1] == hashes[..i] + [hashes[i]];
        buffer := buffer + {hashes[i]};
      }
      assert hashes[..|hashes|] == hashes;
      ok := true;
      if flush || ShouldFlush(now) {
        ok := FlushTransaction(store, fault, spurious, now);
      }
    }

    method Flush(store: Store, fault: Fault, spurious: Filter, now: int) returns (ok: bool)
      modifies this, store
      ensures fault.NoFault? ==> ok
      ensures ok ==> buffer == {}
      ensures ok && old(buffer) != {} ==> forall h :: h in old(buffer) ==> h in Stored(store.row)
      ensures old(buffer) == {} ==> ok && unchanged(this) && unchanged(store)
    {
      if buffer == {} {
        return true;
      }
      ok := FlushTransaction(store, fault, spurious, now);
    }
  }
}
