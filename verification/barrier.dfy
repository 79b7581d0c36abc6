/** The reusable keyed barrier of the memory benchmark's mock server, as a state machine over the
    sections its callers run under the condition's lock, and the check made of its event log. */
module Barrier {

  type Key = string

  datatype Counter = Counter(generation: nat, arrivals: nat)

  datatype Status = Waiting | Released | TimedOut | Responded

  /** One call of `wait`, with the generation and the arrival number it was given. */
  datatype Call = Call(key: Key, generation: nat, arrival: nat, status: Status)

  datatype Kind = ArriveRow | ReleaseRow | TimeoutRow | RespondRow

  datatype Row = Row(kind: Kind, key: Key, generation: nat, arrival: nat)

  datatype State = State(keys: map<Key, Counter>, calls: seq<Call>, log: seq<Row>)

  datatype Event =
    | Arrive(key: Key)
    | Wake(c: nat)
    | Expire(c: nat)
    | Respond(c: nat)

  function CounterOf(keys: map<Key, Counter>, k: Key): Counter {
    if k in keys then keys[k] else Counter(0, 0)
  }

  predicate Enabled(s: State, e: Event) {
    match e
    case Arrive(_) => true
    case Wake(c) =>
      c < |s.calls| && s.calls[c].status == Waiting
      && CounterOf(s.keys, s.calls[c].key).generation != s.calls[c].generation
    case Expire(c) =>
      c < |s.calls| && s.calls[c].status == Waiting
      && CounterOf(s.keys, s.calls[c].key).generation == s.calls[c].generation
    case Respond(c) => c < |s.calls| && s.calls[c].status == Released
  }

  function RowFor(kind: Kind, c: Call): Row {
    Row(kind, c.key, c.generation, c.arrival)
  }

  function Mark(s: State, c: nat, status: Status, kind: Kind): State
    requires c < |s.calls|
  {
    s.(calls := s.calls[c := s.calls[c].(status := status)], log := s.log + [RowFor(kind, s.calls[c])])
  }

  function Apply(s: State, e: Event, parties: nat): State
    requires Enabled(s, e)
  {
    match e
    case Arrive(k) =>
      var n := CounterOf(s.keys, k);
      var arrival := n.arrivals + 1;
      if arrival == parties then
        var call := Call(k, n.generation, arrival, Released);
        State(s.keys[k := Counter(n.generation + 1, 0)], s.calls + [call],
              s.log + [RowFor(ArriveRow, call)] + [RowFor(ReleaseRow, call)])
      else
        var call := Call(k, n.generation, arrival, Waiting);
        State(s.keys[k := Counter(n.generation, arrival)], s.calls + [call], s.log + [RowFor(ArriveRow, call)])
    case Wake(c) => Mark(s, c, Released, ReleaseRow)
    case Expire(c) => Mark(s, c, TimedOut, TimeoutRow)
    case Respond(c) => Mark(s, c, Responded, RespondRow)
  }

  predicate Runs(s: State, es: seq<Event>, parties: nat)
    decreases |es|
  {
    es == [] || (Enabled(s, es[0]) && Runs(Apply(s, es[0], parties), es[1..], parties))
  }

  function Exec(s: State, es: seq<Event>, parties: nat): State
    requires Runs(s, es, parties)
    decreases |es|
  {
    if es == [] then s else Exec(Apply(s, es[0], parties), es[1..], parties)
  }

  /** A server nobody is waiting at. */
  predicate Quiet(keys: map<Key, Counter>) {
    forall k :: k in keys ==> keys[k].arrivals == 0
  }

  function Start(keys: map<Key, Counter>): State {
    State(keys, [], [])
  }

  // --------------------------------------------------------------------------------------
  // Arrivals are numbered
  // --------------------------------------------------------------------------------------

  /** How many arrivals generation `g` of a key has had. */
  function Arrived(n: Counter, g: nat, parties: nat): nat {
    if g < n.generation then parties else if g == n.generation then n.arrivals else 0
  }

  ghost predicate Has(calls: seq<Call>, k: Key, g: nat, m: int) {
    exists i :: 0 <= i < |calls| && calls[i].key == k && calls[i].generation == g && calls[i].arrival == m
  }

  /** Since the start, generation `g` of key `k` has had exactly the arrivals 1 to `n`. */
  ghost predicate Numbered(calls: seq<Call>, k: Key, g: nat, n: nat) {
    forall m :: Has(calls, k, g, m) <==> 1 <= m <= n
  }

  /** No arrival number of a generation is given twice. */
  ghost predicate Once(calls: seq<Call>) {
    forall i, j :: 0 <= i < j < |calls| && calls[i].key == calls[j].key && calls[i].generation == calls[j].generation ==>
                     calls[i].arrival != calls[j].arrival
  }

  ghost predicate Inv(base: map<Key, Counter>, s: State, parties: nat) {
    && (forall k :: CounterOf(base, k).generation <= CounterOf(s.keys, k).generation)
    && (forall k, g :: g >= CounterOf(base, k).generation ==>
          Numbered(s.calls, k, g, Arrived(CounterOf(s.keys, k), g, parties)))
    && Once(s.calls)
    && (forall i :: 0 <= i < |s.calls| ==> s.calls[i].generation >= CounterOf(base, s.calls[i].key).generation)
    && (forall i :: 0 <= i < |s.calls| && s.calls[i].status in {Released, Responded} ==>
          s.calls[i].generation < CounterOf(s.keys, s.calls[i].key).generation)
  }

  lemma HasSnoc(calls: seq<Call>, call: Call, k: Key, g: nat, m: int)
    ensures Has(calls + [call], k, g, m)
       <==> Has(calls, k, g, m) || (call.key == k && call.generation == g && call.arrival == m)
  {
    var calls' := calls + [call];
    if Has(calls, k, g, m) {
      var i :| 0 <= i < |calls| && calls[i].key == k && calls[i].generation == g && calls[i].arrival == m;
      assert calls'[i] == calls[i];
    }
    assert calls'[|calls|] == call;
  }

  lemma HasMark(calls: seq<Call>, c: nat, status: Status, k: Key, g: nat, m: int)
    requires c < |calls|
    ensures Has(calls[c := calls[c].(status := status)], k, g, m) <==> Has(calls, k, g, m)
  {
    var calls' := calls[c := calls[c].(status := status)];
    if Has(calls, k, g, m) {
      var i :| 0 <= i < |calls| && calls[i].key == k && calls[i].generation == g && calls[i].arrival == m;
      assert calls'[i].key == k && calls'[i].generation == g && calls'[i].arrival == m;
    }
    if Has(calls', k, g, m) {
      var i :| 0 <= i < |calls'| && calls'[i].key == k && calls'[i].generation == g && calls'[i].arrival == m;
      assert calls[i].key == k && calls[i].generation == g && calls[i].arrival == m;
    }
  }

  lemma NumberedMark(calls: seq<Call>, c: nat, status: Status, k: Key, g: nat, n: nat)
    requires c < |calls| && Numbered(calls, k, g, n)
    ensures Numbered(calls[c := calls[c].(status := status)], k, g, n)
  {
    var calls' := calls[c := calls[c].(status := status)];
    forall m ensures Has(calls', k, g, m) <==> 1 <= m <= n {
      HasMark(calls, c, status, k, g, m);
    }
  }

  lemma ArriveKeepsNumbers(base: map<Key, Counter>, s: State, k: Key, parties: nat, k': Key, g: nat)
    requires Inv(base, s, parties) && g >= CounterOf(base, k').generation
    ensures var r := Apply(s, Arrive(k), parties);
            Numbered(r.calls, k', g, Arrived(CounterOf(r.keys, k'), g, parties))
  {
    var r := Apply(s, Arrive(k), parties);
    var n := CounterOf(s.keys, k);
    var call := r.calls[|s.calls|];
    assert r.calls == s.calls + [call];
    var before := Arrived(CounterOf(s.keys, k'), g, parties);
    assert Numbered(s.calls, k', g, before);
    forall m ensures Has(r.calls, k', g, m) <==> 1 <= m <= Arrived(CounterOf(r.keys, k'), g, parties) {
      HasSnoc(s.calls, call, k', g, m);
    }
  }

  lemma ArriveOnce(base: map<Key, Counter>, s: State, k: Key, parties: nat)
    requires Inv(base, s, parties)
    ensures Once(Apply(s, Arrive(k), parties).calls)
  {
    var n := CounterOf(s.keys, k);
    assert Numbered(s.calls, k, n.generation, Arrived(CounterOf(s.keys, k), n.generation, parties));
    forall i | 0 <= i < |s.calls| && s.calls[i].key == k && s.calls[i].generation == n.generation
      ensures s.calls[i].arrival != n.arrivals + 1
    {
      assert Has(s.calls, k, n.generation, s.calls[i].arrival);
    }
  }

  lemma StepKeepsInv(base: map<Key, Counter>, s: State, e: Event, parties: nat)
    requires Inv(base, s, parties) && Enabled(s, e)
    ensures Inv(base, Apply(s, e, parties), parties)
  {
    var r := Apply(s, e, parties);
    forall k, g | g >= CounterOf(base, k).generation
      ensures Numbered(r.calls, k, g, Arrived(CounterOf(r.keys, k), g, parties))
    {
      match e
      case Arrive(k0) => ArriveKeepsNumbers(base, s, k0, parties, k, g);
      case Wake(c) => NumberedMark(s.calls, c, Released, k, g, Arrived(CounterOf(s.keys, k), g, parties));
      case Expire(c) => NumberedMark(s.calls, c, TimedOut, k, g, Arrived(CounterOf(s.keys, k), g, parties));
      case Respond(c) => NumberedMark(s.calls, c, Responded, k, g, Arrived(CounterOf(s.keys, k), g, parties));
    }
    GenerationsStep(base, s, e, parties);
    if e.Arrive? {
      ArriveOnce(base, s, e.key, parties);
    }
  }

  lemma GenerationsStep(base: map<Key, Counter>, s: State, e: Event, parties: nat)
    requires Inv(base, s, parties) && Enabled(s, e)
    ensures var r := Apply(s, e, parties);
            && (forall k :: CounterOf(base, k).generation <= CounterOf(r.keys, k).generation)
            && (forall i :: 0 <= i < |r.calls| ==> r.calls[i].generation >= CounterOf(base, r.calls[i].key).generation)
            && (forall i :: 0 <= i < |r.calls| && r.calls[i].status in {Released, Responded} ==>
                  r.calls[i].generation < CounterOf(r.keys, r.calls[i].key).generation)
  {
    if e.Wake? {
      WokenIsPast(base, s, e.c, parties);
    }
  }

  lemma WokenIsPast(base: map<Key, Counter>, s: State, c: nat, parties: nat)
    requires Inv(base, s, parties) && c < |s.calls|
    ensures s.calls[c].generation <= CounterOf(s.keys, s.calls[c].key).generation
  {
    var call := s.calls[c];
    assert Numbered(s.calls, call.key, call.generation, Arrived(CounterOf(s.keys, call.key), call.generation, parties));
    assert Has(s.calls, call.key, call.generation, call.arrival);
  }

  lemma StartInv(keys: map<Key, Counter>, parties: nat)
    requires Quiet(keys)
    ensures Inv(keys, Start(keys), parties)
  {
  }

  lemma {:induction false} RunKeepsInv(base: map<Key, Counter>, s: State, es: seq<Event>, parties: nat)
    requires Inv(base, s, parties) && Runs(s, es, parties)
    ensures Inv(base, Exec(s, es, parties), parties)
    decreases |es|
  {
    if es != [] {
      StepKeepsInv(base, s, es[0], parties);
      RunKeepsInv(base, Apply(s, es[0], parties), es[1..], parties);
    }
  }

  /** In every run, a call that returned did so after its generation had exactly the arrivals 1 to
      `parties`, each once, whether or not some of those callers timed out. */
  lemma ReturnedAfterAll(keys: map<Key, Counter>, es: seq<Event>, parties: nat, c: nat)
    requires Quiet(keys) && Runs(Start(keys), es, parties)
    requires var s := Exec(Start(keys), es, parties); c < |s.calls| && s.calls[c].status in {Released, Responded}
    ensures var s := Exec(Start(keys), es, parties);
            Numbered(s.calls, s.calls[c].key, s.calls[c].generation, parties) && Once(s.calls)
  {
    var s := Exec(Start(keys), es, parties);
    StartInv(keys, parties);
    RunKeepsInv(keys, Start(keys), es, parties);
    var call := s.calls[c];
    assert Numbered(s.calls, call.key, call.generation, Arrived(CounterOf(s.keys, call.key), call.generation, parties));
  }

  /** A caller that timed out still counts: with two parties, the next one is released alone. */
  lemma TimedOutStillCounts(k: Key)
    ensures var es := [Arrive(k), Expire(0), Arrive(k)];
            && Runs(Start(map[]), es, 2)
            && var s := Exec(Start(map[]), es, 2);
               |s.calls| == 2 && s.calls[0].status == TimedOut && s.calls[1].status == Released
  {
    var es := [Arrive(k), Expire(0), Arrive(k)];
    var s0 := Start(map[]);
    var s1 := Apply(s0, Arrive(k), 2);
    var s2 := Apply(s1, Expire(0), 2);
    var s3 := Apply(s2, Arrive(k), 2);
    assert es[1..] == [Expire(0), Arrive(k)] && es[1..][1..] == [Arrive(k)] && es[1..][1..][1..] == [];
    assert Runs(s3, [], 2) && Exec(s3, [], 2) == s3;
    assert Runs(s2, [Arrive(k)], 2) && Exec(s2, [Arrive(k)], 2) == s3;
    assert Runs(s1, [Expire(0), Arrive(k)], 2) && Exec(s1, [Expire(0), Arrive(k)], 2) == s3;
  }

  // --------------------------------------------------------------------------------------
  // The log
  // --------------------------------------------------------------------------------------

  /** The arrival numbers of a key's rows of one kind, in the order of the log. */
  function Rows(log: seq<Row>, k: Key, kind: Kind): seq<nat> {
    if log == [] then []
    else
      var r := log[|log| - 1];
      Rows(log[..|log| - 1], k, kind) + (if r.key == k && r.kind == kind then [r.arrival] else [])
  }

  /** The arrival numbers of a key's calls, in the order of the calls. */
  function Arrivals(calls: seq<Call>, k: Key): seq<nat> {
    if calls == [] then []
    else
      var c := calls[|calls| - 1];
      Arrivals(calls[..|calls| - 1], k) + (if c.key == k then [c.arrival] else [])
  }

  predicate Left(c: Call, kind: Kind) {
    match kind
    case ArriveRow => true
    case ReleaseRow => c.status == Released || c.status == Responded
    case TimeoutRow => c.status == TimedOut
    case RespondRow => c.status == Responded
  }

  /** How many calls of a key have left a row of one kind. */
  function Count(calls: seq<Call>, k: Key, kind: Kind): nat {
    if calls == [] then 0
    else
      var c := calls[|calls| - 1];
      Count(calls[..|calls| - 1], k, kind) + (if c.key == k && Left(c, kind) then 1 else 0)
  }

  function RowGenerations(log: seq<Row>, k: Key): set<nat> {
    if log == [] then {}
    else
      var r := log[|log| - 1];
      RowGenerations(log[..|log| - 1], k) + (if r.key == k then {r.generation} else {})
  }

  function CallGenerations(calls: seq<Call>, k: Key): set<nat> {
    if calls == [] then {}
    else
      var c := calls[|calls| - 1];
      CallGenerations(calls[..|calls| - 1], k) + (if c.key == k then {c.generation} else {})
  }

  lemma RowsSnoc(log: seq<Row>, r: Row, k: Key, kind: Kind)
    ensures Rows(log + [r], k, kind) == Rows(log, k, kind) + (if r.key == k && r.kind == kind then [r.arrival] else [])
    ensures RowGenerations(log + [r], k) == RowGenerations(log, k) + (if r.key == k then {r.generation} else {})
  {
  }

  lemma CallsSnoc(calls: seq<Call>, c: Call, k: Key, kind: Kind)
    ensures Arrivals(calls + [c], k) == Arrivals(calls, k) + (if c.key == k then [c.arrival] else [])
    ensures Count(calls + [c], k, kind) == Count(calls, k, kind) + (if c.key == k && Left(c, kind) then 1 else 0)
    ensures CallGenerations(calls + [c], k) == CallGenerations(calls, k) + (if c.key == k then {c.generation} else {})
  {
  }

  lemma {:induction false} MarkCounts(calls: seq<Call>, c: nat, status: Status, k: Key, kind: Kind)
    requires c < |calls|
    ensures var calls' := calls[c := calls[c].(status := status)];
            && Arrivals(calls', k) == Arrivals(calls, k)
            && CallGenerations(calls', k) == CallGenerations(calls, k)
            && (calls[c].key == k ==> calls[c].generation in CallGenerations(calls, k))
            && Count(calls', k, kind) + (if calls[c].key == k && Left(calls[c], kind) then 1 else 0)
               == Count(calls, k, kind) + (if calls[c].key == k && Left(calls'[c], kind) then 1 else 0)
    decreases |calls|
  {
    var calls' := calls[c := calls[c].(status := status)];
    var init, init' := calls[..|calls| - 1], calls'[..|calls| - 1];
    if c < |init| {
      assert init' == init[c := init[c].(status := status)];
      MarkCounts(init, c, status, k, kind);
    } else {
      assert init' == init;
    }
  }

  /** The log agrees with the calls. */
  ghost predicate Logged(s: State, k: Key) {
    && Rows(s.log, k, ArriveRow) == Arrivals(s.calls, k)
    && RowGenerations(s.log, k) == CallGenerations(s.calls, k)
    && (forall kind :: |Rows(s.log, k, kind)| == Count(s.calls, k, kind))
  }

  predicate Follows(before: Status, after: Status, kind: Kind) {
    match kind
    case ReleaseRow => before == Waiting && after == Released
    case TimeoutRow => before == Waiting && after == TimedOut
    case RespondRow => before == Released && after == Responded
    case ArriveRow => false
  }

  lemma MarkLogged(s: State, c: nat, status: Status, kind: Kind, k: Key)
    requires Logged(s, k) && c < |s.calls| && Follows(s.calls[c].status, status, kind)
    ensures Logged(Mark(s, c, status, kind), k)
  {
    var r := Mark(s, c, status, kind);
    var row := RowFor(kind, s.calls[c]);
    forall kind' ensures |Rows(r.log, k, kind')| == Count(r.calls, k, kind') {
      RowsSnoc(s.log, row, k, kind');
      MarkCounts(s.calls, c, status, k, kind');
    }
    RowsSnoc(s.log, row, k, ArriveRow);
    MarkCounts(s.calls, c, status, k, ArriveRow);
  }

  /** A call that waits leaves one row at first, the one that completes a generation two. */
  lemma ArriveRows(s: State, call: Call, k: Key, kind: Kind)
    requires |Rows(s.log, k, kind)| == Count(s.calls, k, kind)
    requires Rows(s.log, k, ArriveRow) == Arrivals(s.calls, k) && RowGenerations(s.log, k) == CallGenerations(s.calls, k)
    requires call.status == Waiting || call.status == Released
    ensures var log := s.log + [RowFor(ArriveRow, call)] + (if call.status == Released then [RowFor(ReleaseRow, call)] else []);
            var calls := s.calls + [call];
            && |Rows(log, k, kind)| == Count(calls, k, kind)
            && Rows(log, k, ArriveRow) == Arrivals(calls, k) && RowGenerations(log, k) == CallGenerations(calls, k)
  {
    var first, second := RowFor(ArriveRow, call), RowFor(ReleaseRow, call);
    CallsSnoc(s.calls, call, k, kind);
    RowsSnoc(s.log, first, k, kind);
    RowsSnoc(s.log, first, k, ArriveRow);
    if call.status == Released {
      RowsSnoc(s.log + [first], second, k, kind);
      RowsSnoc(s.log + [first], second, k, ArriveRow);
    } else {
      assert s.log + [first] + [] == s.log + [first];
    }
  }

  lemma ArriveIs(s: State, k0: Key, parties: nat) returns (call: Call)
    ensures var r := Apply(s, Arrive(k0), parties);
            && (call.status == Waiting || call.status == Released)
            && r.calls == s.calls + [call]
            && r.log == s.log + [RowFor(ArriveRow, call)] + (if call.status == Released then [RowFor(ReleaseRow, call)] else [])
            && call.key == k0 && call.generation == CounterOf(s.keys, k0).generation
            && call.arrival == CounterOf(s.keys, k0).arrivals + 1
            && r.keys == s.keys[k0 := if call.arrival == parties then Counter(call.generation + 1, 0)
                                      else Counter(call.generation, call.arrival)]
  {
    var r := Apply(s, Arrive(k0), parties);
    call := r.calls[|s.calls|];
  }

  lemma ArriveLogged(s: State, k0: Key, parties: nat, k: Key)
    requires Logged(s, k)
    ensures Logged(Apply(s, Arrive(k0), parties), k)
  {
    var r := Apply(s, Arrive(k0), parties);
    var call := ArriveIs(s, k0, parties);
    forall kind ensures |Rows(r.log, k, kind)| == Count(r.calls, k, kind) {
      ArriveRows(s, call, k, kind);
    }
    ArriveRows(s, call, k, ArriveRow);
  }

  lemma StepLogged(s: State, e: Event, parties: nat, k: Key)
    requires Logged(s, k) && Enabled(s, e)
    ensures Logged(Apply(s, e, parties), k)
  {
    match e
    case Arrive(k0) => ArriveLogged(s, k0, parties, k);
    case Wake(c) => MarkLogged(s, c, Released, ReleaseRow, k);
    case Expire(c) => MarkLogged(s, c, TimedOut, TimeoutRow, k);
    case Respond(c) => MarkLogged(s, c, Responded, RespondRow, k);
  }

  // --------------------------------------------------------------------------------------
  // The first round of a key
  // --------------------------------------------------------------------------------------

  function UpTo(n: nat): seq<nat> {
    if n == 0 then [] else UpTo(n - 1) + [n]
  }

  /** While a key has had at most `parties` calls, these are numbered from 1 on, in order and in one
      generation. */
  ghost predicate FirstRound(base: map<Key, Counter>, s: State, parties: nat, k: Key) {
    var n := |Arrivals(s.calls, k)|;
    var g := CounterOf(base, k).generation;
    n <= parties ==>
      && Arrivals(s.calls, k) == UpTo(n)
      && CallGenerations(s.calls, k) == (if n == 0 then {} else {g})
      && CounterOf(s.keys, k) == if n == parties then Counter(g + 1, 0) else Counter(g, n)
  }

  lemma ArriveFirstRound(base: map<Key, Counter>, s: State, k0: Key, parties: nat, k: Key)
    requires FirstRound(base, s, parties, k)
    ensures FirstRound(base, Apply(s, Arrive(k0), parties), parties, k)
  {
    var call := ArriveIs(s, k0, parties);
    CallsSnoc(s.calls, call, k, ArriveRow);
    var n := |Arrivals(s.calls, k)|;
    if k0 == k && n < parties {
      assert UpTo(n + 1) == UpTo(n) + [n + 1];
    }
  }

  lemma StepFirstRound(base: map<Key, Counter>, s: State, e: Event, parties: nat, k: Key)
    requires FirstRound(base, s, parties, k) && Enabled(s, e)
    ensures FirstRound(base, Apply(s, e, parties), parties, k)
  {
    match e
    case Arrive(k0) => ArriveFirstRound(base, s, k0, parties, k);
    case Wake(c) => MarkCounts(s.calls, c, Released, k, ArriveRow);
    case Expire(c) => MarkCounts(s.calls, c, TimedOut, k, ArriveRow);
    case Respond(c) => MarkCounts(s.calls, c, Responded, k, ArriveRow);
  }

  lemma {:induction false} RunKeepsBooks(base: map<Key, Counter>, s: State, es: seq<Event>, parties: nat, k: Key)
    requires Logged(s, k) && FirstRound(base, s, parties, k) && Runs(s, es, parties)
    ensures Logged(Exec(s, es, parties), k) && FirstRound(base, Exec(s, es, parties), parties, k)
    decreases |es|
  {
    if es != [] {
      StepLogged(s, es[0], parties, k);
      StepFirstRound(base, s, es[0], parties, k);
      RunKeepsBooks(base, Apply(s, es[0], parties), es[1..], parties, k);
    }
  }

  // --------------------------------------------------------------------------------------
  // The evidence
  // --------------------------------------------------------------------------------------

  /** The check of the log for one key. */
  predicate Evidence(log: seq<Row>, k: Key) {
    && |RowGenerations(log, k)| == 1
    && |Rows(log, k, ArriveRow)| == 4
    && multiset(Rows(log, k, ArriveRow)) == multiset{1, 2, 3, 4}
    && |Rows(log, k, ReleaseRow)| == 4
    && |Rows(log, k, RespondRow)| == 4
    && Rows(log, k, TimeoutRow) == []
  }

  /** Every call of the key has returned to its client or timed out. */
  predicate Completed(calls: seq<Call>, k: Key) {
    forall i :: 0 <= i < |calls| && calls[i].key == k ==> calls[i].status in {Responded, TimedOut}
  }

  predicate NoneTimedOut(calls: seq<Call>, k: Key) {
    forall i :: 0 <= i < |calls| && calls[i].key == k ==> calls[i].status != TimedOut
  }

  lemma {:induction false} CompletedCounts(calls: seq<Call>, k: Key)
    requires Completed(calls, k)
    ensures Count(calls, k, ReleaseRow) == Count(calls, k, RespondRow)
    ensures Count(calls, k, RespondRow) + Count(calls, k, TimeoutRow) == |Arrivals(calls, k)|
    ensures Count(calls, k, TimeoutRow) == 0 <==> NoneTimedOut(calls, k)
    decreases |calls|
  {
    if calls != [] {
      var init, c := calls[..|calls| - 1], calls[|calls| - 1];
      forall i | 0 <= i < |init| ensures init[i] == calls[i] {}
      CompletedCounts(init, k);
      assert NoneTimedOut(calls, k) <==> NoneTimedOut(init, k) && (c.key == k ==> c.status != TimedOut) by {
        forall i | 0 <= i < |calls| ensures i < |init| || calls[i] == c {}
      }
    }
  }

  /** After a run with four calls of a key, all of them over, the check passes exactly if none timed
      out. */
  lemma EvidenceExactly(keys: map<Key, Counter>, es: seq<Event>, k: Key)
    requires Quiet(keys) && Runs(Start(keys), es, 4)
    requires var s := Exec(Start(keys), es, 4); |Arrivals(s.calls, k)| == 4 && Completed(s.calls, k)
    ensures var s := Exec(Start(keys), es, 4); Evidence(s.log, k) <==> NoneTimedOut(s.calls, k)
  {
    var s := Exec(Start(keys), es, 4);
    RunKeepsBooks(keys, Start(keys), es, 4, k);
    UpToFour();
    EvidenceOf(s, k, CounterOf(keys, k).generation);
  }

  lemma UpToFour()
    ensures UpTo(4) == [1, 2, 3, 4]
  {
  }

  lemma EvidenceOf(s: State, k: Key, g: nat)
    requires Logged(s, k) && Completed(s.calls, k)
    requires Arrivals(s.calls, k) == [1, 2, 3, 4] && CallGenerations(s.calls, k) == {g}
    ensures Evidence(s.log, k) <==> NoneTimedOut(s.calls, k)
  {
    CompletedCounts(s.calls, k);
    assert |Rows(s.log, k, ReleaseRow)| == Count(s.calls, k, ReleaseRow);
    assert |Rows(s.log, k, RespondRow)| == Count(s.calls, k, RespondRow);
    assert |Rows(s.log, k, TimeoutRow)| == Count(s.calls, k, TimeoutRow);
  }

  method BarrierEvidence(log: seq<Row>, k: Key) returns (ok: bool)
    ensures ok == Evidence(log, k)
  {
    var generations: set<nat> := {};
    var arrivals: seq<nat>, releases, responses, timeouts := [], 0, 0, 0;
    for i := 0 to |log|
      invariant generations == RowGenerations(log[..i], k)
      invariant arrivals == Rows(log[..i], k, ArriveRow)
      invariant releases == |Rows(log[..i], k, ReleaseRow)|
      invariant responses == |Rows(log[..i], k, RespondRow)|
      invariant timeouts == |Rows(log[..i], k, TimeoutRow)|
    {
      var row := log[i];
      assert log[..i + 1][..i] == log[..i];
      if row.key == k {
        generations := generations + {row.generation};
        match row.kind {
          case ArriveRow => arrivals := arrivals + [row.arrival];
          case ReleaseRow => releases := releases + 1;
          case RespondRow => responses := responses + 1;
          case TimeoutRow => timeouts := timeouts + 1;
        }
      }
    }
    assert log[..|log|] == log;
    ok := && |generations| == 1 && |arrivals| == 4 && multiset(arrivals) == multiset{1, 2, 3, 4}
          && releases == 4 && responses == 4 && timeouts == 0;
  }

  // --------------------------------------------------------------------------------------
  // The sections under the lock
  // --------------------------------------------------------------------------------------

  class ReusableKeyedBarrier {
    const parties: nat
    var state: map<Key, Counter>

    constructor (parties: nat)
      ensures this.parties == parties && state == map[]
    {
      this.parties, state := parties, map[];
    }

    /** `wait` up to its loop: the `Arrive` step of the model. */
    method Enter(k: Key) returns (call: Call)
      modifies this
      ensures var r := Apply(State(old(state), [], []), Arrive(k), parties);
              state == r.keys && r.calls == [call]
    {
      if k !in state {
        state := state[k := Counter(0, 0)];
      }
      var generation := state[k].generation;
      var arrival := state[k].arrivals + 1;
      state := state[k := Counter(generation, arrival)];
      if arrival == parties {
        state := state[k := Counter(generation + 1, 0)];
        return Call(k, generation, arrival, Released);
      }
      return Call(k, generation, arrival, Waiting);
    }

    /** One turn of the loop: the `Wake` or `Expire` step that is possible now. */
    method Check(call: Call, expired: bool) returns (status: Status)
      requires call.status == Waiting
      ensures var s := State(state, [call], []);
              && (status == Released ==> Enabled(s, Wake(0)) && Apply(s, Wake(0), parties).calls[0].status == status)
              && (status == TimedOut ==> Enabled(s, Expire(0)) && Apply(s, Expire(0), parties).calls[0].status == status)
              && (status == Waiting <==> !Enabled(s, Wake(0)) && !expired) && status != Responded
    {
      var generation := CounterOf(state, call.key).generation;
      if generation != call.generation {
        return Released;
      }
      return if expired then TimedOut else Waiting;
    }
  }
}
