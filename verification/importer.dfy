/** An active import as a state machine: callers of `Import`, the receiving loop, the goroutines that
    buffer and flush, and `Close`, in every interleaving. */
module Importer {

  type Item = nat

  /** What was handed to `persistItems` in one call, and whether that succeeded. */
  datatype Batch = Batch(items: seq<Item>, ok: bool)

  datatype Loop = Selecting | Closing | Ended

  /** `pending` are the unsent items of the `Import` that holds the mutex, `spawned` the items whose
      `buffer` goroutine waits for the mutex, `undone` the number of those goroutines that have released
      the mutex and not yet left the wait group, `accepted` all items of all accepted imports. */
  datatype State = State(
    importing: bool, pending: seq<Item>, spawned: multiset<Item>, buffer: seq<Item>, handed: seq<Batch>,
    errors: seq<seq<Item>>, waiting: nat, undone: nat, stopped: bool, closed: bool, cancelled: bool, loop: Loop,
    accepted: multiset<Item>)

  const INITIAL := State(false, [], multiset{}, [], [], [], 0, 0, false, false, false, Selecting, multiset{})

  datatype Event =
    | Import(items: seq<Item>)          // takes the mutex
    | Send                              // one item goes through the channel
    | Return                            // releases the mutex
    | Buffer(item: Item, ok: bool)      // a buffer goroutine; `ok` is the result of a flush, if any
    | Done                              // a buffer goroutine leaves the wait group after its unlock
    | Flush(ok: bool)                   // a flush goroutine started by the timer
    | Close(ok: bool)                   // called by a user
    | Cancel                            // the surrounding context is cancelled
    | LoopDone                          // the loop sees the cancellation and is about to call `Close`
    | LoopClose(ok: bool)               // that call
    | LoopEnd                           // the loop sees the closed channel

  /** Every mutex section but `Import` is one step, so the mutex is free unless an import runs. */
  predicate Enabled(s: State, e: Event) {
    match e
    case Import(_) => !s.importing && !s.stopped
    case Send => s.importing && s.pending != [] && s.loop == Selecting
    case Return => s.importing && s.pending == []
    case Buffer(item, _) => !s.importing && item in s.spawned
    case Done => s.undone > 0
    case Flush(_) => !s.importing
    case Close(_) => !s.importing
    case Cancel => true
    case LoopDone => s.loop == Selecting && s.cancelled
    case LoopClose(_) => s.loop == Closing && !s.importing
    case LoopEnd => s.loop == Selecting && s.closed
  }

  function FlushLocked(s: State, ok: bool): State {
    if s.buffer == [] then s
    else s.(handed := s.handed + [Batch(s.buffer, ok)],
            errors := if ok then s.errors else s.errors + [s.buffer],
            buffer := [])
  }

  function CloseLocked(s: State, ok: bool): State {
    FlushLocked(s, ok).(stopped := true, cancelled := true, closed := true)
  }

  function Apply(s: State, e: Event, size: nat): State
    requires Enabled(s, e)
    requires e.Done? ==> s.waiting > 0
  {
    match e
    case Import(items) =>
      s.(importing := true, pending := items, waiting := s.waiting + |items|, accepted := s.accepted + multiset(items))
    case Send => s.(pending := s.pending[1..], spawned := s.spawned + multiset{s.pending[0]})
    case Return => s.(importing := false)
    case Buffer(item, ok) =>
      var s' := s.(spawned := s.spawned - multiset{item}, buffer := s.buffer + [item], undone := s.undone + 1);
      if |s'.buffer| >= size then FlushLocked(s', ok) else s'
    case Done => s.(waiting := s.waiting - 1, undone := s.undone - 1)
    case Flush(ok) => FlushLocked(s, ok)
    case Close(ok) => if s.stopped then FlushLocked(s, ok) else CloseLocked(s, ok)
    case Cancel => s.(cancelled := true)
    case LoopDone => s.(loop := Closing)
    case LoopClose(ok) => (if s.stopped then FlushLocked(s, ok) else CloseLocked(s, ok)).(loop := Ended)
    case LoopEnd => s.(loop := Ended)
  }

  // --------------------------------------------------------------------------------------
  // The invariant
  // --------------------------------------------------------------------------------------

  function ItemsOf(handed: seq<Batch>): multiset<Item> {
    if handed == [] then multiset{} else ItemsOf(handed[..|handed| - 1]) + multiset(handed[|handed| - 1].items)
  }

  function FailedOf(handed: seq<Batch>): seq<seq<Item>> {
    if handed == [] then []
    else
      var last := handed[|handed| - 1];
      FailedOf(handed[..|handed| - 1]) + (if last.ok then [] else [last.items])
  }

  predicate Inv(s: State, size: nat) {
    // conservation
    && s.accepted == multiset(s.pending) + s.spawned + (multiset(s.buffer) + ItemsOf(s.handed))
    // the wait group counts the items not yet buffered and the goroutines not yet done
    && s.waiting == |s.pending| + |s.spawned| + s.undone
    // the buffer is below its bound
    && (|s.buffer| < size || s.buffer == [])
    // failures are recorded
    && s.errors == FailedOf(s.handed)
    // nobody sends on a closed channel
    && s.closed == s.stopped && (s.importing ==> !s.closed) && (!s.importing ==> s.pending == [])
    // the loop ends only after closing
    && (s.loop == Ended ==> s.closed) && (s.stopped ==> s.cancelled) && (s.loop == Closing ==> s.cancelled)
  }

  lemma FlushKeepsInv(s: State, ok: bool)
    ensures var s' := FlushLocked(s, ok);
            && s'.buffer == [] && s' == s.(buffer := [], handed := s'.handed, errors := s'.errors)
            && multiset(s'.buffer) + ItemsOf(s'.handed) == multiset(s.buffer) + ItemsOf(s.handed)
            && (s.errors == FailedOf(s.handed) ==> s'.errors == FailedOf(s'.handed))
  {
    var s' := FlushLocked(s, ok);
    if s.buffer != [] {
      assert s'.handed[..|s'.handed| - 1] == s.handed;
    }
  }

  lemma StepKeepsInv(s: State, e: Event, size: nat)
    requires Inv(s, size) && Enabled(s, e)
    ensures e.Done? ==> s.waiting > 0
    ensures Inv(Apply(s, e, size), size)
  {
    match e {
      case Import(items) => ImportKeepsInv(s, items, size);
      case Send => SendKeepsInv(s, size);
      case Buffer(item, ok) => BufferKeepsInv(s, item, ok, size);
      case Flush(ok) => FlushEventKeepsInv(s, ok, size);
      case Close(ok) => CloseKeepsInv(s, ok, size);
      case LoopClose(ok) => CloseKeepsInv(s, ok, size);
      case Return => QuietKeepsInv(s, e, size);
      case Done => QuietKeepsInv(s, e, size);
      case Cancel => QuietKeepsInv(s, e, size);
      case LoopDone => QuietKeepsInv(s, e, size);
      case LoopEnd => QuietKeepsInv(s, e, size);
    }
  }

  lemma QuietKeepsInv(s: State, e: Event, size: nat)
    requires Inv(s, size) && Enabled(s, e) && (e.Return? || e.Done? || e.Cancel? || e.LoopDone? || e.LoopEnd?)
    ensures e.Done? ==> s.waiting > 0
    ensures Inv(Apply(s, e, size), size)
  {
  }

  lemma FlushEventKeepsInv(s: State, ok: bool, size: nat)
    requires Inv(s, size)
    ensures Inv(FlushLocked(s, ok), size)
  {
  }

  lemma CloseKeepsInv(s: State, ok: bool, size: nat)
    requires Inv(s, size) && !s.importing
    ensures Inv(FlushLocked(s, ok), size) && Inv(CloseLocked(s, ok), size)
  {
    FlushKeepsInv(s, ok);
  }

  lemma ImportKeepsInv(s: State, items: seq<Item>, size: nat)
    requires Inv(s, size) && Enabled(s, Import(items))
    ensures Inv(Apply(s, Import(items), size), size)
  {
  }

  lemma SendKeepsInv(s: State, size: nat)
    requires Inv(s, size) && Enabled(s, Send)
    ensures Inv(Apply(s, Send, size), size)
  {
    assert s.pending == [s.pending[0]] + s.pending[1..];
  }

  lemma Moved(p: multiset<Item>, sp: multiset<Item>, b: multiset<Item>, h: multiset<Item>, x: Item)
    requires x in sp
    ensures p + sp + (b + h) == p + (sp - multiset{x}) + ((b + multiset{x}) + h)
    ensures |sp| == |sp - multiset{x}| + 1
  {
  }

  /** What the buffering goroutine leaves before it flushes, if it does. */
  function Buffered(s: State, item: Item): State {
    s.(spawned := s.spawned - multiset{item}, buffer := s.buffer + [item], undone := s.undone + 1)
  }

  lemma BufferedBooks(s: State, item: Item, size: nat)
    requires Inv(s, size) && item in s.spawned
    ensures var s' := Buffered(s, item);
            && s'.accepted == multiset(s'.pending) + s'.spawned + (multiset(s'.buffer) + ItemsOf(s'.handed))
            && s'.waiting == |s'.pending| + |s'.spawned| + s'.undone
  {
    Moved(multiset(s.pending), s.spawned, multiset(s.buffer), ItemsOf(s.handed), item);
    assert multiset(s.buffer + [item]) == multiset(s.buffer) + multiset{item};
  }

  lemma BufferKeepsInv(s: State, item: Item, ok: bool, size: nat)
    requires Inv(s, size) && Enabled(s, Buffer(item, ok))
    ensures Inv(Apply(s, Buffer(item, ok), size), size)
  {
    BufferedBooks(s, item, size);
    FlushKeepsInv(Buffered(s, item), ok);
  }

  // --------------------------------------------------------------------------------------
  // Runs
  // --------------------------------------------------------------------------------------

  /** Every step of the run is enabled. */
  predicate Runs(s: State, es: seq<Event>, size: nat)
    requires Inv(s, size)
    decreases |es|
  {
    es == [] || (Enabled(s, es[0]) && (StepKeepsInv(s, es[0], size); Runs(Apply(s, es[0], size), es[1..], size)))
  }

  function Exec(s: State, es: seq<Event>, size: nat): (r: State)
    requires Inv(s, size) && Runs(s, es, size)
    ensures Inv(r, size)
    decreases |es|
  {
    if es == [] then s
    else
      StepKeepsInv(s, es[0], size);
      Exec(Apply(s, es[0], size), es[1..], size)
  }

  /** In every run from the start, every accepted item is unsent, spawned, buffered or handed over,
      as often as it was accepted; failures are recorded; and a send finds the channel open. */
  lemma Conserved(es: seq<Event>, size: nat)
    requires Runs(INITIAL, es, size)
    ensures var s := Exec(INITIAL, es, size);
            && s.accepted == multiset(s.pending) + s.spawned + (multiset(s.buffer) + ItemsOf(s.handed))
            && s.errors == FailedOf(s.handed)
            && (|s.buffer| < size || s.buffer == [])
            && (Enabled(s, Send) ==> !s.closed)
  {
  }

  // --------------------------------------------------------------------------------------
  // Drain, then close
  // --------------------------------------------------------------------------------------

  predicate NoImports(es: seq<Event>) {
    forall k :: 0 <= k < |es| ==> !es[k].Import?
  }

  predicate Closes(e: Event) {
    e.Close? || e.LoopClose?
  }

  lemma {:induction false} StaysDrained(s: State, es: seq<Event>, size: nat)
    requires Inv(s, size) && Runs(s, es, size) && NoImports(es) && s.waiting == 0
    ensures var r := Exec(s, es, size);
            r.waiting == 0 && r.accepted == s.accepted && (s.buffer == [] ==> r.buffer == [])
    decreases |es|
  {
    if es != [] {
      StepKeepsInv(s, es[0], size);
      DrainedStep(s, es[0], size);
      forall k | 0 <= k < |es[1..]| ensures !es[1..][k].Import? { assert es[1..][k] == es[k + 1]; }
      StaysDrained(Apply(s, es[0], size), es[1..], size);
    }
  }

  lemma DrainedStep(s: State, e: Event, size: nat)
    requires Inv(s, size) && Enabled(s, e) && !e.Import? && s.waiting == 0
    requires e.Done? ==> s.waiting > 0
    ensures var r := Apply(s, e, size);
            && r.waiting == 0 && r.accepted == s.accepted && (s.buffer == [] ==> r.buffer == [])
            && (Closes(e) ==> r.buffer == [])
  {
  }

  /** Once `Drain` has returned and no `Import` follows, closing hands over every item exactly once. */
  lemma {:induction false} DrainThenClose(s: State, es: seq<Event>, size: nat)
    requires Inv(s, size) && Runs(s, es, size) && NoImports(es) && s.waiting == 0
    requires exists k :: 0 <= k < |es| && Closes(es[k])
    ensures ItemsOf(Exec(s, es, size).handed) == s.accepted
    decreases |es|
  {
    StepKeepsInv(s, es[0], size);
    DrainedStep(s, es[0], size);
    var s', rest := Apply(s, es[0], size), es[1..];
    forall k | 0 <= k < |rest| ensures !rest[k].Import? { assert rest[k] == es[k + 1]; }
    if Closes(es[0]) {
      StaysDrained(s', rest, size);
      HandedOver(Exec(s', rest, size), size);
    } else {
      var k :| 0 <= k < |es| && Closes(es[k]);
      assert rest[k - 1] == es[k];
      DrainThenClose(s', rest, size);
    }
  }

  lemma HandedOver(s: State, size: nat)
    requires Inv(s, size) && s.waiting == 0 && s.buffer == []
    ensures ItemsOf(s.handed) == s.accepted
  {
  }

  /** Closing hands over everything exactly if no item is unsent or waits for its goroutine. The wait
      group at zero, which `Drain` waits for, is enough. */
  lemma CloseHandsOverExactly(s: State, ok: bool, size: nat)
    requires Inv(s, size) && Enabled(s, Close(ok))
    ensures ItemsOf(Apply(s, Close(ok), size).handed) == s.accepted <==> s.pending == [] && s.spawned == multiset{}
    ensures s.waiting == 0 ==> s.pending == [] && s.spawned == multiset{}
  {
    var r := Apply(s, Close(ok), size);
    StepKeepsInv(s, Close(ok), size);
    FlushKeepsInv(s, ok);
    if s.spawned != multiset{} {
      var x :| x in r.spawned;
      assert r.accepted[x] == r.spawned[x] + ItemsOf(r.handed)[x];
    }
  }

  /** The state after an import of one item, whose goroutine has not run yet. */
  function Imported(item: Item): State {
    INITIAL.(spawned := multiset{item}, waiting := 1, accepted := multiset{item})
  }

  lemma ImportedIsReached(item: Item, size: nat)
    ensures Inv(INITIAL, size) && Runs(INITIAL, [Import([item]), Send, Return], size)
    ensures Exec(INITIAL, [Import([item]), Send, Return], size) == Imported(item)
  {
    var es := [Import([item]), Send, Return];
    var s1 := Step(INITIAL, es, 0, size);
    var s2 := Step(s1, es, 1, size);
    assert s2.pending == [] && s2.spawned == multiset{item};
    var s3 := Step(s2, es, 2, size);
    assert es[3..] == [] && es[0..] == es;
    Unroll(s2, es, 2, size);
    Unroll(s1, es, 1, size);
    Unroll(INITIAL, es, 0, size);
  }

  /** If the import is closed then, the item ends up in the buffer of a stopped import. */
  lemma CloseWithoutDrainLeaves(item: Item, size: nat)
    requires size > 1
    ensures Inv(Imported(item), size) && Runs(Imported(item), [Close(true), Buffer(item, true), Done], size)
    ensures var s := Exec(Imported(item), [Close(true), Buffer(item, true), Done], size);
            s.stopped && s.waiting == 0 && s.buffer == [item] && s.handed == []
  {
    ImportedIsReached(item, size);
    var es := [Close(true), Buffer(item, true), Done];
    var s1 := Step(Imported(item), es, 0, size);
    var s2 := Step(s1, es, 1, size);
    assert s2.buffer == [item];
    var s3 := Step(s2, es, 2, size);
    assert es[3..] == [] && es[0..] == es;
    Unroll(s2, es, 2, size);
    Unroll(s1, es, 1, size);
    Unroll(Imported(item), es, 0, size);
  }

  /** The wait group is not needed at zero: between the unlock and `Done` a `Close` hands over
      everything while one goroutine is still counted. */
  lemma CloseBeforeDone(item: Item, size: nat)
    requires size > 1
    ensures Inv(Imported(item), size) && Runs(Imported(item), [Buffer(item, true), Close(true)], size)
    ensures var s := Exec(Imported(item), [Buffer(item, true), Close(true)], size);
            s.waiting == 1 && s.handed == [Batch([item], true)] && ItemsOf(s.handed) == s.accepted
  {
    ImportedIsReached(item, size);
    var es := [Buffer(item, true), Close(true)];
    var s1 := Step(Imported(item), es, 0, size);
    assert s1.buffer == [item];
    var s2 := Step(s1, es, 1, size);
    assert s2.handed == [Batch([item], true)] && s2.handed[..0] == [];
    assert es[2..] == [] && es[0..] == es;
    Unroll(s1, es, 1, size);
    Unroll(Imported(item), es, 0, size);
  }

  /** The state after event `k` of a list. */
  lemma Step(s: State, es: seq<Event>, k: nat, size: nat) returns (r: State)
    requires k < |es| && Inv(s, size) && Enabled(s, es[k])
    ensures es[k].Done? ==> s.waiting > 0
    ensures r == Apply(s, es[k], size) && Inv(r, size)
  {
    StepKeepsInv(s, es[k], size);
    r := Apply(s, es[k], size);
  }

  lemma Unroll(s: State, es: seq<Event>, k: nat, size: nat)
    requires k < |es| && Inv(s, size) && Enabled(s, es[k])
    requires es[k].Done? ==> s.waiting > 0
    requires Inv(Apply(s, es[k], size), size) && Runs(Apply(s, es[k], size), es[k + 1..], size)
    ensures Runs(s, es[k..], size)
    ensures Exec(s, es[k..], size) == Exec(Apply(s, es[k], size), es[k + 1..], size)
  {
    assert es[k..][0] == es[k] && es[k..][1..] == es[k + 1..];
  }

  // --------------------------------------------------------------------------------------
  // An import can hang
  // --------------------------------------------------------------------------------------

  /** The loop waits in `Close` for the mutex that the import holds, and the import for the loop. */
  predicate Deadlocked(s: State) {
    s.importing && s.pending != [] && s.loop == Closing
  }

  lemma {:induction false} HangsForever(s: State, es: seq<Event>, size: nat)
    requires Inv(s, size) && Runs(s, es, size) && Deadlocked(s)
    ensures var r := Exec(s, es, size); r.importing && r.pending == s.pending && r.loop == Closing
    decreases |es|
  {
    if es != [] {
      StepKeepsInv(s, es[0], size);
      HangsForever(Apply(s, es[0], size), es[1..], size);
    }
  }

  /** The steps that finish an import while the loop is receiving. */
  function Finishing(n: nat): seq<Event> {
    if n == 0 then [Return] else [Send] + Finishing(n - 1)
  }

  lemma {:induction false} ImportFinishes(s: State, size: nat)
    requires Inv(s, size) && s.importing && (s.pending == [] || s.loop == Selecting)
    ensures Runs(s, Finishing(|s.pending|), size)
    ensures !Exec(s, Finishing(|s.pending|), size).importing
    decreases |s.pending|
  {
    var es := Finishing(|s.pending|);
    if s.pending == [] {
      assert es == [Return] && es[1..] == [];
    } else {
      StepKeepsInv(s, Send, size);
      assert es[0] == Send && es[1..] == Finishing(|s.pending| - 1);
      ImportFinishes(Apply(s, Send, size), size);
    }
  }

  ghost predicate CanReturn(s: State, size: nat)
    requires Inv(s, size)
  {
    exists es :: Runs(s, es, size) && !Exec(s, es, size).importing
  }

  /** A running import can still return exactly if the loop has not left its `select` before the last
      item was sent. */
  lemma CanReturnExactly(s: State, size: nat)
    requires Inv(s, size) && s.importing
    ensures CanReturn(s, size) <==> !Deadlocked(s)
  {
    if Deadlocked(s) {
      forall es | Runs(s, es, size) ensures Exec(s, es, size).importing {
        HangsForever(s, es, size);
      }
    } else {
      ImportFinishes(s, size);
    }
  }

  /** Cancelling the context during an import can bring that about. */
  lemma DeadlockIsReachable(item: Item, size: nat)
    ensures Inv(INITIAL, size) && Runs(INITIAL, [Import([item]), Cancel, LoopDone], size)
    ensures Deadlocked(Exec(INITIAL, [Import([item]), Cancel, LoopDone], size))
  {
    var es := [Import([item]), Cancel, LoopDone];
    StepKeepsInv(INITIAL, es[0], size);
    var s1 := Apply(INITIAL, es[0], size);
    StepKeepsInv(s1, Cancel, size);
    var s2 := Apply(s1, Cancel, size);
    StepKeepsInv(s2, LoopDone, size);
    var s3 := Apply(s2, LoopDone, size);
    assert es[1..] == [Cancel, LoopDone] && es[1..][1..] == [LoopDone] && es[1..][1..][1..] == [];
    assert Runs(s3, [], size) && Exec(s3, [], size) == s3;
    assert Runs(s2, [LoopDone], size) && Exec(s2, [LoopDone], size) == s3;
    assert Runs(s1, [Cancel, LoopDone], size) && Exec(s1, [Cancel, LoopDone], size) == s3;
  }

  // --------------------------------------------------------------------------------------
  // The critical sections
  // --------------------------------------------------------------------------------------

  lemma BufferLocally(s: State, item: Item, ok: bool, size: nat)
    requires Enabled(s, Buffer(item, ok))
    ensures var r := Apply(s, Buffer(item, ok), size); var full := |s.buffer| + 1 >= size;
            && r.buffer == (if full then [] else s.buffer + [item])
            && r.errors == (if full && !ok then s.errors + [s.buffer + [item]] else s.errors)
            && r.stopped == s.stopped && r.waiting == s.waiting
  {
  }

  class ActiveImport {
    const bufferSize: nat
    var itemBuffer: seq<Item>
    var errors: seq<seq<Item>>
    var stopped: bool
    var wg: nat
    ghost var model: State

    ghost predicate Valid()
      reads this
    {
      && Inv(model, bufferSize)
      && model.buffer == itemBuffer && model.errors == errors && model.stopped == stopped && model.waiting == wg
    }

    constructor (bufferSize: nat)
      ensures Valid() && model == INITIAL && this.bufferSize == bufferSize
    {
      this.bufferSize, itemBuffer, errors, stopped, wg, model := bufferSize, [], [], false, 0, INITIAL;
    }

    /** `persist` is the call that hands the items over. */
    method FlushBuffer(persist: seq<Item> -> bool) returns (ghost ok: bool)
      modifies this`itemBuffer, this`errors
      ensures itemBuffer == []
      ensures errors == if old(itemBuffer) == [] || persist(old(itemBuffer)) then old(errors)
                        else old(errors) + [old(itemBuffer)]
      ensures ok == persist(old(itemBuffer))
    {
      ok := persist(itemBuffer);
      if itemBuffer == [] {
        return;
      }
      if !persist(itemBuffer) {
        errors := errors + [itemBuffer];
      }
      itemBuffer := [];
    }

    method AddItem(item: Item, persist: seq<Item> -> bool) returns (ghost ok: bool)
      modifies this`itemBuffer, this`errors
      ensures ok == persist(old(itemBuffer) + [item])
      ensures itemBuffer == if |old(itemBuffer)| + 1 >= bufferSize then [] else old(itemBuffer) + [item]
      ensures errors == if |old(itemBuffer)| + 1 >= bufferSize && !ok
                        then old(errors) + [old(itemBuffer) + [item]] else old(errors)
    {
      itemBuffer := itemBuffer + [item];
      ok := persist(itemBuffer);
      if |itemBuffer| >= bufferSize {
        ghost var flushed := FlushBuffer(persist);
      }
    }

    method BufferItem(item: Item, persist: seq<Item> -> bool) returns (ghost ok: bool)
      requires Valid() && !model.importing && item in model.spawned
      modifies this
      ensures Valid() && model == Apply(old(model), Buffer(item, ok), bufferSize)
    {
      ghost var before := model;
      ok := AddItem(item, persist);
      StepKeepsInv(before, Buffer(item, ok), bufferSize);
      BufferLocally(before, item, ok, bufferSize);
      model := Apply(before, Buffer(item, ok), bufferSize);
    }

    /** The deferred call that runs once the mutex is released. */
    method LeaveWaitGroup()
      requires Valid() && model.undone > 0
      modifies this
      ensures Valid() && old(model).waiting > 0 && model == Apply(old(model), Done, bufferSize)
    {
      StepKeepsInv(model, Done, bufferSize);
      wg := wg - 1;
      model := Apply(model, Done, bufferSize);
    }

    method FlushNow(persist: seq<Item> -> bool) returns (ghost ok: bool)
      requires Valid() && !model.importing
      modifies this
      ensures Valid() && model == Apply(old(model), Flush(ok), bufferSize)
    {
      ghost var before := model;
      ok := FlushBuffer(persist);
      FlushEventKeepsInv(before, ok, bufferSize);
      model := Apply(before, Flush(ok), bufferSize);
    }

    method CloseImport(persist: seq<Item> -> bool) returns (failures: seq<seq<Item>>, ghost ok: bool)
      requires Valid() && !model.importing
      modifies this
      ensures Valid() && stopped && model == Apply(old(model), Close(ok), bufferSize)
      ensures failures == FailedOf(model.handed)
    {
      ghost var before := model;
      ok := FlushBuffer(persist);
      if !stopped {
        stopped := true;
      }
      CloseKeepsInv(before, ok, bufferSize);
      model := Apply(before, Close(ok), bufferSize);
      failures := errors;
    }
  }
}
