/** Processing a batch of torrents: the per-torrent workers run in any order and add their results to
    shared accumulators under a mutex. */
module Processor {

  type Hash = string

  /** A stored torrent with the ids of its content rows. */
  datatype Torrent = Torrent(hash: Hash, contentIds: seq<string>)

  /** What the classifier says; `id` is the id inferred for the new content row. */
  datatype Outcome = Classified(id: string, tags: set<string>) | Delete | Fail

  type Classifier = Torrent -> Outcome

  // --------------------------------------------------------------------------------------
  // Finding the torrents
  // --------------------------------------------------------------------------------------

  /** Different rows have different keys. */
  predicate DistinctHashes(ts: seq<Torrent>) {
    forall i, j :: 0 <= i < j < |ts| ==> ts[i].hash != ts[j].hash
  }

  predicate Has(ts: seq<Torrent>, h: Hash) {
    exists k :: 0 <= k < |ts| && ts[k].hash == h
  }

  /** The requested hashes that have no torrent, with their repetitions. */
  function MissingOf(request: seq<Hash>, items: seq<Torrent>): seq<Hash> {
    if request == [] then []
    else
      var h := request[|request| - 1];
      MissingOf(request[..|request| - 1], items) + (if Has(items, h) then [] else [h])
  }

  method TorrentsWithMissingInfoHashes(request: seq<Hash>, items: seq<Torrent>)
    returns (torrents: seq<Torrent>, missing: seq<Hash>)
    requires DistinctHashes(items)
    ensures DistinctHashes(torrents)
    ensures forall t :: t in torrents <==> t in items && t.hash in request
    ensures missing == MissingOf(request, items)
  {
    torrents, missing := [], [];
    var found: set<Hash> := {};
    for n := 0 to |request|
      invariant FoundSoFar(items, request[..n], torrents, found)
      invariant missing == MissingOf(request[..n], items)
    {
      var h := request[n];
      assert request[..n + 1] == request[..n] + [h] && request[..n + 1][..n] == request[..n];
      var at := Position(items, h);
      if at == |items| {
        NotThere(items, request[..n], torrents, found, h);
        missing := missing + [h];
      } else if h !in found {
        FoundNow(items, request[..n], torrents, found, at);
        found := found + {h};
        torrents := torrents + [items[at]];
      } else {
        FoundBefore(items, request[..n], torrents, found, at);
      }
    }
    assert request[..|request|] == request;
  }

  /** `torrents` are those of the requests so far, each once, and `found` their hashes. */
  ghost predicate FoundSoFar(items: seq<Torrent>, part: seq<Hash>, torrents: seq<Torrent>, found: set<Hash>) {
    && DistinctHashes(torrents)
    && (forall t :: t in torrents <==> t in items && t.hash in part)
    && (forall h :: h in found <==> Has(torrents, h))
  }

  lemma NotThere(items: seq<Torrent>, part: seq<Hash>, torrents: seq<Torrent>, found: set<Hash>, h: Hash)
    requires FoundSoFar(items, part, torrents, found) && !Has(items, h)
    ensures FoundSoFar(items, part + [h], torrents, found)
  {
    forall t | t in items ensures t.hash != h {
      var k :| 0 <= k < |items| && items[k] == t;
    }
  }

  lemma FoundNow(items: seq<Torrent>, part: seq<Hash>, torrents: seq<Torrent>, found: set<Hash>, at: nat)
    requires FoundSoFar(items, part, torrents, found) && DistinctHashes(items)
    requires at < |items| && items[at].hash !in found
    ensures FoundSoFar(items, part + [items[at].hash], torrents + [items[at]], found + {items[at].hash})
  {
    var t, r := items[at], torrents + [items[at]];
    OnlyAt(items, at);
    forall h ensures Has(r, h) <==> Has(torrents, h) || h == t.hash {
      HasSnoc(torrents, t, h);
    }
    forall i, j | 0 <= i < j < |r| ensures r[i].hash != r[j].hash {
      if j == |torrents| {
        assert Has(torrents, torrents[i].hash);
      }
    }
  }

  lemma HasSnoc(ts: seq<Torrent>, t: Torrent, h: Hash)
    ensures Has(ts + [t], h) <==> Has(ts, h) || h == t.hash
  {
    var r := ts + [t];
    if Has(ts, h) {
      var k :| 0 <= k < |ts| && ts[k].hash == h;
      assert r[k].hash == h;
    }
    assert r[|ts|] == t;
    if k :| 0 <= k < |r| && r[k].hash == h {
      assert k < |ts| ==> ts[k].hash == h;
    }
  }

  lemma FoundBefore(items: seq<Torrent>, part: seq<Hash>, torrents: seq<Torrent>, found: set<Hash>, at: nat)
    requires FoundSoFar(items, part, torrents, found) && DistinctHashes(items)
    requires at < |items| && items[at].hash in found
    ensures FoundSoFar(items, part + [items[at].hash], torrents, found)
  {
    OnlyAt(items, at);
    var k :| 0 <= k < |torrents| && torrents[k].hash == items[at].hash;
    assert torrents[k] in torrents;
  }

  lemma OnlyAt(items: seq<Torrent>, at: nat)
    requires DistinctHashes(items) && at < |items|
    ensures forall t :: t in items && t.hash == items[at].hash ==> t == items[at]
  {
  }

  /** The inner search loop. */
  method Position(items: seq<Torrent>, h: Hash) returns (at: nat)
    ensures at <= |items| && (at < |items| ==> items[at].hash == h)
    ensures at < |items| <==> Has(items, h)
  {
    at := 0;
    while at < |items|
      invariant at <= |items| && forall k :: 0 <= k < at ==> items[k].hash != h
    {
      if items[at].hash == h {
        return;
      }
      at := at + 1;
    }
  }

  // --------------------------------------------------------------------------------------
  // The workers
  // --------------------------------------------------------------------------------------

  datatype Fate = IsClassified | IsDeleted | IsFailed

  function FateOf(classify: Classifier, t: Torrent): Fate {
    match classify(t)
    case Classified(_, _) => IsClassified
    case Delete => IsDeleted
    case Fail => IsFailed
  }

  /** The hashes of the torrents with one fate, in the order of the workers. */
  function HashesOf(classify: Classifier, fate: Fate, order: seq<Torrent>): seq<Hash> {
    if order == [] then []
    else
      var t := order[|order| - 1];
      HashesOf(classify, fate, order[..|order| - 1]) + (if FateOf(classify, t) == fate then [t.hash] else [])
  }

  /** The old content rows of a classified torrent, without the one that is written again. */
  predicate IsStale(classify: Classifier, t: Torrent, id: string) {
    classify(t).Classified? && id in t.contentIds && id != classify(t).id
  }

  predicate SomeStale(classify: Classifier, ts: seq<Torrent>, id: string) {
    exists k :: 0 <= k < |ts| && IsStale(classify, ts[k], id)
  }

  predicate Tagged(classify: Classifier, t: Torrent) {
    classify(t).Classified? && classify(t).tags != {}
  }

  /** The tags recorded are those of the classified torrents. */
  ghost predicate TagsAre(classify: Classifier, ts: seq<Torrent>, tags: map<Hash, set<string>>) {
    && (forall t :: t in ts && Tagged(classify, t) ==> t.hash in tags && tags[t.hash] == classify(t).tags)
    && (forall h :: h in tags ==> exists t :: t in ts && Tagged(classify, t) && t.hash == h)
  }

  class Accumulators {
    var classified: seq<Hash>
    var toDelete: seq<Hash>
    var failed: seq<Hash>
    var staleIds: seq<string>
    var tags: map<Hash, set<string>>

    constructor (missing: seq<Hash>)
      ensures classified == [] && toDelete == [] && failed == missing && staleIds == [] && tags == map[]
    {
      classified, toDelete, failed, staleIds, tags := [], [], missing, [], map[];
    }

    /** What a worker does while it holds the mutex. */
    method Record(classify: Classifier, t: Torrent)
      modifies this
      ensures classified == old(classified) + (if FateOf(classify, t) == IsClassified then [t.hash] else [])
      ensures toDelete == old(toDelete) + (if FateOf(classify, t) == IsDeleted then [t.hash] else [])
      ensures failed == old(failed) + (if FateOf(classify, t) == IsFailed then [t.hash] else [])
      ensures forall id :: id in staleIds <==> id in old(staleIds) || IsStale(classify, t, id)
      ensures tags == if Tagged(classify, t) then old(tags)[t.hash := classify(t).tags] else old(tags)
    {
      match classify(t) {
        case Delete => toDelete := toDelete + [t.hash];
        case Fail => failed := failed + [t.hash];
        case Classified(id, newTags) =>
          var deleteIds := set x | x in t.contentIds;
          AddStale(deleteIds, id);
          classified := classified + [t.hash];
          if newTags != {} {
            tags := tags[t.hash := newTags];
          }
      }
    }

    /** The loop over the old ids, which come in any order. */
    method AddStale(ids: set<string>, keep: string)
      modifies this`staleIds
      ensures forall id :: id in staleIds <==> id in old(staleIds) || (id in ids && id != keep)
    {
      var todo := ids;
      while todo != {}
        invariant todo <= ids
        invariant forall id :: id in staleIds <==> id in old(staleIds) || (id in ids - todo && id != keep)
        decreases |todo|
      {
        var id :| id in todo;
        if id != keep {
          staleIds := staleIds + [id];
        }
        todo := todo - {id};
      }
    }

    /** The accumulators after the workers of `order`, one after another. */
    ghost predicate Holds(classify: Classifier, missing: seq<Hash>, order: seq<Torrent>)
      reads this
    {
      && classified == HashesOf(classify, IsClassified, order)
      && toDelete == HashesOf(classify, IsDeleted, order)
      && failed == missing + HashesOf(classify, IsFailed, order)
      && (forall id :: id in staleIds <==> SomeStale(classify, order, id))
      && TagsAre(classify, order, tags)
    }

    method RecordNext(classify: Classifier, ghost missing: seq<Hash>, ghost order: seq<Torrent>, t: Torrent)
      requires Holds(classify, missing, order)
      requires forall u :: u in order && u.hash == t.hash ==> u == t
      modifies this
      ensures Holds(classify, missing, order + [t])
    {
      OneMore(classify, order, t, tags);
      Record(classify, t);
    }

    /** All workers, in whatever order they get the mutex; `order` is that order. */
    method RunWorkers(classify: Classifier, torrents: seq<Torrent>) returns (ghost order: seq<Torrent>)
      requires DistinctHashes(torrents) && classified == toDelete == [] && staleIds == [] && tags == map[]
      modifies this
      ensures multiset(order) == multiset(torrents)
      ensures Holds(classify, old(failed), order)
    {
      var waiting := multiset(torrents);
      order := [];
      while waiting != multiset{}
        invariant multiset(order) + waiting == multiset(torrents)
        invariant Holds(classify, old(failed), order)
        decreases |waiting|
      {
        var t :| t in waiting;
        SameHashSameTorrent(torrents, order, waiting, t);
        RecordNext(classify, old(failed), order, t);
        waiting := waiting - multiset{t};
        order := order + [t];
      }
    }
  }

  lemma SameHashSameTorrent(torrents: seq<Torrent>, order: seq<Torrent>, waiting: multiset<Torrent>, t: Torrent)
    requires DistinctHashes(torrents) && multiset(order) + waiting == multiset(torrents) && t in waiting
    ensures forall u :: u in order && u.hash == t.hash ==> u == t
  {
    assert t in multiset(torrents);
    forall u | u in order && u.hash == t.hash ensures u == t {
      assert u in multiset(order);
      assert u in multiset(torrents);
      var i :| 0 <= i < |torrents| && torrents[i] == u;
      var j :| 0 <= j < |torrents| && torrents[j] == t;
    }
  }

  lemma OneMore(classify: Classifier, order: seq<Torrent>, t: Torrent, tags: map<Hash, set<string>>)
    requires TagsAre(classify, order, tags)
    requires forall u :: u in order && u.hash == t.hash ==> u == t
    ensures TagsAre(classify, order + [t], if Tagged(classify, t) then tags[t.hash := classify(t).tags] else tags)
    ensures forall fate :: HashesOf(classify, fate, order + [t])
                           == HashesOf(classify, fate, order) + (if FateOf(classify, t) == fate then [t.hash] else [])
    ensures forall id :: SomeStale(classify, order + [t], id) <==> SomeStale(classify, order, id) || IsStale(classify, t, id)
  {
    TagsSnoc(classify, order, t, tags);
    assert (order + [t])[..|order|] == order;
    forall id ensures SomeStale(classify, order + [t], id) <==> SomeStale(classify, order, id) || IsStale(classify, t, id) {
      StaleSnoc(classify, order, t, id);
    }
  }

  lemma StaleSnoc(classify: Classifier, order: seq<Torrent>, t: Torrent, id: string)
    ensures SomeStale(classify, order + [t], id) <==> SomeStale(classify, order, id) || IsStale(classify, t, id)
  {
    var order' := order + [t];
    if SomeStale(classify, order, id) {
      var k :| 0 <= k < |order| && IsStale(classify, order[k], id);
      assert order'[k] == order[k];
    }
    assert order'[|order|] == t;
  }

  lemma TagsSnoc(classify: Classifier, order: seq<Torrent>, t: Torrent, tags: map<Hash, set<string>>)
    requires TagsAre(classify, order, tags)
    requires forall u :: u in order && u.hash == t.hash ==> u == t
    ensures TagsAre(classify, order + [t], if Tagged(classify, t) then tags[t.hash := classify(t).tags] else tags)
  {
  }

  // --------------------------------------------------------------------------------------
  // Every hash has one fate
  // --------------------------------------------------------------------------------------

  ghost predicate FateIs(classify: Classifier, ts: seq<Torrent>, h: Hash, fate: Fate) {
    exists k :: 0 <= k < |ts| && ts[k].hash == h && FateOf(classify, ts[k]) == fate
  }

  lemma {:induction false} HashesOfExactly(classify: Classifier, fate: Fate, order: seq<Torrent>, h: Hash)
    ensures h in HashesOf(classify, fate, order) <==> FateIs(classify, order, h, fate)
    decreases |order|
  {
    if order != [] {
      var init, t := order[..|order| - 1], order[|order| - 1];
      HashesOfExactly(classify, fate, init, h);
      if FateIs(classify, init, h, fate) {
        var k :| 0 <= k < |init| && init[k].hash == h && FateOf(classify, init[k]) == fate;
        assert order[k] == init[k];
      }
      if FateIs(classify, order, h, fate) {
        var k :| 0 <= k < |order| && order[k].hash == h && FateOf(classify, order[k]) == fate;
        if k < |init| { assert init[k] == order[k]; }
      }
    }
  }

  lemma {:induction false} MissingExactly(request: seq<Hash>, items: seq<Torrent>, h: Hash)
    ensures h in MissingOf(request, items) <==> h in request && !Has(items, h)
    decreases |request|
  {
    if request != [] {
      var init := request[..|request| - 1];
      MissingExactly(init, items, h);
      assert request == init + [request[|request| - 1]];
    }
  }

  lemma FateAnyOrder(classify: Classifier, order: seq<Torrent>, torrents: seq<Torrent>, h: Hash, fate: Fate)
    requires multiset(order) == multiset(torrents)
    ensures FateIs(classify, order, h, fate) <==> FateIs(classify, torrents, h, fate)
  {
    if FateIs(classify, order, h, fate) {
      var k :| 0 <= k < |order| && order[k].hash == h && FateOf(classify, order[k]) == fate;
      assert order[k] in multiset(torrents);
      var j :| 0 <= j < |torrents| && torrents[j] == order[k];
    }
    if FateIs(classify, torrents, h, fate) {
      var k :| 0 <= k < |torrents| && torrents[k].hash == h && FateOf(classify, torrents[k]) == fate;
      assert torrents[k] in multiset(order);
      var j :| 0 <= j < |order| && order[j] == torrents[k];
    }
  }

  /** The torrents found for a request. */
  ghost predicate Found(request: seq<Hash>, items: seq<Torrent>, torrents: seq<Torrent>) {
    && DistinctHashes(items) && DistinctHashes(torrents)
    && forall t :: t in torrents <==> t in items && t.hash in request
  }

  /** How many of the three lists hold a hash. */
  ghost function Lists(classified: seq<Hash>, toDelete: seq<Hash>, failed: seq<Hash>, h: Hash): nat {
    (if h in classified then 1 else 0) + (if h in toDelete then 1 else 0) + (if h in failed then 1 else 0)
  }

  /** Whatever the order of the workers, a requested hash is in exactly one list and any other hash in
      none. */
  lemma OneFate(
    classify: Classifier, request: seq<Hash>, items: seq<Torrent>, torrents: seq<Torrent>, order: seq<Torrent>, h: Hash
  )
    requires Found(request, items, torrents) && multiset(order) == multiset(torrents)
    ensures Lists(HashesOf(classify, IsClassified, order), HashesOf(classify, IsDeleted, order),
                  MissingOf(request, items) + HashesOf(classify, IsFailed, order), h)
            == if h in request then 1 else 0
  {
    forall fate ensures h in HashesOf(classify, fate, order) <==> FateIs(classify, torrents, h, fate) {
      HashesOfExactly(classify, fate, order, h);
      FateAnyOrder(classify, order, torrents, h, fate);
    }
    MissingExactly(request, items, h);
    FoundHash(classify, request, items, torrents, h);
  }

  lemma FoundHash(classify: Classifier, request: seq<Hash>, items: seq<Torrent>, torrents: seq<Torrent>, h: Hash)
    requires Found(request, items, torrents)
    ensures h in request && Has(items, h) ==>
              exists fate :: FateIs(classify, torrents, h, fate)
                && forall other :: FateIs(classify, torrents, h, other) ==> other == fate
    ensures !(h in request && Has(items, h)) ==> forall fate :: !FateIs(classify, torrents, h, fate)
  {
    if h in request && Has(items, h) {
      var k :| 0 <= k < |items| && items[k].hash == h;
      assert items[k] in torrents;
      var j :| 0 <= j < |torrents| && torrents[j] == items[k];
      var fate := FateOf(classify, torrents[j]);
      assert FateIs(classify, torrents, h, fate);
      forall other | FateIs(classify, torrents, h, other) ensures other == fate {
        var i :| 0 <= i < |torrents| && torrents[i].hash == h && FateOf(classify, torrents[i]) == other;
        assert i == j;
      }
    } else {
      forall i | 0 <= i < |torrents| ensures torrents[i].hash != h {
        assert torrents[i] in items;
      }
    }
  }

  /** The new content row is never among the rows to delete, and every other old row is. */
  lemma NewRowIsKept(classify: Classifier, order: seq<Torrent>, k: nat, id: string)
    requires k < |order| && classify(order[k]).Classified? && id in order[k].contentIds + [classify(order[k]).id]
    requires forall j :: 0 <= j < |order| && j != k ==> id !in order[j].contentIds
    ensures SomeStale(classify, order, id) <==> id != classify(order[k]).id
  {
  }

  // --------------------------------------------------------------------------------------
  // What becomes of the lists
  // --------------------------------------------------------------------------------------

  /** What a job does: the hashes it queues again, writes and deletes, the ids of the content rows it
      deletes, and the tags it adds. */
  datatype Effect = Effect(
    error: bool, republished: seq<Hash>, written: seq<Hash>, deleted: seq<Hash>,
    staleIds: seq<string>, tags: map<Hash, set<string>>)

  /** Nothing is written; `republished` may have been queued. */
  function Unwritten(error: bool, republished: seq<Hash>): Effect {
    Effect(error, republished, [], [], [], map[])
  }

  /** `republishes` and `persists` say whether these database writes succeed. */
  function Finish(
    classified: seq<Hash>, toDelete: seq<Hash>, failed: seq<Hash>, staleIds: seq<string>, tags: map<Hash, set<string>>,
    republishes: bool, persists: bool
  ): Effect {
    if failed != [] && (classified == [] || !republishes) then Unwritten(true, [])
    else if classified == [] then Unwritten(false, [])
    else if !persists then Unwritten(true, failed)
    else Effect(false, failed, classified, toDelete, staleIds, tags)
  }

  /** The workers of the torrents found ran in some order `order`, and `e` is what came of it; the
      stale ids and the tags are those of the classified torrents. */
  ghost predicate Outcomes(
    classify: Classifier, request: seq<Hash>, items: seq<Torrent>, order: seq<Torrent>, republishes: bool, persists: bool,
    e: Effect
  ) {
    && (exists torrents :: Found(request, items, torrents) && multiset(order) == multiset(torrents))
    && (exists staleIds, tags ::
          && (forall id :: id in staleIds <==> SomeStale(classify, order, id))
          && TagsAre(classify, order, tags)
          && e == Finish(HashesOf(classify, IsClassified, order), HashesOf(classify, IsDeleted, order),
                         MissingOf(request, items) + HashesOf(classify, IsFailed, order), staleIds, tags,
                         republishes, persists))
  }

  /** The answer of the classifier that each fate stands for. */
  predicate Meets(o: Outcome, fate: Fate) {
    match fate
    case IsClassified => o.Classified?
    case IsDeleted => o.Delete?
    case IsFailed => o.Fail?
  }

  /** `h` is requested and its torrent has the given fate. */
  ghost predicate Requested(classify: Classifier, request: seq<Hash>, items: seq<Torrent>, h: Hash, fate: Fate) {
    h in request && exists t :: t in items && t.hash == h && Meets(classify(t), fate)
  }

  ghost predicate SomeRequested(classify: Classifier, request: seq<Hash>, items: seq<Torrent>, fate: Fate) {
    exists h :: Requested(classify, request, items, h, fate)
  }

  /** `h` is requested and has no torrent, or the classifier failed on it. */
  ghost predicate Failed(classify: Classifier, request: seq<Hash>, items: seq<Torrent>, h: Hash) {
    (h in request && !Has(items, h)) || Requested(classify, request, items, h, IsFailed)
  }

  /** The torrents that are requested and classified. */
  ghost predicate Wanted(classify: Classifier, request: seq<Hash>, items: seq<Torrent>, t: Torrent) {
    t in items && t.hash in request && classify(t).Classified?
  }

  /** The job is an error exactly if something failed with nothing classified or the queue down, or
      something was classified and the database is down. */
  ghost predicate Errs(classify: Classifier, request: seq<Hash>, items: seq<Torrent>, republishes: bool, persists: bool) {
    var classified := SomeRequested(classify, request, items, IsClassified);
    var failed := exists h :: Failed(classify, request, items, h);
    (failed && (!classified || !republishes)) || (classified && !persists)
  }

  /** What a job does, from the request, the stored torrents and the classifier alone. */
  ghost predicate Described(
    classify: Classifier, request: seq<Hash>, items: seq<Torrent>, republishes: bool, persists: bool, e: Effect
  ) {
    && (e.error <==> Errs(classify, request, items, republishes, persists))
    && (e.error || !SomeRequested(classify, request, items, IsClassified) ==>
          e.written == [] && e.deleted == [] && e.staleIds == [] && e.tags == map[])
    && (e.republished != [] ==> forall h :: h in e.republished <==> Failed(classify, request, items, h))
    && (!e.error && SomeRequested(classify, request, items, IsClassified) ==> Persisted(classify, request, items, e))
  }

  ghost predicate Persisted(classify: Classifier, request: seq<Hash>, items: seq<Torrent>, e: Effect) {
    && (forall h :: h in e.written <==> Requested(classify, request, items, h, IsClassified))
    && (forall h :: h in e.deleted <==> Requested(classify, request, items, h, IsDeleted))
    && (forall h :: h in e.republished <==> Failed(classify, request, items, h))
    && (forall id :: id in e.staleIds <==>
          exists t :: Wanted(classify, request, items, t) && id in t.contentIds && id != classify(t).id)
    && TagsWanted(classify, request, items, e.tags)
  }

  /** The tags are those of the torrents that are requested and classified. */
  ghost predicate TagsWanted(
    classify: Classifier, request: seq<Hash>, items: seq<Torrent>, tags: map<Hash, set<string>>
  ) {
    && (forall t :: Wanted(classify, request, items, t) && classify(t).tags != {} ==>
          t.hash in tags && tags[t.hash] == classify(t).tags)
    && (forall h :: h in tags ==>
          exists t :: Wanted(classify, request, items, t) && classify(t).tags != {} && t.hash == h)
  }

  lemma TagsExactly(
    classify: Classifier, request: seq<Hash>, items: seq<Torrent>, torrents: seq<Torrent>, order: seq<Torrent>,
    tags: map<Hash, set<string>>
  )
    requires Found(request, items, torrents) && multiset(order) == multiset(torrents) && TagsAre(classify, order, tags)
    ensures TagsWanted(classify, request, items, tags)
  {
    forall t | Wanted(classify, request, items, t) && classify(t).tags != {}
      ensures t.hash in tags && tags[t.hash] == classify(t).tags
    {
      OrderHolds(request, items, torrents, order, t);
    }
    forall h | h in tags
      ensures exists t :: Wanted(classify, request, items, t) && classify(t).tags != {} && t.hash == h
    {
      var t :| t in order && Tagged(classify, t) && t.hash == h;
      OrderHolds(request, items, torrents, order, t);
      assert Wanted(classify, request, items, t);
    }
  }

  lemma ListExactly(
    classify: Classifier, request: seq<Hash>, items: seq<Torrent>, torrents: seq<Torrent>, order: seq<Torrent>,
    fate: Fate, h: Hash
  )
    requires Found(request, items, torrents) && multiset(order) == multiset(torrents)
    ensures h in HashesOf(classify, fate, order) <==> Requested(classify, request, items, h, fate)
  {
    HashesOfExactly(classify, fate, order, h);
    FateAnyOrder(classify, order, torrents, h, fate);
    if FateIs(classify, torrents, h, fate) {
      var k :| 0 <= k < |torrents| && torrents[k].hash == h && FateOf(classify, torrents[k]) == fate;
      assert torrents[k] in items;
    }
    if Requested(classify, request, items, h, fate) {
      var t :| t in items && t.hash == h && Meets(classify(t), fate);
      assert t in torrents;
      var k :| 0 <= k < |torrents| && torrents[k] == t;
    }
  }

  lemma OrderHolds(request: seq<Hash>, items: seq<Torrent>, torrents: seq<Torrent>, order: seq<Torrent>, t: Torrent)
    requires Found(request, items, torrents) && multiset(order) == multiset(torrents)
    ensures t in order <==> t in items && t.hash in request
  {
    assert t in order <==> t in multiset(order);
    assert t in torrents <==> t in multiset(torrents);
  }

  lemma StaleExactly(
    classify: Classifier, request: seq<Hash>, items: seq<Torrent>, torrents: seq<Torrent>, order: seq<Torrent>, id: string
  )
    requires Found(request, items, torrents) && multiset(order) == multiset(torrents)
    ensures SomeStale(classify, order, id)
       <==> exists t :: Wanted(classify, request, items, t) && id in t.contentIds && id != classify(t).id
  {
    if SomeStale(classify, order, id) {
      var k :| 0 <= k < |order| && IsStale(classify, order[k], id);
      OrderHolds(request, items, torrents, order, order[k]);
      assert Wanted(classify, request, items, order[k]);
    }
    if t :| Wanted(classify, request, items, t) && id in t.contentIds && id != classify(t).id {
      OrderHolds(request, items, torrents, order, t);
      var k :| 0 <= k < |order| && order[k] == t;
      assert IsStale(classify, order[k], id);
    }
  }

  /** Whatever the order of the workers, the outcome of a job is what the request, the torrents and
      the classifier say. */
  lemma EffectExactly(
    classify: Classifier, request: seq<Hash>, items: seq<Torrent>, order: seq<Torrent>, republishes: bool, persists: bool,
    e: Effect
  )
    requires Outcomes(classify, request, items, order, republishes, persists, e)
    ensures Described(classify, request, items, republishes, persists, e)
  {
    var torrents :| Found(request, items, torrents) && multiset(order) == multiset(torrents);
    var c, d := HashesOf(classify, IsClassified, order), HashesOf(classify, IsDeleted, order);
    var f := MissingOf(request, items) + HashesOf(classify, IsFailed, order);
    ListsExactly(classify, request, items, torrents, order);
    NoMembers(c);
    NoMembers(f);
    if !e.error && c != [] {
      PersistedExactly(classify, request, items, torrents, order, e);
    }
  }

  lemma ListsExactly(
    classify: Classifier, request: seq<Hash>, items: seq<Torrent>, torrents: seq<Torrent>, order: seq<Torrent>
  )
    requires Found(request, items, torrents) && multiset(order) == multiset(torrents)
    ensures forall h :: h in HashesOf(classify, IsClassified, order) <==> Requested(classify, request, items, h, IsClassified)
    ensures forall h :: h in HashesOf(classify, IsDeleted, order) <==> Requested(classify, request, items, h, IsDeleted)
    ensures forall h :: h in MissingOf(request, items) + HashesOf(classify, IsFailed, order)
                   <==> Failed(classify, request, items, h)
  {
    forall h, fate ensures h in HashesOf(classify, fate, order) <==> Requested(classify, request, items, h, fate) {
      ListExactly(classify, request, items, torrents, order, fate, h);
    }
    forall h ensures h in MissingOf(request, items) <==> h in request && !Has(items, h) {
      MissingExactly(request, items, h);
    }
  }

  lemma PersistedExactly(
    classify: Classifier, request: seq<Hash>, items: seq<Torrent>, torrents: seq<Torrent>, order: seq<Torrent>, e: Effect
  )
    requires Found(request, items, torrents) && multiset(order) == multiset(torrents)
    requires e.written == HashesOf(classify, IsClassified, order) && e.deleted == HashesOf(classify, IsDeleted, order)
    requires e.republished == MissingOf(request, items) + HashesOf(classify, IsFailed, order)
    requires (forall id :: id in e.staleIds <==> SomeStale(classify, order, id)) && TagsAre(classify, order, e.tags)
    ensures Persisted(classify, request, items, e)
  {
    ListsExactly(classify, request, items, torrents, order);
    forall id ensures id in e.staleIds
                 <==> exists t :: Wanted(classify, request, items, t) && id in t.contentIds && id != classify(t).id
    {
      StaleExactly(classify, request, items, torrents, order, id);
    }
    TagsExactly(classify, request, items, torrents, order, e.tags);
  }

  method Process(
    classify: Classifier, request: seq<Hash>, items: seq<Torrent>, republishes: bool, persists: bool
  )
    returns (e: Effect)
    requires DistinctHashes(items)
    ensures exists order :: Outcomes(classify, request, items, order, republishes, persists, e)
    ensures Described(classify, request, items, republishes, persists, e)
  {
    var torrents, missing := TorrentsWithMissingInfoHashes(request, items);
    var acc := new Accumulators(missing);
    ghost var order := acc.RunWorkers(classify, torrents);
    e := Settle(acc, republishes, persists);
    assert Found(request, items, torrents);
    assert TagsAre(classify, order, acc.tags);
    assert Outcomes(classify, request, items, order, republishes, persists, e);
    EffectExactly(classify, request, items, order, republishes, persists, e);
  }

  /** What follows the wait for the workers. */
  method Settle(acc: Accumulators, republishes: bool, persists: bool) returns (e: Effect)
    ensures e == Finish(acc.classified, acc.toDelete, acc.failed, acc.staleIds, acc.tags, republishes, persists)
    ensures e.error <==>
            || (acc.failed != [] && (acc.classified == [] || !republishes))
            || (acc.classified != [] && !persists)
    ensures !e.error && acc.classified != [] ==>
              e == Effect(false, acc.failed, acc.classified, acc.toDelete, acc.staleIds, acc.tags)
    ensures e.error || acc.classified == [] ==> e == Unwritten(e.error, e.republished)
  {
    var republished := [];
    if acc.failed != [] {
      if acc.classified == [] {
        return Unwritten(true, []);
      }
      if !republishes {
        return Unwritten(true, []);
      }
      republished := acc.failed;
    }
    if acc.classified == [] {
      return Unwritten(false, []);
    }
    if !persists {
      return Unwritten(true, republished);
    }
    e := Effect(false, republished, acc.classified, acc.toDelete, acc.staleIds, acc.tags);
  }

  /** The job fails and is tried again, or the hash is dealt with. */
  predicate Handled(e: Effect, h: Hash) {
    e.error || h in e.republished || h in e.written || h in e.deleted
  }

  /** Every requested torrent exists and is to be deleted. */
  ghost predicate AllDeleted(classify: Classifier, request: seq<Hash>, items: seq<Torrent>) {
    forall h :: h in request ==> Has(items, h) && forall t :: t in items && t.hash == h ==> classify(t).Delete?
  }

  /** A requested hash is handled exactly if not every requested torrent is to be deleted: when all
      are, the job ends well and deletes none of them. */
  lemma HandledExactly(
    classify: Classifier, request: seq<Hash>, items: seq<Torrent>, torrents: seq<Torrent>, order: seq<Torrent>,
    staleIds: seq<string>, tags: map<Hash, set<string>>, republishes: bool, persists: bool, h: Hash
  )
    requires Found(request, items, torrents) && multiset(order) == multiset(torrents) && h in request
    ensures var e := Finish(HashesOf(classify, IsClassified, order), HashesOf(classify, IsDeleted, order),
                            MissingOf(request, items) + HashesOf(classify, IsFailed, order), staleIds, tags,
                            republishes, persists);
            Handled(e, h) <==> !AllDeleted(classify, request, items)
  {
    var c, d := HashesOf(classify, IsClassified, order), HashesOf(classify, IsDeleted, order);
    var f := MissingOf(request, items) + HashesOf(classify, IsFailed, order);
    OneFate(classify, request, items, torrents, order, h);
    AllDeletedLists(classify, request, items, torrents, order);
  }

  /** All are to be deleted exactly if the other two lists are empty. */
  lemma AllDeletedLists(
    classify: Classifier, request: seq<Hash>, items: seq<Torrent>, torrents: seq<Torrent>, order: seq<Torrent>
  )
    requires Found(request, items, torrents) && multiset(order) == multiset(torrents)
    ensures AllDeleted(classify, request, items)
       <==> HashesOf(classify, IsClassified, order) == []
            && MissingOf(request, items) + HashesOf(classify, IsFailed, order) == []
  {
    var c, d := HashesOf(classify, IsClassified, order), HashesOf(classify, IsDeleted, order);
    var f := MissingOf(request, items) + HashesOf(classify, IsFailed, order);
    if AllDeleted(classify, request, items) {
      forall h ensures h !in c && h !in f {
        NotElsewhere(classify, request, items, torrents, order, h);
      }
      NoMembers(c);
      NoMembers(f);
    }
    if c == [] && f == [] {
      forall h | h in request
        ensures Has(items, h) && forall t :: t in items && t.hash == h ==> classify(t).Delete?
      {
        OneFate(classify, request, items, torrents, order, h);
        InDeleted(classify, request, items, torrents, order, h);
      }
    }
  }

  lemma NoMembers(s: seq<Hash>)
    ensures s == [] <==> forall h :: h !in s
  {
    if s != [] { assert s[0] in s; }
  }

  lemma NotElsewhere(
    classify: Classifier, request: seq<Hash>, items: seq<Torrent>, torrents: seq<Torrent>, order: seq<Torrent>, h: Hash
  )
    requires Found(request, items, torrents) && multiset(order) == multiset(torrents)
    requires AllDeleted(classify, request, items)
    ensures h !in HashesOf(classify, IsClassified, order)
    ensures h !in MissingOf(request, items) + HashesOf(classify, IsFailed, order)
  {
    MissingExactly(request, items, h);
    forall i | 0 <= i < |torrents| ensures FateOf(classify, torrents[i]) == IsDeleted {
      assert torrents[i] in items;
    }
    forall fate | fate != IsDeleted ensures h !in HashesOf(classify, fate, order) {
      HashesOfExactly(classify, fate, order, h);
      FateAnyOrder(classify, order, torrents, h, fate);
    }
  }

  lemma InDeleted(
    classify: Classifier, request: seq<Hash>, items: seq<Torrent>, torrents: seq<Torrent>, order: seq<Torrent>, h: Hash
  )
    requires Found(request, items, torrents) && multiset(order) == multiset(torrents)
    requires h in HashesOf(classify, IsDeleted, order)
    ensures Has(items, h) && forall t :: t in items && t.hash == h ==> classify(t).Delete?
  {
    HashesOfExactly(classify, IsDeleted, order, h);
    FateAnyOrder(classify, order, torrents, h, IsDeleted);
    var i :| 0 <= i < |torrents| && torrents[i].hash == h && FateOf(classify, torrents[i]) == IsDeleted;
    assert torrents[i] in items;
    var k :| 0 <= k < |items| && items[k] == torrents[i];
    OnlyAt(items, k);
  }

  /** One torrent that is to be deleted: the job succeeds and does nothing. */
  lemma DeleteAloneIsDropped(classify: Classifier, t: Torrent)
    requires classify(t).Delete?
    ensures Outcomes(classify, [t.hash], [t], [t], true, true, Unwritten(false, []))
    ensures !Handled(Unwritten(false, []), t.hash)
  {
    assert Found([t.hash], [t], [t]);
    assert [t][0].hash == t.hash && Has([t], t.hash);
    forall h ensures h !in MissingOf([t.hash], [t]) { MissingExactly([t.hash], [t], h); }
    NoMembers(MissingOf([t.hash], [t]));
    forall fate | fate != IsDeleted ensures HashesOf(classify, fate, [t]) == [] {
      forall h ensures h !in HashesOf(classify, fate, [t]) { HashesOfExactly(classify, fate, [t], h); }
      NoMembers(HashesOf(classify, fate, [t]));
    }
    var none: map<Hash, set<string>> := map[];
    assert TagsAre(classify, [t], none);
    var staleIds: seq<string> := [];
    assert forall id :: id in staleIds <==> SomeStale(classify, [t], id);
    assert Finish(HashesOf(classify, IsClassified, [t]), HashesOf(classify, IsDeleted, [t]),
                  MissingOf([t.hash], [t]) + HashesOf(classify, IsFailed, [t]), staleIds, none, true, true)
        == Unwritten(false, []);
  }
}
