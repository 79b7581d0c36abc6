/** Persisting crawled torrents: hybrid (v1 and v2) duplicates, the stored file list, and the
    decision to crawl a torrent again. */
module DhtPersist {
  import opened Options

  /** Primary keys and full v2 hashes are only compared for equality. */
  type Id = nat
  type V2 = nat

  // --------------------------------------------------------------------------------------
  // One torrent
  // --------------------------------------------------------------------------------------

  datatype File = File(path: seq<string>, length: nat)

  /** The parsed info dictionary; `files` is its upverted file list. */
  datatype Info = Info(isDir: bool, hasV2: bool, files: seq<File>)

  datatype FilesStatus = NoInfo | Single | Multi | OverThreshold

  datatype StoredFile = StoredFile(index: nat, path: string, size: nat)

  datatype Row = Row(v2: Option<V2>, status: FilesStatus, count: Option<nat>, files: seq<StoredFile>)

  predicate IsV2Single(info: Info) {
    info.hasV2 && |info.files| == 1 && |info.files[0].path| <= 1
  }

  /** Has a file list of its own. */
  predicate ListsFiles(info: Info) {
    info.isDir && !IsV2Single(info)
  }

  /** `display` renders a file's path. */
  method CreateTorrentModel(v2: Option<V2>, info: Info, threshold: nat, display: File -> string) returns (row: Row)
    ensures row.v2 == v2
    ensures !ListsFiles(info) ==> row.status == Single && row.count == None && row.files == []
    ensures ListsFiles(info) ==>
              && row.count == Some(|info.files|)
              && |row.files| == (if threshold < |info.files| then threshold else |info.files|)
              && (row.status == if threshold < |info.files| then OverThreshold else Multi)
              && forall k :: 0 <= k < |row.files| ==>
                   row.files[k] == StoredFile(k, display(info.files[k]), info.files[k].length)
  {
    var status, count, files := Single, None, [];
    if info.isDir {
      var upverted := info.files;
      var isV2Single := info.hasV2 && |upverted| == 1 && |upverted[0].path| <= 1;
      if !isV2Single {
        status, count := Multi, Some(|upverted|);
        var i := 0;
        while i < |upverted|
          invariant 0 <= i <= |upverted| && i <= threshold
          invariant status == Multi && |files| == i
          invariant forall k :: 0 <= k < i ==>
                      files[k] == StoredFile(k, display(upverted[k]), upverted[k].length)
        {
          if i >= threshold {
            status := OverThreshold;
            break;
          }
          files := files + [StoredFile(i, display(upverted[i]), upverted[i].length)];
          i := i + 1;
        }
      }
    }
    row := Row(v2, status, count, files);
  }

  /** The row of a crawled torrent, as a function. */
  function RowOf(v2: Option<V2>, info: Info, threshold: nat, display: File -> string): Row {
    if !ListsFiles(info) then Row(v2, Single, None, [])
    else
      var n := if threshold < |info.files| then threshold else |info.files|;
      Row(v2, if threshold < |info.files| then OverThreshold else Multi, Some(|info.files|),
          seq(n, k requires 0 <= k < |info.files| => StoredFile(k, display(info.files[k]), info.files[k].length)))
  }

  // --------------------------------------------------------------------------------------
  // Triage
  // --------------------------------------------------------------------------------------

  datatype Route = GetPeers | Scrape | Discard

  /** `scraped` says that seeders and leechers are known and recent. */
  function Triage(row: Option<Row>, scraped: bool, threshold: nat): Route {
    if || row.None?
       || row.value.status == NoInfo
       || (row.value.status != Single && row.value.count.None?)
       || (row.value.status == OverThreshold && row.value.count.value <= threshold)
    then GetPeers
    else if !scraped then Scrape
    else Discard
  }

  /** A hash without a row is looked up; a stored row that is left alone is scraped exactly if it was
      not scraped recently, and otherwise nothing is done. */
  lemma RoutesExactly(row: Option<Row>, scraped: bool, threshold: nat)
    ensures row.None? ==> Triage(row, scraped, threshold) == GetPeers
    ensures Triage(row, scraped, threshold) != GetPeers ==>
              Triage(row, scraped, threshold) == (if scraped then Discard else Scrape)
  {
  }

  /** A torrent crawled under one threshold is crawled again under another exactly if its file list
      was cut and would now be stored whole. */
  lemma CrawledAgainExactly(
    v2: Option<V2>, info: Info, threshold: nat, display: File -> string, scraped: bool, threshold': nat
  )
    ensures Triage(Some(RowOf(v2, info, threshold, display)), scraped, threshold') == GetPeers
       <==> ListsFiles(info) && threshold < |info.files| <= threshold'
  {
  }

  /** The routing loop over the hashes of a request batch, each taken once and in any order. */
  method TriageBatch(hashes: set<Id>, rows: map<Id, Row>, scraped: Id -> bool, threshold: nat)
    returns (getPeers: set<Id>, scrape: set<Id>)
    ensures forall h :: h in getPeers <==> h in hashes && Triage(Lookup(rows, h), scraped(h), threshold) == GetPeers
    ensures forall h :: h in scrape <==> h in hashes && Triage(Lookup(rows, h), scraped(h), threshold) == Scrape
    ensures forall h :: h in hashes && h !in rows ==> h in getPeers
    ensures forall h :: h in hashes && h !in getPeers ==> (h in scrape <==> !scraped(h))
    ensures getPeers !! scrape && getPeers + scrape <= hashes
  {
    getPeers, scrape := {}, {};
    var todo := hashes;
    while todo != {}
      invariant todo <= hashes
      invariant forall h :: h in getPeers <==>
                  h in hashes - todo && Triage(Lookup(rows, h), scraped(h), threshold) == GetPeers
      invariant forall h :: h in scrape <==>
                  h in hashes - todo && Triage(Lookup(rows, h), scraped(h), threshold) == Scrape
      decreases |todo|
    {
      var h :| h in todo;
      todo := todo - {h};
      if || h !in rows
         || rows[h].status == NoInfo
         || (rows[h].status != Single && rows[h].count.None?)
         || (rows[h].status == OverThreshold && rows[h].count.value <= threshold) {
        getPeers := getPeers + {h};
      } else if !scraped(h) {
        scrape := scrape + {h};
      }
    }
  }

  function Lookup(rows: map<Id, Row>, h: Id): Option<Row> {
    if h in rows then Some(rows[h]) else None
  }

  // --------------------------------------------------------------------------------------
  // The filter for hybrid torrents
  // --------------------------------------------------------------------------------------

  datatype Item = Item(pk: Id, v2: Option<V2>, info: Info)

  type Index = map<V2, Id>

  predicate DropV2Duplicate(v2: V2, pk: Id, existing: Index, batch: Index) {
    || (v2 in existing && existing[v2] != pk)
    || (v2 in batch && batch[v2] != pk)
  }

  /** Item `i` has the v2 hash of a stored torrent, or of one of the items `kept`, under another key. */
  ghost predicate Conflicts(items: seq<Item>, existing: Index, kept: seq<nat>, i: nat)
    requires i < |items| && forall k :: 0 <= k < |kept| ==> kept[k] < |items|
  {
    && items[i].v2.Some?
    && (|| (items[i].v2.value in existing && existing[items[i].v2.value] != items[i].pk)
        || exists k :: 0 <= k < |kept| && items[kept[k]].v2 == items[i].v2 && items[kept[k]].pk != items[i].pk)
  }

  /** The positions kept among the first `n`: each item is judged against those kept before it. */
  ghost function Kept(items: seq<Item>, existing: Index, n: nat): (r: seq<nat>)
    requires n <= |items|
    ensures forall k :: 0 <= k < |r| ==> r[k] < n
    ensures forall j, k :: 0 <= j < k < |r| ==> r[j] < r[k]
  {
    if n == 0 then []
    else
      var r := Kept(items, existing, n - 1);
      if Conflicts(items, existing, r, n - 1) then r else r + [n - 1]
  }

  ghost predicate Represents(items: seq<Item>, kept: seq<nat>, batch: Index)
    requires forall k :: 0 <= k < |kept| ==> kept[k] < |items|
  {
    && (forall k :: 0 <= k < |kept| && items[kept[k]].v2.Some? ==>
          items[kept[k]].v2.value in batch && batch[items[kept[k]].v2.value] == items[kept[k]].pk)
    && (forall x :: x in batch ==>
          exists k :: 0 <= k < |kept| && items[kept[k]].v2 == Some(x) && items[kept[k]].pk == batch[x])
  }

  /** What the loop has after the first `i` items. */
  ghost predicate Filtered(items: seq<Item>, existing: Index, i: nat, kept: seq<Item>, batch: Index)
    requires i <= |items|
  {
    var idx := Kept(items, existing, i);
    && |kept| == |idx| && |kept| <= i
    && (forall k :: 0 <= k < |kept| ==> kept[k] == items[idx[k]])
    && Represents(items, idx, batch)
  }

  lemma FilteredDrop(items: seq<Item>, existing: Index, i: nat, kept: seq<Item>, batch: Index)
    requires i < |items| && Filtered(items, existing, i, kept, batch)
    requires Conflicts(items, existing, Kept(items, existing, i), i)
    ensures Filtered(items, existing, i + 1, kept, batch)
  {
  }

  lemma FilteredKeep(items: seq<Item>, existing: Index, i: nat, kept: seq<Item>, batch: Index, batch': Index)
    requires i < |items| && Filtered(items, existing, i, kept, batch)
    requires !Conflicts(items, existing, Kept(items, existing, i), i)
    requires Represents(items, Kept(items, existing, i) + [i], batch')
    ensures Filtered(items, existing, i + 1, kept + [items[i]], batch')
  {
    assert Kept(items, existing, i + 1) == Kept(items, existing, i) + [i];
  }

  method FilterV2Duplicates(items: seq<Item>, existing: Index) returns (kept: seq<Item>, dropped: nat)
    ensures var idx := Kept(items, existing, |items|);
            && |kept| == |idx|
            && (forall k :: 0 <= k < |kept| ==> kept[k] == items[idx[k]])
            && dropped == |items| - |kept|
  {
    var batch: Index := map[];
    kept, dropped := [], 0;
    for i := 0 to |items|
      invariant dropped == i - |kept|
      invariant Filtered(items, existing, i, kept, batch)
    {
      ghost var idx := Kept(items, existing, i);
      var it := items[i];
      BatchDecides(items, existing, idx, batch, i);
      if it.v2.Some? {
        if DropV2Duplicate(it.v2.value, it.pk, existing, batch) {
          FilteredDrop(items, existing, i, kept, batch);
          dropped := dropped + 1;
          continue;
        }
        KeepRepresents(items, idx, batch, i);
        FilteredKeep(items, existing, i, kept, batch, batch[it.v2.value := it.pk]);
        batch := batch[it.v2.value := it.pk];
      } else {
        KeepPlain(items, idx, batch, i);
        FilteredKeep(items, existing, i, kept, batch, batch);
      }
      kept := kept + [it];
    }
  }

  lemma BatchDecides(items: seq<Item>, existing: Index, kept: seq<nat>, batch: Index, i: nat)
    requires i < |items| && forall k :: 0 <= k < |kept| ==> kept[k] < |items|
    requires Represents(items, kept, batch)
    ensures Conflicts(items, existing, kept, i)
       <==> items[i].v2.Some? && DropV2Duplicate(items[i].v2.value, items[i].pk, existing, batch)
  {
  }

  lemma KeepRepresents(items: seq<Item>, kept: seq<nat>, batch: Index, i: nat)
    requires i < |items| && forall k :: 0 <= k < |kept| ==> kept[k] < |items|
    requires Represents(items, kept, batch) && items[i].v2.Some?
    requires items[i].v2.value in batch ==> batch[items[i].v2.value] == items[i].pk
    ensures Represents(items, kept + [i], batch[items[i].v2.value := items[i].pk])
  {
    var kept', x := kept + [i], items[i].v2.value;
    var batch' := batch[x := items[i].pk];
    forall y | y in batch'
      ensures exists k :: 0 <= k < |kept'| && items[kept'[k]].v2 == Some(y) && items[kept'[k]].pk == batch'[y]
    {
      if y == x {
        assert kept'[|kept|] == i;
      } else {
        var k :| 0 <= k < |kept| && items[kept[k]].v2 == Some(y) && items[kept[k]].pk == batch[y];
        assert kept'[k] == kept[k];
      }
    }
  }

  lemma KeepPlain(items: seq<Item>, kept: seq<nat>, batch: Index, i: nat)
    requires i < |items| && forall k :: 0 <= k < |kept| ==> kept[k] < |items|
    requires Represents(items, kept, batch) && items[i].v2.None?
    ensures Represents(items, kept + [i], batch)
  {
    var kept' := kept + [i];
    forall y | y in batch
      ensures exists k :: 0 <= k < |kept'| && items[kept'[k]].v2 == Some(y) && items[kept'[k]].pk == batch[y]
    {
      var k :| 0 <= k < |kept| && items[kept[k]].v2 == Some(y) && items[kept[k]].pk == batch[y];
      assert kept'[k] == kept[k];
    }
  }

  /** The positions kept are decided once: a longer batch keeps the same ones first. */
  lemma {:induction false} KeptPrefix(items: seq<Item>, existing: Index, m: nat, n: nat)
    requires m <= n <= |items|
    ensures Kept(items, existing, m) <= Kept(items, existing, n)
    decreases n
  {
    if m < n {
      KeptPrefix(items, existing, m, n - 1);
    }
  }

  lemma {:induction false} NewAreLarge(items: seq<Item>, existing: Index, n: nat, m: nat)
    requires n <= m <= |items|
    ensures forall i :: i in Kept(items, existing, m) && i < n ==> i in Kept(items, existing, n)
    decreases m
  {
    if n < m {
      NewAreLarge(items, existing, n, m - 1);
    }
  }

  lemma JudgedAt(items: seq<Item>, existing: Index, i: nat)
    requires i < |items|
    ensures i in Kept(items, existing, i + 1) <==> !Conflicts(items, existing, Kept(items, existing, i), i)
  {
  }

  /** An item is dropped exactly if it conflicts with a stored torrent or with one kept before it. */
  lemma DroppedExactly(items: seq<Item>, existing: Index, i: nat)
    requires i < |items|
    ensures i !in Kept(items, existing, |items|) <==> Conflicts(items, existing, Kept(items, existing, i), i)
  {
    JudgedAt(items, existing, i);
    NewAreLarge(items, existing, i + 1, |items|);
    if i in Kept(items, existing, i + 1) {
      PrefixMember(items, existing, i);
    }
  }

  lemma PrefixMember(items: seq<Item>, existing: Index, i: nat)
    requires i < |items| && i in Kept(items, existing, i + 1)
    ensures i in Kept(items, existing, |items|)
  {
    KeptPrefix(items, existing, i + 1, |items|);
  }

  // --------------------------------------------------------------------------------------
  // Looking up the stored v2 hashes
  // --------------------------------------------------------------------------------------

  type Db = map<Id, Row>

  ghost predicate Stores(db: Db, p: Id, x: V2) {
    p in db && db[p].v2 == Some(x)
  }

  /** Every answer is a stored row. */
  ghost predicate Sound(db: Db, existing: Index) {
    forall x :: x in existing ==> Stores(db, existing[x], x)
  }

  /** Every stored v2 hash of the batch is answered. */
  ghost predicate Complete(db: Db, items: seq<Item>, existing: Index) {
    forall i, p :: 0 <= i < |items| && items[i].v2.Some? && Stores(db, p, items[i].v2.value) ==>
                     items[i].v2.value in existing
  }

  const CHUNK := 1000

  /** The v2 hashes of a batch. */
  function Hashes(items: seq<Item>): set<V2> {
    set i | 0 <= i < |items| && items[i].v2.Some? :: items[i].v2.value
  }

  /** `answers(q)` says whether the `q`-th query succeeds. With the first failure the lookup stops
      and returns what it has. */
  method LookupExistingV2(db: Db, items: seq<Item>, answers: nat -> bool) returns (existing: Index)
    ensures Sound(db, existing)
    ensures (forall q: nat :: q * CHUNK < |Hashes(items)| ==> answers(q)) ==> Complete(db, items, existing)
  {
    var wanted := CollectHashes(items);
    existing := map[];
    var values := AnyOrder(wanted);
    var start, q := 0, 0;
    while start < |values|
      invariant start == q * CHUNK
      invariant Sound(db, existing)
      invariant forall k, p :: 0 <= k < start && k < |values| && Stores(db, p, values[k]) ==> values[k] in existing
      decreases |values| - start
    {
      var end := if start + CHUNK < |values| then start + CHUNK else |values|;
      if !answers(q) {
        return;
      }
      existing := QueryRows(db, values[start..end], existing);
      forall k, p | 0 <= k < end && Stores(db, p, values[k]) ensures values[k] in existing {
        if k >= start { assert values[start..end][k - start] == values[k]; }
      }
      start, q := start + CHUNK, q + 1;
    }
    forall i, p | 0 <= i < |items| && items[i].v2.Some? && Stores(db, p, items[i].v2.value)
      ensures items[i].v2.value in existing
    {
      assert items[i].v2.value in wanted;
    }
  }

  method CollectHashes(items: seq<Item>) returns (wanted: set<V2>)
    ensures wanted == Hashes(items)
  {
    wanted := {};
    for i := 0 to |items|
      invariant wanted == Hashes(items[..i])
    {
      assert items[..i + 1] == items[..i] + [items[i]];
      if items[i].v2.Some? {
        wanted := wanted + {items[i].v2.value};
      }
    }
    assert items[..|items|] == items;
  }

  /** The elements of a set in some order. */
  method AnyOrder<T(==)>(s: set<T>) returns (values: seq<T>)
    ensures |values| == |s| && forall x :: x in s <==> x in values
  {
    values := [];
    var rest := s;
    while rest != {}
      invariant rest <= s && |values| + |rest| == |s|
      invariant forall x :: x in s <==> x in values || x in rest
      decreases |rest|
    {
      var x :| x in rest;
      values, rest := values + [x], rest - {x};
    }
  }

  /** One query and the loop over its rows, which come in any order. */
  method QueryRows(db: Db, hashes: seq<V2>, before: Index) returns (existing: Index)
    requires Sound(db, before)
    ensures Sound(db, existing) && before.Keys <= existing.Keys
    ensures forall k, p :: 0 <= k < |hashes| && Stores(db, p, hashes[k]) ==> hashes[k] in existing
  {
    existing := before;
    var found := set p | p in db && db[p].v2.Some? && db[p].v2.value in hashes;
    var rows := AnyOrder(found);
    for j := 0 to |rows|
      invariant Sound(db, existing) && before.Keys <= existing.Keys
      invariant forall k :: 0 <= k < j ==> rows[k] in found && db[rows[k]].v2.value in existing
    {
      assert rows[j] in found;
      existing := existing[db[rows[j]].v2.value := rows[j]];
    }
    forall k, p | 0 <= k < |hashes| && Stores(db, p, hashes[k]) ensures hashes[k] in existing {
      assert p in found && p in rows;
    }
  }

  // --------------------------------------------------------------------------------------
  // Storing a batch
  // --------------------------------------------------------------------------------------

  /** A full v2 hash is stored under at most one key. */
  ghost predicate UniqueV2(db: Db) {
    forall p, q, x :: Stores(db, p, x) && Stores(db, q, x) ==> p == q
  }

  /** On conflict of the primary key the file columns are updated and the v2 hash is not. */
  function Upsert(db: Db, pk: Id, row: Row): Db {
    if pk in db then db[pk := row.(v2 := db[pk].v2)] else db[pk := row]
  }

  /** The kept items are stored in order; of items with one key only the first counts. */
  function Persist(db: Db, kept: seq<Item>, seen: set<Id>, threshold: nat, display: File -> string): Db
    decreases |kept|
  {
    if kept == [] then db
    else if kept[0].pk in seen then Persist(db, kept[1..], seen, threshold, display)
    else
      var row := RowOf(kept[0].v2, kept[0].info, threshold, display);
      Persist(Upsert(db, kept[0].pk, row), kept[1..], seen + {kept[0].pk}, threshold, display)
  }

  predicate First(kept: seq<Item>, k: nat)
    requires k < |kept|
  {
    forall j :: 0 <= j < k ==> kept[j].pk != kept[k].pk
  }

  /** Stored rows stay, with their v2 hash, and only the keys of the batch are new. */
  lemma {:induction false} PersistKeeps(
    db: Db, kept: seq<Item>, seen: set<Id>, threshold: nat, display: File -> string, p: Id
  )
    ensures var r := Persist(db, kept, seen, threshold, display);
            && (p in db ==> p in r && r[p].v2 == db[p].v2)
            && (p in r ==> p in db || exists k :: 0 <= k < |kept| && kept[k].pk == p)
    decreases |kept|
  {
    if kept != [] {
      var it := kept[0];
      if it.pk in seen {
        PersistKeeps(db, kept[1..], seen, threshold, display, p);
      } else {
        var db' := Upsert(db, it.pk, RowOf(it.v2, it.info, threshold, display));
        PersistKeeps(db', kept[1..], seen + {it.pk}, threshold, display, p);
      }
      var r := Persist(db, kept, seen, threshold, display);
      if p in r && p !in db && p != it.pk {
        var k :| 0 <= k < |kept[1..]| && kept[1..][k].pk == p;
        assert kept[k + 1].pk == p;
      }
    }
  }

  /** The row of a key seen already is not touched. */
  lemma {:induction false} SeenStays(
    db: Db, kept: seq<Item>, seen: set<Id>, threshold: nat, display: File -> string, p: Id
  )
    requires p in seen && p in db
    ensures var r := Persist(db, kept, seen, threshold, display); p in r && r[p] == db[p]
    decreases |kept|
  {
    if kept != [] {
      var it := kept[0];
      if it.pk in seen {
        SeenStays(db, kept[1..], seen, threshold, display, p);
      } else {
        SeenStays(Upsert(db, it.pk, RowOf(it.v2, it.info, threshold, display)), kept[1..], seen + {it.pk},
                  threshold, display, p);
      }
    }
  }

  /** The first kept item of a key decides its row; an old row keeps its v2 hash. */
  lemma {:induction false} PersistFirst(
    db: Db, kept: seq<Item>, seen: set<Id>, threshold: nat, display: File -> string, k: nat
  )
    requires k < |kept| && First(kept, k) && kept[k].pk !in seen
    ensures var r := Persist(db, kept, seen, threshold, display); var p := kept[k].pk;
            p in r && r[p] == RowOf(if p in db then db[p].v2 else kept[k].v2, kept[k].info, threshold, display)
    decreases |kept|
  {
    var it := kept[0];
    if k == 0 {
      var db' := Upsert(db, it.pk, RowOf(it.v2, it.info, threshold, display));
      SeenStays(db', kept[1..], seen + {it.pk}, threshold, display, it.pk);
    } else {
      assert kept[1..][k - 1] == kept[k];
      assert First(kept[1..], k - 1) by {
        forall j | 0 <= j < k - 1 ensures kept[1..][j].pk != kept[k].pk { assert kept[1..][j] == kept[j + 1]; }
      }
      if it.pk in seen {
        PersistFirst(db, kept[1..], seen, threshold, display, k - 1);
      } else {
        assert it.pk != kept[k].pk;
        PersistFirst(Upsert(db, it.pk, RowOf(it.v2, it.info, threshold, display)), kept[1..], seen + {it.pk},
                     threshold, display, k - 1);
      }
    }
  }

  lemma {:induction false} HasFirst(kept: seq<Item>, k: nat) returns (f: nat)
    requires k < |kept|
    ensures f <= k && First(kept, f) && kept[f].pk == kept[k].pk
  {
    f := k;
    if !First(kept, k) {
      var j :| 0 <= j < k && kept[j].pk == kept[k].pk;
      f := HasFirst(kept, j);
    }
  }

  // --------------------------------------------------------------------------------------
  // A v2 hash under one key only
  // --------------------------------------------------------------------------------------

  /** What the filter guarantees of the items it keeps. */
  ghost predicate Agree(kept: seq<Item>, existing: Index) {
    && (forall k :: 0 <= k < |kept| && kept[k].v2.Some? && kept[k].v2.value in existing ==>
          existing[kept[k].v2.value] == kept[k].pk)
    && (forall j, k :: 0 <= j < k < |kept| && kept[j].v2.Some? && kept[j].v2 == kept[k].v2 ==>
          kept[j].pk == kept[k].pk)
  }

  ghost function KeptItems(items: seq<Item>, existing: Index, n: nat): (r: seq<Item>)
    requires n <= |items|
  {
    var idx := Kept(items, existing, n);
    seq(|idx|, k requires 0 <= k < |idx| => items[idx[k]])
  }

  lemma AgreeSnoc(kept: seq<Item>, existing: Index, it: Item)
    requires Agree(kept, existing)
    requires it.v2.Some? && it.v2.value in existing ==> existing[it.v2.value] == it.pk
    requires it.v2.Some? ==> forall j :: 0 <= j < |kept| && kept[j].v2 == it.v2 ==> kept[j].pk == it.pk
    ensures Agree(kept + [it], existing)
  {
  }

  lemma {:induction false} KeptAgree(items: seq<Item>, existing: Index, n: nat)
    requires n <= |items|
    ensures Agree(KeptItems(items, existing, n), existing)
  {
    if n > 0 {
      KeptAgree(items, existing, n - 1);
      KeptItemsStep(items, existing, n);
      if !Conflicts(items, existing, Kept(items, existing, n - 1), n - 1) {
        AgreeSnoc(KeptItems(items, existing, n - 1), existing, items[n - 1]);
      }
    }
  }

  lemma KeptItemsStep(items: seq<Item>, existing: Index, n: nat)
    requires 0 < n <= |items|
    ensures var before := KeptItems(items, existing, n - 1); var it := items[n - 1];
            if Conflicts(items, existing, Kept(items, existing, n - 1), n - 1)
            then KeptItems(items, existing, n) == before
            else
              && KeptItems(items, existing, n) == before + [it]
              && (it.v2.Some? && it.v2.value in existing ==> existing[it.v2.value] == it.pk)
              && (it.v2.Some? ==> forall j :: 0 <= j < |before| && before[j].v2 == it.v2 ==> before[j].pk == it.pk)
  {
  }

  /** A newly stored item whose v2 hash is stored under another key: the lookup missed it. */
  ghost predicate Missed(db: Db, kept: seq<Item>, k: nat)
    requires k < |kept|
  {
    && First(kept, k) && kept[k].pk !in db
    && kept[k].v2.Some? && exists q :: Stores(db, q, kept[k].v2.value)
  }

  /** After a batch a v2 hash is under one key exactly if the lookup missed none of the hashes that
      the batch newly stores. */
  lemma UniqueExactly(db: Db, kept: seq<Item>, existing: Index, threshold: nat, display: File -> string)
    requires UniqueV2(db) && Agree(kept, existing)
    ensures UniqueV2(Persist(db, kept, {}, threshold, display))
       <==> forall k :: 0 <= k < |kept| ==> !Missed(db, kept, k)
  {
    var r := Persist(db, kept, {}, threshold, display);
    forall k | 0 <= k < |kept| && Missed(db, kept, k) ensures !UniqueV2(r) {
      MissedBreaks(db, kept, threshold, display, k);
    }
    if forall k :: 0 <= k < |kept| ==> !Missed(db, kept, k) {
      forall p, q, x | Stores(r, p, x) && Stores(r, q, x) ensures p == q {
        NothingMissed(db, kept, existing, threshold, display, p, q, x);
      }
    }
  }

  lemma MissedBreaks(db: Db, kept: seq<Item>, threshold: nat, display: File -> string, k: nat)
    requires k < |kept| && Missed(db, kept, k)
    ensures !UniqueV2(Persist(db, kept, {}, threshold, display))
  {
    var r := Persist(db, kept, {}, threshold, display);
    var q :| Stores(db, q, kept[k].v2.value);
    PersistKeeps(db, kept, {}, threshold, display, q);
    PersistFirst(db, kept, {}, threshold, display, k);
    assert Stores(r, q, kept[k].v2.value) && Stores(r, kept[k].pk, kept[k].v2.value);
  }

  /** Where a stored v2 hash came from: from before, or from the first kept item of its key. */
  lemma Origin(db: Db, kept: seq<Item>, threshold: nat, display: File -> string, p: Id, x: V2) returns (f: nat)
    requires Stores(Persist(db, kept, {}, threshold, display), p, x)
    ensures Stores(db, p, x)
         || (p !in db && f < |kept| && First(kept, f) && kept[f].pk == p && kept[f].v2 == Some(x))
  {
    PersistKeeps(db, kept, {}, threshold, display, p);
    f := 0;
    if p !in db {
      var k :| 0 <= k < |kept| && kept[k].pk == p;
      f := HasFirst(kept, k);
      PersistFirst(db, kept, {}, threshold, display, f);
    }
  }

  lemma NothingMissed(
    db: Db, kept: seq<Item>, existing: Index, threshold: nat, display: File -> string, p: Id, q: Id, x: V2
  )
    requires UniqueV2(db) && Agree(kept, existing) && forall k :: 0 <= k < |kept| ==> !Missed(db, kept, k)
    requires var r := Persist(db, kept, {}, threshold, display); Stores(r, p, x) && Stores(r, q, x)
    ensures p == q
  {
    var f := Origin(db, kept, threshold, display, p, x);
    var g := Origin(db, kept, threshold, display, q, x);
    assert f < |kept| ==> !Missed(db, kept, f);
    assert g < |kept| ==> !Missed(db, kept, g);
  }

  /** A lookup that succeeded misses nothing. */
  lemma CompleteMissesNothing(db: Db, items: seq<Item>, existing: Index, k: nat)
    requires Sound(db, existing) && Complete(db, items, existing)
    requires k < |KeptItems(items, existing, |items|)|
    ensures !Missed(db, KeptItems(items, existing, |items|), k)
  {
    var kept := KeptItems(items, existing, |items|);
    KeptAgree(items, existing, |items|);
    var it := kept[k];
    assert it == items[Kept(items, existing, |items|)[k]];
    if it.v2.Some? && it.v2.value in existing {
      assert Stores(db, existing[it.v2.value], it.v2.value);
    }
  }

  /** One batch of the persistence loop. A failed transaction changes nothing. */
  datatype Batch = Batch(items: seq<Item>, existing: Index, committed: bool, threshold: nat)

  ghost function Store(db: Db, b: Batch, display: File -> string): Db {
    if b.committed
    then Persist(db, KeptItems(b.items, b.existing, |b.items|), {}, b.threshold, display)
    else db
  }

  ghost function StoreAll(db: Db, batches: seq<Batch>, display: File -> string): Db
    decreases |batches|
  {
    if batches == [] then db else StoreAll(Store(db, batches[0], display), batches[1..], display)
  }

  ghost predicate LookupsSucceed(db: Db, batches: seq<Batch>, display: File -> string)
    decreases |batches|
  {
    batches == []
    || (&& Sound(db, batches[0].existing) && Complete(db, batches[0].items, batches[0].existing)
        && LookupsSucceed(Store(db, batches[0], display), batches[1..], display))
  }

  /** Over every sequence of batches whose lookups succeed, a full v2 hash is stored under at most
      one key. */
  lemma {:induction false} BatchesKeepUnique(db: Db, batches: seq<Batch>, display: File -> string)
    requires UniqueV2(db) && LookupsSucceed(db, batches, display)
    ensures UniqueV2(StoreAll(db, batches, display))
    decreases |batches|
  {
    if batches != [] {
      var b := batches[0];
      var kept := KeptItems(b.items, b.existing, |b.items|);
      if b.committed {
        KeptAgree(b.items, b.existing, |b.items|);
        forall k | 0 <= k < |kept| ensures !Missed(db, kept, k) {
          CompleteMissesNothing(db, b.items, b.existing, k);
        }
        UniqueExactly(db, kept, b.existing, b.threshold, display);
      }
      BatchesKeepUnique(Store(db, b, display), batches[1..], display);
    }
  }

  /** First one wins: a stored v2 hash stays under its key for good. */
  lemma {:induction false} StoredStays(db: Db, batches: seq<Batch>, display: File -> string, p: Id)
    requires p in db
    ensures var r := StoreAll(db, batches, display); p in r && r[p].v2 == db[p].v2
    decreases |batches|
  {
    if batches != [] {
      var b := batches[0];
      PersistKeeps(db, KeptItems(b.items, b.existing, |b.items|), {}, b.threshold, display, p);
      StoredStays(Store(db, b, display), batches[1..], display, p);
    }
  }

  /** An earlier item of the batch has key `q` and the v2 hash of item `i`. */
  ghost predicate CameWith(items: seq<Item>, i: nat, q: Id)
    requires i < |items|
  {
    exists j :: 0 <= j < i && items[j].pk == q && items[j].v2 == items[i].v2
  }

  /** No discovery is lost: after a committed batch its key is stored, or its v2 hash belongs to a
      stored key, the hash being stored with it or having come with it in the batch. */
  lemma NothingLost(db: Db, b: Batch, display: File -> string, i: nat)
    requires Sound(db, b.existing) && b.committed && i < |b.items|
    ensures var r := Store(db, b, display); var it := b.items[i];
            || it.pk in r
            || (it.v2.Some? && exists q :: q in r && q != it.pk && (r[q].v2 == it.v2 || CameWith(b.items, i, q)))
  {
    var idx := Kept(b.items, b.existing, |b.items|);
    DroppedExactly(b.items, b.existing, i);
    if i in idx {
      var k :| 0 <= k < |idx| && idx[k] == i;
      KeptIsStored(db, KeptItems(b.items, b.existing, |b.items|), b.threshold, display, k);
    } else {
      var q := WinnerIsStored(db, b, display, i);
    }
  }

  /** The key that a dropped item lost to. */
  lemma WinnerIsStored(db: Db, b: Batch, display: File -> string, i: nat) returns (q: Id)
    requires Sound(db, b.existing) && b.committed && i < |b.items|
    requires Conflicts(b.items, b.existing, Kept(b.items, b.existing, i), i)
    ensures var r := Store(db, b, display);
            q in r && q != b.items[i].pk && (r[q].v2 == b.items[i].v2 || CameWith(b.items, i, q))
  {
    var kept := KeptItems(b.items, b.existing, |b.items|);
    var before, it := Kept(b.items, b.existing, i), b.items[i];
    if it.v2.value in b.existing && b.existing[it.v2.value] != it.pk {
      q := b.existing[it.v2.value];
      assert Stores(db, q, it.v2.value);
      PersistKeeps(db, kept, {}, b.threshold, display, q);
    } else {
      var k :| 0 <= k < |before| && b.items[before[k]].v2 == it.v2 && b.items[before[k]].pk != it.pk;
      q := b.items[before[k]].pk;
      KeptPrefix(b.items, b.existing, i, |b.items|);
      assert kept[k] == b.items[before[k]];
      KeptIsStored(db, kept, b.threshold, display, k);
    }
  }

  lemma KeptIsStored(db: Db, kept: seq<Item>, threshold: nat, display: File -> string, k: nat)
    requires k < |kept|
    ensures kept[k].pk in Persist(db, kept, {}, threshold, display)
  {
    var f := HasFirst(kept, k);
    PersistFirst(db, kept, {}, threshold, display, f);
  }

  /** When the lookup fails, the batch is stored all the same and one v2 hash gets two keys. */
  lemma FailedLookupDuplicates(db: Db, b: Batch, info: Info, row: Row, display: File -> string)
    requires row.v2 == Some(7) && db == map[1 := row]
    requires b == Batch([Item(2, Some(7), info)], map[], true, 100)
    ensures UniqueV2(db) && Sound(db, b.existing) && !UniqueV2(Store(db, b, display))
  {
    var idx := Kept(b.items, b.existing, 1);
    assert Kept(b.items, b.existing, 0) == [];
    var kept := KeptItems(b.items, b.existing, 1);
    assert idx == [0] && kept == b.items;
    KeptAgree(b.items, b.existing, 1);
    assert Stores(db, 1, 7);
    assert Missed(db, kept, 0);
    UniqueExactly(db, kept, b.existing, 100, display);
  }

  // --------------------------------------------------------------------------------------
  // One row per hybrid torrent
  // --------------------------------------------------------------------------------------

  /** `hybrid` gives the v2 hash of the torrent behind each key; both keys of a hybrid have the same.
      Every row has the v2 hash of its torrent. */
  ghost predicate Tells(db: Db, hybrid: Id -> Option<V2>) {
    forall p :: p in db ==> db[p].v2 == hybrid(p)
  }

  ghost predicate ItemsTell(items: seq<Item>, hybrid: Id -> Option<V2>) {
    forall i :: 0 <= i < |items| ==> items[i].v2 == hybrid(items[i].pk)
  }

  /** No hybrid has a row under both of its keys. */
  ghost predicate OneRow(db: Db, hybrid: Id -> Option<V2>) {
    forall p, q :: p in db && q in db && hybrid(p).Some? && hybrid(p) == hybrid(q) ==> p == q
  }

  lemma {:induction false} PersistTells(
    db: Db, kept: seq<Item>, seen: set<Id>, threshold: nat, display: File -> string, hybrid: Id -> Option<V2>
  )
    requires Tells(db, hybrid) && ItemsTell(kept, hybrid)
    ensures Tells(Persist(db, kept, seen, threshold, display), hybrid)
    decreases |kept|
  {
    if kept != [] {
      var it := kept[0];
      assert ItemsTell(kept[1..], hybrid);
      if it.pk in seen {
        PersistTells(db, kept[1..], seen, threshold, display, hybrid);
      } else {
        var db' := Upsert(db, it.pk, RowOf(it.v2, it.info, threshold, display));
        PersistTells(db', kept[1..], seen + {it.pk}, threshold, display, hybrid);
      }
    }
  }

  /** Over every sequence of batches whose lookups succeed, a hybrid torrent has a single row, provided
      that the rows stored before carried their v2 hashes. */
  lemma {:induction false} HybridsHaveOneRow(
    db: Db, batches: seq<Batch>, display: File -> string, hybrid: Id -> Option<V2>
  )
    requires UniqueV2(db) && Tells(db, hybrid) && LookupsSucceed(db, batches, display)
    requires forall k :: 0 <= k < |batches| ==> ItemsTell(batches[k].items, hybrid)
    ensures OneRow(StoreAll(db, batches, display), hybrid) && Tells(StoreAll(db, batches, display), hybrid)
    decreases |batches|
  {
    if batches == [] {
      forall p, q | p in db && q in db && hybrid(p).Some? && hybrid(p) == hybrid(q) ensures p == q {
        assert Stores(db, p, hybrid(p).value) && Stores(db, q, hybrid(p).value);
      }
    } else {
      var b, rest := batches[0], batches[1..];
      assert ItemsTell(b.items, hybrid);
      BatchesKeepUnique(db, [b], display);
      assert StoreAll(db, [b], display) == Store(db, b, display) by { assert [b][1..] == []; }
      PersistTells(db, KeptItems(b.items, b.existing, |b.items|), {}, b.threshold, display, hybrid);
      forall k | 0 <= k < |rest| ensures ItemsTell(rest[k].items, hybrid) { assert rest[k] == batches[k + 1]; }
      HybridsHaveOneRow(Store(db, b, display), rest, display, hybrid);
    }
  }

  lemma SingleKept(it: Item, existing: Index)
    ensures KeptItems([it], existing, 1)
         == if it.v2.Some? && it.v2.value in existing && existing[it.v2.value] != it.pk then [] else [it]
  {
    assert Kept([it], existing, 0) == [];
    assert Conflicts([it], existing, [], 0) <==> it.v2.Some? && it.v2.value in existing && existing[it.v2.value] != it.pk;
  }

  /** A hybrid that is discovered under a new key gets a second row exactly if no stored row carries
      its v2 hash, although the lookup succeeds. */
  lemma SecondKeyExactly(db: Db, it: Item, existing: Index, threshold: nat, display: File -> string)
    requires it.pk !in db && it.v2.Some? && Sound(db, existing) && Complete(db, [it], existing)
    ensures it.pk in Store(db, Batch([it], existing, true, threshold), display)
       <==> forall q :: !Stores(db, q, it.v2.value)
  {
    SingleKept(it, existing);
    if it.v2.value in existing {
      assert Stores(db, existing[it.v2.value], it.v2.value);
    } else {
      assert [it][0].v2.Some?;
      KeptIsStored(db, [it], threshold, display, 0);
    }
  }

  /** A row without a v2 hash never gets one, even if its torrent is crawled again with the hash; so
      the other key of that torrent is stored as well. */
  lemma NullHashDuplicates(row: Row, info: Info, display: File -> string)
    requires row.v2.None?
    ensures var batches := [Batch([Item(1, Some(7), info)], map[], true, 100),
                            Batch([Item(2, Some(7), info)], map[], true, 100)];
            && LookupsSucceed(map[1 := row], batches, display)
            && var r := StoreAll(map[1 := row], batches, display);
            1 in r && 2 in r && r[1].v2.None? && r[2].v2 == Some(7)
  {
    var db: Db := map[1 := row];
    var b1, b2 := Batch([Item(1, Some(7), info)], map[], true, 100), Batch([Item(2, Some(7), info)], map[], true, 100);
    SingleKept(b1.items[0], map[]);
    SingleKept(b2.items[0], map[]);
    var r1 := Store(db, b1, display);
    PersistFirst(db, b1.items, {}, 100, display, 0);
    PersistKeeps(db, b1.items, {}, 100, display, 1);
    forall p ensures !Stores(db, p, 7) && !Stores(r1, p, 7) {
      PersistKeeps(db, b1.items, {}, 100, display, p);
    }
    PersistFirst(r1, b2.items, {}, 100, display, 0);
    PersistKeeps(r1, b2.items, {}, 100, display, 1);
    PersistKeeps(db, b1.items, {}, 100, display, 2);
    var batches := [b1, b2];
    assert batches[1..] == [b2] && [b2][1..] == [];
    assert LookupsSucceed(r1, [b2], display);
    var r2 := Store(r1, b2, display);
    assert StoreAll(r2, [], display) == r2;
    assert StoreAll(r1, [b2], display) == r2;
    assert StoreAll(db, batches, display) == r2;
  }

  /** Crawling again under a raised threshold stores the whole list, and triage under that threshold
      leaves the row alone from then on. */
  lemma CrawledAgainOnce(
    db: Db, it: Item, threshold: nat, threshold': nat, display: File -> string, scraped: bool
  )
    requires it.pk in db && db[it.pk] == RowOf(it.v2, it.info, threshold, display)
    requires Triage(Some(db[it.pk]), scraped, threshold') == GetPeers
    ensures var r := Persist(db, [it], {}, threshold', display);
            && it.pk in r && r[it.pk].status == Multi && |r[it.pk].files| == |it.info.files|
            && Triage(Some(r[it.pk]), scraped, threshold') != GetPeers
  {
  }

  // --------------------------------------------------------------------------------------
  // The loop body of the persistence worker
  // --------------------------------------------------------------------------------------

  datatype Torrent = Torrent(pk: Id, row: Row)

  function UpsertAll(db: Db, torrents: seq<Torrent>): Db {
    if torrents == [] then db
    else
      var last := torrents[|torrents| - 1];
      Upsert(UpsertAll(db, torrents[..|torrents| - 1]), last.pk, last.row)
  }

  lemma RowIs(row: Row, v2: Option<V2>, info: Info, threshold: nat, display: File -> string)
    requires row.v2 == v2
    requires !ListsFiles(info) ==> row.status == Single && row.count == None && row.files == []
    requires ListsFiles(info) ==>
               && row.count == Some(|info.files|)
               && |row.files| == (if threshold < |info.files| then threshold else |info.files|)
               && (row.status == if threshold < |info.files| then OverThreshold else Multi)
               && forall k :: 0 <= k < |row.files| ==>
                    row.files[k] == StoredFile(k, display(info.files[k]), info.files[k].length)
    ensures row == RowOf(v2, info, threshold, display)
  {
  }

  class Crawler {
    var db: Db

    constructor ()
      ensures db == map[]
    {
      db := map[];
    }

    method PersistTorrents(items: seq<Item>, answers: nat -> bool, commits: bool, threshold: nat, display: File -> string)
      returns (ghost existing: Index)
      modifies this
      ensures Sound(old(db), existing)
      ensures (forall q: nat :: q * CHUNK < |Hashes(items)| ==> answers(q)) ==> Complete(old(db), items, existing)
      ensures db == Store(old(db), Batch(items, existing, commits, threshold), display)
    {
      var stored := LookupExistingV2(db, items, answers);
      var kept, dropped := FilterV2Duplicates(items, stored);
      existing := stored;
      assert kept == KeptItems(items, stored, |items|);
      var torrents: seq<Torrent> := [];
      var hashMap: set<Id> := {};
      for i := 0 to |kept|
        invariant db == old(db)
        invariant Persist(UpsertAll(db, torrents), kept[i..], hashMap, threshold, display)
                  == Persist(db, kept, {}, threshold, display)
      {
        assert kept[i..][1..] == kept[i + 1..];
        if kept[i].pk in hashMap {
          continue;
        }
        hashMap := hashMap + {kept[i].pk};
        var row := CreateTorrentModel(kept[i].v2, kept[i].info, threshold, display);
        RowIs(row, kept[i].v2, kept[i].info, threshold, display);
        ghost var before := torrents;
        torrents := torrents + [Torrent(kept[i].pk, row)];
        assert torrents[..|torrents| - 1] == before;
      }
      if commits {
        db := UpsertAll(db, torrents);
      }
    }
  }
}
