/** The keyset-paged stream over `torrent_files` and the grouping of its rows into one document
    per torrent. */
module DocStreaming {
  import opened Options

  type Byte = b: nat | b < 256

  datatype Key = Key(hash: seq<Byte>, index: int)

  datatype Row = Row(key: Key, path: string)

  // --------------------------------------------------------------------------------------
  // The order of the primary key
  // --------------------------------------------------------------------------------------

  predicate BytesLess(a: seq<Byte>, b: seq<Byte>) {
    b != [] && (a == [] || a[0] < b[0] || (a[0] == b[0] && BytesLess(a[1..], b[1..])))
  }

  predicate KeyLess(a: Key, b: Key) {
    BytesLess(a.hash, b.hash) || (a.hash == b.hash && a.index < b.index)
  }

  lemma {:induction false} BytesIrreflexive(a: seq<Byte>)
    ensures !BytesLess(a, a)
  {
    if a != [] {
      BytesIrreflexive(a[1..]);
    }
  }

  lemma {:induction false} BytesAsymmetric(a: seq<Byte>, b: seq<Byte>)
    ensures !(BytesLess(a, b) && BytesLess(b, a))
  {
    if a != [] && b != [] {
      BytesAsymmetric(a[1..], b[1..]);
    }
  }

  /** Unique keys, in the order the query asks for. */
  predicate Ordered(rows: seq<Row>) {
    forall i, j {:trigger KeyLess(rows[i].key, rows[j].key)} ::
      0 <= i < j < |rows| ==> KeyLess(rows[i].key, rows[j].key)
  }

  // --------------------------------------------------------------------------------------
  // The page query
  // --------------------------------------------------------------------------------------

  predicate After(cur: Option<Key>, r: Row) {
    cur.None? || KeyLess(cur.value, r.key)
  }

  /** The first rows, at most `limit`, whose key is above the cursor. */
  function Query(rows: seq<Row>, cur: Option<Key>, limit: nat): seq<Row> {
    if rows == [] || limit == 0 then []
    else if After(cur, rows[0]) then [rows[0]] + Query(rows[1..], cur, limit - 1)
    else Query(rows[1..], cur, limit)
  }

  function Min(a: nat, b: nat): nat {
    if a < b then a else b
  }

  /** A cursor on row `pos - 1` asks for the rows from `pos` on. */
  lemma PageAt(rows: seq<Row>, pos: nat, cur: Option<Key>, limit: nat)
    requires Ordered(rows) && pos <= |rows|
    requires cur == if pos == 0 then None else Some(rows[pos - 1].key)
    ensures Query(rows, cur, limit) == rows[pos..pos + Min(limit, |rows| - pos)]
  {
    forall k | 0 <= k < |rows| ensures After(cur, rows[k]) <==> k >= pos {
      if pos > 0 && k >= pos {
        assert KeyLess(rows[pos - 1].key, rows[k].key);
      } else if pos > 0 {
        assert k < pos - 1 ==> KeyLess(rows[k].key, rows[pos - 1].key);
        BytesAsymmetric(rows[pos - 1].key.hash, rows[k].key.hash);
        BytesIrreflexive(rows[k].key.hash);
      }
    }
    SkipThenTake(rows, pos, cur, limit);
  }

  lemma {:induction false} SkipThenTake(rows: seq<Row>, pos: nat, cur: Option<Key>, limit: nat)
    requires pos <= |rows|
    requires forall k :: 0 <= k < |rows| ==> (After(cur, rows[k]) <==> k >= pos)
    ensures Query(rows, cur, limit) == rows[pos..pos + Min(limit, |rows| - pos)]
    decreases |rows|
  {
    if rows != [] && limit > 0 {
      if pos == 0 {
        SkipThenTake(rows[1..], 0, cur, limit - 1);
      } else {
        SkipThenTake(rows[1..], pos - 1, cur, limit);
      }
    }
  }

  // --------------------------------------------------------------------------------------
  // The stream
  // --------------------------------------------------------------------------------------

  predicate Valid(r: Row) {
    |r.key.hash| == 20
  }

  /** The rows that are not skipped. */
  function ValidRows(rows: seq<Row>): seq<Row> {
    if rows == [] then []
    else (if Valid(rows[0]) then [rows[0]] else []) + ValidRows(rows[1..])
  }

  lemma ValidRowsStep(rows: seq<Row>, i: nat, before: seq<Row>)
    requires i < |rows|
    ensures before + ValidRows(rows[i..])
            == (if Valid(rows[i]) then before + [rows[i]] else before) + ValidRows(rows[i + 1..])
  {
  }

  /** What is read until the first `None`: page after page, up to a page without valid rows. */
  function Drained(rows: seq<Row>, limit: nat): seq<Row>
    decreases |rows|
  {
    var n := Min(limit, |rows|);
    var page := ValidRows(rows[..n]);
    if n == 0 || page == [] then [] else page + Drained(rows[n..], limit)
  }

  lemma DrainedAt(table: seq<Row>, pos: nat, limit: nat)
    requires pos <= |table|
    ensures var next := pos + Min(limit, |table| - pos); var page := ValidRows(table[pos..next]);
            Drained(table[pos..], limit) == if page == [] then [] else page + Drained(table[next..], limit)
  {
    var n := Min(limit, |table| - pos);
    assert table[pos..][..n] == table[pos..pos + n];
    assert table[pos..][n..] == table[pos + n..];
  }

  lemma PopFront(buf: seq<Row>, rest: seq<Row>)
    requires buf != []
    ensures buf + rest == [buf[0]] + (if buf[1..] == [] then rest else buf[1..] + rest)
  {
  }

  class DocStream {
    const table: seq<Row>
    const limit: nat
    var cur: Option<Key>
    var buf: seq<Row>
    ghost var pos: nat

    ghost predicate Consistent()
      reads this
    {
      && Ordered(table) && pos <= |table|
      && cur == if pos == 0 then None else Some(table[pos - 1].key)
    }

    /** What the consumer is still going to see. */
    ghost function Remaining(): seq<Row>
      requires Consistent()
      reads this
    {
      if buf == [] then Drained(table[pos..], limit) else buf + Drained(table[pos..], limit)
    }

    constructor (table: seq<Row>, limit: nat)
      requires Ordered(table)
      ensures Consistent() && Remaining() == Drained(table, limit)
      ensures this.table == table && this.limit == limit
    {
      this.table, this.limit, cur, buf, pos := table, limit, None, [], 0;
      new;
      assert table[0..] == table;
    }

    method Refill()
      requires Consistent() && buf == []
      modifies this
      ensures Consistent() && pos == old(pos) + Min(limit, |table| - old(pos))
      ensures buf == ValidRows(table[old(pos)..pos])
    {
      PageAt(table, pos, cur, limit);
      var rows := Query(table, cur, limit);
      Absorb(rows);
    }

    /** The loop over the rows of a page: the cursor moves past skipped rows too. */
    method Absorb(rows: seq<Row>)
      requires Consistent() && buf == []
      requires pos + |rows| <= |table| && rows == table[pos..pos + |rows|]
      modifies this
      ensures Consistent() && pos == old(pos) + |rows|
      ensures buf == ValidRows(rows)
    {
      ghost var start := pos;
      for i := 0 to |rows|
        invariant pos == start + i && cur == if pos == 0 then None else Some(table[pos - 1].key)
        invariant buf + ValidRows(rows[i..]) == ValidRows(rows)
      {
        ValidRowsStep(rows, i, buf);
        assert rows[i] == table[pos];
        cur, pos := Some(rows[i].key), pos + 1;
        if |rows[i].key.hash| != 20 {
          continue;
        }
        buf := buf + [rows[i]];
      }
    }

    method NextDoc() returns (doc: Option<Row>)
      requires Consistent()
      modifies this
      ensures Consistent()
      ensures doc.None? <==> old(Remaining()) == []
      ensures doc.Some? ==> old(Remaining()) == [doc.value] + Remaining()
    {
      if buf == [] {
        DrainedAt(table, pos, limit);
        Refill();
      }
      if buf == [] {
        return None;
      }
      doc := Some(buf[0]);
      PopFront(buf, Drained(table[pos..], limit));
      buf := buf[1..];
    }
  }

  // --------------------------------------------------------------------------------------
  // When the stream is complete
  // --------------------------------------------------------------------------------------

  predicate NoneValid(rows: seq<Row>) {
    forall k :: 0 <= k < |rows| ==> !Valid(rows[k])
  }

  lemma {:induction false} NoneValidIff(rows: seq<Row>)
    ensures ValidRows(rows) == [] <==> NoneValid(rows)
  {
    if rows != [] {
      NoneValidIff(rows[1..]);
      assert NoneValid(rows) <==> !Valid(rows[0]) && NoneValid(rows[1..]) by {
        forall k | 0 <= k < |rows[1..]| ensures rows[1..][k] == rows[k + 1] {}
        forall k | 0 < k < |rows| ensures rows[k] == rows[1..][k - 1] {}
      }
    }
  }

  lemma Associative<T>(a: seq<T>, b: seq<T>, c: seq<T>)
    ensures a + (b + c) == (a + b) + c
  {
  }

  lemma {:induction false} ValidRowsConcat(a: seq<Row>, b: seq<Row>)
    ensures ValidRows(a + b) == ValidRows(a) + ValidRows(b)
  {
    if a == [] {
      assert a + b == b;
    } else {
      ValidRowsConcat(a[1..], b);
      assert (a + b)[1..] == a[1..] + b;
      Associative(if Valid(a[0]) then [a[0]] else [], ValidRows(a[1..]), ValidRows(b));
    }
  }

  /** After the first page without valid rows there are no valid rows at all. */
  predicate NoGap(rows: seq<Row>, limit: nat)
    requires limit > 0
    decreases |rows|
  {
    var n := Min(limit, |rows|);
    rows == [] || if NoneValid(rows[..n]) then NoneValid(rows[n..]) else NoGap(rows[n..], limit)
  }

  /** The stream yields every valid row, once and in key order, exactly if no valid row follows a page
      of skipped ones. */
  lemma {:induction false} CompleteExactly(rows: seq<Row>, limit: nat)
    requires limit > 0
    ensures Drained(rows, limit) == ValidRows(rows) <==> NoGap(rows, limit)
    decreases |rows|
  {
    if rows != [] {
      var n := Min(limit, |rows|);
      assert rows == rows[..n] + rows[n..];
      ValidRowsConcat(rows[..n], rows[n..]);
      NoneValidIff(rows[..n]);
      NoneValidIff(rows[n..]);
      CompleteExactly(rows[n..], limit);
      if ValidRows(rows[..n]) != [] {
        SamePrefix(ValidRows(rows[..n]), Drained(rows[n..], limit), ValidRows(rows[n..]));
      }
    }
  }

  lemma SamePrefix(a: seq<Row>, b: seq<Row>, c: seq<Row>)
    ensures a + b == a + c <==> b == c
  {
    if a + b == a + c {
      assert b == (a + b)[|a|..] && c == (a + c)[|a|..];
    }
  }

  /** Pages start at the multiples of the page size. */
  predicate PageStart(p: nat, limit: nat)
    requires limit > 0
  {
    p == 0 || (p >= limit && PageStart(p - limit, limit))
  }

  function PageOf(rows: seq<Row>, p: nat, limit: nat): seq<Row>
    requires p <= |rows|
  {
    rows[p..p + Min(limit, |rows| - p)]
  }

  /** So the condition can be read off the table. */
  lemma NoGapExactly(rows: seq<Row>, limit: nat)
    requires limit > 0
    ensures NoGap(rows, limit)
       <==> forall p :: 0 <= p < |rows| && PageStart(p, limit) && NoneValid(PageOf(rows, p, limit)) ==> NoneValid(rows[p..])
  {
    if NoGap(rows, limit) {
      forall p | 0 <= p < |rows| && PageStart(p, limit) && NoneValid(PageOf(rows, p, limit)) ensures NoneValid(rows[p..]) {
        GapAt(rows, limit, p);
      }
    }
    if forall p :: 0 <= p < |rows| && PageStart(p, limit) && NoneValid(PageOf(rows, p, limit)) ==> NoneValid(rows[p..]) {
      GapNowhere(rows, limit);
    }
  }

  lemma {:induction false} GapAt(rows: seq<Row>, limit: nat, p: nat)
    requires limit > 0 && p < |rows| && PageStart(p, limit) && NoGap(rows, limit)
    requires NoneValid(PageOf(rows, p, limit))
    ensures NoneValid(rows[p..])
    decreases |rows|
  {
    var n := Min(limit, |rows|);
    if p == 0 {
      assert PageOf(rows, 0, limit) == rows[..n] && rows[0..] == rows;
      JoinNone(rows, n);
    } else {
      assert n == limit && p - n >= 0 && PageStart(p - n, limit);
      PageShift(rows, limit, p - n);
      if NoneValid(rows[..n]) {
        NoneAfter(rows[n..], p - n);
      } else {
        GapAt(rows[n..], limit, p - n);
      }
    }
  }

  lemma {:induction false} GapNowhere(rows: seq<Row>, limit: nat)
    requires limit > 0
    requires forall p :: 0 <= p < |rows| && PageStart(p, limit) && NoneValid(PageOf(rows, p, limit)) ==> NoneValid(rows[p..])
    ensures NoGap(rows, limit)
    decreases |rows|
  {
    if rows != [] {
      var n := Min(limit, |rows|);
      var rest := rows[n..];
      if NoneValid(rows[..n]) {
        assert PageStart(0, limit) && PageOf(rows, 0, limit) == rows[..n] && rows[0..] == rows;
        forall k | 0 <= k < |rest| ensures !Valid(rest[k]) { assert rest[k] == rows[n + k]; }
      } else {
        forall p | 0 <= p < |rest| && PageStart(p, limit) && NoneValid(PageOf(rest, p, limit)) ensures NoneValid(rest[p..]) {
          PageShift(rows, limit, p);
        }
        GapNowhere(rest, limit);
      }
    }
  }

  lemma PageShift(rows: seq<Row>, limit: nat, p: nat)
    requires limit > 0 && p < |rows[Min(limit, |rows|)..]| && PageStart(p, limit)
    ensures var n := Min(limit, |rows|); var rest := rows[n..];
            && PageStart(p + n, limit) && p + n < |rows|
            && PageOf(rest, p, limit) == PageOf(rows, p + n, limit) && rest[p..] == rows[p + n..]
  {
    var n := Min(limit, |rows|);
    assert n == limit;
    SliceShift(rows, n, p, p + Min(limit, |rows| - n - p));
    SliceShift(rows, n, p, |rows| - n);
    assert rows[n..][p..|rows| - n] == rows[n..][p..] && rows[n + p..n + (|rows| - n)] == rows[n + p..];
  }

  lemma SliceShift(rows: seq<Row>, n: nat, i: nat, j: nat)
    requires i <= j && n + j <= |rows|
    ensures rows[n..][i..j] == rows[n + i..n + j]
  {
  }

  lemma NoneAfter(rows: seq<Row>, p: nat)
    requires NoneValid(rows) && p <= |rows|
    ensures NoneValid(rows[p..])
  {
  }

  lemma JoinNone(rows: seq<Row>, n: nat)
    requires n <= |rows| && NoneValid(rows[..n]) && NoneValid(rows[n..])
    ensures NoneValid(rows)
  {
  }

  /** A page of malformed hashes hides everything behind it. */
  lemma MalformedPageHides(bad: Row, good: Row)
    requires !Valid(bad) && Valid(good)
    ensures Drained([bad, good], 1) == [] && ValidRows([bad, good]) == [good]
  {
    var rows := [bad, good];
    assert rows[..1] == [bad] && rows[1..] == [good];
    assert [bad][1..] == [] && [good][1..] == [];
    assert ValidRows([bad]) == [];
    assert ValidRows([good]) == [good];
  }

  // --------------------------------------------------------------------------------------
  // One document per torrent
  // --------------------------------------------------------------------------------------

  datatype Bag = Bag(hash: seq<Byte>, paths: seq<string>)

  /** The bags still to be emitted, given the pending one. */
  function Grouped(pend: Option<Bag>, docs: seq<Row>): (bags: seq<Bag>)
    ensures pend.Some? ==> bags != []
    decreases |docs|
  {
    if docs == [] then (if pend.Some? then [pend.value] else [])
    else
      var d := docs[0];
      match pend
      case Some(b) =>
        if b.hash == d.key.hash then Grouped(Some(b.(paths := b.paths + [d.path])), docs[1..])
        else [b] + Grouped(Some(Bag(d.key.hash, [d.path])), docs[1..])
      case None => Grouped(Some(Bag(d.key.hash, [d.path])), docs[1..])
  }

  /** The grouping loop. It emits whole bags only: with a limit, the first `limit` of them. */
  method GroupByTorrent(stream: DocStream, limit: nat) returns (bags: seq<Bag>)
    requires stream.Consistent()
    modifies stream
    ensures var all := Grouped(None, old(stream.Remaining())); bags == all[..Min(limit, |all|)]
  {
    var pend: Option<Bag> := None;
    bags := [];
    ghost var all := Grouped(None, stream.Remaining());
    ghost var todo := stream.Remaining();
    while |bags| < limit
      invariant stream.Consistent() && todo == stream.Remaining()
      invariant |bags| <= limit && bags + Grouped(pend, todo) == all
      decreases |todo|
    {
      var doc := stream.NextDoc();
      if doc.None? {
        if pend.Some? {
          bags := bags + [pend.value];
        }
        return;
      }
      assert todo[0] == doc.value && todo[1..] == stream.Remaining();
      todo := stream.Remaining();
      var d := doc.value;
      if pend.Some? && pend.value.hash == d.key.hash {
        pend := Some(pend.value.(paths := pend.value.paths + [d.path]));
      } else {
        if pend.Some? {
          FlushBag(bags, pend.value, Grouped(Some(Bag(d.key.hash, [d.path])), todo));
          bags := bags + [pend.value];
        }
        pend := Some(Bag(d.key.hash, [d.path]));
      }
    }
    assert all[..|bags|] == bags;
  }

  lemma FlushBag(bags: seq<Bag>, b: Bag, rest: seq<Bag>)
    ensures bags + ([b] + rest) == bags + [b] + rest
  {
  }

  // --------------------------------------------------------------------------------------
  // Grouping consecutive rows is a group-by
  // --------------------------------------------------------------------------------------

  /** The paths of one torrent, in the order of the rows. */
  function PathsOf(docs: seq<Row>, hash: seq<Byte>): seq<string> {
    if docs == [] then []
    else (if docs[0].key.hash == hash then [docs[0].path] else []) + PathsOf(docs[1..], hash)
  }

  ghost predicate Occurs(docs: seq<Row>, hash: seq<Byte>) {
    exists k :: 0 <= k < |docs| && docs[k].key.hash == hash
  }

  ghost predicate HasBag(bags: seq<Bag>, hash: seq<Byte>) {
    exists g :: 0 <= g < |bags| && bags[g].hash == hash
  }

  /** One bag per hash, holding all its paths in order. */
  ghost predicate IsGroupBy(bags: seq<Bag>, docs: seq<Row>) {
    && (forall g, h :: 0 <= g < h < |bags| ==> bags[g].hash != bags[h].hash)
    && (forall g :: 0 <= g < |bags| ==> Occurs(docs, bags[g].hash) && bags[g].paths == PathsOf(docs, bags[g].hash))
    && (forall hash :: Occurs(docs, hash) ==> HasBag(bags, hash))
  }

  /** Rows of one torrent are next to each other. */
  ghost predicate Contiguous(docs: seq<Row>) {
    forall i, j, k :: 0 <= i < j < k < |docs| && docs[i].key.hash == docs[k].key.hash ==>
                        docs[j].key.hash == docs[i].key.hash
  }

  lemma {:induction false} PathsOfConcat(a: seq<Row>, b: seq<Row>, hash: seq<Byte>)
    ensures PathsOf(a + b, hash) == PathsOf(a, hash) + PathsOf(b, hash)
  {
    if a == [] {
      assert a + b == b;
    } else {
      PathsOfConcat(a[1..], b, hash);
      assert (a + b)[1..] == a[1..] + b;
      Associative(if a[0].key.hash == hash then [a[0].path] else [], PathsOf(a[1..], hash), PathsOf(b, hash));
    }
  }

  lemma {:induction false} PathsOfNone(docs: seq<Row>, hash: seq<Byte>)
    requires !Occurs(docs, hash)
    ensures PathsOf(docs, hash) == []
  {
    if docs != [] {
      assert docs[0].key.hash != hash;
      assert !Occurs(docs[1..], hash) by {
        forall k | 0 <= k < |docs[1..]| ensures docs[1..][k].key.hash != hash {
          assert docs[1..][k] == docs[k + 1];
        }
      }
      PathsOfNone(docs[1..], hash);
    }
  }

  /** `pre` holds the rows of the pending bag. */
  ghost predicate Pending(b: Bag, pre: seq<Row>) {
    pre != [] && (forall k :: 0 <= k < |pre| ==> pre[k].key.hash == b.hash) && PathsOf(pre, b.hash) == b.paths
  }

  lemma PendingOne(d: Row)
    ensures Pending(Bag(d.key.hash, [d.path]), [d])
  {
  }

  lemma PendingMore(b: Bag, pre: seq<Row>, d: Row)
    requires Pending(b, pre) && d.key.hash == b.hash
    ensures Pending(b.(paths := b.paths + [d.path]), pre + [d])
  {
    PathsOfConcat(pre, [d], b.hash);
    assert [d][1..] == [];
  }

  lemma {:induction false} GroupedIsGroupBy(b: Bag, pre: seq<Row>, docs: seq<Row>)
    requires Pending(b, pre) && Contiguous(pre + docs)
    ensures IsGroupBy(Grouped(Some(b), docs), pre + docs)
    decreases |docs|
  {
    if docs == [] {
      assert pre + docs == pre;
      assert Occurs(pre, b.hash) by { assert pre[0].key.hash == b.hash; }
      var bags := [b];
      assert Grouped(Some(b), docs) == bags;
      assert HasBag(bags, b.hash) by { assert bags[0].hash == b.hash; }
    } else {
      var d := docs[0];
      if b.hash == d.key.hash {
        PendingMore(b, pre, d);
        assert pre + docs == (pre + [d]) + docs[1..];
        GroupedIsGroupBy(b.(paths := b.paths + [d.path]), pre + [d], docs[1..]);
      } else {
        PendingOne(d);
        assert docs == [d] + docs[1..];
        ContiguousTail(pre, docs);
        GroupedIsGroupBy(Bag(d.key.hash, [d.path]), [d], docs[1..]);
        NotAgain(b, pre, docs);
        AddBag(b, pre, docs, Grouped(Some(Bag(d.key.hash, [d.path])), docs[1..]));
      }
    }
  }

  lemma ContiguousTail(pre: seq<Row>, docs: seq<Row>)
    requires Contiguous(pre + docs)
    ensures Contiguous(docs)
  {
    var all := pre + docs;
    forall i, j, k | 0 <= i < j < k < |docs| && docs[i].key.hash == docs[k].key.hash
      ensures docs[j].key.hash == docs[i].key.hash
    {
      assert all[|pre| + i] == docs[i] && all[|pre| + j] == docs[j] && all[|pre| + k] == docs[k];
    }
  }

  lemma NotAgain(b: Bag, pre: seq<Row>, docs: seq<Row>)
    requires Pending(b, pre) && Contiguous(pre + docs) && docs != [] && docs[0].key.hash != b.hash
    ensures !Occurs(docs, b.hash)
  {
    var all := pre + docs;
    forall k | 0 <= k < |docs| ensures docs[k].key.hash != b.hash {
      assert all[0] == pre[0] && all[|pre|] == docs[0] && all[|pre| + k] == docs[k];
    }
  }

  lemma AddBag(b: Bag, pre: seq<Row>, docs: seq<Row>, rest: seq<Bag>)
    requires Pending(b, pre) && !Occurs(docs, b.hash) && IsGroupBy(rest, docs)
    ensures IsGroupBy([b] + rest, pre + docs)
  {
    var bags, all := [b] + rest, pre + docs;
    forall hash | Occurs(all, hash) ensures HasBag(bags, hash) {
      var k :| 0 <= k < |all| && all[k].key.hash == hash;
      if k < |pre| {
        assert pre[k] == all[k] && bags[0].hash == hash;
      } else {
        assert docs[k - |pre|] == all[k];
        assert HasBag(rest, hash);
        var g :| 0 <= g < |rest| && rest[g].hash == hash;
        assert bags[g + 1].hash == hash;
      }
    }
    forall g | 0 <= g < |bags| ensures Occurs(all, bags[g].hash) && bags[g].paths == PathsOf(all, bags[g].hash) {
      PathsOfConcat(pre, docs, bags[g].hash);
      if g == 0 {
        assert all[0] == pre[0];
        PathsOfNone(docs, b.hash);
      } else {
        assert bags[g] == rest[g - 1];
        OccursLater(pre, docs, bags[g].hash);
        assert bags[g].hash != b.hash;
        PathsOfNone(pre, bags[g].hash);
      }
    }
    forall g, h | 0 <= g < h < |bags| ensures bags[g].hash != bags[h].hash {
      assert bags[h] == rest[h - 1] && Occurs(docs, rest[h - 1].hash);
    }
  }

  lemma OccursLater(pre: seq<Row>, docs: seq<Row>, hash: seq<Byte>)
    requires Occurs(docs, hash)
    ensures Occurs(pre + docs, hash)
  {
    var k :| 0 <= k < |docs| && docs[k].key.hash == hash;
    assert (pre + docs)[|pre| + k] == docs[k];
  }

  // --------------------------------------------------------------------------------------
  // From the table to the bags
  // --------------------------------------------------------------------------------------

  lemma {:induction false} ValidRowsOrdered(rows: seq<Row>)
    requires Ordered(rows)
    ensures Ordered(ValidRows(rows))
    ensures forall k :: 0 <= k < |ValidRows(rows)| ==> ValidRows(rows)[k] in rows
  {
    if rows != [] {
      assert Ordered(rows[1..]) by {
        forall i, j | 0 <= i < j < |rows[1..]| ensures KeyLess(rows[1..][i].key, rows[1..][j].key) {
          assert KeyLess(rows[i + 1].key, rows[j + 1].key);
        }
      }
      ValidRowsOrdered(rows[1..]);
      var r, v := rows[0], ValidRows(rows[1..]);
      if Valid(r) {
        forall i, j | 0 <= i < j < |[r] + v| ensures KeyLess(([r] + v)[i].key, ([r] + v)[j].key) {
          if i == 0 {
            assert v[j - 1] in rows[1..];
            var k :| 0 <= k < |rows[1..]| && rows[1..][k] == v[j - 1];
            assert KeyLess(rows[0].key, rows[k + 1].key);
          } else {
            assert KeyLess(v[i - 1].key, v[j - 1].key);
          }
        }
      }
    }
  }

  lemma OrderedIsContiguous(docs: seq<Row>)
    requires Ordered(docs)
    ensures Contiguous(docs)
  {
    forall i, j, k | 0 <= i < j < k < |docs| && docs[i].key.hash == docs[k].key.hash
      ensures docs[j].key.hash == docs[i].key.hash
    {
      assert KeyLess(docs[i].key, docs[j].key) && KeyLess(docs[j].key, docs[k].key);
      BytesAsymmetric(docs[i].key.hash, docs[j].key.hash);
    }
  }

  /** Run to the end over a table without a hiding page, the loop emits one bag per torrent with all
      its paths in index order. */
  lemma StreamIsGroupBy(table: seq<Row>, limit: nat)
    requires limit > 0 && Ordered(table) && NoGap(table, limit)
    ensures IsGroupBy(Grouped(None, Drained(table, limit)), ValidRows(table))
  {
    CompleteExactly(table, limit);
    var docs := ValidRows(table);
    ValidRowsOrdered(table);
    OrderedIsContiguous(docs);
    if docs != [] {
      PendingOne(docs[0]);
      assert docs == [docs[0]] + docs[1..];
      GroupedIsGroupBy(Bag(docs[0].key.hash, [docs[0].path]), [docs[0]], docs[1..]);
    }
  }

  method IndexPerTorrent(table: seq<Row>, page: nat, limitDocs: nat) returns (bags: seq<Bag>)
    requires Ordered(table)
    ensures var all := Grouped(None, Drained(table, page)); bags == all[..Min(limitDocs, |all|)]
  {
    var stream := new DocStream(table, page);
    bags := GroupByTorrent(stream, limitDocs);
  }
}
