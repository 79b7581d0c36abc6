/** The write set of one replayed classification, in a canonical form that depends only on sets. */
module TapeRerun {
  import opened Options
  import opened Strings
  import opened Processor

  // --------------------------------------------------------------------------------------
  // Sorted lists without duplicates
  // --------------------------------------------------------------------------------------

  predicate NonDecreasing(s: seq<string>) {
    forall i, j :: 0 <= i < j < |s| ==> !Less(s[j], s[i])
  }

  predicate Increasing(s: seq<string>) {
    forall i, j :: 0 <= i < j < |s| ==> Less(s[i], s[j])
  }

  function Insert(x: string, s: seq<string>): (r: seq<string>)
    ensures multiset(r) == multiset(s) + multiset{x}
  {
    if s == [] || Less(x, s[0]) then [x] + s
    else
      assert s == [s[0]] + s[1..];
      [s[0]] + Insert(x, s[1..])
  }

  function Sort(s: seq<string>): (r: seq<string>)
    ensures multiset(r) == multiset(s)
  {
    if s == [] then []
    else
      assert s == [s[0]] + s[1..];
      Insert(s[0], Sort(s[1..]))
  }

  lemma {:induction false} InsertKeepsOrder(x: string, s: seq<string>)
    requires NonDecreasing(s)
    ensures NonDecreasing(Insert(x, s))
  {
    if s == [] {
    } else if Less(x, s[0]) {
      forall j | 0 <= j < |s| ensures !Less(s[j], x) {
        LessTotal(s[j], x);
        if Less(s[j], x) {
          LessTransitive(s[j], x, s[0]);
          LessTotal(s[0], s[j]);
        }
      }
    } else {
      InsertKeepsOrder(x, s[1..]);
      var r := Insert(x, s[1..]);
      forall j | 0 <= j < |r| ensures !Less(r[j], s[0]) {
        LessIrreflexive(s[0]);
        assert r[j] in multiset(r);
        assert r[j] in multiset(s[1..]) + multiset{x};
        if r[j] != x {
          assert r[j] in s[1..];
          var k :| 0 <= k < |s[1..]| && s[1..][k] == r[j];
          assert s[k + 1] == r[j];
        }
      }
    }
  }

  lemma {:induction false} SortSorts(s: seq<string>)
    ensures NonDecreasing(Sort(s))
  {
    if s != [] {
      SortSorts(s[1..]);
      InsertKeepsOrder(s[0], Sort(s[1..]));
    }
  }

  /** Runs of equal values become one value. */
  function Dedupe(s: seq<string>): (r: seq<string>)
    ensures |r| <= |s| && (s != [] ==> r != [] && r[|r| - 1] == s[|s| - 1])
  {
    if |s| < 2 then s
    else
      var r := Dedupe(s[..|s| - 1]);
      if s[|s| - 1] == r[|r| - 1] then r else r + [s[|s| - 1]]
  }

  /** In place: values are read from the array that the result is written to. */
  method DedupeSortedTapeRerunStrings(values: array<string>) returns (w: nat)
    modifies values
    ensures w <= values.Length && values[..w] == Dedupe(old(values[..]))
  {
    if values.Length < 2 {
      assert values[..values.Length] == values[..];
      return values.Length;
    }
    w := 1;
    assert values[..1] == [values[0]] && old(values[..])[..1] == [values[0]];
    for i := 1 to values.Length
      invariant 1 <= w <= i
      invariant values[..w] == Dedupe(old(values[..])[..i])
      invariant forall k :: i <= k < values.Length ==> values[k] == old(values[..])[k]
    {
      var value := values[i];
      assert old(values[..])[..i + 1][..i] == old(values[..])[..i];
      assert values[..w][w - 1] == values[w - 1];
      if value != values[w - 1] {
        ghost var before := values[..w];
        values[w] := value;
        assert values[..w] == before && values[..w + 1] == before + [value];
        w := w + 1;
      }
    }
    assert old(values[..])[..values.Length] == old(values[..]);
  }

  lemma {:induction false} DedupeMembers(s: seq<string>, x: string)
    ensures x in Dedupe(s) <==> x in s
    decreases |s|
  {
    if |s| >= 2 {
      var init := s[..|s| - 1];
      DedupeMembers(init, x);
      assert s == init + [s[|s| - 1]];
    }
  }

  lemma {:induction false} DedupeIncreases(s: seq<string>)
    requires NonDecreasing(s)
    ensures Increasing(Dedupe(s))
    decreases |s|
  {
    if |s| >= 2 {
      var init, x := s[..|s| - 1], s[|s| - 1];
      DedupeIncreases(init);
      var r := Dedupe(init);
      if x != r[|r| - 1] {
        forall i | 0 <= i < |r| ensures Less(r[i], x) {
          LastIsLarger(s, r, i);
        }
      }
    }
  }

  lemma LastIsLarger(s: seq<string>, r: seq<string>, i: nat)
    requires |s| >= 2 && NonDecreasing(s) && r == Dedupe(s[..|s| - 1]) && Increasing(r)
    requires s[|s| - 1] != r[|r| - 1] && i < |r|
    ensures Less(r[i], s[|s| - 1])
  {
    var x, last := s[|s| - 1], r[|r| - 1];
    assert last == s[|s| - 2];
    assert !Less(x, last);
    LessTotal(last, x);
    if i < |r| - 1 {
      LessTransitive(r[i], last, x);
    }
  }

  function Canon(s: seq<string>): seq<string> {
    Dedupe(Sort(s))
  }

  ghost predicate SameElements(s: seq<string>, t: seq<string>) {
    forall x :: x in s <==> x in t
  }

  /** The canonical form is increasing and has the same elements. */
  lemma CanonIs(s: seq<string>)
    ensures Increasing(Canon(s)) && SameElements(Canon(s), s)
  {
    SortSorts(s);
    DedupeIncreases(Sort(s));
    forall x ensures x in Canon(s) <==> x in s {
      DedupeMembers(Sort(s), x);
      assert x in Sort(s) <==> x in multiset(Sort(s));
      assert x in s <==> x in multiset(s);
    }
  }

  /** A set has one increasing listing. */
  lemma {:induction false} IncreasingIsUnique(s: seq<string>, t: seq<string>)
    requires Increasing(s) && Increasing(t) && SameElements(s, t)
    ensures s == t
    decreases |s|
  {
    if s == [] {
      NoMembers(t);
    } else {
      assert s[0] in t;
      FirstsAgree(s, t);
      RestsAgree(s, t);
      IncreasingIsUnique(s[1..], t[1..]);
      assert s == [s[0]] + s[1..] && t == [t[0]] + t[1..];
    }
  }

  lemma FirstsAgree(s: seq<string>, t: seq<string>)
    requires Increasing(s) && Increasing(t) && SameElements(s, t) && s != [] && t != []
    ensures s[0] == t[0]
  {
    assert s[0] in t && t[0] in s;
    var i :| 0 <= i < |t| && t[i] == s[0];
    var j :| 0 <= j < |s| && s[j] == t[0];
    LessTotal(s[0], t[0]);
  }

  lemma RestsAgree(s: seq<string>, t: seq<string>)
    requires Increasing(s) && Increasing(t) && SameElements(s, t) && s != [] && t != [] && s[0] == t[0]
    ensures Increasing(s[1..]) && Increasing(t[1..]) && SameElements(s[1..], t[1..])
  {
    forall x ensures x in s[1..] <==> x in t[1..] {
      InRest(s, x);
      InRest(t, x);
    }
  }

  lemma InRest(s: seq<string>, x: string)
    requires Increasing(s) && s != []
    ensures x in s[1..] <==> x in s && x != s[0]
  {
    LessIrreflexive(s[0]);
    if x in s[1..] {
      var k :| 0 <= k < |s[1..]| && s[1..][k] == x;
      assert s[k + 1] == x;
    }
    if x in s && x != s[0] {
      var k :| 0 <= k < |s| && s[k] == x;
      assert s[1..][k - 1] == x;
    }
  }

  /** Two lists have the same canonical form exactly if they have the same elements. */
  lemma CanonExactly(s: seq<string>, t: seq<string>)
    ensures Canon(s) == Canon(t) <==> SameElements(s, t)
  {
    CanonIs(s);
    CanonIs(t);
    if SameElements(s, t) {
      IncreasingIsUnique(Canon(s), Canon(t));
    }
  }

  method CanonicalList(values: seq<string>) returns (r: seq<string>)
    ensures r == Canon(values)
  {
    var sorted := Sort(values);
    var a := new string[|sorted|](i requires 0 <= i < |sorted| => sorted[i]);
    assert a[..] == sorted;
    var w := DedupeSortedTapeRerunStrings(a);
    r := a[..w];
  }

  // --------------------------------------------------------------------------------------
  // The write set
  // --------------------------------------------------------------------------------------

  datatype Kind = RecordDeleted | RecordUnmatched | RecordCompleted | RecordOther

  /** A replayed record; `existingIds` is the processor state, which may be missing, `id` the id
      inferred for the torrent's content row, and `content` the attached content, if any. */
  datatype Replay = Replay(
    hash: Hash, kind: Kind, existingIds: Option<seq<string>>, id: string, content: Option<string>, tags: set<string>)

  datatype WriteSet = WriteSet(
    contents: seq<string>, torrentContents: seq<(Hash, string)>, deleteIds: seq<string>, deleteHashes: seq<Hash>,
    addTags: map<Hash, seq<string>>, failedHashes: seq<Hash>)

  method MaterializeTapeRerun(r: Replay) returns (ws: Option<WriteSet>)
    ensures ws.None? <==> r.kind == RecordOther || (r.kind == RecordCompleted && r.existingIds.None?)
    ensures ws.Some? ==> IsWriteSet(r, ws.value)
  {
    var contents: seq<string>, torrentContents: seq<(Hash, string)> := [], [];
    var deleteIds: seq<string>, deleteHashes: seq<Hash>, failed: seq<Hash> := [], [], [];
    var addTags: map<Hash, seq<string>> := map[];
    match r.kind {
      case RecordDeleted => deleteHashes := [r.hash];
      case RecordUnmatched => failed := [r.hash];
      case RecordCompleted =>
        if r.existingIds.None? {
          return None;
        }
        torrentContents := [(r.hash, r.id)];
        if r.content.Some? {
          contents := [r.content.value];
        }
        deleteIds := Others(r.existingIds.value, r.id);
        if r.tags != {} {
          var tags := AnyOrder(r.tags);
          tags := CanonicalTags(tags, r.tags);
          addTags := map[r.hash := tags];
        }
      case RecordOther => return None;
    }
    ghost var before := deleteIds;
    deleteIds := CanonicalList(deleteIds);
    CanonIs(before);
    deleteHashes := CanonicalList(deleteHashes);
    failed := CanonicalList(failed);
    CanonOne(r.hash);
    ws := Some(WriteSet(contents, torrentContents, deleteIds, deleteHashes, addTags, failed));
  }

  lemma CanonOne(x: string)
    ensures Canon([x]) == [x] && Canon([]) == []
  {
  }

  method CanonicalTags(tags: seq<string>, ghost elements: set<string>) returns (r: seq<string>)
    requires forall x :: x in tags <==> x in elements
    ensures Increasing(r) && forall x :: x in r <==> x in elements
  {
    CanonIs(tags);
    r := CanonicalList(tags);
  }

  method Others(ids: seq<string>, keep: string) returns (r: seq<string>)
    ensures forall x :: x in r <==> x in ids && x != keep
  {
    r := [];
    for i := 0 to |ids|
      invariant forall x :: x in r <==> x in ids[..i] && x != keep
    {
      if ids[i] != keep {
        r := r + [ids[i]];
      }
    }
  }

  method AnyOrder(s: set<string>) returns (values: seq<string>)
    ensures forall x :: x in values <==> x in s
  {
    values := [];
    var rest := s;
    while rest != {}
      invariant rest <= s && forall x :: x in values <==> x in s - rest
      decreases |rest|
    {
      var x :| x in rest;
      values, rest := values + [x], rest - {x};
    }
  }

  /** What the write set of a replay is; every list is determined by this. */
  ghost predicate IsWriteSet(r: Replay, ws: WriteSet) {
    && ws.contents == (if r.kind == RecordCompleted && r.content.Some? then [r.content.value] else [])
    && ws.torrentContents == (if r.kind == RecordCompleted then [(r.hash, r.id)] else [])
    && ws.deleteHashes == (if r.kind == RecordDeleted then [r.hash] else [])
    && ws.failedHashes == (if r.kind == RecordUnmatched then [r.hash] else [])
    && Increasing(ws.deleteIds)
    && (forall x :: x in ws.deleteIds <==>
          r.kind == RecordCompleted && r.existingIds.Some? && x in r.existingIds.value && x != r.id)
    && ws.addTags.Keys == (if r.kind == RecordCompleted && r.tags != {} then {r.hash} else {})
    && (r.hash in ws.addTags ==>
          Increasing(ws.addTags[r.hash]) && forall x :: x in ws.addTags[r.hash] <==> x in r.tags)
  }

  /** There is one such write set. */
  lemma WriteSetIsUnique(r: Replay, a: WriteSet, b: WriteSet)
    requires IsWriteSet(r, a) && IsWriteSet(r, b)
    ensures a == b
  {
    IncreasingIsUnique(a.deleteIds, b.deleteIds);
    if r.hash in a.addTags {
      IncreasingIsUnique(a.addTags[r.hash], b.addTags[r.hash]);
    }
    assert a.addTags == b.addTags;
  }

  // --------------------------------------------------------------------------------------
  // The write set is what the processor accumulates
  // --------------------------------------------------------------------------------------

  function OutcomeOf(r: Replay): Outcome {
    match r.kind
    case RecordCompleted => Classified(r.id, r.tags)
    case RecordDeleted => Delete
    case _ => Fail
  }

  function TorrentOf(r: Replay): Torrent {
    Torrent(r.hash, if r.existingIds.Some? then r.existingIds.value else [])
  }

  /** The recorded tags, list by list, as sets. */
  function TagSets(ws: WriteSet): map<Hash, set<string>> {
    map h | h in ws.addTags :: (set x | x in ws.addTags[h])
  }

  /** For one torrent the replay writes what the processor would. */
  lemma ReplayMatchesProcess(r: Replay, ws: WriteSet, classify: Classifier)
    requires r.kind != RecordOther && IsWriteSet(r, ws) && classify(TorrentOf(r)) == OutcomeOf(r)
    requires r.kind == RecordCompleted ==> r.existingIds.Some?
    ensures var order := [TorrentOf(r)];
            && ws.deleteHashes == HashesOf(classify, IsDeleted, order)
            && ws.failedHashes == HashesOf(classify, IsFailed, order)
            && |ws.torrentContents| == |HashesOf(classify, IsClassified, order)|
            && (ws.torrentContents != [] ==> ws.torrentContents[0].0 == HashesOf(classify, IsClassified, order)[0])
            && (forall id :: id in ws.deleteIds <==> SomeStale(classify, order, id))
    ensures TagsAre(classify, [TorrentOf(r)], TagSets(ws))
  {
  }

}
