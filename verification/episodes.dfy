/** Printing which seasons and episodes a torrent holds, and reading the print back. */
module Episodes {
  import opened Options

  /** Seasons with their episodes; a season without episodes is held whole. */
  type Held = map<int, set<int>>

  predicate HasEpisode(e: Held, season: int, episode: int) {
    season in e && (e[season] == {} || episode in e[season])
  }

  predicate Increasing(s: seq<int>) {
    forall i, j :: 0 <= i < j < |s| ==> s[i] < s[j]
  }

  // --------------------------------------------------------------------------------------
  // Contiguous ranges
  // --------------------------------------------------------------------------------------

  datatype Range = Range(start: int, end: int)

  predicate In(x: int, r: Range) {
    r.start <= x <= r.end
  }

  predicate InSome(x: int, rs: seq<Range>) {
    exists k :: 0 <= k < |rs| && In(x, rs[k])
  }

  /** Non-empty ranges in order, none touching the next: each is maximal. */
  predicate Separate(rs: seq<Range>) {
    && (forall k :: 0 <= k < |rs| ==> rs[k].start <= rs[k].end)
    && (forall j, k :: 0 <= j < k < |rs| ==> rs[j].end + 1 < rs[k].start)
  }

  /** The ranges of a list of numbers. */
  ghost predicate RangesOf(rs: seq<Range>, ordered: seq<int>) {
    Separate(rs) && forall x :: x in ordered <==> InSome(x, rs)
  }

  lemma InSomeSnoc(rs: seq<Range>, r: Range, x: int)
    ensures InSome(x, rs + [r]) <==> InSome(x, rs) || In(x, r)
  {
    var rs' := rs + [r];
    if InSome(x, rs) {
      var k :| 0 <= k < |rs| && In(x, rs[k]);
      assert rs'[k] == rs[k];
    }
    assert rs'[|rs|] == r;
  }

  /** For an empty list the loop leaves its zero value, one range from 0 to 0. */
  method GetContiguousRanges(ordered: seq<int>) returns (rs: seq<Range>)
    requires Increasing(ordered)
    ensures ordered == [] ==> rs == [Range(0, 0)]
    ensures ordered != [] ==> RangesOf(rs, ordered)
  {
    rs := [];
    var current := Range(0, 0);
    for i := 0 to |ordered|
      invariant i == 0 ==> rs == [] && current == Range(0, 0)
      invariant i > 0 ==> current.end == ordered[i - 1] && RangesOf(rs + [current], ordered[..i])
    {
      var v := ordered[i];
      assert ordered[..i + 1] == ordered[..i] + [v];
      if i == 0 {
        current := Range(v, v);
        FirstRange(v);
        assert ordered[..1] == [v] && [] + [current] == [current];
        continue;
      }
      assert ordered[i - 1] < v;
      if v == current.end + 1 {
        ExtendRange(rs, current, ordered[..i], v);
        current := Range(current.start, v);
        continue;
      }
      NextRange(rs + [current], ordered[..i], v);
      rs := rs + [current];
      current := Range(v, v);
    }
    rs := rs + [current];
    assert ordered[..|ordered|] == ordered;
  }

  lemma FirstRange(v: int)
    ensures RangesOf([Range(v, v)], [v])
  {
    forall x ensures x in [v] <==> InSome(x, [Range(v, v)]) {
      InSomeSnoc([], Range(v, v), x);
      assert [] + [Range(v, v)] == [Range(v, v)];
    }
  }

  lemma ExtendRange(rs: seq<Range>, current: Range, ordered: seq<int>, v: int)
    requires RangesOf(rs + [current], ordered) && v == current.end + 1
    ensures RangesOf(rs + [Range(current.start, v)], ordered + [v])
  {
    var before, after := rs + [current], rs + [Range(current.start, v)];
    assert before[|rs|] == current;
    forall j, k | 0 <= j < k < |after| ensures after[j].end + 1 < after[k].start {
      assert before[j].end + 1 < before[k].start;
    }
    forall k | 0 <= k < |after| ensures after[k].start <= after[k].end {
      assert before[k].start <= before[k].end;
    }
    forall x ensures x in ordered + [v] <==> InSome(x, after) {
      InSomeSnoc(rs, current, x);
      InSomeSnoc(rs, Range(current.start, v), x);
    }
  }

  lemma NextRange(rs: seq<Range>, ordered: seq<int>, v: int)
    requires RangesOf(rs, ordered) && rs != [] && rs[|rs| - 1].end + 1 < v
    ensures RangesOf(rs + [Range(v, v)], ordered + [v])
  {
    var after := rs + [Range(v, v)];
    forall j, k | 0 <= j < k < |after| ensures after[j].end + 1 < after[k].start {
      if k == |rs| && j < |rs| - 1 {
        assert rs[j].end + 1 < rs[|rs| - 1].start;
      }
    }
    forall x ensures x in ordered + [v] <==> InSome(x, after) {
      InSomeSnoc(rs, Range(v, v), x);
    }
  }

  // --------------------------------------------------------------------------------------
  // Sorted entries
  // --------------------------------------------------------------------------------------

  datatype Season = Season(season: int, episodes: seq<int>)

  function Insert(x: int, s: seq<int>): seq<int> {
    if s == [] || x < s[0] then [x] + s else [s[0]] + Insert(x, s[1..])
  }

  lemma {:induction false} InsertIs(x: int, s: seq<int>)
    requires Increasing(s) && x !in s
    ensures Increasing(Insert(x, s)) && forall y :: y in Insert(x, s) <==> y == x || y in s
  {
    if s != [] && x >= s[0] {
      InsertIs(x, s[1..]);
      var r := Insert(x, s[1..]);
      forall j | 0 <= j < |r| ensures s[0] < r[j] {
        assert r[j] in r;
      }
      assert s == [s[0]] + s[1..];
    }
  }

  /** The iteration over a map takes its keys in any order. */
  method Pick<T(==)>(s: set<T>) returns (x: T)
    requires s != {}
    ensures x in s
  {
    x :| x in s;
  }

  /** Collecting a set in any order and sorting it. */
  method Sorted(s: set<int>) returns (r: seq<int>)
    ensures Increasing(r) && forall x :: x in r <==> x in s
  {
    r := [];
    var todo := s;
    while todo != {}
      invariant todo <= s && Increasing(r)
      invariant forall x :: x in r ==> x in s && x !in todo
      invariant forall x :: x in s && x !in todo ==> x in r
      decreases |todo|
    {
      var x := Pick(todo);
      InsertIs(x, r);
      r, todo := Insert(x, r), todo - {x};
    }
  }

  /** The seasons of a map in order, each with its episodes in order. */
  ghost predicate EntriesOf(entries: seq<Season>, e: Held) {
    && (forall i, j :: 0 <= i < j < |entries| ==> entries[i].season < entries[j].season)
    && (forall k :: 0 <= k < |entries| ==>
          && entries[k].season in e && Increasing(entries[k].episodes)
          && forall x :: x in entries[k].episodes <==> x in e[entries[k].season])
    && (forall s :: s in e ==> HasEntry(entries, s))
  }

  predicate HasEntry(entries: seq<Season>, s: int) {
    exists k :: 0 <= k < |entries| && entries[k].season == s
  }

  method SeasonEntries(e: Held) returns (entries: seq<Season>)
    ensures EntriesOf(entries, e)
  {
    var seasons := Sorted(e.Keys);
    entries := [];
    for i := 0 to |seasons|
      invariant |entries| == i
      invariant forall k :: 0 <= k < i ==>
                  && entries[k].season == seasons[k] && seasons[k] in e && Increasing(entries[k].episodes)
                  && forall x :: x in entries[k].episodes <==> x in e[seasons[k]]
    {
      assert seasons[i] in seasons;
      assert seasons[i] in e.Keys;
      var episodes := Sorted(e[seasons[i]]);
      entries := entries + [Season(seasons[i], episodes)];
    }
    forall s | s in e ensures HasEntry(entries, s) {
      assert s in e.Keys;
      var k :| 0 <= k < |seasons| && seasons[k] == s;
      assert entries[k].season == s;
    }
  }

  // --------------------------------------------------------------------------------------
  // Parts
  // --------------------------------------------------------------------------------------

  /** A range of whole seasons, or some episodes of one season. */
  datatype Part = Whole(range: Range) | Partly(season: int, episodes: seq<Range>)

  predicate Covers(p: Part, s: int) {
    match p
    case Whole(r) => In(s, r)
    case Partly(season, _) => season == s
  }

  function FirstSeason(p: Part): int {
    match p
    case Whole(r) => r.start
    case Partly(season, _) => season
  }

  predicate IsWhole(e: Held, s: int) {
    s in e && e[s] == {}
  }

  /** The parts say exactly what is held: every season is covered once; a range of whole seasons is
      maximal; the episodes of a season are given by maximal ranges. */
  ghost predicate Denotes(parts: seq<Part>, e: Held) {
    && (forall s :: s in e <==> exists k :: 0 <= k < |parts| && Covers(parts[k], s))
    && (forall j, k, s :: 0 <= j < k < |parts| && Covers(parts[j], s) ==> !Covers(parts[k], s))
    && (forall j, k :: 0 <= j < k < |parts| ==> FirstSeason(parts[j]) < FirstSeason(parts[k]))
    && (forall k :: 0 <= k < |parts| ==> PartRight(parts[k], e))
  }

  ghost predicate PartRight(p: Part, e: Held) {
    match p
    case Whole(r) =>
      && r.start <= r.end && (forall s :: In(s, r) ==> IsWhole(e, s))
      && !IsWhole(e, r.start - 1) && !IsWhole(e, r.end + 1)
    case Partly(s, rs) =>
      s in e && e[s] != {} && Separate(rs) && forall x :: x in e[s] <==> InSome(x, rs)
  }

  /** What the map of parts holds for the seasons of the entries. */
  ghost predicate MapRight(pm: map<int, Part>, entries: seq<Season>, ranges: seq<Range>, n: nat)
    requires n <= |entries|
  {
    && (forall k :: 0 <= k < n && entries[k].episodes != [] ==>
          && entries[k].season in pm && pm[entries[k].season].Partly?
          && pm[entries[k].season].season == entries[k].season
          && RangesOf(pm[entries[k].season].episodes, entries[k].episodes))
    && (forall k :: 0 <= k < |entries| && entries[k].episodes == [] && entries[k].season in pm ==>
          exists j :: 0 <= j < |ranges| && pm[entries[k].season] == Whole(ranges[j]) && ranges[j].start == entries[k].season)
    && (forall k, j :: 0 <= k < |entries| && 0 <= j < |ranges| ==>
          entries[k].episodes == [] && ranges[j].start == entries[k].season ==> entries[k].season in pm)
  }

  method WholeSeasons(entries: seq<Season>) returns (whole: seq<int>)
    requires forall i, j :: 0 <= i < j < |entries| ==> entries[i].season < entries[j].season
    ensures Increasing(whole)
    ensures forall s :: s in whole <==> exists k :: 0 <= k < |entries| && entries[k].season == s && entries[k].episodes == []
  {
    whole := [];
    for i := 0 to |entries|
      invariant Increasing(whole)
      invariant forall j :: 0 <= j < |whole| ==> whole[j] in whole
      invariant forall s :: s in whole <==> exists k :: 0 <= k < i && entries[k].season == s && entries[k].episodes == []
    {
      if |entries[i].episodes| == 0 {
        whole := whole + [entries[i].season];
      }
    }
  }

  method RangeParts(entries: seq<Season>, ranges: seq<Range>) returns (pm: map<int, Part>)
    requires ranges == [Range(0, 0)] || Separate(ranges)
    ensures MapRight(pm, entries, ranges, 0)
  {
    pm := map[];
    for j := 0 to |ranges|
      invariant forall s :: s in pm ==> exists i :: 0 <= i < j && pm[s] == Whole(ranges[i]) && ranges[i].start == s
      invariant forall i :: 0 <= i < j ==> ranges[i].start in pm
    {
      pm := pm[ranges[j].start := Whole(ranges[j])];
    }
  }

  method EpisodeParts(pm0: map<int, Part>, entries: seq<Season>, ghost ranges: seq<Range>) returns (pm: map<int, Part>)
    requires MapRight(pm0, entries, ranges, 0)
    requires forall i, j :: 0 <= i < j < |entries| ==> entries[i].season < entries[j].season
    requires forall k :: 0 <= k < |entries| ==> Increasing(entries[k].episodes)
    ensures MapRight(pm, entries, ranges, |entries|)
  {
    pm := pm0;
    for k := 0 to |entries|
      invariant MapRight(pm, entries, ranges, k)
    {
      var en := entries[k];
      if |en.episodes| > 0 {
        var rs := GetContiguousRanges(en.episodes);
        ghost var before := pm;
        pm := pm[en.season := Partly(en.season, rs)];
        MapAdd(before, entries, ranges, k, rs);
      }
    }
  }

  lemma MapAdd(pm: map<int, Part>, entries: seq<Season>, ranges: seq<Range>, k: nat, rs: seq<Range>)
    requires k < |entries| && MapRight(pm, entries, ranges, k) && entries[k].episodes != []
    requires forall i, j :: 0 <= i < j < |entries| ==> entries[i].season < entries[j].season
    requires RangesOf(rs, entries[k].episodes)
    ensures MapRight(pm[entries[k].season := Partly(entries[k].season, rs)], entries, ranges, k + 1)
  {
  }

  ghost predicate Entry(entries: seq<Season>, s: int, whole: bool) {
    exists k :: 0 <= k < |entries| && entries[k].season == s && (entries[k].episodes == []) == whole
  }

  /** A part that the entries give rise to. */
  ghost predicate PartOf(p: Part, entries: seq<Season>, ranges: seq<Range>) {
    match p
    case Whole(r) => r in ranges && Entry(entries, r.start, true)
    case Partly(s, rs) =>
      exists k :: 0 <= k < |entries| && entries[k].season == s && entries[k].episodes != [] && RangesOf(rs, entries[k].episodes)
  }

  /** The parts in the order of the entries. */
  method CollectParts(pm: map<int, Part>, entries: seq<Season>, ghost ranges: seq<Range>) returns (parts: seq<Part>)
    requires MapRight(pm, entries, ranges, |entries|)
    requires forall i, j :: 0 <= i < j < |entries| ==> entries[i].season < entries[j].season
    ensures forall p :: p in parts ==> PartOf(p, entries, ranges)
    ensures forall j, k :: 0 <= j < k < |parts| ==> FirstSeason(parts[j]) < FirstSeason(parts[k])
    ensures forall k :: 0 <= k < |entries| && entries[k].season in pm ==> pm[entries[k].season] in parts
  {
    parts := [];
    for i := 0 to |entries|
      invariant forall p :: p in parts ==> PartOf(p, entries, ranges)
      invariant forall p :: p in parts ==> i > 0 && FirstSeason(p) <= entries[i - 1].season
      invariant forall j, k :: 0 <= j < k < |parts| ==> FirstSeason(parts[j]) < FirstSeason(parts[k])
      invariant forall k :: 0 <= k < i && entries[k].season in pm ==> pm[entries[k].season] in parts
    {
      var s := entries[i].season;
      if s in pm {
        PartAt(pm, entries, ranges, i);
        AddLast(parts, pm[s]);
        parts := parts + [pm[s]];
      }
    }
  }

  lemma AddLast(parts: seq<Part>, p: Part)
    requires forall j, k :: 0 <= j < k < |parts| ==> FirstSeason(parts[j]) < FirstSeason(parts[k])
    requires forall q :: q in parts ==> FirstSeason(q) < FirstSeason(p)
    ensures forall j, k :: 0 <= j < k < |parts + [p]| ==> FirstSeason((parts + [p])[j]) < FirstSeason((parts + [p])[k])
    ensures forall q :: q in parts + [p] <==> q in parts || q == p
  {
  }

  lemma AllThere(pm: map<int, Part>, parts: seq<Part>, entries: seq<Season>, ranges: seq<Range>)
    requires MapRight(pm, entries, ranges, |entries|)
    requires forall k :: 0 <= k < |entries| && entries[k].season in pm ==> pm[entries[k].season] in parts
    ensures forall k :: 0 <= k < |entries| && entries[k].episodes != [] ==>
              exists p :: p in parts && p.Partly? && p.season == entries[k].season
    ensures forall j :: 0 <= j < |ranges| && Entry(entries, ranges[j].start, true) ==>
              exists p :: p in parts && p.Whole? && p.range.start == ranges[j].start
  {
  }

  lemma PartAt(pm: map<int, Part>, entries: seq<Season>, ranges: seq<Range>, k: nat)
    requires MapRight(pm, entries, ranges, |entries|) && k < |entries| && entries[k].season in pm
    ensures PartOf(pm[entries[k].season], entries, ranges) && FirstSeason(pm[entries[k].season]) == entries[k].season
    ensures pm[entries[k].season].Whole? == (entries[k].episodes == [])
  {
  }

  /** From the entries to what is held. */
  lemma EntryTells(entries: seq<Season>, e: Held, s: int)
    requires EntriesOf(entries, e)
    ensures Entry(entries, s, true) <==> IsWhole(e, s)
    ensures Entry(entries, s, false) <==> s in e && e[s] != {}
  {
    if s in e {
      assert HasEntry(entries, s);
      var k :| 0 <= k < |entries| && entries[k].season == s;
      EmptyEpisodes(entries[k].episodes, e[s]);
      forall j | 0 <= j < |entries| && entries[j].season == s ensures j == k {}
    }
  }

  lemma SomeMember<T>(s: set<T>) returns (x: T)
    requires s != {}
    ensures x in s
  {
    x :| x in s;
  }

  lemma EmptyEpisodes(eps: seq<int>, es: set<int>)
    requires forall x :: x in eps <==> x in es
    ensures eps == [] <==> es == {}
  {
    if eps != [] {
      var x := eps[0];
      assert x in eps;
    }
    if es != {} {
      var x := SomeMember(es);
      assert x in eps;
    }
  }

  /** The parts denote what is held; `ranges` are the ranges of the whole seasons, or the zero range
      if there are none, which then gives no part. */
  lemma PartsDenote(parts: seq<Part>, entries: seq<Season>, ranges: seq<Range>, whole: seq<int>, e: Held)
    requires EntriesOf(entries, e)
    requires forall s :: s in whole <==> Entry(entries, s, true)
    requires if whole == [] then ranges == [Range(0, 0)] else RangesOf(ranges, whole)
    requires forall p :: p in parts ==> PartOf(p, entries, ranges)
    requires forall j, k :: 0 <= j < k < |parts| ==> FirstSeason(parts[j]) < FirstSeason(parts[k])
    requires forall k :: 0 <= k < |entries| && entries[k].episodes != [] ==>
               exists p :: p in parts && p.Partly? && p.season == entries[k].season
    requires forall j :: 0 <= j < |ranges| && Entry(entries, ranges[j].start, true) ==>
               exists p :: p in parts && p.Whole? && p.range.start == ranges[j].start
    ensures Denotes(parts, e)
  {
    forall k | 0 <= k < |parts| ensures PartRight(parts[k], e) {
      assert parts[k] in parts;
      OnePartRight(parts[k], entries, ranges, whole, e);
    }
    forall j, k, s | 0 <= j < k < |parts| && Covers(parts[j], s) ensures !Covers(parts[k], s) {
      assert parts[j] in parts && parts[k] in parts;
      PartsApart(parts[j], parts[k], entries, ranges, whole, e, s);
    }
    forall s ensures s in e <==> exists k :: 0 <= k < |parts| && Covers(parts[k], s) {
      if s in e {
        HeldIsCovered(parts, entries, ranges, whole, e, s);
      }
    }
  }

  lemma OnePartRight(p: Part, entries: seq<Season>, ranges: seq<Range>, whole: seq<int>, e: Held)
    requires EntriesOf(entries, e) && PartOf(p, entries, ranges)
    requires forall s :: s in whole <==> Entry(entries, s, true)
    requires if whole == [] then ranges == [Range(0, 0)] else RangesOf(ranges, whole)
    ensures PartRight(p, e) && (p.Whole? ==> RangesOf(ranges, whole))
  {
    match p
    case Whole(r) =>
      assert r.start in whole;
      var j :| 0 <= j < |ranges| && ranges[j] == r;
      forall s ensures (In(s, r) ==> IsWhole(e, s)) && (s == r.start - 1 || s == r.end + 1 ==> !IsWhole(e, s)) {
        EntryTells(entries, e, s);
        assert In(s, r) ==> InSome(s, ranges);
        NotBeside(ranges, j, s);
      }
    case Partly(s, rs) =>
      var k :| 0 <= k < |entries| && entries[k].season == s && entries[k].episodes != [] && RangesOf(rs, entries[k].episodes);
      EmptyEpisodes(entries[k].episodes, e[s]);
  }

  lemma NotBeside(ranges: seq<Range>, j: nat, s: int)
    requires Separate(ranges) && j < |ranges|
    ensures s == ranges[j].start - 1 || s == ranges[j].end + 1 ==> !InSome(s, ranges)
  {
  }

  lemma PartsApart(p: Part, q: Part, entries: seq<Season>, ranges: seq<Range>, whole: seq<int>, e: Held, s: int)
    requires EntriesOf(entries, e) && PartOf(p, entries, ranges) && PartOf(q, entries, ranges)
    requires forall s :: s in whole <==> Entry(entries, s, true)
    requires if whole == [] then ranges == [Range(0, 0)] else RangesOf(ranges, whole)
    requires FirstSeason(p) < FirstSeason(q) && Covers(p, s)
    ensures !Covers(q, s)
  {
    OnePartRight(p, entries, ranges, whole, e);
    OnePartRight(q, entries, ranges, whole, e);
    if p.Whole? && q.Whole? {
      var i :| 0 <= i < |ranges| && ranges[i] == p.range;
      var j :| 0 <= j < |ranges| && ranges[j] == q.range;
      RangesApart(ranges, i, j, s);
    }
  }

  lemma RangesApart(ranges: seq<Range>, i: nat, j: nat, s: int)
    requires Separate(ranges) && i < |ranges| && j < |ranges| && In(s, ranges[i]) && i != j
    ensures !In(s, ranges[j])
  {
  }

  lemma HeldIsCovered(parts: seq<Part>, entries: seq<Season>, ranges: seq<Range>, whole: seq<int>, e: Held, s: int)
    requires EntriesOf(entries, e) && s in e
    requires forall s :: s in whole <==> Entry(entries, s, true)
    requires if whole == [] then ranges == [Range(0, 0)] else RangesOf(ranges, whole)
    requires forall p :: p in parts ==> PartOf(p, entries, ranges)
    requires forall k :: 0 <= k < |entries| && entries[k].episodes != [] ==>
               exists p :: p in parts && p.Partly? && p.season == entries[k].season
    requires forall j :: 0 <= j < |ranges| && Entry(entries, ranges[j].start, true) ==>
               exists p :: p in parts && p.Whole? && p.range.start == ranges[j].start
    ensures exists k :: 0 <= k < |parts| && Covers(parts[k], s)
  {
    EntryTells(entries, e, s);
    if e[s] == {} {
      assert s in whole;
      var j :| 0 <= j < |ranges| && In(s, ranges[j]);
      StartIsWhole(entries, ranges, whole, j);
      WholeIsCovered(parts, entries, ranges, j, s);
    } else {
      var i :| 0 <= i < |entries| && entries[i].season == s && entries[i].episodes != [];
      var p :| p in parts && p.Partly? && p.season == s;
      var k :| 0 <= k < |parts| && parts[k] == p;
      assert Covers(parts[k], s);
    }
  }

  lemma StartIsWhole(entries: seq<Season>, ranges: seq<Range>, whole: seq<int>, j: nat)
    requires RangesOf(ranges, whole) && j < |ranges| && forall s :: s in whole <==> Entry(entries, s, true)
    ensures Entry(entries, ranges[j].start, true)
  {
  }

  lemma WholeIsCovered(parts: seq<Part>, entries: seq<Season>, ranges: seq<Range>, j: nat, s: int)
    requires Separate(ranges) && j < |ranges| && In(s, ranges[j])
    requires forall p :: p in parts ==> PartOf(p, entries, ranges)
    requires exists p :: p in parts && p.Whole? && p.range.start == ranges[j].start
    ensures exists k :: 0 <= k < |parts| && Covers(parts[k], s)
  {
  }

  /** The parts of the printed form. */
  method Parts(e: Held) returns (parts: seq<Part>)
    ensures Denotes(parts, e)
  {
    var entries := SeasonEntries(e);
    var whole := WholeSeasons(entries);
    var ranges := GetContiguousRanges(whole);
    var pm := RangeParts(entries, ranges);
    pm := EpisodeParts(pm, entries, ranges);
    parts := CollectParts(pm, entries, ranges);
    AllThere(pm, parts, entries, ranges);
    PartsDenote(parts, entries, ranges, whole, e);
  }

  /** Parts that denote two maps denote the same one. */
  lemma DenotesOne(parts: seq<Part>, e: Held, f: Held)
    requires Denotes(parts, e) && Denotes(parts, f)
    ensures e == f
  {
    forall s ensures (s in e <==> s in f) && (s in e ==> e[s] == f[s]) {
      if s in e {
        var k :| 0 <= k < |parts| && Covers(parts[k], s);
        assert PartRight(parts[k], e) && PartRight(parts[k], f);
        SameSeason(parts[k], e, f, s);
      }
    }
  }

  lemma SameSeason(p: Part, e: Held, f: Held, s: int)
    requires PartRight(p, e) && PartRight(p, f) && Covers(p, s)
    ensures s in e && s in f && e[s] == f[s]
  {
    match p
    case Whole(r) => assert IsWhole(e, s) && IsWhole(f, s);
    case Partly(_, rs) =>
      forall x ensures x in e[s] <==> x in f[s] {
        assert x in e[s] <==> InSome(x, rs);
      }
  }

  // --------------------------------------------------------------------------------------
  // A map has one list of parts
  // --------------------------------------------------------------------------------------

  predicate Ascending<T(!new)>(s: seq<T>, key: T -> int) {
    forall i, j :: 0 <= i < j < |s| ==> key(s[i]) < key(s[j])
  }

  /** Two lists in ascending order with the same members are the same. */
  lemma {:induction false} OneListing<T(!new)>(a: seq<T>, b: seq<T>, key: T -> int)
    requires Ascending(a, key) && Ascending(b, key)
    requires forall i :: 0 <= i < |a| ==> a[i] in b
    requires forall j :: 0 <= j < |b| ==> b[j] in a
    ensures a == b
    decreases |a|
  {
    if b != [] { HasMember(a, b[0]); }
    if a != [] {
      HasMember(b, a[0]);
      FirstIsSame(a, b, key);
      RestIsSame(a, b, key);
      RestIsSame(b, a, key);
      OneListing(a[1..], b[1..], key);
      SameFirstAndRest(a, b);
    }
  }

  lemma SameFirstAndRest<T>(a: seq<T>, b: seq<T>)
    requires a != [] && b != [] && a[0] == b[0] && a[1..] == b[1..]
    ensures a == b
  {
  }

  lemma HasMember<T>(a: seq<T>, x: T)
    requires x in a
    ensures a != []
  {
  }

  lemma FirstIsSame<T(!new)>(a: seq<T>, b: seq<T>, key: T -> int)
    requires Ascending(a, key) && Ascending(b, key) && a != [] && b != [] && a[0] in b && b[0] in a
    ensures a[0] == b[0]
  {
  }

  lemma RestIsSame<T(!new)>(a: seq<T>, b: seq<T>, key: T -> int)
    requires Ascending(a, key) && a != [] && b != [] && a[0] == b[0] && forall i :: 0 <= i < |a| ==> a[i] in b
    ensures Ascending(a[1..], key) && forall i :: 0 <= i < |a[1..]| ==> a[1..][i] in b[1..]
  {
  }

  lemma RangeIsThere(rs: seq<Range>, qs: seq<Range>, i: nat)
    requires Separate(rs) && Separate(qs) && (forall x :: InSome(x, rs) <==> InSome(x, qs)) && i < |rs|
    ensures rs[i] in qs
  {
    var s := rs[i].start;
    assert In(s, rs[i]) && InSome(s, rs);
    var j :| 0 <= j < |qs| && In(s, qs[j]);
    var r, q, below, above, beyond := rs[i], qs[j], s - 1, rs[i].end + 1, qs[j].end + 1;
    NotBeside(rs, i, below);
    NotBeside(rs, i, above);
    NotBeside(qs, j, beyond);
    assert In(below, q) ==> InSome(below, qs);
    assert In(above, q) ==> InSome(above, qs);
    assert In(beyond, r) ==> InSome(beyond, rs);
  }

  lemma RangesAreOne(rs: seq<Range>, qs: seq<Range>)
    requires Separate(rs) && Separate(qs) && forall x :: InSome(x, rs) <==> InSome(x, qs)
    ensures rs == qs
  {
    forall i | 0 <= i < |rs| ensures rs[i] in qs { RangeIsThere(rs, qs, i); }
    forall j | 0 <= j < |qs| ensures qs[j] in rs { RangeIsThere(qs, rs, j); }
    OneListing(rs, qs, (r: Range) => r.start);
  }

  lemma PartIsOne(p: Part, q: Part, e: Held, s: int)
    requires PartRight(p, e) && PartRight(q, e) && Covers(p, s) && Covers(q, s)
    ensures p == q
  {
    match p
    case Whole(r) =>
      assert IsWhole(e, s);
      assert q.Whole?;
      WholeIsOne(r, q.range, e, s);
    case Partly(_, rs) =>
      assert q.Whole? ==> IsWhole(e, s);
      RangesAreOne(rs, q.episodes);
  }

  lemma WholeIsOne(r: Range, t: Range, e: Held, s: int)
    requires PartRight(Whole(r), e) && PartRight(Whole(t), e) && In(s, r) && In(s, t)
    ensures r == t
  {
  }

  lemma PartIsThere(ps: seq<Part>, qs: seq<Part>, e: Held, i: nat)
    requires Denotes(ps, e) && Denotes(qs, e) && i < |ps|
    ensures ps[i] in qs
  {
    var s := FirstSeason(ps[i]);
    assert PartRight(ps[i], e);
    assert Covers(ps[i], s);
    assert s in e;
    var j :| 0 <= j < |qs| && Covers(qs[j], s);
    PartIsOne(ps[i], qs[j], e, s);
  }

  /** A map has one list of parts, so its text is determined. */
  lemma PartsAreOne(ps: seq<Part>, qs: seq<Part>, e: Held)
    requires Denotes(ps, e) && Denotes(qs, e)
    ensures ps == qs
  {
    forall i | 0 <= i < |ps| ensures ps[i] in qs { PartIsThere(ps, qs, e, i); }
    forall j | 0 <= j < |qs| ensures qs[j] in ps { PartIsThere(qs, ps, e, j); }
    OneListing(ps, qs, FirstSeason);
  }

  // --------------------------------------------------------------------------------------
  // Text
  // --------------------------------------------------------------------------------------

  function Digit(d: nat): char
    requires d < 10
  {
    ('0' as int + d) as char
  }

  function Decimal(n: nat): string {
    if n < 10 then [Digit(n)] else Decimal(n / 10) + [Digit(n % 10)]
  }

  /** At least two characters wide, padded with zeros. */
  function Pad(n: int): string {
    if n < 0 then "-" + Decimal(-n) else if n < 10 then "0" + Decimal(n) else Decimal(n)
  }

  function RangeText(r: Range): string {
    if r.start == r.end then Pad(r.start) else Pad(r.start) + "-" + Pad(r.end)
  }

  function EpisodesText(rs: seq<Range>): string {
    if rs == [] then []
    else "E" + RangeText(rs[0]) + (if |rs| == 1 then [] else "," + EpisodesText(rs[1..]))
  }

  function PartText(p: Part): string {
    match p
    case Whole(r) => "S" + RangeText(r)
    case Partly(s, rs) => "S" + Pad(s) + EpisodesText(rs)
  }

  function Text(parts: seq<Part>): string {
    if parts == [] then []
    else PartText(parts[0]) + (if |parts| == 1 then [] else ", " + Text(parts[1..]))
  }

  lemma SomeDigit(n: nat)
    ensures |Decimal(n)| >= 1 && (n < 10 ==> Decimal(n) == [Digit(n)])
  {
  }

  /** Numbers are printed at least two characters wide, and wider only if they need to be. */
  lemma {:induction false} PadWidth(n: int)
    ensures |Pad(n)| >= 2
    ensures 0 <= n < 100 ==> Pad(n) == [Digit(n / 10), Digit(n % 10)]
    ensures n >= 100 ==> Pad(n) == Pad(n / 10) + [Digit(n % 10)]
  {
    if n < 0 {
      SomeDigit(-n);
    } else if n >= 10 {
      SomeDigit(n / 10);
    }
  }

  lemma PadExamples()
    ensures Pad(1) == "01" && Pad(2) == "02" && Pad(4) == "04" && Pad(5) == "05" && Pad(6) == "06" && Pad(7) == "07"
  {
  }

  lemma EpisodesExample()
    ensures EpisodesText([Range(1, 2), Range(4, 4)]) == "E01-02,E04"
  {
    PadExamples();
    var rs := [Range(1, 2), Range(4, 4)];
    assert rs[1..] == [Range(4, 4)];
    assert RangeText(rs[0]) == "01-02" && RangeText(rs[1]) == "04";
    assert EpisodesText(rs[1..]) == "E04";
  }

  /** Episodes and whole seasons, single and in ranges. */
  lemma TextExample()
    ensures Text([Partly(5, [Range(1, 2), Range(4, 4)]), Whole(Range(6, 7))]) == "S05E01-02,E04, S06-07"
  {
    PadExamples();
    EpisodesExample();
    var p, q := Partly(5, [Range(1, 2), Range(4, 4)]), Whole(Range(6, 7));
    assert [p, q][1..] == [q];
    assert PartText(p) == "S05E01-02,E04" && PartText(q) == "S06-07";
    assert Text([q]) == PartText(q);
  }

  /** `Episodes.String`: the text of the parts that denote the map. */
  method String(e: Held) returns (text: string)
    ensures exists parts :: Denotes(parts, e) && text == Text(parts)
    ensures forall parts :: Denotes(parts, e) ==> text == Text(parts)
  {
    var parts := Parts(e);
    text := Join(parts);
    forall ps | Denotes(ps, e) ensures text == Text(ps) {
      PartsAreOne(parts, ps, e);
    }
  }

  /** `strings.Join` of the parts' texts. */
  method Join(parts: seq<Part>) returns (text: string)
    ensures text == Text(parts)
  {
    text := [];
    var i := |parts|;
    while i > 0
      invariant 0 <= i <= |parts| && text == Text(parts[i..])
    {
      i := i - 1;
      assert parts[i..][1..] == parts[i + 1..];
      text := PartText(parts[i]) + (if text == [] then [] else ", " + text);
      TextIsEmpty(parts[i + 1..]);
    }
    assert parts[0..] == parts;
  }

  lemma TextIsEmpty(parts: seq<Part>)
    ensures Text(parts) == [] <==> parts == []
  {
  }

  // --------------------------------------------------------------------------------------
  // Reading the text
  // --------------------------------------------------------------------------------------

  datatype Read<+T> = Read(value: T, rest: string)

  predicate IsDigit(c: char) {
    '0' <= c <= '9'
  }

  predicate Starts(s: string, c: char) {
    s != [] && s[0] == c
  }

  function ReadDigits(s: string, acc: int): (r: Read<int>)
    ensures |r.rest| <= |s| && (s != [] && IsDigit(s[0]) ==> |r.rest| < |s|)
  {
    if s != [] && IsDigit(s[0]) then ReadDigits(s[1..], acc * 10 + (s[0] as int - '0' as int)) else Read(acc, s)
  }

  function ReadNumber(s: string): (r: Option<Read<int>>)
    ensures r.Some? ==> |r.value.rest| < |s|
  {
    var negative := Starts(s, '-');
    var t := if negative then s[1..] else s;
    if t == [] || !IsDigit(t[0]) then None
    else
      var r := ReadDigits(t, 0);
      Some(Read(if negative then -r.value else r.value, r.rest))
  }

  function ReadRange(s: string): (r: Option<Read<Range>>)
    ensures r.Some? ==> |r.value.rest| < |s|
  {
    match ReadNumber(s)
    case None => None
    case Some(a) =>
      if !Starts(a.rest, '-') then Some(Read(Range(a.value, a.value), a.rest))
      else
        match ReadNumber(a.rest[1..])
        case None => None
        case Some(b) => Some(Read(Range(a.value, b.value), b.rest))
  }

  /** After the `E` of the first range. */
  function ReadEpisodes(s: string, acc: seq<Range>): (r: Option<Read<seq<Range>>>)
    ensures r.Some? ==> |r.value.rest| < |s|
    decreases |s|
  {
    match ReadRange(s)
    case None => None
    case Some(r) =>
      if |r.rest| > 1 && r.rest[0] == ',' && r.rest[1] == 'E' then ReadEpisodes(r.rest[2..], acc + [r.value])
      else Some(Read(acc + [r.value], r.rest))
  }

  function ReadPart(s: string): (r: Option<Read<Part>>)
    ensures r.Some? ==> |r.value.rest| < |s|
  {
    if !Starts(s, 'S') then None
    else
      match ReadRange(s[1..])
      case None => None
      case Some(r) =>
        if !Starts(r.rest, 'E') then Some(Read(Whole(r.value), r.rest))
        else
          match ReadEpisodes(r.rest[1..], [])
          case None => None
          case Some(eps) => Some(Read(Partly(r.value.start, eps.value), eps.rest))
  }

  function ReadParts(s: string, acc: seq<Part>): Option<seq<Part>>
    decreases |s|
  {
    if s == [] then Some(acc)
    else
      match ReadPart(s)
      case None => None
      case Some(p) =>
        if p.rest == [] then Some(acc + [p.value])
        else if |p.rest| > 2 && p.rest[0] == ',' && p.rest[1] == ' ' then ReadParts(p.rest[2..], acc + [p.value])
        else None
  }

  /** What may follow a number. */
  predicate Ends(rest: string) {
    rest == [] || !IsDigit(rest[0])
  }

  lemma {:induction false} ReadDecimal(n: nat, rest: string)
    ensures Decimal(n) != [] && IsDigit(Decimal(n)[0])
    ensures ReadDigits(Decimal(n) + rest, 0) == ReadDigits(rest, n)
  {
    if n < 10 {
      assert (Decimal(n) + rest)[1..] == rest;
    } else {
      var d := Digit(n % 10);
      ReadDecimal(n / 10, [d] + rest);
      assert Decimal(n) + rest == Decimal(n / 10) + ([d] + rest);
      assert ([d] + rest)[1..] == rest;
    }
  }

  lemma ReadNatural(digits: string, n: int, rest: string)
    requires digits != [] && IsDigit(digits[0]) && ReadDigits(digits + rest, 0) == Read(n, rest)
    ensures ReadNumber(digits + rest) == Some(Read(n, rest))
  {
  }

  lemma ReadNegative(digits: string, n: int, rest: string)
    requires digits != [] && IsDigit(digits[0]) && ReadDigits(digits + rest, 0) == Read(n, rest)
    ensures ReadNumber("-" + digits + rest) == Some(Read(-n, rest))
  {
    AfterMinus(digits, rest);
  }

  lemma AfterMinus(digits: string, rest: string)
    ensures ("-" + digits + rest)[1..] == digits + rest
  {
  }

  lemma ReadPad(n: int, rest: string)
    requires Ends(rest)
    ensures ReadNumber(Pad(n) + rest) == Some(Read(n, rest))
  {
    assert ReadDigits(rest, if n < 0 then -n else n) == Read(if n < 0 then -n else n, rest);
    if n < 0 {
      ReadDecimal(-n, rest);
      ReadNegative(Decimal(-n), -n, rest);
    } else if n < 10 {
      ReadDecimal(n, rest);
      LeadingZero(Decimal(n), rest);
      ReadNatural(Pad(n), n, rest);
    } else {
      ReadDecimal(n, rest);
      ReadNatural(Decimal(n), n, rest);
    }
  }

  lemma LeadingZero(digits: string, rest: string)
    ensures ReadDigits("0" + digits + rest, 0) == ReadDigits(digits + rest, 0)
  {
    assert ("0" + digits + rest)[1..] == digits + rest;
  }

  lemma ReadRangeText(r: Range, rest: string)
    requires Ends(rest) && !Starts(rest, '-')
    ensures ReadRange(RangeText(r) + rest) == Some(Read(r, rest))
  {
    if r.start == r.end {
      ReadPad(r.start, rest);
    } else {
      var tail := "-" + (Pad(r.end) + rest);
      assert RangeText(r) + rest == Pad(r.start) + tail;
      assert tail[1..] == Pad(r.end) + rest;
      ReadPad(r.start, tail);
      ReadPad(r.end, rest);
    }
  }

  /** What may follow a part: nothing, or the separator. */
  predicate Separated(rest: string) {
    rest == [] || (|rest| > 1 && rest[0] == ',' && rest[1] == ' ')
  }

  /** The ranges after the first `E`. */
  function Tail(rs: seq<Range>): string
    requires rs != []
  {
    RangeText(rs[0]) + (if |rs| == 1 then [] else "," + EpisodesText(rs[1..]))
  }

  lemma EpisodesTail(rs: seq<Range>)
    requires rs != []
    ensures EpisodesText(rs) == "E" + Tail(rs)
  {
  }

  lemma {:induction false} ReadEpisodesText(rs: seq<Range>, rest: string, acc: seq<Range>)
    requires rs != [] && Separated(rest)
    ensures ReadEpisodes(Tail(rs) + rest, acc) == Some(Read(acc + rs, rest))
    decreases |rs|
  {
    if |rs| == 1 {
      assert Tail(rs) + rest == RangeText(rs[0]) + rest;
      ReadRangeText(rs[0], rest);
      assert rs == [rs[0]];
    } else {
      ReadEpisodesText(rs[1..], rest, acc + [rs[0]]);
      EpisodesTail(rs[1..]);
      var next := ",E" + (Tail(rs[1..]) + rest);
      TailStep(rs, rest);
      ReadRangeText(rs[0], next);
      NextRangeRead(RangeText(rs[0]) + next, rs[0], Tail(rs[1..]) + rest, acc);
      assert acc + [rs[0]] + rs[1..] == acc + rs;
    }
  }

  lemma TailStep(rs: seq<Range>, rest: string)
    requires |rs| > 1 && EpisodesText(rs[1..]) == "E" + Tail(rs[1..])
    ensures Tail(rs) + rest == RangeText(rs[0]) + (",E" + (Tail(rs[1..]) + rest))
  {
  }

  lemma NextRangeRead(s: string, r: Range, t: string, acc: seq<Range>)
    requires ReadRange(s) == Some(Read(r, ",E" + t))
    ensures ReadEpisodes(s, acc) == ReadEpisodes(t, acc + [r])
  {
  }

  /** Parts that can be printed. */
  predicate Printable(p: Part) {
    p.Partly? ==> p.episodes != []
  }

  lemma ReadPartText(p: Part, rest: string)
    requires Printable(p) && Separated(rest)
    ensures PartText(p) != [] && ReadPart(PartText(p) + rest) == Some(Read(p, rest))
  {
    match p
    case Whole(r) =>
      assert (PartText(p) + rest)[1..] == RangeText(r) + rest;
      ReadRangeText(r, rest);
    case Partly(s, rs) => ReadPartlyText(s, rs, rest);
  }

  lemma ReadPartlyText(s: int, rs: seq<Range>, rest: string)
    requires rs != [] && Separated(rest)
    ensures ReadPart(PartText(Partly(s, rs)) + rest) == Some(Read(Partly(s, rs), rest))
  {
    EpisodesTail(rs);
    ReadEpisodesText(rs, rest, []);
    assert [] + rs == rs;
    var next := "E" + (Tail(rs) + rest);
    GluePart(Pad(s), Tail(rs), rest);
    ReadRangeText(Range(s, s), next);
    ReadPartly(Pad(s) + next, s, Tail(rs) + rest, Read(rs, rest));
  }

  lemma GluePart(season: string, tail: string, rest: string)
    ensures "S" + season + ("E" + tail) + rest == "S" + (season + ("E" + (tail + rest)))
  {
  }

  lemma ReadPartly(t: string, s: int, eps: string, r: Read<seq<Range>>)
    requires ReadRange(t) == Some(Read(Range(s, s), "E" + eps)) && ReadEpisodes(eps, []) == Some(r)
    ensures ReadPart("S" + t) == Some(Read(Partly(s, r.value), r.rest))
  {
  }

  /** Reading the printed parts gives the parts back. */
  lemma {:induction false} ReadText(parts: seq<Part>, acc: seq<Part>)
    requires forall k :: 0 <= k < |parts| ==> Printable(parts[k])
    ensures ReadParts(Text(parts), acc) == Some(acc + parts)
    decreases |parts|
  {
    if parts == [] {
      assert acc + parts == acc;
    } else if |parts| == 1 {
      ReadPartText(parts[0], []);
      assert PartText(parts[0]) + [] == PartText(parts[0]);
      assert parts == [parts[0]];
    } else {
      var more := Text(parts[1..]);
      var rest := ", " + more;
      TextIsEmpty(parts[1..]);
      ReadPartText(parts[0], rest);
      assert rest[2..] == more;
      ReadText(parts[1..], acc + [parts[0]]);
      MoveFirst(acc, parts);
    }
  }

  lemma MoveFirst(acc: seq<Part>, parts: seq<Part>)
    requires parts != []
    ensures acc + [parts[0]] + parts[1..] == acc + parts
  {
  }

  lemma DenotedIsPrintable(parts: seq<Part>, e: Held)
    requires Denotes(parts, e)
    ensures forall k :: 0 <= k < |parts| ==> Printable(parts[k])
  {
    forall k | 0 <= k < |parts| ensures Printable(parts[k]) {
      assert PartRight(parts[k], e);
      if parts[k].Partly? {
        var x := SomeMember(e[parts[k].season]);
        assert InSome(x, parts[k].episodes);
      }
    }
  }

  /** Two maps have the same text exactly if they are the same map. */
  lemma TextTellsHeld(ps: seq<Part>, qs: seq<Part>, e: Held, f: Held)
    requires Denotes(ps, e) && Denotes(qs, f)
    ensures Text(ps) == Text(qs) <==> e == f
  {
    DenotedIsPrintable(ps, e);
    DenotedIsPrintable(qs, f);
    ReadText(ps, []);
    ReadText(qs, []);
    assert [] + ps == ps && [] + qs == qs;
    if ps == qs {
      DenotesOne(ps, e, f);
    }
    if e == f {
      PartsAreOne(ps, qs, e);
    }
  }

  // --------------------------------------------------------------------------------------
  // Adding
  // --------------------------------------------------------------------------------------

  class Episodes {
    var held: Held

    constructor ()
      ensures held == map[]
    {
      held := map[];
    }

    /** Adding an episode to a season held whole leaves that episode only. */
    method AddEpisode(season: int, episode: int)
      modifies this
      ensures forall s, x :: HasEpisode(held, s, x) <==>
                (s == season && x == episode) || (HasEpisode(old(held), s, x) && !(s == season && IsWhole(old(held), season)))
    {
      if season !in held {
        held := held[season := {}];
      }
      held := held[season := held[season] + {episode}];
    }

    method AddSeason(season: int)
      modifies this
      ensures forall s, x :: HasEpisode(held, s, x) <==> s == season || HasEpisode(old(held), s, x)
    {
      held := held[season := {}];
    }
  }
}
