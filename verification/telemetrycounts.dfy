/** Counting the data points of a metrics pipeline per key. */
module TelemetryCounts {
  import opened TelemetryKeys
  import opened TelemetryBatches

  // ---- Counters ----

  datatype Count = Count(value: nat, start: nat)

  type Counts = map<string, Count>

  function CountOne(c: Counts, key: string, now: nat): (c': Counts) {
    c[key := if key in c then Count(c[key].value + 1, c[key].start) else Count(1, now)]
  }

  function Tally(c: Counts, keys: seq<string>, now: nat): (c': Counts) {
    if keys == [] then c else CountOne(Tally(c, keys[..|keys| - 1], now), keys[|keys| - 1], now)
  }

  lemma {:induction false} TallyAppend(c: Counts, ks: seq<string>, ls: seq<string>, now: nat)
    ensures Tally(c, ks + ls, now) == Tally(Tally(c, ks, now), ls, now)
  {
    if ls == [] {
      assert ks + ls == ks;
    } else {
      TallyAppend(c, ks, ls[..|ls| - 1], now);
      assert (ks + ls)[..|ks + ls| - 1] == ks + ls[..|ls| - 1];
    }
  }

  /** A reported data point. */
  datatype Point = Point(labels: Labels, value: nat, start: nat)

  function PointOf(key: string, c: Count): (p: Point) {
    var ps := Split(key, ':');
    Point(AddParts(Base(ps[0]), ps[1..]), c.value, c.start)
  }

  /** A point shows a counter: its value, its start time, and its key read back. */
  ghost predicate Shows(p: Point, key: string, c: Counts) {
    && key in c && p.value == c[key].value && p.start == c[key].start
    && p.labels == AddParts(Base(Split(key, ':')[0]), Split(key, ':')[1..])
  }

  class Processor {
    const groupings: seq<Grouping>
    const re: Regex
    var counts: Counts

    constructor (groupings: seq<Grouping>, re: Regex)
      ensures this.groupings == groupings && this.re == re && counts == map[]
    {
      this.groupings := groupings;
      this.re := re;
      counts := map[];
    }

    method ProcessDatapoint(m: Metric, g: Grouping, a: Attributes, now: nat)
      modifies this
      ensures counts == if Included(re, g, m.name, m.kind, a)
                        then CountOne(old(counts), Key(g.scheme, m.name, m.kind, a), now) else old(counts)
    {
      var included := IncludeDatapoint(re, g, m.name, m.kind, a);
      if !included {
        return;
      }
      var key := Key(g.scheme, m.name, m.kind, a);
      var count := if key in counts then counts[key] else Count(0, now);
      counts := counts[key := Count(count.value + 1, count.start)];
    }

    method ProcessGrouping(m: Metric, g: Grouping, res: Level, scope: Level, now: nat)
      modifies this
      ensures counts == Tally(old(counts), PointKeys(re, g, m, res, scope, |m.points|), now)
    {
      for i := 0 to |m.points|
        invariant counts == Tally(old(counts), PointKeys(re, g, m, res, scope, i), now)
      {
        hide Included, Key;
        ghost var before := PointKeys(re, g, m, res, scope, i);
        var a := Attributes(res, scope, m.points[i]);
        ProcessDatapoint(m, g, a, now);
        if Included(re, g, m.name, m.kind, a) {
          assert (before + [Key(g.scheme, m.name, m.kind, a)])[..|before|] == before;
        } else {
          assert before + [] == before;
        }
      }
    }

    method ProcessMetric(m: Metric, res: Level, scope: Level, now: nat)
      modifies this
      ensures counts == Tally(old(counts), MetricKeys(re, groupings, m, res, scope), now)
    {
      if !Countable(m) {
        return;
      }
      for i := 0 to |groupings|
        invariant counts == Tally(old(counts), MetricKeys(re, groupings[..i], m, res, scope), now)
      {
        hide PointKeys, Countable;
        ProcessGrouping(m, groupings[i], res, scope, now);
        assert groupings[..i + 1][..i] == groupings[..i];
        TallyAppend(old(counts), MetricKeys(re, groupings[..i], m, res, scope),
                    PointKeys(re, groupings[i], m, res, scope, |m.points|), now);
      }
      assert groupings[..|groupings|] == groupings;
    }

    method ProcessScope(ms: seq<Metric>, res: Level, scope: Level, now: nat)
      modifies this
      ensures counts == Tally(old(counts), ScopeKeys(re, groupings, ms, res, scope), now)
    {
      for i := 0 to |ms|
        invariant counts == Tally(old(counts), ScopeKeys(re, groupings, ms[..i], res, scope), now)
      {
        hide MetricKeys;
        ProcessMetric(ms[i], res, scope, now);
        assert ms[..i + 1][..i] == ms[..i];
        TallyAppend(old(counts), ScopeKeys(re, groupings, ms[..i], res, scope),
                    MetricKeys(re, groupings, ms[i], res, scope), now);
      }
      assert ms[..|ms|] == ms;
    }

    method ProcessResource(ss: seq<ScopeMetrics>, res: Level, now: nat)
      modifies this
      ensures counts == Tally(old(counts), ResourceKeys(re, groupings, ss, res), now)
    {
      for i := 0 to |ss|
        invariant counts == Tally(old(counts), ResourceKeys(re, groupings, ss[..i], res), now)
      {
        hide ScopeKeys;
        ProcessScope(ss[i].metrics, res, ss[i].attrs, now);
        assert ss[..i + 1][..i] == ss[..i];
        TallyAppend(old(counts), ResourceKeys(re, groupings, ss[..i], res),
                    ScopeKeys(re, groupings, ss[i].metrics, res, ss[i].attrs), now);
      }
      assert ss[..|ss|] == ss;
    }

    /** One batch, counted at one time. */
    method ProcessMetrics(rs: seq<ResourceMetrics>, now: nat)
      modifies this
      ensures counts == Tally(old(counts), BatchKeys(re, groupings, rs), now)
    {
      for i := 0 to |rs|
        invariant counts == Tally(old(counts), BatchKeys(re, groupings, rs[..i]), now)
      {
        hide ResourceKeys;
        ProcessResource(rs[i].scopes, rs[i].attrs, now);
        assert rs[..i + 1][..i] == rs[..i];
        TallyAppend(old(counts), BatchKeys(re, groupings, rs[..i]),
                    ResourceKeys(re, groupings, rs[i].scopes, rs[i].attrs), now);
      }
      assert rs[..|rs|] == rs;
    }

    /** One point per counter, with the labels read back from its key, in the map's iteration order. */
    method ScrapeMetricStats() returns (points: seq<Point>)
      ensures exists keys :: ShowsAll(points, keys, counts)
    {
      points := [];
      ghost var keys: seq<string> := [];
      var left := counts.Keys;
      while left != {}
        invariant left <= counts.Keys && |points| == |keys|
        invariant forall k :: k in keys <==> k in counts && k !in left
        invariant forall i, j | 0 <= i < j < |keys| :: keys[i] != keys[j]
        invariant forall i | 0 <= i < |keys| :: Shows(points[i], keys[i], counts)
        decreases left
      {
        var k :| k in left;
        var labels := ParseKey(k);
        points := points + [Point(labels, counts[k].value, counts[k].start)];
        keys := keys + [k];
        left := left - {k};
      }
      assert ShowsAll(points, keys, counts);
    }

    /** Any sequence of batches. A new processor ends with one counter per key that some data point
        has, equal to the number of such data points, and started by the first batch with one. */
    method ProcessAll(batches: seq<Batch>)
      modifies this
      ensures counts == Accumulate(old(counts), KeyedBatches(re, groupings, batches))
      ensures old(counts) == map[] ==> CountsHits(re, groupings, batches, counts)
    {
      ghost var ks := KeyedBatches(re, groupings, batches);
      for i := 0 to |batches|
        invariant counts == Accumulate(old(counts), ks[..i])
      {
        hide BatchKeys, Tally;
        ProcessMetrics(batches[i].resources, batches[i].now);
        assert ks[..i + 1][..i] == ks[..i];
      }
      assert ks[..|batches|] == ks;
      hide Accumulate, CountsHits;
      AccumulateCounts(re, groupings, batches);
    }

    /** Counting any batches from the start and scraping once: one point per key that some data point has, with
        the number of those data points, the time of the first batch with one, and, wherever nothing printed
        into the key contains a colon, the data point's own labels. */
    method CountAndScrape(batches: seq<Batch>) returns (points: seq<Point>)
      requires counts == map[]
      modifies this
      ensures exists keys :: ReportsHits(re, groupings, batches, points, keys)
    {
      hide CountsHits, ShowsAll, ReportsHits;
      ProcessAll(batches);
      points := ScrapeMetricStats();
      ghost var keys :| ShowsAll(points, keys, counts);
      ScrapeIsTrue(re, groupings, batches, counts, points, keys);
    }
  }

  /** `keys` lists the counters, each once. */
  ghost predicate Lists(keys: seq<string>, c: Counts) {
    && (forall k :: k in keys <==> k in c)
    && (forall i, j | 0 <= i < j < |keys| :: keys[i] != keys[j])
  }

  /** One point per counter. */
  ghost predicate ShowsAll(points: seq<Point>, keys: seq<string>, c: Counts) {
    Lists(keys, c) && |points| == |keys| && forall i | 0 <= i < |keys| :: Shows(points[i], keys[i], c)
  }

  /** A list of the counters is as long as the table. */
  lemma {:induction false} ListsLength(keys: seq<string>, c: Counts)
    requires Lists(keys, c)
    ensures |keys| == |c|
  {
    if keys == [] {
      assert c.Keys == {};
    } else {
      var n := |keys| - 1;
      var front := c - {keys[n]};
      assert keys == keys[..n] + [keys[n]];
      assert front.Keys == c.Keys - {keys[n]};
      ListsLength(keys[..n], front);
    }
  }

  function PointsOf(keys: seq<string>, c: Counts): (ps: seq<Point>)
    requires Lists(keys, c)
  {
    seq(|keys|, i requires 0 <= i < |keys| => PointOf(keys[i], c[keys[i]]))
  }

  // ---- Conservation over whole runs ----

  function Accumulate(c: Counts, bs: seq<Keyed>): (c': Counts) {
    if bs == [] then c else Tally(Accumulate(c, bs[..|bs| - 1]), bs[|bs| - 1].keys, bs[|bs| - 1].now)
  }

  lemma {:induction false} TallyMeaning(c: Counts, keys: seq<string>, now: nat, k: string)
    ensures k in Tally(c, keys, now) <==> k in c || k in keys
    ensures k in Tally(c, keys, now) ==>
              && Tally(c, keys, now)[k].value == (if k in c then c[k].value else 0) + multiset(keys)[k]
              && Tally(c, keys, now)[k].start == if k in c then c[k].start else now
  {
    if keys != [] {
      var n := |keys| - 1;
      TallyMeaning(c, keys[..n], now, k);
      assert keys == keys[..n] + [keys[n]];
      assert k in keys <==> k in keys[..n] || k == keys[n];
      assert k !in keys[..n] ==> multiset(keys[..n])[k] == 0;
    }
  }

  /** The index of the first batch that has the key. */
  predicate FirstAt(bs: seq<Keyed>, k: string, i: nat) {
    i < |bs| && k in bs[i].keys && forall j | 0 <= j < i :: k !in bs[j].keys
  }

  /** From empty counters, every counter equals the number of data points with its key, and its start
      time is that of the first batch that had the key. */
  lemma {:induction false} Conservation(bs: seq<Keyed>, k: string)
    ensures k in Accumulate(map[], bs) <==> exists i :: 0 <= i < |bs| && k in bs[i].keys
    ensures k in Accumulate(map[], bs) ==>
              && Accumulate(map[], bs)[k].value == Total(bs, k)
              && exists i: nat :: FirstAt(bs, k, i) && Accumulate(map[], bs)[k].start == bs[i].now
    ensures k !in Accumulate(map[], bs) ==> Total(bs, k) == 0
  {
    if bs != [] {
      var n := |bs| - 1;
      var before := Accumulate(map[], bs[..n]);
      Conservation(bs[..n], k);
      TallyMeaning(before, bs[n].keys, bs[n].now, k);
      hide Tally, Accumulate;
      assert Accumulate(map[], bs) == Tally(before, bs[n].keys, bs[n].now) by { AccumulateLast(bs); }
      if k in before {
        var i: nat :| FirstAt(bs[..n], k, i) && before[k].start == bs[..n][i].now;
        assert FirstAt(bs, k, i);
      } else if k in bs[n].keys {
        assert forall j | 0 <= j < n :: bs[..n][j] == bs[j];
        assert FirstAt(bs, k, n);
      } else {
        assert forall j | 0 <= j < n :: bs[..n][j] == bs[j];
      }
    }
  }

  lemma AccumulateLast(bs: seq<Keyed>)
    requires bs != []
    ensures var n := |bs| - 1; Accumulate(map[], bs) == Tally(Accumulate(map[], bs[..n]), bs[n].keys, bs[n].now)
  {
  }

  /** The counters are those of the data points: one per key that some position has, with the number
      of those positions, started by the first batch that has one. */
  ghost predicate CountsHits(re: Regex, gs: seq<Grouping>, bs: seq<Batch>, c: Counts) {
    && (forall k :: k in c <==> Hits(re, gs, bs, k) != {})
    && (forall k | k in c :: c[k].value == |Hits(re, gs, bs, k)|)
    && (forall k | k in c :: StartedByFirst(re, gs, bs, k, c[k].start))
  }

  ghost predicate StartedByFirst(re: Regex, gs: seq<Grouping>, bs: seq<Batch>, k: string, start: nat) {
    exists p: Position :: FirstHit(re, gs, bs, k, p) && start == bs[p.batch].now
  }

  ghost predicate FirstHit(re: Regex, gs: seq<Grouping>, bs: seq<Batch>, k: string, p: Position) {
    && p in Hits(re, gs, bs, k) && p.batch < |bs|
    && forall q | q in Hits(re, gs, bs, k) :: p.batch <= q.batch
  }

  lemma TotalIsHits(re: Regex, gs: seq<Grouping>, bs: seq<Batch>, k: string)
    ensures Total(KeyedBatches(re, gs, bs), k) == |Hits(re, gs, bs, k)|
  {
    var h, ks := Hits(re, gs, bs, k), KeyedBatches(re, gs, bs);
    TotalCountsHits(re, gs, bs, k, |bs|);
    assert ks[..|bs|] == ks;
    hide Hits, Total;
    assert BatchesBelow(h, |bs|) == h;
  }

  lemma HasKeyIffHit(re: Regex, gs: seq<Grouping>, bs: seq<Batch>, k: string, b: nat)
    requires b < |bs|
    ensures k in KeyedBatches(re, gs, bs)[b].keys <==> HitsIn(re, gs, bs, k, b) != {}
  {
    hide BatchKeys, HitsIn;
    BatchKeysCount(re, gs, bs, k, b);
  }

  lemma FirstBatchHit(re: Regex, gs: seq<Grouping>, bs: seq<Batch>, k: string, i: nat) returns (p: Position)
    requires FirstAt(KeyedBatches(re, gs, bs), k, i)
    ensures FirstHit(re, gs, bs, k, p) && p.batch == i
  {
    hide Hits, Hit;
    var ks := KeyedBatches(re, gs, bs);
    HasKeyIffHit(re, gs, bs, k, i);
    p :| p in HitsIn(re, gs, bs, k, i);
    forall q | q in Hits(re, gs, bs, k) ensures i <= q.batch {
      HitInRange(re, gs, bs, k, q);
      HasKeyIffHit(re, gs, bs, k, q.batch);
      assert q in HitsIn(re, gs, bs, k, q.batch);
    }
  }

  lemma HitInRange(re: Regex, gs: seq<Grouping>, bs: seq<Batch>, k: string, q: Position)
    requires q in Hits(re, gs, bs, k)
    ensures q.batch < |bs|
  {
    hide Counted;
  }

  lemma ValueIsHits(re: Regex, gs: seq<Grouping>, bs: seq<Batch>, k: string)
    ensures var c := Accumulate(map[], KeyedBatches(re, gs, bs));
            && (k in c <==> Hits(re, gs, bs, k) != {})
            && (k in c ==> c[k].value == |Hits(re, gs, bs, k)|)
  {
    hide *;
    var ks := KeyedBatches(re, gs, bs);
    Conservation(ks, k);
    TotalIsHits(re, gs, bs, k);
    if k in Accumulate(map[], ks) {
      CountedOnce(ks, k);
    }
  }

  lemma StartIsFirst(re: Regex, gs: seq<Grouping>, bs: seq<Batch>, k: string) returns (p: Position)
    requires k in Accumulate(map[], KeyedBatches(re, gs, bs))
    ensures FirstHit(re, gs, bs, k, p) && p.batch < |bs|
    ensures Accumulate(map[], KeyedBatches(re, gs, bs))[k].start == bs[p.batch].now
  {
    hide Hits, Accumulate, BatchKeys, Total;
    var ks := KeyedBatches(re, gs, bs);
    Conservation(ks, k);
    var i: nat :| FirstAt(ks, k, i) && Accumulate(map[], ks)[k].start == ks[i].now;
    p := FirstBatchHit(re, gs, bs, k, i);
  }

  /** From empty counters, counting batches one after the other counts the data points. */
  lemma AccumulateCounts(re: Regex, gs: seq<Grouping>, bs: seq<Batch>)
    ensures CountsHits(re, gs, bs, Accumulate(map[], KeyedBatches(re, gs, bs)))
  {
    hide Hits, Accumulate, KeyedBatches, FirstHit;
    var c := Accumulate(map[], KeyedBatches(re, gs, bs));
    forall k
      ensures k in c <==> Hits(re, gs, bs, k) != {}
      ensures k in c ==> c[k].value == |Hits(re, gs, bs, k)|
    {
      ValueIsHits(re, gs, bs, k);
    }
    forall k | k in c ensures StartedByFirst(re, gs, bs, k, c[k].start) {
      var p := StartIsFirst(re, gs, bs, k);
    }
  }

  lemma {:induction false} CountedOnce(ks: seq<Keyed>, k: string)
    requires exists i :: 0 <= i < |ks| && k in ks[i].keys
    ensures Total(ks, k) > 0
  {
    var n := |ks| - 1;
    if k !in ks[n].keys {
      var i :| 0 <= i < |ks| && k in ks[i].keys;
      assert ks[..n][i] == ks[i];
      CountedOnce(ks[..n], k);
    }
  }

  // ---- What a scrape reports of the data points ----

  /** One point for each key that some data point has. */
  ghost predicate ReportsHits(re: Regex, gs: seq<Grouping>, bs: seq<Batch>, points: seq<Point>, keys: seq<string>) {
    && |points| == |keys|
    && (forall i, j | 0 <= i < j < |keys| :: keys[i] != keys[j])
    && (forall k :: k in keys <==> Hits(re, gs, bs, k) != {})
    && (forall i | 0 <= i < |keys| :: ReportsKey(re, gs, bs, points[i], keys[i]))
  }

  ghost predicate ReportsKey(re: Regex, gs: seq<Grouping>, bs: seq<Batch>, point: Point, k: string) {
    && point.value == |Hits(re, gs, bs, k)| && StartedByFirst(re, gs, bs, k, point.start)
    && forall p | p in Hits(re, gs, bs, k) :: DescribesHit(gs, bs, point, p)
  }

  /** The labels are the data point's, if nothing printed into its key contains a colon. */
  ghost predicate DescribesHit(gs: seq<Grouping>, bs: seq<Batch>, point: Point, p: Position) {
    && HasMetric(bs, p) && p.grouping < |gs| && p.point < |MetricAt(bs, p).points|
    && var m, g := MetricAt(bs, p), gs[p.grouping].scheme;
       var a := Attributes(ResourceAt(bs, p).attrs, ScopeAt(bs, p).attrs, m.points[p.point]);
       Clean(g, m.name, a) ==> Says(point.labels, g, m.name, m.kind, a)
  }

  lemma ShownSays(g: Scheme, name: string, kind: Kind, a: Attributes, point: Point, c: Counts)
    requires Shows(point, Key(g, name, kind, a), c) && Clean(g, name, a)
    ensures Says(point.labels, g, name, kind, a)
  {
    KeyRoundTrip(g, name, kind, a);
    MeaningSays(g, name, kind, a);
    hide *;
  }

  lemma HitDescribed(re: Regex, gs: seq<Grouping>, bs: seq<Batch>, c: Counts, point: Point, k: string, p: Position)
    requires Shows(point, k, c) && p in Hits(re, gs, bs, k)
    ensures DescribesHit(gs, bs, point, p)
  {
    hide Says, Clean, Key, Shows, Included, Countable, Hits;
    var m, g := MetricAt(bs, p), gs[p.grouping].scheme;
    var a := Attributes(ResourceAt(bs, p).attrs, ScopeAt(bs, p).attrs, m.points[p.point]);
    if Clean(g, m.name, a) {
      ShownSays(g, m.name, m.kind, a, point, c);
    }
  }

  lemma KeyReported(re: Regex, gs: seq<Grouping>, bs: seq<Batch>, c: Counts, point: Point, k: string)
    requires CountsHits(re, gs, bs, c) && Shows(point, k, c)
    ensures ReportsKey(re, gs, bs, point, k)
  {
    hide Hits, StartedByFirst, DescribesHit;
    forall p | p in Hits(re, gs, bs, k) ensures DescribesHit(gs, bs, point, p) {
      HitDescribed(re, gs, bs, c, point, k, p);
    }
  }

  lemma ScrapeIsTrue(re: Regex, gs: seq<Grouping>, bs: seq<Batch>, c: Counts, points: seq<Point>, keys: seq<string>)
    requires CountsHits(re, gs, bs, c) && ShowsAll(points, keys, c)
    ensures ReportsHits(re, gs, bs, points, keys)
  {
    hide Hits, StartedByFirst, Shows, ReportsKey;
    forall i | 0 <= i < |keys| ensures ReportsKey(re, gs, bs, points[i], keys[i]) {
      KeyReported(re, gs, bs, c, points[i], keys[i]);
    }
  }
}
