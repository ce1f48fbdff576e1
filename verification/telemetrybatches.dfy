/** The batches of a metrics pipeline: which data points are counted, and under which keys. */
module TelemetryBatches {
  import opened Options
  import opened Ascii
  import opened TelemetryKeys

  // ---- Filters ----

  /** Whether a pattern compiles and matches a text; the regular-expression engine is a parameter. */
  type Regex = (string, string) -> bool

  datatype LabelFilter = LabelFilter(name: string, values: Option<seq<string>>, regex: string)

  datatype MetricFilter = MetricFilter(
    types: Option<seq<string>>,
    names: Option<seq<string>>,
    regex: string,
    labels: Option<seq<LabelFilter>>)

  datatype Grouping = Grouping(scheme: Scheme, included: Option<MetricFilter>, excluded: Option<MetricFilter>)

  /** Equal under simple case folding, for an ASCII `word`: the long s and the Kelvin sign fold to letters too. */
  predicate EqualFold(word: string, t: string) {
    && |word| == |t|
    && forall i | 0 <= i < |word| ::
         || SameLetter(word[i], t[i])
         || (word[i] in "sS" && t[i] == '\U{017F}')
         || (word[i] in "kK" && t[i] == '\U{212A}')
  }

  predicate LabelMatches(re: Regex, f: LabelFilter, a: Attributes) {
    var v := Get(a, f.name);
    && v.Some?
    && (|| (f.values.None? && f.regex == "")
        || (f.values.Some? && v.value in f.values.value)
        || (f.regex != "" && re(f.regex, v.value)))
  }

  predicate TypeListed(f: MetricFilter, kind: Kind) {
    f.types.Some? && exists t :: t in f.types.value && EqualFold(KindName(kind), t)
  }

  predicate Matches(re: Regex, f: MetricFilter, name: string, kind: Kind, a: Attributes) {
    && (f.types.Some? ==> TypeListed(f, kind))
    && (|| (f.types.Some? && f.names.None? && f.regex == "" && f.labels.None?)
        || (f.names.Some? && name in f.names.value)
        || (f.regex != "" && re(f.regex, name))
        || (f.labels.Some? && exists l :: l in f.labels.value && LabelMatches(re, l, a)))
  }

  predicate Included(re: Regex, g: Grouping, name: string, kind: Kind, a: Attributes) {
    && (g.included.Some? ==> Matches(re, g.included.value, name, kind, a))
    && (g.excluded.Some? ==> !Matches(re, g.excluded.value, name, kind, a))
  }

  /** The search for a text in a list. */
  method Among(s: string, list: seq<string>) returns (found: bool)
    ensures found <==> s in list
  {
    for i := 0 to |list|
      invariant s !in list[..i]
    {
      if s == list[i] {
        return true;
      }
    }
    return false;
  }

  /** The search for the metric's type. */
  method TypeAmong(kind: Kind, types: seq<string>) returns (found: bool)
    ensures found <==> exists t :: t in types && EqualFold(KindName(kind), t)
  {
    hide EqualFold;
    for i := 0 to |types|
      invariant forall t | t in types[..i] :: !EqualFold(KindName(kind), t)
    {
      if EqualFold(KindName(kind), types[i]) {
        return true;
      }
    }
    return false;
  }

  /** The search for a label filter that matches: present, and unrestricted, listed or matching. */
  method AnyLabel(re: Regex, fs: seq<LabelFilter>, a: Attributes) returns (found: bool)
    ensures found <==> exists l :: l in fs && LabelMatches(re, l, a)
  {
    hide Get;
    for i := 0 to |fs|
      invariant forall l | l in fs[..i] :: !LabelMatches(re, l, a)
    {
      var f := fs[i];
      var value := Get(a, f.name);
      if value.None? {
        continue;
      }
      if f.values.None? && f.regex == "" {
        assert LabelMatches(re, f, a);
        return true;
      }
      if f.values.Some? {
        var listed := Among(value.value, f.values.value);
        if listed {
          assert LabelMatches(re, f, a);
          return true;
        }
      }
      if f.regex != "" && re(f.regex, value.value) {
        assert LabelMatches(re, f, a);
        return true;
      }
    }
    return false;
  }

  /** The filter's test with its early returns: a type list decides first, then name, pattern and labels. */
  method MatchesFilter(re: Regex, f: MetricFilter, name: string, kind: Kind, a: Attributes) returns (m: bool)
    ensures m <==> Matches(re, f, name, kind, a)
  {
    hide LabelMatches, EqualFold;
    if f.types.Some? {
      var found := TypeAmong(kind, f.types.value);
      if !found {
        return false;
      }
      if f.names.None? && f.regex == "" && f.labels.None? {
        return true;
      }
    }
    if f.names.Some? {
      var listed := Among(name, f.names.value);
      if listed {
        return true;
      }
    }
    if f.regex != "" && re(f.regex, name) {
      return true;
    }
    if f.labels.Some? {
      m := AnyLabel(re, f.labels.value, a);
      return;
    }
    return false;
  }

  method IncludeDatapoint(re: Regex, g: Grouping, name: string, kind: Kind, a: Attributes) returns (included: bool)
    ensures included <==> Included(re, g, name, kind, a)
  {
    hide Matches;
    var inMatches, outMatches := true, false;
    if g.included.Some? {
      inMatches := MatchesFilter(re, g.included.value, name, kind, a);
    }
    if g.excluded.Some? {
      outMatches := MatchesFilter(re, g.excluded.value, name, kind, a);
    }
    return inMatches && !outMatches;
  }

  // ---- Batches and the keys they count ----

  datatype Metric = Metric(name: string, kind: Kind, points: seq<Level>)

  datatype ScopeMetrics = ScopeMetrics(attrs: Level, metrics: seq<Metric>)

  datatype ResourceMetrics = ResourceMetrics(attrs: Level, scopes: seq<ScopeMetrics>)

  const PREFIX := "telemetry_stats_"

  /** The keys the first `n` points of a metric are counted under by one grouping. */
  function PointKeys(re: Regex, g: Grouping, m: Metric, res: Level, scope: Level, n: nat): (ks: seq<string>)
    requires n <= |m.points|
  {
    if n == 0 then []
    else
      var a := Attributes(res, scope, m.points[n - 1]);
      PointKeys(re, g, m, res, scope, n - 1)
      + (if Included(re, g, m.name, m.kind, a) then [Key(g.scheme, m.name, m.kind, a)] else [])
  }

  /** The processor's own stats are not counted, nor are metrics of other kinds. */
  predicate Countable(m: Metric) {
    !(PREFIX <= m.name) && !m.kind.OtherKind?
  }

  function MetricKeys(re: Regex, gs: seq<Grouping>, m: Metric, res: Level, scope: Level): (ks: seq<string>) {
    if gs == [] || !Countable(m) then []
    else
      MetricKeys(re, gs[..|gs| - 1], m, res, scope) + PointKeys(re, gs[|gs| - 1], m, res, scope, |m.points|)
  }

  function ScopeKeys(re: Regex, gs: seq<Grouping>, ms: seq<Metric>, res: Level, scope: Level): (ks: seq<string>) {
    if ms == [] then []
    else ScopeKeys(re, gs, ms[..|ms| - 1], res, scope) + MetricKeys(re, gs, ms[|ms| - 1], res, scope)
  }

  function ResourceKeys(re: Regex, gs: seq<Grouping>, ss: seq<ScopeMetrics>, res: Level): (ks: seq<string>) {
    if ss == [] then []
    else
      ResourceKeys(re, gs, ss[..|ss| - 1], res)
      + ScopeKeys(re, gs, ss[|ss| - 1].metrics, res, ss[|ss| - 1].attrs)
  }

  function BatchKeys(re: Regex, gs: seq<Grouping>, rs: seq<ResourceMetrics>): (ks: seq<string>) {
    if rs == [] then []
    else BatchKeys(re, gs, rs[..|rs| - 1]) + ResourceKeys(re, gs, rs[|rs| - 1].scopes, rs[|rs| - 1].attrs)
  }

  /** A batch and the time it is counted at. */
  datatype Batch = Batch(resources: seq<ResourceMetrics>, now: nat)

  /** The keys of a batch and the time it was counted. */
  datatype Keyed = Keyed(keys: seq<string>, now: nat)

  function KeyedBatches(re: Regex, gs: seq<Grouping>, bs: seq<Batch>): (ks: seq<Keyed>)
    ensures |ks| == |bs|
    ensures forall i | 0 <= i < |bs| :: ks[i] == Keyed(BatchKeys(re, gs, bs[i].resources), bs[i].now)
  {
    seq(|bs|, i requires 0 <= i < |bs| => Keyed(BatchKeys(re, gs, bs[i].resources), bs[i].now))
  }

  function Total(bs: seq<Keyed>, k: string): (n: nat) {
    if bs == [] then 0 else Total(bs[..|bs| - 1], k) + multiset(bs[|bs| - 1].keys)[k]
  }

  // ---- Data points by position ----

  /** One data point seen by one grouping. */
  datatype Position = Position(batch: nat, resource: nat, scope: nat, metric: nat, grouping: nat, point: nat)

  predicate HasResource(bs: seq<Batch>, p: Position) {
    p.batch < |bs| && p.resource < |bs[p.batch].resources|
  }

  function ResourceAt(bs: seq<Batch>, p: Position): (r: ResourceMetrics)
    requires HasResource(bs, p)
  {
    bs[p.batch].resources[p.resource]
  }

  predicate HasScope(bs: seq<Batch>, p: Position) {
    HasResource(bs, p) && p.scope < |ResourceAt(bs, p).scopes|
  }

  function ScopeAt(bs: seq<Batch>, p: Position): (s: ScopeMetrics)
    requires HasScope(bs, p)
  {
    ResourceAt(bs, p).scopes[p.scope]
  }

  predicate HasMetric(bs: seq<Batch>, p: Position) {
    HasScope(bs, p) && p.metric < |ScopeAt(bs, p).metrics|
  }

  function MetricAt(bs: seq<Batch>, p: Position): (m: Metric)
    requires HasMetric(bs, p)
  {
    ScopeAt(bs, p).metrics[p.metric]
  }

  /** The position exists, its metric is countable, the grouping includes the point and gives it the key. */
  predicate Hit(re: Regex, gs: seq<Grouping>, bs: seq<Batch>, k: string, p: Position) {
    && HasMetric(bs, p) && p.grouping < |gs| && p.point < |MetricAt(bs, p).points|
    && Counted(re, gs[p.grouping], MetricAt(bs, p), ResourceAt(bs, p).attrs, ScopeAt(bs, p).attrs, p.point, k)
  }

  /** One grouping counts one point of a metric under the key. */
  predicate Counted(re: Regex, g: Grouping, m: Metric, res: Level, scope: Level, point: nat, k: string)
    requires point < |m.points|
  {
    var a := Attributes(res, scope, m.points[point]);
    Countable(m) && Included(re, g, m.name, m.kind, a) && k == Key(g.scheme, m.name, m.kind, a)
  }

  ghost function Hits(re: Regex, gs: seq<Grouping>, bs: seq<Batch>, k: string): (s: set<Position>)
    ensures forall p :: p in s <==> Hit(re, gs, bs, k, p)
  {
    set b: nat, r: nat, s: nat, m: nat, g: nat, i: nat
      | && 0 <= b < |bs| && 0 <= r < |bs[b].resources| && 0 <= s < |bs[b].resources[r].scopes|
        && 0 <= m < |bs[b].resources[r].scopes[s].metrics| && 0 <= g < |gs|
        && 0 <= i < |bs[b].resources[r].scopes[s].metrics[m].points|
        && Hit(re, gs, bs, k, Position(b, r, s, m, g, i))
      :: Position(b, r, s, m, g, i)
  }

  // ---- The keys of a batch, counted by position ----

  // Each function keeps the hits that agree with `q` down to one level and lie below `n` at the next.

  ghost function PointsBelow(h: set<Position>, q: Position, n: nat): (s: set<Position>) {
    set p | p in h && p == q.(point := p.point) && p.point < n
  }

  ghost function GroupingsBelow(h: set<Position>, q: Position, n: nat): (s: set<Position>) {
    set p | p in h && p == q.(grouping := p.grouping, point := p.point) && p.grouping < n
  }

  ghost function MetricsBelow(h: set<Position>, q: Position, n: nat): (s: set<Position>) {
    set p | p in h && p.batch == q.batch && p.resource == q.resource && p.scope == q.scope && p.metric < n
  }

  ghost function ScopesBelow(h: set<Position>, q: Position, n: nat): (s: set<Position>) {
    set p | p in h && p.batch == q.batch && p.resource == q.resource && p.scope < n
  }

  ghost function ResourcesBelow(h: set<Position>, q: Position, n: nat): (s: set<Position>) {
    set p | p in h && p.batch == q.batch && p.resource < n
  }

  ghost function BatchesBelow(h: set<Position>, n: nat): (s: set<Position>) {
    set p | p in h && p.batch < n
  }

  lemma PointKeysLast(re: Regex, g: Grouping, m: Metric, res: Level, scope: Level, n: nat, k: string)
    requires 0 < n <= |m.points| && Countable(m)
    ensures multiset(PointKeys(re, g, m, res, scope, n))[k] ==
            multiset(PointKeys(re, g, m, res, scope, n - 1))[k]
                + if Counted(re, g, m, res, scope, n - 1, k) then 1 else 0
  {
    hide Included, Key, Countable;
  }

  lemma PointKeysNone(re: Regex, g: Grouping, m: Metric, res: Level, scope: Level, k: string)
    ensures multiset(PointKeys(re, g, m, res, scope, 0))[k] == 0
  {
    hide Included, Key;
  }

  lemma PointsSplit(h: set<Position>, q: Position, n: nat)
    ensures |PointsBelow(h, q, n + 1)| == |PointsBelow(h, q, n)| + if q.(point := n) in h then 1 else 0
  {
    var more := if q.(point := n) in h then {q.(point := n)} else {};
    assert PointsBelow(h, q, n + 1) == PointsBelow(h, q, n) + more;
    assert PointsBelow(h, q, n) * more == {};
  }

  /** The set holds exactly the points of a metric that the grouping counts under the key. */
  ghost predicate HoldsCounted(re: Regex, g: Grouping, m: Metric, res: Level, scope: Level, k: string,
                               h: set<Position>, q: Position)
  {
    forall i: nat | i < |m.points| :: q.(point := i) in h <==> Counted(re, g, m, res, scope, i, k)
  }

  lemma HoldsCountedAt(re: Regex, g: Grouping, m: Metric, res: Level, scope: Level, k: string,
                       h: set<Position>, q: Position, n: nat)
    requires HoldsCounted(re, g, m, res, scope, k, h, q) && n < |m.points|
    ensures q.(point := n) in h <==> Counted(re, g, m, res, scope, n, k)
  {
    hide Counted;
  }

  lemma {:induction false} PointHits(re: Regex, g: Grouping, m: Metric, res: Level, scope: Level, k: string,
                                     h: set<Position>, q: Position, n: nat)
    requires n <= |m.points| && Countable(m) && HoldsCounted(re, g, m, res, scope, k, h, q)
    ensures |PointsBelow(h, q, n)| == multiset(PointKeys(re, g, m, res, scope, n))[k]
  {
    hide *;
    if n == 0 {
      PointsEmpty(h, q);
      PointKeysNone(re, g, m, res, scope, k);
    } else {
      PointHits(re, g, m, res, scope, k, h, q, n - 1);
      PointKeysLast(re, g, m, res, scope, n, k);
      PointsSplit(h, q, n - 1);
      HoldsCountedAt(re, g, m, res, scope, k, h, q, n - 1);
    }
  }

  lemma PointsEmpty(h: set<Position>, q: Position)
    ensures |PointsBelow(h, q, 0)| == 0
  {
    assert PointsBelow(h, q, 0) == {};
  }

  lemma HitIsCounted(re: Regex, gs: seq<Grouping>, bs: seq<Batch>, k: string, q: Position)
    requires HasMetric(bs, q) && q.grouping < |gs|
    ensures HoldsCounted(re, gs[q.grouping], MetricAt(bs, q), ResourceAt(bs, q).attrs, ScopeAt(bs, q).attrs, k,
                         Hits(re, gs, bs, k), q)
  {
    hide Counted;
  }

  lemma GroupingsSplit(re: Regex, gs: seq<Grouping>, bs: seq<Batch>, k: string, q: Position, n: nat)
    requires HasMetric(bs, q)
    ensures var h, last, len := Hits(re, gs, bs, k), q.(grouping := n), |MetricAt(bs, q).points|;
            && GroupingsBelow(h, q, n + 1) == GroupingsBelow(h, q, n) + PointsBelow(h, last, len)
            && GroupingsBelow(h, q, n) * PointsBelow(h, last, len) == {}
            && (!Countable(MetricAt(bs, q)) ==> GroupingsBelow(h, q, n) == {})
  {
    hide Hits, Included, Key, Countable;
  }

  lemma OneGroupingHits(re: Regex, gs: seq<Grouping>, bs: seq<Batch>, k: string, q: Position)
    requires HasMetric(bs, q) && q.grouping < |gs| && Countable(MetricAt(bs, q))
    ensures var m, res, scope := MetricAt(bs, q), ResourceAt(bs, q).attrs, ScopeAt(bs, q).attrs;
            |PointsBelow(Hits(re, gs, bs, k), q, |m.points|)| ==
            multiset(PointKeys(re, gs[q.grouping], m, res, scope, |m.points|))[k]
  {
    hide Hits, Hit, Counted, Countable, PointKeys, PointsBelow, HoldsCounted;
    HitIsCounted(re, gs, bs, k, q);
    PointHits(re, gs[q.grouping], MetricAt(bs, q), ResourceAt(bs, q).attrs, ScopeAt(bs, q).attrs, k,
              Hits(re, gs, bs, k), q, |MetricAt(bs, q).points|);
  }

  lemma MetricKeysLast(re: Regex, gs: seq<Grouping>, m: Metric, res: Level, scope: Level, n: nat, k: string)
    requires 0 < n <= |gs| && Countable(m)
    ensures multiset(MetricKeys(re, gs[..n], m, res, scope))[k] ==
            multiset(MetricKeys(re, gs[..n - 1], m, res, scope))[k]
            + multiset(PointKeys(re, gs[n - 1], m, res, scope, |m.points|))[k]
  {
    hide Countable, PointKeys;
    assert gs[..n][..n - 1] == gs[..n - 1];
  }

  lemma {:induction false} GroupingHits(re: Regex, gs: seq<Grouping>, bs: seq<Batch>, k: string, q: Position, n: nat)
    requires HasMetric(bs, q) && n <= |gs|
    ensures |GroupingsBelow(Hits(re, gs, bs, k), q, n)| ==
            multiset(MetricKeys(re, gs[..n], MetricAt(bs, q), ResourceAt(bs, q).attrs, ScopeAt(bs, q).attrs))[k]
  {
    hide Hits, Hit, Countable, PointKeys;
    if n == 0 {
      assert GroupingsBelow(Hits(re, gs, bs, k), q, 0) == {};
    } else if !Countable(MetricAt(bs, q)) {
      GroupingsSplit(re, gs, bs, k, q, n);
    } else {
      hide GroupingsBelow, PointsBelow, MetricKeys;
      GroupingHits(re, gs, bs, k, q, n - 1);
      OneGroupingHits(re, gs, bs, k, q.(grouping := n - 1));
      MetricKeysLast(re, gs, MetricAt(bs, q), ResourceAt(bs, q).attrs, ScopeAt(bs, q).attrs, n, k);
      GroupingsSplit(re, gs, bs, k, q, n - 1);
    }
  }

  lemma MetricsSplit(re: Regex, gs: seq<Grouping>, bs: seq<Batch>, k: string, q: Position, n: nat)
    ensures var h, last := Hits(re, gs, bs, k), q.(metric := n);
            && MetricsBelow(h, q, n + 1) == MetricsBelow(h, q, n) + GroupingsBelow(h, last, |gs|)
            && MetricsBelow(h, q, n) * GroupingsBelow(h, last, |gs|) == {}
  {
    hide Hits, Counted, HasMetric;
  }

  lemma {:induction false} MetricHits(re: Regex, gs: seq<Grouping>, bs: seq<Batch>, k: string, q: Position, n: nat)
    requires HasScope(bs, q) && n <= |ScopeAt(bs, q).metrics|
    ensures |MetricsBelow(Hits(re, gs, bs, k), q, n)| ==
            multiset(ScopeKeys(re, gs, ScopeAt(bs, q).metrics[..n], ResourceAt(bs, q).attrs, ScopeAt(bs, q).attrs))[k]
  {
    hide Hits, Hit, MetricKeys;
    var ms := ScopeAt(bs, q).metrics;
    if n == 0 {
      assert MetricsBelow(Hits(re, gs, bs, k), q, 0) == {};
    } else {
      MetricHits(re, gs, bs, k, q, n - 1);
      GroupingHits(re, gs, bs, k, q.(metric := n - 1), |gs|);
      assert gs[..|gs|] == gs && ms[..n][..n - 1] == ms[..n - 1];
      MetricsSplit(re, gs, bs, k, q, n - 1);
      hide MetricsBelow, GroupingsBelow;
    }
  }

  lemma {:induction false} ScopeHits(re: Regex, gs: seq<Grouping>, bs: seq<Batch>, k: string, q: Position, n: nat)
    requires HasResource(bs, q) && n <= |ResourceAt(bs, q).scopes|
    ensures |ScopesBelow(Hits(re, gs, bs, k), q, n)| ==
            multiset(ResourceKeys(re, gs, ResourceAt(bs, q).scopes[..n], ResourceAt(bs, q).attrs))[k]
  {
    hide Hits, Counted, ScopeKeys;
    var h := Hits(re, gs, bs, k);
    var ss := ResourceAt(bs, q).scopes;
    if n == 0 {
      assert ScopesBelow(h, q, 0) == {};
    } else {
      ScopeHits(re, gs, bs, k, q, n - 1);
      var last := q.(scope := n - 1);
      var len := |ss[n - 1].metrics|;
      MetricHits(re, gs, bs, k, last, len);
      assert ss[n - 1].metrics[..len] == ss[n - 1].metrics && ss[..n][..n - 1] == ss[..n - 1];
      assert ScopesBelow(h, q, n) == ScopesBelow(h, q, n - 1) + MetricsBelow(h, last, len);
      assert ScopesBelow(h, q, n - 1) * MetricsBelow(h, last, len) == {};
    }
  }

  lemma {:induction false} ResourceHits(re: Regex, gs: seq<Grouping>, bs: seq<Batch>, k: string, q: Position, n: nat)
    requires q.batch < |bs| && n <= |bs[q.batch].resources|
    ensures |ResourcesBelow(Hits(re, gs, bs, k), q, n)| == multiset(BatchKeys(re, gs, bs[q.batch].resources[..n]))[k]
  {
    hide Hits, Counted, ResourceKeys;
    var h := Hits(re, gs, bs, k);
    var rs := bs[q.batch].resources;
    if n == 0 {
      assert ResourcesBelow(h, q, 0) == {};
    } else {
      ResourceHits(re, gs, bs, k, q, n - 1);
      var last := q.(resource := n - 1);
      var len := |rs[n - 1].scopes|;
      ScopeHits(re, gs, bs, k, last, len);
      assert rs[n - 1].scopes[..len] == rs[n - 1].scopes && rs[..n][..n - 1] == rs[..n - 1];
      assert ResourcesBelow(h, q, n) == ResourcesBelow(h, q, n - 1) + ScopesBelow(h, last, len);
      assert ResourcesBelow(h, q, n - 1) * ScopesBelow(h, last, len) == {};
    }
  }

  /** The hits of one batch. */
  ghost function HitsIn(re: Regex, gs: seq<Grouping>, bs: seq<Batch>, k: string, b: nat): (s: set<Position>) {
    set p | p in Hits(re, gs, bs, k) && p.batch == b
  }

  /** A key occurs in a batch's key list as often as there are positions counted under it. */
  lemma BatchKeysCount(re: Regex, gs: seq<Grouping>, bs: seq<Batch>, k: string, b: nat)
    requires b < |bs|
    ensures multiset(BatchKeys(re, gs, bs[b].resources))[k] == |HitsIn(re, gs, bs, k, b)|
  {
    hide Hits, Counted, BatchKeys;
    var q := Position(b, 0, 0, 0, 0, 0);
    var len := |bs[b].resources|;
    ResourceHits(re, gs, bs, k, q, len);
    assert bs[b].resources[..len] == bs[b].resources;
    assert HitsIn(re, gs, bs, k, b) == ResourcesBelow(Hits(re, gs, bs, k), q, len);
  }

  /** The same over any sequence of batches. */
  lemma {:induction false} TotalCountsHits(re: Regex, gs: seq<Grouping>, bs: seq<Batch>, k: string, n: nat)
    requires n <= |bs|
    ensures Total(KeyedBatches(re, gs, bs)[..n], k) == |BatchesBelow(Hits(re, gs, bs, k), n)|
  {
    hide Hits, Hit, BatchKeys;
    var h, ks := Hits(re, gs, bs, k), KeyedBatches(re, gs, bs);
    if n == 0 {
      assert BatchesBelow(h, 0) == {};
    } else {
      TotalCountsHits(re, gs, bs, k, n - 1);
      BatchKeysCount(re, gs, bs, k, n - 1);
      assert ks[..n][..n - 1] == ks[..n - 1];
      var last := HitsIn(re, gs, bs, k, n - 1);
      assert BatchesBelow(h, n) == BatchesBelow(h, n - 1) + last;
      assert BatchesBelow(h, n - 1) * last == {};
    }
  }

  // ---- What the filters decide ----

  /** Every existing position is counted by some key exactly if its metric is none of the processor's own,
      has one of the four kinds, and passes the grouping's filters; and then under its own key only. */
  lemma CountedIff(re: Regex, gs: seq<Grouping>, bs: seq<Batch>, p: Position)
    requires HasMetric(bs, p) && p.grouping < |gs| && p.point < |MetricAt(bs, p).points|
    ensures var m, g := MetricAt(bs, p), gs[p.grouping];
            var a := Attributes(ResourceAt(bs, p).attrs, ScopeAt(bs, p).attrs, m.points[p.point]);
            && ((exists k :: p in Hits(re, gs, bs, k)) <==>
                && !("telemetry_stats_" <= m.name)
                && (m.kind.Gauge? || m.kind.Sum? || m.kind.Histogram? || m.kind.Summary?)
                && (g.included.Some? ==> Matches(re, g.included.value, m.name, m.kind, a))
                && (g.excluded.Some? ==> !Matches(re, g.excluded.value, m.name, m.kind, a)))
            && (forall k | p in Hits(re, gs, bs, k) :: k == Key(g.scheme, m.name, m.kind, a))
  {
    hide Matches, Key, Hits;
    var m, g := MetricAt(bs, p), gs[p.grouping];
    var k :=
        Key(g.scheme, m.name, m.kind, Attributes(ResourceAt(bs, p).attrs, ScopeAt(bs, p).attrs, m.points[p.point]));
    assert Hit(re, gs, bs, k, p) <==> p in Hits(re, gs, bs, k);
  }

  /** Without filters nothing but the processor's own metrics and other kinds is left out. */
  lemma UnfilteredCounted(re: Regex, gs: seq<Grouping>, bs: seq<Batch>, p: Position) returns (k: string)
    requires HasMetric(bs, p) && p.grouping < |gs| && p.point < |MetricAt(bs, p).points|
    requires gs[p.grouping].included.None? && gs[p.grouping].excluded.None?
    requires !("telemetry_stats_" <= MetricAt(bs, p).name) && !MetricAt(bs, p).kind.OtherKind?
    ensures p in Hits(re, gs, bs, k)
  {
    hide Matches, Key, Hits;
    CountedIff(re, gs, bs, p);
    k :| p in Hits(re, gs, bs, k);
  }

  /** A point that matches the exclude filter is in no counter, whatever the include filter says. */
  lemma ExcludedNever(re: Regex, gs: seq<Grouping>, bs: seq<Batch>, p: Position, k: string)
    requires HasMetric(bs, p) && p.grouping < |gs| && p.point < |MetricAt(bs, p).points|
    requires var m, out := MetricAt(bs, p), gs[p.grouping].excluded;
             out.Some? && Matches(re, out.value, m.name, m.kind,
                                  Attributes(ResourceAt(bs, p).attrs, ScopeAt(bs, p).attrs, m.points[p.point]))
    ensures p !in Hits(re, gs, bs, k)
  {
    hide Matches, Key, Hits;
    CountedIff(re, gs, bs, p);
  }

  /** A type list rejects every other type, and on its own accepts the listed ones; a filter that lists
      nothing matches nothing. */
  lemma TypesDecide(re: Regex, f: MetricFilter, name: string, kind: Kind, a: Attributes)
    ensures f.types.Some? && (forall t | t in f.types.value :: !EqualFold(KindName(kind), t)) ==>
              !Matches(re, f, name, kind, a)
    ensures f.names.None? && f.regex == "" && f.labels.None? ==>
              (Matches(re, f, name, kind, a) <==>
               f.types.Some? && exists t :: t in f.types.value && EqualFold(KindName(kind), t))
  {
    hide EqualFold;
  }

  /** Within the listed types a name, a pattern or a single label suffices. */
  lemma OneSuffices(re: Regex, f: MetricFilter, name: string, kind: Kind, a: Attributes)
    requires f.types.None? || exists t :: t in f.types.value && EqualFold(KindName(kind), t)
    ensures f.names.Some? && name in f.names.value ==> Matches(re, f, name, kind, a)
    ensures f.regex != "" && re(f.regex, name) ==> Matches(re, f, name, kind, a)
    ensures f.labels.Some? ==>
              forall l, v | l in f.labels.value && Get(a, l.name) == Some(v) ::
                (|| (l.values.None? && l.regex == "")
                 || (l.values.Some? && v in l.values.value)
                 || (l.regex != "" && re(l.regex, v))) ==> Matches(re, f, name, kind, a)
  {
    hide EqualFold, Get;
    if f.labels.Some? {
      forall l, v | l in f.labels.value && Get(a, l.name) == Some(v)
        ensures (|| (l.values.None? && l.regex == "")
                 || (l.values.Some? && v in l.values.value)
                 || (l.regex != "" && re(l.regex, v))) ==> LabelMatches(re, l, a)
      {
      }
    }
  }
}
