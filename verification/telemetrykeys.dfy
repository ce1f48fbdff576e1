/** Counter keys: a data point's grouping, name, type and labels printed into one string, and the
    labels recovered from that string when counters are scraped. */
module TelemetryKeys {
  import opened Options

  // ---- Splitting and joining ----

  function IndexOf(s: string, c: char): (i: nat)
    requires c in s
    ensures i < |s| && s[i] == c && c !in s[..i]
  {
    if s[0] == c then 0 else 1 + IndexOf(s[1..], c)
  }

  /** `strings.Split` on one character. */
  function Split(s: string, c: char): (ps: seq<string>)
    ensures |ps| >= 1
    ensures forall i | 0 <= i < |ps| :: c !in ps[i]
    decreases |s|
  {
    if c !in s then [s]
    else
      var i := IndexOf(s, c);
      [s[..i]] + Split(s[i + 1..], c)
  }

  /** `strings.Join` with one character. */
  function Join(ps: seq<string>, c: char): (s: string) {
    if ps == [] then ""
    else if |ps| == 1 then ps[0]
    else ps[0] + [c] + Join(ps[1..], c)
  }

  /** `strings.SplitN(part, "=", 2)`, when it yields two pieces. */
  function Cut(part: string): (kv: Option<(string, string)>) {
    if '=' in part then var i := IndexOf(part, '='); Some((part[..i], part[i + 1..])) else None
  }

  lemma {:induction false} IndexOfSplice(a: string, c: char, b: string)
    requires c !in a
    ensures c in a + [c] + b && IndexOf(a + [c] + b, c) == |a|
  {
    var s := a + [c] + b;
    assert s[|a|] == c;
    if a != [] {
      assert s[0] == a[0] && s[1..] == a[1..] + [c] + b;
      IndexOfSplice(a[1..], c, b);
    }
  }

  lemma SplitSplice(a: string, c: char, b: string)
    requires c !in a
    ensures Split(a + [c] + b, c) == [a] + Split(b, c)
  {
    var s := a + [c] + b;
    assert s[|a|] == c;
    IndexOfSplice(a, c, b);
    assert s[..|a|] == a && s[|a| + 1..] == b;
  }

  lemma {:induction false} SplitJoinClean(ps: seq<string>, c: char)
    requires ps != [] && forall i | 0 <= i < |ps| :: c !in ps[i]
    ensures Split(Join(ps, c), c) == ps
  {
    if |ps| > 1 {
      SplitJoinClean(ps[1..], c);
      SplitSplice(ps[0], c, Join(ps[1..], c));
    }
  }

  /** Joining loses nothing exactly when no piece contains the separator. */
  lemma SplitJoin(ps: seq<string>, c: char)
    requires ps != []
    ensures Split(Join(ps, c), c) == ps <==> forall i | 0 <= i < |ps| :: c !in ps[i]
  {
    if forall i | 0 <= i < |ps| :: c !in ps[i] {
      SplitJoinClean(ps, c);
    }
  }

  lemma CutPair(k: string, v: string)
    requires '=' !in k
    ensures Cut(k + "=" + v) == Some((k, v))
  {
    var s := k + ['='] + v;
    IndexOfSplice(k, '=', v);
    assert s == k + "=" + v;
    assert s[|k|] == '=';
    assert s[..|k|] == k && s[|k| + 1..] == v;
  }

  // ---- Keys ----

  datatype Kind = Gauge | Sum | Histogram | Summary | OtherKind

  function KindName(k: Kind): (s: string) {
    match k
    case Gauge => "Gauge"
    case Sum => "Counter"
    case Histogram => "Histogram"
    case Summary => "Summary"
    case OtherKind => "Unknown"
  }

  datatype Value = Str(s: string) | NotStr

  type Level = map<string, Value>

  /** Attributes of a data point at three levels; the more specific level wins. */
  datatype Attributes = Attributes(resource: Level, scope: Level, datapoint: Level)

  function Get(a: Attributes, name: string): (v: Option<string>) {
    var value :=
      if name in a.datapoint then a.datapoint[name]
      else if name in a.scope then a.scope[name]
      else if name in a.resource then a.resource[name]
      else NotStr;
    if value.Str? then Some(value.s) else None
  }

  /** The attribute is read from the most specific level that has the name, and only there. */
  lemma GetPrecedence(a: Attributes, name: string, v: string)
    ensures Get(a, name) == Some(v) <==>
            || (name in a.datapoint && a.datapoint[name] == Str(v))
            || (name !in a.datapoint && name in a.scope && a.scope[name] == Str(v))
            || (name !in a.datapoint && name !in a.scope && name in a.resource && a.resource[name] == Str(v))
  {
  }

  /** How a grouping forms its keys. */
  datatype Scheme = Scheme(name: string, byName: bool, byKind: bool, labels: seq<string>)

  function LabelParts(names: seq<string>, a: Attributes): (ps: seq<string>) {
    if names == [] then []
    else
      var n := names[|names| - 1];
      LabelParts(names[..|names| - 1], a) + (if Get(a, n).Some? then [n + "=" + Get(a, n).value] else [])
  }

  function NamePart(g: Scheme, name: string): (ps: seq<string>) {
    if g.byName then ["__name" + "=" + name] else []
  }

  function KindPart(g: Scheme, kind: Kind): (ps: seq<string>) {
    if g.byKind then ["__type" + "=" + KindName(kind)] else []
  }

  function NameParts(g: Scheme, name: string, kind: Kind): (ps: seq<string>) {
    NamePart(g, name) + KindPart(g, kind)
  }

  function Key(g: Scheme, name: string, kind: Kind, a: Attributes): (key: string) {
    Join([g.name] + NameParts(g, name, kind) + LabelParts(g.labels, a), ':')
  }

  // ---- Reading a key back ----

  type Labels = map<string, string>

  const SOURCE := "telemetrystatsprocessor:0.0.1"

  function AddPart(ls: Labels, part: string): (ls': Labels) {
    match Cut(part)
    case None => ls
    case Some((k, v)) =>
      if k == "__name" then ls["metric_name" := v]
      else if k == "__type" then ls["metric_type" := v]
      else ls[k := v]
  }

  function AddParts(ls: Labels, ps: seq<string>): (ls': Labels) {
    if ps == [] then ls else AddPart(AddParts(ls, ps[..|ps| - 1]), ps[|ps| - 1])
  }

  function Base(group: string): (ls: Labels) {
    map["source" := SOURCE, "grouping" := group]
  }

  /** The label map a scrape makes of a key. */
  method ParseKey(key: string) returns (ls: Labels)
    ensures var ps := Split(key, ':'); ls == AddParts(Base(ps[0]), ps[1..])
  {
    var ps := Split(key, ':');
    ls := Base(ps[0]);
    var rest := ps[1..];
    for i := 0 to |rest|
      invariant ls == AddParts(Base(ps[0]), rest[..i])
    {
      assert rest[..i + 1][..i] == rest[..i];
      ls := AddPart(ls, rest[i]);
    }
    assert rest[..|rest|] == rest;
  }

  // ---- Round trip ----

  /** The labels a data point has among the grouping's names. */
  function Present(names: seq<string>, a: Attributes): (ls: Labels) {
    if names == [] then map[]
    else
      var n := names[|names| - 1];
      var before := Present(names[..|names| - 1], a);
      if Get(a, n).Some? then before[n := Get(a, n).value] else before
  }

  predicate ReservedName(n: string) {
    n in ["source", "grouping", "metric_name", "metric_type", "__name", "__type"]
  }

  predicate CleanLabels(names: seq<string>, a: Attributes) {
    forall i | 0 <= i < |names| ::
      && ':' !in names[i] && '=' !in names[i] && !ReservedName(names[i])
      && (Get(a, names[i]).Some? ==> ':' !in Get(a, names[i]).value)
  }

  /** Nothing printed into the key contains a separator it must not. */
  predicate Clean(g: Scheme, name: string, a: Attributes) {
    ':' !in g.name && (g.byName ==> ':' !in name) && CleanLabels(g.labels, a)
  }

  /** The labels every key of a grouping has. */
  function Fixed(g: Scheme, name: string, kind: Kind): (ls: Labels) {
    Base(g.name) + NameLabel(g, name) + KindLabel(g, kind)
  }

  function NameLabel(g: Scheme, name: string): (ls: Labels) {
    if g.byName then map["metric_name" := name] else map[]
  }

  function KindLabel(g: Scheme, kind: Kind): (ls: Labels) {
    if g.byKind then map["metric_type" := KindName(kind)] else map[]
  }

  /** What the key stands for, as labels. */
  function Meaning(g: Scheme, name: string, kind: Kind, a: Attributes): (ls: Labels) {
    Fixed(g, name, kind) + Present(g.labels, a)
  }

  lemma NoColon(a: string, b: string)
    ensures ':' in a + b <==> ':' in a || ':' in b
  {
  }

  lemma {:induction false} LabelPartsClean(names: seq<string>, a: Attributes)
    requires CleanLabels(names, a)
    ensures forall i | 0 <= i < |LabelParts(names, a)| :: ':' !in LabelParts(names, a)[i]
  {
    if names != [] {
      var n := names[|names| - 1];
      LabelPartsClean(names[..|names| - 1], a);
      if Get(a, n).Some? {
        NoColon(n + "=", Get(a, n).value);
        NoColon(n, "=");
      }
    }
  }

  lemma NamePartsClean(g: Scheme, name: string, kind: Kind)
    requires g.byName ==> ':' !in name
    ensures forall i | 0 <= i < |NameParts(g, name, kind)| :: ':' !in NameParts(g, name, kind)[i]
  {
    NoColon("__name" + "=", name);
    NoColon("__type" + "=", KindName(kind));
  }

  lemma {:induction false} AddPartsAppend(ls: Labels, ps: seq<string>, qs: seq<string>)
    ensures AddParts(ls, ps + qs) == AddParts(AddParts(ls, ps), qs)
  {
    if qs == [] {
      assert ps + qs == ps;
    } else {
      var n := |qs| - 1;
      AddPartsAppend(ls, ps, qs[..n]);
      assert (ps + qs)[..|ps + qs| - 1] == ps + qs[..n];
    }
  }

  lemma ReadLabel(ls: Labels, n: string, v: string)
    requires '=' !in n && !ReservedName(n)
    ensures AddParts(ls, [n + "=" + v]) == ls[n := v]
  {
    CutPair(n, v);
    ReadOne(ls, n + "=" + v);
  }

  lemma ReadLastLabel(ls: Labels, names: seq<string>, a: Attributes)
    requires CleanLabels(names, a) && names != []
    requires AddParts(ls, LabelParts(names[..|names| - 1], a)) == ls + Present(names[..|names| - 1], a)
    ensures AddParts(ls, LabelParts(names, a)) == ls + Present(names, a)
  {
    hide Get, AddPart, AddParts, ReservedName;
    var n := names[|names| - 1];
    var before := LabelParts(names[..|names| - 1], a);
    if Get(a, n).Some? {
      AddPartsAppend(ls, before, [n + "=" + Get(a, n).value]);
      ReadLabel(AddParts(ls, before), n, Get(a, n).value);
    } else {
      assert before + [] == before;
    }
  }

  lemma {:induction false} ReadLabels(ls: Labels, names: seq<string>, a: Attributes)
    requires CleanLabels(names, a)
    ensures AddParts(ls, LabelParts(names, a)) == ls + Present(names, a)
  {
    hide Get, AddPart, ReservedName;
    if names != [] {
      ReadLabels(ls, names[..|names| - 1], a);
      ReadLastLabel(ls, names, a);
    }
  }

  lemma ReadOne(ls: Labels, part: string)
    ensures AddParts(ls, [part]) == AddPart(ls, part)
  {
    assert AddParts(ls, [part][..0]) == ls;
  }

  lemma ReadName(ls: Labels, g: Scheme, name: string)
    ensures AddParts(ls, NamePart(g, name)) == ls + NameLabel(g, name)
  {
    CutPair("__name", name);
    ReadOne(ls, "__name" + "=" + name);
  }

  lemma ReadKind(ls: Labels, g: Scheme, kind: Kind)
    ensures AddParts(ls, KindPart(g, kind)) == ls + KindLabel(g, kind)
  {
    CutPair("__type", KindName(kind));
    ReadOne(ls, "__type" + "=" + KindName(kind));
    hide KindName;
    assert "__type"[2] != "__name"[2];
  }

  lemma ReadNames(g: Scheme, name: string, kind: Kind)
    ensures AddParts(Base(g.name), NameParts(g, name, kind)) == Fixed(g, name, kind)
  {
    hide AddParts, Base, NamePart, KindPart, NameLabel, KindLabel;
    AddPartsAppend(Base(g.name), NamePart(g, name), KindPart(g, kind));
    ReadName(Base(g.name), g, name);
    ReadKind(Base(g.name) + NameLabel(g, name), g, kind);
  }

  /** Reading a generated key back yields exactly the grouping, name, type and present labels. */
  lemma KeyRoundTrip(g: Scheme, name: string, kind: Kind, a: Attributes)
    requires Clean(g, name, a)
    ensures var ps := Split(Key(g, name, kind, a), ':');
            AddParts(Base(ps[0]), ps[1..]) == Meaning(g, name, kind, a)
  {
    hide NameParts, LabelParts, AddParts, Split, Join, Fixed, Present, Base;
    var ns, ls := NameParts(g, name, kind), LabelParts(g.labels, a);
    var parts := [g.name] + ns + ls;
    NamePartsClean(g, name, kind);
    LabelPartsClean(g.labels, a);
    SplitJoin(parts, ':');
    assert parts[1..] == ns + ls;
    AddPartsAppend(Base(g.name), ns, ls);
    ReadNames(g, name, kind);
    ReadLabels(AddParts(Base(g.name), ns), g.labels, a);
  }

  // ---- When the round trip holds ----

  /** What a grouping's label names must be for a key to be readable at all. */
  predicate PlainNames(names: seq<string>) {
    forall i | 0 <= i < |names| :: ':' !in names[i] && '=' !in names[i] && !ReservedName(names[i])
  }

  /** Every value except the source label holds no colon. */
  predicate ColonFree(ls: Labels) {
    forall n | n in ls && n != "source" :: ':' !in ls[n]
  }

  lemma CutColonFree(part: string)
    requires ':' !in part
    ensures Cut(part).Some? ==> ':' !in Cut(part).value.1
  {
  }

  lemma {:induction false} ReadColonFree(ls: Labels, ps: seq<string>)
    requires ColonFree(ls)
    requires forall i | 0 <= i < |ps| :: ':' !in ps[i]
    ensures ColonFree(AddParts(ls, ps))
  {
    if ps != [] {
      ReadColonFree(ls, ps[..|ps| - 1]);
      CutColonFree(ps[|ps| - 1]);
      hide AddParts, Cut;
      assert AddParts(ls, ps) == AddPart(AddParts(ls, ps[..|ps| - 1]), ps[|ps| - 1]) by {
        AddPartsLast(ls, ps);
      }
    }
  }

  lemma AddPartsLast(ls: Labels, ps: seq<string>)
    requires ps != []
    ensures AddParts(ls, ps) == AddPart(AddParts(ls, ps[..|ps| - 1]), ps[|ps| - 1])
  {
    hide AddPart;
  }

  lemma MeaningColonFree(g: Scheme, name: string, kind: Kind, a: Attributes)
    requires PlainNames(g.labels)
    requires ColonFree(Meaning(g, name, kind, a))
    ensures Clean(g, name, a)
  {
    var m := Meaning(g, name, kind, a);
    FixedLabels(g, name, kind);
    PresentIsGet(g.labels, a);
    hide Fixed, Present, KindName, Get;
    assert "source"[0] != "grouping"[0] && "source"[0] != "metric_name"[0];
    assert ReservedName("grouping") && ReservedName("metric_name") && ReservedName("source");
    assert "grouping" in m && m["grouping"] == g.name;
    assert g.byName ==> "metric_name" in m && m["metric_name"] == name;
    forall i | 0 <= i < |g.labels| && Get(a, g.labels[i]).Some?
      ensures ':' !in Get(a, g.labels[i]).value
    {
      var n := g.labels[i];
      assert n in Present(g.labels, a);
      assert n in m && m[n] == Get(a, n).value;
    }
  }

  /** For a grouping with plain label names, reading a generated key back yields the data point's
      labels exactly when nothing printed into the key contains a colon. */
  lemma KeyRoundTripIff(g: Scheme, name: string, kind: Kind, a: Attributes)
    requires PlainNames(g.labels)
    ensures var ps := Split(Key(g, name, kind, a), ':');
            AddParts(Base(ps[0]), ps[1..]) == Meaning(g, name, kind, a) <==> Clean(g, name, a)
  {
    var ps := Split(Key(g, name, kind, a), ':');
    if Clean(g, name, a) {
      KeyRoundTrip(g, name, kind, a);
    }
    if AddParts(Base(ps[0]), ps[1..]) == Meaning(g, name, kind, a) {
      hide AddParts, Key, Clean, Meaning;
      assert ':' !in ps[0];
      ReadColonFree(Base(ps[0]), ps[1..]);
      MeaningColonFree(g, name, kind, a);
    }
  }

  /** Two data points are the same to a grouping. */
  predicate SameIdentity(g: Scheme, name: string, kind: Kind, a: Attributes, name': string, kind': Kind,
                         a': Attributes) {
    && (g.byName ==> name == name')
    && (g.byKind ==> KindName(kind) == KindName(kind'))
    && Present(g.labels, a) == Present(g.labels, a')
  }

  lemma {:induction false} SamePresentSameParts(names: seq<string>, a: Attributes, a': Attributes)
    ensures Present(names, a) == Present(names, a') <==>
              forall i | 0 <= i < |names| :: Get(a, names[i]) == Get(a', names[i])
    ensures Present(names, a) == Present(names, a') ==> LabelParts(names, a) == LabelParts(names, a')
  {
    PresentIsGet(names, a);
    PresentIsGet(names, a');
    hide Get;
    if forall i | 0 <= i < |names| :: Get(a, names[i]) == Get(a', names[i]) {
      SameGets(names, a, a');
    }
    if Present(names, a) == Present(names, a') {
      forall i | 0 <= i < |names| ensures Get(a, names[i]) == Get(a', names[i]) {
        assert names[i] in names;
      }
    }
  }

  lemma {:induction false} PresentIsGet(names: seq<string>, a: Attributes)
    ensures forall n :: n in Present(names, a) <==> n in names && Get(a, n).Some?
    ensures forall n | n in Present(names, a) :: Get(a, n) == Some(Present(names, a)[n])
  {
    hide Get;
    if names != [] {
      PresentIsGet(names[..|names| - 1], a);
      assert names == names[..|names| - 1] + [names[|names| - 1]];
    }
  }

  lemma {:induction false} SameGets(names: seq<string>, a: Attributes, a': Attributes)
    requires forall i | 0 <= i < |names| :: Get(a, names[i]) == Get(a', names[i])
    ensures Present(names, a) == Present(names, a') && LabelParts(names, a) == LabelParts(names, a')
  {
    hide Get;
    if names != [] {
      SameGets(names[..|names| - 1], a, a');
    }
  }

  /** For one grouping: data points that are the same, as far as the grouping looks, always share a key; and a
      data point without colons is the same as another exactly when they share the key and the other has no
      colon either. */
  lemma KeysIdentify(g: Scheme, name: string, kind: Kind, a: Attributes, name': string, kind': Kind, a': Attributes)
    ensures SameIdentity(g, name, kind, a, name', kind', a') ==> Key(g, name, kind, a) == Key(g, name', kind', a')
    ensures Clean(g, name, a) ==>
              (SameIdentity(g, name, kind, a, name', kind', a') <==>
               Key(g, name, kind, a) == Key(g, name', kind', a') && Clean(g, name', a'))
  {
    SamePresentSameParts(g.labels, a, a');
    if Clean(g, name, a) && SameIdentity(g, name, kind, a, name', kind', a') {
      SameIsClean(g, name, kind, a, name', kind', a');
    }
    if Clean(g, name, a) && Clean(g, name', a') {
      KeyRoundTrip(g, name, kind, a);
      KeyRoundTrip(g, name', kind', a');
      if Meaning(g, name, kind, a) == Meaning(g, name', kind', a') {
        MeaningIdentifies(g, name, kind, a, name', kind', a');
      }
    }
    hide Split, AddParts, Meaning, Present, LabelParts;
  }

  lemma SameIsClean(g: Scheme, name: string, kind: Kind, a: Attributes, name': string, kind': Kind, a': Attributes)
    requires Clean(g, name, a) && SameIdentity(g, name, kind, a, name', kind', a')
    ensures Clean(g, name', a')
  {
    SamePresentSameParts(g.labels, a, a');
    hide Get, Present, ReservedName, KindName;
  }

  lemma FixedLabels(g: Scheme, name: string, kind: Kind)
    ensures forall n | n in Fixed(g, name, kind) :: ReservedName(n)
    ensures "grouping" in Fixed(g, name, kind) && Fixed(g, name, kind)["grouping"] == g.name
    ensures g.byName ==> "metric_name" in Fixed(g, name, kind) && Fixed(g, name, kind)["metric_name"] == name
    ensures g.byKind ==> "metric_type" in Fixed(g, name, kind) && Fixed(g, name, kind)["metric_type"] == KindName(kind)
  {
    hide KindName;
    assert "metric_name"[7] != "metric_type"[7];
  }

  lemma PresentNotReserved(names: seq<string>, a: Attributes)
    requires CleanLabels(names, a)
    ensures forall n | n in Present(names, a) :: !ReservedName(n)
  {
    PresentIsGet(names, a);
    hide Get, Present, ReservedName;
    forall n | n in Present(names, a) ensures !ReservedName(n) {
      var i :| 0 <= i < |names| && names[i] == n;
    }
  }

  lemma LayersApart(f: Labels, p: Labels, f': Labels, p': Labels)
    requires f + p == f' + p'
    requires forall n | n in f || n in f' :: ReservedName(n)
    requires forall n | n in p || n in p' :: !ReservedName(n)
    ensures f == f' && p == p'
  {
    hide ReservedName;
    var m, m' := f + p, f' + p';
    forall n ensures (n in p <==> n in p') && (n in f <==> n in f') {
      assert n in m <==> n in m';
      assert n in m <==> n in f || n in p;
      assert n in m' <==> n in f' || n in p';
    }
    forall n | n in p ensures p[n] == p'[n] {
      assert m[n] == p[n] && m'[n] == p'[n];
    }
    forall n | n in f ensures f[n] == f'[n] {
      assert m[n] == f[n] && m'[n] == f'[n];
    }
  }

  lemma MeaningIdentifies(g: Scheme, name: string, kind: Kind, a: Attributes, name': string, kind': Kind,
                          a': Attributes)
    requires CleanLabels(g.labels, a) && CleanLabels(g.labels, a')
    requires Meaning(g, name, kind, a) == Meaning(g, name', kind', a')
    ensures SameIdentity(g, name, kind, a, name', kind', a')
  {
    FixedLabels(g, name, kind);
    FixedLabels(g, name', kind');
    PresentNotReserved(g.labels, a);
    PresentNotReserved(g.labels, a');
    hide Fixed, Present, KindName, ReservedName, CleanLabels;
    LayersApart(Fixed(g, name, kind), Present(g.labels, a), Fixed(g, name', kind'), Present(g.labels, a'));
  }

  /** A reported label map read one label at a time: where it comes from, the grouping, the metric's name and
      type if the grouping asks for them, and each listed label the data point has; nothing else. */
  ghost predicate Says(ls: Labels, g: Scheme, name: string, kind: Kind, a: Attributes) {
    && "source" in ls && ls["source"] == "telemetrystatsprocessor:0.0.1"
    && "grouping" in ls && ls["grouping"] == g.name
    && (if g.byName then "metric_name" in ls && ls["metric_name"] == name else "metric_name" !in ls)
    && (if g.byKind then "metric_type" in ls && ls["metric_type"] == KindName(kind) else "metric_type" !in ls)
    && "__name" !in ls && "__type" !in ls
    && (forall n | !ReservedName(n) :: n in ls <==> n in g.labels && Get(a, n).Some?)
    && (forall n | !ReservedName(n) && n in ls :: Get(a, n) == Some(ls[n]))
  }

  lemma FixedSays(g: Scheme, name: string, kind: Kind)
    ensures Says(Fixed(g, name, kind), g.(labels := []), name, kind, Attributes(map[], map[], map[]))
  {
    FixedLabels(g, name, kind);
    FixedSource(g, name, kind);
    FixedAbsent(g, name, kind);
    hide Fixed, KindName, ReservedName;
  }

  lemma FixedSource(g: Scheme, name: string, kind: Kind)
    ensures "source" in Fixed(g, name, kind)
    ensures Fixed(g, name, kind)["source"] == "telemetrystatsprocessor:0.0.1"
  {
    hide KindName;
    assert "source"[0] != "grouping"[0] && "source"[0] != "metric_name"[0] && "source"[0] != "metric_type"[0];
  }

  lemma FixedAbsent(g: Scheme, name: string, kind: Kind)
    ensures "__name" !in Fixed(g, name, kind) && "__type" !in Fixed(g, name, kind)
    ensures !g.byName ==> "metric_name" !in Fixed(g, name, kind)
    ensures !g.byKind ==> "metric_type" !in Fixed(g, name, kind)
  {
    hide KindName;
    assert "metric_name"[7] != "metric_type"[7];
    forall n | n in Fixed(g, name, kind) ensures n[0] != '_' {
    }
  }

  /** The meaning of a key says what the data point says. */
  lemma MeaningSays(g: Scheme, name: string, kind: Kind, a: Attributes)
    requires PlainNames(g.labels)
    ensures Says(Meaning(g, name, kind, a), g, name, kind, a)
  {
    FixedSays(g, name, kind);
    PresentIsGet(g.labels, a);
    FixedLabels(g, name, kind);
    hide Fixed, Present, KindName, Get;
    var f, p := Fixed(g, name, kind), Present(g.labels, a);
    forall n | n in p ensures !ReservedName(n) {
      var i :| 0 <= i < |g.labels| && g.labels[i] == n;
    }
    LayersSay(f, p, g, name, kind, a);
  }

  lemma LayersSay(f: Labels, p: Labels, g: Scheme, name: string, kind: Kind, a: Attributes)
    requires Says(f, g.(labels := []), name, kind, Attributes(map[], map[], map[]))
    requires forall n | n in f :: ReservedName(n)
    requires forall n | n in p :: !ReservedName(n)
    requires forall n :: n in p <==> n in g.labels && Get(a, n).Some? && !ReservedName(n)
    requires forall n | n in p :: Get(a, n) == Some(p[n])
    ensures Says(f + p, g, name, kind, a)
  {
    hide Get, KindName, ReservedName;
    ReservedOnes();
  }

  lemma ReservedOnes()
    ensures ReservedName("source") && ReservedName("grouping") && ReservedName("metric_name")
    ensures ReservedName("metric_type") && ReservedName("__name") && ReservedName("__type")
  {
  }

  /** A colon inside a label value can make two different data points share a counter. */
  lemma ColonCollides(group: string, x: string, y: string)
    ensures var g := Scheme(group, false, false, ["a", "b"]);
            var one := Attributes(map[], map[], map["a" := Str(x + ":b=" + y)]);
            var two := Attributes(map[], map[], map["a" := Str(x), "b" := Str(y)]);
            && Key(g, "", Gauge, one) == Key(g, "", Gauge, two)
            && !SameIdentity(g, "", Gauge, one, "", Gauge, two)
  {
    var g := Scheme(group, false, false, ["a", "b"]);
    var one := Attributes(map[], map[], map["a" := Str(x + ":b=" + y)]);
    var two := Attributes(map[], map[], map["a" := Str(x), "b" := Str(y)]);
    assert "a"[0] != "b"[0];
    assert Get(one, "a") == Some(x + ":b=" + y) && Get(one, "b") == None;
    assert Get(two, "a") == Some(x) && Get(two, "b") == Some(y);
    PresentIsGet(["a", "b"], one);
    PresentIsGet(["a", "b"], two);
    TwoLabels("a", "b", one);
    TwoLabels("a", "b", two);
    hide Get, LabelParts, Present;
    assert "b" in ["a", "b"];
    assert NameParts(g, "", Gauge) == [];
    assert LabelParts(g.labels, one) == ["a" + "=" + (x + ":b=" + y)];
    assert LabelParts(g.labels, two) == ["a" + "=" + x, "b" + "=" + y];
    assert [group] + [] + ["a" + "=" + (x + ":b=" + y)] == [group, "a" + "=" + (x + ":b=" + y)];
    assert [group] + [] + ["a" + "=" + x, "b" + "=" + y] == [group, "a" + "=" + x, "b" + "=" + y];
    JoinTwo(group, "a" + "=" + (x + ":b=" + y));
    JoinTwo("a" + "=" + x, "b" + "=" + y);
    assert [group, "a" + "=" + x, "b" + "=" + y][1..] == ["a" + "=" + x, "b" + "=" + y];
    var joined := "a" + "=" + x + [':'] + ("b" + "=" + y);
    assert "a" + "=" + (x + ":b=" + y) == joined;
    assert Key(g, "", Gauge, one) == group + [':'] + joined;
    assert Key(g, "", Gauge, two) == group + [':'] + joined;
    assert "b" in Present(["a", "b"], two) && "b" !in Present(["a", "b"], one);
  }

  lemma JoinTwo(p: string, q: string)
    ensures Join([p, q], ':') == p + [':'] + q
  {
    assert [p, q][1..] == [q];
  }

  lemma TwoLabels(n: string, m: string, a: Attributes)
    ensures LabelParts([n, m], a) ==
            (if Get(a, n).Some? then [n + "=" + Get(a, n).value] else [])
            + (if Get(a, m).Some? then [m + "=" + Get(a, m).value] else [])
  {
    hide Get;
    assert [n, m][..1] == [n] && [n][..0] == [];
    assert LabelParts([n], a) == LabelParts([], a) + (if Get(a, n).Some? then [n + "=" + Get(a, n).value] else []);
  }
}
