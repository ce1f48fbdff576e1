/** Which groupings tell every two data points apart, whatever text their names and labels hold. */
module TelemetryIdentity {
  import opened Options
  import opened TelemetryKeys

  datatype Sample = Sample(name: string, kind: Kind, attributes: Attributes)

  function KeyOf(g: Scheme, p: Sample): (key: string) {
    Key(g, p.name, p.kind, p.attributes)
  }

  predicate Same(g: Scheme, p: Sample, q: Sample) {
    SameIdentity(g, p.name, p.kind, p.attributes, q.name, q.kind, q.attributes)
  }

  /** Two data points share a counter exactly when they are the same to the grouping. */
  ghost predicate Identifies(g: Scheme) {
    forall p, q :: KeyOf(g, p) == KeyOf(g, q) <==> Same(g, p, q)
  }

  function LabelSet(names: seq<string>): (s: set<string>) {
    set n | n in names
  }

  /** How many texts of a key the data point chooses: the name and each different label. */
  function FreeTexts(g: Scheme): (n: nat) {
    (if g.byName then 1 else 0) + |LabelSet(g.labels)|
  }

  // ---- A key as plain text ----

  /** The parts, each after a colon. */
  function Text(ps: seq<string>): (s: string) {
    if ps == [] then "" else Text(ps[..|ps| - 1]) + (":" + ps[|ps| - 1])
  }

  lemma TextLast(ps: seq<string>, p: string)
    ensures Text(ps + [p]) == Text(ps) + (":" + p)
  {
    assert (ps + [p])[..|ps|] == ps;
  }

  lemma Assoc(a: string, b: string, c: string)
    ensures a + b + c == a + (b + c)
  {
  }

  lemma {:induction false} TextAppend(ps: seq<string>, qs: seq<string>)
    ensures Text(ps + qs) == Text(ps) + Text(qs)
  {
    if qs == [] {
      assert ps + qs == ps;
    } else {
      var front, last := qs[..|qs| - 1], qs[|qs| - 1];
      TextAppend(ps, front);
      TextStep(ps, front, last);
      assert qs == front + [last];
    }
  }

  lemma TextStep(ps: seq<string>, front: seq<string>, last: string)
    requires Text(ps + front) == Text(ps) + Text(front)
    ensures Text(ps + (front + [last])) == Text(ps) + Text(front + [last])
  {
    hide Text;
    assert ps + (front + [last]) == ps + front + [last];
    TextLast(ps + front, last);
    TextLast(front, last);
    Assoc(Text(ps), Text(front), ":" + last);
  }

  lemma TextOne(p: string)
    ensures Text([p]) == ":" + p
  {
    assert Text([p][..0]) == "";
  }

  lemma {:induction false} JoinText(h: string, ps: seq<string>)
    ensures Join([h] + ps, ':') == h + Text(ps)
    decreases |ps|
  {
    if ps == [] {
      assert [h] + ps == [h];
    } else {
      var all := [h] + ps;
      assert all[1..] == [ps[0]] + ps[1..] == ps;
      JoinText(ps[0], ps[1..]);
      TextAppend([ps[0]], ps[1..]);
      TextOne(ps[0]);
      assert all[0] + [':'] + (ps[0] + Text(ps[1..])) == h + (":" + ps[0] + Text(ps[1..]));
    }
  }

  function NameText(g: Scheme, name: string): (s: string) {
    if g.byName then ":__name=" + name else ""
  }

  function KindText(g: Scheme, kind: Kind): (s: string) {
    if g.byKind then ":__type=" + KindName(kind) else ""
  }

  function LabelText(names: seq<string>, a: Attributes): (s: string) {
    Text(LabelParts(names, a))
  }

  lemma KeyText(g: Scheme, p: Sample)
    ensures KeyOf(g, p) == g.name + (NameText(g, p.name) + KindText(g, p.kind) + LabelText(g.labels, p.attributes))
  {
    hide Join, LabelParts, KindName;
    var ns, ks, ls := NamePart(g, p.name), KindPart(g, p.kind), LabelParts(g.labels, p.attributes);
    assert [g.name] + (ns + ks) + ls == [g.name] + (ns + ks + ls);
    JoinText(g.name, ns + ks + ls);
    TextAppend(ns + ks, ls);
    TextAppend(ns, ks);
    TextOne("__name" + "=" + p.name);
    TextOne("__type" + "=" + KindName(p.kind));
    assert ":" + ("__name" + "=" + p.name) == ":__name=" + p.name;
    assert ":" + ("__type" + "=" + KindName(p.kind)) == ":__type=" + KindName(p.kind);
  }

  lemma {:induction false} LabelPartsAppend(names: seq<string>, more: seq<string>, a: Attributes)
    ensures LabelParts(names + more, a) == LabelParts(names, a) + LabelParts(more, a)
  {
    if more == [] {
      assert names + more == names;
    } else {
      var all := names + more;
      assert all[..|all| - 1] == names + more[..|more| - 1];
      LabelPartsAppend(names, more[..|more| - 1], a);
      hide Get;
    }
  }

  lemma LabelTextAppend(names: seq<string>, more: seq<string>, a: Attributes)
    ensures LabelText(names + more, a) == LabelText(names, a) + LabelText(more, a)
  {
    LabelPartsAppend(names, more, a);
    TextAppend(LabelParts(names, a), LabelParts(more, a));
  }

  /** What one listed label prints. */
  function Block(n: string, a: Attributes): (s: string) {
    if Get(a, n).Some? then ":" + n + "=" + Get(a, n).value else ""
  }

  lemma OneLabelText(n: string, a: Attributes)
    ensures LabelText([n], a) == Block(n, a)
  {
    hide Get;
    assert LabelParts([n][..0], a) == [];
    var here := if Get(a, n).Some? then [n + "=" + Get(a, n).value] else [];
    assert LabelParts([n], a) == [] + here;
    if here != [] {
      TextOne(n + "=" + Get(a, n).value);
    }
  }

  // ---- Repeated blocks ----

  function Rep(s: string, k: nat): (t: string) {
    if k == 0 then "" else Rep(s, k - 1) + s
  }

  lemma {:induction false} RepFront(s: string, k: nat)
    ensures Rep(s, k + 1) == s + Rep(s, k)
  {
    if k > 0 {
      RepFront(s, k - 1);
    }
  }

  lemma {:induction false} RepLength(s: string, k: nat)
    ensures |Rep(s, k)| == k * |s|
  {
    if k > 0 {
      RepLength(s, k - 1);
      assert (k - 1) * |s| + |s| == k * |s|;
    }
  }

  function Count(names: seq<string>, n: string): (k: nat) {
    multiset(names)[n]
  }

  /** With at most one of the listed labels present, only its block is printed, once per listing. */
  lemma {:induction false} OnlyOne(names: seq<string>, a: Attributes, n: string)
    requires forall i | 0 <= i < |names| && names[i] != n :: Get(a, names[i]) == None
    ensures LabelText(names, a) == Rep(Block(n, a), Count(names, n))
  {
    hide Get, LabelText, Block;
    if names == [] {
      NoLabelText(a);
    } else {
      var k := |names| - 1;
      var last := names[k];
      assert names == names[..k] + [last];
      OnlyOne(names[..k], a, n);
      LabelTextAppend(names[..k], [last], a);
      OneLabelText(last, a);
      if last != n {
        AbsentBlock(last, a);
      }
    }
  }

  lemma NoLabelText(a: Attributes)
    ensures LabelText([], a) == ""
  {
  }

  lemma AbsentBlock(n: string, a: Attributes)
    requires Get(a, n) == None
    ensures Block(n, a) == ""
  {
  }

  // ---- Cancelling ----

  lemma SameSuffix(pre: string, s: string, t: string)
    requires pre + s == pre + t
    ensures s == t
  {
    assert (pre + s)[|pre|..] == s && (pre + t)[|pre|..] == t;
  }

  lemma SamePrefix(s: string, t: string, post: string)
    requires s + post == t + post
    ensures s == t
  {
    assert |s + post| == |t + post|;
    assert (s + post)[..|s|] == s && (t + post)[..|s|] == t;
  }

  lemma KindNameEnds(k: Kind, k': Kind)
    ensures |KindName(k)| > 0
    ensures KindName(k)[0] == KindName(k')[0] ==> KindName(k) == KindName(k')
    ensures KindName(k)[|KindName(k)| - 1] == KindName(k')[|KindName(k')| - 1] ==> KindName(k) == KindName(k')
  {
  }

  lemma SameTexts(g: Scheme, p: Sample, q: Sample)
    requires KeyOf(g, p) == KeyOf(g, q)
    ensures NameText(g, p.name) + KindText(g, p.kind) + LabelText(g.labels, p.attributes)
            == NameText(g, q.name) + KindText(g, q.kind) + LabelText(g.labels, q.attributes)
  {
    hide KeyOf, NameText, KindText, LabelText;
    KeyText(g, p);
    KeyText(g, q);
    SameSuffix(g.name, NameText(g, p.name) + KindText(g, p.kind) + LabelText(g.labels, p.attributes),
               NameText(g, q.name) + KindText(g, q.kind) + LabelText(g.labels, q.attributes));
  }

  /** The type is printed before the labels, and its first letter tells the types apart. */
  lemma KindThenLabels(g: Scheme, p: Sample, q: Sample)
    requires !g.byName && KeyOf(g, p) == KeyOf(g, q)
    ensures g.byKind ==> KindName(p.kind) == KindName(q.kind)
    ensures LabelText(g.labels, p.attributes) == LabelText(g.labels, q.attributes)
  {
    hide KeyOf, LabelText;
    SameTexts(g, p, q);
    var u, v := LabelText(g.labels, p.attributes), LabelText(g.labels, q.attributes);
    if g.byKind {
      var k, k' := KindName(p.kind), KindName(q.kind);
      KindNameEnds(p.kind, q.kind);
      hide KindName;
      assert "" + (":__type=" + k) + u == ":__type=" + (k + u);
      assert "" + (":__type=" + k') + v == ":__type=" + (k' + v);
      SameSuffix(":__type=", k + u, k' + v);
      assert (k + u)[0] == k[0] && (k' + v)[0] == k'[0];
      SameSuffix(k, u, v);
    } else {
      assert "" + "" + u == u && "" + "" + v == v;
    }
  }

  // ---- At most one free text ----

  lemma NameThen(g: Scheme, x: string, u: string, w: string)
    requires g.byName
    ensures NameText(g, x) + u + w == ":__name=" + (x + u + w)
  {
    var pre := ":__name=";
    assert pre + x + u + w == pre + (x + u + w);
  }

  /** The type is printed after the name, and its last letter tells the types apart. */
  lemma NameThenKind(g: Scheme, x: string, k: Kind, y: string, k': Kind)
    requires x + KindText(g, k) == y + KindText(g, k')
    ensures x == y && (g.byKind ==> KindName(k) == KindName(k'))
  {
    if g.byKind {
      var s, t := x + KindText(g, k), y + KindText(g, k');
      KindNameEnds(k, k');
      hide KindName;
      assert s[|s| - 1] == KindName(k)[|KindName(k)| - 1] && t[|t| - 1] == KindName(k')[|KindName(k')| - 1];
      SamePrefix(x, y, KindText(g, k));
    } else {
      assert x + "" == x && y + "" == y;
    }
  }

  lemma OnlyName(g: Scheme, p: Sample, q: Sample)
    requires g.byName && g.labels == []
    requires KeyOf(g, p) == KeyOf(g, q)
    ensures Same(g, p, q)
  {
    hide KeyOf, LabelText, LabelParts, NameText, KindText, KindName;
    SameTexts(g, p, q);
    NoLabelText(p.attributes);
    NoLabelText(q.attributes);
    var u, v := KindText(g, p.kind), KindText(g, q.kind);
    NameThen(g, p.name, u, "");
    NameThen(g, q.name, v, "");
    SameSuffix(":__name=", p.name + u + "", q.name + v + "");
    assert p.name + u + "" == p.name + u && q.name + v + "" == q.name + v;
    NameThenKind(g, p.name, p.kind, q.name, q.kind);
  }

  /** One label, listed any number of times. */
  lemma OnlyLabel(g: Scheme, n: string, p: Sample, q: Sample)
    requires !g.byName && n in g.labels && (forall i | 0 <= i < |g.labels| :: g.labels[i] == n)
    requires KeyOf(g, p) == KeyOf(g, q)
    ensures Same(g, p, q)
  {
    hide KeyOf, Get, LabelText, Present, LabelParts;
    KindThenLabels(g, p, q);
    OnlyOne(g.labels, p.attributes, n);
    OnlyOne(g.labels, q.attributes, n);
    RepInjective(Block(n, p.attributes), Block(n, q.attributes), Count(g.labels, n));
    SameBlock(n, p.attributes, q.attributes);
    SamePresentSameParts(g.labels, p.attributes, q.attributes);
  }

  lemma RepInjective(s: string, t: string, k: nat)
    requires k > 0 && Rep(s, k) == Rep(t, k)
    ensures s == t
  {
    RepLength(s, k);
    RepLength(t, k);
    if |s| < |t| {
      assert k * |s| + k * (|t| - |s|) == k * |t|;
    }
    if |t| < |s| {
      assert k * |t| + k * (|s| - |t|) == k * |s|;
    }
    RepFront(s, k - 1);
    RepFront(t, k - 1);
    assert Rep(s, k)[..|s|] == s && Rep(t, k)[..|t|] == t;
  }

  lemma SameBlock(n: string, a: Attributes, a': Attributes)
    requires Block(n, a) == Block(n, a')
    ensures Get(a, n) == Get(a', n)
  {
    hide Get;
    if Get(a, n).Some? && Get(a', n).Some? {
      SameSuffix(":" + n + "=", Get(a, n).value, Get(a', n).value);
    }
  }

  lemma NoFreeText(g: Scheme, p: Sample, q: Sample)
    requires !g.byName && g.labels == [] && KeyOf(g, p) == KeyOf(g, q)
    ensures Same(g, p, q)
  {
    hide KeyOf;
    KindThenLabels(g, p, q);
  }

  /** The same data point to a grouping has the same key, without any condition. */
  lemma SameKey(g: Scheme, p: Sample, q: Sample)
    requires Same(g, p, q)
    ensures KeyOf(g, p) == KeyOf(g, q)
  {
    SamePresentSameParts(g.labels, p.attributes, q.attributes);
    hide Present, LabelParts, Join;
  }

  // ---- Collisions ----

  /** A data point with the given labels. */
  function Labelled(name: string, ls: map<string, string>): (p: Sample) {
    Sample(name, Gauge, Attributes(map[], map[], map n | n in ls :: Str(ls[n])))
  }

  lemma LabelledGet(name: string, ls: map<string, string>, n: string)
    ensures Get(Labelled(name, ls).attributes, n) == if n in ls then Some(ls[n]) else None
  {
  }

  lemma Collision(g: Scheme, p: Sample, q: Sample)
    requires NameText(g, p.name) + KindText(g, p.kind) + LabelText(g.labels, p.attributes)
             == NameText(g, q.name) + KindText(g, q.kind) + LabelText(g.labels, q.attributes)
    requires exists i :: 0 <= i < |g.labels| && Get(p.attributes, g.labels[i]) != Get(q.attributes, g.labels[i])
    ensures KeyOf(g, p) == KeyOf(g, q) && !Same(g, p, q)
  {
    KeyText(g, p);
    KeyText(g, q);
    hide KeyOf, Get, NameText, KindText, LabelText, Present, LabelParts;
    SamePresentSameParts(g.labels, p.attributes, q.attributes);
  }

  /** With one label present, the text of all labels ends with that label's value. */
  lemma EndsWithValue(names: seq<string>, a: Attributes, n: string, v: string)
    requires n in names && Get(a, n) == Some(v)
    requires forall i | 0 <= i < |names| && names[i] != n :: Get(a, names[i]) == None
    ensures var w := LabelText(names, a); |v| <= |w| && w[|w| - |v|..] == v
  {
    OnlyOne(names, a, n);
    hide Get, LabelText;
    var k := Count(names, n);
    assert Rep(Block(n, a), k) == Rep(Block(n, a), k - 1) + (":" + n + "=" + v);
  }

  /** A name that imitates the type and every listing of the labels in front of its own type. */
  function Decoy(t: string, w: string): (name: string) {
    (t + w)[..|w|]
  }

  lemma DecoyText(t: string, w: string)
    requires |t| <= |w| && w[|w| - |t|..] == t
    ensures Decoy(t, w) + t == t + w
  {
    var all := t + w;
    assert all == all[..|w|] + all[|w|..];
    assert all[|w|..] == w[|w| - |t|..];
  }

  /** A name and a label: the name's text can imitate the type and every listing of the label. */
  lemma NameCollides(g: Scheme, p: Sample, q: Sample)
    requires g.byName && g.labels != [] && p.kind == q.kind && q.name == ""
    requires forall i | 0 <= i < |g.labels| :: Get(p.attributes, g.labels[i]) == None
    requires Get(q.attributes, g.labels[0]) == Some(KindText(g, q.kind))
    requires forall i | 0 <= i < |g.labels| && g.labels[i] != g.labels[0] :: Get(q.attributes, g.labels[i]) == None
    requires p.name == Decoy(KindText(g, q.kind), LabelText(g.labels, q.attributes))
    ensures KeyOf(g, p) == KeyOf(g, q) && !Same(g, p, q)
  {
    hide *;
    var n, t := g.labels[0], KindText(g, q.kind);
    var w := LabelText(g.labels, q.attributes);
    EndsWithValue(g.labels, q.attributes, n, t);
    OnlyOne(g.labels, p.attributes, n);
    AbsentBlock(n, p.attributes);
    EmptyRep(Count(g.labels, n));
    DecoyText(t, w);
    NameThen(g, p.name, t, "");
    NameThen(g, "", t, w);
    assert p.name + t + "" == "" + t + w;
    assert Get(p.attributes, n) != Get(q.attributes, n);
    Collision(g, p, q);
  }

  lemma NameAndLabelCollide(g: Scheme)
    requires g.byName && g.labels != []
    ensures !Identifies(g)
  {
    var n, t := g.labels[0], KindText(g, Gauge);
    var none: map<string, string> := map[];
    var q := Labelled("", map[n := t]);
    var p := Labelled(Decoy(t, LabelText(g.labels, q.attributes)), none);
    forall i | 0 <= i < |g.labels|
      ensures Get(q.attributes, g.labels[i]) == (if g.labels[i] == n then Some(t) else None)
      ensures Get(p.attributes, g.labels[i]) == None
    {
      LabelledGet("", map[n := t], g.labels[i]);
      LabelledGet(p.name, none, g.labels[i]);
    }
    hide Get, LabelText, KindText, Decoy, KeyOf, Same;
    NameCollides(g, p, q);
  }

  lemma {:induction false} EmptyRep(k: nat)
    ensures Rep("", k) == ""
  {
    if k > 0 {
      EmptyRep(k - 1);
    }
  }

  // ---- Two labels, one of them listed once ----

  /** The text of a list with one label once and one other label present. */
  lemma TwoLabelText(before: seq<string>, n: string, after: seq<string>, m: string, a: Attributes)
    requires n != m && n !in before && n !in after
    requires forall i | 0 <= i < |before| && before[i] != m :: Get(a, before[i]) == None
    requires forall i | 0 <= i < |after| && after[i] != m :: Get(a, after[i]) == None
    ensures LabelText(before + [n] + after, a) ==
            Rep(Block(m, a), Count(before, m)) + Block(n, a) + Rep(Block(m, a), Count(after, m))
  {
    hide *;
    LabelTextAppend(before + [n], after, a);
    LabelTextAppend(before, [n], a);
    OneLabelText(n, a);
    OnlyOne(before, a, m);
    OnlyOne(after, a, m);
  }

  /** The text of `m` that hides the first `n`. */
  function HideN(n: string, m: string, i: nat, j: nat): (y: string)
    requires i > 0
  {
    Rep(m, i - 1) + n + Rep(m, j)
  }

  /** The text of `n` that hides all of `m` but the first. */
  function HideM(n: string, m: string, i: nat, j: nat): (x: string)
    requires i > 0
  {
    var m' := m + HideN(n, m, i, j);
    Decoy(Rep(m, j), Rep(m', i - 1) + n + Rep(m', j))
  }

  lemma HiddenEnd(n: string, m: string, i: nat, j: nat)
    requires i > 0
    ensures var m' := m + HideN(n, m, i, j);
            var z, f := Rep(m', i - 1) + n + Rep(m', j), Rep(m, j);
            |f| <= |z| && z[|z| - |f|..] == f
  {
    var m' := m + HideN(n, m, i, j);
    var z, f := Rep(m', i - 1) + n + Rep(m', j), Rep(m, j);
    if j > 0 {
      var front := Rep(m', i - 1) + n + Rep(m', j - 1) + m + Rep(m, i - 1) + n;
      assert z == front + f;
    }
  }

  lemma Regroup(m: string, r: string, n: string, x: string, f: string, y: string, b: string)
    requires x + f == f + (y + n + b)
    ensures (m + r) + (n + x) + f == (m + (r + n + f) + y) + n + b
  {
    var z := y + n + b;
    assert (m + r) + (n + x) + f == m + r + n + (x + f);
    assert m + r + n + (f + z) == m + (r + n + f) + z;
    assert m + (r + n + f) + (y + n + b) == (m + (r + n + f) + y) + n + b;
  }

  /** Two readings of one text: `i` and `j` blocks of the second label around one block of the first. */
  lemma TwoReadings(n: string, m: string, i: nat, j: nat)
    requires i > 0
    ensures var m', x := m + HideN(n, m, i, j), HideM(n, m, i, j);
            Rep(m, i) + (n + x) + Rep(m, j) == Rep(m', i) + n + Rep(m', j)
  {
    var m', x := m + HideN(n, m, i, j), HideM(n, m, i, j);
    var z, f := Rep(m', i - 1) + n + Rep(m', j), Rep(m, j);
    HiddenEnd(n, m, i, j);
    DecoyText(f, z);
    RepFront(m, i - 1);
    RepFront(m', i - 1);
    hide Rep, Decoy;
    Regroup(m, Rep(m, i - 1), n, x, f, Rep(m', i - 1), Rep(m', j));
  }

  /** The list before and after the single listing of a label. */
  predicate Around(names: seq<string>, before: seq<string>, n: string, after: seq<string>) {
    names == before + [n] + after && n !in before && n !in after
  }

  /** Both labels present, no other. */
  predicate Pairs(names: seq<string>, a: Attributes, n: string, x: Option<string>, m: string, y: Option<string>) {
    && Get(a, n) == x && Get(a, m) == y
    && forall i | 0 <= i < |names| && names[i] != n && names[i] != m :: Get(a, names[i]) == None
  }

  function BlockOf(n: string, x: Option<string>): (s: string) {
    if x.Some? then ":" + n + "=" + x.value else ""
  }

  lemma PairsText(names: seq<string>, before: seq<string>, n: string, after: seq<string>, a: Attributes,
                  x: Option<string>, m: string, y: Option<string>)
    requires Around(names, before, n, after) && n != m && Pairs(names, a, n, x, m, y)
    ensures LabelText(names, a) == Rep(BlockOf(m, y), Count(before, m)) + BlockOf(n, x)
            + Rep(BlockOf(m, y), Count(after, m))
  {
    hide Get, LabelText, Rep;
    forall i | 0 <= i < |before| && before[i] != m ensures Get(a, before[i]) == None {
      assert names[i] == before[i] && before[i] in before;
    }
    forall i | 0 <= i < |after| && after[i] != m ensures Get(a, after[i]) == None {
      assert names[|before| + 1 + i] == after[i] && after[i] in after;
    }
    TwoLabelText(before, n, after, m, a);
  }

  /** The texts with which two labels collide when the first is listed once. */
  function First(n: string, m: string, i: nat, j: nat): (xy: (string, Option<string>)) {
    var hn, hm := ":" + n + "=", ":" + m + "=";
    if i == 0 then (Rep(hm, j), None) else (HideM(hn, hm, i, j), Some(""))
  }

  function Second(n: string, m: string, i: nat, j: nat): (xy: (string, Option<string>)) {
    var hn, hm := ":" + n + "=", ":" + m + "=";
    if i == 0 then ("", Some("")) else ("", Some(HideN(hn, hm, i, j)))
  }

  lemma FirstIsSecond(n: string, m: string, i: nat, j: nat)
    ensures var p, q := First(n, m, i, j), Second(n, m, i, j);
            && Rep(BlockOf(m, p.1), i) + BlockOf(n, Some(p.0)) + Rep(BlockOf(m, p.1), j)
               == Rep(BlockOf(m, q.1), i) + BlockOf(n, Some(q.0)) + Rep(BlockOf(m, q.1), j)
            && p.1 != q.1
  {
    var hn, hm := ":" + n + "=", ":" + m + "=";
    assert hm + "" == hm && hn + "" == hn;
    if i == 0 {
      EmptyRep(j);
      assert "" + (hn + Rep(hm, j)) + "" == "" + hn + Rep(hm, j);
    } else {
      TwoReadings(hn, hm, i, j);
      assert |HideN(hn, hm, i, j)| >= |hn|;
    }
  }

  /** Two labels: if one of them is listed once, their texts can imitate each other. */
  lemma LabelsCollide(g: Scheme, before: seq<string>, n: string, after: seq<string>, m: string, p: Sample, q: Sample)
    requires Around(g.labels, before, n, after) && m in g.labels && n != m && p.name == q.name && p.kind == q.kind
    requires var f := First(n, m, Count(before, m), Count(after, m));
             Pairs(g.labels, p.attributes, n, Some(f.0), m, f.1)
    requires var f := Second(n, m, Count(before, m), Count(after, m));
             Pairs(g.labels, q.attributes, n, Some(f.0), m, f.1)
    ensures KeyOf(g, p) == KeyOf(g, q) && !Same(g, p, q)
  {
    hide Get, LabelText, Rep, NameText, KindText, KeyOf, Same, BlockOf, First, Second, Count, Around;
    var i, j := Count(before, m), Count(after, m);
    var f, f' := First(n, m, i, j), Second(n, m, i, j);
    PairsText(g.labels, before, n, after, p.attributes, Some(f.0), m, f.1);
    PairsText(g.labels, before, n, after, q.attributes, Some(f'.0), m, f'.1);
    FirstIsSecond(n, m, i, j);
    var at :| 0 <= at < |g.labels| && g.labels[at] == m;
    assert Get(p.attributes, g.labels[at]) != Get(q.attributes, g.labels[at]);
    Collision(g, p, q);
  }

  lemma ListedOnce(names: seq<string>, n: string) returns (before: seq<string>, after: seq<string>)
    requires Count(names, n) == 1
    ensures Around(names, before, n, after)
  {
    assert n in names;
    var at :| 0 <= at < |names| && names[at] == n;
    before, after := names[..at], names[at + 1..];
    assert names == before + [n] + after;
    assert multiset(names) == multiset(before) + multiset{n} + multiset(after);
  }

  function WithLabels(n: string, m: string, xy: (string, Option<string>)): (p: Sample) {
    Labelled("", if xy.1.Some? then map[n := xy.0, m := xy.1.value] else map[n := xy.0])
  }

  lemma WithLabelsPairs(names: seq<string>, n: string, m: string, xy: (string, Option<string>))
    requires n != m
    ensures Pairs(names, WithLabels(n, m, xy).attributes, n, Some(xy.0), m, xy.1)
  {
    var ls := if xy.1.Some? then map[n := xy.0, m := xy.1.value] else map[n := xy.0];
    forall k ensures Get(Labelled("", ls).attributes, k) == if k in ls then Some(ls[k]) else None {
      LabelledGet("", ls, k);
    }
    hide Get, Labelled;
  }

  lemma OnceCollides(g: Scheme, n: string, m: string)
    requires Count(g.labels, n) == 1 && m in g.labels && m != n
    ensures !Identifies(g)
  {
    var before, after := ListedOnce(g.labels, n);
    var i, j := Count(before, m), Count(after, m);
    var p, q := WithLabels(n, m, First(n, m, i, j)), WithLabels(n, m, Second(n, m, i, j));
    hide First, Second, Pairs, Count, Around, KeyOf, Same, Get;
    WithLabelsPairs(g.labels, n, m, First(n, m, i, j));
    WithLabelsPairs(g.labels, n, m, Second(n, m, i, j));
    LabelsCollide(g, before, n, after, m, p, q);
  }

  // ---- Exactly when ----

  /** The grouping prints the name, or has at most one label, or lists some label just once. */
  predicate SomeOnce(g: Scheme) {
    g.byName || |LabelSet(g.labels)| <= 1 || exists n :: n in g.labels && Count(g.labels, n) == 1
  }

  lemma OneKind(names: seq<string>, n: string)
    requires n in names && |LabelSet(names)| <= 1
    ensures forall i | 0 <= i < |names| :: names[i] == n
  {
    forall i | 0 <= i < |names| ensures names[i] == n {
      assert names[i] in LabelSet(names) && n in LabelSet(names);
      assert LabelSet(names) - {n} == {} by {
        assert |LabelSet(names) - {n}| == 0;
      }
    }
  }

  lemma NoLabelSet(names: seq<string>)
    ensures |LabelSet(names)| == 0 <==> names == []
  {
    if names != [] {
      assert names[0] in LabelSet(names);
    }
  }

  lemma AnotherLabel(names: seq<string>, n: string) returns (m: string)
    requires n in names && |LabelSet(names)| >= 2
    ensures m in names && m != n
  {
    assert n in LabelSet(names);
    var rest := LabelSet(names) - {n};
    assert |rest| >= 1;
    m :| m in rest;
  }

  /** A grouping gives one counter to each data point, whatever colons its texts contain, exactly when its keys
      hold at most one free text: the name, or one label. */
  lemma IdentifiesIff(g: Scheme)
    requires SomeOnce(g)
    ensures Identifies(g) <==> FreeTexts(g) <= 1
  {
    if FreeTexts(g) <= 1 {
      FewTexts(g);
    } else if g.byName {
      assert g.labels != [];
      NameAndLabelCollide(g);
    } else {
      var n :| n in g.labels && Count(g.labels, n) == 1;
      var m := AnotherLabel(g.labels, n);
      OnceCollides(g, n, m);
    }
  }

  lemma FewTexts(g: Scheme)
    requires FreeTexts(g) <= 1
    ensures Identifies(g)
  {
    hide KeyOf, Same;
    if g.byName {
      NoLabelSet(g.labels);
    } else if g.labels != [] {
      OneKind(g.labels, g.labels[0]);
    }
    forall p, q ensures KeyOf(g, p) == KeyOf(g, q) <==> Same(g, p, q) {
      if Same(g, p, q) {
        SameKey(g, p, q);
      }
      if KeyOf(g, p) == KeyOf(g, q) {
        if g.byName {
          OnlyName(g, p, q);
        } else if g.labels != [] {
          OnlyLabel(g, g.labels[0], p, q);
        } else {
          NoFreeText(g, p, q);
        }
      }
    }
  }

  // ---- Every label listed twice ----

  lemma {:induction false} Comparable(u: string, v: string, x: string, y: string)
    requires u != "" && x + v == u + x && y + v == u + y
    ensures x <= y || y <= x
    decreases |x| + |y|
  {
    assert (u + x)[..|u|] == u && (u + y)[..|u|] == u;
    if |u| <= |x| && |u| <= |y| {
      assert x[..|u|] == u && y[..|u|] == u;
      var x1, y1 := x[|u|..], y[|u|..];
      assert x == u + x1 && y == u + y1;
      SameSuffix(u, x1 + v, u + x1);
      SameSuffix(u, y1 + v, u + y1);
      Comparable(u, v, x1, y1);
    } else {
      assert (x + v)[..|x|] == x && (y + v)[..|y|] == y;
    }
  }

  /** A text that is empty or begins with `h`. */
  predicate Begins(s: string, h: string) {
    s == "" || h <= s
  }

  /** Two heads that no text can both begin with. */
  predicate Apart(h: string, k: string) {
    !(h <= k) && !(k <= h)
  }

  lemma Incomparable(h: string, k: string, x: string, y: string)
    requires Apart(h, k) && h <= x && k <= y
    ensures !(x <= y) && !(y <= x)
  {
    assert x <= y ==> h <= y && (h <= k || k <= h);
    assert y <= x ==> k <= x && (h <= k || k <= h);
  }

  /** If two products of squares agree, the longer first factor differs from the shorter by a conjugate pair. */
  lemma Squares(a: string, b: string, c: string, d: string) returns (u: string, v: string)
    requires |a| < |c| && a + a + b + b == c + c + d + d
    ensures u != "" && c == a + u && b == v + d && a + v == u + a && d + v == u + d
  {
    var l, r := a + a + b + b, c + c + d + d;
    assert |l| == 2 * |a| + 2 * |b| && |r| == 2 * |c| + 2 * |d|;
    u, v := c[|a|..], b[..|c| - |a|];
    assert l[..|a|] == a && r[..|a|] == c[..|a|];
    assert c == a + u;
    assert l[|l| - |d|..] == b[|b| - |d|..] && r[|r| - |d|..] == d;
    assert b == v + d;
    SquaresCancel(a, u, v, d);
  }

  lemma SquaresCancel(a: string, u: string, v: string, d: string)
    requires |u| == |v|
    requires a + a + (v + d) + (v + d) == (a + u) + (a + u) + d + d
    ensures a + v == u + a && d + v == u + d
  {
    assert a + a + (v + d) + (v + d) == a + ((a + v + (d + v)) + d);
    assert (a + u) + (a + u) + d + d == a + ((u + a + (u + d)) + d);
    SameSuffix(a, (a + v + (d + v)) + d, (u + a + (u + d)) + d);
    SamePrefix(a + v + (d + v), u + a + (u + d), d);
    var s, t := a + v + (d + v), u + a + (u + d);
    assert s[..|a| + |u|] == a + v && t[..|a| + |u|] == u + a;
    assert s[|a| + |u|..] == d + v && t[|a| + |u|..] == u + d;
  }

  lemma LongerClash(h: string, k: string, a: string, b: string, c: string, d: string)
    requires Apart(h, k) && h <= a && Begins(b, k) && Begins(d, k) && |a| < |c|
    ensures a + a + b + b != c + c + d + d
  {
    if a + a + b + b == c + c + d + d {
      var u, v := Squares(a, b, c, d);
      var y := if d == "" then b else d;
      assert "" + v == v && v + "" == v && u + "" == u;
      Comparable(u, v, a, y);
      Incomparable(h, k, a, y);
    }
  }

  lemma HeadClash(h: string, k: string, b: string, c: string, d: string)
    requires Apart(h, k) && Begins(b, k) && h <= c
    ensures "" + "" + b + b != c + c + d + d
  {
    var t := c + c + d + d;
    assert h <= t;
    assert b != "" ==> k <= b + b;
    assert "" + "" + b + b == b + b;
  }

  /** Squares of texts with different heads determine the texts. */
  lemma SquaresApart(h: string, k: string, a: string, b: string, c: string, d: string)
    requires Apart(h, k) && Begins(a, h) && Begins(c, h) && Begins(b, k) && Begins(d, k)
    requires a + a + b + b == c + c + d + d
    ensures a == c && b == d
  {
    SquaresShorter(h, k, a, b, c, d);
    SquaresShorter(h, k, c, d, a, b);
    hide Apart, Begins;
    EqualSquares(a, b, c, d);
  }

  lemma EqualSquares(a: string, b: string, c: string, d: string)
    requires |a| == |c| && a + a + b + b == c + c + d + d
    ensures a == c && b == d
  {
    var l, r := a + a + b + b, c + c + d + d;
    assert l == a + (a + (b + b)) && r == c + (c + (d + d));
    assert l[..|a|] == a && r[..|a|] == c;
    SameSuffix(a, a + (b + b), a + (d + d));
    SameSuffix(a, b + b, d + d);
    assert |b| == |d|;
    assert (b + b)[..|b|] == b && (d + d)[..|b|] == d;
  }

  lemma SquaresShorter(h: string, k: string, a: string, b: string, c: string, d: string)
    requires Apart(h, k) && Begins(a, h) && Begins(c, h) && Begins(b, k) && Begins(d, k)
    requires a + a + b + b == c + c + d + d
    ensures |c| <= |a|
  {
    if a == "" && c != "" {
      HeadClash(h, k, b, c, d);
    } else if a != "" && |a| < |c| {
      LongerClash(h, k, a, b, c, d);
    }
  }

  lemma HeadsApart(n: string, m: string)
    requires '=' !in n && '=' !in m && n != m
    ensures Apart(":" + n + "=", ":" + m + "=")
  {
    OneHead(n, m);
    OneHead(m, n);
  }

  lemma OneHead(n: string, m: string)
    requires '=' !in n && '=' !in m && n != m
    ensures !(":" + n + "=" <= ":" + m + "=")
  {
    var h, k := ":" + n + "=", ":" + m + "=";
    if h <= k {
      var rest := k[|h|..];
      assert k == h + rest;
      assert k[1..] == n + "=" + rest && k[1..] == m + "=" + "";
      CutPair(n, rest);
      CutPair(m, "");
    }
  }

  lemma TwiceText(n: string, m: string, a: Attributes)
    ensures LabelText([n, n, m, m], a) == Block(n, a) + Block(n, a) + Block(m, a) + Block(m, a)
  {
    hide *;
    LabelTextAppend([n, n, m], [m], a);
    LabelTextAppend([n, n], [m], a);
    LabelTextAppend([n], [n], a);
    OneLabelText(n, a);
    OneLabelText(m, a);
    assert [n, n, m] + [m] == [n, n, m, m] && [n, n] + [m] == [n, n, m] && [n] + [n] == [n, n];
  }

  /** Listing every label twice can save a grouping with two labels: no colon makes two data points collide. */
  lemma ListedTwiceIdentifies(g: Scheme, n: string, m: string)
    requires !g.byName && g.labels == [n, n, m, m] && '=' !in n && '=' !in m && n != m
    ensures Identifies(g) && FreeTexts(g) == 2
  {
    assert LabelSet(g.labels) == {n, m};
    hide KeyOf, Same;
    forall p, q ensures KeyOf(g, p) == KeyOf(g, q) <==> Same(g, p, q) {
      if Same(g, p, q) {
        SameKey(g, p, q);
      }
      if KeyOf(g, p) == KeyOf(g, q) {
        TwiceSame(g, n, m, p, q);
      }
    }
  }

  lemma TwiceSame(g: Scheme, n: string, m: string, p: Sample, q: Sample)
    requires !g.byName && g.labels == [n, n, m, m] && '=' !in n && '=' !in m && n != m
    requires KeyOf(g, p) == KeyOf(g, q)
    ensures Same(g, p, q)
  {
    var a, a' := p.attributes, q.attributes;
    BlockBegins(n, a);
    BlockBegins(n, a');
    BlockBegins(m, a);
    BlockBegins(m, a');
    hide KeyOf, Get, LabelText, Present, LabelParts, Block, Begins, Apart;
    KindThenLabels(g, p, q);
    TwiceText(n, m, a);
    TwiceText(n, m, a');
    HeadsApart(n, m);
    SquaresApart(":" + n + "=", ":" + m + "=", Block(n, a), Block(m, a), Block(n, a'), Block(m, a'));
    SameBlock(n, a, a');
    SameBlock(m, a, a');
    SamePresentSameParts(g.labels, a, a');
  }

  lemma BlockBegins(n: string, a: Attributes)
    ensures Begins(Block(n, a), ":" + n + "=")
  {
    hide Get;
  }

  lemma AlternatingText(n: string, m: string, a: Attributes)
    ensures LabelText([n, m, n, m], a) == (Block(n, a) + Block(m, a)) + (Block(n, a) + Block(m, a))
  {
    hide *;
    LabelTextAppend([n, m], [n, m], a);
    LabelTextAppend([n], [m], a);
    OneLabelText(n, a);
    OneLabelText(m, a);
    assert [n, m] + [n, m] == [n, m, n, m] && [n] + [m] == [n, m];
  }

  /** Listing them twice in turns does not: the pair can be read in two ways. */
  lemma AlternatingCollides(g: Scheme, n: string, m: string, p: Sample, q: Sample)
    requires !g.byName && g.labels == [n, m, n, m] && n != m && p.kind == q.kind
    requires Pairs(g.labels, p.attributes, n, Some(""), m, Some(":" + m + "="))
    requires Pairs(g.labels, q.attributes, n, Some(":" + m + "="), m, Some(""))
    ensures KeyOf(g, p) == KeyOf(g, q) && !Same(g, p, q)
  {
    AlternatingText(n, m, p.attributes);
    AlternatingText(n, m, q.attributes);
    hide Get, LabelText, KindText, KeyOf, Same;
    var hn, hm := ":" + n + "=", ":" + m + "=";
    assert (hn + "") + (hm + hm) == (hn + hm) + (hm + "");
    assert Get(p.attributes, g.labels[0]) != Get(q.attributes, g.labels[0]);
    Collision(g, p, q);
  }
}
