/** The stats about the stats: several processors share one table of cumulative counters that also
    counts the points reporting it, and elect one processor to report. A processor counts its points
    first and sends them one by one afterwards, so its steps interleave with everything else. */
module TelemetrySelf {
  import opened Options
  import opened TelemetryCounts

  const POINTS := "telemetry_stats_datapoints_total"
  const LOGS := "telemetry_stats_log_records_total"

  /** `updateTelemetryStatCounts`: add to one counter, creating it if needed. */
  function Update(c: Counts, name: string, n: nat, now: nat): (c': Counts) {
    var count := if name in c then c[name] else Count(0, now);
    c[name := Count(count.value + n, count.start)]
  }

  /** `getTelemetryStatCounts`: count the points about to be reported, then report one per counter. */
  function SelfCount(c: Counts, now: nat): (c': Counts) {
    Update(c, POINTS, |c|, now)
  }

  function ValueOf(c: Counts, name: string): (n: nat) {
    if name in c then c[name].value else 0
  }

  /** The self-count covers exactly the points it produces when the counter already exists; creating it
      misses one. */
  lemma SelfCountExact(c: Counts, now: nat)
    ensures ValueOf(SelfCount(c, now), POINTS) + (if POINTS in c then 0 else 1) == ValueOf(c, POINTS)
            + |SelfCount(c, now)|
  {
    var c' := SelfCount(c, now);
    assert c'.Keys == c.Keys + {POINTS};
  }

  /** What goes through a processor's channel: a scraped data point or a reported counter. */
  datatype Item = Data(point: Point) | Stat(name: string, value: nat, start: nat)

  /** Where a processor stands in its scrape: points collected but not yet counted, points counted and
      still to be sent, elected to report, report counted and still to be sent. */
  datatype Pc =
    | Idle
    | Collected(items: seq<Item>)
    | Sending(items: seq<Item>)
    | Reporting
    | SendingReport(items: seq<Item>)

  datatype Proc = Proc(participates: bool, hasExporter: bool, counts: Counts, pc: Pc)

  /** `sent` lists what participating processors have put into their channels, `served` counts what the
      HTTP endpoint wrote, and `missed` says that the endpoint created the self-counter. */
  datatype State = State(
    stats: Counts,
    reporter: Option<nat>,
    procs: map<nat, Proc>,
    started: set<nat>,
    sent: seq<Item>,
    served: nat,
    missed: bool)

  datatype Event =
    | Start(p: nat, participates: bool, hasExporter: bool)
    | Process(p: nat, keys: seq<string>, now: nat)         // a batch is counted
    | Collect(p: nat, order: seq<string>)                  // one point per counter, in any order
    | CountPoints(p: nat, now: nat)                        // count the collected points
    | Send(p: nat)                                         // one point into the channel
    | Elect(p: nat)                                        // decide whether to report
    | Report(p: nat, order: seq<string>, now: nat)         // count the report and collect it
    | Cleanup(p: nat)                                      // stop, after the scrape loop has ended
    | LogScrape(records: nat, now: nat)                    // a log scrape counts its own points
    | Serve(now: nat)                                      // the endpoint counts and writes a report

  ghost predicate Enabled(s: State, e: Event) {
    match e
    case Start(p, _, _) => p !in s.started
    case Process(p, _, _) => p in s.procs
    case Collect(p, order) => p in s.procs && s.procs[p].pc.Idle? && Lists(order, s.procs[p].counts)
    case CountPoints(p, _) => p in s.procs && s.procs[p].pc.Collected?
    case Send(p) =>
      p in s.procs && (s.procs[p].pc.Sending? || s.procs[p].pc.SendingReport?) && s.procs[p].pc.items != []
    case Elect(p) => p in s.procs && s.procs[p].pc == Sending([])
    case Report(p, order, now) =>
      p in s.procs && s.procs[p].pc.Reporting? && Lists(order, SelfCount(s.stats, now))
    case Cleanup(p) => p in s.procs && s.procs[p].pc.Idle?
    case LogScrape(_, _) => true
    case Serve(_) => true
  }

  function Move(s: State, p: nat, pc: Pc): (s': State)
    requires p in s.procs
  {
    s.(procs := s.procs[p := s.procs[p].(pc := pc)])
  }

  /** The points of a scrape. */
  function ScrapedItems(order: seq<string>, c: Counts): (items: seq<Item>)
    requires Lists(order, c)
  {
    var points := PointsOf(order, c);
    seq(|points|, i requires 0 <= i < |points| => Data(points[i]))
  }

  /** The points of a report. */
  function StatItems(order: seq<string>, c: Counts): (items: seq<Item>)
    requires Lists(order, c)
  {
    seq(|order|, i requires 0 <= i < |order| => Stat(order[i], c[order[i]].value, c[order[i]].start))
  }

  /** One item leaves the processor. */
  function AfterSend(pc: Pc): (pc': Pc)
    requires (pc.Sending? || pc.SendingReport?) && pc.items != []
  {
    if pc.Sending? then Sending(pc.items[1..])
    else if |pc.items| == 1 then Idle
    else SendingReport(pc.items[1..])
  }

  function Apply(s: State, e: Event): (s': State)
    requires Enabled(s, e)
  {
    match e
    case Start(p, participates, hasExporter) =>
      s.(procs := s.procs[p := Proc(participates, hasExporter, map[], Idle)], started := s.started + {p})
    case Process(p, keys, now) =>
      s.(procs := s.procs[p := s.procs[p].(counts := Tally(s.procs[p].counts, keys, now))])
    case Collect(p, order) => Move(s, p, Collected(ScrapedItems(order, s.procs[p].counts)))
    case CountPoints(p, now) =>
      var items := s.procs[p].pc.items;
      Move(s, p, Sending(items)).(
      stats := if s.procs[p].participates then Update(s.stats, POINTS, |items|, now) else s.stats)
    case Send(p) =>
      var pc := s.procs[p].pc;
      Move(s, p, AfterSend(pc)).(sent := if s.procs[p].participates then s.sent + [pc.items[0]] else s.sent)
    case Elect(p) =>
      if !s.procs[p].participates then Move(s, p, Idle)
      else
        var elected := if s.reporter.None? then Some(p) else s.reporter;
        Move(s, p, if elected == Some(p) then Reporting else Idle).(reporter := elected)
    case Report(p, order, now) =>
      var stats := SelfCount(s.stats, now);
      Move(s, p, SendingReport(StatItems(order, stats))).(stats := stats)
    case Cleanup(p) =>
      s.(procs := s.procs - {p},
         reporter := if !s.procs[p].hasExporter && s.reporter == Some(p) then None else s.reporter)
    case LogScrape(n, now) => s.(stats := Update(s.stats, LOGS, n, now))
    case Serve(now) =>
      var stats := SelfCount(s.stats, now);
      s.(stats := stats, served := s.served + |stats|, missed := s.missed || POINTS !in s.stats)
  }

  // ---- Points still to be sent ----

  /** The counted points a participating processor has not sent yet. */
  function Pending(p: Proc): (n: nat) {
    if p.participates && (p.pc.Sending? || p.pc.SendingReport?) then |p.pc.items| else 0
  }

  ghost function SomeProc(procs: map<nat, Proc>): (p: nat)
    requires procs != map[]
    ensures p in procs
  {
    var p :| p in procs;
    p
  }

  ghost function TotalPending(procs: map<nat, Proc>): (n: nat)
    decreases |procs|
  {
    if procs == map[] then 0
    else
      var p := SomeProc(procs);
      assert |procs - {p}| < |procs|;
      Pending(procs[p]) + TotalPending(procs - {p})
  }

  lemma {:induction false} PendingWithout(procs: map<nat, Proc>, p: nat)
    requires p in procs
    ensures TotalPending(procs) == Pending(procs[p]) + TotalPending(procs - {p})
    decreases |procs|
  {
    hide Pending;
    var q := SomeProc(procs);
    if p != q {
      assert |procs - {q}| < |procs| && |procs - {p}| < |procs|;
      PendingWithout(procs - {q}, p);
      PendingWithout(procs - {p}, q);
      assert procs - {q} - {p} == procs - {p} - {q};
    }
  }

  /** Changing one processor changes the total by that processor's share. */
  lemma PendingAfter(procs: map<nat, Proc>, p: nat, x: Proc)
    ensures TotalPending(procs[p := x]) ==
            TotalPending(procs) + Pending(x) - if p in procs then Pending(procs[p]) else 0
  {
    hide Pending;
    PendingWithout(procs[p := x], p);
    assert procs[p := x] - {p} == procs - {p};
    if p in procs {
      PendingWithout(procs, p);
    } else {
      assert procs - {p} == procs;
    }
  }

  // ---- The invariant ----

  /** The shared counter is the number of points sent, served and still to be sent, but for the one that
      the endpoint misses when it creates the counter. */
  ghost predicate SelfExact(s: State) {
    && ValueOf(s.stats, POINTS) + (if s.missed then 1 else 0) == |s.sent| + TotalPending(s.procs) + s.served
    && (s.missed ==> POINTS in s.stats)
  }

  predicate InReport(pc: Pc) {
    pc.Reporting? || pc.SendingReport?
  }

  /** Only the elected processor reports, and only after it has counted. */
  predicate ReporterAlone(s: State) {
    && (forall p | p in s.procs && s.procs[p].participates && s.procs[p].pc.Sending? :: POINTS in s.stats)
    && (forall p | p in s.procs && InReport(s.procs[p].pc) ::
          s.procs[p].participates && s.reporter == Some(p) && POINTS in s.stats)
    && (forall p | p in s.procs :: p in s.started)
    && (s.reporter.Some? ==> s.reporter.value in s.started)
  }

  /** A collected or sent scrape holds data points only. */
  predicate ScrapesData(s: State) {
    forall p | p in s.procs && (s.procs[p].pc.Collected? || s.procs[p].pc.Sending?) :: AllData(s.procs[p].pc.items)
  }

  predicate AllData(items: seq<Item>) {
    forall i | 0 <= i < |items| :: items[i].Data?
  }

  /** No reported value exceeds its counter. */
  predicate Below(items: seq<Item>, c: Counts) {
    forall i | 0 <= i < |items| && items[i].Stat? :: items[i].value <= ValueOf(c, items[i].name)
  }

  /** Values reported for one counter never go down along the sequence. */
  predicate Rising(items: seq<Item>) {
    forall i, j | 0 <= i < j < |items| && items[i].Stat? && items[j].Stat? && items[i].name == items[j].name ::
      items[i].value <= items[j].value
  }

  /** What has been sent, followed by a report still being sent, rises and stays below the counters. */
  predicate ReportsRise(s: State) {
    && Rising(s.sent) && Below(s.sent, s.stats)
    && forall p | p in s.procs && s.procs[p].pc.SendingReport? ::
         Rising(s.sent + s.procs[p].pc.items) && Below(s.procs[p].pc.items, s.stats)
  }

  ghost predicate Inv(s: State) {
    SelfExact(s) && ReporterAlone(s) && ScrapesData(s) && ReportsRise(s)
  }

  // ---- Every step keeps it ----

  lemma NamesDiffer()
    ensures POINTS != LOGS
  {
    assert POINTS[16] != LOGS[16];
  }

  lemma UpdateGrows(c: Counts, name: string, n: nat, now: nat, items: seq<Item>)
    requires Below(items, c)
    ensures Below(items, Update(c, name, n, now))
  {
  }

  lemma QuietExact(s: State, e: Event)
    requires Inv(s) && Enabled(s, e) && (e.Start? || e.Process? || e.Collect? || e.Elect?)
    ensures SelfExact(Apply(s, e))
  {
    hide ReportsRise, ScrapesData, Tally, Lists, ScrapedItems, TotalPending;
    PendingAfter(s.procs, e.p, Apply(s, e).procs[e.p]);
  }

  lemma CountExact(s: State, e: Event)
    requires Inv(s) && Enabled(s, e) && (e.CountPoints? || e.Send?)
    ensures SelfExact(Apply(s, e))
  {
    hide ReportsRise, ScrapesData, TotalPending;
    PendingAfter(s.procs, e.p, Apply(s, e).procs[e.p]);
  }

  lemma ReportExact(s: State, e: Event)
    requires Inv(s) && Enabled(s, e) && e.Report?
    ensures SelfExact(Apply(s, e))
  {
    hide ReportsRise, ScrapesData, TotalPending, SelfCount, StatItems;
    SelfCountExact(s.stats, e.now);
    CounterCreated(s.stats, e.now);
    StatItemsLength(e.order, SelfCount(s.stats, e.now));
    PendingAfter(s.procs, e.p, Apply(s, e).procs[e.p]);
  }

  lemma ServeExact(s: State, e: Event)
    requires Inv(s) && Enabled(s, e) && e.Serve?
    ensures SelfExact(Apply(s, e))
  {
    hide ReportsRise, ScrapesData, TotalPending, SelfCount;
    SelfCountExact(s.stats, e.now);
    CounterCreated(s.stats, e.now);
  }

  lemma CounterCreated(c: Counts, now: nat)
    ensures POINTS in SelfCount(c, now)
    ensures POINTS !in c ==> ValueOf(c, POINTS) == 0
  {
  }

  lemma SharedExact(s: State, e: Event)
    requires Inv(s) && Enabled(s, e) && (e.Cleanup? || e.LogScrape?)
    ensures SelfExact(Apply(s, e))
  {
    hide ReportsRise, ScrapesData, TotalPending;
    NamesDiffer();
    if e.Cleanup? {
      PendingWithout(s.procs, e.p);
    }
  }

  lemma StatItemsLength(order: seq<string>, c: Counts)
    requires Lists(order, c)
    ensures |StatItems(order, c)| == |c|
  {
    ListsLength(order, c);
  }

  /** A step of one processor that is not about reporting. */
  lemma OneProcAlone(s: State, s': State, p: nat)
    requires ReporterAlone(s) && ScrapesData(s) && s'.reporter == s.reporter
    requires p in s'.procs && s.procs - {p} == s'.procs - {p} && s'.started == s.started + {p}
    requires POINTS in s.stats ==> POINTS in s'.stats
    requires InReport(s'.procs[p].pc) ==>
               p in s.procs && InReport(s.procs[p].pc) && s'.procs[p].participates == s.procs[p].participates
    requires s'.procs[p].participates && s'.procs[p].pc.Sending? ==> POINTS in s'.stats
    requires s'.procs[p].pc.Collected? || s'.procs[p].pc.Sending? ==> AllData(s'.procs[p].pc.items)
    ensures ReporterAlone(s') && ScrapesData(s')
  {
    hide AllData;
    forall q | q in s'.procs && q != p ensures q in s.procs && s'.procs[q] == s.procs[q] {
      assert q in s'.procs - {p};
      assert (s.procs - {p})[q] == (s'.procs - {p})[q];
    }
  }

  lemma ProcAlone(s: State, e: Event)
    requires Inv(s) && Enabled(s, e)
    requires e.Start? || e.Process? || e.Collect? || e.CountPoints? || e.Send? || e.Report?
    ensures ReporterAlone(Apply(s, e)) && ScrapesData(Apply(s, e))
  {
    hide SelfExact, ReportsRise, Tally, Lists, TotalPending, StatItems, PointsOf, PointOf;
    var s' := Apply(s, e);
    assert s'.procs - {e.p} == s.procs - {e.p};
    OneProcAlone(s, s', e.p);
  }

  lemma SharedAlone(s: State, e: Event)
    requires Inv(s) && Enabled(s, e)
    requires e.Elect? || e.Cleanup? || e.LogScrape? || e.Serve?
    ensures ReporterAlone(Apply(s, e)) && ScrapesData(Apply(s, e))
  {
    hide SelfExact, ReportsRise, TotalPending, AllData;
  }

  lemma AloneStep(s: State, e: Event)
    requires Inv(s) && Enabled(s, e)
    ensures ReporterAlone(Apply(s, e)) && ScrapesData(Apply(s, e))
  {
    hide *;
    if e.Elect? || e.Cleanup? || e.LogScrape? || e.Serve? {
      SharedAlone(s, e);
    } else {
      ProcAlone(s, e);
    }
  }

  // ---- Reports rise ----

  /** Growing counters and processors that are not in the middle of a report disturb nothing. */
  lemma RiseKept(s: State, s': State)
    requires ReportsRise(s) && s'.sent == s.sent
    requires Below(s.sent, s'.stats)
    requires forall p | p in s'.procs && s'.procs[p].pc.SendingReport? ::
               p in s.procs && s'.procs[p].pc == s.procs[p].pc && Below(s.procs[p].pc.items, s'.stats)
    ensures ReportsRise(s')
  {
    hide Below, Rising;
  }

  lemma CalmGrows(s: State, e: Event, items: seq<Item>)
    requires Enabled(s, e) && !e.Send? && !e.Report? && Below(items, s.stats)
    ensures Below(items, Apply(s, e).stats)
  {
    hide Below, Update, Lists, Tally, ScrapedItems;
    match e
    case CountPoints(p, now) => UpdateGrows(s.stats, POINTS, |s.procs[p].pc.items|, now, items);
    case LogScrape(n, now) => UpdateGrows(s.stats, LOGS, n, now, items);
    case Serve(now) => UpdateGrows(s.stats, POINTS, |s.stats|, now, items);
    case _ =>
  }

  lemma CalmRise(s: State, e: Event)
    requires Inv(s) && Enabled(s, e) && !e.Send? && !e.Report?
    ensures ReportsRise(Apply(s, e))
  {
    hide SelfExact, ReporterAlone, ScrapesData, Tally, Lists, ScrapedItems, Below, Rising, Update, SelfCount;
    var s' := Apply(s, e);
    forall items | Below(items, s.stats) ensures Below(items, s'.stats) {
      CalmGrows(s, e, items);
    }
    RiseKept(s, s');
  }

  /** A data point can follow anything. */
  lemma RisingData(items: seq<Item>, more: seq<Item>)
    requires Rising(items) && AllData(more)
    ensures Rising(items + more)
  {
  }

  lemma BelowAppend(items: seq<Item>, more: seq<Item>, c: Counts)
    ensures Below(items + more, c) <==> Below(items, c) && Below(more, c)
  {
    var all := items + more;
    assert forall i | 0 <= i < |items| :: all[i] == items[i];
    assert forall i | 0 <= i < |more| :: all[|items| + i] == more[i];
  }

  lemma RisingPrefix(items: seq<Item>, n: nat)
    requires n <= |items| && Rising(items)
    ensures Rising(items[..n])
  {
  }

  lemma SendDataRise(s: State, p: nat)
    requires Inv(s) && Enabled(s, Send(p)) && s.procs[p].pc.Sending?
    ensures ReportsRise(Apply(s, Send(p)))
  {
    var s' := Apply(s, Send(p));
    var x := s.procs[p].pc.items[0];
    assert AllData(s.procs[p].pc.items);
    assert x.Data?;
    RisingData(s.sent, [x]);
    BelowAppend(s.sent, [x], s.stats);
    forall q | q in s'.procs && s'.procs[q].pc.SendingReport?
      ensures Rising(s'.sent + s'.procs[q].pc.items) && Below(s'.procs[q].pc.items, s'.stats)
    {
      RisingInsert(s.sent, x, s.procs[q].pc.items);
    }
  }

  lemma RisingInsert(items: seq<Item>, x: Item, more: seq<Item>)
    requires Rising(items + more) && x.Data?
    ensures Rising(items + [x] + more)
  {
    var was, now := items + more, items + [x] + more;
    assert forall i | 0 <= i < |items| :: now[i] == was[i];
    assert forall i | |items| < i < |now| :: now[i] == was[i - 1];
  }

  lemma SendReportRise(s: State, p: nat)
    requires Inv(s) && Enabled(s, Send(p)) && s.procs[p].pc.SendingReport?
    ensures ReportsRise(Apply(s, Send(p)))
  {
    var s' := Apply(s, Send(p));
    var items := s.procs[p].pc.items;
    assert InReport(s.procs[p].pc);
    assert s.sent + items == s.sent + [items[0]] + items[1..];
    RisingPrefix(s.sent + items, |s.sent| + 1);
    assert (s.sent + items)[..|s.sent| + 1] == s.sent + [items[0]];
    BelowAppend(s.sent, [items[0]], s.stats);
    BelowAppend([items[0]], items[1..], s.stats);
    assert [items[0]] + items[1..] == items;
    forall q | q in s'.procs && s'.procs[q].pc.SendingReport? ensures q == p {
      assert InReport(s.procs[q].pc);
    }
  }

  lemma ReportRise(s: State, e: Event)
    requires Inv(s) && Enabled(s, e) && e.Report?
    ensures ReportsRise(Apply(s, e))
  {
    var s' := Apply(s, e);
    var items := StatItems(e.order, s'.stats);
    assert InReport(s.procs[e.p].pc);
    UpdateGrows(s.stats, POINTS, |s.stats|, e.now, s.sent);
    ItemsAreValues(e.order, s'.stats);
    RisingTop(s.sent, items, s'.stats);
    forall q | q in s'.procs && s'.procs[q].pc.SendingReport? ensures q == e.p {
      assert InReport(s'.procs[q].pc);
    }
  }

  /** Every item is its counter's current value. */
  predicate Exactly(items: seq<Item>, c: Counts) {
    forall i | 0 <= i < |items| :: items[i].Stat? && items[i].value == ValueOf(c, items[i].name)
  }

  lemma ItemsAreValues(order: seq<string>, c: Counts)
    requires Lists(order, c)
    ensures Exactly(StatItems(order, c), c)
  {
    forall i | 0 <= i < |order| ensures order[i] in c {
      assert order[i] in order;
    }
  }

  lemma RisingTop(items: seq<Item>, top: seq<Item>, c: Counts)
    requires Rising(items) && Below(items, c) && Exactly(top, c)
    ensures Rising(items + top) && Below(top, c)
  {
  }

  lemma StepKeeps(s: State, e: Event)
    requires Inv(s) && Enabled(s, e)
    ensures Inv(Apply(s, e))
  {
    AloneStep(s, e);
    hide SelfExact, ReporterAlone, ScrapesData, ReportsRise;
    match e
    case Send(p) =>
      CountExact(s, e);
      if s.procs[p].pc.Sending? { SendDataRise(s, p); } else { SendReportRise(s, p); }
    case Report(_, _, _) => ReportExact(s, e); ReportRise(s, e);
    case CountPoints(_, _) => CountExact(s, e); CalmRise(s, e);
    case Serve(_) => ServeExact(s, e); CalmRise(s, e);
    case Cleanup(_) => SharedExact(s, e); CalmRise(s, e);
    case LogScrape(_, _) => SharedExact(s, e); CalmRise(s, e);
    case _ => QuietExact(s, e); CalmRise(s, e);
  }

  // ---- Whole runs ----

  const INITIAL := State(map[], None, map[], {}, [], 0, false)

  /** The states of a run from the start, event by event. */
  ghost predicate IsRun(ss: seq<State>, es: seq<Event>) {
    && |ss| == |es| + 1 && ss[0] == INITIAL
    && forall i | 0 <= i < |es| :: Enabled(ss[i], es[i]) && ss[i + 1] == Apply(ss[i], es[i])
  }

  lemma {:induction false} RunKeeps(ss: seq<State>, es: seq<Event>, n: nat)
    requires IsRun(ss, es) && n < |ss|
    ensures Inv(ss[n])
  {
    if n > 0 {
      RunKeeps(ss, es, n - 1);
      StepKeeps(ss[n - 1], es[n - 1]);
    }
  }

  /** The endpoint created the self-counter before state `n`. */
  ghost predicate EndpointFirst(ss: seq<State>, es: seq<Event>, n: nat)
    requires IsRun(ss, es) && n < |ss|
  {
    exists i :: 0 <= i < n && es[i].Serve? && POINTS !in ss[i].stats
  }

  lemma {:induction false} MissedIff(ss: seq<State>, es: seq<Event>, n: nat)
    requires IsRun(ss, es) && n < |ss|
    ensures ss[n].missed <==> EndpointFirst(ss, es, n)
  {
    if n > 0 {
      MissedIff(ss, es, n - 1);
      assert ss[n] == Apply(ss[n - 1], es[n - 1]);
      hide SelfCount, Update, Tally;
      if es[n - 1].Serve? && POINTS !in ss[n - 1].stats {
        assert EndpointFirst(ss, es, n);
      }
    }
  }

  /** In every state of every interleaving: the shared counter equals the points sent, served and still to
      be sent exactly when the endpoint did not create it (it is one short otherwise); at most one
      processor is reporting; and the values sent for any one counter never go down, across hand-over. */
  lemma SelfConservation(ss: seq<State>, es: seq<Event>, n: nat)
    requires IsRun(ss, es) && n < |ss|
    ensures var s := ss[n];
            ValueOf(s.stats, POINTS) + (if EndpointFirst(ss, es, n) then 1 else 0)
            == |s.sent| + TotalPending(s.procs) + s.served
    ensures forall p, q | p in ss[n].procs && q in ss[n].procs && InReport(ss[n].procs[p].pc)
            && InReport(ss[n].procs[q].pc) ::
              p == q
    ensures Rising(ss[n].sent)
  {
    hide EndpointFirst, TotalPending, Rising;
    RunKeeps(ss, es, n);
    MissedIff(ss, es, n);
  }

  /** A scrape collects exactly one point per counter of its processor. */
  lemma ScrapeCollectsCounters(s: State, p: nat, order: seq<string>)
    requires Enabled(s, Collect(p, order))
    ensures var items := Apply(s, Collect(p, order)).procs[p].pc.items;
            && |items| == |s.procs[p].counts|
            && (forall i | 0 <= i < |items| ::
                  items[i].Data? && Shows(items[i].point, order[i], s.procs[p].counts))
  {
    ListsLength(order, s.procs[p].counts);
  }

  /** A report lists exactly one item per shared counter, the self-count included, with its name, its value and
      its start time. */
  lemma ReportListsCounters(s: State, p: nat, order: seq<string>, now: nat)
    requires Enabled(s, Report(p, order, now))
    ensures var s' := Apply(s, Report(p, order, now)); var items := s'.procs[p].pc.items;
            && |items| == |s'.stats| == |order| && POINTS in order
            && (forall i | 0 <= i < |items| ::
                  && items[i].Stat? && items[i].name == order[i] && order[i] in s'.stats
                  && items[i].value == s'.stats[order[i]].value && items[i].start == s'.stats[order[i]].start)
  {
    var stats := SelfCount(s.stats, now);
    ListsLength(order, stats);
    CounterCreated(s.stats, now);
    hide SelfCount;
    forall i | 0 <= i < |order| ensures order[i] in stats {
      assert order[i] in order;
    }
  }

  lemma LogStep(s: State, e: Event)
    requires Enabled(s, e)
    ensures ValueOf(Apply(s, e).stats, LOGS) == ValueOf(s.stats, LOGS) + if e.LogScrape? then e.records else 0
  {
    NamesDiffer();
    hide Tally, ScrapedItems, StatItems, AfterSend, Lists;
  }

  /** The log records of the first `n` events. */
  function Logged(es: seq<Event>, n: nat): (k: nat)
    requires n <= |es|
  {
    if n == 0 then 0 else Logged(es, n - 1) + if es[n - 1].LogScrape? then es[n - 1].records else 0
  }

  /** In every state of every interleaving the log counter is the number of log records scraped. */
  lemma {:induction false} LogsConserved(ss: seq<State>, es: seq<Event>, n: nat)
    requires IsRun(ss, es) && n < |ss|
    ensures ValueOf(ss[n].stats, LOGS) == Logged(es, n)
  {
    if n > 0 {
      LogsConserved(ss, es, n - 1);
      assert ss[n] == Apply(ss[n - 1], es[n - 1]);
      hide Apply, Enabled, ValueOf;
      LogStep(ss[n - 1], es[n - 1]);
    }
  }
}
