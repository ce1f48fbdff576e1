/** Handing the reporter role over: when another report can still come, and when none ever will. */
module TelemetryHandOver {
  import opened Options
  import opened Naturals
  import opened TelemetryCounts
  import opened TelemetrySelf

  // ---- Runs from any state ----

  ghost predicate Feasible(s: State, es: seq<Event>)
    decreases |es|
  {
    es == [] || (Enabled(s, es[0]) && Feasible(Apply(s, es[0]), es[1..]))
  }

  function Final(s: State, es: seq<Event>): (s': State)
    requires Feasible(s, es)
    decreases |es|
  {
    if es == [] then s else Final(Apply(s, es[0]), es[1..])
  }

  lemma Prepend(s: State, e: Event, es: seq<Event>)
    requires Enabled(s, e) && Feasible(Apply(s, e), es)
    ensures Feasible(s, [e] + es) && Final(s, [e] + es) == Final(Apply(s, e), es)
  {
    hide Enabled, Apply;
    assert ([e] + es)[0] == e && ([e] + es)[1..] == es;
  }

  // ---- The elected processor ----

  /** An elected processor that still runs takes part, and a report being sent has points left. */
  predicate Electable(s: State) {
    && (s.reporter.Some? && s.reporter.value in s.procs ==> s.procs[s.reporter.value].participates)
    && (forall p | p in s.procs && s.procs[p].pc.SendingReport? :: s.procs[p].pc.items != [])
  }

  lemma ElectableStep(s: State, e: Event)
    requires Inv(s) && Enabled(s, e) && Electable(s)
    ensures Electable(Apply(s, e))
  {
    hide SelfExact, ReportsRise, ScrapesData, Tally, Lists, ScrapedItems, StatItems, Update;
    if e.Report? {
      StatItemsLength(e.order, SelfCount(s.stats, e.now));
      CounterCreated(s.stats, e.now);
    }
  }

  lemma {:induction false} RunElectable(ss: seq<State>, es: seq<Event>, n: nat)
    requires IsRun(ss, es) && n < |ss|
    ensures Electable(ss[n])
  {
    hide Inv, Electable;
    if n == 0 {
      InitialElectable();
    } else {
      RunElectable(ss, es, n - 1);
      RunKeeps(ss, es, n - 1);
      ElectableStep(ss[n - 1], es[n - 1]);
    }
  }

  lemma InitialElectable()
    ensures Electable(INITIAL)
  {
  }

  // ---- No report follows ----

  /** The elected reporter has stopped and the election still names it. */
  predicate Orphaned(s: State) {
    s.reporter.Some? && s.reporter.value !in s.procs
  }

  function ReportsSent(items: seq<Item>): (n: nat) {
    if items == [] then 0 else ReportsSent(items[..|items| - 1]) + if items[|items| - 1].Stat? then 1 else 0
  }

  lemma OrphanedStep(s: State, e: Event)
    requires Inv(s) && Enabled(s, e) && Orphaned(s)
    ensures Orphaned(Apply(s, e)) && Apply(s, e).reporter == s.reporter && !e.Report?
    ensures ReportsSent(Apply(s, e).sent) == ReportsSent(s.sent)
  {
    hide SelfExact, ReportsRise, Tally, Lists, TotalPending, StatItems, ScrapedItems, Update, SelfCount;
    forall p | p in s.procs ensures !InReport(s.procs[p].pc) {
    }
    if e.Send? {
      var x := s.procs[e.p].pc.items[0];
      assert AllData(s.procs[e.p].pc.items);
      assert (s.sent + [x])[..|s.sent|] == s.sent;
    }
  }

  /** The events can happen from `s` and one of them is a report. */
  ghost predicate Reports(s: State, es: seq<Event>) {
    Feasible(s, es) && exists i :: 0 <= i < |es| && es[i].Report?
  }

  /** Once orphaned, always orphaned: no report is made and none is sent. */
  lemma {:induction false} OrphanedForever(s: State, es: seq<Event>)
    requires Inv(s) && Orphaned(s) && Feasible(s, es)
    ensures Orphaned(Final(s, es)) && ReportsSent(Final(s, es).sent) == ReportsSent(s.sent)
    ensures !Reports(s, es)
    decreases |es|
  {
    hide Orphaned, Inv, ReportsSent, Enabled;
    if es != [] {
      OrphanedStep(s, es[0]);
      StepKeeps(s, es[0]);
      OrphanedForever(Apply(s, es[0]), es[1..]);
      assert forall i | 1 <= i < |es| :: es[i] == es[1..][i - 1];
    }
  }

  // ---- A report can follow ----

  lemma {:induction false} Append(s: State, es: seq<Event>, more: seq<Event>)
    requires Feasible(s, es) && Feasible(Final(s, es), more)
    ensures Feasible(s, es + more) && Final(s, es + more) == Final(Final(s, es), more)
    decreases |es|
  {
    hide Enabled, Apply;
    if es == [] {
      assert es + more == more;
    } else {
      Append(Apply(s, es[0]), es[1..], more);
      Prepend(s, es[0], es[1..] + more);
      assert [es[0]] + (es[1..] + more) == es + more;
    }
  }

  lemma One(s: State, e: Event)
    requires Enabled(s, e)
    ensures Feasible(s, [e]) && Final(s, [e]) == Apply(s, e)
  {
    hide Enabled, Apply;
    Prepend(s, e, []);
    assert [e] + [] == [e];
  }

  lemma {:induction false} SomeOrder(c: Counts) returns (order: seq<string>)
    ensures Lists(order, c)
    decreases |c|
  {
    if c == map[] {
      order := [];
    } else {
      var k :| k in c;
      assert |c - {k}| < |c|;
      var before := SomeOrder(c - {k});
      order := before + [k];
    }
  }

  /** The processor takes part and may become, or is, the reporter. */
  predicate Candidate(s: State, p: nat) {
    && p in s.procs && s.procs[p].participates && (s.reporter.None? || s.reporter == Some(p))
    && (s.procs[p].pc.Reporting? ==> s.reporter == Some(p))
    && (s.procs[p].pc.SendingReport? ==> s.procs[p].pc.items != [])
  }

  /** The processor is elected and about to report. */
  predicate Elected(s: State, p: nat, exporter: bool) {
    && p in s.procs && s.procs[p].pc.Reporting? && s.procs[p].participates && s.procs[p].hasExporter == exporter
    && s.reporter == Some(p)
  }

  /** How far a processor is from its next report. */
  function Distance(pc: Pc): (d: nat) {
    match pc
    case Reporting => 0
    case Sending(_) => 1
    case Collected(_) => 2
    case Idle => 3
    case SendingReport(_) => 4
  }

  function Left(pc: Pc): (n: nat) {
    if pc.Sending? || pc.SendingReport? then |pc.items| else 0
  }

  /** The candidate's own next step: it stays a candidate and comes closer to reporting. */
  lemma NextStep(s: State, p: nat) returns (e: Event)
    requires Candidate(s, p) && !s.procs[p].pc.Reporting?
    ensures Enabled(s, e)
    ensures var s' := Apply(s, e);
            && Candidate(s', p) && s'.procs[p].hasExporter == s.procs[p].hasExporter
            && (|| Distance(s'.procs[p].pc) < Distance(s.procs[p].pc)
                || (Distance(s'.procs[p].pc) == Distance(s.procs[p].pc) && Left(s'.procs[p].pc) < Left(s.procs[p].pc)))
  {
    hide Lists, ScrapedItems, Update;
    match s.procs[p].pc
    case Idle =>
      var order := SomeOrder(s.procs[p].counts);
      e := Collect(p, order);
    case Collected(_) => e := CountPoints(p, 0);
    case Sending(items) => e := if items == [] then Elect(p) else Send(p);
    case SendingReport(_) => e := Send(p);
  }

  /** Undisturbed, a candidate gets to report. */
  lemma {:induction false} ToReporting(s: State, p: nat) returns (es: seq<Event>)
    requires Candidate(s, p)
    ensures Feasible(s, es) && Elected(Final(s, es), p, s.procs[p].hasExporter)
    decreases Distance(s.procs[p].pc), Left(s.procs[p].pc)
  {
    if s.procs[p].pc.Reporting? {
      es := [];
    } else {
      var e := NextStep(s, p);
      hide Enabled, Apply;
      var more := ToReporting(Apply(s, e), p);
      Prepend(s, e, more);
      es := [e] + more;
    }
  }

  lemma CandidateReports(s: State, p: nat) returns (es: seq<Event>)
    requires Candidate(s, p)
    ensures Reports(s, es)
  {
    var before := ToReporting(s, p);
    var t := Final(s, before);
    hide Lists, SelfCount, Feasible, Final;
    var order := SomeOrder(SelfCount(t.stats, 0));
    var e := Report(p, order, 0);
    One(t, e);
    Append(s, before, [e]);
    es := before + [e];
    assert es[|before|].Report?;
  }

  /** Without an elected reporter, a processor that starts now is a candidate. */
  lemma StartCandidate(s: State, exporter: bool) returns (e: Event)
    requires s.reporter.None?
    ensures Enabled(s, e) && e.Start? && Candidate(Apply(s, e), e.p) && Apply(s, e).procs[e.p].hasExporter == exporter
  {
    e := Start(Above(s.started), true, exporter);
  }

  lemma NoReporterReports(s: State) returns (es: seq<Event>)
    requires s.reporter.None?
    ensures Reports(s, es)
  {
    var e := StartCandidate(s, false);
    hide Enabled, Apply;
    var more := CandidateReports(Apply(s, e), e.p);
    Prepend(s, e, more);
    es := [e] + more;
    var i :| 0 <= i < |more| && more[i].Report?;
    assert es[i + 1].Report?;
  }

  /** No further report can ever come exactly when the election names a stopped processor. */
  lemma NoReportIff(s: State)
    requires Inv(s) && Electable(s)
    ensures (forall es :: !Reports(s, es)) <==> Orphaned(s)
  {
    hide Inv, Reports;
    if Orphaned(s) {
      forall es ensures !Reports(s, es) {
        OrphanedSilent(s, es);
      }
    } else if s.reporter.None? {
      var es := NoReporterReports(s);
    } else {
      ElectedIsCandidate(s);
      var es := CandidateReports(s, s.reporter.value);
    }
  }

  lemma ElectedIsCandidate(s: State)
    requires Inv(s) && Electable(s) && s.reporter.Some? && s.reporter.value in s.procs
    ensures Candidate(s, s.reporter.value)
  {
  }

  lemma OrphanedSilent(s: State, es: seq<Event>)
    requires Inv(s) && Orphaned(s)
    ensures !Reports(s, es)
  {
    hide Inv, Orphaned;
    if Feasible(s, es) {
      OrphanedForever(s, es);
    }
  }

  /** Stopping orphans the election exactly for an elected processor with a log exporter. */
  lemma CleanupOrphans(s: State, p: nat)
    requires Inv(s) && Enabled(s, Cleanup(p)) && !Orphaned(s)
    ensures Orphaned(Apply(s, Cleanup(p))) <==> s.reporter == Some(p) && s.procs[p].hasExporter
  {
    hide SelfExact, ReportsRise, ScrapesData;
  }

  // ---- Runs that end orphaned ----

  /** Send what is left of a report. */
  lemma {:induction false} ToIdle(s: State, p: nat) returns (es: seq<Event>)
    requires p in s.procs && s.procs[p].pc.SendingReport? && s.procs[p].pc.items != []
    ensures Feasible(s, es)
    ensures var t := Final(s, es);
            && p in t.procs && t.procs[p] == s.procs[p].(pc := Idle) && t.reporter == s.reporter
    decreases |s.procs[p].pc.items|
  {
    var s' := Apply(s, Send(p));
    if |s.procs[p].pc.items| == 1 {
      One(s, Send(p));
      es := [Send(p)];
    } else {
      var more := ToIdle(s', p);
      Prepend(s, Send(p), more);
      es := [Send(p)] + more;
    }
  }

  lemma ReportThenIdle(s: State, p: nat, exporter: bool) returns (es: seq<Event>)
    requires Elected(s, p, exporter)
    ensures Feasible(s, es)
    ensures var t := Final(s, es);
            p in t.procs && t.procs[p].pc.Idle? && t.procs[p].hasExporter == exporter && t.reporter == Some(p)
  {
    var stats := SelfCount(s.stats, 0);
    CounterCreated(s.stats, 0);
    hide Lists, SelfCount, StatItems;
    var order := SomeOrder(stats);
    var e := Report(p, order, 0);
    StatItemsLength(order, stats);
    var more := ToIdle(Apply(s, e), p);
    Prepend(s, e, more);
    es := [e] + more;
  }

  /** A candidate reports and stops: the election is orphaned with a log exporter, and open without. */
  lemma CandidateStops(s: State, p: nat) returns (es: seq<Event>)
    requires Candidate(s, p)
    ensures Feasible(s, es)
    ensures if s.procs[p].hasExporter then Orphaned(Final(s, es)) else Final(s, es).reporter.None?
  {
    var exporter := s.procs[p].hasExporter;
    var before := ToReporting(s, p);
    var t := Final(s, before);
    var more := ReportThenIdle(t, p, exporter);
    var u := Final(t, more);
    hide Feasible, Final;
    One(u, Cleanup(p));
    Append(t, more, [Cleanup(p)]);
    Append(s, before, more + [Cleanup(p)]);
    es := before + (more + [Cleanup(p)]);
  }

  /** Without an elected reporter, a new processor with a log exporter can be elected, report and stop. */
  lemma NoReporterOrphans(s: State) returns (es: seq<Event>)
    requires s.reporter.None?
    ensures Feasible(s, es) && Orphaned(Final(s, es))
  {
    var e := StartCandidate(s, true);
    hide Enabled, Apply, Candidate, Orphaned;
    var more := CandidateStops(Apply(s, e), e.p);
    Prepend(s, e, more);
    es := [e] + more;
  }

  /** From every state the election can be orphaned: a reporter without a log exporter first gives the role back. */
  lemma OrphanedReached(s: State) returns (es: seq<Event>)
    requires Inv(s) && Electable(s)
    ensures Feasible(s, es) && Orphaned(Final(s, es))
  {
    if Orphaned(s) {
      es := [];
    } else if s.reporter.None? {
      es := NoReporterOrphans(s);
    } else {
      var p := s.reporter.value;
      ElectedIsCandidate(s);
      hide Inv, Electable, Candidate;
      es := CandidateStops(s, p);
      if !s.procs[p].hasExporter {
        var more := NoReporterOrphans(Final(s, es));
        Append(s, es, more);
        es := es + more;
      }
    }
  }

  /** In particular from the start. */
  lemma OrphanedFromStart() returns (es: seq<Event>)
    ensures Feasible(INITIAL, es) && Orphaned(Final(INITIAL, es))
  {
    assert Inv(INITIAL) && Electable(INITIAL);
    es := OrphanedReached(INITIAL);
  }
}
