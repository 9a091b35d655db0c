/**
  Runs of the report queue, one lock section at a time: panes record and signal, the loop wakes,
  swaps the queue out and writes it. Between any two steps of the loop, panes may do theirs.
 */
module TaskReportQueue {
  import opened Strings
  import opened TaskFlush
  import opened TaskReports
  import opened Wrappers

  datatype Loop = Waiting | Swapping | Storing(reports: seq<PaneReport>)

  /** `signalling` counts the panes that have recorded a report and not yet sent the token. */
  datatype World = World(reports: Reports, token: bool, signalling: nat, loop: Loop, table: Table)

  /** `loads`: what loading the bindings answers during the flush, report by report and project by project. */
  datatype Event =
    | Report(r: PaneReport)
    | Signal
    | Wake
    | Swap
    | Store(site: Site, loads: seq<seq<Option<Bindings>>>, order: seq<string>)

  /** A step that cannot be taken leaves everything as it is. */
  ghost function Next(hash: Hash, w: World, e: Event): World {
    match e
    case Report(r) =>
      if IsNews(w.reports, r) then w.(reports := Recorded(w.reports, r), signalling := w.signalling + 1) else w
    case Signal => if w.signalling > 0 then w.(token := true, signalling := w.signalling - 1) else w
    case Wake => if w.loop.Waiting? && w.token then w.(token := false, loop := Swapping) else w
    case Swap => if w.loop.Swapping? then w.(reports := Emptied(w.reports), loop := Storing(w.reports.queue)) else w
    case Store(site, loads, order) =>
      var jobs := Jobs(InFlight(w), loads);
      if w.loop.Storing? && IsWriteOrder(site, jobs, order)
      then w.(table := Replay(w.table, Rows(hash, Flushed(site, jobs, order))), loop := Waiting) else w
  }

  ghost function Run(hash: Hash, w: World, events: seq<Event>): World {
    if events == [] then w else Next(hash, Run(hash, w, events[..|events| - 1]), events[|events| - 1])
  }

  function Start(table: Table): World {
    World(Reports(map[], {}, []), false, 0, Waiting, table)
  }

  function InFlight(w: World): seq<PaneReport> {
    if w.loop.Storing? then w.loop.reports else []
  }

  /** A queued report will be picked up: a token waits, or a pane is about to send one, or the loop is about to swap. */
  ghost predicate NoLostWakeup(w: World) {
    w.reports.queue != [] ==> w.token || w.signalling > 0 || w.loop.Swapping?
  }

  ghost predicate Consistent(w: World) {
    && w.reports.dirty == PaneIDs(w.reports.queue)
    && (forall id :: id in w.reports.latest ==> w.reports.latest[id].paneID == id)
    && (forall r :: r in w.reports.queue || r in InFlight(w) ==> r.paneID in w.reports.latest)
  }

  /** The rows of the latest reports, on top of what the table held at the start. */
  ghost function Expected(hash: Hash, table: Table, w: World): Table {
    table + map id | id in w.reports.latest :: Image(hash, w.reports.latest[id])
  }

  /** What the table becomes once everything recorded is written. */
  function Pending(hash: Hash, w: World): Table {
    Replay(Replay(w.table, Rows(hash, InFlight(w))), Rows(hash, w.reports.queue))
  }

  ghost predicate Agrees(hash: Hash, table: Table, w: World) {
    Pending(hash, w) == Expected(hash, table, w)
  }

  /** There are projects, and every project has a store that writes. */
  predicate Healthy(site: Site) {
    site.projects != [] && forall p :: p in site.projects ==> p.repoRoot in Writing(site)
  }

  /** Panes report themselves as their target. */
  predicate NameThemselves(events: seq<Event>) {
    forall e :: e in events && e.Report? ==> e.r.paneTarget == e.r.paneID
  }

  /** In every flush of the run, no project gains its first or loses its last binding of a pane in between. */
  ghost predicate StaySteady(hash: Hash, table: Table, events: seq<Event>) {
    forall n :: 0 <= n < |events| && events[n].Store? ==>
      AreSteady(events[n].site, Jobs(InFlight(Run(hash, Start(table), events[..n])), events[n].loads))
  }

  /** No store refused, in this run. */
  predicate NeverFails(events: seq<Event>) {
    forall e :: e in events && e.Store? ==> Healthy(e.site)
  }

  // ---------------------------------------------------------------------------------------------

  lemma RouteIsProject(site: Site, j: Job)
    requires site.projects != []
    ensures exists p :: p in site.projects && p.repoRoot == Route(site, j)
  {
    var k := FirstBound(site, j);
    assert site.projects[if k.Some? then k.value else 0] in site.projects;
  }

  lemma {:induction false} HealthyWritesAll(site: Site, jobs: seq<Job>)
    requires Healthy(site)
    ensures Written(site, jobs) == ReportsOf(jobs)
  {
    hide Route;
    if jobs != [] {
      var init, j := jobs[..|jobs| - 1], jobs[|jobs| - 1];
      HealthyWritesAll(site, init);
      RouteIsProject(site, j);
      assert ReportsOf(init) + [j.report] == ReportsOf(jobs);
    }
  }

  lemma StepKeepsConsistent(hash: Hash, w: World, e: Event)
    requires Consistent(w) && NoLostWakeup(w)
    ensures Consistent(Next(hash, w, e)) && NoLostWakeup(Next(hash, w, e))
  {
    hide Trim, SamePaneContent, Replay, Written;
    if e.Report? && IsNews(w.reports, e.r) {
      var named := e.r.(paneID := Trim(e.r.paneID));
      assert PaneIDs(w.reports.queue + [named]) == PaneIDs(w.reports.queue) + {named.paneID};
    }
  }

  /** Whatever the stores do, no wake-up is lost, and the dirty panes are exactly those in the queue. */
  lemma {:induction false} QueuedReportsAreSignalled(hash: Hash, table: Table, events: seq<Event>)
    ensures var w := Run(hash, Start(table), events);
      && (w.reports.queue != [] ==> w.token || w.signalling > 0 || w.loop.Swapping?)
      && w.reports.dirty == PaneIDs(w.reports.queue)
      && Consistent(w)
  {
    hide Next, Replay;
    if events != [] {
      var init := events[..|events| - 1];
      QueuedReportsAreSignalled(hash, table, init);
      StepKeepsConsistent(hash, Run(hash, Start(table), init), events[|events| - 1]);
    }
  }

  lemma ReplayOneMore(table: Table, rows: seq<PaneRow>, row: PaneRow)
    ensures Replay(table, rows + [row]) == Replay(table, rows)[row.paneID := row]
  {
  }

  lemma ReportKeepsAgreement(hash: Hash, table: Table, w: World, r: PaneReport)
    requires Agrees(hash, table, w)
    ensures Agrees(hash, table, Next(hash, w, Report(r)))
  {
    hide Trim, SamePaneContent, Image, Replay, Rows, Expected;
    if IsNews(w.reports, r) {
      var named := r.(paneID := Trim(r.paneID));
      ImageNamesPane(hash, named);
      RowsOneMore(hash, w.reports.queue, named);
      ReplayOneMore(Replay(w.table, Rows(hash, InFlight(w))), Rows(hash, w.reports.queue), Image(hash, named));
      ExpectedOneMore(hash, table, w, r);
    }
  }

  lemma ExpectedOneMore(hash: Hash, table: Table, w: World, r: PaneReport)
    requires IsNews(w.reports, r)
    ensures var named := r.(paneID := Trim(r.paneID));
      Expected(hash, table, Next(hash, w, Report(r))) == Expected(hash, table, w)[named.paneID := Image(hash, named)]
  {
    hide Trim, SamePaneContent, Image, IsNews;
  }

  lemma StepKeepsAgreement(hash: Hash, table: Table, w: World, e: Event)
    requires Agrees(hash, table, w)
    requires e.Store? ==> Healthy(e.site) && OneRoutePerPane(e.site, Jobs(InFlight(w), e.loads))
    ensures Agrees(hash, table, Next(hash, w, e))
  {
    hide IsNews, Image, Written, Flushed, Healthy, OneRoutePerPane, IsWriteOrder, Jobs;
    if e.Report? {
      ReportKeepsAgreement(hash, table, w, e.r);
    } else {
      if e.Store? && w.loop.Storing? && IsWriteOrder(e.site, Jobs(w.loop.reports, e.loads), e.order) {
        var jobs := Jobs(w.loop.reports, e.loads);
        ReportsOfJobs(w.loop.reports, e.loads);
        HealthyWritesAll(e.site, jobs);
        OrderDoesNotMatter(hash, e.site, jobs, e.order, w.table);
      }
      assert Expected(hash, table, Next(hash, w, e)) == Expected(hash, table, w);
    }
  }

  /**
    Without failures, and while bindings are steady, writing what is recorded over the table always gives
    the latest reports.
   */
  lemma {:induction false} QueueAgreesWithLatest(hash: Hash, table: Table, events: seq<Event>)
    requires NeverFails(events) && NameThemselves(events) && StaySteady(hash, table, events)
    ensures Agrees(hash, table, Run(hash, Start(table), events))
  {
    hide Next, Agrees, OneRoutePerPane, AreSteady, Jobs;
    if events == [] {
      StartAgrees(hash, table);
    } else {
      var init, e := events[..|events| - 1], events[|events| - 1];
      assert e in events && forall x :: x in init ==> x in events;
      assert forall n :: 0 <= n < |init| ==> init[..n] == events[..n];
      QueueAgreesWithLatest(hash, table, init);
      if e.Store? {
        RunsHaveOneRoute(hash, table, init, e.site, e.loads);
      }
      StepKeepsAgreement(hash, table, Run(hash, Start(table), init), e);
    }
  }

  lemma StartAgrees(hash: Hash, table: Table)
    ensures Agrees(hash, table, Start(table))
  {
  }

  function Signals(n: nat): seq<Event> {
    if n == 0 then [] else Signals(n - 1) + [Signal]
  }

  /**
    What is left to happen once no more reports come: the round under way ends, pending tokens are
    sent, one more round runs.
   */
  function Wrapup(w: World, store: Event, next: Event): seq<Event> {
    [Swap, store] + Signals(w.signalling) + [Wake, Swap, next]
  }

  /** `e` can write what is in flight. */
  ghost predicate IsStore(w: World, e: Event) {
    e.Store? && IsWriteOrder(e.site, Jobs(InFlight(w), e.loads), e.order)
  }

  /** The two rounds write their repositories in possible orders. */
  ghost predicate AreStores(hash: Hash, w: World, store: Event, next: Event) {
    && IsStore(Next(hash, w, Swap), store)
    && IsStore(Run(hash, w, [Swap, store] + Signals(w.signalling) + [Wake, Swap]), next)
  }

  lemma {:induction false} RunConcat(hash: Hash, w: World, a: seq<Event>, b: seq<Event>)
    ensures Run(hash, w, a + b) == Run(hash, Run(hash, w, a), b)
  {
    hide Next;
    if b == [] {
      assert a + b == a;
    } else {
      RunConcat(hash, w, a, b[..|b| - 1]);
      assert (a + b)[..|a + b| - 1] == a + b[..|b| - 1];
    }
  }

  lemma {:induction false} SignalsRun(hash: Hash, w: World, n: nat)
    requires n <= w.signalling
    ensures Run(hash, w, Signals(n)) == w.(token := w.token || n > 0, signalling := w.signalling - n)
    ensures forall e :: e in Signals(n) ==> e == Signal
  {
    if n > 0 {
      SignalsRun(hash, w, n - 1);
      assert Signals(n)[..|Signals(n)| - 1] == Signals(n - 1);
    }
  }

  lemma RunTwo(hash: Hash, w: World, a: Event, b: Event)
    ensures Run(hash, w, [a, b]) == Next(hash, Next(hash, w, a), b)
  {
    assert [a, b][..1] == [a] && [a][..0] == [];
    assert Run(hash, w, [a]) == Next(hash, Run(hash, w, []), a);
  }

  /** One more round leaves nothing queued or in flight. */
  lemma {:induction false} WrapupEmpties(hash: Hash, w: World, store: Event, next: Event)
    requires NoLostWakeup(w) && Consistent(w) && AreStores(hash, w, store, next)
    ensures var f := Run(hash, w, Wrapup(w, store, next));
      f.reports.queue == [] && f.loop == Waiting && !f.token && f.signalling == 0
        && f.reports.latest == w.reports.latest
  {
    hide Replay, Flushed, Rows, Recorded, IsNews, Run, IsWriteOrder, Jobs;
    var first := Next(hash, Next(hash, w, Swap), store);
    RunTwo(hash, w, Swap, store);
    RunConcat(hash, w, [Swap, store], Signals(w.signalling));
    SignalsRun(hash, first, w.signalling);
    var second := Run(hash, first, Signals(w.signalling));
    var start := [Swap, store] + Signals(w.signalling);
    RunConcat(hash, w, start, [Wake, Swap]);
    RunTwo(hash, second, Wake, Swap);
    assert Wrapup(w, store, next) == start + [Wake, Swap] + [next];
    RunConcat(hash, w, start + [Wake, Swap], [next]);
    RunOne(hash, Next(hash, Next(hash, second, Wake), Swap), next);
    assert PaneIDs([]) == {};
  }

  lemma RunOne(hash: Hash, w: World, e: Event)
    ensures Run(hash, w, [e]) == Next(hash, w, e)
  {
  }

  /**
    Write-behind loses nothing: after any run without failures and with steady bindings, once no more
    reports come, one more round leaves the table with exactly the row of every pane's latest report over
    what it held at first.
   */
  lemma {:induction false} EverythingIsWritten(hash: Hash, table: Table, events: seq<Event>, store: Event, next: Event)
    requires NeverFails(events + [store, next]) && NameThemselves(events)
    requires var w := Run(hash, Start(table), events);
      AreStores(hash, w, store, next) && StaySteady(hash, table, events + Wrapup(w, store, next))
    ensures var w := Run(hash, Start(table), events);
      Run(hash, w, Wrapup(w, store, next)).table == Expected(hash, table, w)
  {
    hide Next, Run, Expected, Healthy, PaneIDs, IsWriteOrder, Jobs, StaySteady;
    var w := Run(hash, Start(table), events);
    QueuedReportsAreSignalled(hash, table, events);
    WrapupEmpties(hash, w, store, next);
    var rest := Wrapup(w, store, next);
    SignalsRun(hash, w, w.signalling);
    RunConcat(hash, Start(table), events, rest);
    assert forall e :: e in events + [store, next] <==> e in events || e == store || e == next;
    assert forall e :: e in events + rest ==> e in events || e in rest;
    QueueAgreesWithLatest(hash, table, events + rest);
    SameExpected(hash, table, w, Run(hash, w, rest));
  }

  /** Such rounds are always possible, whatever the bindings answer. */
  lemma HasStores(hash: Hash, w: World, site: Site, loads: seq<seq<Option<Bindings>>>,
      more: seq<seq<Option<Bindings>>>)
    returns (store: Event, next: Event)
    ensures AreStores(hash, w, store, next) && store.site == site == next.site
    ensures store.loads == loads && next.loads == more
  {
    hide Run, Next, IsWriteOrder, Jobs;
    var order := HasWriteOrder(site, Jobs(InFlight(Next(hash, w, Swap)), loads));
    store := Store(site, loads, order);
    var last := Run(hash, w, [Swap, store] + Signals(w.signalling) + [Wake, Swap]);
    order := HasWriteOrder(site, Jobs(InFlight(last), more));
    next := Store(site, more, order);
  }

  lemma SameExpected(hash: Hash, table: Table, w: World, f: World)
    requires w.reports.latest == f.reports.latest
    ensures Expected(hash, table, w) == Expected(hash, table, f)
  {
  }

  /**
    In every run of panes that report themselves as their target, the reports in flight have one route per
    pane as long as bindings are steady.
   */
  lemma RunsHaveOneRoute(hash: Hash, table: Table, events: seq<Event>, site: Site, loads: seq<seq<Option<Bindings>>>)
    requires NameThemselves(events) && AreSteady(site, Jobs(InFlight(Run(hash, Start(table), events)), loads))
    ensures OneRoutePerPane(site, Jobs(InFlight(Run(hash, Start(table), events)), loads))
  {
    hide OneRoutePerPane, Run, Trim, AreSteady;
    TargetsAreNames(hash, table, events);
    PanesHaveOneRoute(site, Jobs(InFlight(Run(hash, Start(table), events)), loads));
  }

  ghost predicate TargetNames(w: World) {
    forall r :: r in w.reports.queue || r in InFlight(w) ==> Trim(r.paneTarget) == Trim(r.paneID)
  }

  lemma StepKeepsTargets(hash: Hash, w: World, e: Event)
    requires TargetNames(w) && NameThemselves([e])
    ensures TargetNames(Next(hash, w, e))
  {
    hide Trim, SamePaneContent, Replay, Rows, Flushed, IsWriteOrder;
    assert e in [e];
    if e.Report? {
      TrimIsIdempotent(e.r.paneID);
    }
  }

  lemma {:induction false} TargetsAreNames(hash: Hash, table: Table, events: seq<Event>)
    requires NameThemselves(events)
    ensures TargetNames(Run(hash, Start(table), events))
  {
    hide Next, Trim;
    if events != [] {
      var n := |events| - 1;
      assert forall e :: e in events[..n] ==> e in events;
      TargetsAreNames(hash, table, events[..n]);
      StepKeepsTargets(hash, Run(hash, Start(table), events[..n]), events[n]);
    }
  }
}
