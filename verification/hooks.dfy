/** The run and scenario lifecycle of the hooks file, as a state machine over
    resource references. `BeforeAll` launches the engine into a module-level
    variable, `Before` opens a context, a page in it and a registry bound to
    that page, `After` attaches a screenshot for a failed scenario and then
    closes the page and the context, and `AfterAll` closes the engine. Every
    call into the browser that happens is recorded as an event; an I/O call
    that throws is chosen by a parameter. */
module Hooks {
  import opened Js
  import Config
  import Registry
  import opened ScenarioWorld

  /** Cucumber's scenario result status. */
  datatype Status = Unknown | Passed | Skipped | Pending | Undefined | Ambiguous | Failed

  datatype Event =
    | Launched(browser: nat, engine: Config.Engine, headless: bool)
    | ContextOpened(context: nat)
    | PageOpened(page: nat, context: nat)
    | ScreenshotTaken(page: nat)
    | ScreenshotAttached(page: nat)
    | PageClosed(page: nat)
    | ContextClosed(context: nat)
    | BrowserClosed(browser: nat)

  /** A call made by a per-scenario hook rather than by the run hooks. */
  predicate ScenarioEvent(e: Event) {
    !e.Launched? && !e.BrowserClosed?
  }

  predicate ScenarioLog(events: seq<Event>) {
    forall i :: 0 <= i < |events| ==> ScenarioEvent(events[i])
  }

  /** The module-level state of the hooks: the `browser` variable, the next
      free reference, and the browser calls made so far. */
  datatype Run = Run(browser: Option<nat>, next: nat, log: seq<Event>)

  /** What a per-scenario hook leaves behind, and whether it threw. */
  datatype Hooked = Hooked(run: Run, world: MyWorld, threw: bool)

  const Start: Run := Run(None, 0, [])

  /** `BeforeAll`: launch the configured engine with the headless flag. */
  function BeforeAll(cfg: Config.RunConfig, r: Run): (r': Run)
    ensures r'.browser == Some(r.next) && r'.next == r.next + 1
    ensures r'.log == r.log + [Launched(r.next, cfg.engine, cfg.headless)]
  {
    Run(Some(r.next), r.next + 1, r.log + [Launched(r.next, cfg.engine, cfg.headless)])
  }

  /** `Before`: a new context from the engine, a page from that context,
      and a new registry bound to the page. With no engine, the call on the
      undefined `browser` throws and the World is left as it was. */
  function Before(r: Run, w: MyWorld): (h: Hooked)
    ensures h.threw <==> r.browser.None?
    ensures h.threw ==> h.run == r && h.world == w
    ensures !h.threw ==> && h.world.context == Some(r.next)
                         && h.world.page == Some(r.next + 1)
                         && h.world.pages.Some?
                         && h.world.pages.value.page == r.next + 1
                         && h.world.pages.value.slots == map[]
                         && Registry.Valid(h.world.pages.value, h.run.next)
                         && h.run.log == r.log + [ContextOpened(r.next), PageOpened(r.next + 1, r.next)]
                         && r.next + 1 < h.run.next
    ensures h.run.browser == r.browser && h.run.next >= r.next
    ensures h.world.browser == w.browser && h.world.scratch == w.scratch
    ensures |r.log| <= |h.run.log| && h.run.log[..|r.log|] == r.log
    ensures ScenarioLog(h.run.log[|r.log|..])
  {
    if r.browser.None? then Hooked(r, w, true)
    else
      var context := r.next;
      var page := r.next + 1;
      var m := Registry.New(page, r.next + 2);
      Hooked(
        Run(r.browser, m.next, r.log + [ContextOpened(context), PageOpened(page, context)]),
        w.(context := Some(context), page := Some(page), pages := Some(m.manager)),
        false)
  }

  /** The browser calls `After` makes, in order, when none of them throws. */
  function AfterPlan(w: MyWorld, status: Option<Status>): (plan: seq<Event>)
    ensures forall i :: 0 <= i < |plan| ==> ScenarioEvent(plan[i])
    ensures w.page.Some? ==> PageClosed(w.page.value) in plan
    ensures w.context.Some? ==> |plan| > 0 && plan[|plan| - 1] == ContextClosed(w.context.value)
  {
    var shot := if status == Some(Failed) && w.page.Some?
                then [ScreenshotTaken(w.page.value), ScreenshotAttached(w.page.value)] else [];
    var closePage := if w.page.Some? then [PageClosed(w.page.value)] else [];
    var closeContext := if w.context.Some? then [ContextClosed(w.context.value)] else [];
    shot + closePage + closeContext
  }

  /** `After`: the planned calls up to the one that throws, if one does
      (`failing` is its position in the plan). Nothing guards the teardown,
      so a throw leaves the remaining calls unmade. */
  function After(r: Run, w: MyWorld, status: Option<Status>, failing: Option<nat>): (h: Hooked)
    ensures h.threw <==> failing.Some? && failing.value < |AfterPlan(w, status)|
    ensures h.run.browser == r.browser && h.run.next == r.next && h.world == w
    ensures |r.log| <= |h.run.log| && h.run.log[..|r.log|] == r.log
    ensures h.threw ==> h.run.log[|r.log|..] == AfterPlan(w, status)[..failing.value]
    ensures !h.threw ==> h.run.log[|r.log|..] == AfterPlan(w, status)
    ensures ScenarioLog(h.run.log[|r.log|..])
  {
    var plan := AfterPlan(w, status);
    var done := if failing.Some? && failing.value < |plan| then plan[..failing.value] else plan;
    Hooked(r.(log := r.log + done), w, failing.Some? && failing.value < |plan|)
  }

  /** `AfterAll`: close the engine if one was launched. */
  function AfterAll(r: Run): (r': Run)
    ensures r.browser.Some? ==> r'.log == r.log + [BrowserClosed(r.browser.value)]
    ensures r.browser.None? ==> r' == r
  {
    if r.browser.Some? then r.(log := r.log + [BrowserClosed(r.browser.value)]) else r
  }

  /* ---------------------------------------------------------------- */
  /*  One scenario's teardown                                          */
  /* ---------------------------------------------------------------- */

  /** The screenshot calls are planned exactly for a scenario whose status
      is FAILED and whose World has a page. */
  lemma ShotsPlanned(w: MyWorld, status: Option<Status>, p: nat)
    ensures ScreenshotTaken(p) in AfterPlan(w, status) <==> status == Some(Failed) && w.page == Some(p)
    ensures ScreenshotAttached(p) in AfterPlan(w, status) <==> status == Some(Failed) && w.page == Some(p)
  {
    var closes := ClosePlan(w);
    assert ScreenshotTaken(p) !in closes && ScreenshotAttached(p) !in closes;
  }

  /** A screenshot is taken only for a scenario whose status is exactly
      FAILED and whose World has a page, whichever call throws; an ambiguous,
      undefined or pending scenario gets none. */
  lemma ScreenshotOnlyOnFailure(r: Run, w: MyWorld, status: Option<Status>, failing: Option<nat>, p: nat)
    ensures var events := After(r, w, status, failing).run.log[|r.log|..];
            ScreenshotTaken(p) in events ==> status == Some(Failed) && w.page == Some(p)
  {
    var plan := AfterPlan(w, status);
    ShotsPlanned(w, status, p);
    if failing.Some? && failing.value < |plan| {
      assert forall e :: e in plan[..failing.value] ==> e in plan;
    }
  }

  /** When nothing throws, a screenshot is attached exactly for a failed
      scenario with a page. */
  lemma ScreenshotAttachedIffFailed(r: Run, w: MyWorld, status: Option<Status>, p: nat)
    ensures var events := After(r, w, status, None).run.log[|r.log|..];
            ScreenshotAttached(p) in events <==> status == Some(Failed) && w.page == Some(p)
  {
    ShotsPlanned(w, status, p);
  }

  /** When nothing throws, the page is closed, then its context, and these
      are the last two calls of the hook. */
  lemma TeardownOrder(r: Run, w: MyWorld, status: Option<Status>)
    requires w.page.Some? && w.context.Some?
    ensures var events := After(r, w, status, None).run.log[|r.log|..];
            && |events| >= 2
            && events[|events| - 2] == PageClosed(w.page.value)
            && events[|events| - 1] == ContextClosed(w.context.value)
  {
  }

  /** A screenshot or attach that throws skips the teardown: neither the page
      nor the context of that scenario is closed by the hook. */
  lemma ThrowingScreenshotSkipsTeardown(r: Run, w: MyWorld, failing: nat)
    requires w.page.Some? && w.context.Some? && failing < 2
    ensures var events := After(r, w, Some(Failed), Some(failing)).run.log[|r.log|..];
            && PageClosed(w.page.value) !in events
            && ContextClosed(w.context.value) !in events
  {
    var events := After(r, w, Some(Failed), Some(failing)).run.log[|r.log|..];
    assert events == [ScreenshotTaken(w.page.value), ScreenshotAttached(w.page.value)][..failing];
  }

  /* ---------------------------------------------------------------- */
  /*  Teardown with guaranteed release                                 */
  /* ---------------------------------------------------------------- */

  /** The screenshot calls of `AfterPlan`. */
  function ShotPlan(w: MyWorld, status: Option<Status>): (shot: seq<Event>)
    ensures AfterPlan(w, status) == shot + ClosePlan(w)
  {
    if status == Some(Failed) && w.page.Some?
    then [ScreenshotTaken(w.page.value), ScreenshotAttached(w.page.value)] else []
  }

  /** The closing calls of `AfterPlan`. */
  function ClosePlan(w: MyWorld): seq<Event> {
    (if w.page.Some? then [PageClosed(w.page.value)] else [])
    + (if w.context.Some? then [ContextClosed(w.context.value)] else [])
  }

  /** `After` with the release guarded: a throw in the screenshot calls
      skips the rest of them, a throw in a close skips only that close, and
      every close is attempted. The throw is still the hook's failure. */
  function AfterReleasing(r: Run, w: MyWorld, status: Option<Status>, failing: Option<nat>): (h: Hooked)
    ensures h.threw <==> failing.Some? && failing.value < |AfterPlan(w, status)|
    ensures h.run.browser == r.browser && h.run.next == r.next && h.world == w
    ensures |r.log| <= |h.run.log| && h.run.log[..|r.log|] == r.log
    ensures failing.None? ==> h == After(r, w, status, failing)
  {
    var shot := ShotPlan(w, status);
    var closes := ClosePlan(w);
    var shotDone := if failing.Some? && failing.value < |shot| then shot[..failing.value] else shot;
    var k := if failing.Some? && |shot| <= failing.value then failing.value - |shot| else |closes|;
    var closesDone := if k < |closes| then closes[..k] + closes[k + 1..] else closes;
    Hooked(r.(log := r.log + shotDone + closesDone), w, failing.Some? && failing.value < |shot| + |closes|)
  }

  /** With the release guarded, a throwing screenshot or attach still
      closes the page and the context, and a throwing page close still
      closes the context. */
  lemma GuardedTeardownReleases(r: Run, w: MyWorld, failing: nat)
    requires w.page.Some? && w.context.Some? && failing < 3
    ensures var h := AfterReleasing(r, w, Some(Failed), Some(failing));
            && h.threw
            && ContextClosed(w.context.value) in h.run.log[|r.log|..]
            && (failing < 2 ==> PageClosed(w.page.value) in h.run.log[|r.log|..])
  {
    var h := AfterReleasing(r, w, Some(Failed), Some(failing));
    var events := h.run.log[|r.log|..];
    var p, c := w.page.value, w.context.value;
    assert ClosePlan(w) == [PageClosed(p), ContextClosed(c)];
    if failing < 2 {
      assert events == [ScreenshotTaken(p), ScreenshotAttached(p)][..failing] + [PageClosed(p), ContextClosed(c)];
    } else {
      assert events == [ScreenshotTaken(p), ScreenshotAttached(p), ContextClosed(c)];
    }
  }

  /* ---------------------------------------------------------------- */
  /*  A whole run                                                      */
  /* ---------------------------------------------------------------- */

  /** What the runner does with one scenario: its result status and the
      position of the `After` call that throws, if any. The steps between
      the hooks do not touch the handles. */
  datatype Scenario = Scenario(status: Option<Status>, failing: Option<nat>)

  datatype Outcome = Outcome(run: Run, worlds: seq<MyWorld>)

  /** One scenario: `Before` on a World the runner constructs afresh, then
      `After` on the World `Before` left. */
  function ScenarioStep(r: Run, sc: Scenario): (h: Hooked)
    ensures h.run.browser == r.browser && h.run.next >= r.next
  {
    var b := Before(r, NewWorld());
    var a := After(b.run, b.world, sc.status, sc.failing);
    Hooked(a.run, b.world, b.threw || a.threw)
  }

  /** Scenarios one after another. */
  function RunScenarios(r: Run, scenarios: seq<Scenario>): (o: Outcome)
    ensures |o.worlds| == |scenarios|
    ensures o.run.browser == r.browser && o.run.next >= r.next
    decreases |scenarios|
  {
    if |scenarios| == 0 then Outcome(r, [])
    else
      var h := ScenarioStep(r, scenarios[0]);
      var rest := RunScenarios(h.run, scenarios[1..]);
      Outcome(rest.run, [h.world] + rest.worlds)
  }

  /** `BeforeAll`, the scenarios, `AfterAll`. */
  function WholeRun(cfg: Config.RunConfig, scenarios: seq<Scenario>): (o: Outcome)
    ensures |o.worlds| == |scenarios|
    ensures |o.run.log| >= 2 && o.run.log[|o.run.log| - 1] == BrowserClosed(0)
  {
    var o := RunScenarios(BeforeAll(cfg, Start), scenarios);
    RunScenariosExtendsLog(BeforeAll(cfg, Start), scenarios);
    Outcome(AfterAll(o.run), o.worlds)
  }

  /** `later` is `earlier` followed by scenario-level calls only. */
  predicate Extends(earlier: seq<Event>, later: seq<Event>) {
    && |earlier| <= |later|
    && later == earlier + later[|earlier|..]
    && ScenarioLog(later[|earlier|..])
  }

  lemma ExtendsTrans(x: seq<Event>, y: seq<Event>, z: seq<Event>)
    requires Extends(x, y) && Extends(y, z)
    ensures Extends(x, z)
  {
    var d1 := y[|x|..];
    var d2 := z[|y|..];
    assert z == x + (d1 + d2);
    assert z[|x|..] == d1 + d2;
    ScenarioLogConcat(d1, d2);
  }

  lemma ScenarioLogConcat(a: seq<Event>, b: seq<Event>)
    requires ScenarioLog(a) && ScenarioLog(b)
    ensures ScenarioLog(a + b)
  {
  }

  /** One scenario's hooks only add scenario-level calls to the log. */
  lemma OneScenarioExtendsLog(r: Run, sc: Scenario)
    ensures Extends(r.log, ScenarioStep(r, sc).run.log)
  {
    var b := Before(r, NewWorld());
    var a := After(b.run, b.world, sc.status, sc.failing);
    assert Extends(r.log, b.run.log) by {
      assert b.run.log == r.log + b.run.log[|r.log|..];
    }
    assert Extends(b.run.log, a.run.log) by {
      assert a.run.log == b.run.log + a.run.log[|b.run.log|..];
    }
    ExtendsTrans(r.log, b.run.log, a.run.log);
  }

  /** Scenarios only add scenario-level calls to the log, after what was
      already there. */
  lemma {:induction false} RunScenariosExtendsLog(r: Run, scenarios: seq<Scenario>)
    ensures Extends(r.log, RunScenarios(r, scenarios).run.log)
    decreases |scenarios|
  {
    if |scenarios| > 0 {
      var h := ScenarioStep(r, scenarios[0]);
      OneScenarioExtendsLog(r, scenarios[0]);
      RunScenariosExtendsLog(h.run, scenarios[1..]);
      assert RunScenarios(r, scenarios).run == RunScenarios(h.run, scenarios[1..]).run;
      ExtendsTrans(r.log, h.run.log, RunScenarios(r, scenarios).run.log);
    } else {
      assert r.log + [] == r.log;
    }
  }

  /** The engine is launched once, first, and closed once, last. */
  lemma LaunchedOnceClosedOnce(cfg: Config.RunConfig, scenarios: seq<Scenario>)
    ensures var log := WholeRun(cfg, scenarios).run.log;
            && |log| >= 2
            && log[0] == Launched(0, cfg.engine, cfg.headless)
            && log[|log| - 1] == BrowserClosed(0)
            && forall i :: 0 < i < |log| - 1 ==> ScenarioEvent(log[i])
  {
    var start := BeforeAll(cfg, Start);
    RunScenariosExtendsLog(start, scenarios);
    var o := RunScenarios(start, scenarios);
    assert o.run.log[..1] == start.log;
    assert o.run.log[0] == start.log[0];
  }

  /** A World as `Before` leaves it in a launched run: context and page
      references allocated between `lo` and `hi`, the page opened right
      after its context, a registry bound to the page, the `browser` field
      never assigned, and no scratch state. */
  predicate FreshWorld(w: MyWorld, lo: nat, hi: nat) {
    && w.context.Some? && w.page.Some?
    && lo <= w.context.value && w.page.value == w.context.value + 1 && w.page.value < hi
    && w.pages.Some? && w.pages.value.page == w.page.value
    && w.browser.None?
    && w.scratch == EmptyScratch
  }

  /** In a launched run, a scenario's World is fresh, with its context the
      first reference the step allocates. */
  lemma StepWorldFresh(r: Run, sc: Scenario)
    requires r.browser.Some?
    ensures var h := ScenarioStep(r, sc);
            FreshWorld(h.world, r.next, h.run.next) && h.world.context == Some(r.next)
  {
  }

  /** Every scenario's World is fresh, with references allocated within
      the run. */
  lemma {:induction false} ScenarioWorldFresh(r: Run, scenarios: seq<Scenario>)
    requires r.browser.Some?
    ensures forall i :: 0 <= i < |scenarios| ==>
              FreshWorld(RunScenarios(r, scenarios).worlds[i], r.next, RunScenarios(r, scenarios).run.next)
    decreases |scenarios|
  {
    if |scenarios| > 0 {
      var h := ScenarioStep(r, scenarios[0]);
      var rest := RunScenarios(h.run, scenarios[1..]);
      ScenarioWorldFresh(h.run, scenarios[1..]);
      StepWorldFresh(r, scenarios[0]);
      var o := RunScenarios(r, scenarios);
      assert o.worlds == [h.world] + rest.worlds;
      assert o.run == rest.run;
      forall i | 0 <= i < |scenarios|
        ensures FreshWorld(o.worlds[i], r.next, o.run.next)
      {
        if i > 0 {
          assert o.worlds[i] == rest.worlds[i - 1];
        }
      }
    }
  }

  /** `w`'s context comes before its page, which comes before `w'`'s
      context, which comes before `w'`'s page. */
  predicate AllocatedBefore(w: MyWorld, w': MyWorld) {
    && w.context.Some? && w.page.Some? && w'.context.Some? && w'.page.Some?
    && w.context.value < w.page.value < w'.context.value < w'.page.value
  }

  /** Each scenario's references are allocated after those of every earlier
      scenario. */
  lemma {:induction false} WorldsInOrder(r: Run, scenarios: seq<Scenario>)
    requires r.browser.Some?
    ensures forall i, j :: 0 <= i < j < |scenarios| ==>
              AllocatedBefore(RunScenarios(r, scenarios).worlds[i], RunScenarios(r, scenarios).worlds[j])
    decreases |scenarios|
  {
    if |scenarios| > 0 {
      var h := ScenarioStep(r, scenarios[0]);
      var rest := RunScenarios(h.run, scenarios[1..]);
      WorldsInOrder(h.run, scenarios[1..]);
      ScenarioWorldFresh(h.run, scenarios[1..]);
      StepWorldFresh(r, scenarios[0]);
      var o := RunScenarios(r, scenarios);
      assert o.worlds == [h.world] + rest.worlds;
      forall i, j | 0 <= i < j < |scenarios|
        ensures AllocatedBefore(o.worlds[i], o.worlds[j])
      {
        assert o.worlds[j] == rest.worlds[j - 1];
        if i > 0 {
          assert o.worlds[i] == rest.worlds[i - 1];
        }
      }
    }
  }

  /** Two Worlds share neither their context nor their page. */
  predicate Disjoint(w: MyWorld, w': MyWorld) {
    w.context != w'.context && w.page != w'.page
  }

  /** No two scenarios share a context or a page: each `Before` opens new
      ones. */
  lemma ContextsNeverShared(r: Run, scenarios: seq<Scenario>, i: nat, j: nat)
    requires r.browser.Some?
    requires i < j < |scenarios|
    ensures Disjoint(RunScenarios(r, scenarios).worlds[i], RunScenarios(r, scenarios).worlds[j])
  {
    WorldsInOrder(r, scenarios);
    assert AllocatedBefore(RunScenarios(r, scenarios).worlds[i], RunScenarios(r, scenarios).worlds[j]);
  }

  /** The World's page and context exist and both were closed in `log`. */
  predicate Released(w: MyWorld, log: seq<Event>) {
    && w.page.Some? && w.context.Some?
    && PageClosed(w.page.value) in log
    && ContextClosed(w.context.value) in log
  }

  /** A scenario whose `After` throws nothing releases what its `Before`
      opened. */
  lemma ScenarioReleased(r: Run, sc: Scenario)
    requires r.browser.Some? && sc.failing.None?
    ensures Released(ScenarioStep(r, sc).world, ScenarioStep(r, sc).run.log)
  {
    var b := Before(r, NewWorld());
    var a := After(b.run, b.world, sc.status, None);
    var events := a.run.log[|b.run.log|..];
    TeardownOrder(b.run, b.world, sc.status);
    assert PageClosed(b.world.page.value) in events;
    assert ContextClosed(b.world.context.value) in events;
    assert a.run.log == b.run.log + events;
  }

  /** A release stays in the log while later scenarios run. */
  lemma ReleaseKept(r: Run, scenarios: seq<Scenario>, w: MyWorld)
    requires Released(w, r.log)
    ensures Released(w, RunScenarios(r, scenarios).run.log)
  {
    RunScenariosExtendsLog(r, scenarios);
    var log := RunScenarios(r, scenarios).run.log;
    assert log == r.log + log[|r.log|..];
  }

  /** When no `After` call throws, every scenario's page and context are
      closed. */
  lemma {:induction false} ReleasedWhenNothingThrows(r: Run, scenarios: seq<Scenario>)
    requires r.browser.Some?
    requires forall k :: 0 <= k < |scenarios| ==> scenarios[k].failing.None?
    ensures forall i :: 0 <= i < |scenarios| ==>
              Released(RunScenarios(r, scenarios).worlds[i], RunScenarios(r, scenarios).run.log)
    decreases |scenarios|
  {
    if |scenarios| > 0 {
      var h := ScenarioStep(r, scenarios[0]);
      var tail := scenarios[1..];
      assert forall k :: 0 <= k < |tail| ==> tail[k].failing.None? by {
        forall k | 0 <= k < |tail| ensures tail[k].failing.None? {
          assert tail[k] == scenarios[k + 1];
        }
      }
      var rest := RunScenarios(h.run, tail);
      ReleasedWhenNothingThrows(h.run, tail);
      ScenarioReleased(r, scenarios[0]);
      ReleaseKept(h.run, tail, h.world);
      var o := RunScenarios(r, scenarios);
      assert o.worlds == [h.world] + rest.worlds;
      assert o.run == rest.run;
      forall i | 0 <= i < |scenarios|
        ensures Released(o.worlds[i], o.run.log)
      {
        if i > 0 {
          assert o.worlds[i] == rest.worlds[i - 1];
        }
      }
    }
  }

  /** Release is not guaranteed: one failed scenario whose screenshot throws
      ends the run with its context never closed by the hooks. */
  lemma ReleaseNotGuaranteed(cfg: Config.RunConfig)
    ensures var o := WholeRun(cfg, [Scenario(Some(Failed), Some(0))]);
            && o.worlds[0].context == Some(1)
            && ContextClosed(1) !in o.run.log
            && PageClosed(2) !in o.run.log
  {
    var start := BeforeAll(cfg, Start);
    var b := Before(start, NewWorld());
    var a := After(b.run, b.world, Some(Failed), Some(0));
    assert a.run.log == [Launched(0, cfg.engine, cfg.headless), ContextOpened(1), PageOpened(2, 1)];
    var h := ScenarioStep(start, Scenario(Some(Failed), Some(0)));
    assert h.run == a.run;
    var o := WholeRun(cfg, [Scenario(Some(Failed), Some(0))]);
    assert RunScenarios(h.run, []).run == h.run;
    assert o.run.log == a.run.log + [BrowserClosed(0)];
  }
}
