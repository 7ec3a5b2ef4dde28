/**
 * The multi-step input runner (src/ui/multiStepInput.ts): a navigation state
 * machine over a history stack of steps, with one interactive surface (a
 * picker or an input box) current at a time.
 *
 * Steps are opaque identities. What a step's body does when it runs (which
 * surface it shows and how it ends) is supplied by a script, one entry per
 * run. The source signals Back, Resume and Cancel by throwing sentinel
 * objects; here a run ends with a tagged `StepOutcome` instead. What the host
 * sees (a surface shown, disabled or disposed) is recorded in an event log.
 */
module MultiStep {
  import opened Wrappers

  type StepId = nat
  type SurfaceId = nat
  type ErrorId = nat

  /** How one run of a step ends: the step it returns, no step, a navigation signal, or an error. */
  datatype StepOutcome = Next(step: StepId) | Done | Back | Resume | Cancel | Fail(error: ErrorId)

  /** One run of a step: the surface its body shows (if any) and how the run ends. */
  datatype StepRun = StepRun(shows: Option<SurfaceId>, outcome: StepOutcome)

  /** How `stepThrough` ends, or `Waiting` when the script stops before `step` has run. */
  datatype RunResult = Completed | Failed(error: ErrorId) | Waiting(step: StepId)

  /** What the host sees. */
  datatype HostEvent =
    | Disabled(surface: SurfaceId)           // disabled and marked busy
    | Disposed(surface: SurfaceId)
    | Shown(surface: SurfaceId, backButton: bool)

  function DisposeEvents(current: Option<SurfaceId>): seq<HostEvent> {
    if current.Some? then [Disposed(current.value)] else []
  }

  /** Where one run of a step leaves the runner. */
  datatype Transition =
    | Continue(history: seq<StepId>, current: Option<SurfaceId>, next: StepId, events: seq<HostEvent>)
    | Stop(result: RunResult, history: seq<StepId>, current: Option<SurfaceId>, events: seq<HostEvent>)

  /** Before the step's body runs, the current surface is disabled and busy. */
  function DisableEvents(current: Option<SurfaceId>): seq<HostEvent> {
    if current.Some? then [Disabled(current.value)] else []
  }

  /** The surface that is current once the step's body has (or has not) shown one. */
  function ShownSurface(current: Option<SurfaceId>, shows: Option<SurfaceId>): Option<SurfaceId> {
    if shows.Some? then shows else current
  }

  /** Showing a new surface disposes the current one first. */
  function ShowEvents(current: Option<SurfaceId>, shows: Option<SurfaceId>, backButton: bool): seq<HostEvent> {
    if shows.Some? then DisposeEvents(current) + [Shown(shows.value, backButton)] else []
  }

  /**
   * How the loop goes on after the run of `step` (pushed onto `history`)
   * ended with `outcome`; `events` is what the host saw during the run.
   */
  function Finish(history: seq<StepId>, step: StepId, current: Option<SurfaceId>, events: seq<HostEvent>,
                  outcome: StepOutcome): Transition
  {
    match outcome
    case Next(s) => Continue(history + [step], current, s, events)
    case Done => Stop(Completed, history + [step], current, events + DisposeEvents(current))
    case Cancel => Stop(Completed, history + [step], current, events + DisposeEvents(current))
    case Fail(e) => Stop(Failed(e), history + [step], current, events + DisposeEvents(current))
    case Resume => Continue(history, current, step, events)
    case Back =>
      if history == [] then Stop(Completed, [], current, events + DisposeEvents(current))
      else Continue(history[..|history| - 1], current, history[|history| - 1], events)
  }

  /**
   * The loop stops exactly on Done, Cancel, an error, or Back on the first
   * step; stopping disposes the current surface, and only an error makes the
   * run fail, with that error. Going on adds no event and keeps the surface.
   */
  lemma FinishStopsExactly(history: seq<StepId>, step: StepId, current: Option<SurfaceId>, events: seq<HostEvent>,
                           outcome: StepOutcome)
    ensures var r := Finish(history, step, current, events, outcome);
            && (r.Stop? <==> outcome.Done? || outcome.Cancel? || outcome.Fail? || (outcome.Back? && history == []))
            && (r.Stop? ==> r.events == events + DisposeEvents(current) && !r.result.Waiting?)
            && (r.Stop? ==> (r.result.Failed? <==> outcome.Fail?))
            && (r.Stop? && outcome.Fail? ==> r.result.error == outcome.error)
            && r.current == current
            && (r.Continue? ==> r.events == events)
  {
  }

  /**
   * One iteration of the loop in `stepThrough`: push the step, disable the
   * current surface, run the step's body (which may replace the surface by a
   * new one, disposing the old one first, with a Back button when the history
   * holds more than one step), then act on how the run ended.
   */
  function StepOnce(history: seq<StepId>, current: Option<SurfaceId>, step: StepId, run: StepRun): Transition {
    Finish(history, step, ShownSurface(current, run.shows),
           DisableEvents(current) + ShowEvents(current, run.shows, |history| + 1 > 1), run.outcome)
  }

  /** The whole of a `stepThrough` as a value; `started` lists the steps whose bodies ran, in order. */
  datatype Trace = Trace(result: RunResult, history: seq<StepId>, current: Option<SurfaceId>,
                         started: seq<StepId>, events: seq<HostEvent>)

  /** The reference semantics of `stepThrough`: run `step` and its successors as the script says. */
  function RunFrom(history: seq<StepId>, current: Option<SurfaceId>, step: StepId, script: seq<StepRun>): Trace
    decreases |script|
  {
    if script == [] then Trace(Waiting(step), history, current, [], [])
    else
      match StepOnce(history, current, step, script[0])
      case Stop(r, h, c, e) => Trace(r, h, c, [step], e)
      case Continue(h, c, n, e) =>
        var t := RunFrom(h, c, n, script[1..]);
        Trace(t.result, t.history, t.current, [step] + t.started, e + t.events)
  }

  /**
   * A run starts with `step`, runs each step of the script at most once, and
   * is left waiting only when the script ran out.
   */
  lemma {:induction false} RunFromStarted(history: seq<StepId>, current: Option<SurfaceId>, step: StepId, script: seq<StepRun>)
    ensures var t := RunFrom(history, current, step, script);
            && |t.started| <= |script|
            && (script != [] ==> t.started != [] && t.started[0] == step)
            && (t.result.Waiting? ==> |t.started| == |script|)
    decreases |script|
  {
    if script != [] {
      var tr := StepOnce(history, current, step, script[0]);
      if tr.Continue? {
        RunFromStarted(tr.history, tr.current, tr.next, script[1..]);
      } else {
        FinishStopsExactly(history, step, ShownSurface(current, script[0].shows),
                           DisableEvents(current) + ShowEvents(current, script[0].shows, |history| + 1 > 1),
                           script[0].outcome);
      }
    }
  }

  /** `t` is what remains of the whole run `total` once `started` have run and `done` has happened. */
  predicate Rest(total: Trace, done: seq<HostEvent>, started: seq<StepId>, t: Trace) {
    && total.result == t.result && total.history == t.history && total.current == t.current
    && total.started == started + t.started && total.events == done + t.events
  }

  /** `RunFrom` on a non-empty script, one step unfolded. */
  lemma RunFromUnfold(total: Trace, done: seq<HostEvent>, started: seq<StepId>,
                      history: seq<StepId>, current: Option<SurfaceId>, step: StepId, script: seq<StepRun>)
    requires script != []
    requires Rest(total, done, started, RunFrom(history, current, step, script))
    ensures var tr := StepOnce(history, current, step, script[0]);
            && (tr.Stop? ==> total == Trace(tr.result, tr.history, tr.current, started + [step], done + tr.events))
            && (tr.Continue? ==>
                  Rest(total, done + tr.events, started + [step], RunFrom(tr.history, tr.current, tr.next, script[1..])))
  {
    var tr := StepOnce(history, current, step, script[0]);
    if tr.Continue? {
      var r := RunFrom(tr.history, tr.current, tr.next, script[1..]);
      assert done + (tr.events + r.events) == done + tr.events + r.events;
      assert started + ([step] + r.started) == started + [step] + r.started;
    }
  }

  /** The events of one run: the surface disabled and shown, and a disposal when the loop stops. */
  lemma StepOnceShape(history: seq<StepId>, current: Option<SurfaceId>, step: StepId, run: StepRun)
    ensures var t := StepOnce(history, current, step, run);
            var evs := DisableEvents(current) + ShowEvents(current, run.shows, |history| + 1 > 1);
            && t.current == ShownSurface(current, run.shows)
            && (t.Continue? ==> t.events == evs)
            && (t.Stop? ==> t.events == evs + DisposeEvents(t.current))
            && (!run.outcome.Back? && !run.outcome.Resume? ==> t.history == history + [step])
  {
  }

  // ---------------------------------------------------------------------------
  // Navigation properties
  // ---------------------------------------------------------------------------

  /**
   * Back pops the running step and its predecessor and runs the predecessor
   * next; pushing it again restores the history as it was before the running
   * step was pushed.
   */
  lemma BackRunsPredecessor(history: seq<StepId>, current: Option<SurfaceId>, step: StepId, shows: Option<SurfaceId>)
    requires history != []
    ensures var t := StepOnce(history, current, step, StepRun(shows, Back));
            && t.Continue?
            && t.next == history[|history| - 1]
            && t.history + [t.next] == history
  {
  }

  /** When a step is the first one, Back ends the loop with an empty history. */
  lemma BackOnFirstStepEnds(current: Option<SurfaceId>, step: StepId, shows: Option<SurfaceId>)
    ensures var t := StepOnce([], current, step, StepRun(shows, Back));
            t.Stop? && t.result == Completed && t.history == []
  {
  }

  /** Resume pops the running step and runs it again; once re-pushed the history length is unchanged. */
  lemma ResumeRunsSameStep(history: seq<StepId>, current: Option<SurfaceId>, step: StepId, shows: Option<SurfaceId>)
    ensures var t := StepOnce(history, current, step, StepRun(shows, Resume));
            t.Continue? && t.next == step && t.history == history
  {
  }

  /**
   * Cancel ends the run: whatever the script holds afterwards, no further
   * step runs and the current surface ends disposed.
   */
  lemma CancelTerminates(history: seq<StepId>, current: Option<SurfaceId>, step: StepId,
                         shows: Option<SurfaceId>, rest: seq<StepRun>)
    ensures var t := RunFrom(history, current, step, [StepRun(shows, Cancel)] + rest);
            && t.result == Completed
            && t.history == history + [step]
            && t.started == [step]
            && t.current == ShownSurface(current, shows)
            && (t.current.Some? ==> t.events[|t.events| - 1] == Disposed(t.current.value))
  {
    var run := StepRun(shows, Cancel);
    assert ([run] + rest)[0] == run;
    StepOnceShape(history, current, step, run);
  }

  /** Any other error also ends the run with the current surface disposed, and is passed on unchanged. */
  lemma FailurePropagates(history: seq<StepId>, current: Option<SurfaceId>, step: StepId,
                          shows: Option<SurfaceId>, e: ErrorId, rest: seq<StepRun>)
    ensures var t := RunFrom(history, current, step, [StepRun(shows, Fail(e))] + rest);
            && t.result == Failed(e)
            && t.history == history + [step]
            && t.started == [step]
            && (t.current.Some? ==> t.events[|t.events| - 1] == Disposed(t.current.value))
  {
    assert ([StepRun(shows, Fail(e))] + rest)[0] == StepRun(shows, Fail(e));
  }

  /** The Back button is offered exactly when the history holds a step before the running one. */
  lemma BackButtonOnlyAfterFirstStep(history: seq<StepId>, current: Option<SurfaceId>, step: StepId, run: StepRun)
    ensures forall e :: e in StepOnce(history, current, step, run).events && e.Shown? ==> e.backButton == (history != [])
  {
    var t := StepOnce(history, current, step, run);
    var b := history != [];
    StepOnceShape(history, current, step, run);
    assert (|history| + 1 > 1) == b;
    var evs := DisableEvents(current) + ShowEvents(current, run.shows, b);
    GroupsShowWith(current, run.shows, t.current, b);
    ShowsWithConcat(DisableEvents(current), ShowEvents(current, run.shows, b), b);
    ShowsWithConcat(evs, DisposeEvents(t.current), b);
    assert ShowsWith(t.events, b);
  }

  /** Every Shown event in `evs` carries the Back button flag `b`. */
  predicate ShowsWith(evs: seq<HostEvent>, b: bool) {
    forall e :: e in evs && e.Shown? ==> e.backButton == b
  }

  lemma ShowsWithConcat(a: seq<HostEvent>, c: seq<HostEvent>, b: bool)
    requires ShowsWith(a, b) && ShowsWith(c, b)
    ensures ShowsWith(a + c, b)
  {
  }

  /** Disabling and disposing show nothing, and showing uses the flag it is given. */
  lemma GroupsShowWith(current: Option<SurfaceId>, shows: Option<SurfaceId>, other: Option<SurfaceId>, b: bool)
    ensures ShowsWith(DisableEvents(current), b) && ShowsWith(DisposeEvents(other), b)
            && ShowsWith(ShowEvents(current, shows, b), b)
  {
  }

  /** Neither Back nor Resume occurs in the script. */
  predicate OnlyForward(script: seq<StepRun>) {
    forall i :: 0 <= i < |script| ==> !script[i].outcome.Back? && !script[i].outcome.Resume?
  }

  /**
   * Every step is pushed before it runs: without Back and Resume the history
   * is exactly the path of steps that ran.
   */
  lemma {:induction false} HistoryIsPathTaken(history: seq<StepId>, current: Option<SurfaceId>, step: StepId, script: seq<StepRun>)
    requires OnlyForward(script)
    ensures var t := RunFrom(history, current, step, script);
            t.history == history + t.started
    decreases |script|
  {
    if script != [] {
      var tr := StepOnce(history, current, step, script[0]);
      assert !script[0].outcome.Back? && !script[0].outcome.Resume?;
      StepOnceShape(history, current, step, script[0]);
      if tr.Continue? {
        OnlyForwardTail(script);
        HistoryIsPathTaken(tr.history, tr.current, tr.next, script[1..]);
        var r := RunFrom(tr.history, tr.current, tr.next, script[1..]);
        assert history + [step] + r.started == history + ([step] + r.started);
      }
    }
  }

  lemma OnlyForwardTail(script: seq<StepRun>)
    requires script != [] && OnlyForward(script)
    ensures OnlyForward(script[1..])
  {
    forall i | 0 <= i < |script[1..]| ensures !script[1..][i].outcome.Back? && !script[1..][i].outcome.Resume? {
      assert script[1..][i] == script[i + 1];
    }
  }

  // ---------------------------------------------------------------------------
  // At most one surface is current
  // ---------------------------------------------------------------------------

  function AsSet(current: Option<SurfaceId>): set<SurfaceId> {
    if current.Some? then {current.value} else {}
  }

  /** Showing a surface makes it live, disposing it ends that. */
  function ApplyEvent(live: set<SurfaceId>, e: HostEvent): set<SurfaceId> {
    if e.Shown? then live + {e.surface}
    else if e.Disposed? then live - {e.surface}
    else live
  }

  /** The surfaces shown and not yet disposed after the events, starting from `live`. */
  function LiveAfter(live: set<SurfaceId>, events: seq<HostEvent>): set<SurfaceId>
    decreases |events|
  {
    if events == [] then live
    else LiveAfter(ApplyEvent(live, events[0]), events[1..])
  }

  /** At no point are two surfaces shown and not yet disposed. */
  predicate NeverTwoLive(live: set<SurfaceId>, events: seq<HostEvent>)
    decreases |events|
  {
    |live| <= 1 && (events == [] || NeverTwoLive(LiveAfter(live, events[..1]), events[1..]))
  }

  lemma {:induction false} LiveAfterAppend(live: set<SurfaceId>, a: seq<HostEvent>, b: seq<HostEvent>)
    ensures LiveAfter(live, a + b) == LiveAfter(LiveAfter(live, a), b)
    ensures NeverTwoLive(live, a + b) <==> NeverTwoLive(live, a) && NeverTwoLive(LiveAfter(live, a), b)
    decreases |a|
  {
    if a != [] {
      assert (a + b)[..1] == a[..1];
      assert (a + b)[1..] == a[1..] + b;
      LiveAfterAppend(LiveAfter(live, a[..1]), a[1..], b);
      assert LiveAfter(live, a) == LiveAfter(LiveAfter(live, a[..1]), a[1..]);
    } else {
      assert a + b == b;
    }
  }

  lemma LiveAfterOne(live: set<SurfaceId>, e: HostEvent)
    ensures NeverTwoLive(live, [e]) <==> |live| <= 1 && |LiveAfter(live, [e])| <= 1
    ensures LiveAfter(live, [e]) == ApplyEvent(live, e)
  {
    assert [e][..1] == [e];
    assert [e][1..] == [];
  }

  /** Disposing the current surface and showing a new one keeps at most one shown. */
  lemma ReplaceKeepsOneLive(current: Option<SurfaceId>, id: SurfaceId, back: bool)
    ensures NeverTwoLive(AsSet(current), DisposeEvents(current) + [Shown(id, back)])
    ensures LiveAfter(AsSet(current), DisposeEvents(current) + [Shown(id, back)]) == {id}
  {
    LiveAfterAppend(AsSet(current), DisposeEvents(current), [Shown(id, back)]);
    if current.Some? {
      LiveAfterOne(AsSet(current), Disposed(current.value));
      assert LiveAfter(AsSet(current), DisposeEvents(current)) == {};
    }
    LiveAfterOne(LiveAfter(AsSet(current), DisposeEvents(current)), Shown(id, back));
  }

  lemma DisposeLeavesNoneLive(current: Option<SurfaceId>)
    ensures NeverTwoLive(AsSet(current), DisposeEvents(current))
    ensures LiveAfter(AsSet(current), DisposeEvents(current)) == {}
  {
    if current.Some? {
      LiveAfterOne(AsSet(current), Disposed(current.value));
    }
  }

  lemma DisableKeepsLive(live: set<SurfaceId>, current: Option<SurfaceId>)
    requires |live| <= 1
    ensures NeverTwoLive(live, DisableEvents(current)) && LiveAfter(live, DisableEvents(current)) == live
  {
    if current.Some? {
      LiveAfterOne(live, Disabled(current.value));
    }
  }

  /** One run keeps at most one surface live, and a run that stops leaves none. */
  lemma StepOnceKeepsOneLive(history: seq<StepId>, current: Option<SurfaceId>, step: StepId, run: StepRun)
    ensures var t := StepOnce(history, current, step, run);
            && NeverTwoLive(AsSet(current), t.events)
            && LiveAfter(AsSet(current), t.events) == (if t.Continue? then AsSet(t.current) else {})
  {
    var live := AsSet(current);
    var before := DisableEvents(current);
    var cur := ShownSurface(current, run.shows);
    var shown := ShowEvents(current, run.shows, |history| + 1 > 1);
    DisableKeepsLive(live, current);
    if run.shows.Some? {
      ReplaceKeepsOneLive(current, run.shows.value, |history| + 1 > 1);
    }
    LiveAfterAppend(live, before, shown);
    assert NeverTwoLive(live, before + shown) && LiveAfter(live, before + shown) == AsSet(cur) by {
      if run.shows.None? {
        assert shown == [] && before + shown == before;
      }
    }
    var t := StepOnce(history, current, step, run);
    StepOnceShape(history, current, step, run);
    if t.Stop? {
      DisposeLeavesNoneLive(cur);
      LiveAfterAppend(live, before + shown, DisposeEvents(cur));
    }
  }

  /**
   * At most one surface is current at any moment of a run, and once the run
   * has ended (normally, by cancellation or by an error) none is left undisposed.
   */
  lemma {:induction false} AtMostOneSurface(history: seq<StepId>, current: Option<SurfaceId>, step: StepId, script: seq<StepRun>)
    ensures var t := RunFrom(history, current, step, script);
            && NeverTwoLive(AsSet(current), t.events)
            && LiveAfter(AsSet(current), t.events) == (if t.result.Waiting? then AsSet(t.current) else {})
    decreases |script|
  {
    if script == [] {
      assert LiveAfter(AsSet(current), []) == AsSet(current);
    } else {
      var tr := StepOnce(history, current, step, script[0]);
      StepOnceKeepsOneLive(history, current, step, script[0]);
      if tr.Continue? {
        AtMostOneSurface(tr.history, tr.current, tr.next, script[1..]);
        var rest := RunFrom(tr.history, tr.current, tr.next, script[1..]);
        LiveAfterAppend(AsSet(current), tr.events, rest.events);
      }
    }
  }

  /**
   * The scenario of the three-step project wizard (options, template, name):
   * the options step completes, Back on the template step runs the options
   * step again, it completes, the template step completes, and the user
   * cancels on the name step. Five runs happen, the run completes without a
   * value, and the last surface is disposed.
   */
  lemma WizardScenario(options: StepId, template: StepId, name: StepId,
                        p0: SurfaceId, p1: SurfaceId, p2: SurfaceId, p3: SurfaceId, p4: SurfaceId)
    ensures var script := [
              StepRun(Some(p0), Next(template)),
              StepRun(Some(p1), Back),
              StepRun(Some(p2), Next(template)),
              StepRun(Some(p3), Next(name)),
              StepRun(Some(p4), Cancel)];
            var t := RunFrom([], None, options, script);
            && t.result == Completed
            && t.history == [options, template, name]
            && t.started == [options, template, options, template, name]
            && t.events[|t.events| - 1] == Disposed(p4)
  {
    var r0, r1, r2, r3, r4 :=
      StepRun(Some(p0), Next(template)), StepRun(Some(p1), Back), StepRun(Some(p2), Next(template)),
      StepRun(Some(p3), Next(name)), StepRun(Some(p4), Cancel);
    var s2 := [r2, r3, r4];
    var s1 := [r1] + s2;
    assert [r0] + s1 == [r0, r1, r2, r3, r4];
    NextContinues([], None, options, p0, template);
    BackContinues([options], Some(p0), template, p1);
    WizardAfterBack(options, template, name, Some(p1), p2, p3, p4);
    ContinuedRun([options], Some(p0), template, r1, s2, [], Some(p1), options);
    ContinuedRun([], None, options, r0, s1, [options], Some(p0), template);
    FiveStarts(options, template, name);
  }

  /** The wizard scenario from the second run of the options step on. */
  lemma WizardAfterBack(options: StepId, template: StepId, name: StepId,
                        current: Option<SurfaceId>, p2: SurfaceId, p3: SurfaceId, p4: SurfaceId)
    ensures var script := [StepRun(Some(p2), Next(template)), StepRun(Some(p3), Next(name)), StepRun(Some(p4), Cancel)];
            var t := RunFrom([], current, options, script);
            && t.result == Completed
            && t.history == [options, template, name]
            && t.started == [options, template, name]
            && t.events[|t.events| - 1] == Disposed(p4)
  {
    var r2, r3, r4 := StepRun(Some(p2), Next(template)), StepRun(Some(p3), Next(name)), StepRun(Some(p4), Cancel);
    var s4 := [r4] + [];
    var s3 := [r3] + s4;
    assert [r2] + s3 == [r2, r3, r4];
    NextContinues([], current, options, p2, template);
    NextContinues([options], Some(p2), template, p3, name);
    CancelTerminates([options, template], Some(p3), name, Some(p4), []);
    ContinuedRun([options], Some(p2), template, r3, s4, [options, template], Some(p3), name);
    ContinuedRun([], current, options, r2, s3, [options], Some(p2), template);
    ThreeStarts(options, template, name);
  }

  lemma FiveStarts(a: StepId, b: StepId, c: StepId)
    ensures [a] + ([b] + [a, b, c]) == [a, b, a, b, c]
  {
  }

  lemma ThreeStarts(a: StepId, b: StepId, c: StepId)
    ensures [a] + ([b] + [c]) == [a, b, c]
  {
  }

  /** A step whose body shows a surface and goes on to `next` pushes itself and leaves that surface current. */
  lemma NextContinues(history: seq<StepId>, current: Option<SurfaceId>, step: StepId, p: SurfaceId, next: StepId)
    ensures var tr := StepOnce(history, current, step, StepRun(Some(p), Next(next)));
            tr.Continue? && tr.history == history + [step] && tr.current == Some(p) && tr.next == next
  {
  }

  /** A step whose body shows a surface and goes back runs the previous step next. */
  lemma BackContinues(history: seq<StepId>, current: Option<SurfaceId>, step: StepId, p: SurfaceId)
    requires history != []
    ensures var tr := StepOnce(history, current, step, StepRun(Some(p), Back));
            && tr.Continue? && tr.history == history[..|history| - 1] && tr.current == Some(p)
            && tr.next == history[|history| - 1]
  {
  }

  /** A run that goes on to `next`: the rest of the run decides the outcome, and supplies the last event. */
  lemma ContinuedRun(history: seq<StepId>, current: Option<SurfaceId>, step: StepId, run: StepRun, rest: seq<StepRun>,
                     h: seq<StepId>, c: Option<SurfaceId>, next: StepId)
    requires var tr := StepOnce(history, current, step, run);
             tr.Continue? && tr.history == h && tr.current == c && tr.next == next
    ensures var r := RunFrom(h, c, next, rest);
            var t := RunFrom(history, current, step, [run] + rest);
            && t.result == r.result && t.history == r.history && t.current == r.current
            && t.started == [step] + r.started
            && (r.events != [] ==> t.events[|t.events| - 1] == r.events[|r.events| - 1])
  {
    var s := [run] + rest;
    assert s[0] == run && s[1..] == rest;
    var tr := StepOnce(history, current, step, run);
    var r := RunFrom(h, c, next, rest);
    var t := RunFrom(history, current, step, s);
    assert t == Trace(r.result, r.history, r.current, [step] + r.started, tr.events + r.events);
    if r.events != [] {
      LastOfConcat(tr.events, r.events);
    }
  }

  lemma LastOfConcat<T>(a: seq<T>, b: seq<T>)
    requires b != []
    ensures (a + b)[|a + b| - 1] == b[|b| - 1]
  {
  }

  // ---------------------------------------------------------------------------
  // The runner object
  // ---------------------------------------------------------------------------

  class MultiStepInput {
    /** `steps`: the history stack. */
    var steps: seq<StepId>
    /** `current`: the surface shown last (disposed surfaces stay here until replaced). */
    var current: Option<SurfaceId>
    /** What the host saw, in order. */
    var events: seq<HostEvent>
    /** The steps whose bodies ran, in order. */
    var started: seq<StepId>

    constructor ()
      ensures steps == [] && current == None && events == [] && started == []
    {
      steps := [];
      current := None;
      events := [];
      started := [];
    }

    /**
     * The common tail of `showQuickPick` and `showInputBox`: the new surface
     * gets the Back button when the history holds more than one step; the
     * current surface is disposed before the new one is stored and shown.
     */
    method Present(id: SurfaceId)
      modifies this`current, this`events
      ensures current == Some(id)
      ensures events == old(events) + DisposeEvents(old(current)) + [Shown(id, |steps| > 1)]
    {
      if current.Some? {
        events := events + [Disposed(current.value)];
      }
      current := Some(id);
      events := events + [Shown(id, |steps| > 1)];
    }

    /** `dispose()`: disposes the current surface, if any. */
    method Dispose()
      modifies this`events
      ensures events == old(events) + DisposeEvents(current)
    {
      if current.Some? {
        events := events + [Disposed(current.value)];
      }
    }

    /**
     * `stepThrough(start)`, with the runs of the steps supplied by `script`:
     * the result, the final history, the current surface and everything the
     * host saw are those of the reference semantics `RunFrom`.
     */
    method StepThrough(start: StepId, script: seq<StepRun>) returns (result: RunResult)
      modifies this
      ensures var t := RunFrom(old(steps), old(current), start, script);
              && result == t.result && steps == t.history && current == t.current
              && started == old(started) + t.started && events == old(events) + t.events
    {
      ghost var t0 := RunFrom(steps, current, start, script);
      ghost var whole := Trace(t0.result, t0.history, t0.current, started + t0.started, events + t0.events);
      var step := start;
      var stopped: Option<RunResult> := None;
      var rest := script;
      while rest != [] && stopped.None?
        invariant stopped.None? ==> Rest(whole, events, started, RunFrom(steps, current, step, rest))
        invariant stopped.Some? ==> whole == Trace(stopped.value, steps, current, started, events)
        decreases |rest|
      {
        RunFromUnfold(whole, events, started, steps, current, step, rest);
        step, stopped := RunStep(step, rest[0]);
        rest := rest[1..];
      }
      if stopped.Some? {
        result := stopped.value;
      } else {
        result := Waiting(step);
        assert events + [] == events && started + [] == started;
      }
    }

    /**
     * The start of a pass: push the step, disable and mark busy the current
     * surface, then let the step's body show its surface, if it has one.
     */
    method BeginStep(step: StepId, shows: Option<SurfaceId>)
      modifies this
      ensures steps == old(steps) + [step] && current == ShownSurface(old(current), shows)
      ensures started == old(started) + [step]
      ensures events == old(events) + (DisableEvents(old(current)) + ShowEvents(old(current), shows, |old(steps)| + 1 > 1))
    {
      steps := steps + [step];
      started := started + [step];
      events := events + DisableEvents(current);
      ghost var e1 := events;
      if shows.Some? {
        Present(shows.value);
      }
      assert events == e1 + ShowEvents(old(current), shows, |old(steps)| + 1 > 1);
    }

    /**
     * One pass of the loop in `stepThrough`: the step's run as `StepOnce`
     * describes it; `stopped` holds the result when the loop ends here.
     */
    method RunStep(step: StepId, run: StepRun) returns (next: StepId, stopped: Option<RunResult>)
      modifies this
      ensures var t := StepOnce(old(steps), old(current), step, run);
              && steps == t.history && current == t.current
              && started == old(started) + [step] && events == old(events) + t.events
              && (t.Continue? ==> stopped == None && next == t.next)
              && (t.Stop? ==> stopped == Some(t.result))
    {
      ghost var h0, c0, e0 := steps, current, events;
      next := step;
      stopped := None;
      BeginStep(step, run.shows);
      ghost var cur := ShownSurface(c0, run.shows);
      ghost var evs := DisableEvents(c0) + ShowEvents(c0, run.shows, |h0| + 1 > 1);
      assert steps[..|h0|] == h0;
      assert (e0 + evs) + DisposeEvents(cur) == e0 + (evs + DisposeEvents(cur));
      match run.outcome {
        case Next(s) =>
          next := s;
        case Back =>
          steps := steps[..|steps| - 1];
          assert steps == h0;
          if steps == [] {
            Dispose();
            stopped := Some(Completed);
          } else {
            next := steps[|steps| - 1];
            steps := steps[..|steps| - 1];
          }
        case Resume =>
          next := steps[|steps| - 1];
          steps := steps[..|steps| - 1];
        case Cancel =>
          Dispose();
          stopped := Some(Completed);
        case Done =>
          Dispose();
          stopped := Some(Completed);
        case Fail(e) =>
          Dispose();
          stopped := Some(Failed(e));
      }
    }

    /**
     * `showQuickPick`: presents a new picker and returns how it settles,
     * given the host's events on it.
     */
    method ShowQuickPick(id: SurfaceId, canSelectMany: bool, buttons: seq<ButtonId>, hostEvents: seq<PickEvent>)
      returns (r: Settlement)
      modifies this`current, this`events
      ensures r == PickSettlement(canSelectMany, OfferedButtons(|steps|, buttons), hostEvents)
      ensures current == Some(id)
      ensures events == old(events) + DisposeEvents(old(current)) + [Shown(id, |steps| > 1)]
    {
      var offered := OfferedButtons(|steps|, buttons);
      Present(id);
      r := PickSettlement(canSelectMany, offered, hostEvents);
    }

    /**
     * `showInputBox`: presents a new input box. Its `validate("")` starts at
     * once; the host's events then go to the returned box.
     */
    method ShowInputBox(id: SurfaceId, initial: string, buttons: seq<ButtonId>) returns (box: InputBox)
      modifies this`current, this`events
      ensures fresh(box)
      ensures box.value == initial && box.buttons == OfferedButtons(|steps|, buttons)
      ensures box.calls == [Validation(ShowTriggered, "")] && box.validationMessage == None && box.settled == None
      ensures current == Some(id)
      ensures events == old(events) + DisposeEvents(old(current)) + [Shown(id, |steps| > 1)]
    {
      box := new InputBox(initial, OfferedButtons(|steps|, buttons));
      Present(id);
    }
  }

  /** `MultiStepInput.run(start)`: a fresh runner stepping through from `start`. */
  method Run(start: StepId, script: seq<StepRun>) returns (result: RunResult, ran: seq<StepId>, hostEvents: seq<HostEvent>)
    ensures var t := RunFrom([], None, start, script);
            result == t.result && ran == t.started && hostEvents == t.events
    ensures !result.Waiting? ==> LiveAfter({}, hostEvents) == {}
    ensures NeverTwoLive({}, hostEvents)
  {
    var input := new MultiStepInput();
    result := input.StepThrough(start, script);
    ran, hostEvents := input.started, input.events;
    AtMostOneSurface([], None, start, script);
  }

  // ---------------------------------------------------------------------------
  // Surfaces: buttons, hide, accept
  // ---------------------------------------------------------------------------

  /** The buttons on a surface: the host's Back button, or one of the caller's. */
  datatype ButtonId = BackButton | CustomButton(n: nat)

  /** The Back button when an earlier step is on the history, followed by the caller's buttons. */
  function OfferedButtons(historyLength: nat, buttons: seq<ButtonId>): (r: seq<ButtonId>)
    ensures (BackButton in r) <==> historyLength > 1 || BackButton in buttons
    ensures forall b :: b in r <==> b in buttons || (b == BackButton && historyLength > 1)
    ensures |r| == |buttons| + (if historyLength > 1 then 1 else 0)
    ensures r[|r| - |buttons|..] == buttons && (historyLength > 1 ==> r[0] == BackButton)
  {
    (if historyLength > 1 then [BackButton] else []) + buttons
  }

  type ItemId = nat

  /** The host's events on a picker. `Hidden` carries what `shouldResume()` yields. */
  datatype PickEvent =
    | SelectionChanged(items: seq<ItemId>)
    | Accepted(selected: seq<ItemId>)
    | ButtonTriggered(button: ButtonId)
    | Hidden(resume: bool)

  /** How a surface's promise settles. */
  datatype Settlement =
    | Picked(items: seq<ItemId>)
    | Entered(text: string)
    | Pressed(button: ButtonId)
    | Signalled(signal: StepOutcome)
    | Pending

  /** The settlement a hide produces: Resume when `shouldResume()` yields true, otherwise Cancel. */
  function HideSignal(resume: bool): StepOutcome {
    if resume then Resume else Cancel
  }

  /**
   * What one picker event would settle the promise with: a selection change
   * only on a single-select picker, an accept only on a multi-select one, a
   * button only when it is on the surface (Back signals Back, any other
   * button resolves with itself), a hide always.
   */
  function PickEventSettles(canSelectMany: bool, buttons: seq<ButtonId>, e: PickEvent): Settlement {
    match e
    case SelectionChanged(items) => if canSelectMany then Pending else Picked(items)
    case Accepted(selected) => if canSelectMany then Picked(selected) else Pending
    case ButtonTriggered(b) =>
      if b !in buttons then Pending
      else if b == BackButton then Signalled(Back)
      else Pressed(b)
    case Hidden(resume) => Signalled(HideSignal(resume))
  }

  /** A promise settles once: the first event that settles it decides. */
  function PickSettlement(canSelectMany: bool, buttons: seq<ButtonId>, events: seq<PickEvent>): Settlement
    decreases |events|
  {
    if events == [] then Pending
    else
      var s := PickEventSettles(canSelectMany, buttons, events[0]);
      if s != Pending then s else PickSettlement(canSelectMany, buttons, events[1..])
  }

  /**
   * The promise stays pending exactly when no event settles it, and
   * otherwise holds what the first settling event settles it with.
   */
  lemma {:induction false} PickSettlementIsFirstSettling(canSelectMany: bool, buttons: seq<ButtonId>, events: seq<PickEvent>)
    ensures var r := PickSettlement(canSelectMany, buttons, events);
            && (r == Pending <==> forall i :: 0 <= i < |events| ==> PickEventSettles(canSelectMany, buttons, events[i]) == Pending)
            && (r != Pending ==>
                  exists i :: 0 <= i < |events| && PickEventSettles(canSelectMany, buttons, events[i]) == r
                              && forall j :: 0 <= j < i ==> PickEventSettles(canSelectMany, buttons, events[j]) == Pending)
    decreases |events|
  {
    if events != [] && PickEventSettles(canSelectMany, buttons, events[0]) == Pending {
      var r := PickSettlement(canSelectMany, buttons, events[1..]);
      PickSettlementIsFirstSettling(canSelectMany, buttons, events[1..]);
      assert forall k :: 1 <= k < |events| ==> events[k] == events[1..][k - 1];
      if r != Pending {
        FirstSettlingShifts(canSelectMany, buttons, events, r);
      }
    }
  }

  /** A first settling event of the later events is one of all of them, when the first event does not settle. */
  lemma FirstSettlingShifts(canSelectMany: bool, buttons: seq<ButtonId>, events: seq<PickEvent>, r: Settlement)
    requires events != [] && PickEventSettles(canSelectMany, buttons, events[0]) == Pending
    requires exists i :: 0 <= i < |events[1..]| && PickEventSettles(canSelectMany, buttons, events[1..][i]) == r
                         && forall j :: 0 <= j < i ==> PickEventSettles(canSelectMany, buttons, events[1..][j]) == Pending
    ensures exists i :: 0 <= i < |events| && PickEventSettles(canSelectMany, buttons, events[i]) == r
                        && forall j :: 0 <= j < i ==> PickEventSettles(canSelectMany, buttons, events[j]) == Pending
  {
    var i :| 0 <= i < |events[1..]| && PickEventSettles(canSelectMany, buttons, events[1..][i]) == r
             && forall j :: 0 <= j < i ==> PickEventSettles(canSelectMany, buttons, events[1..][j]) == Pending;
    assert events[i + 1] == events[1..][i];
    forall j | 0 <= j < i + 1
      ensures PickEventSettles(canSelectMany, buttons, events[j]) == Pending
    {
      if j > 0 {
        assert events[j] == events[1..][j - 1];
      }
    }
  }

  /** Events after the settling one change nothing. */
  lemma {:induction false} FirstSettlementWins(canSelectMany: bool, buttons: seq<ButtonId>, a: seq<PickEvent>, b: seq<PickEvent>)
    requires PickSettlement(canSelectMany, buttons, a) != Pending
    ensures PickSettlement(canSelectMany, buttons, a + b) == PickSettlement(canSelectMany, buttons, a)
    decreases |a|
  {
    assert (a + b)[0] == a[0];
    if PickEventSettles(canSelectMany, buttons, a[0]) == Pending {
      assert (a + b)[1..] == a[1..] + b;
      FirstSettlementWins(canSelectMany, buttons, a[1..], b);
    }
  }

  /**
   * A picker signals Back only through the Back button, so only when it is
   * offered (never on the first step); a hide signals Resume exactly when
   * `shouldResume()` yields true, and Cancel otherwise.
   */
  lemma {:induction false} PickSignals(canSelectMany: bool, historyLength: nat, custom: seq<ButtonId>, events: seq<PickEvent>)
    requires BackButton !in custom
    ensures var r := PickSettlement(canSelectMany, OfferedButtons(historyLength, custom), events);
            && (r == Signalled(Back) ==> historyLength > 1 && ButtonTriggered(BackButton) in events)
            && (r == Signalled(Resume) ==> Hidden(true) in events)
            && (r.Signalled? ==> r.signal in {Back, Resume, Cancel})
    decreases |events|
  {
    if events != [] {
      PickSignals(canSelectMany, historyLength, custom, events[1..]);
    }
  }

  // ---------------------------------------------------------------------------
  // The input box and its validation race
  // ---------------------------------------------------------------------------

  /** Why `validate` was called: on showing the box, on a text change, on accept. */
  datatype ValidationKind = ShowTriggered | ChangeTriggered | AcceptTriggered

  /** One call of `validate(text, input)`. */
  datatype Validation = Validation(kind: ValidationKind, text: string)

  /** A validation message that lets acceptance through: none, or the empty string (falsy). */
  predicate Falsy(message: Option<string>) {
    message.None? || message.value == ""
  }

  /**
   * The input box of `showInputBox` while it is open. `calls` are the
   * validations started, in order; `latest` is the local `validating`, the
   * validation last started on show or on a change; `settled` is how the
   * step's promise settled, if it has.
   */
  class InputBox {
    var value: string
    var validationMessage: Option<string>
    var enabled: bool
    var busy: bool
    var calls: seq<Validation>
    var completed: set<nat>
    var latest: nat
    var settled: Option<Settlement>
    const buttons: seq<ButtonId>

    ghost predicate Valid()
      reads this
    {
      && latest < |calls|
      && calls[latest].kind != AcceptTriggered
      && (forall k :: k in completed ==> k < |calls|)
    }

    /** The box as created, with the validation of the empty text started at once and taken as the latest. */
    constructor (initial: string, buttons: seq<ButtonId>)
      ensures Valid()
      ensures value == initial && this.buttons == buttons
      ensures validationMessage == None && enabled && !busy
      ensures calls == [Validation(ShowTriggered, "")] && latest == 0 && completed == {} && settled == None
    {
      value := initial;
      this.buttons := buttons;
      validationMessage := None;
      enabled := true;
      busy := false;
      calls := [Validation(ShowTriggered, "")];
      latest := 0;
      completed := {};
      settled := None;
    }

    /** `resolve`/`reject`: only the first settlement counts. */
    method Settle(s: Settlement)
      modifies this`settled
      ensures settled == if old(settled).None? then Some(s) else old(settled)
    {
      if settled.None? {
        settled := Some(s);
      }
    }

    /**
     * `onDidChangeValue(text)`: a new validation starts and becomes the
     * latest. Once the promise has settled the listener is gone.
     */
    method OnChangeValue(text: string)
      requires Valid()
      modifies this
      ensures Valid()
      ensures old(settled).None? ==>
                value == text && calls == old(calls) + [Validation(ChangeTriggered, text)] && latest == |old(calls)|
      ensures old(settled).Some? ==> value == text && calls == old(calls) && latest == old(latest)
      ensures validationMessage == old(validationMessage) && completed == old(completed)
      ensures settled == old(settled) && enabled == old(enabled) && busy == old(busy)
    {
      value := text;
      if settled.None? {
        latest := |calls|;
        calls := calls + [Validation(ChangeTriggered, text)];
      }
    }

    /** `onDidAccept`: the box is disabled and busy while the accepted value is validated. */
    method OnAccept()
      requires Valid()
      modifies this
      ensures Valid()
      ensures old(settled).None? ==> calls == old(calls) + [Validation(AcceptTriggered, value)] && !enabled && busy
      ensures old(settled).Some? ==> calls == old(calls) && enabled == old(enabled) && busy == old(busy)
      ensures value == old(value) && latest == old(latest) && completed == old(completed)
      ensures validationMessage == old(validationMessage) && settled == old(settled)
    {
      if settled.None? {
        enabled := false;
        busy := true;
        calls := calls + [Validation(AcceptTriggered, value)];
      }
    }

    /**
     * Validation `k` completes with `message`. A change-triggered validation
     * writes the message only if it is still the latest; the initial one is
     * never displayed; an accept-triggered one resolves the step with the
     * accepted text when the message is falsy and re-enables the box either
     * way. Completions run even after the promise has settled: a pending
     * await is not cancelled by disposing the listeners.
     */
    method OnValidationCompleted(k: nat, message: Option<string>)
      requires Valid() && k < |calls| && k !in completed
      modifies this
      ensures Valid()
      ensures completed == old(completed) + {k}
      ensures validationMessage ==
                if calls[k].kind == ChangeTriggered && k == latest then message else old(validationMessage)
      ensures calls[k].kind == AcceptTriggered ==>
                enabled && !busy
                && settled == (if Falsy(message) && old(settled).None? then Some(Entered(calls[k].text)) else old(settled))
      ensures calls[k].kind != AcceptTriggered ==> enabled == old(enabled) && busy == old(busy) && settled == old(settled)
      ensures value == old(value) && calls == old(calls) && latest == old(latest)
    {
      completed := completed + {k};
      match calls[k].kind {
        case ShowTriggered =>
        case ChangeTriggered =>
          if k == latest {
            validationMessage := message;
          }
        case AcceptTriggered =>
          if Falsy(message) {
            Settle(Entered(calls[k].text));
          }
          enabled := true;
          busy := false;
      }
    }

    /** `onDidTriggerButton`: Back signals Back, any other button on the box resolves with itself. */
    method OnTriggerButton(b: ButtonId)
      requires Valid()
      modifies this
      ensures Valid()
      ensures b in buttons && b == BackButton ==> settled == if old(settled).None? then Some(Signalled(Back)) else old(settled)
      ensures b in buttons && b != BackButton ==> settled == if old(settled).None? then Some(Pressed(b)) else old(settled)
      ensures b !in buttons ==> settled == old(settled)
      ensures value == old(value) && calls == old(calls) && latest == old(latest) && completed == old(completed)
      ensures validationMessage == old(validationMessage) && enabled == old(enabled) && busy == old(busy)
    {
      if b in buttons {
        Settle(if b == BackButton then Signalled(Back) else Pressed(b));
      }
    }

    /** `onDidHide`: Resume when `shouldResume()` yields true, otherwise Cancel. */
    method OnHide(resume: bool)
      requires Valid()
      modifies this
      ensures Valid()
      ensures settled == if old(settled).None? then Some(Signalled(HideSignal(resume))) else old(settled)
      ensures value == old(value) && calls == old(calls) && latest == old(latest) && completed == old(completed)
      ensures validationMessage == old(validationMessage) && enabled == old(enabled) && busy == old(busy)
    {
      Settle(Signalled(HideSignal(resume)));
    }
  }

  /**
   * Two changes whose validations complete in the opposite order: the
   * message shown is that of the later change, and neither the earlier
   * change's message nor the initial validation's replaces it.
   */
  method ValidationRaceScenario(stale: string, current: string) returns (shown: Option<string>)
    requires current != stale
    ensures shown == Some(current)
  {
    var box := new InputBox("", []);
    box.OnChangeValue("ab");
    box.OnChangeValue("abc");
    box.OnValidationCompleted(2, Some(current));
    box.OnValidationCompleted(1, Some(stale));
    box.OnValidationCompleted(0, Some(stale));
    shown := box.validationMessage;
  }

  /**
   * An accept whose validation yields a message leaves the box open and
   * enabled again; a second accept that validates resolves with the text.
   */
  method AcceptScenario(problem: string) returns (first: Option<Settlement>, enabledAgain: bool, second: Option<Settlement>)
    requires problem != ""
    ensures first == None && enabledAgain
    ensures second == Some(Entered("robot"))
  {
    var box := new InputBox("", []);
    box.OnChangeValue("robot");
    box.OnAccept();
    box.OnValidationCompleted(2, Some(problem));
    first, enabledAgain := box.settled, box.enabled;
    box.OnAccept();
    box.OnValidationCompleted(3, None);
    second := box.settled;
  }
}
