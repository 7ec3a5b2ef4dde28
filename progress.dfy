/**
 * The cancellable progress reporter (src/ui/progress.ts): a four-state
 * lifecycle around one host progress notification, a stored percentage that
 * is reported to the host as increments, one pending "next report" callback,
 * and a teardown that may run any number of times but releases the host's
 * notification once.
 *
 * The host is modelled by fields of the reporter itself: the log of reports
 * it received, the number of times its notification was released, whether
 * its cancellation token exists yet and whether cancellation was requested.
 * Callbacks are opaque identities; the ghost log `invoked` records which ones
 * were called, in order.
 */
module ProgressReporter {
  import opened Wrappers

  datatype State = Constructed | Initializing | Running | Resolved

  /** Position of a state in the lifecycle; the state never moves backwards. */
  function Rank(s: State): nat {
    match s
    case Constructed => 0
    case Initializing => 1
    case Running => 2
    case Resolved => 3
  }

  /** Identity of a "next report" callback supplied by the caller. */
  type CallbackId = nat

  /** One report the host received: an increment and an optional message. */
  datatype Report = Report(increment: int, message: Option<string>)

  /**
   * What the reporter throws: the plain error of a second `init()`, and
   * `ProgressCancelError`, the distinguished cancellation error.
   */
  datatype ProgressError = InitCalledTwice | ProgressCanceled

  datatype Outcome = Ok | Err(error: ProgressError)

  /** The total of the increments the host received. */
  function TotalIncrement(reports: seq<Report>): int
    decreases |reports|
  {
    if reports == [] then 0
    else TotalIncrement(reports[..|reports| - 1]) + reports[|reports| - 1].increment
  }

  lemma TotalIncrementAppend(reports: seq<Report>, r: Report)
    ensures TotalIncrement(reports + [r]) == TotalIncrement(reports) + r.increment
  {
    assert (reports + [r])[..|reports|] == reports;
  }

  class Progress {
    const title: string
    const cancellable: bool

    /** `_state` */
    var state: State
    /** `_progressNumber`: the last percentage passed to `set`. */
    var progressNumber: int
    /** `nextReportCallback`: at most one pending callback. */
    var nextReportCallback: Option<CallbackId>

    /** The host's token and report function have been handed over (`_token`, `_progress` are set). */
    var tokenAvailable: bool
    /** The host token's `isCancellationRequested`. */
    var cancellationRequested: bool
    /** Every report the host received, in call order. */
    var reports: seq<Report>
    /** How many times the host's notification was released (`_resolve()` called). */
    var releases: nat
    /** How many "Operation cancelled by user" error notifications were shown. */
    var cancelNotices: nat
    /** The callbacks that were invoked, in order. */
    ghost var invoked: seq<CallbackId>

    /**
     * The reporter's invariant: the token exists exactly from `running` on, the
     * host is released exactly when resolved, no callback is pending outside
     * `running` or after cancellation, and the increments the host received add
     * up to the stored percentage.
     */
    ghost predicate Valid()
      reads this
    {
      && (tokenAvailable <==> state == Running || state == Resolved)
      && (cancellationRequested ==> tokenAvailable)
      && releases == (if state == Resolved then 1 else 0)
      && (state != Running ==> nextReportCallback == None)
      && (cancellationRequested ==> nextReportCallback == None)
      && (Rank(state) < Rank(Running) ==> reports == [] && progressNumber == 0)
      && TotalIncrement(reports) == progressNumber
    }

    constructor (title: string, cancellable: bool)
      ensures Valid()
      ensures this.title == title && this.cancellable == cancellable
      ensures state == Constructed && progressNumber == 0 && nextReportCallback == None
      ensures !tokenAvailable && !cancellationRequested && reports == [] && releases == 0
      ensures cancelNotices == 0 && invoked == []
    {
      this.title := title;
      this.cancellable := cancellable;
      state := Constructed;
      progressNumber := 0;
      nextReportCallback := None;
      tokenAvailable := false;
      cancellationRequested := false;
      reports := [];
      releases := 0;
      cancelNotices := 0;
      invoked := [];
    }

    /**
     * `init()`, up to the point where it waits for the host: only a reporter
     * still in `constructed` moves on, to `initializing`; any later call throws
     * and changes nothing.
     */
    method Init() returns (r: Outcome)
      requires Valid()
      modifies this
      ensures Valid()
      ensures Rank(old(state)) <= Rank(state)
      ensures old(state) == Constructed ==> r == Ok && state == Initializing
      ensures old(state) != Constructed ==> r == Err(InitCalledTwice) && state == old(state)
      ensures progressNumber == old(progressNumber) && nextReportCallback == old(nextReportCallback)
      ensures tokenAvailable == old(tokenAvailable) && cancellationRequested == old(cancellationRequested)
      ensures reports == old(reports) && releases == old(releases)
      ensures cancelNotices == old(cancelNotices) && invoked == old(invoked)
    {
      if state != Constructed {
        return Err(InitCalledTwice);
      }
      state := Initializing;
      r := Ok;
    }

    /**
     * The host runs the task passed to `withProgress`: it hands over its report
     * function and cancellation token, the reporter enters `running` and
     * starts observing cancellation, and `init()` completes.
     */
    method OnTaskStarted()
      requires Valid() && state == Initializing
      modifies this
      ensures Valid()
      ensures Rank(old(state)) <= Rank(state)
      ensures state == Running && tokenAvailable
      ensures progressNumber == old(progressNumber) && nextReportCallback == old(nextReportCallback)
      ensures cancellationRequested == old(cancellationRequested)
      ensures reports == old(reports) && releases == old(releases)
      ensures cancelNotices == old(cancelNotices) && invoked == old(invoked)
    {
      tokenAvailable := true;
      state := Running;
    }

    /**
     * The user cancels in the host's notification. The token fires its event
     * once; the observer invokes and clears the pending callback.
     */
    method OnCancellationRequested()
      requires Valid() && tokenAvailable
      modifies this
      ensures Valid()
      ensures Rank(old(state)) <= Rank(state)
      ensures cancellationRequested
      ensures !old(cancellationRequested) && old(nextReportCallback).Some?
              ==> invoked == old(invoked) + [old(nextReportCallback).value]
      ensures old(cancellationRequested) || old(nextReportCallback).None? ==> invoked == old(invoked)
      ensures nextReportCallback == None
      ensures state == old(state) && progressNumber == old(progressNumber)
      ensures tokenAvailable == old(tokenAvailable) && reports == old(reports) && releases == old(releases)
      ensures cancelNotices == old(cancelNotices)
    {
      if !cancellationRequested {
        cancellationRequested := true;
        InvokePending();
      }
    }

    /** Calls the pending callback, if there is one, and clears the slot. */
    method InvokePending()
      modifies this`invoked, this`nextReportCallback
      ensures old(nextReportCallback).Some? ==> invoked == old(invoked) + [old(nextReportCallback).value]
      ensures old(nextReportCallback).None? ==> invoked == old(invoked)
      ensures nextReportCallback == None
    {
      if nextReportCallback.Some? {
        invoked := invoked + [nextReportCallback.value];
      }
      nextReportCallback := None;
    }

    /**
     * `assertContinue()`: raises the cancellation error, after showing the
     * "cancelled" notification, when cancellation was requested or the reporter
     * is not running. The token must exist (before the host started the task
     * the source reads an unset token).
     */
    method AssertContinue() returns (r: Outcome)
      requires Valid() && tokenAvailable
      modifies this`cancelNotices
      ensures Valid()
      ensures r == (if cancellationRequested || state != Running then Err(ProgressCanceled) else Ok)
      ensures cancelNotices == old(cancelNotices) + (if r.Err? then 1 else 0)
    {
      if cancellationRequested || state != Running {
        cancelNotices := cancelNotices + 1;
        return Err(ProgressCanceled);
      }
      r := Ok;
    }

    /** `isCanceled` */
    function IsCanceled(): (b: bool)
      reads this
      requires tokenAvailable
      ensures Valid() && b ==> nextReportCallback == None && (state == Running || state == Resolved)
    {
      cancellationRequested
    }

    /**
     * `set(percent, message, nextReportCallback)`. Outside `running` nothing
     * happens. Once cancellation was requested it throws the cancellation
     * error before invoking or reporting anything. Otherwise it invokes the
     * pending callback, reports the increment from the stored percentage to
     * the new one (an omitted percentage keeps the stored one and reports
     * 0), stores the new percentage and the new callback (possibly none).
     */
    method Set(percent: Option<int>, message: Option<string>, next: Option<CallbackId>) returns (r: Outcome)
      requires Valid()
      modifies this
      ensures Valid()
      ensures Rank(old(state)) <= Rank(state)
      ensures old(state) != Running ==>
                r == Ok && state == old(state) && progressNumber == old(progressNumber)
                && nextReportCallback == old(nextReportCallback) && reports == old(reports)
                && invoked == old(invoked) && cancelNotices == old(cancelNotices)
      ensures old(state) == Running && old(cancellationRequested) ==>
                r == Err(ProgressCanceled) && progressNumber == old(progressNumber)
                && nextReportCallback == old(nextReportCallback) && reports == old(reports)
                && invoked == old(invoked) && cancelNotices == old(cancelNotices) + 1
      ensures old(state) == Running && !old(cancellationRequested) ==>
                && r == Ok
                && progressNumber == percent.GetOr(old(progressNumber))
                && reports == old(reports) + [Report(progressNumber - old(progressNumber), message)]
                && nextReportCallback == next
                && (old(nextReportCallback).Some? ==> invoked == old(invoked) + [old(nextReportCallback).value])
                && (old(nextReportCallback).None? ==> invoked == old(invoked))
                && cancelNotices == old(cancelNotices)
      ensures TotalIncrement(reports) == progressNumber
      ensures state == old(state) && tokenAvailable == old(tokenAvailable)
      ensures cancellationRequested == old(cancellationRequested) && releases == old(releases)
    {
      if state != Running {
        return Ok;
      }
      r := AssertContinue();
      if r.Err? {
        return;
      }
      InvokePending();
      var p := percent.GetOr(progressNumber);
      TotalIncrementAppend(reports, Report(p - progressNumber, message));
      reports := reports + [Report(p - progressNumber, message)];
      progressNumber := p;
      nextReportCallback := next;
    }

    /**
     * `resolve()`: from `running` it invokes and clears the pending callback,
     * releases the host's notification and enters `resolved`; in every other
     * state, a repeated call included, it does nothing.
     */
    method Resolve()
      requires Valid()
      modifies this
      ensures Valid()
      ensures Rank(old(state)) <= Rank(state)
      ensures old(state) == Running ==>
                state == Resolved && releases == old(releases) + 1
                && (old(nextReportCallback).Some? ==> invoked == old(invoked) + [old(nextReportCallback).value])
                && (old(nextReportCallback).None? ==> invoked == old(invoked))
      ensures old(state) != Running ==>
                state == old(state) && releases == old(releases) && invoked == old(invoked)
      ensures progressNumber == old(progressNumber) && reports == old(reports)
      ensures tokenAvailable == old(tokenAvailable) && cancellationRequested == old(cancellationRequested)
      ensures cancelNotices == old(cancelNotices)
      ensures state != Running ==> nextReportCallback == None
    {
      if state == Running {
        InvokePending();
        releases := releases + 1;
        state := Resolved;
      }
    }

    /** `[Symbol.dispose]()`: exactly `resolve()`. */
    method Dispose()
      requires Valid()
      modifies this
      ensures Valid()
      ensures Rank(old(state)) <= Rank(state)
      ensures old(state) == Running ==>
                state == Resolved && releases == old(releases) + 1
                && (old(nextReportCallback).Some? ==> invoked == old(invoked) + [old(nextReportCallback).value])
                && (old(nextReportCallback).None? ==> invoked == old(invoked))
      ensures old(state) != Running ==>
                state == old(state) && releases == old(releases) && invoked == old(invoked)
      ensures progressNumber == old(progressNumber) && reports == old(reports)
      ensures tokenAvailable == old(tokenAvailable) && cancellationRequested == old(cancellationRequested)
      ensures cancelNotices == old(cancelNotices)
      ensures state != Running ==> nextReportCallback == None
    {
      Resolve();
    }
  }

  /**
   * A scoped run as the commands use it (`using progress = ...; await
   * progress.init()`): two reports, a cancellation, a third report that is
   * refused, and the scope's teardown run twice. The host sees the two
   * increments, one "cancelled" notification and one release; both callbacks
   * are invoked, the first by the second `set`, the second by the
   * cancellation observer.
   */
  method CancelledRunScenario() returns (reports: seq<Report>, notices: nat, releases: nat, refused: Outcome)
    ensures reports == [Report(5, None), Report(20, None)]
    ensures notices == 1 && releases == 1
    ensures refused == Err(ProgressCanceled)
  {
    var p := new Progress("Creating Project", true);
    var r := p.Init();
    p.OnTaskStarted();
    r := p.Set(Some(5), None, Some(1));
    r := p.Set(Some(25), None, Some(2));
    assert p.invoked == [1];
    p.OnCancellationRequested();
    assert p.invoked == [1, 2];
    refused := p.Set(Some(45), None, None);
    p.Dispose();
    p.Dispose();
    reports, notices, releases := p.reports, p.cancelNotices, p.releases;
  }

  /**
   * Without cancellation the increments the host receives add up to the last
   * percentage passed, whatever omissions come in between.
   */
  method UncancelledRunScenario(p1: int, p2: int) returns (total: int, last: int, released: nat)
    ensures total == p2 && last == p2 && released == 1
  {
    var p := new Progress("Backup", true);
    var r := p.Init();
    p.OnTaskStarted();
    r := p.Set(Some(p1), None, None);
    r := p.Set(None, Some("still working"), None);
    r := p.Set(Some(p2), None, None);
    p.Dispose();
    total, last, released := TotalIncrement(p.reports), p.progressNumber, p.releases;
  }

  /** A second `init()` throws and leaves the running reporter as it was. */
  method InitTwiceScenario() returns (second: Outcome, state: State)
    ensures second == Err(InitCalledTwice) && state == Running
  {
    var p := new Progress("Pull", true);
    var r := p.Init();
    p.OnTaskStarted();
    second := p.Init();
    state := p.state;
  }
}
