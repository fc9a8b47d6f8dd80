/**
 The control state of the OVRSwitch agent as a value, with one step function
 per operation of the tray application: opening the menu (UpdateMenu), the
 toggle command (Toggle), one pass of the auto-stop loop and the loop itself,
 switching auto mode, and shutdown (Dispose). The class OVRSwitch.Main
 performs these steps in place; this module states what they mean.
 */
module Machine {
  import opened Decisions

  /**
   How a ServiceController.Start or Stop call ends: it throws (Failed), or the
   service manager accepts it, after which the service is either still on its
   way (pending) or has arrived.
   */
  datatype Outcome = Failed | Accepted(pending: bool)

  /**
   What the outside world contributes to one pass of the auto-stop loop: the
   status the service manager reports, the names of the running processes,
   whether the process lookup or the service status read of the pass throws (they
   are made only in auto mode), how a stop request would end, and whether the
   application was disposed during the pass.
   */
  datatype Tick = Tick(
    live: ServiceStatus,
    processes: set<string>,
    queryFails: bool,
    stopOutcome: Outcome,
    disposed: bool)

  /**
   The agent's state: the operating mode, the loop's `running` flag, whether
   the check task has faulted (an exception ended its loop), the status
   the service controller has cached and the one a refresh would fetch, the
   toggle item's text and enabled flag, the semaphore's free permits, and the
   number of Start and Stop calls issued so far.
   */
  datatype State = State(
    autoMode: bool,
    running: bool,
    loopFaulted: bool,
    status: ServiceStatus,
    liveStatus: ServiceStatus,
    text: string,
    enabled: bool,
    permits: nat,
    starts: nat,
    stops: nat)

  /** The label the toggle item is created with. */
  const InitialText: string := "Toggle"

  /** No transition is in flight: the semaphore's single permit is free. */
  predicate Idle(s: State) {
    s.permits == 1
  }

  /** The check loop would start another pass: `running` is set and no exception has ended it. */
  predicate LoopActive(s: State) {
    s.running && !s.loopFaulted
  }

  /** The state right after construction, with auto mode as it was saved. */
  function Initial(savedAutoMode: bool, live: ServiceStatus): (s: State)
    ensures Idle(s) && LoopActive(s)
    ensures s.autoMode == savedAutoMode && s.status == live && s.liveStatus == live
    ensures s.text == InitialText && s.enabled
    ensures s.starts == 0 && s.stops == 0
  {
    State(savedAutoMode, true, false, live, live, InitialText, true, 1, 0, 0)
  }

  /** The status the service manager reports after a call ends. */
  function AfterCall(action: Action, outcome: Outcome, live: ServiceStatus): (r: ServiceStatus)
    ensures action == Nothing || outcome == Failed ==> r == live
    ensures action == Stop && outcome.Accepted? ==> r == StopPending || r == Stopped
    ensures action == Start && outcome.Accepted? ==> r == StartPending || r == Running
  {
    match outcome
    case Failed => live
    case Accepted(pending) =>
      match action
      case Stop => if pending then StopPending else Stopped
      case Start => if pending then StartPending else Running
      case Nothing => live
  }

  /** Whether the call for an action throws, which skips the rest of Toggle's try block. */
  function Throws(action: Action, outcome: Outcome): bool {
    action != Nothing && outcome == Failed
  }

  /** ServiceController.Refresh: the cached status becomes the live one. */
  function RefreshStep(s: State): (t: State)
    ensures t.status == s.liveStatus
    ensures t.(status := s.status) == s
  {
    s.(status := s.liveStatus)
  }

  /**
   Opening the menu. The item shows the row of the status table for the
   current mode and the status it was derived from; in manual mode that status
   is freshly refreshed, in auto mode the cached one is left alone.
   */
  function UpdateMenuStep(s: State): (t: State)
    ensures MenuItem(t.text, t.enabled) == MenuFor(t.autoMode, t.status)
    ensures t.status == if s.autoMode then s.status else s.liveStatus
    ensures t.(text := s.text, enabled := s.enabled, status := s.status) == s
  {
    var observed := if s.autoMode then s else RefreshStep(s);
    var item := MenuFor(observed.autoMode, observed.status);
    observed.(text := item.text, enabled := item.enabled)
  }

  /** Issues the call for an action (if any) and records its effect on the service. */
  function CallStep(s: State, action: Action, outcome: Outcome): (t: State)
    ensures t.stops == s.stops + (if action == Stop then 1 else 0)
    ensures t.starts == s.starts + (if action == Start then 1 else 0)
    ensures t.liveStatus == AfterCall(action, outcome, s.liveStatus)
    ensures t.(starts := s.starts, stops := s.stops, liveStatus := s.liveStatus) == s
  {
    match action
    case Stop => s.(stops := s.stops + 1, liveStatus := AfterCall(action, outcome, s.liveStatus))
    case Start => s.(starts := s.starts + 1, liveStatus := AfterCall(action, outcome, s.liveStatus))
    case Nothing => s
  }

  /**
   One Toggle call, from entry with the semaphore free to exit. The action is
   resolved from the cached status. On every path the item ends enabled and the
   permit is back; at most one Start or Stop is issued; when the call throws,
   the menu is not recomputed and keeps its text.
   */
  function ToggleStep(s: State, force: Force, outcome: Outcome): (t: State)
    requires Idle(s)
    ensures Idle(t) && t.enabled
    ensures t.autoMode == s.autoMode && t.running == s.running && t.loopFaulted == s.loopFaulted
    ensures t.stops == s.stops + (if ResolveAction(force, s.status) == Stop then 1 else 0)
    ensures t.starts == s.starts + (if ResolveAction(force, s.status) == Start then 1 else 0)
    ensures t.starts + t.stops <= s.starts + s.stops + 1
    ensures t.liveStatus == AfterCall(ResolveAction(force, s.status), outcome, s.liveStatus)
    ensures Throws(ResolveAction(force, s.status), outcome) ==> t.text == s.text && t.status == s.status
    ensures !Throws(ResolveAction(force, s.status), outcome) ==>
              t.text == MenuFor(t.autoMode, t.status).text &&
              t.status == (if s.autoMode then s.status else t.liveStatus)
  {
    var locked := s.(permits := s.permits - 1);
    var disabled := locked.(enabled := false);
    var action := ResolveAction(force, disabled.status);
    var called := CallStep(disabled, action, outcome);
    var shown := if Throws(action, outcome) then called else UpdateMenuStep(called);
    shown.(enabled := true, permits := shown.permits + 1)
  }

  /**
   The pass's process lookup or service status read throws. Only auto mode makes
   those queries; the exception leaves the loop and faults the check task.
   */
  predicate QueryFaults(s: State, tick: Tick) {
    s.autoMode && tick.queryFails
  }

  /** The auto-stop condition of one pass, as the loop evaluates it before and after refreshing. */
  predicate AutoStopDue(s: State, tick: Tick) {
    s.autoMode && !tick.queryFails && NoWatchedProcess(tick.processes) && tick.live == Running
  }

  /**
   One pass of the auto-stop loop. It issues Toggle(false), and so exactly one
   Stop, precisely when auto mode is on, the queries succeed, no watched process
   runs and the refreshed status is Running; it never issues a Start. A failing
   query faults the check task and leaves the cached status alone. Otherwise
   the only changes are the service's own status and, if the loop refreshed,
   the cached copy of it. Dispose during the pass clears `running`.
   */
  function CheckStep(s: State, tick: Tick): (t: State)
    requires Idle(s)
    ensures Idle(t) && t.autoMode == s.autoMode && t.starts == s.starts
    ensures t.running == (s.running && !tick.disposed)
    ensures t.loopFaulted == (s.loopFaulted || QueryFaults(s, tick))
    ensures QueryFaults(s, tick) ==> t.status == s.status
    ensures t.stops == s.stops + 1 <==> AutoStopDue(s, tick)
    ensures !AutoStopDue(s, tick) ==> t.stops == s.stops
    ensures !AutoStopDue(s, tick) ==>
              (t.status == s.status || t.status == tick.live) &&
              t == s.(liveStatus := tick.live, status := t.status, running := t.running,
                      loopFaulted := t.loopFaulted)
    ensures !AutoStopDue(s, tick) ==>
              t.status == (if s.autoMode && !tick.queryFails && NoWatchedProcess(tick.processes)
                           then tick.live else s.status)
    ensures AutoStopDue(s, tick) ==>
              t.enabled && t.status == Running &&
              t.liveStatus == AfterCall(Stop, tick.stopOutcome, Running) &&
              (tick.stopOutcome.Accepted? ==> t.text == AutoText)
  {
    var observed := s.(liveStatus := tick.live);
    var checked :=
      if QueryFaults(observed, tick) then observed.(loopFaulted := true)
      else if observed.autoMode && NoWatchedProcess(tick.processes) then
        var refreshed := RefreshStep(observed);
        if refreshed.status == Running then ToggleStep(refreshed, Force(false), tick.stopOutcome)
        else refreshed
      else observed;
    if tick.disposed then DisposeStep(checked) else checked
  }

  /**
   The `while (running)` loop over a finite run of passes. It stops after the
   first pass during which the application was disposed, and after the first
   pass whose query throws, although `running` is then still set. It never
   issues a Start, issues at most one Stop per pass and none in manual mode,
   never faults in manual mode, and keeps the semaphore free between passes.
   */
  function Run(s: State, ticks: seq<Tick>): (t: State)
    requires Idle(s)
    ensures Idle(t) && t.autoMode == s.autoMode && t.starts == s.starts
    ensures s.stops <= t.stops <= s.stops + |ticks|
    ensures !s.autoMode ==> t.stops == s.stops && t.loopFaulted == s.loopFaulted
    ensures !LoopActive(s) ==> t == s
    ensures t.running ==> s.running
    ensures s.loopFaulted ==> t.loopFaulted
    ensures s.running && (forall k :: 0 <= k < |ticks| ==> !ticks[k].disposed) ==> t.running
    ensures !s.loopFaulted && (forall k :: 0 <= k < |ticks| ==> !QueryFaults(s, ticks[k])) ==>
              !t.loopFaulted &&
              (t.running <==> s.running && forall k :: 0 <= k < |ticks| ==> !ticks[k].disposed)
    ensures |ticks| > 0 && ticks[|ticks| - 1].disposed ==> !LoopActive(t)
    ensures |ticks| > 0 && QueryFaults(s, ticks[|ticks| - 1]) ==> !LoopActive(t)
    decreases |ticks|
  {
    if !LoopActive(s) || |ticks| == 0 then s
    else
      var next := CheckStep(s, ticks[0]);
      assert forall k :: 1 <= k < |ticks| ==> ticks[k] == ticks[1..][k - 1];
      Run(next, ticks[1..])
  }

  /** Flipping the auto-mode menu item changes the mode and nothing else. */
  function FlipAutoModeStep(s: State): (t: State)
    ensures t.autoMode != s.autoMode
    ensures t.(autoMode := s.autoMode) == s
  {
    s.(autoMode := !s.autoMode)
  }

  /** Dispose clears the loop's `running` flag and nothing else in the model. */
  function DisposeStep(s: State): (t: State)
    ensures !t.running
    ensures t.(running := s.running) == s
  {
    s.(running := false)
  }

  /** Running the loop over two consecutive stretches of passes is running it over both. */
  lemma {:induction false} RunSplit(s: State, ticks: seq<Tick>, k: nat)
    requires Idle(s)
    requires k <= |ticks|
    ensures Run(s, ticks) == Run(Run(s, ticks[..k]), ticks[k..])
    decreases k
  {
    if k == 0 {
      assert ticks[..0] == [];
      assert ticks[0..] == ticks;
    } else if !LoopActive(s) {
    } else {
      var next := CheckStep(s, ticks[0]);
      assert ticks[..k][0] == ticks[0];
      assert ticks[..k][1..] == ticks[1..][..k - 1];
      assert ticks[k..] == ticks[1..][k - 1..];
      RunSplit(next, ticks[1..], k - 1);
    }
  }

  /**
   Once Dispose has cleared `running`, the loop runs no further pass; unless an
   earlier query fault ended the loop first, `running` ends cleared.
   */
  lemma NoIterationAfterDispose(s: State, ticks: seq<Tick>, k: nat)
    requires Idle(s)
    requires k < |ticks| && ticks[k].disposed
    ensures Run(s, ticks) == Run(s, ticks[..k + 1])
    ensures !LoopActive(Run(s, ticks))
    ensures !s.loopFaulted && (forall j :: 0 <= j < k ==> !QueryFaults(s, ticks[j])) ==>
              !Run(s, ticks).running
  {
    RunSplit(s, ticks, k + 1);
    var upTo := ticks[..k + 1];
    assert upTo[k] == ticks[k];
    if !s.loopFaulted && (forall j :: 0 <= j < k ==> !QueryFaults(s, ticks[j])) {
      RunSplit(s, upTo, k);
      assert upTo[..k] == ticks[..k];
      assert upTo[k..] == [ticks[k]];
      assert forall j :: 0 <= j < k ==> ticks[..k][j] == ticks[j];
      var before := Run(s, ticks[..k]);
      assert !before.loopFaulted;
    }
  }

  /**
   A query that throws ends the loop: passes after it have no effect, and the
   loop does not run again even while `running` stays set.
   */
  lemma NoIterationAfterFault(s: State, ticks: seq<Tick>, k: nat)
    requires Idle(s)
    requires k < |ticks| && QueryFaults(s, ticks[k])
    ensures Run(s, ticks) == Run(s, ticks[..k + 1])
    ensures !LoopActive(Run(s, ticks))
  {
    RunSplit(s, ticks, k + 1);
    assert ticks[..k + 1][k] == ticks[k];
  }

  /**
   A query failure in the first pass of a running auto-mode loop leaves
   `running` set while the loop is over.
   */
  lemma FaultLeavesRunningSet(s: State, ticks: seq<Tick>)
    requires Idle(s) && LoopActive(s)
    requires |ticks| > 0 && QueryFaults(s, ticks[0]) && !ticks[0].disposed
    ensures Run(s, ticks).running && Run(s, ticks).loopFaulted
  {
  }

  /**
   The finally block overrides the menu: a Toggle made in auto mode that did
   not throw leaves the item reading "Auto Mode Running" yet enabled.
   */
  lemma ToggleInAutoModeEndsEnabled(s: State, force: Force, outcome: Outcome)
    requires Idle(s) && s.autoMode
    requires !Throws(ResolveAction(force, s.status), outcome)
    ensures ToggleStep(s, force, outcome).text == AutoText
    ensures ToggleStep(s, force, outcome).enabled
    ensures !MenuFor(s.autoMode, s.status).enabled
  {
  }
}
