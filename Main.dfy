/**
 The OVRSwitch tray application's control object. The fields are the state the
 application updates in place: the operating mode, the loop flag, whether an
 exception has ended the check task's loop, the service
 controller's cached status (and the live one a refresh fetches), the toggle
 menu item's text and enabled flag, the semaphore around Toggle, and counters
 of the Start and Stop calls. Each method is specified by the step function of
 module Machine it performs.
 */
module OVRSwitch {
  import opened Decisions
  import opened Machine

  class Main {
    var autoMode: bool
    var running: bool
    /** Set when an exception has left the check loop and faulted its task. */
    var loopFaulted: bool
    /** The status ServiceController.Status returns until the next Refresh. */
    var status: ServiceStatus
    /** The status the service manager holds; Refresh copies it into `status`. */
    var liveStatus: ServiceStatus
    var toggleText: string
    var toggleEnabled: bool
    /** Free permits of the semaphore guarding Toggle. */
    var permits: nat
    var starts: nat
    var stops: nat

    /** The fields as a Machine.State value. */
    function Snapshot(): State
      reads this
    {
      State(autoMode, running, loopFaulted, status, liveStatus, toggleText, toggleEnabled, permits, starts, stops)
    }

    /** Creates the agent with the saved auto-mode setting; the loop is running and the semaphore free. */
    constructor (savedAutoMode: bool, live: ServiceStatus)
      ensures Snapshot() == Initial(savedAutoMode, live)
    {
      autoMode := savedAutoMode;
      running := true;
      loopFaulted := false;
      status := live;
      liveStatus := live;
      toggleText := InitialText;
      toggleEnabled := true;
      permits := 1;
      starts := 0;
      stops := 0;
    }

    /** The auto-mode menu item's click handler, without persisting the setting. */
    method FlipAutoMode()
      modifies this`autoMode
      ensures autoMode == !old(autoMode)
      ensures Snapshot() == FlipAutoModeStep(old(Snapshot()))
    {
      autoMode := !autoMode;
    }

    /** ServiceController.Refresh. */
    method Refresh()
      modifies this`status
      ensures status == liveStatus
      ensures Snapshot() == RefreshStep(old(Snapshot()))
    {
      status := liveStatus;
    }

    /** Recomputes the toggle item; runs whenever the menu opens and at the end of Toggle. */
    method UpdateMenu()
      modifies this`status, this`toggleText, this`toggleEnabled
      ensures MenuItem(toggleText, toggleEnabled) == MenuFor(autoMode, status)
      ensures Snapshot() == UpdateMenuStep(old(Snapshot()))
    {
      if autoMode {
        toggleEnabled := false;
        toggleText := AutoText;
      } else {
        Refresh();
        match status {
          case Running =>
            toggleText := StopText;
            toggleEnabled := true;
          case Stopped =>
            toggleText := StartText;
            toggleEnabled := true;
          case _ =>
            toggleText := BusyText;
            toggleEnabled := false;
        }
      }
    }

    /**
     Issues ServiceController.Stop or Start for the action, if any, and reports
     whether the call threw.
     */
    method CallService(action: Action, outcome: Outcome) returns (thrown: bool)
      modifies this`starts, this`stops, this`liveStatus
      ensures thrown == Throws(action, outcome)
      ensures Snapshot() == CallStep(old(Snapshot()), action, outcome)
    {
      thrown := false;
      if action == Stop {
        stops := stops + 1;
        liveStatus := AfterCall(action, outcome, liveStatus);
        thrown := outcome == Failed;
      } else if action == Start {
        starts := starts + 1;
        liveStatus := AfterCall(action, outcome, liveStatus);
        thrown := outcome == Failed;
      }
    }

    /**
     The toggle command. It takes the semaphore, disables the item, issues the
     action resolved from the cached status and recomputes the menu; its finally
     block re-enables the item and releases the semaphore on every path,
     including a call that throws.
     */
    method Toggle(force: Force, outcome: Outcome)
      requires permits == 1
      modifies this
      ensures toggleEnabled && permits == 1
      ensures starts + stops <= old(starts) + old(stops) + 1
      ensures Snapshot() == ToggleStep(old(Snapshot()), force, outcome)
    {
      permits := permits - 1;
      toggleEnabled := false;
      var action := ResolveAction(force, status);
      // the call runs while the permit is held and the item is disabled
      assert permits == 0 && !toggleEnabled;
      var thrown := CallService(action, outcome);
      if !thrown {
        UpdateMenu();
      }
      toggleEnabled := true;
      permits := permits + 1;
    }

    /**
     One pass of the auto-stop loop, with what the outside world contributes to
     it. A throwing process lookup or status read ends the pass and marks the loop
     as faulted.
     */
    method CheckIteration(tick: Tick)
      requires permits == 1
      modifies this
      ensures permits == 1
      ensures Snapshot() == CheckStep(old(Snapshot()), tick)
    {
      liveStatus := tick.live;
      if autoMode && tick.queryFails {
        loopFaulted := true;
      } else if autoMode && NoWatchedProcess(tick.processes) {
        Refresh();
        if status == Running {
          Toggle(Force(false), tick.stopOutcome);
        }
      }
      if tick.disposed {
        Dispose();
      }
    }

    /**
     The auto-stop loop: passes run while `running` holds and no exception has
     left the loop, over a finite run of ticks.
     */
    method CheckLoop(ticks: seq<Tick>)
      requires permits == 1
      modifies this
      ensures permits == 1
      ensures Snapshot() == Run(old(Snapshot()), ticks)
    {
      var i := 0;
      while running && !loopFaulted && i < |ticks|
        invariant 0 <= i <= |ticks|
        invariant permits == 1
        invariant Run(Snapshot(), ticks[i..]) == Run(old(Snapshot()), ticks)
        decreases |ticks| - i
      {
        assert ticks[i..][0] == ticks[i] && ticks[i..][1..] == ticks[i + 1..];
        CheckIteration(ticks[i]);
        i := i + 1;
      }
    }

    /** Application shutdown, as far as the loop is concerned: `running` is cleared. */
    method Dispose()
      modifies this`running
      ensures !running
      ensures Snapshot() == DisposeStep(old(Snapshot()))
    {
      running := false;
    }
  }
}
