# OVRSwitch control state machine

OVRSwitch is a Windows tray application that controls one Windows service,
`OVRService`. Under its tray and menu code it holds a small state machine, and
this project models that state machine:

- The toggle menu item shows a label and an enabled flag. These are derived
  from the operating mode (auto or manual) and the service status.
- `Toggle` starts or stops the service. Its nullable `force` argument and the
  cached service status decide which call it makes. It runs under a binary
  semaphore, and a `finally` block always re-enables the item and releases
  the semaphore.
- A background loop runs while the application is alive. In auto mode it
  force-stops a running service once neither `OculusClient` nor
  `OVRServiceLauncher` is running.

The project has three modules:

- `Decisions` (Decisions.dfy) holds the pure decision logic: the status table
  `MenuFor`, the action resolution `ResolveAction` and the watched-process
  test `NoWatchedProcess`. That test compares names ignoring case
  (`SameProcessName`).
- `Machine` (Machine.dfy) gives the whole control state as a value, `State`.
  It has one step function per operation and a function `Run` for the loop
  over a finite series of passes, plus lemmas about them. Three predicates
  name the source's conditions:
  - `AutoStopDue` is the test of Main.cs:93-96.
  - `QueryFaults` is a throwing process lookup or status read in that test.
  - `Throws` is a Start/Stop call that throws at Main.cs:154 or 158.
- `OVRSwitch` (Main.dfy) holds the class `Main`. Its fields are the ones the
  application updates in place: mode, loop flag, loop-faulted flag, cached and live service
  status, item text and enabled flag, semaphore permits, and Start/Stop
  counters. Each method's `ensures` ties the new field values, read through
  `Snapshot()`, to the matching step function of the old ones.

Decisions that come from outside the program are parameters:

- the live service status, as a `Tick` field of each loop pass;
- the names of the running processes, as a `set<string>` in each `Tick`;
- whether a pass's process lookup or service status read throws, as `queryFails`
  in each `Tick`;
- how a Start or Stop call ends (`Outcome`): it throws (`Failed`), or the
  service manager accepts it and the service is either still pending or has
  arrived;
- whether `Dispose` ran during a pass.

In these details the model follows the code as written:

- `Toggle(false)` issues Stop even when the service is already stopped. It is
  not a no-op.
- The item is disabled after the semaphore is taken, not before. No
  presentation is published before the wait.
- `Toggle` resolves its action from the cached status and does not refresh
  first. `UpdateMenu` refreshes, and only in manual mode.
- The `finally` block runs after the menu has been recomputed. It sets the
  item enabled even when the recomputed row says disabled ("Auto Mode
  Running" or the busy row).
- The busy label is spelled `"Buzy.."`.
- When Start or Stop throws, the rest of the `try` block is skipped. The menu
  is then not recomputed and keeps its earlier text.
- In auto mode, a throwing process lookup or status read (Main.cs:93-96) leaves
  the loop's lambda and faults the check task. No further pass runs, though
  `running` is still set. The model records this as `loopFaulted`, and `Run`
  stops there.

## Model

| member | source | states |
|---|---|---|
| Decisions.ResolveAction | Main.cs:152-159 | force false always gives Stop; force true gives Start; with no force the action is Stop exactly when the cached status is Running, Start exactly when it is Stopped, and nothing otherwise |
| Decisions.MenuFor | Main.cs:106-132 | in auto mode the item is ("Auto Mode Running", disabled) whatever the status; in manual mode it is enabled exactly when an unforced Toggle would act, its label is "Stop OVRService"/"Start OVRService" exactly when that action is Stop/Start, and a disabled manual item reads "Buzy.." |
| Decisions.MenuLabelIdentifiesRow | Main.cs:108-130 | two (mode, status) pairs with the same label give the same item, the same mode, and in manual mode the same unforced action |
| Decisions.NoWatchedProcess | Main.cs:93 | true exactly when no running process name lower-cases to "oculusclient" or "ovrservicelauncher", so a watched process is found whatever the letter case of its name |
| Decisions.RecasedNameSameVerdict | Main.cs:93 | for every set of running processes, adding a process under one name or under any re-casing of it gives the same verdict |
| Machine.Initial | Main.cs:15-20 | after construction the loop flag is set and the loop has not faulted, auto mode is the saved setting, cached and live status are the service's status, the item reads "Toggle" and is enabled, the semaphore is free and no call has been issued |
| Machine.AfterCall | Main.cs:154-158 | a failed call or no call leaves the service status unchanged; an accepted Stop leaves it StopPending or Stopped, an accepted Start StartPending or Running |
| Machine.RefreshStep | Main.cs:95 | Refresh makes the cached status the live one and changes nothing else |
| Machine.UpdateMenuStep | Main.cs:106-132 | afterwards the item is the status-table row for the mode and the cached status; in manual mode that status is freshly refreshed from the live one, in auto mode it is untouched; nothing else changes |
| Machine.CallStep | Main.cs:152-159 | issuing an action adds one to the Stop or Start counter for that action, none for no action, sets the live status the call leaves, and changes nothing else |
| Machine.ToggleStep | Main.cs:144-168 | from a free semaphore: ends with the item enabled and the permit back on every path; mode, loop flag and loop-faulted flag unchanged; exactly one Stop or one Start when the resolved action is one, never both; when the call throws the text and cached status are kept, otherwise the text is the table row for the mode and the resulting status |
| Machine.CheckStep | Main.cs:92-101 | one pass issues exactly one Stop (via Toggle(false)) precisely when auto mode is on, the queries succeed, no watched process runs and the refreshed status is Running; it never issues Start; in auto mode a failing query faults the loop and keeps the cached status; otherwise only the live status and the cached status change, the cached one only by the auto-mode refresh (it becomes the live status when auto mode is on, the queries succeed and no watched process runs), so a manual pass keeps it; a stopping pass leaves the item enabled, the cached status Running, the live status what the Stop left, and after an accepted Stop the label "Auto Mode Running"; Dispose during the pass clears running |
| Machine.Run | Main.cs:89-103 | the loop keeps the semaphore free, never issues Start, issues at most one Stop per pass, none in manual mode, and never faults in manual mode; it does nothing once running is false or the loop has faulted; running is never set again; without query faults it ends with running set exactly when no pass saw Dispose; a last pass that disposes or faults leaves the loop ended |
| Machine.RunSplit | Main.cs:91-102 | running the loop over a series of passes equals running it over a prefix and then over the rest |
| Machine.NoIterationAfterDispose | Main.cs:91-102 | once Dispose (line 137) has cleared running during pass k, passes after k have no effect and the loop is over; unless an earlier query fault ended the loop first, running ends false |
| Machine.NoIterationAfterFault | Main.cs:89-103 | once a query in pass k has thrown, passes after k have no effect and the loop is over |
| Machine.FaultLeavesRunningSet | Main.cs:89-103 | a query fault in the first pass ends the loop with running still true |
| Machine.ToggleInAutoModeEndsEnabled | Main.cs:160-166 | a Toggle in auto mode that does not throw ends with the label "Auto Mode Running" and the item enabled, although the table row for auto mode is disabled |
| Machine.FlipAutoModeStep | Main.cs:21-25 | clicking the auto-mode item flips the mode and changes nothing else |
| Machine.DisposeStep | Main.cs:134-142 | Dispose clears running and changes nothing else in the model |
| OVRSwitch.Main.constructor | Main.cs:15-20 | the fields start as Machine.Initial describes, with the semaphore holding one permit (line 144) |
| OVRSwitch.Main.FlipAutoMode | Main.cs:21-25 | the mode is negated; the new fields are FlipAutoModeStep of the old |
| OVRSwitch.Main.Refresh | Main.cs:115 | the cached status equals the live status; the new fields are RefreshStep of the old |
| OVRSwitch.Main.UpdateMenu | Main.cs:106-132 | the item shows MenuFor of the mode and cached status; the new fields are UpdateMenuStep of the old |
| OVRSwitch.Main.CallService | Main.cs:152-159 | reports whether the Start/Stop call threw; the new fields are CallStep of the old |
| OVRSwitch.Main.Toggle | Main.cs:144-168 | requires the semaphore free; ends enabled with one permit, at most one call more; the new fields are ToggleStep of the old; that the call is made while the permit is held and the item is disabled is asserted in the body before the call |
| OVRSwitch.Main.CheckIteration | Main.cs:92-101 | keeps the semaphore free; a failing query sets the faulted flag; the new fields are CheckStep of the old |
| OVRSwitch.Main.CheckLoop | Main.cs:89-103 | the `while (running)` loop over the given passes, left early when a query throws; keeps the semaphore free and its effect is Run of the old fields |
| OVRSwitch.Main.Dispose | Main.cs:134-142 | running is false; the new fields are DisposeStep of the old |

## Left out

- Tray icon, context-menu construction and the Exit item (Main.cs:61-82): UI wiring. Only the toggle item's text and enabled flag are modelled.
- Registering and deleting the run-at-startup scheduled task (Main.cs:29-60): a foreign OS API with no logic beyond flipping a check mark.
- Persisting auto mode to the application settings and saving them (Main.cs:23-24): external storage. Only the in-memory flip is modelled, and the saved value is a constructor parameter.
- Process enumeration and the ServiceController calls: OS I/O. They are inputs: a set of process names, whether the loop's query throws, the live status, and an `Outcome` per call.
- Decisions.NoWatchedProcess: the name comparison folds only ASCII letters. The case mapping of other characters is not modelled. The watched names themselves are ASCII.
- OVRSwitch.Main.UpdateMenu and Machine.UpdateMenuStep: the refresh and status read when the menu opens (Main.cs:115-116) always succeed. A throw from the status read, which would leave the menu's Opening handler, is not modelled.
- Machine.Run: after a query fault has ended the loop, a later Dispose still clears `running` in the application. The model can show that only by calling Dispose directly, not through the loop's ticks.
- ServiceController reads its status lazily on the first access. The model fetches it once at construction.
- Marshalling through the synchronisation context, `Task.Run`, the one-minute delay and the long-running task: threading and timing. The model is sequential, and each pass's Toggle(false) runs to completion inside the pass.
- Real interleaving of concurrent Toggle callers: concurrency is not modelled. The semaphore is a permit count, and Toggle requires the permit free at entry. A caller that would wait on the semaphore is not represented.
- The disabled state during a Start/Stop call is visible only inside Toggle, at the assertion before the call. Nothing outside the method exposes that intermediate state.
- Machine.Run and OVRSwitch.Main.CheckLoop: the endless `while (running)` loop is modelled over a finite sequence of passes. The model says nothing about passes beyond the last tick.
- User actions between loop passes (opening the menu, flipping auto mode, a manual toggle): each is its own method, and a client may call them in any order. The loop's tick sequence does not carry them.
- Resource disposal in Dispose other than clearing running (Main.cs:136-141): the task service, icon and controller are not modelled.
- An exception thrown by a Start or Stop call stops inside Toggle. Where it goes afterwards (the async event handler, the synchronisation context) is not modelled.
