/**
 The decision logic of the OVRSwitch tray agent, lifted out of its methods:
 the status table behind the manual-toggle menu item, the action Toggle
 resolves from its nullable `force` argument, and the watched-process test of
 the auto-stop loop. Everything here is a pure function of its arguments.
 */
module Decisions {

  /** The values a Windows ServiceController reports for a service. */
  datatype ServiceStatus =
    | Stopped
    | StartPending
    | StopPending
    | Running
    | ContinuePending
    | PausePending
    | Paused

  /** Toggle's `bool? force`: NoForce is null, Force(true) forces a start, Force(false) a stop. */
  datatype Force = NoForce | Force(value: bool)

  /** The ServiceController call Toggle issues, if any. */
  datatype Action = Stop | Start | Nothing

  /** What the manual-toggle menu item shows. */
  datatype MenuItem = MenuItem(text: string, enabled: bool)

  /** The managed Windows service. */
  const ServiceName: string := "OVRService"

  const AutoText: string := "Auto Mode Running"
  const StopText: string := "Stop " + ServiceName
  const StartText: string := "Start " + ServiceName
  /** The busy label, spelled as the program spells it. */
  const BusyText: string := "Buzy.."


  /**
   The action of one Toggle call, from its `force` argument and the status the
   service controller has cached. A forced stop is issued even when the service
   is already stopped.
   */
  function ResolveAction(force: Force, status: ServiceStatus): (a: Action)
    ensures force == Force(false) ==> a == Stop
    ensures force == Force(true) ==> a == Start
    ensures force == NoForce ==> (a == Stop <==> status == Running)
    ensures force == NoForce ==> (a == Start <==> status == Stopped)
  {
    if (status == Running && !force.Force?) || force == Force(false) then Stop
    else if (status == Stopped && !force.Force?) || force == Force(true) then Start
    else Nothing
  }

  /**
   The toggle item for an operating mode and a service status. In manual mode
   the item is enabled exactly when clicking it (an unforced Toggle) would do
   something, and its label names that action.
   */
  function MenuFor(autoMode: bool, status: ServiceStatus): (m: MenuItem)
    ensures autoMode ==> m == MenuItem(AutoText, false)
    ensures !autoMode ==> (m.enabled <==> ResolveAction(NoForce, status) != Nothing)
    ensures !autoMode ==> (m.text == StopText <==> ResolveAction(NoForce, status) == Stop)
    ensures !autoMode ==> (m.text == StartText <==> ResolveAction(NoForce, status) == Start)
    ensures !autoMode && !m.enabled ==> m.text == BusyText
  {
    if autoMode then MenuItem(AutoText, false)
    else
      match status
      case Running => MenuItem(StopText, true)
      case Stopped => MenuItem(StartText, true)
      case _ => MenuItem(BusyText, false)
  }

  /** The four rows are the only items MenuFor produces, and its label tells them apart. */
  lemma MenuLabelIdentifiesRow(auto1: bool, status1: ServiceStatus, auto2: bool, status2: ServiceStatus)
    requires MenuFor(auto1, status1).text == MenuFor(auto2, status2).text
    ensures auto1 == auto2
    ensures MenuFor(auto1, status1) == MenuFor(auto2, status2)
    ensures !auto1 ==> ResolveAction(NoForce, status1) == ResolveAction(NoForce, status2)
  {
  }

  /** An ASCII upper-case letter becomes lower case; every other character is kept. */
  function LowerAscii(c: char): char {
    if 'A' <= c <= 'Z' then (c as int + 32) as char else c
  }

  /** A name with its ASCII letters in lower case. */
  function FoldCase(name: string): string {
    seq(|name|, i requires 0 <= i < |name| => LowerAscii(name[i]))
  }

  /** Process names are compared ignoring case, as the process lookup by name does. */
  predicate SameProcessName(a: string, b: string) {
    FoldCase(a) == FoldCase(b)
  }

  /**
   True when no running process is a watched one, OculusClient or
   OVRServiceLauncher: no name lower-cases to either watched name.
   */
  function NoWatchedProcess(processes: set<string>): (r: bool)
    ensures r <==> forall p :: p in processes ==>
                     FoldCase(p) != "oculusclient" && FoldCase(p) != "ovrservicelauncher"
  {
    assert FoldCase("OculusClient") == "oculusclient";
    assert FoldCase("OVRServiceLauncher") == "ovrservicelauncher";
    !exists p :: p in processes && (SameProcessName(p, "OculusClient") || SameProcessName(p, "OVRServiceLauncher"))
  }

  /** Renaming a process to another letter case never changes the verdict. */
  lemma RecasedNameSameVerdict(processes: set<string>, p: string, q: string)
    requires SameProcessName(p, q)
    ensures NoWatchedProcess(processes + {p}) == NoWatchedProcess(processes + {q})
  {
  }
}
