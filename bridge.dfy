/**
 * The two halves joined: the helper's standard output (garagedoormonitor.py) is the
 * report stream updateDoorState consumes (index.js).
 */
module Bridge {
  import opened Wrappers
  import opened Text
  import opened Accessory
  import opened Monitor

  /** The HomeKit current state the accessory should show for a state the helper prints. */
  function ShownState(state: int, ignoreErrors: bool): (r: int)
    ensures Open <= r <= Stopped
    ensures r == Stopped <==> !ignoreErrors && !(StateOpen <= state <= StateClosing)
  {
    if state == StateOpen then Open
    else if state == StateOpening then Opening
    else if state == StateClosed then Closed
    else if state == StateClosing then Closing
    else if ignoreErrors then Closed
    else Stopped
  }

  /** The lines the helper prints for a run of states. */
  function Lines(states: seq<int>): (r: seq<string>)
    ensures |r| == |states|
    ensures forall i :: 0 <= i < |states| ==> r[i] == StateValToText(states[i]) + "\n"
  {
    seq(|states|, i requires 0 <= i < |states| => StateValToText(states[i]) + "\n")
  }

  /** Every token the helper prints is a bare line for the reconciler. */
  lemma PrintedTokenIsBare(state: int)
    requires 0 <= state <= 5
    ensures IsBareLine(StateValToText(state))
  {
    var t := StateValToText(state);
    assert t == "STOPPED" || t == "OPEN" || t == "OPENING" || t == "CLOSED" || t == "CLOSING";
  }

  /** One printed line, as updateDoorState reconciles it. */
  lemma PrintedLineReconciles(state: int, d: Door, ignoreErrors: bool)
    requires 0 <= state <= 5
    ensures var r := Reconciled(d, StateValToText(state) + "\n", ignoreErrors);
      && r.current == ShownState(state, ignoreErrors)
      && (r.obstruction == 1 <==> r.current == Stopped)
      && (r.current != Stopped ==> r.target == (if r.current == Open || r.current == Opening then Open else Closed))
      && (r.current == Stopped ==> r.target == d.target)
  {
    var t := StateValToText(state);
    PrintedTokenIsBare(state);
    FirstLineOnly(t, "\n");
    ReportTable(d, t + "\n", ignoreErrors);
  }

  /** After the helper has printed a run of states, the accessory shows the last of them. */
  lemma AccessoryFollowsMonitor(d: Door, emitted: seq<int>, ignoreErrors: bool)
    requires ReportLog(emitted, if emitted == [] then -1 else emitted[|emitted| - 1])
    requires emitted != []
    ensures ReconciledAll(d, Lines(emitted), ignoreErrors).current
         == ShownState(emitted[|emitted| - 1], ignoreErrors)
  {
    var n := |emitted|;
    var lines := Lines(emitted);
    assert lines == Lines(emitted[..n - 1]) + [lines[n - 1]];
    ReconciledAllSnoc(d, Lines(emitted[..n - 1]), lines[n - 1], ignoreErrors);
    PrintedLineReconciles(emitted[n - 1], ReconciledAll(d, Lines(emitted[..n - 1]), ignoreErrors), ignoreErrors);
  }

  /**
   * One pass of the helper's main loop with its output delivered to the accessory's
   * standard-output listener: the monitor's window is trimmed and a changed state is
   * printed; a printed line is reconciled into the door, and no line changes nothing.
   */
  method PollAndDeliver(monitor: DoorMonitor, accessory: GarageDoorOpener, now: real)
    requires monitor.Valid() && Consistent(accessory.DoorState())
    modifies monitor, accessory`currentState, accessory`targetState, accessory`obstruction
    ensures monitor.Valid() && Consistent(accessory.DoorState())
    ensures monitor.eventlist == Trimmed(old(monitor.eventlist), 1, now)
    ensures var s := Classify(monitor.eventlist, now);
      if s != old(monitor.laststate) && s != Indeterminate then
        monitor.laststate == s && monitor.emitted == old(monitor.emitted) + [s]
      else
        monitor.laststate == old(monitor.laststate) && monitor.emitted == old(monitor.emitted)
    ensures monitor.emitted == old(monitor.emitted) ==> accessory.DoorState() == old(accessory.DoorState())
    ensures monitor.emitted != old(monitor.emitted) ==>
              accessory.DoorState()
                == Reconciled(old(accessory.DoorState()), StateValToText(monitor.laststate) + "\n", accessory.ignoreErrors)
    ensures monitor.emitted != old(monitor.emitted) ==>
              var d := accessory.DoorState();
              && d.current == ShownState(monitor.laststate, accessory.ignoreErrors)
              && (d.obstruction == 1 <==> d.current == Stopped)
              && (d.current != Stopped ==> d.target == (if d.current == Open || d.current == Opening then Open else Closed))
              && (d.current == Stopped ==> d.target == old(accessory.DoorState()).target)
  {
    var line := monitor.Poll(now);
    if line.Some? {
      PrintedLineReconciles(monitor.laststate, accessory.DoorState(), accessory.ignoreErrors);
      accessory.UpdateDoorState(line.value);
    }
  }
}
