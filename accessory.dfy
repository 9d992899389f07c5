/**
 * The garage door accessory of index.js: the three retained characteristic values
 * (currentState, targetState, obstruction), how a report line from the monitor
 * helper updates them, how a target set is recorded, and the helper's lifecycle
 * around the `terminating` flag.
 */
module Accessory {
  import opened Wrappers
  import opened Text
  import opened Temperature

  // CurrentDoorState codes; Open and Closed are also the TargetDoorState codes.
  const Open := 0
  const Closed := 1
  const Opening := 2
  const Closing := 3
  const Stopped := 4

  /** currentState, targetState and obstruction. */
  datatype Door = Door(current: int, target: int, obstruction: int)

  /** A current state code, a 0/1 obstruction flag, and the flag raised exactly in state STOPPED. */
  predicate Consistent(d: Door) {
    0 <= d.current <= 4 && (d.obstruction == 0 || d.obstruction == 1)
    && (d.obstruction == 1 <==> d.current == Stopped)
  }

  /** The line updateDoorState acts on: the first line of the trimmed payload. */
  function ReportLine(data: string): (line: string)
    ensures line == [] <==> AllSpace(data)
    ensures '\n' !in line
  {
    TrimSpec(data);
    var t := Trim(data);
    var line := Segment(t, "\n", 0).value;
    assert t != [] ==> line != [];
    assert '\n' !in line by {
      forall i | 0 <= i < |line| ensures line[i] != '\n' {
        assert !OccursAt(line, "\n", i);
        assert line[i..i + 1] == [line[i]];
      }
    }
    line
  }

  /** The fixed report table: the current state and the target a recognised token implies. */
  function Row(token: string): (r: Option<(int, int)>)
    ensures r.None? <==> token !in {"OPEN", "CLOSED", "OPENING", "CLOSING"}
    ensures r.Some? ==> Open <= r.value.0 <= Closing
    ensures r.Some? ==> r.value.1 == (if r.value.0 == Open || r.value.0 == Opening then Open else Closed)
  {
    if token == "OPEN" then Some((Open, Open))
    else if token == "CLOSED" then Some((Closed, Closed))
    else if token == "OPENING" then Some((Opening, Open))
    else if token == "CLOSING" then Some((Closing, Closed))
    else None
  }

  /** With ignore_errors set, a STOPPED report is taken as CLOSED. */
  function Suppress(line: string, ignoreErrors: bool): (r: string)
    ensures ignoreErrors ==> r != "STOPPED"
    ensures r != line ==> line == "STOPPED" && ignoreErrors && r == "CLOSED"
  {
    if line == "STOPPED" && ignoreErrors then "CLOSED" else line
  }

  /**
   * The door after one chunk of helper output: a blank chunk changes nothing; a
   * recognised token sets the state and target from the table and clears the
   * obstruction; anything else is STOPPED with an obstruction, target untouched.
   */
  function Reconciled(d: Door, data: string, ignoreErrors: bool): (r: Door)
    ensures AllSpace(data) ==> r == d
    ensures !AllSpace(data) ==> Consistent(r)
    ensures r.target == d.target || r.target == Open || r.target == Closed
  {
    var line := ReportLine(data);
    if line == [] then d
    else
      match Row(Suppress(line, ignoreErrors))
      case Some((current, target)) => Door(current, target, 0)
      case None => Door(Stopped, d.target, 1)
  }

  /** The door after a run of helper output chunks, in arrival order. */
  function ReconciledAll(d: Door, chunks: seq<string>, ignoreErrors: bool): Door
    decreases |chunks|
  {
    if chunks == [] then d
    else ReconciledAll(Reconciled(d, chunks[0], ignoreErrors), chunks[1..], ignoreErrors)
  }

  /** A line that is already trimmed and holds no line break. */
  predicate IsBareLine(line: string) {
    line != [] && !IsJsSpace(line[0]) && !IsJsSpace(line[|line| - 1]) && '\n' !in line
  }

  /** Only the first line counts: whatever lines follow a bare report line are ignored. */
  lemma {:induction false} FirstLineOnly(line: string, rest: string)
    requires IsBareLine(line)
    requires rest == [] || rest[0] == '\n'
    ensures ReportLine(line + rest) == line
  {
    TrimEndSpec(rest);
    var t := TrimEnd(rest);
    assert TrimStart(line + rest) == line + rest;
    TrimEndAfterWord(line, rest);
    assert Trim(line + rest) == line + t;
    if t == [] {
      assert line + t == line;
      NoSeparatorStart(line, "\n");
      SplitWhole(line, "\n");
    } else {
      assert t == "\n" + t[1..];
      assert line + t == line + "\n" + t[1..];
      SplitAfter(line, "\n", t[1..], 0);
    }
  }

  /** The report table, row by row, for a payload whose first line is the token. */
  lemma ReportTable(d: Door, data: string, ignoreErrors: bool)
    ensures ReportLine(data) == "OPEN" ==> Reconciled(d, data, ignoreErrors) == Door(Open, Open, 0)
    ensures ReportLine(data) == "CLOSED" ==> Reconciled(d, data, ignoreErrors) == Door(Closed, Closed, 0)
    ensures ReportLine(data) == "OPENING" ==> Reconciled(d, data, ignoreErrors) == Door(Opening, Open, 0)
    ensures ReportLine(data) == "CLOSING" ==> Reconciled(d, data, ignoreErrors) == Door(Closing, Closed, 0)
    ensures ReportLine(data) == "STOPPED" && !ignoreErrors ==> Reconciled(d, data, ignoreErrors) == Door(Stopped, d.target, 1)
    ensures ReportLine(data) !in {"", "OPEN", "CLOSED", "OPENING", "CLOSING", "STOPPED"}
            ==> Reconciled(d, data, ignoreErrors) == Door(Stopped, d.target, 1)
  {
  }

  /** ignore_errors makes STOPPED exactly CLOSED and leaves every other report alone. */
  lemma IgnoreErrorsEffect(d: Door, data: string, closed: string)
    requires ReportLine(closed) == "CLOSED"
    ensures ReportLine(data) == "STOPPED" ==> Reconciled(d, data, true) == Reconciled(d, closed, true)
    ensures ReportLine(data) == "STOPPED" ==> Reconciled(d, data, true) != Reconciled(d, data, false)
    ensures ReportLine(data) != "STOPPED" ==> Reconciled(d, data, true) == Reconciled(d, data, false)
  {
  }

  /** A report applied twice leaves the door as applying it once does. */
  lemma ReportIdempotent(d: Door, data: string, ignoreErrors: bool)
    ensures Reconciled(Reconciled(d, data, ignoreErrors), data, ignoreErrors) == Reconciled(d, data, ignoreErrors)
  {
  }

  /** After a run of reports the door is still consistent and its target still 0 or 1. */
  lemma {:induction false} ReportsKeepConsistent(d: Door, chunks: seq<string>, ignoreErrors: bool)
    requires Consistent(d) && (d.target == Open || d.target == Closed)
    ensures Consistent(ReconciledAll(d, chunks, ignoreErrors))
    ensures ReconciledAll(d, chunks, ignoreErrors).target in {Open, Closed}
    decreases |chunks|
  {
    if chunks != [] {
      ReportsKeepConsistent(Reconciled(d, chunks[0], ignoreErrors), chunks[1..], ignoreErrors);
    }
  }

  lemma {:induction false} ReconciledAllSnoc(d: Door, chunks: seq<string>, last: string, ignoreErrors: bool)
    ensures ReconciledAll(d, chunks + [last], ignoreErrors)
         == Reconciled(ReconciledAll(d, chunks, ignoreErrors), last, ignoreErrors)
    decreases |chunks|
  {
    if chunks == [] {
      assert chunks + [last] == [last];
    } else {
      assert (chunks + [last])[1..] == chunks[1..] + [last];
      ReconciledAllSnoc(Reconciled(d, chunks[0], ignoreErrors), chunks[1..], last, ignoreErrors);
    }
  }

  /** A recognised last report decides the whole door, whatever came before it. */
  lemma LastRecognisedReportDecides(d: Door, e: Door, chunks: seq<string>, last: string, ignoreErrors: bool)
    requires Row(Suppress(ReportLine(last), ignoreErrors)).Some?
    ensures ReconciledAll(d, chunks + [last], ignoreErrors) == Reconciled(e, last, ignoreErrors)
  {
    ReconciledAllSnoc(d, chunks, last, ignoreErrors);
  }

  /** OPENING then OPEN: the current state goes 2 then 0, the target stays 0. */
  lemma OpeningThenOpen(d: Door, a: string, b: string, ignoreErrors: bool)
    requires ReportLine(a) == "OPENING" && ReportLine(b) == "OPEN"
    ensures Reconciled(d, a, ignoreErrors) == Door(Opening, Open, 0)
    ensures ReconciledAll(d, [a, b], ignoreErrors) == Door(Open, Open, 0)
  {
    var e := Reconciled(d, a, ignoreErrors);
    ReportTable(d, a, ignoreErrors);
    ReportTable(e, b, ignoreErrors);
    assert [a, b][1..] == [b] && [b][1..] == [];
    assert ReconciledAll(d, [a, b], ignoreErrors) == ReconciledAll(e, [b], ignoreErrors);
  }

  /** CLOSING then STOPPED: the current state goes 3 then 4, the obstruction is raised, the target stays 1. */
  lemma ClosingThenStopped(d: Door, a: string, b: string)
    requires ReportLine(a) == "CLOSING" && ReportLine(b) == "STOPPED"
    ensures Reconciled(d, a, false) == Door(Closing, Closed, 0)
    ensures ReconciledAll(d, [a, b], false) == Door(Stopped, Closed, 1)
  {
    var e := Reconciled(d, a, false);
    ReportTable(d, a, false);
    ReportTable(e, b, false);
    assert [a, b][1..] == [b] && [b][1..] == [];
    assert ReconciledAll(d, [a, b], false) == ReconciledAll(e, [b], false);
  }

  /** An open or close script. */
  datatype DoorCommand = OpenDoor | CloseDoor {
    /** The movement logged when the command is issued (`newstate`). */
    function Announced(): string {
      match this
      case OpenDoor => "OPENING"
      case CloseDoor => "CLOSING"
    }
  }

  /** The command a target set runs: 0 opens, 1 closes, any other value selects none. */
  function CommandFor(value: int): (c: Option<DoorCommand>)
    ensures c.Some? <==> value == Open || value == Closed
    ensures c == Some(OpenDoor) <==> value == Open
  {
    if value == Open then Some(OpenDoor)
    else if value == Closed then Some(CloseDoor)
    else None
  }

  /**
   * The write path agrees with the read path: once the door reports the movement a
   * target set announced, the reconciled target is the one that was set.
   */
  lemma CommandAgreesWithReports(value: int, d: Door, data: string, ignoreErrors: bool)
    requires CommandFor(value).Some?
    requires ReportLine(data) == CommandFor(value).value.Announced()
    ensures Reconciled(d, data, ignoreErrors) == Door(if value == Open then Opening else Closing, value, 0)
  {
  }

  /** A configuration string option after `config.x || default`: absent or empty takes the default. */
  function OrDefault(option: Option<string>, default: string): (r: string)
    ensures option.Some? && option.value != "" ==> r == option.value
    ensures (option.None? || option.value == "") ==> r == default
  {
    if option.Some? && option.value != "" then option.value else default
  }

  const DefaultSensorPath := "/sys/bus/w1/devices/w1_bus_master1"

  /** n copies of x */
  function Repeat(x: nat, n: nat): (r: seq<nat>)
    ensures |r| == n && forall i :: 0 <= i < n ==> r[i] == x
  {
    if n == 0 then [] else Repeat(x, n - 1) + [x]
  }

  class GarageDoorOpener {
    const ignoreErrors: bool
    const sensorPath: string
    var currentState: int
    var targetState: int
    var obstruction: int
    /** 1 while a shutdown is under way, so that the helper's exit is not taken for a crash. */
    var terminating: int
    var sensorSerialNumber: string
    var sensorData: string
    /** The helper processes spawned so far; the current one is number `helper` (0: none yet). */
    var helper: nat
    /** The shutdown listeners registered with the host, one per run of getServices. */
    var shutdownListeners: nat
    /** The helpers sent SIGHUP, in order. */
    var hangups: seq<nat>

    function DoorState(): Door
      reads this
    {
      Door(currentState, targetState, obstruction)
    }

    /** The constructor: configuration defaults, and a door assumed closed and unobstructed. */
    constructor (ignoreErrorsOption: Option<bool>, pathOption: Option<string>, serialOption: Option<string>)
      ensures ignoreErrors == (ignoreErrorsOption == Some(true))
      ensures sensorPath == OrDefault(pathOption, DefaultSensorPath)
      ensures sensorSerialNumber == OrDefault(serialOption, "")
      ensures DoorState() == Door(Closed, Closed, 0) && Consistent(DoorState())
      ensures terminating == 0 && sensorData == ""
      ensures helper == 0 && shutdownListeners == 0 && hangups == []
    {
      ignoreErrors := ignoreErrorsOption == Some(true);
      sensorPath := OrDefault(pathOption, DefaultSensorPath);
      sensorSerialNumber := OrDefault(serialOption, "");
      sensorData := "";
      currentState := 1;
      targetState := 1;
      obstruction := 0;
      terminating := 0;
      helper := 0;
      shutdownListeners := 0;
      hangups := [];
    }

    /**
     * getServices: locate the temperature sensor (`listing` is the bus master's slave
     * list, read only when no serial is configured), spawn a fresh helper with the
     * `terminating` flag cleared, and register one more shutdown listener. Says
     * whether the temperature service is among the services returned.
     */
    method GetServices(listing: string) returns (withTemperature: bool)
      modifies this
      ensures Sensor(sensorSerialNumber, sensorData) == ResolveSensor(old(sensorSerialNumber), sensorPath, listing)
      ensures withTemperature <==> sensorData != ""
      ensures terminating == 0 && helper == old(helper) + 1
      ensures shutdownListeners == old(shutdownListeners) + 1
      ensures DoorState() == old(DoorState()) && hangups == old(hangups)
    {
      var serial := Trim(sensorSerialNumber);
      var data := "";
      if serial == "" {
        var res := Trim(listing);
        if res != "" {
          serial := res;
          data := SensorDataPath(sensorPath, serial);
        }
      } else {
        data := SensorDataPath(sensorPath, serial);
      }
      sensorSerialNumber, sensorData := serial, data;
      terminating := 0;
      helper := helper + 1;
      shutdownListeners := shutdownListeners + 1;
      withTemperature := sensorSerialNumber != "";
    }

    /** updateDoorState: apply one chunk of helper output. */
    method UpdateDoorState(data: string)
      modifies this`currentState, this`targetState, this`obstruction
      ensures DoorState() == Reconciled(old(DoorState()), data, ignoreErrors)
    {
      var state := ReportLine(data);
      if state != [] {
        if state == "STOPPED" && ignoreErrors {
          state := "CLOSED";
        }
        obstruction := 0;
        var currentValue;
        if state == "OPEN" {
          currentValue := 0;
          targetState := 0;
        } else if state == "CLOSED" {
          currentValue := 1;
          targetState := 1;
        } else if state == "OPENING" {
          currentValue := 2;
          targetState := 0;
        } else if state == "CLOSING" {
          currentValue := 3;
          targetState := 1;
        } else {
          currentValue := 4;
          obstruction := 1;
        }
        currentState := currentValue;
      }
    }

    /** handleTargetDoorStateSet: record the target first, then choose the script to run. */
    method SetTargetDoorState(value: int) returns (command: Option<DoorCommand>)
      modifies this`targetState
      ensures targetState == value && command == CommandFor(value)
    {
      targetState := value;
      if value == 0 {
        command := Some(OpenDoor);
      } else if value == 1 {
        command := Some(CloseDoor);
      } else {
        command := None;
      }
    }

    /**
     * The helper's exit listener: unless a shutdown is under way, the exit is a crash
     * and getServices runs again, spawning exactly one new helper.
     */
    method HelperExited(listing: string) returns (restarted: bool)
      modifies this
      ensures restarted <==> old(terminating) == 0
      ensures restarted ==> helper == old(helper) + 1 && terminating == 0
                            && shutdownListeners == old(shutdownListeners) + 1
                            && Sensor(sensorSerialNumber, sensorData) == ResolveSensor(old(sensorSerialNumber), sensorPath, listing)
      ensures !restarted ==> helper == old(helper) && terminating == old(terminating)
                             && shutdownListeners == old(shutdownListeners)
                             && sensorSerialNumber == old(sensorSerialNumber) && sensorData == old(sensorData)
      ensures DoorState() == old(DoorState()) && hangups == old(hangups)
    {
      restarted := terminating == 0;
      if restarted {
        var _ := GetServices(listing);
      }
    }

    /**
     * The host's shutdown event: every registered listener sets `terminating` and then
     * sends SIGHUP to the current helper.
     */
    method Shutdown()
      modifies this`terminating, this`hangups
      ensures terminating == (if shutdownListeners > 0 then 1 else old(terminating))
      ensures hangups == old(hangups) + Repeat(helper, shutdownListeners)
    {
      if shutdownListeners > 0 {
        terminating := 1;
      }
      hangups := hangups + Repeat(helper, shutdownListeners);
    }
  }

  /** A helper that crashes after start-up is replaced by exactly one new helper. */
  method CrashRestartsHelper(ignoreErrors: Option<bool>, path: Option<string>, serial: Option<string>, listing: string) returns (restarted: bool, helpers: nat, terminating: int)
    ensures restarted && helpers == 2 && terminating == 0
  {
    var accessory := new GarageDoorOpener(ignoreErrors, path, serial);
    var _ := accessory.GetServices(listing);
    assert accessory.helper == 1 && accessory.terminating == 0;
    restarted := accessory.HelperExited(listing);
    helpers, terminating := accessory.helper, accessory.terminating;
  }

  /** The exit that follows a shutdown is not taken for a crash: no new helper is spawned. */
  method ShutdownSuppressesRestart(ignoreErrors: Option<bool>, path: Option<string>, serial: Option<string>, listing: string) returns (restarted: bool, helpers: nat, hangups: seq<nat>)
    ensures !restarted && helpers == 1 && hangups == [1]
  {
    var accessory := new GarageDoorOpener(ignoreErrors, path, serial);
    var _ := accessory.GetServices(listing);
    accessory.Shutdown();
    restarted := accessory.HelperExited(listing);
    helpers, hangups := accessory.helper, accessory.hangups;
  }

  /**
   * After one crash two shutdown listeners are registered, so the replacement helper
   * is sent SIGHUP twice, and its exit spawns nothing.
   */
  method ShutdownAfterCrash(ignoreErrors: Option<bool>, path: Option<string>, serial: Option<string>, listing: string) returns (restarted: bool, hangups: seq<nat>)
    ensures !restarted && hangups == [2, 2]
  {
    var accessory := new GarageDoorOpener(ignoreErrors, path, serial);
    var _ := accessory.GetServices(listing);
    assert accessory.helper == 1 && accessory.terminating == 0 && accessory.shutdownListeners == 1;
    var crashed := accessory.HelperExited(listing);
    assert accessory.helper == 2 && accessory.shutdownListeners == 2 && accessory.hangups == [];
    accessory.Shutdown();
    assert Repeat(2, 2) == [2, 2];
    assert accessory.terminating == 1 && accessory.hangups == [2, 2];
    restarted := accessory.HelperExited(listing);
    hangups := accessory.hangups;
  }
}
