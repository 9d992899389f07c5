/**
 * The LED flash-code decoder of garagedoormonitor.py: LED edges are recorded as
 * (time, colour) events, events older than the two-second flash window are aged
 * out, the remaining window is classified as a door state, and the main loop
 * prints a state only when it changes. Time is the parameter `now`, in seconds.
 */
module Monitor {
  import opened Wrappers

  // LED colours
  const LedOff := 0
  const LedRed := 1
  const LedGreen := 2
  const LedOrange := 3

  // State codes
  const StateNoInput := 0
  const StateOpen := 1
  const StateOpening := 2
  const StateClosed := 3
  const StateClosing := 4
  const StateError := 5
  const Indeterminate := 6

  /** Every flash code of the door controller lasts at most this long, in seconds. */
  const Window: real := 2.0

  /**
   * ledcolour: the colour shown by the two active-low LED inputs. For 0/1 levels the
   * green LED is lit exactly when the open input is low, and the red one exactly
   * when the close input is low; both lit is orange.
   */
  function LedColour(open: int, close: int): (c: int)
    ensures 0 <= c <= 3
    ensures (open == 0 || open == 1) && (close == 0 || close == 1) ==>
              ((c == LedGreen || c == LedOrange) <==> open == 0)
              && ((c == LedRed || c == LedOrange) <==> close == 0)
  {
    if open == 1 && close == 1 then LedOff
    else if open == 1 && close == 0 then LedRed
    else if open == 0 && close == 1 then LedGreen
    else if open == 0 && close == 0 then LedOrange
    else 0
  }

  /** One record of `eventlist`: when the LEDs changed, and to which colour. */
  datatype Event = Event(time: real, colour: int)

  /** The event is more than a flash window older than `now`. */
  predicate Expired(e: Event, now: real) {
    now - e.time > Window
  }

  /** No two adjacent events carry the same colour. */
  predicate NoRepeats(l: seq<Event>) {
    forall i :: 0 <= i < |l| - 1 ==> l[i].colour != l[i + 1].colour
  }

  /** Event times never decrease along the list. */
  predicate Chronological(l: seq<Event>) {
    forall i, j :: 0 <= i < j < |l| ==> l[i].time <= l[j].time
  }

  /**
   * The list TrimEvents leaves: a suffix of `l` obtained by dropping expired events
   * from the front, stopping at the first one that has not expired, except that
   * mode 1 never drops the newest event.
   */
  function Trimmed(l: seq<Event>, mode: int, now: real): seq<Event>
    decreases |l|
  {
    if l == [] then []
    else if Expired(l[0], now) then
      if |l| == 1 && mode == 1 then l else Trimmed(l[1..], mode, now)
    else l
  }

  /** Trimming keeps a suffix, and in mode 1 never empties a list. */
  lemma {:induction false} TrimmedSuffix(l: seq<Event>, mode: int, now: real)
    ensures var r := Trimmed(l, mode, now);
      && |r| <= |l| && r == l[|l| - |r|..]
      && (l != [] && mode == 1 ==> r != [])
    decreases |l|
  {
    if l != [] && Expired(l[0], now) && !(|l| == 1 && mode == 1) {
      TrimmedSuffix(l[1..], mode, now);
      var r := Trimmed(l, mode, now);
      assert l[1..][|l| - 1 - |r|..] == l[|l| - |r|..];
    }
  }

  /**
   * Only expired events are dropped, dropping stops at the first event that has not
   * expired, and the list is emptied only outside mode 1.
   */
  lemma {:induction false} TrimmedSpec(l: seq<Event>, mode: int, now: real)
    ensures var r := Trimmed(l, mode, now);
      && (forall i :: 0 <= i < |l| - |r| ==> Expired(l[i], now))
      && (r != [] ==> !Expired(r[0], now) || (mode == 1 && |r| == 1))
      && (r == [] <==> l == [] || (mode != 1 && forall i :: 0 <= i < |l| ==> Expired(l[i], now)))
    decreases |l|
  {
    TrimmedSuffix(l, mode, now);
    if l != [] && Expired(l[0], now) && !(|l| == 1 && mode == 1) {
      TrimmedSpec(l[1..], mode, now);
      TrimmedSuffix(l[1..], mode, now);
      var r := Trimmed(l, mode, now);
      forall i | 0 <= i < |l| - |r| ensures Expired(l[i], now) {
        if i > 0 { assert l[i] == l[1..][i - 1]; }
      }
      if r == [] && l != [] {
        forall i | 0 <= i < |l| ensures Expired(l[i], now) {
          if i > 0 { assert l[i] == l[1..][i - 1]; }
        }
      }
    }
  }

  /** The list after StatusChange records a reading: appended only when its colour is new. */
  function Recorded(l: seq<Event>, e: Event): (r: seq<Event>)
    ensures r == l + [e] <==> l == [] || l[|l| - 1].colour != e.colour
    ensures r != l + [e] ==> r == l
    ensures r != [] && r[|r| - 1].colour == e.colour
  {
    if l == [] || l[|l| - 1].colour != e.colour then l + [e] else l
  }

  predicate HasOrange(l: seq<Event>) {
    exists i :: 0 <= i < |l| && l[i].colour == LedOrange
  }

  /** The steady-state reading of a colour that has not changed for a whole window. */
  function Steady(colour: int): (r: int)
    ensures r == StateNoInput <==> colour == LedOff
    ensures r == StateOpen <==> colour == LedGreen
    ensures r == StateClosed <==> colour == LedRed
    ensures r == StateError <==> colour == LedOrange
    ensures r == Indeterminate <==> !(LedOff <= colour <= LedOrange)
    ensures r != StateOpening && r != StateClosing
  {
    if colour == LedOff then StateNoInput
    else if colour == LedGreen then StateOpen
    else if colour == LedRed then StateClosed
    else if colour == LedOrange then StateError
    else Indeterminate
  }

  /**
   * The state DetermineState reads off a trimmed window: no events is no input; a
   * newest event older than the window is a steady colour; otherwise any orange is
   * an error, and off-then-green or off-then-red is the door moving.
   */
  function Classify(l: seq<Event>, now: real): (r: int)
    ensures 0 <= r <= 6
  {
    if l == [] then StateNoInput
    else if Expired(l[|l| - 1], now) then Steady(l[|l| - 1].colour)
    else if HasOrange(l) then StateError
    else if l[|l| - 1].colour == LedOff then Indeterminate
    else if |l| == 2 && l[0].colour == LedOff && l[1].colour == LedGreen then StateOpening
    else if |l| == 2 && l[0].colour == LedOff && l[1].colour == LedRed then StateClosing
    else Indeterminate
  }

  /**
   * What Classify reads off a window, case by case: inside the window, anything but
   * an error or one of the two movement codes is indeterminate.
   */
  lemma ClassifySpec(l: seq<Event>, now: real)
    ensures var r := Classify(l, now);
      && (l == [] ==> r == StateNoInput)
      && (l != [] && Expired(l[|l| - 1], now) ==> r == Steady(l[|l| - 1].colour))
      && (l != [] && !Expired(l[|l| - 1], now) ==> (r == StateError <==> HasOrange(l)))
      && (l != [] && !Expired(l[|l| - 1], now) && !HasOrange(l) && l[|l| - 1].colour == LedOff
          ==> r == Indeterminate)
      && (l != [] && !Expired(l[|l| - 1], now) && !HasOrange(l) && r != StateOpening && r != StateClosing
          ==> r == Indeterminate)
      && (l != [] && !Expired(l[|l| - 1], now)
          ==> r == StateError || r == StateOpening || r == StateClosing || r == Indeterminate)
      && (r == StateOpening <==>
           |l| == 2 && !Expired(l[1], now) && l[0].colour == LedOff && l[1].colour == LedGreen)
      && (r == StateClosing <==>
           |l| == 2 && !Expired(l[1], now) && l[0].colour == LedOff && l[1].colour == LedRed)
  {
  }

  /** A window whose only, fresh record is not orange is indeterminate, so a new steady colour is not reported at once. */
  lemma FreshChangeIndeterminate(e: Event, now: real)
    requires !Expired(e, now) && e.colour != LedOrange
    ensures Classify([e], now) == Indeterminate
  {
    assert !HasOrange([e]) by {
      forall i | 0 <= i < 1 ensures [e][i].colour != LedOrange { }
    }
  }

  /** StateValToText: the token the helper prints for a state; "" for anything else. */
  function StateValToText(state: int): (t: string)
    ensures t == "" <==> !(0 <= state <= 5)
    ensures t == "STOPPED" <==> state == StateNoInput || state == StateError
    ensures t == "OPEN" <==> state == StateOpen
    ensures t == "OPENING" <==> state == StateOpening
    ensures t == "CLOSED" <==> state == StateClosed
    ensures t == "CLOSING" <==> state == StateClosing
  {
    if state == StateNoInput then "STOPPED"
    else if state == StateOpen then "OPEN"
    else if state == StateOpening then "OPENING"
    else if state == StateClosed then "CLOSED"
    else if state == StateClosing then "CLOSING"
    else if state == StateError then "STOPPED"
    else ""
  }

  /** The states the main loop has printed, in order, ending in `laststate`. */
  predicate ReportLog(emitted: seq<int>, laststate: int) {
    (emitted == [] ==> laststate == -1)
    && (emitted != [] ==> laststate == emitted[|emitted| - 1])
    && (forall i :: 0 <= i < |emitted| ==> 0 <= emitted[i] <= 5)
    && (forall i :: 0 <= i < |emitted| - 1 ==> emitted[i] != emitted[i + 1])
  }

  class DoorMonitor {
    var eventlist: seq<Event>
    var laststate: int
    /** The states printed so far. */
    ghost var emitted: seq<int>

    /** The records are in time order with no colour repeated, and `laststate` ends the printed log. */
    ghost predicate Valid()
      reads this
    {
      NoRepeats(eventlist) && Chronological(eventlist) && ReportLog(emitted, laststate)
    }

    /** The script's globals before the main program runs. */
    constructor ()
      ensures Valid() && eventlist == [] && laststate == -1 && emitted == []
    {
      eventlist := [];
      laststate := -1;
      emitted := [];
    }

    /** TrimEvents: age out expired records in place; 1 exactly when some record is left. */
    method TrimEvents(mode: int, now: real) returns (retval: int)
      requires Valid()
      modifies this`eventlist
      ensures Valid()
      ensures eventlist == Trimmed(old(eventlist), mode, now)
      ensures retval == (if eventlist == [] then 0 else 1)
    {
      retval := 0;
      var done := false;
      if eventlist != [] {
        while |eventlist| >= 1 && !done
          invariant Trimmed(eventlist, mode, now) == Trimmed(old(eventlist), mode, now)
          invariant done ==> eventlist == Trimmed(old(eventlist), mode, now)
          decreases |eventlist| + (if done then 0 else 1)
        {
          if now - eventlist[0].time > Window {
            if |eventlist| == 1 && mode == 1 {
              done := true;
            } else {
              eventlist := eventlist[1..];
            }
          } else {
            done := true;
          }
        }
      }
      if eventlist != [] {
        retval := 1;
      }
      TrimmedNoRepeats(old(eventlist), mode, now);
      TrimmedChronological(old(eventlist), mode, now);
    }

    /**
     * StatusChange: read the colour at the edge, record it if it differs from the
     * newest record, then age out old records but keep the newest. The clock does
     * not run backwards: `now` is no earlier than the newest record.
     */
    method StatusChange(now: real, openLevel: int, closeLevel: int)
      requires Valid()
      requires eventlist != [] ==> eventlist[|eventlist| - 1].time <= now
      modifies this`eventlist
      ensures Valid()
      ensures eventlist == Trimmed(Recorded(old(eventlist), Event(now, LedColour(openLevel, closeLevel))), 1, now)
      ensures eventlist != [] && eventlist[|eventlist| - 1].colour == LedColour(openLevel, closeLevel)
    {
      var eventdata := Event(now, LedColour(openLevel, closeLevel));
      if eventlist != [] {
        if eventlist[|eventlist| - 1].colour != eventdata.colour {
          eventlist := eventlist + [eventdata];
        }
      } else {
        eventlist := eventlist + [eventdata];
      }
      RecordedNoRepeats(old(eventlist), eventdata);
      RecordedChronological(old(eventlist), eventdata);
      ghost var recorded := eventlist;
      if eventlist != [] {
        var _ := TrimEvents(1, now);
      }
      TrimKeepsNewest(recorded, now);
    }

    /** DetermineState: trim the window, keeping the newest record, and classify it. */
    method DetermineState(now: real) returns (retval: int)
      requires Valid()
      modifies this`eventlist
      ensures Valid()
      ensures eventlist == Trimmed(old(eventlist), 1, now)
      ensures retval == Classify(eventlist, now)
      ensures old(eventlist) != [] && Expired(old(eventlist)[|old(eventlist)| - 1], now)
              ==> retval == Steady(old(eventlist)[|old(eventlist)| - 1].colour)
    {
      retval := Indeterminate;
      if eventlist != [] {
        if Expired(eventlist[|eventlist| - 1], now) {
          SteadyState(eventlist, now);
        }
        var _ := TrimEvents(1, now);
      }
      var events := eventlist;
      if events == [] {
        retval := StateNoInput;
      } else {
        var newest := events[|events| - 1];
        if now - newest.time > Window {
          if newest.colour == LedOff {
            retval := StateNoInput;
          } else if newest.colour == LedGreen {
            retval := StateOpen;
          } else if newest.colour == LedRed {
            retval := StateClosed;
          } else if newest.colour == LedOrange {
            retval := StateError;
          }
        } else {
          var i := 0;
          while i < |events|
            invariant 0 <= i <= |events|
            invariant retval == StateError || retval == Indeterminate
            invariant retval == StateError <==> exists j :: 0 <= j < i && events[j].colour == LedOrange
          {
            if events[i].colour == LedOrange {
              retval := StateError;
            }
            i := i + 1;
          }
          if retval != StateError {
            if newest.colour == LedOff {
              retval := Indeterminate;
            } else if |events| == 2 {
              if events[0].colour == LedOff {
                if events[1].colour == LedGreen {
                  retval := StateOpening;
                } else if events[1].colour == LedRed {
                  retval := StateClosing;
                }
              }
            }
          }
        }
      }
    }

    /**
     * One pass of the main loop: determine the state and print its token when it is
     * determinate and differs from the last one printed. Returns what was printed.
     */
    method Poll(now: real) returns (line: Option<string>)
      requires Valid()
      modifies this
      ensures Valid()
      ensures eventlist == Trimmed(old(eventlist), 1, now)
      ensures var s := Classify(eventlist, now);
        if s != old(laststate) && s != Indeterminate then
          laststate == s && emitted == old(emitted) + [s] && line == Some(StateValToText(s) + "\n")
        else
          laststate == old(laststate) && emitted == old(emitted) && line == None
    {
      var newstate := DetermineState(now);
      line := None;
      if newstate != laststate {
        if newstate != Indeterminate {
          laststate := newstate;
          emitted := emitted + [newstate];
          line := Some(StateValToText(newstate) + "\n");
        }
      }
    }
  }

  lemma RecordedNoRepeats(l: seq<Event>, e: Event)
    requires NoRepeats(l)
    ensures NoRepeats(Recorded(l, e))
    ensures Recorded(l, e) != [] && Recorded(l, e)[|Recorded(l, e)| - 1].colour == e.colour
  {
  }

  /** Trimming keeps a suffix, so it keeps the list free of repeated colours. */
  lemma TrimmedNoRepeats(l: seq<Event>, mode: int, now: real)
    requires NoRepeats(l)
    ensures NoRepeats(Trimmed(l, mode, now))
  {
    TrimmedSuffix(l, mode, now);
    var r := Trimmed(l, mode, now);
    var k := |l| - |r|;
    forall i | 0 <= i < |r| - 1 ensures r[i].colour != r[i + 1].colour {
      assert r[i] == l[k + i] && r[i + 1] == l[k + i + 1];
    }
  }

  /** Recording an event no older than the newest record keeps the list in time order. */
  lemma RecordedChronological(l: seq<Event>, e: Event)
    requires Chronological(l) && (l != [] ==> l[|l| - 1].time <= e.time)
    ensures Chronological(Recorded(l, e))
  {
    var r := Recorded(l, e);
    forall i, j | 0 <= i < j < |r| ensures r[i].time <= r[j].time {
      if j == |l| {
        assert r[i] == l[i] && r[j] == e;
        assert l[i].time <= l[|l| - 1].time;
      } else {
        assert r[i] == l[i] && r[j] == l[j];
      }
    }
  }

  /** Trimming keeps a suffix, so it keeps the list in time order. */
  lemma TrimmedChronological(l: seq<Event>, mode: int, now: real)
    requires Chronological(l)
    ensures Chronological(Trimmed(l, mode, now))
  {
    TrimmedSuffix(l, mode, now);
    var r := Trimmed(l, mode, now);
    var k := |l| - |r|;
    forall i, j | 0 <= i < j < |r| ensures r[i].time <= r[j].time {
      assert r[i] == l[k + i] && r[j] == l[k + j];
    }
  }

  /** In mode 1 the newest record always survives. */
  lemma TrimKeepsNewest(l: seq<Event>, now: real)
    requires l != []
    ensures Trimmed(l, 1, now) != []
    ensures Trimmed(l, 1, now)[|Trimmed(l, 1, now)| - 1] == l[|l| - 1]
  {
    TrimmedSuffix(l, 1, now);
  }

  /** When every record has expired, mode 1 keeps the newest alone. */
  lemma {:induction false} AllExpiredKeepsNewest(l: seq<Event>, now: real)
    requires l != [] && forall i :: 0 <= i < |l| ==> Expired(l[i], now)
    ensures Trimmed(l, 1, now) == [l[|l| - 1]]
    decreases |l|
  {
    if |l| > 1 {
      assert Expired(l[0], now);
      forall i | 0 <= i < |l| - 1 ensures Expired(l[1..][i], now) {
        assert l[1..][i] == l[i + 1];
      }
      AllExpiredKeepsNewest(l[1..], now);
    }
  }

  /** When even the newest record of a chronological list has expired, mode 1 keeps it alone. */
  lemma SteadyWindow(l: seq<Event>, now: real)
    requires l != [] && Chronological(l) && Expired(l[|l| - 1], now)
    ensures Trimmed(l, 1, now) == [l[|l| - 1]]
  {
    forall i | 0 <= i < |l| ensures Expired(l[i], now) {
      if i < |l| - 1 {
        assert l[i].time <= l[|l| - 1].time;
      }
    }
    AllExpiredKeepsNewest(l, now);
  }

  /** A chronological window whose newest colour has held for two seconds reads as that colour. */
  lemma SteadyState(l: seq<Event>, now: real)
    requires l != [] && Chronological(l) && Expired(l[|l| - 1], now)
    ensures Classify(Trimmed(l, 1, now), now) == Steady(l[|l| - 1].colour)
  {
    SteadyWindow(l, now);
  }

  /** Two different states print the same token only when they are no-input and error. */
  lemma TokensDistinguishStates(a: int, b: int)
    requires 0 <= a <= 5 && 0 <= b <= 5 && a != b
    requires StateValToText(a) == StateValToText(b)
    ensures {a, b} == {StateNoInput, StateError}
  {
  }
}
