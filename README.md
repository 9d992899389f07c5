# RollerTec garage door accessory — a Dafny model

This project models the two programs of a HomeBridge plugin for a PDT RollerTec garage door.

- **The monitor helper** (`garagedoormonitor.py`) watches the door controller's two status LEDs. It records each change of LED colour as a timed event. It ages out events older than the two-second flash window. It reads the remaining window as a door state, and prints a state token (`OPEN`, `OPENING`, `CLOSED`, `CLOSING`, `STOPPED`) only when the state changes.
- **The accessory** (`index.js`) consumes the helper's output.
  - It reconciles each line into three retained values: `currentState`, `targetState` and `obstruction`.
  - It records the target HomeKit sets and chooses the open or close script.
  - It restarts the helper when the helper exits unexpectedly, using a `terminating` flag set on shutdown to tell crashes apart.
  - It locates an optional DS18B20 temperature sensor and reads its 1-Wire `w1_slave` file.

Modules:

- `Wrappers`: an `Option` type.
- `Text`: the JavaScript built-ins the accessory relies on, as total functions. These are `trim` (the ECMAScript white-space set), `split(sep)[k]` (with `undefined` as `None`), `endsWith`, and the global `parseInt` with no radix (leading white space, sign, `0x` gives hexadecimal, the longest digit prefix, NaN as `None`).
- `Temperature`: the sensor lookup of `getServices` and the parse of the data file in `getTemperature`.
- `Accessory`:
  - the report reconciliation of `updateDoorState`, as the function `Reconciled` and the lemmas about it;
  - the class `GarageDoorOpener`, whose methods update the fields in place as the JavaScript object does, including the helper lifecycle of `getServices`.
- `Monitor`:
  - the LED decoding as functions: `LedColour`, `Trimmed`, `Classify`, `StateValToText`;
  - the class `DoorMonitor`, whose `eventlist` and `laststate` are updated in place by `TrimEvents`, `StatusChange`, `DetermineState`, and one pass of the main loop (`Poll`).
- `Bridge`: the two programs joined. What the helper prints is what `updateDoorState` receives, so after any run of printed states the accessory shows the last one.

Time, the GPIO levels, the sensor listing and the text of the data file are parameters of the model.

Some behaviour of the code, as modelled:

- **Blank reports.** A report that is empty after trimming changes nothing. The code only logs a warning; it does not set the door to STOPPED.
- **Shutdown listeners.** Every run of `getServices`, including each restart after a crash, registers one more host shutdown listener. The model counts them (`shutdownListeners`), and on shutdown the current helper is sent one SIGHUP per registered listener. `ShutdownAfterCrash` shows the consequence: after one crash, the replacement helper receives two SIGHUPs.
- **Unrecognised tokens.** A token the report table does not know, such as `FOO`, is treated as STOPPED with an obstruction. The target is left as it was.
- **Other target values.** A target value other than 0 or 1 is still recorded, but no command is chosen (`CommandFor` gives `None`).

## Model

| member | source | states |
|---|---|---|
| `Text.IsJsSpace` | index.js:91 | the ECMAScript WhiteSpace and LineTerminator code points, which `trim` strips and `parseInt` skips. What it decides is stated by `Text.TrimSpec`, `Text.TrimStartSpec`, `Text.TrimEndSpec` and `Text.ParseIntSkipsSpace` |
| `Text.TrimStart` | index.js:95 | String.prototype.trim's leading half: drop white space from the front. Its contract is `Text.TrimStartSpec` |
| `Text.TrimEnd` | index.js:169 | trim's trailing half: drop white space from the end. Its contract is `Text.TrimEndSpec` |
| `Text.Trim` | index.js:91-95 | String.prototype.trim, as the trailing trim of the leading trim. Its contract is `Text.TrimSpec` |
| `Text.TrimSpec` | index.js:91-95 | `trim` yields the empty string exactly when the text is all white space; otherwise neither end of the result is white space |
| `Text.TrimStartSpec` | index.js:95 | leading trim keeps a suffix, drops only white space, and stops at the first non-space |
| `Text.TrimEndSpec` | index.js:169 | trailing trim keeps a prefix, drops only white space, and stops at the last non-space |
| `Text.TrimEndAfterWord` | index.js:169 | trailing white space after a word is removed from the tail only: `TrimEnd(a + b) == a + TrimEnd(b)` |
| `Text.IndexOf` | index.js:169 | the position `split` cuts at is the first occurrence of the separator, or there is none anywhere |
| `Text.Segment` | index.js:289-294 | `split(sep)[0]` always exists, and no piece of a split contains the separator |
| `Text.SplitAfter` | index.js:289-294 | splitting `a + sep + b`, where `a` holds no separator start, cuts right after `a`: piece 0 is `a` and piece k+1 is piece k of `b` |
| `Text.NoSeparatorStart` | index.js:169 | text none of whose characters starts the separator holds no occurrence of it |
| `Text.SplitWhole` | index.js:169 | text in which the separator occurs nowhere splits into itself alone, with no piece 1 |
| `Text.EndsWith` | index.js:290 | String.prototype.endsWith. Its contract is `Text.EndsWithAppend` |
| `Text.EndsWithAppend` | index.js:290 | text ends with a suffix exactly when the suffix is no longer than the text and the text is its own front part followed by the suffix |
| `Text.DigitRun` | index.js:295 | the digits parseInt reads: a prefix of the text, every character a digit of the radix, and followed by a non-digit of the radix or by nothing. Those three facts make it the longest such prefix |
| `Text.DigitsValue` | index.js:295 | the number a digit string denotes in a radix, most significant digit first. Its meaning is stated by `Text.DecimalValue` (`Decimal(n)` denotes `n`) and used by `Text.MagnitudeDecimal` and `Text.MagnitudeHex` |
| `Text.DigitRunWhole` | index.js:295 | a string made only of digits is read by `parseInt` to its end |
| `Text.DecimalValue` | index.js:295 | a decimal numeral's digits denote the number it was written from |
| `Text.MagnitudeDecimal` | index.js:295 | any non-empty run of decimal digits, leading zeros included (`007` is 7), has its base-10 value as its magnitude |
| `Text.ParseInt` | index.js:295 | the global parseInt with no radix: skip leading white space, then read the sign and magnitude. Its contract is in `Text.ParseIntSkipsSpace`, `Text.ParseIntDigits`, `Text.ParseIntNegative` and `Text.ParseIntNumeral` |
| `Text.TrimStartSpace` | index.js:295 | white space in front of a non-space is dropped as a whole: `TrimStart(w + t) == t` |
| `Text.ParseIntSkipsSpace` | index.js:295 | parseInt of white space then text that starts with a non-space is decided by that text alone: `ParseInt(w + t) == Signed(t)` |
| `Text.Signed` | index.js:295 | parseInt past the white space: `-` negates, `+` is skipped, and no digit is NaN. Stated by `Text.ParseIntNegative`, `Text.ParseIntPositive`, `Text.ParseIntSignWithoutDigit` and `Text.ParseIntNoDigit` |
| `Text.Magnitude` | index.js:295 | parseInt's unsigned part: hexadecimal after `0x`/`0X`, otherwise decimal, up to the first non-digit. Stated by `Text.DigitRun` (the reading stops at the first non-digit of the radix, in hexadecimal too), `Text.MagnitudeDecimal`, `Text.MagnitudeUpToNonDigit`, `Text.MagnitudeHex` and `Text.MagnitudeHexNoDigit` |
| `Text.DigitRunStops` | index.js:295 | a prefix of digits followed by a non-digit, or by the end, is exactly the digit run parseInt reads |
| `Text.MagnitudeUpToNonDigit` | index.js:295 | a decimal magnitude ends at the first non-digit (`12abc` is 12), unless the text starts `0x`/`0X` |
| `Text.MagnitudeHex` | index.js:295 | after `0x` or `0X`, a non-empty run of hexadecimal digits in either case is read in base 16 |
| `Text.MagnitudeHexNoDigit` | index.js:295 | `0x` or `0X` with no hexadecimal digit after it is NaN |
| `Text.ParseIntPositive` | index.js:295 | a plus sign is skipped: `+` and a non-empty run of decimal digits parse to the digits' value |
| `Text.ParseIntSignWithoutDigit` | index.js:295 | a sign with no decimal digit after it is NaN |
| `Text.ParseIntNoDigit` | index.js:295 | text starting with a character that is not white space, not a sign and not a decimal digit is NaN |
| `Text.ParseIntDigits` | index.js:295 | `parseInt` of any non-empty run of decimal digits is its base-10 value |
| `Text.ParseIntNegative` | index.js:295 | `parseInt` of a minus sign and a non-empty run of decimal digits is the negated value |
| `Text.ParseIntNumeral` | index.js:295 | `parseInt` reads back every integer written in decimal (`%d`) exactly: the round trip of the driver's output |
| `Temperature.SensorDataPath` | index.js:99 | the data file is the sensor path, `/`, the serial number, then `/w1_slave`, in that order and of exactly that length |
| `Temperature.ResolveSensor` | index.js:90-108 | the sensor lookup of getServices. Its contract is `Temperature.ResolveSensorSpec` |
| `Temperature.ResolveSensorSpec` | index.js:90-108 | a data file is queried exactly when a serial is in use, and it is that serial's file. A configured non-blank serial is used trimmed, in preference to the listing; otherwise the trimmed listing is used. There is no sensor exactly when both are blank |
| `Temperature.Temperature` | index.js:280-306 | no sensor reads as 0; a failed read is an error; otherwise the file text decides |
| `Temperature.FromFile` | index.js:289-294 | a CRC error exactly when line 1 does not end in `YES`; else a missing line 2 (the TypeError) or the reading of line 2 |
| `Temperature.FromSecondLine` | index.js:294-295 | a reading exactly when there is a `t=` and `parseInt` of what follows is a number, and then it is that number; NaN otherwise |
| `Temperature.ReadsSecondLine` | index.js:294-295 | a line 2 of the form `raw t=<numeral>` reads as the numeral's value |
| `Temperature.ReadsLines` | index.js:289-294 | after a line 1 ending in `YES`, line 2 alone decides the reading, whatever follows it |
| `Temperature.ReadsDriverFile` | index.js:280-298 | any data file in the driver's layout reads back the millidegree value the driver wrote |
| `Temperature.ReadsExample` | index.js:289-298 | the file `... YES` / `... t=21500` reads as 21500 millidegrees |
| `Accessory.ReportLine` | index.js:169 | the line acted on is empty exactly when the payload is all white space, and it holds no line break |
| `Accessory.Row` | index.js:177-193 | exactly the four tokens OPEN, CLOSED, OPENING, CLOSING have a row. The row's current state is 0..3, and its target is open for OPEN/OPENING and closed for CLOSED/CLOSING |
| `Accessory.Suppress` | index.js:172-174 | with ignore_errors no STOPPED survives, and the only line ever changed is STOPPED, into CLOSED |
| `Accessory.ReconciledAll` | index.js:121-126 | the chunks of helper output applied in arrival order. Its contract is in `Accessory.ReconciledAllSnoc` and `Accessory.ReportsKeepConsistent` |
| `Accessory.Reconciled` | index.js:169-206 | a blank payload changes nothing. Any other payload leaves the door consistent: a state 0..4, and the obstruction raised exactly in STOPPED. The target is either unchanged or 0/1 |
| `Accessory.FirstLineOnly` | index.js:169 | only the first line of a payload counts: anything after a bare report line is ignored |
| `Accessory.ReportTable` | index.js:176-198 | the report table row by row: OPEN is (0,0), CLOSED is (1,1), OPENING is (2,0), CLOSING is (3,1), each with the obstruction clear. STOPPED without ignore_errors, and every unknown token, are state 4 with the obstruction raised and the target kept |
| `Accessory.IgnoreErrorsEffect` | index.js:172-174 | with ignore_errors, STOPPED acts exactly as CLOSED does and differs from the unsuppressed result; every other report is unaffected |
| `Accessory.ReportIdempotent` | index.js:169-203 | applying the same report twice equals applying it once |
| `Accessory.ReportsKeepConsistent` | index.js:169-203 | after any run of reports the door stays consistent and its target stays 0 or 1 |
| `Accessory.ReconciledAllSnoc` | index.js:121-126 | reports are applied in arrival order: one more chunk is one more reconciliation |
| `Accessory.LastRecognisedReportDecides` | index.js:176-193 | a recognised last report fixes the whole door, whatever history preceded it |
| `Accessory.OpeningThenOpen` | index.js:178-189 | OPENING then OPEN: the state goes 2 then 0 while the target stays 0 |
| `Accessory.ClosingThenStopped` | index.js:190-197 | CLOSING then STOPPED: the state goes 3 then 4, the obstruction is raised, and the target stays 1 |
| `Accessory.CommandFor` | index.js:236-244 | a command is chosen exactly for targets 0 and 1, and it is the open command exactly for 0 |
| `Accessory.CommandAgreesWithReports` | index.js:235-244 | once the door reports the movement a target set announced, the reconciled target is the value that was set |
| `Accessory.OrDefault` | index.js:33-40 | a configuration string that is absent or empty takes its default; any other value is kept |
| `Accessory.GarageDoorOpener.constructor` | index.js:22-75 | configuration defaults. The door starts closed (1/1) and unobstructed, not terminating, with no helper and no sensor data |
| `Accessory.GarageDoorOpener.GetServices` | index.js:88-144 | the sensor fields become `ResolveSensor` of the old serial, and the temperature service is returned exactly when a sensor is in use. `terminating` is cleared, exactly one new helper is spawned, one more shutdown listener is registered, and the door is untouched |
| `Accessory.GarageDoorOpener.UpdateDoorState` | index.js:163-207 | the retained door becomes `Reconciled` of the old one; no other field changes |
| `Accessory.GarageDoorOpener.SetTargetDoorState` | index.js:230-244 | the target is recorded whatever the value, and the command is `CommandFor(value)` |
| `Accessory.GarageDoorOpener.HelperExited` | index.js:128-134 | a restart happens exactly when `terminating` is 0, and then getServices runs once more; otherwise nothing changes |
| `Accessory.GarageDoorOpener.Shutdown` | index.js:137-141 | every registered listener sets `terminating` and sends SIGHUP to the current helper |
| `Accessory.CrashRestartsHelper` | index.js:128-134 | a crash after start-up spawns exactly one replacement helper, with `terminating` still 0 |
| `Accessory.ShutdownSuppressesRestart` | index.js:128-141 | the exit that follows a shutdown spawns nothing, and the single helper received one SIGHUP |
| `Accessory.ShutdownAfterCrash` | index.js:128-141 | after a crash and restart, shutdown sends the second helper two SIGHUPs (two listeners), and its exit spawns nothing |
| `Monitor.LedColour` | garagedoormonitor.py:82-90 | a colour is 0..3. For 0/1 levels, green is lit exactly when the open input is low and red exactly when the close input is low (active low); both lit is orange |
| `Monitor.Expired` | garagedoormonitor.py:106 | `time.time() - e[0] > 2`, also the test at garagedoormonitor.py:163: a record is older than the two-second window. What it decides is stated by `Monitor.TrimmedSpec` and `Monitor.ClassifySpec` |
| `Monitor.Trimmed` | garagedoormonitor.py:104-109 | the list TrimEvents leaves. Its contract is `Monitor.TrimmedSuffix` and `Monitor.TrimmedSpec` |
| `Monitor.TrimmedSuffix` | garagedoormonitor.py:93-114 | trimming keeps a suffix of the list, and mode 1 never empties a non-empty list |
| `Monitor.TrimmedSpec` | garagedoormonitor.py:105-109 | only expired events are dropped, and dropping stops at the first unexpired event or at the last one in mode 1. The list is emptied exactly when it was empty, or outside mode 1 when every event had expired |
| `Monitor.Steady` | garagedoormonitor.py:163-167 | the steady-colour table, in both directions: NOINPUT exactly for OFF, OPEN exactly for GREEN, CLOSED exactly for RED, ERROR exactly for ORANGE, and indeterminate exactly for a colour outside 0..3; a steady colour is never a movement |
| `Monitor.HasOrange` | garagedoormonitor.py:169-171 | some record of the window is orange. `Monitor.ClassifySpec` states that within the window the state is ERROR exactly when it holds, and `Monitor.DoorMonitor.DetermineState` proves its loop computes it |
| `Monitor.Classify` | garagedoormonitor.py:153-182 | the state read off a trimmed window, 0..6. Its case-by-case contract is `Monitor.ClassifySpec` |
| `Monitor.ClassifySpec` | garagedoormonitor.py:147-184 | no events is no input; an expired newest event is its steady colour. Otherwise the window is an error exactly when it holds orange. It is OPENING exactly for off-then-green and CLOSING exactly for off-then-red, in a two-event window. Anything else inside the window is indeterminate, with nothing beyond these four |
| `Monitor.FreshChangeIndeterminate` | garagedoormonitor.py:175-182 | a window holding only one fresh record that is not orange is indeterminate, so a new steady colour is not reported until it has held for the window |
| `Monitor.StateValToText` | garagedoormonitor.py:187-197 | the token per state, each in both directions: STOPPED exactly for no input and error, and the empty string exactly outside 0..5 |
| `Monitor.DoorMonitor.constructor` | garagedoormonitor.py:56-63 | an empty event list (garagedoormonitor.py:63) and no state reported yet, `laststate` -1 (garagedoormonitor.py:220) |
| `Monitor.DoorMonitor.TrimEvents` | garagedoormonitor.py:93-114 | the list becomes `Trimmed` of the old one in place, and the result is 1 exactly when an event is left. The records stay in time order with no colour repeated |
| `Monitor.DoorMonitor.StatusChange` | garagedoormonitor.py:118-140 | the colour is appended only when it differs from the newest record, then the list is trimmed in mode 1. The newest record always carries the colour just read. Given a clock that does not run backwards, the records stay in time order and no two adjacent records share a colour |
| `Monitor.DoorMonitor.DetermineState` | garagedoormonitor.py:147-184 | the list is trimmed in mode 1 and the result is `Classify` of the trimmed window. When the newest record has expired, the result is that colour's steady state |
| `Monitor.DoorMonitor.Poll` | garagedoormonitor.py:220-241 | a determinate state that differs from the last one is printed as its token and a line break, and recorded. Otherwise nothing is printed, and `laststate` and the printed log stay as they were, so no two consecutive printed states are equal. The event list is trimmed in mode 1 on every pass |
| `Monitor.Recorded` | garagedoormonitor.py:134-138 | the event is appended exactly when the list is empty or its newest colour differs; otherwise the list is unchanged. Either way the newest colour is the event's |
| `Monitor.RecordedNoRepeats` | garagedoormonitor.py:134-138 | recording keeps adjacent colours distinct and leaves the new colour newest |
| `Monitor.TrimmedNoRepeats` | garagedoormonitor.py:93-114 | trimming keeps adjacent colours distinct |
| `Monitor.RecordedChronological` | garagedoormonitor.py:135-138 | recording an event no older than the newest record keeps the list in time order |
| `Monitor.TrimmedChronological` | garagedoormonitor.py:105-108 | trimming keeps the list in time order |
| `Monitor.TrimKeepsNewest` | garagedoormonitor.py:107 | in mode 1 the newest record always survives trimming |
| `Monitor.AllExpiredKeepsNewest` | garagedoormonitor.py:105-108 | when every record has expired, mode 1 keeps the newest alone |
| `Monitor.SteadyWindow` | garagedoormonitor.py:105-108 | in a chronological list whose newest record has expired, mode 1 keeps that record alone |
| `Monitor.SteadyState` | garagedoormonitor.py:155-161 | a colour held for longer than the window reads as its steady state |
| `Monitor.TokensDistinguishStates` | garagedoormonitor.py:187-197 | two different states print the same token only when they are no input and error |
| `Bridge.ShownState` | index.js:172-197 | the HomeKit state a printed monitor state shows, 0..4. It is STOPPED exactly for no input and error without ignore_errors |
| `Bridge.PrintedTokenIsBare` | garagedoormonitor.py:241 | every token the helper prints is already trimmed and holds no line break |
| `Bridge.PrintedLineReconciles` | index.js:169-203 | a printed state shows as its HomeKit state (STOPPED as CLOSED under ignore_errors). The obstruction is raised exactly in STOPPED, and the target follows the movement |
| `Bridge.AccessoryFollowsMonitor` | index.js:121-126 | after any run of printed states, the accessory's current state is the one the last printed state shows |
| `Bridge.PollAndDeliver` | index.js:121-126 | one pass of the helper with its output delivered. The monitor's list becomes its mode-1 trim, and the state is printed and recorded exactly on a determinate change. A printed line reconciles the door into the state it shows, with its obstruction and target; no output leaves the door unchanged. Only the accessory's three door fields may change, and the door stays consistent |

## Left out

- HomeKit, HAP characteristics, logging and the host API: each `updateCharacteristic` and `callback` call is reduced to the value it carries.
- Process I/O is left out and replaced by parameters: `execSync`/`exec`, `spawn`, the shell command strings, and reading the `w1_master_slaves` listing and the `w1_slave` file. The open and close command lines also end in `accessory.statusFile`, which `index.js` never assigns, so they end in `undefined`. The model keeps only which command is chosen.
- The helper's stderr listener throws an error. Exceptions are not modelled.
- `handleTargetDoorStateSet` calls its callback at once, and again with an error if the script fails. Callback order is not modelled.
- The division by 1000 into floating-point degrees is left out: readings are the integer millidegrees.
- `parseInt` is modelled exactly on integers. IEEE rounding of very long numerals is not modelled.
- GPIO set-up, edge detection, `time.sleep`, and the spinlock and `updatinglist` re-entrancy guards are not modelled: the model is single-threaded.
- `Monitor.DoorMonitor.TrimEvents`: the result is always 0 or 1. When the `updatinglist` guard is held, the source returns None; that path cannot occur without concurrency.
- `time.time()` is the parameter `now`, a mathematical real: float rounding is not modelled. The model also reads the clock once per call. The source reads it on every iteration of the `TrimEvents` loop (garagedoormonitor.py:106), and `DetermineState` reads it again after trimming (garagedoormonitor.py:163). The readings differ only when a record crosses the two-second boundary between two reads; that case is not modelled.
- `Monitor.DoorMonitor.StatusChange`: requires `now` to be no earlier than the newest record, because the model keeps the records in time order. The source reads `time.time()`, so a wall clock set back between two edges is not modelled.
- The commented-out status-file write of the main loop is not modelled.
- Output chunking: the model delivers each printed line to `updateDoorState` as one chunk. Node may merge several lines into one chunk, in which case only the first line counts (`FirstLineOnly`), or split a line across chunks.
- `Accessory.GarageDoorOpener.SetTargetDoorState`: for a target other than 0 or 1, index.js:248 still calls `exec` with `command` undefined. HomeKit only sends 0 or 1, and what `exec(undefined)` does is not modelled: the model chooses no command (`CommandFor` gives `None`).
- `Accessory.GarageDoorOpener.constructor`: `ignore_errors` is a boolean option. JavaScript truthiness of other values (`"yes"`, `1`) is not modelled.
