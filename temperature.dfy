/**
 * The DS18B20 temperature reading of index.js: where the sensor's data file is,
 * and how the text of that file becomes a reading.
 */
module Temperature {
  import opened Wrappers
  import opened Text

  /** The w1_slave file of sensor `serial` on the 1-Wire bus directory `sensorPath`. */
  function SensorDataPath(sensorPath: string, serial: string): (p: string)
    ensures |p| == |sensorPath| + |serial| + 10
    ensures p[..|sensorPath|] == sensorPath && p[|sensorPath|] == '/'
    ensures p[|sensorPath| + 1..|p| - 9] == serial
    ensures EndsWith(p, "/w1_slave")
  {
    sensorPath + "/" + serial + "/w1_slave"
  }

  /** The serial number in use and the data file queried; an empty data file means no sensor. */
  datatype Sensor = Sensor(serial: string, data: string)

  /**
   * The sensor lookup at the start of getServices: a configured serial number is
   * trimmed and used; without one, the whole trimmed output of `head` on the bus
   * master's slave listing (`listing`) is used, and an empty listing means no sensor.
   */
  function ResolveSensor(configured: string, sensorPath: string, listing: string): Sensor {
    var serial := Trim(configured);
    if serial == "" then
      var res := Trim(listing);
      if res != "" then Sensor(res, SensorDataPath(sensorPath, res)) else Sensor(serial, "")
    else Sensor(serial, SensorDataPath(sensorPath, serial))
  }

  /**
   * A sensor is in use exactly when a data file is queried, the file is that sensor's
   * w1_slave file, and a configured serial number takes precedence over the listing.
   */
  lemma ResolveSensorSpec(configured: string, sensorPath: string, listing: string)
    ensures var r := ResolveSensor(configured, sensorPath, listing);
      && (r.data != "" <==> r.serial != "")
      && (r.serial != "" ==> r.data == SensorDataPath(sensorPath, r.serial))
      && (!AllSpace(configured) ==> r.serial == Trim(configured))
      && (AllSpace(configured) ==> r.serial == Trim(listing))
      && (r.serial == "" <==> AllSpace(configured) && AllSpace(listing))
  {
    TrimSpec(configured);
    TrimSpec(listing);
  }

  /** What getTemperature hands back. */
  datatype Reading =
    | Millidegrees(value: int)  // the integer after `t=`; the host is given value / 1000 degrees
    | NotANumber                // parseInt found no digits, so the host is given NaN
    | CrcError                  // the first line does not end in YES
    | ReadFailed                // reading the file failed
    | NoSecondLine              // line 2 is missing: `array[1].split` throws a TypeError

  /**
   * getTemperature: `output` is the text of the data file, or `None` when reading it
   * failed. No sensor reads as 0.
   */
  function Temperature(sensorData: string, output: Option<string>): (r: Reading)
    ensures sensorData == "" ==> r == Millidegrees(0)
    ensures sensorData != "" && output.None? ==> r == ReadFailed
    ensures sensorData != "" && output.Some? ==> r == FromFile(output.value)
  {
    if sensorData == "" then Millidegrees(0)
    else
      match output
      case None => ReadFailed
      case Some(stdout) => FromFile(stdout)
  }

  /** The CRC check on line 1 of the data file, then the reading on line 2. */
  function FromFile(stdout: string): (r: Reading)
    ensures r == CrcError <==> !EndsWith(Segment(stdout, "\n", 0).value, "YES")
    ensures r != CrcError ==> r == (if Segment(stdout, "\n", 1).None? then NoSecondLine
                                    else FromSecondLine(Segment(stdout, "\n", 1).value))
  {
    if !EndsWith(Segment(stdout, "\n", 0).value, "YES") then CrcError
    else
      match Segment(stdout, "\n", 1)
      case None => NoSecondLine
      case Some(line1) => FromSecondLine(line1)
  }

  /** The integer after the first `t=` of line 2, as parseInt reads it. */
  function FromSecondLine(line1: string): (r: Reading)
    ensures r.Millidegrees? || r == NotANumber
    ensures r.Millidegrees? <==> Segment(line1, "t=", 1).Some? && ParseInt(Segment(line1, "t=", 1).value).Some?
    ensures r.Millidegrees? ==> ParseInt(Segment(line1, "t=", 1).value) == Some(r.value)
  {
    match Segment(line1, "t=", 1)
    case None => NotANumber
    case Some(ts) =>
      match ParseInt(ts)
      case None => NotANumber
      case Some(v) => Millidegrees(v)
  }

  /** A second line `raw` + `t=` + a numeral reads as that numeral's value. */
  lemma {:induction false} ReadsSecondLine(raw: string, m: int)
    requires '\n' !in raw && 't' !in raw
    ensures FromSecondLine(raw + "t=" + Numeral(m)) == Millidegrees(m)
  {
    var num := Numeral(m);
    assert forall i :: 0 <= i < |num| ==> num[i] == '-' || '0' <= num[i] <= '9';
    SplitAfter(raw, "t=", num, 0);
    NoSeparatorStart(num, "t=");
    SplitWhole(num, "t=");
    ParseIntNumeral(m);
  }

  /** Line 1 ending in YES is followed by line 2, which alone decides the reading. */
  lemma {:induction false} ReadsLines(crc: string, line1: string, rest: string)
    requires EndsWith(crc, "YES") && '\n' !in crc && '\n' !in line1
    requires rest == [] || rest[0] == '\n'
    ensures FromFile(crc + "\n" + line1 + rest) == FromSecondLine(line1)
  {
    var stdout := crc + "\n" + line1 + rest;
    assert stdout == crc + "\n" + (line1 + rest);
    SplitAfter(crc, "\n", line1 + rest, 0);
    if rest == [] {
      assert line1 + rest == line1;
      NoSeparatorStart(line1, "\n");
      SplitWhole(line1, "\n");
    } else {
      assert line1 + rest == line1 + "\n" + rest[1..];
      SplitAfter(line1, "\n", rest[1..], 0);
    }
  }

  /**
   * A data file in the driver's layout, a first line ending in YES and a second line
   * ending in `t=` and the temperature in millidegrees, reads back that temperature,
   * whatever lines follow.
   */
  lemma ReadsDriverFile(sensorData: string, crc: string, raw: string, m: int, rest: string)
    requires sensorData != ""
    requires EndsWith(crc, "YES") && '\n' !in crc
    requires '\n' !in raw && 't' !in raw
    requires rest == [] || rest[0] == '\n'
    ensures Temperature(sensorData, Some(crc + "\n" + raw + "t=" + Numeral(m) + rest)) == Millidegrees(m)
  {
    var num := Numeral(m);
    var line1 := raw + "t=" + num;
    assert '\n' !in line1 by {
      assert forall i :: 0 <= i < |num| ==> num[i] == '-' || '0' <= num[i] <= '9';
      assert forall i :: 0 <= i < |line1| ==> line1[i] in raw || line1[i] in "t=" || line1[i] in num;
    }
    assert crc + "\n" + raw + "t=" + num + rest == crc + "\n" + line1 + rest;
    ReadsLines(crc, line1, rest);
    ReadsSecondLine(raw, m);
  }

  /** The example reading of 21.5 degrees: the file `... YES` / `... t=21500`. */
  lemma ReadsExample(sensorData: string, file: string)
    requires sensorData != ""
    requires file == "... YES\n... t=21500"
    ensures Temperature(sensorData, Some(file)) == Millidegrees(21500)
  {
    var m := 21500;
    DecimalExample();
    assert file == "... YES" + "\n" + "... " + "t=" + Numeral(m) + "";
    ReadsDriverFile(sensorData, "... YES", "... ", m, "");
  }

  /** The numeral of the example reading. */
  lemma DecimalExample()
    ensures Numeral(21500) == "21500"
  {
    assert Decimal(2) == "2";
    assert Decimal(21) == "21";
    assert Decimal(215) == "215";
    assert Decimal(2150) == "2150";
  }
}
