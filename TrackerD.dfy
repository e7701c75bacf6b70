/**
 * The Dragino TrackerD uplink decoder: one decoder per LoRaWAN FPort, each
 * reading fixed byte offsets, and the dispatcher that chooses between them.
 *
 * Each decoder returns a JavaScript object literal with a fixed set of
 * properties; the model gives each shape its own constructor of `Uplink`,
 * one field per property. `PropertyNames` lists the properties of the object
 * in the order the source creates them. Quantities the source divides by a
 * power of ten are kept as exact fractions `Fixed(numerator, divisor)`:
 * latitude and longitude in millionths of a degree, battery voltage in
 * millivolts, humidity and temperature in tenths.
 */
module TrackerD {
  import opened Layout
  import opened JsText
  import opened Helpers
  import Fields

  datatype Option<T> = None | Some(value: T)

  /** The number `raw / divisor`. */
  datatype Fixed = Fixed(raw: int, divisor: nat)

  /** A property that is a string on one branch and a number on the other. */
  datatype Scalar = Text(s: string) | Number(n: int)

  datatype Uplink =
    | LocationAndStatus(
        latitude: Fixed, longitude: Fixed,
        batV: Fixed, batP: int, alarm: bool,
        mode: int, ledStatus: string, movement: string, backgroundMode: int,
        date: Option<DateTime>, hum: Option<Fixed>, tem: Option<Fixed>)
    | LocationWithTimestamp(latitude: Fixed, longitude: Fixed, dateText: string, timeText: string)
    | DeviceInformation(
        sensorMode: string, firmwareVersion: string, frequencyBand: string,
        subBand: Scalar, batV: Fixed, batP: int)
    | BeaconData(
        uuid: string, major: int, minor: int, power: int, rssi: int, rssiAt1m: int,
        batV: Fixed, batP: int, alarm: bool, mode: int)
    | SimpleStatus(batV: Fixed, batP: int, alarm: bool, mode: int, ledStatus: string)
    | WifiScan(
        wifiSsid: string, rssi: int,
        batV: Fixed, batP: int, alarm: bool, mode: int, ledStatus: string)
    | MacScan(
        mac1: string, rssi1: int, mac2: string, rssi2: int, mac3: string, rssi3: int,
        batV: Fixed, batP: int, alarm: bool, mode: int)
    | UnknownPort(error: string)

  /** The property names of the decoded object, in creation order. Only the
      unknown-port object has an `error` property. */
  function PropertyNames(u: Uplink): (names: seq<string>)
    ensures "error" in names <==> u.UnknownPort?
  {
    match u
    case LocationAndStatus(_, _, _, _, _, _, _, _, _, date, hum, tem) =>
      var base := ["Latitude", "Longitude", "BatV", "BatP", "Alarm", "Mode", "LED_Status", "Movement", "Background_Mode"];
      var tail: seq<string> := (if date.Some? then ["Date"] else [])
        + (if hum.Some? then ["Hum"] else [])
        + (if tem.Some? then ["Tem"] else []);
      assert "error" !in base && "error" !in tail;
      base + tail
    case LocationWithTimestamp(_, _, _, _) =>
      ["Latitude", "Longitude", "Date", "Time"]
    case DeviceInformation(_, _, _, _, _, _) =>
      ["Sensor_Mode", "Firmware_Version", "Frequency_Band", "Sub_Band", "BatV", "BatP"]
    case BeaconData(_, _, _, _, _, _, _, _, _, _) =>
      ["UUID", "MAJOR", "MINOR", "POWER", "RSSI", "RSSI_at_1m", "BatV", "BatP", "Alarm", "Mode"]
    case SimpleStatus(_, _, _, _, _) =>
      ["BatV", "BatP", "Alarm", "Mode", "LED_Status"]
    case WifiScan(_, _, _, _, _, _, _) =>
      ["WIFI_SSID", "RSSI", "BatV", "BatP", "Alarm", "Mode", "LED_Status"]
    case MacScan(_, _, _, _, _, _, _, _, _, _) =>
      ["MAC1", "RSSI1", "MAC2", "RSSI2", "MAC3", "RSSI3", "BatV", "BatP", "Alarm", "Mode"]
    case UnknownPort(_) =>
      ["error"]
  }

  /** `calculateBatteryLevel(mv / 1000)`, the percentage every decoder reports. */
  function BatteryLevel(mv: int): (level: int)
    ensures level == BatteryPercent(mv)
    ensures 0 <= level <= 100
  {
    BatteryLevelOfMillivolts(mv);
    CalculateBatteryLevel(mv as real / 1000.0)
  }

  /** The messages that carry the 14-bit battery voltage and the alarm flag. */
  predicate HasBattery(u: Uplink)
  {
    u.LocationAndStatus? || u.BeaconData? || u.SimpleStatus? || u.WifiScan? || u.MacScan?
  }

  /** The battery fields shared by FPorts 2, 3, 6, 7, 8 and 10: the low six
      bits of `hi` above `lo` in millivolts, its percentage, and the alarm
      flag in bit 6 of `hi`. */
  predicate ReportsBattery(u: Uplink, hi: byte, lo: byte)
  {
    var mv := BatteryMillivolts(hi, lo);
    && HasBattery(u)
    && u.batV == Fixed(mv, 1000)
    && u.batP == BatteryPercent(mv)
    && u.alarm == BatteryAlarm(hi)
  }

  function OnOff(on: bool): string
  {
    if on then "ON" else "OFF"
  }

  /** `((b0 << 24) | (b1 << 16) | (b2 << 8) | b3) / 1e6` for the four bytes at `at`. */
  function Coordinate(bytes: seq<byte>, at: nat): (c: Fixed)
    requires at + 4 <= |bytes|
    ensures c == Fixed(Int32BE(bytes[at], bytes[at + 1], bytes[at + 2], bytes[at + 3]), 1000000)
  {
    Fixed(Fields.Int32Word(bytes[at], bytes[at + 1], bytes[at + 2], bytes[at + 3]), 1000000)
  }

  // ---------------------------------------------------------------------
  // FPort 2 and 3: location, battery and status
  // ---------------------------------------------------------------------

  /** `bg === 1 && bytes.length >= 18`: the optional tail of an FPort 2/3
      message is a timestamp exactly when bit 3 of byte 10 is set and the
      message has at least 18 bytes. */
  predicate HasTimestamp(bytes: seq<byte>): (t: bool)
    requires |bytes| >= 11
    ensures t <==> Bit(bytes[10], 3) && |bytes| >= 18
  {
    Fields.BackgroundBit(bytes[10]) == 1 && |bytes| >= 18
  }

  /** The `else if (fPort === 2 && bytes.length >= 15)` branch: humidity and
      temperature, only on FPort 2 and never together with a timestamp. */
  predicate HasClimate(bytes: seq<byte>, fPort: int): (c: bool)
    requires |bytes| >= 11
    ensures c <==> fPort == 2 && |bytes| >= 15 && !(Bit(bytes[10], 3) && |bytes| >= 18)
    ensures c ==> !HasTimestamp(bytes)
  {
    !HasTimestamp(bytes) && fPort == 2 && |bytes| >= 15
  }

  /** The FPort 2/3 decoder: position, battery and status byte, then either
      the timestamp (background bit set and at least 18 bytes) or, on
      FPort 2 only, humidity and temperature (at least 15 bytes). */
  function DecodeLocationAndStatus(bytes: seq<byte>, fPort: int): (u: Uplink)
    requires |bytes| >= 11
    ensures u.LocationAndStatus?
    ensures u.latitude == Fixed(Int32BE(bytes[0], bytes[1], bytes[2], bytes[3]), 1000000)
    ensures u.longitude == Fixed(Int32BE(bytes[4], bytes[5], bytes[6], bytes[7]), 1000000)
    ensures ReportsBattery(u, bytes[8], bytes[9])
    ensures u.mode == 64 * TopTwoBits(bytes[10])
    ensures u.ledStatus == OnOff(Bit(bytes[10], 5))
    ensures u.movement == (if Bit(bytes[10], 4) then "MOVE" else "STILL")
    ensures u.backgroundMode == (if Bit(bytes[10], 3) then 1 else 0)
    ensures u.date == (if HasTimestamp(bytes) then Some(FormatDateTime(bytes[11..18])) else None)
    ensures u.hum == (if HasClimate(bytes, fPort) then Some(Fixed(Uint16BE(bytes[11], bytes[12]), 10)) else None)
    ensures u.tem == (if HasClimate(bytes, fPort) then Some(Fixed(Int16BE(bytes[13], bytes[14]), 10)) else None)
  {
    var mv := Fields.MillivoltsWord(bytes[8], bytes[9]);
    var bg := Fields.BackgroundBit(bytes[10]);
    var data := LocationAndStatus(
      Coordinate(bytes, 0), Coordinate(bytes, 4),
      Fixed(mv, 1000), BatteryLevel(mv), Fields.AlarmFlag(bytes[8]),
      Fields.ModeInPlace(bytes[10]),
      OnOff(Fields.LedFlag(bytes[10])),
      if Fields.MovementFlag(bytes[10]) then "MOVE" else "STILL",
      bg, None, None, None);
    if bg == 1 && |bytes| >= 18 then
      data.(date := Some(FormatDateTime(bytes[11..18])))
    else if fPort == 2 && |bytes| >= 15 then
      data.(hum := Some(Fixed(Fields.Uint16Word(bytes[11], bytes[12]), 10)),
            tem := Some(Fixed(Fields.Int16Word(bytes[13], bytes[14]), 10)))
    else
      data
  }

  // ---------------------------------------------------------------------
  // FPort 4: location with timestamp
  // ---------------------------------------------------------------------

  function DecodeLocationWithTimestamp(bytes: seq<byte>): (u: Uplink)
    requires |bytes| >= 15
    ensures u.LocationWithTimestamp?
    ensures u.latitude == Fixed(Int32BE(bytes[0], bytes[1], bytes[2], bytes[3]), 1000000)
    ensures u.longitude == Fixed(Int32BE(bytes[4], bytes[5], bytes[6], bytes[7]), 1000000)
    ensures u.dateText == FormatDateTime(bytes[8..15]).date
    ensures u.timeText == FormatDateTime(bytes[8..15]).time
  {
    var datetime := FormatDateTime(bytes[8..15]);
    LocationWithTimestamp(Coordinate(bytes, 0), Coordinate(bytes, 4), datetime.date, datetime.time)
  }

  // ---------------------------------------------------------------------
  // FPort 5: device information
  // ---------------------------------------------------------------------

  const Bands: seq<string> := [
    "EU868", "US915", "IN865", "AU915", "KZ865", "RU864", "AS923",
    "AS923_1", "AS923_2", "AS923_3", "CN470", "EU433", "KR920", "MA869"]

  /** `bands[i]`: the entry, or `undefined` outside the array. */
  function BandEntry(i: int): (e: Option<string>)
    ensures e.Some? <==> 0 <= i < |Bands|
  {
    if 0 <= i < |Bands| then Some(Bands[i]) else None
  }

  /** `bands[code - 1] || "Unknown"`: `undefined` and the empty string fall
      through to "Unknown". */
  /** Codes 1 to 14 name a band; every other code is "Unknown". */
  function FrequencyBand(code: byte): (band: string)
    ensures 1 <= code <= 14 ==> band == Bands[code - 1]
    ensures (code == 0 || code > 14) ==> band == "Unknown"
  {
    assert 1 <= code <= 14 ==> Bands[code - 1] != "";
    match BandEntry(code - 1)
    case Some(s) => if s != "" then s else "Unknown"
    case None => "Unknown"
  }

  /** `${b1 & 0x0F}.${(b2 >> 4) & 0x0F}.${b2 & 0x0F}`: three decimal numbers
      joined by dots, which read back as the low nibble of b1 and the two
      nibbles of b2. */
  function FirmwareVersion(b1: byte, b2: byte): (v: string)
    ensures var a, b, c := NatToString(LowNibble(b1), 10), NatToString(HighNibble(b2), 10), NatToString(LowNibble(b2), 10);
      && v == a + "." + b + "." + c
      && ParseNat(a, 10) == LowNibble(b1)
      && ParseNat(b, 10) == HighNibble(b2)
      && ParseNat(c, 10) == LowNibble(b2)
  {
    ParseNatToString(LowNibble(b1), 10);
    ParseNatToString(HighNibble(b2), 10);
    ParseNatToString(LowNibble(b2), 10);
    var major: nat := Fields.LowNibbleWord(b1);
    var minor: nat := Fields.HighNibbleWord(b2);
    var patch: nat := Fields.LowNibbleWord(b2);
    NatToString(major, 10) + "." + NatToString(minor, 10) + "." + NatToString(patch, 10)
  }

  /** FPort 5. Unlike the other ports, the battery word here is the full
      16-bit value `(b5 << 8) | b6`, with no mask and no alarm flag. */
  function DecodeDeviceInformation(bytes: seq<byte>): (u: Uplink)
    requires |bytes| >= 7
    ensures u.DeviceInformation?
    ensures u.sensorMode == (if bytes[0] == 0x13 then "TrackerD" else "NULL")
    ensures u.firmwareVersion == FirmwareVersion(bytes[1], bytes[2])
    ensures u.frequencyBand == FrequencyBand(bytes[3])
    ensures u.subBand == (if bytes[4] == 0xFF then Text("NULL") else Number(bytes[4]))
    ensures u.batV == Fixed(Uint16BE(bytes[5], bytes[6]), 1000)
    ensures u.batP == BatteryPercent(Uint16BE(bytes[5], bytes[6]))
  {
    var mv := Fields.Uint16Word(bytes[5], bytes[6]);
    DeviceInformation(
      if bytes[0] == 0x13 then "TrackerD" else "NULL",
      FirmwareVersion(bytes[1], bytes[2]),
      FrequencyBand(bytes[3]),
      if bytes[4] == 0xFF then Text("NULL") else Number(bytes[4]),
      Fixed(mv, 1000), BatteryLevel(mv))
  }

  // ---------------------------------------------------------------------
  // FPort 6: iBeacon
  // ---------------------------------------------------------------------

  function DecodeBeaconData(bytes: seq<byte>): (u: Uplink)
    requires |bytes| >= 27
    ensures u.BeaconData?
    ensures u.uuid == BytesToHex(bytes[0..16])
    ensures u.major == Uint16BE(bytes[16], bytes[17])
    ensures u.minor == Uint16BE(bytes[18], bytes[19])
    ensures u.power == bytes[15]
    ensures u.rssi == Int8(bytes[23])
    ensures u.rssiAt1m == Int8(bytes[21])
    ensures ReportsBattery(u, bytes[24], bytes[25])
    ensures u.mode == TopTwoBits(bytes[26])
  {
    var mv := Fields.MillivoltsWord(bytes[24], bytes[25]);
    BeaconData(
      BytesToHex(bytes[0..16]),
      Fields.Uint16Word(bytes[16], bytes[17]),
      Fields.Uint16Word(bytes[18], bytes[19]),
      bytes[15],
      Fields.Int8Word(bytes[23]),
      Fields.Int8Word(bytes[21]),
      Fixed(mv, 1000), BatteryLevel(mv), Fields.AlarmFlag(bytes[24]),
      Fields.ModeShifted(bytes[26]))
  }

  // ---------------------------------------------------------------------
  // FPort 7: battery and status
  // ---------------------------------------------------------------------

  function DecodeSimpleStatus(bytes: seq<byte>): (u: Uplink)
    requires |bytes| >= 3
    ensures u.SimpleStatus?
    ensures ReportsBattery(u, bytes[0], bytes[1])
    ensures u.mode == TopTwoBits(bytes[2])
    ensures u.ledStatus == OnOff(Bit(bytes[2], 5))
  {
    var mv := Fields.MillivoltsWord(bytes[0], bytes[1]);
    SimpleStatus(
      Fixed(mv, 1000), BatteryLevel(mv), Fields.AlarmFlag(bytes[0]),
      Fields.ModeShifted(bytes[2]),
      OnOff(Fields.LedFlag(bytes[2])))
  }

  // ---------------------------------------------------------------------
  // FPort 8: Wi-Fi SSID
  // ---------------------------------------------------------------------

  function DecodeWifiScan(bytes: seq<byte>): (u: Uplink)
    requires |bytes| >= 10
    ensures u.WifiScan?
    ensures |u.wifiSsid| == 6
    ensures forall i :: 0 <= i < 6 ==> u.wifiSsid[i] as int == bytes[i]
    ensures u.rssi == Int8(bytes[6])
    ensures ReportsBattery(u, bytes[7], bytes[8])
    ensures u.mode == TopTwoBits(bytes[9])
    ensures u.ledStatus == OnOff(Bit(bytes[9], 5))
  {
    var mv := Fields.MillivoltsWord(bytes[7], bytes[8]);
    WifiScan(
      FromCharCodes(bytes[0..6]),
      Fields.Int8Word(bytes[6]),
      Fixed(mv, 1000), BatteryLevel(mv), Fields.AlarmFlag(bytes[7]),
      Fields.ModeShifted(bytes[9]),
      OnOff(Fields.LedFlag(bytes[9])))
  }

  // ---------------------------------------------------------------------
  // FPort 10: three MAC addresses with their signal strengths
  // ---------------------------------------------------------------------

  function DecodeMacScan(bytes: seq<byte>): (u: Uplink)
    requires |bytes| >= 24
    ensures u.MacScan?
    ensures u.mac1 == BytesToHex(bytes[0..6]) && u.rssi1 == Int8(bytes[6])
    ensures u.mac2 == BytesToHex(bytes[7..13]) && u.rssi2 == Int8(bytes[13])
    ensures u.mac3 == BytesToHex(bytes[14..20]) && u.rssi3 == Int8(bytes[20])
    ensures ReportsBattery(u, bytes[21], bytes[22])
    ensures u.mode == TopTwoBits(bytes[23])
  {
    MacScan(
      BytesToHex(bytes[0..6]), Fields.Int8Word(bytes[6]),
      BytesToHex(bytes[7..13]), Fields.Int8Word(bytes[13]),
      BytesToHex(bytes[14..20]), Fields.Int8Word(bytes[20]),
      Fixed(Fields.MillivoltsWord(bytes[21], bytes[22]), 1000),
      BatteryLevel(Fields.MillivoltsWord(bytes[21], bytes[22])),
      Fields.AlarmFlag(bytes[21]),
      Fields.ModeShifted(bytes[23]))
  }

  // ---------------------------------------------------------------------
  // The dispatcher
  // ---------------------------------------------------------------------

  predicate KnownPort(fPort: int)
  {
    fPort in {2, 3, 4, 5, 6, 7, 8, 10}
  }

  /** The shortest message each decoder reads without running off the end. */
  function MinLength(fPort: int): nat
  {
    match fPort
    case 2 => 11
    case 3 => 11
    case 4 => 15
    case 5 => 7
    case 6 => 27
    case 7 => 3
    case 8 => 10
    case 10 => 24
    case _ => 0
  }

  /** `decode(fPort, bytes)`: the decoder of the port, or the error object. */
  function Decode(fPort: int, bytes: seq<byte>): (u: Uplink)
    requires |bytes| >= MinLength(fPort)
    ensures u.UnknownPort? <==> !KnownPort(fPort)
    ensures !KnownPort(fPort) ==> u == UnknownPort("Unknown fPort")
    ensures (fPort == 2 || fPort == 3) ==> u.LocationAndStatus?
    ensures fPort == 4 ==> u.LocationWithTimestamp?
    ensures fPort == 5 ==> u.DeviceInformation?
    ensures fPort == 6 ==> u.BeaconData?
    ensures fPort == 7 ==> u.SimpleStatus?
    ensures fPort == 8 ==> u.WifiScan?
    ensures fPort == 10 ==> u.MacScan?
    ensures (fPort == 2 || fPort == 3) ==> u == DecodeLocationAndStatus(bytes, fPort)
    ensures fPort == 4 ==> u == DecodeLocationWithTimestamp(bytes)
    ensures fPort == 5 ==> u == DecodeDeviceInformation(bytes)
    ensures fPort == 6 ==> u == DecodeBeaconData(bytes)
    ensures fPort == 7 ==> u == DecodeSimpleStatus(bytes)
    ensures fPort == 8 ==> u == DecodeWifiScan(bytes)
    ensures fPort == 10 ==> u == DecodeMacScan(bytes)
  {
    match fPort
    case 2 => DecodeLocationAndStatus(bytes, fPort)
    case 3 => DecodeLocationAndStatus(bytes, fPort)
    case 4 => DecodeLocationWithTimestamp(bytes)
    case 5 => DecodeDeviceInformation(bytes)
    case 6 => DecodeBeaconData(bytes)
    case 7 => DecodeSimpleStatus(bytes)
    case 8 => DecodeWifiScan(bytes)
    case 10 => DecodeMacScan(bytes)
    case _ => UnknownPort("Unknown fPort")
  }

  // ---------------------------------------------------------------------
  // Properties of the decoded messages
  // ---------------------------------------------------------------------

  /** An unknown port yields an object whose only property is `error`. */
  lemma UnknownPortHasOnlyError(fPort: int, bytes: seq<byte>)
    requires !KnownPort(fPort)
    ensures PropertyNames(Decode(fPort, bytes)) == ["error"]
    ensures Decode(fPort, bytes).error == "Unknown fPort"
  {}

  /** No decoder of a known port produces an `error` property. */
  lemma KnownPortHasNoError(fPort: int, bytes: seq<byte>)
    requires KnownPort(fPort) && |bytes| >= MinLength(fPort)
    ensures "error" !in PropertyNames(Decode(fPort, bytes))
  {}

  /** The property names of an FPort 2/3 object: the nine status fields,
      then `Date`, `Hum` and `Tem` as far as they are present. */
  lemma LocationNames(u: Uplink)
    requires u.LocationAndStatus?
    ensures var names := PropertyNames(u);
      && ("Date" in names <==> u.date.Some?)
      && ("Hum" in names <==> u.hum.Some?)
      && ("Tem" in names <==> u.tem.Some?)
      && "error" !in names
  {
    var base := ["Latitude", "Longitude", "BatV", "BatP", "Alarm", "Mode", "LED_Status", "Movement", "Background_Mode"];
    var d: seq<string> := if u.date.Some? then ["Date"] else [];
    var h: seq<string> := if u.hum.Some? then ["Hum"] else [];
    var t: seq<string> := if u.tem.Some? then ["Tem"] else [];
    assert PropertyNames(u) == base + d + h + t;
    assert "Date" !in base && "Hum" !in base && "Tem" !in base && "error" !in base;
    assert "Date" !in h + t && "Hum" !in d + t && "Tem" !in d + h;
    assert "error" !in d + h + t;
  }

  /** The FPort 2/3 tail: `Date` exactly when the background bit is set and
      the message has 18 bytes; otherwise `Hum` and `Tem` exactly on FPort 2
      with at least 15 bytes. */
  lemma LocationTail(bytes: seq<byte>, fPort: int)
    requires |bytes| >= 11
    ensures var names := PropertyNames(DecodeLocationAndStatus(bytes, fPort));
      && ("Date" in names <==> Bit(bytes[10], 3) && |bytes| >= 18)
      && ("Hum" in names <==> !("Date" in names) && fPort == 2 && |bytes| >= 15)
      && ("Tem" in names <==> "Hum" in names)
  {
    LocationNames(DecodeLocationAndStatus(bytes, fPort));
  }

  /** Humidity is an unsigned and temperature a signed 16-bit count of tenths. */
  lemma ClimateRange(bytes: seq<byte>)
    requires |bytes| >= 11
    ensures var u := DecodeLocationAndStatus(bytes, 2);
      && (u.hum.Some? ==> 0 <= u.hum.value.raw <= 0xFFFF && u.hum.value.divisor == 10)
      && (u.tem.Some? ==> -0x8000 <= u.tem.value.raw <= 0x7FFF && u.tem.value.divisor == 10)
  {
    if |bytes| >= 15 {
      Int16Range(bytes[13], bytes[14]);
    }
  }

  /** FPort 3 never carries humidity or temperature. */
  lemma Port3HasNoClimate(bytes: seq<byte>)
    requires |bytes| >= 11
    ensures Decode(3, bytes).hum.None? && Decode(3, bytes).tem.None?
  {}

  /** On FPort 2/3, Mode is bits 7..6 left in place and Background_Mode is a single bit. */
  lemma LocationModeValues(bytes: seq<byte>, fPort: int)
    requires |bytes| >= 11
    ensures DecodeLocationAndStatus(bytes, fPort).mode in {0, 64, 128, 192}
    ensures DecodeLocationAndStatus(bytes, fPort).backgroundMode in {0, 1}
  {
    var u := DecodeLocationAndStatus(bytes, fPort);
    ModeInPlaceValues(u.mode, bytes[10]);
  }

  lemma ModeInPlaceValues(m: int, b: byte)
    requires m == 64 * TopTwoBits(b)
    ensures m in {0, 64, 128, 192}
  {
    TopTwoBitsRange(b);
  }

  /** On FPorts 6, 7, 8 and 10, Mode is bits 7..6 shifted down: 0 to 3. */
  lemma ShiftedModeRange(fPort: int, bytes: seq<byte>)
    requires fPort in {6, 7, 8, 10} && |bytes| >= MinLength(fPort)
    ensures 0 <= Decode(fPort, bytes).mode <= 3
  {
    var b := if fPort == 6 then bytes[26] else if fPort == 7 then bytes[2]
      else if fPort == 8 then bytes[9] else bytes[23];
    TopTwoBitsRange(b);
  }

  /** LED_Status is "ON" exactly when bit 5 of the status byte is set. */
  lemma LedStatusIffBit5(fPort: int, bytes: seq<byte>)
    requires fPort in {2, 3, 7, 8} && |bytes| >= MinLength(fPort)
    ensures var b := if fPort == 7 then bytes[2] else if fPort == 8 then bytes[9] else bytes[10];
      && (Decode(fPort, bytes).ledStatus == "ON" <==> Bit(b, 5))
      && (Decode(fPort, bytes).ledStatus == "OFF" <==> !Bit(b, 5))
  {}

  /** Every signal strength is a signed byte. */
  lemma RssiRange(fPort: int, bytes: seq<byte>)
    requires fPort in {6, 8, 10} && |bytes| >= MinLength(fPort)
    ensures var u := Decode(fPort, bytes);
      && (u.BeaconData? ==> -128 <= u.rssi <= 127 && -128 <= u.rssiAt1m <= 127)
      && (u.WifiScan? ==> -128 <= u.rssi <= 127)
      && (u.MacScan? ==> -128 <= u.rssi1 <= 127 && -128 <= u.rssi2 <= 127 && -128 <= u.rssi3 <= 127)
  {
    if fPort == 6 {
      Int8Range(bytes[23]);
      Int8Range(bytes[21]);
    } else if fPort == 8 {
      Int8Range(bytes[6]);
    } else {
      Int8Range(bytes[6]);
      Int8Range(bytes[13]);
      Int8Range(bytes[20]);
    }
  }

  /** Where the two battery bytes sit in the messages that carry the alarm flag. */
  function BatteryOffset(fPort: int): nat
  {
    match fPort
    case 2 => 8
    case 3 => 8
    case 6 => 24
    case 8 => 7
    case 10 => 21
    case _ => 0
  }

  /** FPorts 2, 3, 6, 7, 8 and 10 all pack the battery the same way, at their own offset. */
  lemma SameBatteryPacking(fPort: int, bytes: seq<byte>)
    requires fPort in {2, 3, 6, 7, 8, 10} && |bytes| >= MinLength(fPort)
    ensures BatteryOffset(fPort) + 2 <= |bytes|
    ensures ReportsBattery(Decode(fPort, bytes), bytes[BatteryOffset(fPort)], bytes[BatteryOffset(fPort) + 1])
  {
    if fPort == 2 || fPort == 3 {
      assert Decode(fPort, bytes) == DecodeLocationAndStatus(bytes, fPort);
    } else if fPort == 6 {
      assert Decode(fPort, bytes) == DecodeBeaconData(bytes);
    } else if fPort == 7 {
      assert Decode(fPort, bytes) == DecodeSimpleStatus(bytes);
    } else if fPort == 8 {
      assert Decode(fPort, bytes) == DecodeWifiScan(bytes);
    } else {
      assert Decode(fPort, bytes) == DecodeMacScan(bytes);
    }
  }

  /** The voltage and percentage ranges of a message with the shared battery packing. */
  lemma BatteryFieldsRange(u: Uplink, hi: byte, lo: byte)
    requires ReportsBattery(u, hi, lo)
    ensures 0 <= u.batV.raw <= 16383 && u.batV.divisor == 1000
    ensures 0 <= u.batP <= 100
  {
    BatteryMillivoltsRange(hi, lo);
    BatteryPercentRange(u.batV.raw);
  }

  /** Every message with a battery voltage: 14 bits on the ports that pack
      it with the alarm flag, the full 16 bits on FPort 5. */
  lemma BatteryRange(fPort: int, bytes: seq<byte>)
    requires |bytes| >= MinLength(fPort)
    ensures var u := Decode(fPort, bytes);
      && (HasBattery(u) ==> 0 <= u.batV.raw <= 16383 && u.batV.divisor == 1000)
      && (u.DeviceInformation? ==> 0 <= u.batV.raw <= 0xFFFF && u.batV.divisor == 1000)
      && (HasBattery(u) || u.DeviceInformation? ==> 0 <= u.batP <= 100)
  {
    var u := Decode(fPort, bytes);
    if fPort in {2, 3, 6, 7, 8, 10} {
      SameBatteryPacking(fPort, bytes);
      BatteryFieldsRange(u, bytes[BatteryOffset(fPort)], bytes[BatteryOffset(fPort) + 1]);
    } else if fPort == 5 {
      BatteryPercentRange(u.batV.raw);
    }
  }

  /** On FPort 5 the top two bits of byte 5 are part of the voltage: a
      value no other port can report. */
  lemma DeviceBatteryUnmasked(bytes: seq<byte>)
    requires |bytes| >= 7 && bytes[5] >= 64
    ensures DecodeDeviceInformation(bytes).batV.raw > 16383
  {}

  lemma BatteryPercentRange(mv: int)
    ensures 0 <= BatteryPercent(mv) <= 100
  {
    BatteryLevelOfMillivolts(mv);
  }

  /** The battery bytes can be rebuilt from the decoded voltage and alarm:
      only bit 7 of the high byte is lost. */
  lemma BatteryReencodes(u: Uplink, hi: byte, lo: byte)
    requires ReportsBattery(u, hi, lo)
    ensures EncodeBattery(u.batV.raw, u.alarm) == (hi % 128, lo)
  {
    BatteryReencode(hi, lo);
  }

  /** The coordinates re-encode to the bytes they were read from. */
  lemma CoordinatesReencode(fPort: int, bytes: seq<byte>)
    requires fPort in {2, 3, 4} && |bytes| >= MinLength(fPort)
    ensures EncodeInt32BE(Decode(fPort, bytes).latitude.raw) == bytes[0..4]
    ensures EncodeInt32BE(Decode(fPort, bytes).longitude.raw) == bytes[4..8]
  {
    Int32Reencode(bytes[0], bytes[1], bytes[2], bytes[3]);
    Int32Reencode(bytes[4], bytes[5], bytes[6], bytes[7]);
    assert bytes[0..4] == [bytes[0], bytes[1], bytes[2], bytes[3]];
    assert bytes[4..8] == [bytes[4], bytes[5], bytes[6], bytes[7]];
  }

  /** The UUID is 32 lower-case hexadecimal digits and reads back as bytes 0..15. */
  lemma BeaconUuid(bytes: seq<byte>)
    requires |bytes| >= 27
    ensures var uuid := DecodeBeaconData(bytes).uuid;
      && |uuid| == 32
      && (forall i :: 0 <= i < 32 ==> IsDigitOf(uuid[i], 16))
      && HexToBytes(uuid) == bytes[0..16]
  {
    HexIsLowerCase(bytes[0..16]);
    HexRoundTrip(bytes[0..16]);
  }

  /** POWER repeats the last byte of the UUID. */
  lemma PowerIsLastUuidByte(bytes: seq<byte>)
    requires |bytes| >= 27
    ensures var u := DecodeBeaconData(bytes);
      |HexToBytes(u.uuid)| == 16 && HexToBytes(u.uuid)[15] == u.power
  {
    BeaconUuid(bytes);
  }

  /** Each MAC address is 12 lower-case hexadecimal digits and reads back as its six bytes. */
  lemma MacAddresses(bytes: seq<byte>)
    requires |bytes| >= 24
    ensures var u := DecodeMacScan(bytes);
      && |u.mac1| == 12 && |u.mac2| == 12 && |u.mac3| == 12
      && HexToBytes(u.mac1) == bytes[0..6]
      && HexToBytes(u.mac2) == bytes[7..13]
      && HexToBytes(u.mac3) == bytes[14..20]
      && (forall i :: 0 <= i < 12 ==> IsDigitOf(u.mac1[i], 16) && IsDigitOf(u.mac2[i], 16) && IsDigitOf(u.mac3[i], 16))
  {
    HexIsLowerCase(bytes[0..6]);
    HexIsLowerCase(bytes[7..13]);
    HexIsLowerCase(bytes[14..20]);
    HexRoundTrip(bytes[0..6]);
    HexRoundTrip(bytes[7..13]);
    HexRoundTrip(bytes[14..20]);
  }

  /** A status uplink on FPort 7: 0x0C80 is 3200 mV with no alarm, and
      0x40 is mode 1 with the LED off. */
  lemma SimpleStatusExample(bytes: seq<byte>)
    requires bytes == [0x0C, 0x80, 0x40]
    ensures Decode(7, bytes) == SimpleStatus(Fixed(3200, 1000), 33, false, 1, "OFF")
  {
    assert BatteryMillivolts(bytes[0], bytes[1]) == 3200;
    assert TopTwoBits(bytes[2]) == 1;
    assert !Bit(bytes[2], 5) && !Bit(bytes[0], 6);
  }
}
